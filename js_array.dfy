/** The JavaScript array operations the actions rely on, with ECMAScript's index rules. */
module JsArray {

  /** `Array.prototype.findIndex`: the first index whose element satisfies `p`, or -1. */
  function FindIndex<T>(s: seq<T>, p: T -> bool): (r: int)
    ensures -1 <= r < |s|
    ensures r == -1 <==> forall i :: 0 <= i < |s| ==> !p(s[i])
    ensures 0 <= r ==> p(s[r]) && forall i :: 0 <= i < r ==> !p(s[i])
  {
    if s == [] then -1
    else if p(s[0]) then 0
    else
      var r := FindIndex(s[1..], p);
      if r == -1 then -1 else r + 1
  }

  /** The actual start of `splice(start, ...)` on an array of length `len`: a negative start
      counts back from the end, and the result is clamped to `0..len`. */
  function SpliceStart(len: nat, start: int): (k: nat)
    ensures k <= len
    ensures 0 <= start <= len ==> k == start
    ensures len < start ==> k == len
    ensures start < 0 && 0 <= len + start ==> k == len + start
    ensures len + start < 0 ==> k == 0
  {
    if start < 0 then (if len + start < 0 then 0 else len + start)
    else if start > len then len
    else start
  }

  /** What is left of `s` after `s.splice(k, 1)` with `k` inside the array. */
  function RemoveAt<T>(s: seq<T>, k: nat): (r: seq<T>)
    requires k < |s|
    ensures |r| == |s| - 1
    ensures forall i :: 0 <= i < |r| ==> r[i] == if i < k then s[i] else s[i + 1]
    ensures multiset(r) + multiset{s[k]} == multiset(s)
  {
    assert s == s[..k] + [s[k]] + s[k + 1..];
    s[..k] + s[k + 1..]
  }

  lemma RemoveAtJoin<T>(a: seq<T>, x: T, c: seq<T>)
    ensures (a + [x] + c)[|a|] == x
    ensures RemoveAt(a + [x] + c, |a|) == a + c
  {
    assert (a + [x] + c)[..|a|] == a;
    assert (a + [x] + c)[|a| + 1..] == c;
  }

  /** `s` after `s.splice(start, 0, x)`. */
  function InsertAt<T>(s: seq<T>, start: int, x: T): (r: seq<T>)
    ensures |r| == |s| + 1
    ensures r[SpliceStart(|s|, start)] == x
    ensures RemoveAt(r, SpliceStart(|s|, start)) == s
    ensures multiset(r) == multiset(s) + multiset{x}
  {
    var k := SpliceStart(|s|, start);
    var r := s[..k] + [x] + s[k..];
    assert s == s[..k] + s[k..];
    assert RemoveAt(r, k) == s;
    r
  }

  /** `const [x] = s.splice(from, 1); s.splice(to, 0, x)`: `to` is applied to the shortened array. */
  function Move<T>(s: seq<T>, from: nat, to: int): (r: seq<T>)
    requires from < |s|
    ensures |r| == |s| && multiset(r) == multiset(s)
    ensures r[SpliceStart(|s| - 1, to)] == s[from]
    ensures RemoveAt(r, SpliceStart(|s| - 1, to)) == RemoveAt(s, from)
  {
    InsertAt(RemoveAt(s, from), to, s[from])
  }

  /** Moving an element to its own index gives the array back. */
  lemma {:induction false} MoveInPlace<T>(s: seq<T>, i: nat)
    requires i < |s|
    ensures Move(s, i, i) == s
  {
    var r := Move(s, i, i);
    assert SpliceStart(|s| - 1, i) == i;
    forall j | 0 <= j < |s| ensures r[j] == s[j] {
      if j != i {
        assert RemoveAt(r, i)[if j < i then j else j - 1] == r[j];
      }
    }
  }

  /** With a destination inside the shortened array, the moved element lands exactly there,
      and the elements before and after it keep their relative order. */
  lemma {:induction false} MoveLandsAt<T>(s: seq<T>, from: nat, to: nat)
    requires from < |s| && to < |s|
    ensures Move(s, from, to)[to] == s[from]
    ensures forall j :: 0 <= j < |s| && j != to ==>
      Move(s, from, to)[j] == RemoveAt(s, from)[if j < to then j else j - 1]
  {
    var r := Move(s, from, to);
    assert SpliceStart(|s| - 1, to) == to;
    forall j | 0 <= j < |s| && j != to
      ensures r[j] == RemoveAt(s, from)[if j < to then j else j - 1]
    {
      assert RemoveAt(r, to)[if j < to then j else j - 1] == r[j];
    }
  }
}
