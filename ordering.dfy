/** Dense 1-based positions, and the arithmetic that appends to and closes gaps in them. */
module Ordering {
  import JsArray

  /** The positions are exactly `1..|s|`: each lies in that range and no two are equal. */
  ghost predicate Dense(s: seq<int>) {
    && (forall i :: 0 <= i < |s| ==> 1 <= s[i] <= |s|)
    && (forall i, j :: 0 <= i < j < |s| ==> s[i] != s[j])
  }

  /** The positions `1, 2, ..., n` in that order are dense. */
  lemma CountingDense(s: seq<int>)
    requires forall i :: 0 <= i < |s| ==> s[i] == i + 1
    ensures Dense(s)
  {
  }

  /** The positions `1, 2, ..., n`. */
  function Counting(n: nat): (r: seq<int>)
    ensures |r| == n && forall i :: 0 <= i < n ==> r[i] == i + 1
  {
    seq(n, i => i + 1)
  }

  /** The set `{1, ..., n}`, with its size and its members. */
  ghost function Interval(n: nat): set<int> {
    set x | x in Counting(n)
  }

  lemma IntervalSize(n: nat)
    ensures |Interval(n)| == n
    ensures forall k :: k in Interval(n) <==> 1 <= k <= n
  {
    DistinctSize(Counting(n));
    forall k | 1 <= k <= n ensures k in Interval(n) {
      assert Counting(n)[k - 1] == k;
    }
  }

  lemma {:induction false} DistinctSize(s: seq<int>)
    requires forall i, j :: 0 <= i < j < |s| ==> s[i] != s[j]
    ensures |set x | x in s| == |s|
  {
    if s != [] {
      var init := s[..|s| - 1];
      DistinctSize(init);
      assert (set x | x in s) == (set x | x in init) + {s[|s| - 1]};
      assert s[|s| - 1] !in init;
    }
  }

  /** A dense sequence takes every position of `1..|s|` (no gaps). */
  lemma DenseCoversAll(s: seq<int>)
    requires Dense(s)
    ensures forall k :: 1 <= k <= |s| ==> k in s
  {
    var values := set x | x in s;
    DistinctSize(s);
    IntervalSize(|s|);
    assert values <= Interval(|s|);
    forall k | 1 <= k <= |s| ensures k in s {
      if k !in values {
        assert values <= Interval(|s|) - {k};
        assert |Interval(|s|) - {k}| == |s| - 1;
        SubsetSize(values, Interval(|s|) - {k});
        assert false;
      }
    }
  }

  lemma {:induction false} SubsetSize(a: set<int>, b: set<int>)
    requires a <= b
    ensures |a| <= |b|
  {
    assert b == a + (b - a);
  }

  /** The largest position, as `findFirst({ orderBy: { order: "desc" } })` returns it. */
  function MaxOrder(s: seq<int>): (m: int)
    requires s != []
    ensures m in s
    ensures forall i :: 0 <= i < |s| ==> s[i] <= m
  {
    if |s| == 1 then s[0]
    else
      var m := MaxOrder(s[1..]);
      if s[0] >= m then s[0] else m
  }

  /** `lastRecord ? lastRecord.order + 1 : 1`. */
  function NextOrder(s: seq<int>): (r: int)
    ensures s == [] ==> r == 1
    ensures s != [] ==> r - 1 in s
    ensures forall i :: 0 <= i < |s| ==> s[i] < r
  {
    if s == [] then 1 else MaxOrder(s) + 1
  }

  /** Appending at `max + 1` to a dense sequence appends `|s| + 1`, so it stays dense. */
  lemma NextOrderDense(s: seq<int>)
    requires Dense(s)
    ensures NextOrder(s) == |s| + 1
    ensures Dense(s + [NextOrder(s)])
  {
    if s != [] {
      DenseCoversAll(s);
      assert |s| in s;
    }
  }

  /** `updateMany({ where: { order: { gt: p } }, data: { order: { decrement: 1 } } })` on positions. */
  function CloseGap(s: seq<int>, p: int): (r: seq<int>)
    ensures |r| == |s|
    ensures forall i :: 0 <= i < |s| ==> r[i] == if s[i] > p then s[i] - 1 else s[i]
  {
    if s == [] then [] else [if s[0] > p then s[0] - 1 else s[0]] + CloseGap(s[1..], p)
  }

  /** Removing the element at `i` from a dense sequence and closing its gap leaves a dense sequence. */
  lemma CloseGapDense(s: seq<int>, i: nat)
    requires Dense(s) && i < |s|
    ensures Dense(CloseGap(JsArray.RemoveAt(s, i), s[i]))
  {
    var rest := JsArray.RemoveAt(s, i);
    forall j | 0 <= j < |rest| ensures 1 <= rest[j] <= |s| && rest[j] != s[i] {
      assert rest[j] == s[if j < i then j else j + 1];
    }
    forall j, k | 0 <= j < k < |rest| ensures rest[j] != rest[k] {
      var j', k' := if j < i then j else j + 1, if k < i then k else k + 1;
      assert rest[j] == s[j'] && rest[k] == s[k'];
    }
    CloseGapOfDistinct(rest, s[i]);
  }

  /** Distinct positions in `1..n+1` that miss `p`, with `p` in that range, close up to `1..n`. */
  lemma CloseGapOfDistinct(r: seq<int>, p: int)
    requires 1 <= p <= |r| + 1
    requires forall j :: 0 <= j < |r| ==> 1 <= r[j] <= |r| + 1 && r[j] != p
    requires forall j, k :: 0 <= j < k < |r| ==> r[j] != r[k]
    ensures Dense(CloseGap(r, p))
  {
  }

  /** Closing the gap of a position nobody holds keeps the relative order of all the others. */
  lemma CloseGapKeepsRelativeOrder(s: seq<int>, p: int)
    requires forall i :: 0 <= i < |s| ==> s[i] != p
    ensures forall i, j :: 0 <= i < |s| && 0 <= j < |s| ==>
      (s[i] < s[j] <==> CloseGap(s, p)[i] < CloseGap(s, p)[j])
  {
  }
}
