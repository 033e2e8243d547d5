/** The database that every action reads and writes inside one transaction. */
module Database {
  import opened Types
  import opened BoardTable
  import opened TaskTable

  /** The Board and Task tables, each a sequence of rows in storage order. A row keeps its
      place when it is updated; a created row goes to the end. */
  class Store {
    var boards: seq<Board>
    var tasks: seq<Task>

    /** Ids are primary keys. */
    ghost predicate Valid()
      reads this
    {
      UniqueBoardIds(boards) && UniqueIds(tasks)
    }

    constructor (boards: seq<Board>, tasks: seq<Task>)
      requires UniqueBoardIds(boards) && UniqueIds(tasks)
      ensures Valid() && this.boards == boards && this.tasks == tasks
    {
      this.boards := boards;
      this.tasks := tasks;
    }
  }
}
