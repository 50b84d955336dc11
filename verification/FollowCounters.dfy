/** The denormalised follow counters under every interleaving of concurrent requests. */
module FollowCounters {
  import opened Basics
  import opened FollowGraph

  datatype Column = FollowersCount | FollowingCount

  /** One counter: a column of one user's row. */
  datatype Cell = Cell(column: Column, user: Id)

  /** One database statement that a request has still to send. `row` is the primary key the request read. */
  datatype Task =
    | Insert(edge: Edge)
    | Remove(edge: Edge, row: nat)
    | Add(cell: Cell, amount: int)

  /**
   * The follow table with its primary keys, the counters, the statements in flight, and a record of
   * the counters that were decremented for a deletion that found no row.
   */
  datatype Db = Db(rows: map<Edge, nat>, nextRow: nat, counters: map<Cell, int>,
                   pending: multiset<Task>, missed: multiset<Cell>)

  datatype Event =
    | BeginFollow(edge: Edge)
    | BeginUnfollow(edge: Edge)
    | Execute(task: Task)

  function Source(e: Edge): Cell {
    Cell(FollowingCount, e.follower)
  }

  function Target(e: Edge): Cell {
    Cell(FollowersCount, e.following)
  }

  /** The checks a request makes before its first write, or a statement that is due. */
  predicate Enabled(db: Db, ev: Event) {
    match ev
    case BeginFollow(e) =>
      e.follower != e.following && e !in db.rows && Source(e) in db.counters && Target(e) in db.counters
    case BeginUnfollow(e) => e in db.rows
    case Execute(task) => task in db.pending
  }

  /** The two statements that follow an insertion or a deletion; they may run in either order. */
  function Updates(e: Edge, amount: int): multiset<Task> {
    multiset{Add(Source(e), amount), Add(Target(e), amount)}
  }

  function InsertRow(db: Db, e: Edge): Db {
    if e in db.rows then db
    else db.(rows := db.rows[e := db.nextRow], nextRow := db.nextRow + 1, pending := db.pending + Updates(e, 1))
  }

  function RemoveRow(db: Db, e: Edge, row: nat): Db {
    if e in db.rows && db.rows[e] == row
    then db.(rows := db.rows - {e}, pending := db.pending + Updates(e, -1))
    else db.(pending := db.pending + Updates(e, -1), missed := db.missed + multiset{Source(e), Target(e)})
  }

  /** UPDATE ... SET column = column + amount; without a row nothing happens. */
  function Update(db: Db, cell: Cell, amount: int): Db {
    if cell in db.counters then db.(counters := db.counters[cell := db.counters[cell] + amount]) else db
  }

  function Perform(rest: Db, task: Task): Db {
    match task
    case Insert(e) => InsertRow(rest, e)
    case Remove(e, row) => RemoveRow(rest, e, row)
    case Add(cell, amount) => Update(rest, cell, amount)
  }

  function Step(db: Db, ev: Event): Db
    requires Enabled(db, ev)
  {
    match ev
    case BeginFollow(e) => db.(pending := db.pending + multiset{Insert(e)})
    case BeginUnfollow(e) => db.(pending := db.pending + multiset{Remove(e, db.rows[e])})
    case Execute(task) => Perform(db.(pending := db.pending - multiset{task}), task)
  }

  /** The edges a counter is meant to count. */
  function Counted(edges: set<Edge>, cell: Cell): set<Edge> {
    set e | e in edges && (Source(e) == cell || Target(e) == cell)
  }

  predicate Known(cells: set<Cell>, task: Task) {
    match task
    case Insert(e) => Source(e) in cells && Target(e) in cells
    case Remove(e, _) => Source(e) in cells && Target(e) in cells
    case Add(cell, amount) => cell in cells && (amount == 1 || amount == -1)
  }

  ghost predicate AllKnown(cells: set<Cell>, pending: multiset<Task>) {
    forall task :: task in pending ==> Known(cells, task)
  }

  /** Edges = counter + due increments - due decrements + deletions that found no row. */
  predicate Balanced(db: Db, cell: Cell)
    requires cell in db.counters
  {
    |Counted(db.rows.Keys, cell)|
      == db.counters[cell] + db.pending[Add(cell, 1)] - db.pending[Add(cell, -1)] + db.missed[cell]
  }

  ghost predicate Consistent(db: Db) {
    && (forall e :: e in db.rows ==> Source(e) in db.counters && Target(e) in db.counters)
    && AllKnown(db.counters.Keys, db.pending)
    && (forall cell :: cell in db.counters ==> Balanced(db, cell))
  }

  function Touches(e: Edge, cell: Cell): nat {
    if Source(e) == cell || Target(e) == cell then 1 else 0
  }

  lemma EdgeAdded(edges: set<Edge>, e: Edge, cell: Cell)
    requires e !in edges
    ensures |Counted(edges + {e}, cell)| == |Counted(edges, cell)| + Touches(e, cell)
  {
    if Touches(e, cell) == 1 {
      assert Counted(edges + {e}, cell) == Counted(edges, cell) + {e};
    } else {
      assert Counted(edges + {e}, cell) == Counted(edges, cell);
    }
  }

  lemma InsertIsBalanced(db: Db, e: Edge, cell: Cell)
    requires cell in db.counters && Balanced(db, cell)
    ensures cell in InsertRow(db, e).counters && Balanced(InsertRow(db, e), cell)
  {
    if e !in db.rows {
      assert InsertRow(db, e).rows.Keys == db.rows.Keys + {e};
      EdgeAdded(db.rows.Keys, e, cell);
    }
  }

  lemma RemoveIsBalanced(db: Db, e: Edge, row: nat, cell: Cell)
    requires cell in db.counters && Balanced(db, cell)
    ensures cell in RemoveRow(db, e, row).counters && Balanced(RemoveRow(db, e, row), cell)
  {
    if e in db.rows && db.rows[e] == row {
      assert RemoveRow(db, e, row).rows.Keys == db.rows.Keys - {e};
      EdgeAdded(db.rows.Keys - {e}, e, cell);
      assert db.rows.Keys - {e} + {e} == db.rows.Keys;
    }
  }

  lemma AddIsBalanced(db: Db, task: Task, cell: Cell)
    requires task.Add? && task in db.pending && Known(db.counters.Keys, task)
    requires cell in db.counters && Balanced(db, cell)
    ensures var after := Perform(db.(pending := db.pending - multiset{task}), task);
      cell in after.counters && Balanced(after, cell)
  {
    hide Counted;
  }

  /** Other tasks do not enter the balance. */
  lemma TakenFromPending(db: Db, task: Task, cell: Cell)
    requires !task.Add? && cell in db.counters && Balanced(db, cell)
    ensures Balanced(db.(pending := db.pending - multiset{task}), cell)
  {
    hide Counted;
  }

  lemma BegunIsBalanced(db: Db, task: Task, cell: Cell)
    requires !task.Add? && cell in db.counters && Balanced(db, cell)
    ensures Balanced(db.(pending := db.pending + multiset{task}), cell)
  {
    hide Counted;
  }

  lemma StepIsBalanced(db: Db, ev: Event, cell: Cell)
    requires Consistent(db) && Enabled(db, ev) && cell in db.counters
    ensures cell in Step(db, ev).counters && Balanced(Step(db, ev), cell)
  {
    assert Balanced(db, cell);
    assert ev.Execute? ==> Known(db.counters.Keys, ev.task);
    hide Counted, Balanced, Consistent, InsertRow, RemoveRow, Update, Known, AllKnown;
    match ev {
      case BeginFollow(e) => BegunIsBalanced(db, Insert(e), cell);
      case BeginUnfollow(e) => BegunIsBalanced(db, Remove(e, db.rows[e]), cell);
      case Execute(task) =>
        var rest := db.(pending := db.pending - multiset{task});
        match task {
          case Insert(e) =>
            TakenFromPending(db, task, cell);
            InsertIsBalanced(rest, e, cell);
          case Remove(e, row) =>
            TakenFromPending(db, task, cell);
            RemoveIsBalanced(rest, e, row, cell);
          case Add(_, _) => AddIsBalanced(db, task, cell);
        }
    }
  }

  lemma MoreKnown(cells: set<Cell>, pending: multiset<Task>, more: multiset<Task>)
    requires AllKnown(cells, pending) && AllKnown(cells, more)
    ensures AllKnown(cells, pending + more)
  {
  }

  lemma FewerKnown(cells: set<Cell>, pending: multiset<Task>, task: Task)
    requires AllKnown(cells, pending)
    ensures AllKnown(cells, pending - multiset{task})
  {
  }

  lemma UpdatesKnown(cells: set<Cell>, e: Edge, amount: int)
    requires Source(e) in cells && Target(e) in cells && (amount == 1 || amount == -1)
    ensures AllKnown(cells, Updates(e, amount))
  {
  }

  lemma PerformIsKnown(rest: Db, task: Task)
    requires AllKnown(rest.counters.Keys, rest.pending) && Known(rest.counters.Keys, task)
    ensures AllKnown(rest.counters.Keys, Perform(rest, task).pending)
  {
    var cells := rest.counters.Keys;
    if task.Insert? {
      UpdatesKnown(cells, task.edge, 1);
      MoreKnown(cells, rest.pending, Updates(task.edge, 1));
    } else if task.Remove? {
      UpdatesKnown(cells, task.edge, -1);
      MoreKnown(cells, rest.pending, Updates(task.edge, -1));
    }
  }

  lemma StepIsKnown(db: Db, ev: Event)
    requires AllKnown(db.counters.Keys, db.pending) && Enabled(db, ev)
    requires forall e :: e in db.rows ==> Source(e) in db.counters && Target(e) in db.counters
    ensures AllKnown(db.counters.Keys, Step(db, ev).pending)
  {
    var cells := db.counters.Keys;
    match ev {
      case BeginFollow(e) => MoreKnown(cells, db.pending, multiset{Insert(e)});
      case BeginUnfollow(e) => MoreKnown(cells, db.pending, multiset{Remove(e, db.rows[e])});
      case Execute(task) =>
        FewerKnown(cells, db.pending, task);
        PerformIsKnown(db.(pending := db.pending - multiset{task}), task);
    }
  }

  lemma StepKeepsCounters(db: Db, ev: Event)
    requires Enabled(db, ev)
    ensures Step(db, ev).counters.Keys == db.counters.Keys
    ensures forall e :: e in Step(db, ev).rows ==> e in db.rows || ev == Execute(Insert(e))
  {
    hide Source, Target, Updates;
  }

  lemma StepIsConsistent(db: Db, ev: Event)
    requires Consistent(db) && Enabled(db, ev)
    ensures Consistent(Step(db, ev)) && Step(db, ev).counters.Keys == db.counters.Keys
  {
    var after := Step(db, ev);
    StepKeepsCounters(db, ev);
    StepIsKnown(db, ev);
    forall cell | cell in after.counters ensures Balanced(after, cell) {
      StepIsBalanced(db, ev, cell);
    }
    forall e | e in after.rows ensures Source(e) in after.counters && Target(e) in after.counters {
      if e !in db.rows {
        assert Known(db.counters.Keys, Insert(e));
      }
    }
  }

  // ---------- whole interleavings ----------

  predicate Valid(db: Db, events: seq<Event>)
    decreases |events|
  {
    events == [] || (Enabled(db, events[0]) && Valid(Step(db, events[0]), events[1..]))
  }

  function Run(db: Db, events: seq<Event>): Db
    requires Valid(db, events)
    decreases |events|
  {
    if events == [] then db else Run(Step(db, events[0]), events[1..])
  }

  lemma {:induction false} RunIsConsistent(db: Db, events: seq<Event>)
    requires Consistent(db) && Valid(db, events)
    ensures Consistent(Run(db, events)) && Run(db, events).counters.Keys == db.counters.Keys
    decreases |events|
  {
    if events != [] {
      StepIsConsistent(db, events[0]);
      RunIsConsistent(Step(db, events[0]), events[1..]);
    }
  }

  function Cells(users: set<Id>): set<Cell> {
    set column, user | column in {FollowersCount, FollowingCount} && user in users :: Cell(column, user)
  }

  /** Some users, nobody following anybody. */
  function Start(users: set<Id>): Db {
    Db(map[], 0, map cell | cell in Cells(users) :: 0, multiset{}, multiset{})
  }

  lemma StartIsConsistent(users: set<Id>)
    ensures Consistent(Start(users)) && Start(users).counters.Keys == Cells(users)
  {
    forall cell | cell in Cells(users) ensures Balanced(Start(users), cell) {
      assert Counted({}, cell) == {};
    }
  }

  /** Conservation at every moment of every interleaving. */
  lemma CountersAreConserved(users: set<Id>, events: seq<Event>, cell: Cell)
    requires Valid(Start(users), events) && cell in Cells(users)
    ensures var db := Run(Start(users), events);
      && cell in db.counters
      && |Counted(db.rows.Keys, cell)|
           == db.counters[cell] + db.pending[Add(cell, 1)] - db.pending[Add(cell, -1)] + db.missed[cell]
  {
    StartIsConsistent(users);
    RunIsConsistent(Start(users), events);
    assert Balanced(Run(Start(users), events), cell);
  }

  // ---------- when the counters are exact ----------

  ghost predicate CountersExact(db: Db) {
    forall cell :: cell in db.counters ==> db.counters[cell] == |Counted(db.rows.Keys, cell)|
  }

  /** At rest the counters are exact if and only if no deletion ever missed its row. */
  lemma ExactIffNoDeletionMissed(users: set<Id>, events: seq<Event>)
    requires Valid(Start(users), events) && Run(Start(users), events).pending == multiset{}
    ensures var db := Run(Start(users), events);
      CountersExact(db) <==> forall cell :: cell in Cells(users) ==> cell !in db.missed
  {
    StartIsConsistent(users);
    RunIsConsistent(Start(users), events);
    var db := Run(Start(users), events);
    forall cell | cell in db.counters ensures db.counters[cell] == |Counted(db.rows.Keys, cell)| <==> cell !in db.missed {
      assert Balanced(db, cell);
    }
  }

  predicate RemovalsOf(db: Db, e: Edge) {
    exists row :: 0 <= row < db.nextRow && Remove(e, row) in db.pending
  }

  /** No request starts to unfollow a pair while another one is still about to delete it. */
  predicate OneUnfollowAtATime(db: Db, events: seq<Event>)
    requires Valid(db, events)
    decreases |events|
  {
    events == [] ||
    ((events[0].BeginUnfollow? ==> !RemovalsOf(db, events[0].edge)) && OneUnfollowAtATime(Step(db, events[0]), events[1..]))
  }

  /** Every pending deletion is the only one of its pair and will find its row. */
  ghost predicate RowsThere(rows: map<Edge, nat>, pending: multiset<Task>) {
    forall e, row :: Remove(e, row) in pending ==> e in rows && rows[e] == row && pending[Remove(e, row)] == 1
  }

  /** ... and nothing missed so far. */
  ghost predicate NothingMissed(db: Db) {
    && db.missed == multiset{}
    && (forall e :: e in db.rows ==> db.rows[e] < db.nextRow)
    && RowsThere(db.rows, db.pending)
  }

  lemma UpdatesRemoveNothing(rows: map<Edge, nat>, pending: multiset<Task>, e: Edge, amount: int)
    requires RowsThere(rows, pending)
    ensures RowsThere(rows, pending + Updates(e, amount))
  {
    forall f, row | Remove(f, row) in pending + Updates(e, amount)
      ensures Remove(f, row) in pending && (pending + Updates(e, amount))[Remove(f, row)] == pending[Remove(f, row)]
    {
      assert Updates(e, amount)[Remove(f, row)] == 0;
    }
  }

  lemma PerformMissesNothing(rest: Db, task: Task)
    requires NothingMissed(rest)
    requires task.Remove? ==> task.edge in rest.rows && rest.rows[task.edge] == task.row
    requires task.Remove? ==> forall row :: Remove(task.edge, row) !in rest.pending
    ensures NothingMissed(Perform(rest, task))
  {
    match task {
      case Insert(e) =>
        if e !in rest.rows {
          assert RowsThere(rest.rows[e := rest.nextRow], rest.pending);
          UpdatesRemoveNothing(rest.rows[e := rest.nextRow], rest.pending, e, 1);
        }
      case Remove(e, row) =>
        assert RowsThere(rest.rows - {e}, rest.pending);
        UpdatesRemoveNothing(rest.rows - {e}, rest.pending, e, -1);
      case Add(_, _) =>
    }
  }

  lemma BeginUnfollowMissesNothing(db: Db, e: Edge)
    requires NothingMissed(db) && e in db.rows && !RemovalsOf(db, e)
    ensures NothingMissed(Step(db, BeginUnfollow(e)))
  {
    var pending := db.pending + multiset{Remove(e, db.rows[e])};
    forall f, row | Remove(f, row) in pending
      ensures f in db.rows && db.rows[f] == row && pending[Remove(f, row)] == 1
    {
      if e == f {
        assert Remove(e, row) !in db.pending;
      }
    }
  }

  lemma StepMissesNothing(db: Db, ev: Event)
    requires NothingMissed(db) && Enabled(db, ev)
    requires ev.BeginUnfollow? ==> !RemovalsOf(db, ev.edge)
    ensures NothingMissed(Step(db, ev))
  {
    match ev {
      case BeginFollow(e) =>
      case BeginUnfollow(e) => BeginUnfollowMissesNothing(db, e);
      case Execute(task) => PerformMissesNothing(db.(pending := db.pending - multiset{task}), task);
    }
  }

  lemma {:induction false} RunMissesNothing(db: Db, events: seq<Event>)
    requires Valid(db, events) && OneUnfollowAtATime(db, events) && NothingMissed(db)
    ensures NothingMissed(Run(db, events))
    decreases |events|
  {
    if events != [] {
      StepMissesNothing(db, events[0]);
      RunMissesNothing(Step(db, events[0]), events[1..]);
    }
  }

  // ---------- ... and when it is not ----------

  /** A pending deletion that will not find its row. */
  predicate Stale(db: Db, e: Edge, row: nat) {
    Remove(e, row) in db.pending && !(e in db.rows && db.rows[e] == row)
  }

  /** Something missed already, or is bound to miss. */
  ghost predicate Doomed(db: Db) {
    || db.missed != multiset{}
    || (exists e: Edge, row: nat :: Stale(db, e, row))
    || (exists e: Edge, row: nat :: db.pending[Remove(e, row)] > 1)
  }

  /** Primary keys come from one sequence: rows and pending deletions name keys given out before. */
  ghost predicate Numbered(db: Db) {
    && (forall e :: e in db.rows ==> db.rows[e] < db.nextRow)
    && (forall e: Edge, row: nat :: Remove(e, row) in db.pending ==> row < db.nextRow)
  }

  lemma UpdatesAreAdds(e: Edge, amount: int, f: Edge, row: nat)
    ensures Updates(e, amount)[Remove(f, row)] == 0
  {
  }

  /** Where a pending deletion comes from. */
  lemma RemovalOrigin(db: Db, ev: Event, e: Edge, row: nat)
    requires Enabled(db, ev) && Remove(e, row) in Step(db, ev).pending
    ensures Remove(e, row) in db.pending || (ev == BeginUnfollow(e) && row == db.rows[e])
  {
    hide Source, Target, Updates;
    if ev.Execute? && !ev.task.Add? {
      UpdatesAreAdds(ev.task.edge, 1, e, row);
      UpdatesAreAdds(ev.task.edge, -1, e, row);
    }
  }

  lemma RowsAreNumbered(db: Db, ev: Event)
    requires Enabled(db, ev) && forall e :: e in db.rows ==> db.rows[e] < db.nextRow
    ensures db.nextRow <= Step(db, ev).nextRow
    ensures forall e :: e in Step(db, ev).rows ==> Step(db, ev).rows[e] < Step(db, ev).nextRow
  {
    hide Source, Target, Updates;
  }

  lemma StepIsNumbered(db: Db, ev: Event)
    requires Numbered(db) && Enabled(db, ev)
    ensures Numbered(Step(db, ev))
  {
    RowsAreNumbered(db, ev);
    hide Step;
    forall e: Edge, row: nat | Remove(e, row) in Step(db, ev).pending ensures row < Step(db, ev).nextRow {
      RemovalOrigin(db, ev, e, row);
    }
  }

  /** A deletion executed while another copy of it is pending, or one that is stale, dooms the run. */
  lemma RemovalIsDoomed(db: Db, e: Edge, row: nat)
    requires Remove(e, row) in db.pending && (Stale(db, e, row) || db.pending[Remove(e, row)] > 1)
    ensures Doomed(Step(db, Execute(Remove(e, row))))
  {
    var after := Step(db, Execute(Remove(e, row)));
    if Stale(db, e, row) {
      assert Source(e) in after.missed;
    } else {
      UpdatesAreAdds(e, -1, e, row);
      assert Stale(after, e, row);
    }
  }

  /** Other statements take no copy of a pending deletion away. */
  lemma RemovalStays(db: Db, ev: Event, e: Edge, row: nat)
    requires Enabled(db, ev) && Remove(e, row) in db.pending && ev != Execute(Remove(e, row))
    ensures Step(db, ev).pending[Remove(e, row)] >= db.pending[Remove(e, row)]
  {
    hide Source, Target, Updates;
    if ev.Execute? && !ev.task.Add? {
      UpdatesAreAdds(ev.task.edge, 1, e, row);
      UpdatesAreAdds(ev.task.edge, -1, e, row);
    }
  }

  /** No statement brings a row back: the sequence of primary keys has moved on. */
  lemma RowStaysGone(db: Db, ev: Event, e: Edge, row: nat)
    requires Enabled(db, ev) && row < db.nextRow && !(e in db.rows && db.rows[e] == row)
    ensures !(e in Step(db, ev).rows && Step(db, ev).rows[e] == row)
  {
    hide Source, Target, Updates;
  }

  lemma MissedStays(db: Db, ev: Event)
    requires Enabled(db, ev) && db.missed != multiset{}
    ensures Step(db, ev).missed != multiset{}
  {
    hide Source, Target, Updates;
    var cell :| cell in db.missed;
    assert cell in Step(db, ev).missed;
  }

  lemma StepStaysDoomed(db: Db, ev: Event)
    requires Numbered(db) && Enabled(db, ev) && Doomed(db)
    ensures Doomed(Step(db, ev))
  {
    if db.missed != multiset{} {
      MissedStays(db, ev);
    } else {
      var e: Edge, row: nat :| Stale(db, e, row) || db.pending[Remove(e, row)] > 1;
      if ev == Execute(Remove(e, row)) {
        RemovalIsDoomed(db, e, row);
      } else {
        RemovalStays(db, ev, e, row);
        if Stale(db, e, row) {
          RowStaysGone(db, ev, e, row);
          assert Stale(Step(db, ev), e, row);
        }
      }
    }
  }

  /** A second unfollow of a pair that is still about to be deleted dooms the run. */
  lemma SecondUnfollowDooms(db: Db, e: Edge)
    requires e in db.rows && RemovalsOf(db, e)
    ensures Doomed(Step(db, BeginUnfollow(e)))
  {
    var after := Step(db, BeginUnfollow(e));
    var row: nat :| row < db.nextRow && Remove(e, row) in db.pending;
    if row == db.rows[e] {
      assert after.pending[Remove(e, row)] > 1;
    } else {
      assert Stale(after, e, row);
    }
  }

  lemma {:induction false} RunIsDoomed(db: Db, events: seq<Event>)
    requires Valid(db, events) && Numbered(db) && (Doomed(db) || !OneUnfollowAtATime(db, events))
    ensures Doomed(Run(db, events))
    decreases |events|
  {
    if events != [] {
      var next := Step(db, events[0]);
      StepIsNumbered(db, events[0]);
      if Doomed(db) {
        StepStaysDoomed(db, events[0]);
      } else if events[0].BeginUnfollow? && RemovalsOf(db, events[0].edge) {
        SecondUnfollowDooms(db, events[0].edge);
      }
      RunIsDoomed(next, events[1..]);
    }
  }

  ghost predicate MissedAreKnown(db: Db) {
    forall cell :: cell in db.missed ==> cell in db.counters
  }

  lemma StepMissesKnownCells(db: Db, ev: Event)
    requires Consistent(db) && Enabled(db, ev) && MissedAreKnown(db)
    ensures MissedAreKnown(Step(db, ev))
  {
    StepKeepsCounters(db, ev);
    assert ev.Execute? ==> Known(db.counters.Keys, ev.task);
    hide Step;
    forall cell | cell in Step(db, ev).missed ensures cell in db.counters {
      MissedOrigin(db, ev, cell);
    }
  }

  lemma MissedOrigin(db: Db, ev: Event, cell: Cell)
    requires Enabled(db, ev) && cell in Step(db, ev).missed
    ensures cell in db.missed
      || (ev.Execute? && ev.task.Remove? && (cell == Source(ev.task.edge) || cell == Target(ev.task.edge)))
  {
    hide Source, Target, Updates;
  }

  lemma {:induction false} RunMissesKnownCells(db: Db, events: seq<Event>)
    requires Consistent(db) && Valid(db, events) && MissedAreKnown(db)
    ensures MissedAreKnown(Run(db, events))
    decreases |events|
  {
    if events != [] {
      StepIsConsistent(db, events[0]);
      StepMissesKnownCells(db, events[0]);
      RunMissesKnownCells(Step(db, events[0]), events[1..]);
    }
  }

  /**
   * Whenever all requests have finished, the counters are exact if and only if no request started to
   * unfollow a pair while another one was still about to delete it.
   */
  lemma ExactIffOneUnfollowAtATime(users: set<Id>, events: seq<Event>)
    requires Valid(Start(users), events) && Run(Start(users), events).pending == multiset{}
    ensures CountersExact(Run(Start(users), events)) <==> OneUnfollowAtATime(Start(users), events)
  {
    var db := Run(Start(users), events);
    StartIsConsistent(users);
    ExactIffNoDeletionMissed(users, events);
    if OneUnfollowAtATime(Start(users), events) {
      RunMissesNothing(Start(users), events);
    } else {
      RunIsDoomed(Start(users), events);
      RunIsConsistent(Start(users), events);
      RunMissesKnownCells(Start(users), events);
      var cell :| cell in db.missed;
      assert cell in Cells(users);
    }
  }

  // ---------- a request that runs alone ----------

  /** The two counters of an edge move by `amount`, all others stay. */
  ghost predicate Moved(db: Db, after: Db, e: Edge, amount: int) {
    && after.counters.Keys == db.counters.Keys
    && forall cell :: cell in db.counters ==>
         after.counters[cell] == db.counters[cell] + if cell == Source(e) || cell == Target(e) then amount else 0
  }

  lemma RunFour(db: Db, a: Event, b: Event, c: Event, d: Event)
    requires Enabled(db, a) && Enabled(Step(db, a), b) && Enabled(Step(Step(db, a), b), c)
    requires Enabled(Step(Step(Step(db, a), b), c), d)
    ensures Valid(db, [a, b, c, d])
    ensures Run(db, [a, b, c, d]) == Step(Step(Step(Step(db, a), b), c), d)
  {
    hide Step, Enabled;
    var ops := [a, b, c, d];
    assert ops[1..] == [b, c, d] && ops[1..][1..] == [c, d] && ops[1..][1..][1..] == [d] && ops[1..][1..][1..][1..] == [];
    var db1 := Step(db, a);
    var db2 := Step(db1, b);
    var db3 := Step(db2, c);
    assert Valid(db3, [d]) && Run(db3, [d]) == Step(db3, d) by {
      assert [d][1..] == [];
    }
    assert Valid(db2, [c, d]) && Run(db2, [c, d]) == Run(db3, [d]);
    assert Valid(db1, [b, c, d]) && Run(db1, [b, c, d]) == Run(db2, [c, d]);
  }

  /** The statements of one request, with the updates in either order. */
  function Request(first: Event, write: Task, e: Edge, amount: int, sourceFirst: bool): seq<Event> {
    if sourceFirst then [first, Execute(write), Execute(Add(Source(e), amount)), Execute(Add(Target(e), amount))]
    else [first, Execute(write), Execute(Add(Target(e), amount)), Execute(Add(Source(e), amount))]
  }

  lemma TwoUpdates(db: Db, x: Cell, y: Cell, amount: int)
    requires x != y && x in db.counters && y in db.counters
    requires db.pending == multiset{Add(x, amount), Add(y, amount)}
    ensures var a, b := Execute(Add(x, amount)), Execute(Add(y, amount));
      && Enabled(db, a) && Enabled(Step(db, a), b)
      && Step(Step(db, a), b) ==
           db.(pending := multiset{}, counters := db.counters[x := db.counters[x] + amount][y := db.counters[y] + amount])
  {
    var once := Step(db, Execute(Add(x, amount)));
    assert once.pending == multiset{Add(y, amount)};
    assert once.pending - multiset{Add(y, amount)} == multiset{};
  }

  lemma UpdatesInAnyOrder(e: Edge, amount: int)
    ensures Source(e) != Target(e)
    ensures Updates(e, amount) == multiset{Add(Source(e), amount), Add(Target(e), amount)}
    ensures Updates(e, amount) == multiset{Add(Target(e), amount), Add(Source(e), amount)}
  {
    hide Source, Target;
    assert Source(e) != Target(e) by {
      SourceIsNotTarget(e);
    }
  }

  lemma SourceIsNotTarget(e: Edge)
    ensures Source(e) != Target(e)
  {
  }

  lemma UpdatesRun(db: Db, e: Edge, amount: int, sourceFirst: bool)
    requires db.pending == Updates(e, amount) && Source(e) in db.counters && Target(e) in db.counters
    ensures var a := Execute(Add(if sourceFirst then Source(e) else Target(e), amount));
      var b := Execute(Add(if sourceFirst then Target(e) else Source(e), amount));
      && Enabled(db, a) && Enabled(Step(db, a), b)
      && var after := Step(Step(db, a), b);
         after.rows == db.rows && after.missed == db.missed && after.pending == multiset{} && Moved(db, after, e, amount)
  {
    hide Step, Enabled, Source, Target, Updates;
    UpdatesInAnyOrder(e, amount);
    if sourceFirst {
      TwoUpdates(db, Source(e), Target(e), amount);
    } else {
      TwoUpdates(db, Target(e), Source(e), amount);
    }
  }

  /** A follow that nothing interrupts adds the row and one to each of its counters. */
  lemma FollowAlone(db: Db, e: Edge, sourceFirst: bool)
    requires db.pending == multiset{} && Enabled(db, BeginFollow(e))
    ensures var events := Request(BeginFollow(e), Insert(e), e, 1, sourceFirst);
      && Valid(db, events)
      && var after := Run(db, events);
         && after.rows == db.rows[e := db.nextRow] && after.missed == db.missed && after.pending == multiset{}
         && Moved(db, after, e, 1)
  {
    var inserted := Step(Step(db, BeginFollow(e)), Execute(Insert(e)));
    assert inserted.pending == Updates(e, 1);
    UpdatesRun(inserted, e, 1, sourceFirst);
    var first, second := if sourceFirst then Source(e) else Target(e), if sourceFirst then Target(e) else Source(e);
    RunFour(db, BeginFollow(e), Execute(Insert(e)), Execute(Add(first, 1)), Execute(Add(second, 1)));
  }

  /** An unfollow that nothing interrupts removes the row and takes one from each of its counters. */
  lemma UnfollowAlone(db: Db, e: Edge, sourceFirst: bool)
    requires db.pending == multiset{} && e in db.rows && Source(e) in db.counters && Target(e) in db.counters
    ensures var events := Request(BeginUnfollow(e), Remove(e, db.rows[e]), e, -1, sourceFirst);
      && Valid(db, events)
      && var after := Run(db, events);
         && after.rows == db.rows - {e} && after.missed == db.missed && after.pending == multiset{}
         && Moved(db, after, e, -1)
  {
    var removal := Remove(e, db.rows[e]);
    var removed := Step(Step(db, BeginUnfollow(e)), Execute(removal));
    assert removed.pending == Updates(e, -1);
    UpdatesRun(removed, e, -1, sourceFirst);
    var first, second := if sourceFirst then Source(e) else Target(e), if sourceFirst then Target(e) else Source(e);
    RunFour(db, BeginUnfollow(e), Execute(removal), Execute(Add(first, -1)), Execute(Add(second, -1)));
  }

  // ---------- totals ----------

  /** The sum of one column over some users. */
  ghost function Total(counters: map<Cell, int>, column: Column, users: set<Id>): int
    requires forall user :: user in users ==> Cell(column, user) in counters
  {
    if users == {} then 0
    else
      var user :| user in users;
      counters[Cell(column, user)] + Total(counters, column, users - {user})
  }

  function CountedForAny(edges: set<Edge>, column: Column, users: set<Id>): set<Edge> {
    set e | e in edges && (if column == FollowersCount then e.following in users else e.follower in users)
  }

  lemma {:induction false} TotalCountsEdges(edges: set<Edge>, counters: map<Cell, int>, column: Column, users: set<Id>)
    requires forall user :: user in users ==>
      Cell(column, user) in counters && counters[Cell(column, user)] == |Counted(edges, Cell(column, user))|
    ensures Total(counters, column, users) == |CountedForAny(edges, column, users)|
  {
    hide Counted;
    if users == {} {
      assert CountedForAny(edges, column, users) == {};
    } else {
      hide CountedForAny;
      var user :| user in users
        && Total(counters, column, users) == counters[Cell(column, user)] + Total(counters, column, users - {user});
      TotalCountsEdges(edges, counters, column, users - {user});
      OneUserMore(edges, column, users, user);
    }
  }

  lemma OneUserMore(edges: set<Edge>, column: Column, users: set<Id>, user: Id)
    requires user in users
    ensures |CountedForAny(edges, column, users)|
         == |Counted(edges, Cell(column, user))| + |CountedForAny(edges, column, users - {user})|
  {
    var mine, others := Counted(edges, Cell(column, user)), CountedForAny(edges, column, users - {user});
    assert CountedForAny(edges, column, users) == mine + others;
    assert mine !! others;
  }

  /** With one unfollow in flight per pair, at rest both columns add up to the number of edges. */
  lemma TotalsAgreeAtRest(users: set<Id>, events: seq<Event>, column: Column)
    requires Valid(Start(users), events) && OneUnfollowAtATime(Start(users), events)
    requires Run(Start(users), events).pending == multiset{}
    ensures var db := Run(Start(users), events);
      && CountersExact(db)
      && db.counters.Keys == Cells(users)
      && Total(db.counters, column, users) == |db.rows|
  {
    StartIsConsistent(users);
    RunIsConsistent(Start(users), events);
    RunMissesNothing(Start(users), events);
    ExactIffNoDeletionMissed(users, events);
    var db := Run(Start(users), events);
    EveryEdgeCounted(db, users, column);
    TotalCountsEdges(db.rows.Keys, db.counters, column, users);
  }

  lemma EveryEdgeCounted(db: Db, users: set<Id>, column: Column)
    requires db.counters.Keys == Cells(users)
    requires forall e :: e in db.rows ==> Source(e) in db.counters && Target(e) in db.counters
    ensures CountedForAny(db.rows.Keys, column, users) == db.rows.Keys
    ensures forall user :: user in users ==> Cell(column, user) in db.counters
  {
    forall e | e in db.rows ensures e in CountedForAny(db.rows.Keys, column, users) {
      assert Source(e) in Cells(users) && Target(e) in Cells(users);
    }
    assert forall user :: user in users ==> Cell(column, user) in Cells(users);
  }

  /** Two requests that both read the row before either deletes it: the second deletion misses. */
  lemma TwoUnfollowsMiss(db: Db, e: Edge)
    requires e in db.rows && !RemovalsOf(db, e) && db.rows[e] < db.nextRow
    ensures var both := Step(Step(db, BeginUnfollow(e)), BeginUnfollow(e));
      var removal := Execute(Remove(e, db.rows[e]));
      && Enabled(both, removal)
      && Enabled(Step(both, removal), removal)
      && Step(Step(both, removal), removal).missed == db.missed + multiset{Source(e), Target(e)}
  {
    var removal := Remove(e, db.rows[e]);
    var both := Step(Step(db, BeginUnfollow(e)), BeginUnfollow(e));
    assert both.pending[removal] == 2;
    var once := Step(both, Execute(removal));
    assert Updates(e, -1)[removal] == 0;
    assert once.pending[removal] == 1 && e !in once.rows;
  }
}
