/** The kanban board's column bookkeeping: grouping fetched tasks into columns, the
    drag-and-drop reorder, the position payload, card stacking, and the per-task updates
    for priority, assignee and deletion. */
module Board {
  import opened Wrappers
  import opened Seqs
  import AssignmentModal

  /** The assignee columns the board copies onto a task. */
  datatype Assignee = Assignee(id: int, name: string, email: string, avatar: string)

  /** A card as the board holds it; `zIndex` is set by the stacking pass. */
  datatype Task = Task(
    id: int,
    title: string,
    status: string,
    priority: string,
    assignee: Option<Assignee>,
    zIndex: Option<int>)

  datatype Column = Column(id: string, title: string, tasks: seq<Task>)

  /** The hovered target: nothing, the end of a column, or a card (by id). */
  datatype DragOver = NoHover | OverColumnEnd(columnId: string) | OverTask(taskId: int)

  /** Which half of the hovered card the pointer is over. */
  datatype Side = NoSide | Top | Bottom

  datatype Position = Position(id: int, position: int)

  /** The requests the board sends to the server. */
  datatype Request =
    | StatusUpdate(taskId: int, status: string, position: int)
    | PositionsUpdate(status: string, positions: seq<Position>)

  /** The three columns the board starts with; their ids never change. */
  const InitialColumns: seq<Column> :=
    [Column("todo", "To Do", []), Column("inProgress", "In Progress", []), Column("done", "Done", [])]

  function Ids(cols: seq<Column>): seq<string> {
    seq(|cols|, c requires 0 <= c < |cols| => cols[c].id)
  }

  predicate UniqueIds(cols: seq<Column>) {
    forall i, j :: 0 <= i < j < |cols| ==> cols[i].id != cols[j].id
  }

  // ---------------------------------------------------------------- grouping by status

  function StatusIs(st: string): Task -> bool {
    (t: Task) => t.status == st
  }

  /** The tasks of one status, in input order. */
  function Group(tasks: seq<Task>, st: string): seq<Task> {
    Filter(tasks, StatusIs(st))
  }

  /** `organizeTasksByStatus` with a dictionary that knows only the keys it was given (a
      `Map`): each status present maps to its tasks in input order. */
  method OrganizeByStatus(tasks: seq<Task>) returns (groups: map<string, seq<Task>>)
    ensures forall st :: st in groups <==> exists t | t in tasks :: t.status == st
    ensures forall st | st in groups :: groups[st] == Group(tasks, st)
  {
    groups := map[];
    var i := 0;
    while i < |tasks|
      invariant 0 <= i <= |tasks|
      invariant forall st :: st in groups <==> exists t | t in tasks[..i] :: t.status == st
      invariant forall st | st in groups :: groups[st] == Group(tasks[..i], st)
    {
      var task := tasks[i];
      ghost var prev := groups;
      if task.status !in groups {
        groups := groups[task.status := []];
      }
      groups := groups[task.status := groups[task.status] + [task]];
      assert tasks[..i + 1] == tasks[..i] + [task];
      forall st | st in groups ensures groups[st] == Group(tasks[..i + 1], st) {
        FilterAppend(tasks[..i], task, StatusIs(st));
        if st == task.status && st !in prev {
          forall k | 0 <= k < i ensures !StatusIs(st)(tasks[..i][k]) {
            assert tasks[..i][k] in tasks[..i];
          }
          FilterDropsAll(tasks[..i], StatusIs(st));
        }
      }
      i := i + 1;
    }
    assert tasks[..i] == tasks;
  }

  /** Every task lands in the group of its own status. */
  lemma TaskInItsGroup(tasks: seq<Task>, t: Task)
    requires t in tasks
    ensures t in Group(tasks, t.status)
  {
    FilterMembership(tasks, StatusIs(t.status), t);
  }

  /** The total size of the groups named by `keys`. */
  function SumGroups(tasks: seq<Task>, keys: seq<string>): nat {
    if keys == [] then 0 else |Group(tasks, keys[0])| + SumGroups(tasks, keys[1..])
  }

  function Hits(keys: seq<string>, st: string): nat {
    if keys == [] then 0 else (if keys[0] == st then 1 else 0) + Hits(keys[1..], st)
  }

  lemma {:induction false} HitsOfDistinct(keys: seq<string>, st: string)
    requires forall i, j :: 0 <= i < j < |keys| ==> keys[i] != keys[j]
    ensures Hits(keys, st) == if st in keys then 1 else 0
  {
    if keys != [] {
      HitsOfDistinct(keys[1..], st);
      if keys[0] == st {
        assert st !in keys[1..] by {
          forall k | 0 <= k < |keys[1..]| ensures keys[1..][k] != st {
            assert keys[1..][k] == keys[k + 1];
          }
        }
      } else {
        assert st in keys <==> st in keys[1..] by {
          assert keys == [keys[0]] + keys[1..];
        }
      }
    }
  }

  lemma {:induction false} SumGroupsAppend(tasks: seq<Task>, t: Task, keys: seq<string>)
    ensures SumGroups(tasks + [t], keys) == SumGroups(tasks, keys) + Hits(keys, t.status)
  {
    if keys != [] {
      FilterAppend(tasks, t, StatusIs(keys[0]));
      SumGroupsAppend(tasks, t, keys[1..]);
    }
  }

  /** Grouping loses and duplicates nothing: over any list of distinct statuses that covers
      every task, the group sizes add up to the number of tasks. */
  lemma {:induction false} GroupsCountAll(tasks: seq<Task>, keys: seq<string>)
    requires forall i, j :: 0 <= i < j < |keys| ==> keys[i] != keys[j]
    requires forall t | t in tasks :: t.status in keys
    ensures SumGroups(tasks, keys) == |tasks|
    decreases |tasks|
  {
    if tasks == [] {
      EmptyGroups(keys);
    } else {
      var init, last := tasks[..|tasks| - 1], tasks[|tasks| - 1];
      assert tasks == init + [last];
      GroupsCountAll(init, keys);
      SumGroupsAppend(init, last, keys);
      HitsOfDistinct(keys, last.status);
    }
  }

  lemma {:induction false} EmptyGroups(keys: seq<string>)
    ensures SumGroups([], keys) == 0
  {
    if keys != [] {
      EmptyGroups(keys[1..]);
    }
  }

  /** The accumulator as written is a plain object `{}`, so a status that names a property
      every object inherits already finds a (non-array) value there: the emptiness test
      skips the initialisation and `push` is not a function on it. */
  const InheritedNames: set<string> := {
    "constructor", "toString", "toLocaleString", "valueOf", "hasOwnProperty",
    "isPrototypeOf", "propertyIsEnumerable", "__proto__", "__defineGetter__",
    "__defineSetter__", "__lookupGetter__", "__lookupSetter__"
  }

  datatype TypeError = PushNotAFunction(status: string)

  /** `organizeTasksByStatus` as written: the first task whose status is an inherited name
      throws; otherwise the result is the grouping. */
  function OrganizeAsWritten(tasks: seq<Task>): (r: Result<map<string, seq<Task>>, TypeError>)
    ensures r.Failure? <==> exists t | t in tasks :: t.status in InheritedNames
  {
    if tasks == [] then Success(map[])
    else
      var t := tasks[|tasks| - 1];
      match OrganizeAsWritten(tasks[..|tasks| - 1])
      case Failure(e) => Failure(e)
      case Success(acc) =>
        if t.status in InheritedNames then Failure(PushNotAFunction(t.status))
        else Success(acc[t.status := (if t.status in acc then acc[t.status] else []) + [t]])
  }

  /** When no status is an inherited name, the code as written computes the grouping. */
  lemma {:induction false} OrganizeAsWrittenGroups(tasks: seq<Task>)
    requires forall t | t in tasks :: t.status !in InheritedNames
    ensures OrganizeAsWritten(tasks).Success?
    ensures var m := OrganizeAsWritten(tasks).value;
      (forall st :: st in m <==> exists t | t in tasks :: t.status == st) &&
      (forall st | st in m :: m[st] == Group(tasks, st))
    decreases |tasks|
  {
    if tasks != [] {
      var init, t := tasks[..|tasks| - 1], tasks[|tasks| - 1];
      assert tasks == init + [t];
      OrganizeAsWrittenGroups(init);
      var acc := OrganizeAsWritten(init).value;
      var m := OrganizeAsWritten(tasks).value;
      forall st | st in m ensures m[st] == Group(tasks, st) {
        FilterAppend(init, t, StatusIs(st));
        if st == t.status && st !in acc {
          forall k | 0 <= k < |init| ensures !StatusIs(st)(init[k]) {
            assert init[k] in init;
          }
          FilterDropsAll(init, StatusIs(st));
        }
      }
    }
  }

  /** The discrepancy: a single task with status "constructor" makes grouping throw, so a
      whole fetch is discarded, where the grouping itself is well defined. */
  lemma InheritedStatusBreaksGrouping()
    ensures var tasks := [Task(1, "Write docs", "constructor", "low", None, None)];
      OrganizeAsWritten(tasks).Failure? && Group(tasks, "constructor") == tasks
  {
    var tasks := [Task(1, "Write docs", "constructor", "low", None, None)];
    assert tasks[0] in tasks;
    assert tasks[1..] == [];
  }

  /** A column's tasks after a fetch: its group, or none. */
  function Regroup(cols: seq<Column>, groups: map<string, seq<Task>>): (r: seq<Column>)
    ensures Ids(r) == Ids(cols)
    ensures forall c | 0 <= c < |cols| ::
      r[c].title == cols[c].title &&
      r[c].tasks == if cols[c].id in groups then groups[cols[c].id] else []
  {
    seq(|cols|, c requires 0 <= c < |cols| =>
      cols[c].(tasks := if cols[c].id in groups then groups[cols[c].id] else []))
  }

  // ---------------------------------------------------------------- stacking and payload

  /** The stacking pass: in a column of n cards the card at index i gets z-index n - i. */
  function Stack(tasks: seq<Task>): (r: seq<Task>)
    ensures |r| == |tasks|
    ensures forall i | 0 <= i < |tasks| ::
      r[i].zIndex.Some? && r[i].(zIndex := tasks[i].zIndex) == tasks[i]
  {
    seq(|tasks|, i requires 0 <= i < |tasks| => tasks[i].(zIndex := Some(|tasks| - i)))
  }

  /** Each card sits above the one below it: z-indices strictly decrease, the top card has
      the column size and the last card has 1. */
  lemma StackOrder(tasks: seq<Task>)
    ensures var r := Stack(tasks);
      (forall i, j | 0 <= i < j < |r| :: r[i].zIndex.value > r[j].zIndex.value) &&
      (forall i | 0 <= i < |r| :: 1 <= r[i].zIndex.value <= |r|) &&
      (|r| > 0 ==> r[0].zIndex == Some(|r|) && r[|r| - 1].zIndex == Some(1))
  {
  }

  function StackAll(cols: seq<Column>): (r: seq<Column>)
    ensures Ids(r) == Ids(cols)
    ensures forall c | 0 <= c < |cols| :: r[c] == cols[c].(tasks := Stack(cols[c].tasks))
  {
    seq(|cols|, c requires 0 <= c < |cols| => cols[c].(tasks := Stack(cols[c].tasks)))
  }

  /** The payload of a positions update: each card's id with its index. */
  function Payload(tasks: seq<Task>): (r: seq<Position>)
    ensures |r| == |tasks|
    ensures forall i | 0 <= i < |tasks| :: r[i].id == tasks[i].id
  {
    seq(|tasks|, i requires 0 <= i < |tasks| => Position(tasks[i].id, i))
  }

  function PositionsOf(ps: seq<Position>): seq<int> {
    seq(|ps|, i requires 0 <= i < |ps| => ps[i].position)
  }

  /** 0, 1, ..., n - 1. */
  function Upto(n: nat): (r: seq<int>)
    ensures |r| == n
  {
    if n == 0 then [] else Upto(n - 1) + [n - 1]
  }

  /** A column of n cards is sent exactly the positions 0 .. n-1, in list order. */
  lemma {:induction false} PayloadPositions(tasks: seq<Task>)
    ensures PositionsOf(Payload(tasks)) == Upto(|tasks|)
    decreases |tasks|
  {
    if tasks != [] {
      var init := tasks[..|tasks| - 1];
      PayloadPositions(init);
      assert PositionsOf(Payload(tasks)) == PositionsOf(Payload(init)) + [|tasks| - 1];
    }
  }

  // ---------------------------------------------------------------- lookup and insertion

  /** `columns.find(...)` by id, as an index (-1 when absent). */
  function FindColumn(cols: seq<Column>, id: string): (r: int)
    ensures -1 <= r < |cols|
    ensures r >= 0 ==> cols[r].id == id && forall k | 0 <= k < r :: cols[k].id != id
    ensures r == -1 ==> forall k | 0 <= k < |cols| :: cols[k].id != id
  {
    FirstIndex(cols, (c: Column) => c.id == id)
  }

  /** `tasks.findIndex(t => t.id === id)`. */
  function FindTask(tasks: seq<Task>, id: int): (r: int)
    ensures -1 <= r < |tasks|
    ensures r >= 0 ==> tasks[r].id == id && forall k | 0 <= k < r :: tasks[k].id != id
    ensures r == -1 ==> forall k | 0 <= k < |tasks| :: tasks[k].id != id
  {
    FirstIndex(tasks, (t: Task) => t.id == id)
  }

  /** `!dragOverTask`: nothing hovered, or a card whose id is 0. */
  predicate Falsy(over: DragOver) {
    over.NoHover? || over == OverTask(0)
  }

  /** Where the dragged card goes among `tasks`: just before or just after the hovered card,
      otherwise at the end. */
  function InsertIndex(tasks: seq<Task>, over: DragOver, side: Side): (r: nat)
    ensures r <= |tasks|
    ensures Falsy(over) || over.OverColumnEnd? ==> r == |tasks|
    ensures over.OverTask? && (forall k | 0 <= k < |tasks| :: tasks[k].id != over.taskId) ==>
      r == |tasks|
  {
    var target := if Falsy(over) || over.OverColumnEnd? then -1 else FindTask(tasks, over.taskId);
    if target > -1 then (if side == Bottom then target + 1 else target) else |tasks|
  }

  /** With a hovered card found at index k (its first occurrence), the card goes at k for the
      top half and at k + 1 for the bottom half, so after insertion the hovered card is
      right below it, or right above it. */
  lemma InsertIndexAtHovered(tasks: seq<Task>, over: DragOver, side: Side, k: nat, d: Task)
    requires !Falsy(over) && over.OverTask?
    requires k < |tasks| && tasks[k].id == over.taskId
    requires forall j | 0 <= j < k :: tasks[j].id != over.taskId
    ensures InsertIndex(tasks, over, side) == if side == Bottom then k + 1 else k
    ensures var n := InsertAt(tasks, InsertIndex(tasks, over, side), d);
      if side == Bottom then n[k] == tasks[k] && n[k + 1] == d
      else n[k] == d && n[k + 1] == tasks[k]
  {
  }

  /** Replace the tasks of every column with the given id. */
  function WithTasks(cols: seq<Column>, id: string, tasks: seq<Task>): (r: seq<Column>)
    ensures Ids(r) == Ids(cols)
    ensures forall c | 0 <= c < |cols| ::
      r[c].title == cols[c].title && (cols[c].id == id ==> r[c].tasks == tasks) &&
      (cols[c].id != id ==> r[c] == cols[c])
  {
    seq(|cols|, c requires 0 <= c < |cols| =>
      if cols[c].id == id then cols[c].(tasks := tasks) else cols[c])
  }

  // ---------------------------------------------------------------- drop

  /** What a drop does: the new columns, the requests sent, and whether the drag state is
      cleared at the end (the early returns leave it). */
  datatype DropEffect = DropEffect(columns: seq<Column>, requests: seq<Request>, completed: bool)

  /** `handleDrop`, with the status request's `response.ok` as `statusOk`. */
  function DropOutcome(cols: seq<Column>, over: DragOver, side: Side,
                       sourceId: string, targetId: string, taskId: int, statusOk: bool): (r: DropEffect)
    ensures Ids(r.columns) == Ids(cols)
    ensures r.requests == [] <==> !r.completed
    ensures !r.completed ==> r.columns == cols
    ensures |r.requests| <= 3
  {
    var s, t := FindColumn(cols, sourceId), FindColumn(cols, targetId);
    if s < 0 || t < 0 then DropEffect(cols, [], false)
    else
      var idx := FindTask(cols[s].tasks, taskId);
      if idx < 0 then DropEffect(cols, [], false)
      else
        var d := cols[s].tasks[idx];
        if sourceId == targetId then
          var rest := RemoveAt(cols[s].tasks, idx);
          var moved := InsertAt(rest, InsertIndex(rest, over, side), d);
          DropEffect(WithTasks(cols, sourceId, moved), [PositionsUpdate(targetId, Payload(moved))], true)
        else
          var src := RemoveAt(cols[s].tasks, idx);
          var ins := InsertIndex(cols[t].tasks, over, side);
          var tgt := InsertAt(cols[t].tasks, ins, d);
          var status := StatusUpdate(taskId, targetId, ins);
          if statusOk then
            DropEffect(WithTasks(WithTasks(cols, sourceId, src), targetId, tgt),
                       [status, PositionsUpdate(sourceId, Payload(src)), PositionsUpdate(targetId, Payload(tgt))],
                       true)
          else
            DropEffect(cols, [status], true)
  }

  /** An unknown source or target column, or a dragged id absent from the source column,
      changes nothing, sends nothing and leaves the drag state alone. */
  lemma DropUnknownIsNoOp(cols: seq<Column>, over: DragOver, side: Side,
                          sourceId: string, targetId: string, taskId: int, statusOk: bool)
    requires FindColumn(cols, sourceId) < 0 || FindColumn(cols, targetId) < 0 ||
             forall k | 0 <= k < |cols[FindColumn(cols, sourceId)].tasks| ::
               cols[FindColumn(cols, sourceId)].tasks[k].id != taskId
    ensures DropOutcome(cols, over, side, sourceId, targetId, taskId, statusOk) == DropEffect(cols, [], false)
  {
  }

  /** A drop inside one column permutes that column: the dragged card sits at the insert
      index, the other cards keep their relative order, and the new order is what is sent. */
  lemma {:induction false} SameColumnDrop(cols: seq<Column>, over: DragOver, side: Side,
                                          id: string, taskId: int, statusOk: bool)
    requires 0 <= FindColumn(cols, id)
    requires 0 <= FindTask(cols[FindColumn(cols, id)].tasks, taskId)
    ensures var s := FindColumn(cols, id);
      var before := cols[s].tasks;
      var idx := FindTask(before, taskId);
      var e := DropOutcome(cols, over, side, id, id, taskId, statusOk);
      var ins := InsertIndex(RemoveAt(before, idx), over, side);
      var moved := e.columns[s].tasks;
      e.completed && Ids(e.columns) == Ids(cols) &&
      |moved| == |before| && multiset(moved) == multiset(before) &&
      moved[ins] == before[idx] && RemoveAt(moved, ins) == RemoveAt(before, idx) &&
      (forall c | 0 <= c < |cols| && cols[c].id != id :: e.columns[c] == cols[c]) &&
      e.requests == [PositionsUpdate(id, Payload(moved))]
  {
    var s := FindColumn(cols, id);
    var before := cols[s].tasks;
    var idx := FindTask(before, taskId);
    var rest := RemoveAt(before, idx);
    var ins := InsertIndex(rest, over, side);
    MultisetRemoveAt(before, idx);
    MultisetInsertAt(rest, ins, before[idx]);
    RemoveInserted(rest, ins, before[idx]);
  }

  /** A drop across columns, once the server accepts the status change: the source loses
      exactly the dragged card, the target gains it at the insert index, every other column
      is unchanged, and the requests are the status change then both new orders. */
  lemma {:induction false} CrossColumnDrop(cols: seq<Column>, over: DragOver, side: Side,
                                           sourceId: string, targetId: string, taskId: int)
    requires sourceId != targetId
    requires 0 <= FindColumn(cols, sourceId) && 0 <= FindColumn(cols, targetId)
    requires 0 <= FindTask(cols[FindColumn(cols, sourceId)].tasks, taskId)
    ensures var s, t := FindColumn(cols, sourceId), FindColumn(cols, targetId);
      var idx := FindTask(cols[s].tasks, taskId);
      var ins := InsertIndex(cols[t].tasks, over, side);
      var e := DropOutcome(cols, over, side, sourceId, targetId, taskId, true);
      e.completed && Ids(e.columns) == Ids(cols) &&
      e.columns[s].tasks == RemoveAt(cols[s].tasks, idx) &&
      e.columns[t].tasks == InsertAt(cols[t].tasks, ins, cols[s].tasks[idx]) &&
      (forall c | 0 <= c < |cols| && cols[c].id != sourceId && cols[c].id != targetId ::
         e.columns[c] == cols[c]) &&
      e.requests == [StatusUpdate(taskId, targetId, ins),
                     PositionsUpdate(sourceId, Payload(e.columns[s].tasks)),
                     PositionsUpdate(targetId, Payload(e.columns[t].tasks))]
  {
  }

  /** Without an OK response to the status change the board keeps its columns: only that
      request has gone out. */
  lemma CrossColumnDropRefused(cols: seq<Column>, over: DragOver, side: Side,
                               sourceId: string, targetId: string, taskId: int)
    requires sourceId != targetId
    requires 0 <= FindColumn(cols, sourceId) && 0 <= FindColumn(cols, targetId)
    requires 0 <= FindTask(cols[FindColumn(cols, sourceId)].tasks, taskId)
    ensures var e := DropOutcome(cols, over, side, sourceId, targetId, taskId, false);
      e.columns == cols && |e.requests| == 1 && e.requests[0].StatusUpdate?
  {
  }

  /** All cards on the board, column after column. */
  function AllTasks(cols: seq<Column>): seq<Task> {
    if cols == [] then [] else cols[0].tasks + AllTasks(cols[1..])
  }

  /** No column other than the `k`th has its id. */
  predicate OnlyAt(cols: seq<Column>, k: nat)
    requires k < |cols|
  {
    forall c | 0 <= c < |cols| && c != k :: cols[c].id != cols[k].id
  }

  lemma UniqueOnlyAt(cols: seq<Column>, k: nat)
    requires UniqueIds(cols) && k < |cols|
    ensures OnlyAt(cols, k)
  {
    forall c | 0 <= c < |cols| && c != k ensures cols[c].id != cols[k].id {
      if c < k { assert cols[c].id != cols[k].id; } else { assert cols[k].id != cols[c].id; }
    }
  }

  lemma {:induction false} AllTasksWithTasks(cols: seq<Column>, k: nat, tasks: seq<Task>)
    requires k < |cols| && OnlyAt(cols, k)
    ensures multiset(AllTasks(WithTasks(cols, cols[k].id, tasks))) + multiset(cols[k].tasks) ==
            multiset(AllTasks(cols)) + multiset(tasks)
  {
    var id, rest := cols[k].id, cols[1..];
    assert multiset(AllTasks(cols)) == multiset(cols[0].tasks) + multiset(AllTasks(rest)) by {
      assert AllTasks(cols) == cols[0].tasks + AllTasks(rest);
    }
    if k == 0 {
      WithTasksHead(cols, tasks);
      assert multiset(AllTasks(WithTasks(cols, id, tasks))) == multiset(tasks) + multiset(AllTasks(rest));
    } else {
      OnlyAtTail(cols, k);
      AllTasksWithTasks(rest, k - 1, tasks);
      WithTasksStep(cols, k, tasks);
      assert multiset(AllTasks(WithTasks(cols, id, tasks))) ==
             multiset(cols[0].tasks) + multiset(AllTasks(WithTasks(rest, id, tasks)));
      MultisetShift(multiset(cols[0].tasks), multiset(AllTasks(WithTasks(rest, id, tasks))), multiset(cols[k].tasks),
                    multiset(AllTasks(rest)), multiset(tasks));
    }
  }

  lemma OnlyAtTail(cols: seq<Column>, k: nat)
    requires 0 < k < |cols| && OnlyAt(cols, k)
    ensures cols[1..][k - 1] == cols[k] && OnlyAt(cols[1..], k - 1)
  {
    var rest := cols[1..];
    forall c | 0 <= c < |rest| && c != k - 1 ensures rest[c].id != rest[k - 1].id {
      assert rest[c] == cols[c + 1];
    }
  }

  /** Replacing the first column's cards replaces the front of the board's cards. */
  lemma WithTasksHead(cols: seq<Column>, tasks: seq<Task>)
    requires cols != [] && OnlyAt(cols, 0)
    ensures AllTasks(WithTasks(cols, cols[0].id, tasks)) == tasks + AllTasks(cols[1..])
  {
    var r := WithTasks(cols, cols[0].id, tasks);
    assert r[1..] == cols[1..] by {
      forall c | 0 <= c < |cols| - 1 ensures r[1..][c] == cols[1..][c] {
        assert cols[c + 1].id != cols[0].id;
      }
    }
  }

  /** Replacing a later column's cards leaves the first column in front. */
  lemma WithTasksStep(cols: seq<Column>, k: nat, tasks: seq<Task>)
    requires 0 < k < |cols| && OnlyAt(cols, k)
    ensures AllTasks(WithTasks(cols, cols[k].id, tasks)) ==
            cols[0].tasks + AllTasks(WithTasks(cols[1..], cols[k].id, tasks))
  {
    var r := WithTasks(cols, cols[k].id, tasks);
    assert r[1..] == WithTasks(cols[1..], cols[k].id, tasks);
    assert r[0] == cols[0];
  }

  /** Taking card `idx` out of column `k` leaves the board's cards less that one. */
  lemma RemoveFromColumn(cols: seq<Column>, k: nat, idx: nat)
    requires k < |cols| && OnlyAt(cols, k) && idx < |cols[k].tasks|
    ensures multiset(AllTasks(WithTasks(cols, cols[k].id, RemoveAt(cols[k].tasks, idx)))) +
            multiset{cols[k].tasks[idx]} == multiset(AllTasks(cols))
  {
    var src := RemoveAt(cols[k].tasks, idx);
    AllTasksWithTasks(cols, k, src);
    MultisetRemoveAt(cols[k].tasks, idx);
    var after := multiset(AllTasks(WithTasks(cols, cols[k].id, src)));
    assert (after + multiset{cols[k].tasks[idx]}) + multiset(src) == multiset(AllTasks(cols)) + multiset(src);
    MultisetCancel(after + multiset{cols[k].tasks[idx]}, multiset(AllTasks(cols)), multiset(src));
  }

  /** Putting a card into column `k` adds exactly that card to the board. */
  lemma InsertIntoColumn(cols: seq<Column>, k: nat, ins: nat, d: Task)
    requires k < |cols| && OnlyAt(cols, k) && ins <= |cols[k].tasks|
    ensures multiset(AllTasks(WithTasks(cols, cols[k].id, InsertAt(cols[k].tasks, ins, d)))) ==
            multiset(AllTasks(cols)) + multiset{d}
  {
    var tgt := InsertAt(cols[k].tasks, ins, d);
    AllTasksWithTasks(cols, k, tgt);
    MultisetInsertAt(cols[k].tasks, ins, d);
    var after := multiset(AllTasks(WithTasks(cols, cols[k].id, tgt)));
    assert after + multiset(cols[k].tasks) == (multiset(AllTasks(cols)) + multiset{d}) + multiset(cols[k].tasks);
    MultisetCancel(after, multiset(AllTasks(cols)) + multiset{d}, multiset(cols[k].tasks));
  }

  /** A drop never creates or loses a card: for distinct column ids the multiset of all
      cards on the board is the same before and after. */
  lemma {:induction false} DropKeepsAllCards(cols: seq<Column>, over: DragOver, side: Side,
                                             sourceId: string, targetId: string, taskId: int, statusOk: bool)
    requires UniqueIds(cols)
    ensures multiset(AllTasks(DropOutcome(cols, over, side, sourceId, targetId, taskId, statusOk).columns)) ==
            multiset(AllTasks(cols))
  {
    var s, t := FindColumn(cols, sourceId), FindColumn(cols, targetId);
    if s >= 0 && t >= 0 && FindTask(cols[s].tasks, taskId) >= 0 {
      if sourceId == targetId {
        SameColumnKeepsCards(cols, over, side, sourceId, taskId, statusOk);
      } else if statusOk {
        CrossColumnKeepsCards(cols, over, side, sourceId, targetId, taskId);
      }
    }
  }

  lemma SameColumnKeepsCards(cols: seq<Column>, over: DragOver, side: Side,
                             id: string, taskId: int, statusOk: bool)
    requires UniqueIds(cols)
    requires 0 <= FindColumn(cols, id)
    requires 0 <= FindTask(cols[FindColumn(cols, id)].tasks, taskId)
    ensures multiset(AllTasks(DropOutcome(cols, over, side, id, id, taskId, statusOk).columns)) ==
            multiset(AllTasks(cols))
  {
    var s := FindColumn(cols, id);
    var before := cols[s].tasks;
    var idx := FindTask(before, taskId);
    var rest := RemoveAt(before, idx);
    var moved := InsertAt(rest, InsertIndex(rest, over, side), before[idx]);
    var after := DropOutcome(cols, over, side, id, id, taskId, statusOk).columns;
    assert after == WithTasks(cols, id, moved);
    UniqueOnlyAt(cols, s);
    AllTasksWithTasks(cols, s, moved);
    MultisetRemoveAt(before, idx);
    MultisetInsertAt(rest, InsertIndex(rest, over, side), before[idx]);
    MultisetCancel(multiset(AllTasks(after)), multiset(AllTasks(cols)), multiset(before));
  }

  lemma CrossColumnKeepsCards(cols: seq<Column>, over: DragOver, side: Side,
                              sourceId: string, targetId: string, taskId: int)
    requires UniqueIds(cols) && sourceId != targetId
    requires 0 <= FindColumn(cols, sourceId) && 0 <= FindColumn(cols, targetId)
    requires 0 <= FindTask(cols[FindColumn(cols, sourceId)].tasks, taskId)
    ensures multiset(AllTasks(DropOutcome(cols, over, side, sourceId, targetId, taskId, true).columns)) ==
            multiset(AllTasks(cols))
  {
    var s, t := FindColumn(cols, sourceId), FindColumn(cols, targetId);
    var idx := FindTask(cols[s].tasks, taskId);
    var d := cols[s].tasks[idx];
    var ins := InsertIndex(cols[t].tasks, over, side);
    var mid := WithTasks(cols, sourceId, RemoveAt(cols[s].tasks, idx));
    var after := DropOutcome(cols, over, side, sourceId, targetId, taskId, true).columns;
    assert after == WithTasks(mid, targetId, InsertAt(cols[t].tasks, ins, d));
    UniqueOnlyAt(cols, s);
    RemoveFromColumn(cols, s, idx);
    assert OnlyAt(mid, t) by {
      WithTasksKeepsUnique(cols, sourceId, RemoveAt(cols[s].tasks, idx));
      UniqueOnlyAt(mid, t);
    }
    assert mid[t] == cols[t];
    InsertIntoColumn(mid, t, ins, d);
  }

  lemma WithTasksKeepsUnique(cols: seq<Column>, id: string, tasks: seq<Task>)
    requires UniqueIds(cols)
    ensures UniqueIds(WithTasks(cols, id, tasks))
  {
    var r := WithTasks(cols, id, tasks);
    forall i, j | 0 <= i < j < |r| ensures r[i].id != r[j].id {
      assert r[i].id == Ids(r)[i] == Ids(cols)[i];
      assert r[j].id == Ids(r)[j] == Ids(cols)[j];
    }
  }

  // ---------------------------------------------------------------- per-task updates

  /** Set the priority of every card with the given id. */
  function SetPriority(cols: seq<Column>, taskId: int, priority: string): (r: seq<Column>)
    ensures Ids(r) == Ids(cols)
    ensures forall c | 0 <= c < |cols| :: r[c].title == cols[c].title && |r[c].tasks| == |cols[c].tasks|
    ensures forall c, i | 0 <= c < |cols| && 0 <= i < |cols[c].tasks| ::
      var (was, now) := (cols[c].tasks[i], r[c].tasks[i]);
      (was.id == taskId ==> now == was.(priority := priority)) && (was.id != taskId ==> now == was)
  {
    seq(|cols|, c requires 0 <= c < |cols| =>
      cols[c].(tasks := seq(|cols[c].tasks|, i requires 0 <= i < |cols[c].tasks| =>
        if cols[c].tasks[i].id == taskId then cols[c].tasks[i].(priority := priority) else cols[c].tasks[i])))
  }

  function AssigneeOf(u: AssignmentModal.User): Assignee {
    Assignee(u.id, u.name, u.email, u.avatarUrl)
  }

  /** Copy the chosen user onto every card with the given id. */
  function SetAssignee(cols: seq<Column>, taskId: int, u: AssignmentModal.User): (r: seq<Column>)
    ensures Ids(r) == Ids(cols)
    ensures forall c | 0 <= c < |cols| :: r[c].title == cols[c].title && |r[c].tasks| == |cols[c].tasks|
    ensures forall c, i | 0 <= c < |cols| && 0 <= i < |cols[c].tasks| ::
      var (was, now) := (cols[c].tasks[i], r[c].tasks[i]);
      (was.id == taskId ==> now == was.(assignee := Some(AssigneeOf(u)))) && (was.id != taskId ==> now == was)
  {
    seq(|cols|, c requires 0 <= c < |cols| =>
      cols[c].(tasks := seq(|cols[c].tasks|, i requires 0 <= i < |cols[c].tasks| =>
        if cols[c].tasks[i].id == taskId then cols[c].tasks[i].(assignee := Some(AssigneeOf(u)))
        else cols[c].tasks[i])))
  }

  function IdIsNot(taskId: int): Task -> bool {
    (t: Task) => t.id != taskId
  }

  /** `tasks.filter(task => task.id !== taskId)`. */
  function Without(tasks: seq<Task>, taskId: int): (r: seq<Task>)
    ensures IsSubsequence(r, tasks)
    ensures forall t :: t in r <==> t in tasks && t.id != taskId
    ensures forall t :: multiset(r)[t] == if t.id != taskId then multiset(tasks)[t] else 0
  {
    FilterIsSubsequence(tasks, IdIsNot(taskId));
    forall t ensures t in Filter(tasks, IdIsNot(taskId)) <==> t in tasks && t.id != taskId {
      FilterMembership(tasks, IdIsNot(taskId), t);
    }
    forall t ensures multiset(Filter(tasks, IdIsNot(taskId)))[t] ==
      if t.id != taskId then multiset(tasks)[t] else 0 {
      FilterCount(tasks, IdIsNot(taskId), t);
    }
    Filter(tasks, IdIsNot(taskId))
  }

  /** Remove every card with the given id from every column. */
  function RemoveTask(cols: seq<Column>, taskId: int): (r: seq<Column>)
    ensures Ids(r) == Ids(cols)
    ensures forall c | 0 <= c < |cols| ::
      r[c].title == cols[c].title && IsSubsequence(r[c].tasks, cols[c].tasks) &&
      (forall t :: t in r[c].tasks <==> t in cols[c].tasks && t.id != taskId) &&
      (forall t :: multiset(r[c].tasks)[t] == if t.id != taskId then multiset(cols[c].tasks)[t] else 0)
  {
    seq(|cols|, c requires 0 <= c < |cols| => cols[c].(tasks := Without(cols[c].tasks, taskId)))
  }

  lemma RemoveTaskAt(cols: seq<Column>, taskId: int, c: nat)
    requires c < |cols|
    ensures RemoveTask(cols, taskId)[c].tasks == Without(cols[c].tasks, taskId)
  {
  }

  /** Deleting a card that is not on the board changes nothing. */
  lemma RemoveAbsentTask(cols: seq<Column>, taskId: int)
    requires forall t | t in AllTasks(cols) :: t.id != taskId
    ensures RemoveTask(cols, taskId) == cols
  {
    forall c | 0 <= c < |cols| ensures RemoveTask(cols, taskId)[c] == cols[c] {
      forall i | 0 <= i < |cols[c].tasks| ensures IdIsNot(taskId)(cols[c].tasks[i]) {
        InAllTasks(cols, c, i);
      }
      FilterKeepsAll(cols[c].tasks, IdIsNot(taskId));
    }
  }

  lemma {:induction false} InAllTasks(cols: seq<Column>, c: nat, i: nat)
    requires c < |cols| && i < |cols[c].tasks|
    ensures cols[c].tasks[i] in AllTasks(cols)
  {
    if c > 0 {
      InAllTasks(cols[1..], c - 1, i);
    }
  }

  /** `columns.find(col => col.tasks.some(task => task.id === taskId))` as an index. */
  function ColumnHolding(cols: seq<Column>, taskId: int): (r: int)
    ensures -1 <= r < |cols|
    ensures r >= 0 ==>
      FindTask(cols[r].tasks, taskId) >= 0 && forall k | 0 <= k < r :: FindTask(cols[k].tasks, taskId) < 0
    ensures r == -1 ==> forall k | 0 <= k < |cols| :: FindTask(cols[k].tasks, taskId) < 0
  {
    if cols == [] then -1
    else if FindTask(cols[0].tasks, taskId) >= 0 then 0
    else
      var r := ColumnHolding(cols[1..], taskId);
      if r < 0 then -1 else r + 1
  }

  // ---------------------------------------------------------------- the component state

  /** The outcome of the assignment request. */
  datatype AssignReply = Assigned | Declined | AssignThrew

  /** The board component's state. */
  class BoardState {
    var columns: seq<Column>
    var draggedTask: Option<int>
    var dragOver: DragOver
    var dragSide: Side
    var freshBoard: bool
    var assignmentModalOpen: bool

    /** The board always shows the three initial columns, in order. */
    ghost predicate Valid()
      reads this
    {
      Ids(columns) == Ids(InitialColumns)
    }

    /** `tasksAdded` is the stored flag; the board is fresh unless it is exactly "true". */
    constructor (tasksAdded: Option<string>)
      ensures Valid() && columns == InitialColumns
      ensures draggedTask == None && dragOver == NoHover && dragSide == NoSide
      ensures freshBoard == (tasksAdded != Some("true")) && !assignmentModalOpen
    {
      columns := InitialColumns;
      draggedTask, dragOver, dragSide := None, NoHover, NoSide;
      freshBoard := tasksAdded != Some("true");
      assignmentModalOpen := false;
    }

    /** A successful `GET /api/tasks`: each column receives its status group, stacked. */
    method ApplyFetched(tasks: seq<Task>)
      requires Valid()
      modifies this
      ensures Valid()
      ensures forall c | 0 <= c < |columns| ::
        columns[c].tasks == Stack(Group(tasks, old(columns)[c].id))
      ensures forall c | 0 <= c < |columns| :: columns[c].title == old(columns)[c].title
      ensures freshBoard == (old(freshBoard) && tasks == [])
      ensures draggedTask == old(draggedTask) && dragOver == old(dragOver) && dragSide == old(dragSide)
      ensures assignmentModalOpen == old(assignmentModalOpen)
    {
      var groups := OrganizeByStatus(tasks);
      columns := Regroup(columns, groups);
      if |tasks| > 0 {
        freshBoard := false;
      }
      columns := StackAll(columns);
      forall c | 0 <= c < |columns| ensures columns[c].tasks == Stack(Group(tasks, old(columns)[c].id)) {
        var id := old(columns)[c].id;
        if id !in groups {
          assert forall t | t in tasks :: !StatusIs(id)(t);
          forall i | 0 <= i < |tasks| ensures !StatusIs(id)(tasks[i]) {
            assert tasks[i] in tasks;
          }
          FilterDropsAll(tasks, StatusIs(id));
        }
      }
    }

    method DragStart(taskId: int)
      modifies this
      ensures draggedTask == Some(taskId)
      ensures columns == old(columns) && dragOver == old(dragOver) && dragSide == old(dragSide)
      ensures freshBoard == old(freshBoard) && assignmentModalOpen == old(assignmentModalOpen)
    {
      draggedTask := Some(taskId);
    }

    /** Hovering a card records it and the half (top or bottom) under the pointer, unless it
        is the card being dragged. */
    method DragOverTask(taskId: int, side: Side)
      modifies this
      ensures if draggedTask == Some(taskId) then dragOver == old(dragOver) && dragSide == old(dragSide)
              else dragOver == OverTask(taskId) && dragSide == side
      ensures columns == old(columns) && draggedTask == old(draggedTask)
      ensures freshBoard == old(freshBoard) && assignmentModalOpen == old(assignmentModalOpen)
    {
      if draggedTask == Some(taskId) {
        return;
      }
      dragOver := OverTask(taskId);
      dragSide := side;
    }

    /** Hovering a column with nothing hovered yet targets its end, bottom side. */
    method ColumnDragOver(columnId: string)
      modifies this
      ensures Falsy(old(dragOver)) ==> dragOver == OverColumnEnd(columnId) && dragSide == Bottom
      ensures !Falsy(old(dragOver)) ==> dragOver == old(dragOver) && dragSide == old(dragSide)
      ensures columns == old(columns) && draggedTask == old(draggedTask)
      ensures freshBoard == old(freshBoard) && assignmentModalOpen == old(assignmentModalOpen)
    {
      if Falsy(dragOver) {
        dragOver := OverColumnEnd(columnId);
        dragSide := Bottom;
      }
    }

    /** Leaving the hovered element for one outside it clears the hover. */
    method DragLeave(leftElement: bool)
      modifies this
      ensures leftElement ==> dragOver == NoHover && dragSide == NoSide
      ensures !leftElement ==> dragOver == old(dragOver) && dragSide == old(dragSide)
      ensures columns == old(columns) && draggedTask == old(draggedTask)
      ensures freshBoard == old(freshBoard) && assignmentModalOpen == old(assignmentModalOpen)
    {
      if leftElement {
        dragOver := NoHover;
        dragSide := NoSide;
      }
    }

    method DragEnd()
      modifies this
      ensures draggedTask == None && dragOver == NoHover && dragSide == NoSide
      ensures columns == old(columns)
      ensures freshBoard == old(freshBoard) && assignmentModalOpen == old(assignmentModalOpen)
    {
      draggedTask, dragOver, dragSide := None, NoHover, NoSide;
    }

    /** `handleDrop`: splice the dragged card out of its column copy and into the target
        copy, then publish the copies and the requests. */
    method Drop(sourceId: string, targetId: string, taskId: int, statusOk: bool) returns (requests: seq<Request>)
      requires Valid()
      modifies this
      ensures Valid()
      ensures var e := DropOutcome(old(columns), old(dragOver), old(dragSide), sourceId, targetId, taskId, statusOk);
        columns == e.columns && requests == e.requests &&
        (e.completed ==> draggedTask == None && dragOver == NoHover && dragSide == NoSide) &&
        (!e.completed ==> draggedTask == old(draggedTask) && dragOver == old(dragOver) && dragSide == old(dragSide))
      ensures freshBoard == old(freshBoard) && assignmentModalOpen == old(assignmentModalOpen)
    {
      requests := [];
      var s := FindColumn(columns, sourceId);
      var t := FindColumn(columns, targetId);
      if s < 0 || t < 0 {
        return;
      }
      var idx := FindTask(columns[s].tasks, taskId);
      if idx < 0 {
        return;
      }
      var dragged := columns[s].tasks[idx];
      if sourceId == targetId {
        var tasks := columns[s].tasks;
        tasks := RemoveAt(tasks, idx);
        var ins := InsertIndex(tasks, dragOver, dragSide);
        tasks := InsertAt(tasks, ins, dragged);
        columns := WithTasks(columns, sourceId, tasks);
        requests := [PositionsUpdate(targetId, Payload(tasks))];
      } else {
        var sourceTasks := columns[s].tasks;
        var targetTasks := columns[t].tasks;
        sourceTasks := RemoveAt(sourceTasks, idx);
        var ins := InsertIndex(targetTasks, dragOver, dragSide);
        targetTasks := InsertAt(targetTasks, ins, dragged);
        requests := [StatusUpdate(taskId, targetId, ins)];
        if statusOk {
          requests := requests + [PositionsUpdate(sourceId, Payload(sourceTasks)),
                                  PositionsUpdate(targetId, Payload(targetTasks))];
          columns := WithTasks(WithTasks(columns, sourceId, sourceTasks), targetId, targetTasks);
        }
      }
      DragEnd();
    }

    /** A successful priority change updates that card locally. */
    method ChangePriority(taskId: int, priority: string, accepted: bool)
      requires Valid()
      modifies this
      ensures Valid()
      ensures columns == if accepted then SetPriority(old(columns), taskId, priority) else old(columns)
      ensures draggedTask == old(draggedTask) && dragOver == old(dragOver) && dragSide == old(dragSide)
      ensures freshBoard == old(freshBoard) && assignmentModalOpen == old(assignmentModalOpen)
    {
      if accepted {
        columns := SetPriority(columns, taskId, priority);
      }
    }

    /** `handleAssignTask`: success copies the user onto the card and yields true; a declined
        request closes the dialog and yields undefined (None); a thrown error yields false. */
    method AssignTask(taskId: int, u: AssignmentModal.User, reply: AssignReply) returns (r: Option<bool>)
      requires Valid()
      modifies this
      ensures Valid()
      ensures reply.Assigned? ==>
        columns == SetAssignee(old(columns), taskId, u) && r == Some(true) && assignmentModalOpen == old(assignmentModalOpen)
      ensures reply.Declined? ==> columns == old(columns) && r == None && !assignmentModalOpen
      ensures reply.AssignThrew? ==>
        columns == old(columns) && r == Some(false) && assignmentModalOpen == old(assignmentModalOpen)
      ensures draggedTask == old(draggedTask) && dragOver == old(dragOver) && dragSide == old(dragSide)
      ensures freshBoard == old(freshBoard)
    {
      match reply {
        case Assigned =>
          columns := SetAssignee(columns, taskId, u);
          return Some(true);
        case AssignThrew =>
          return Some(false);
        case Declined =>
      }
      assignmentModalOpen := false;
      r := None;
    }

    /** `handleDeleteTask`: on success, the first column holding the card is sent its order
        without the card, and the card leaves every column. */
    method DeleteTask(taskId: int, success: bool) returns (ok: bool, requests: seq<Request>)
      requires Valid()
      modifies this
      ensures Valid()
      ensures ok == success
      ensures columns == if success then RemoveTask(old(columns), taskId) else old(columns)
      ensures var c := ColumnHolding(old(columns), taskId);
        requests == if success && c >= 0
          then [PositionsUpdate(old(columns)[c].id, Payload(RemoveTask(old(columns), taskId)[c].tasks))]
          else []
      ensures draggedTask == old(draggedTask) && dragOver == old(dragOver) && dragSide == old(dragSide)
      ensures freshBoard == old(freshBoard) && assignmentModalOpen == old(assignmentModalOpen)
    {
      requests := [];
      if !success {
        return false, requests;
      }
      var c := ColumnHolding(columns, taskId);
      if c >= 0 {
        var remaining := Without(columns[c].tasks, taskId);
        RemoveTaskAt(columns, taskId, c);
        requests := [PositionsUpdate(columns[c].id, Payload(remaining))];
      }
      columns := RemoveTask(columns, taskId);
      ok := true;
    }
  }
}
