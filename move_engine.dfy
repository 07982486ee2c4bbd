/** The board's move engine: the button move `moveIssue`, the drag-and-drop
    transition `onDragEnd` with its same-column and cross-column branches, and
    the single `LastAction` undo record both of them produce. */
module MoveEngine {
  import opened Common
  import opened Issues
  import IssueCard
  import IssuesContext

  /** The undo record: the moved id, its old and new column and the whole
      list as it was before the move. */
  datatype LastAction = LastAction(issueId: string, fromStatus: string, toStatus: string, prevIssues: seq<Issue>)

  /** `columns.indexOf(fromStatus) + (direction === "left" ? -1 : 1)` */
  function TargetIndex(fromStatus: string, dir: Direction): (r: int)
    ensures fromStatus !in Columns ==> r == if dir == Left then -2 else 0
    ensures fromStatus in Columns ==>
              var back := if dir == Left then r + 1 else r - 1;
              0 <= back < |Columns| && Columns[back] == fromStatus
  {
    IndexOf(Columns, fromStatus) + (if dir == Left then -1 else 1)
  }

  /** moveIssue has no guard of its own: it dereferences `find(...)!` and
      reads `columns[newIndex]` unchecked. This is what it needs of its
      caller. */
  predicate CanApplyMove(issues: seq<Issue>, id: string, dir: Direction) {
    FindById(issues, id).Some? && 0 <= TargetIndex(FindById(issues, id).value.status, dir) < |Columns|
  }

  /** `s.map(issue => issue.id === id ? { ...issue, status: st } : issue)` */
  function Restatus(s: seq<Issue>, id: string, st: string): (r: seq<Issue>)
    ensures |r| == |s|
    ensures forall k :: 0 <= k < |s| && s[k].id != id ==> r[k] == s[k]
    ensures forall k :: 0 <= k < |s| && s[k].id == id ==> r[k] == s[k].(status := st)
  {
    if s == [] then []
    else [if s[0].id == id then s[0].(status := st) else s[0]] + Restatus(s[1..], id, st)
  }

  /** The column a move in dir reaches from fromStatus, when it is in range:
      the neighbour, or the first column for an unknown status moved right. */
  lemma TargetColumn(fromStatus: string, dir: Direction)
    requires 0 <= TargetIndex(fromStatus, dir) < |Columns|
    ensures fromStatus in Columns ==>
              IndexOf(Columns, Columns[TargetIndex(fromStatus, dir)]) == IndexOf(Columns, fromStatus) + (if dir == Left then -1 else 1)
    ensures fromStatus !in Columns ==> dir == Right && Columns[TargetIndex(fromStatus, dir)] == Backlog
  {
  }

  /** Restatus changes no id, so `find` still lands on the same position. */
  lemma RestatusFind(s: seq<Issue>, id: string, st: string)
    requires FindById(s, id).Some?
    ensures FindById(Restatus(s, id, st), id) == Some(FindById(s, id).value.(status := st))
    ensures Ids(Restatus(s, id, st)) == Ids(s)
  {
    var r := Restatus(s, id, st);
    assert Ids(r) == Ids(s) by {
      forall k | 0 <= k < |s| ensures Ids(r)[k] == Ids(s)[k] {
      }
    }
    SameIdsSameIndex(r, s, id);
    var k := IndexOfId(s, id);
    assert r[k] == s[k].(status := st);
  }

  lemma {:induction false} SameIdsSameIndex(a: seq<Issue>, b: seq<Issue>, id: string)
    requires Ids(a) == Ids(b)
    ensures IndexOfId(a, id) == IndexOfId(b, id)
  {
    if a != [] {
      assert Ids(a[1..]) == Ids(a)[1..] && Ids(b[1..]) == Ids(b)[1..];
      SameIdsSameIndex(a[1..], b[1..], id);
    }
  }

  /** A button move: the new list and its undo record. */
  datatype Moved = Moved(issues: seq<Issue>, action: LastAction)

  /** `moveIssue(id, direction)`: the first issue with the id decides the
      source column; every issue carrying the id moves to the adjacent
      column, and the list keeps its length and order. */
  function MoveIssue(issues: seq<Issue>, id: string, dir: Direction): (r: Moved)
    requires CanApplyMove(issues, id, dir)
    ensures |r.issues| == |issues| && Ids(r.issues) == Ids(issues)
    ensures forall k :: 0 <= k < |issues| && issues[k].id != id ==> r.issues[k] == issues[k]
    ensures forall k :: 0 <= k < |issues| && issues[k].id == id ==>
              r.issues[k] == issues[k].(status := r.action.toStatus)
    ensures r.action.issueId == id && r.action.fromStatus == FindById(issues, id).value.status
    ensures r.action.toStatus in Columns
    ensures r.action.fromStatus in Columns ==>
              IndexOf(Columns, r.action.toStatus) == IndexOf(Columns, r.action.fromStatus) + (if dir == Left then -1 else 1)
    ensures r.action.fromStatus !in Columns ==> dir == Right && r.action.toStatus == Backlog
    ensures FindById(r.issues, id) == Some(FindById(issues, id).value.(status := r.action.toStatus))
    ensures r.action.prevIssues == issues
  {
    var from := FindById(issues, id).value.status;
    var to := Columns[TargetIndex(from, dir)];
    TargetColumn(from, dir);
    RestatusFind(issues, id, to);
    Moved(Restatus(issues, id, to), LastAction(id, from, to, issues))
  }

  /** An enabled card button always meets moveIssue's precondition, provided
      the card shows the issue that `find` returns for its id. */
  lemma EnabledButtonAllowsMove(issues: seq<Issue>, issue: Issue, dir: Direction)
    requires FindById(issues, issue.id) == Some(issue)
    requires IssueCard.CanMove(issue.status, dir)
    ensures CanApplyMove(issues, issue.id, dir)
  {
  }

  // ---------------------------------------------------------------------
  // onDragEnd

  /** A position reported by the drag-and-drop library: a column id and an
      index into that column as it is displayed. */
  datatype Location = Location(droppableId: string, index: nat)

  /** The outcome of a drop: the new list and the undo record, if any. */
  datatype Dropped = Dropped(issues: seq<Issue>, action: Option<LastAction>)

  /** The same-column rebuild: walk the list and, at each position whose
      status is st, take the next issue of col (`startCol.shift()!`). */
  function Refill(s: seq<Issue>, st: string, col: seq<Issue>): seq<Issue>
    requires |col| == |WithStatus(s, st)|
    decreases |s|
  {
    if s == [] then []
    else if s[0].status == st then [col[0]] + Refill(s[1..], st, col[1..])
    else [s[0]] + Refill(s[1..], st, col)
  }

  /** What the cross-column rebuild pushes for column c. */
  function Group(c: string, s: seq<Issue>, from: string, to: string, rest: seq<Issue>, grown: seq<Issue>): seq<Issue> {
    if c == from then rest else if c == to then grown else WithStatus(s, c)
  }

  /** The cross-column rebuild, one group per column of cols, in order. */
  function Regroup(cols: seq<string>, s: seq<Issue>, from: string, to: string, rest: seq<Issue>, grown: seq<Issue>): seq<Issue>
    decreases |cols|
  {
    if cols == [] then []
    else Regroup(cols[..|cols| - 1], s, from, to, rest, grown) + Group(cols[|cols| - 1], s, from, to, rest, grown)
  }

  /** The drop is ignored before any state update: no destination, or the
      card was put back where it was. */
  predicate DroppedInPlace(source: Location, destination: Option<Location>) {
    destination.None? ||
    (destination.value.droppableId == source.droppableId && destination.value.index == source.index)
  }

  /** `onDragEnd(result)` as a function of the list. */
  function DropResult(issues: seq<Issue>, source: Location, destination: Option<Location>, draggableId: string): (r: Dropped)
    ensures r.action.None? <==>
              DroppedInPlace(source, destination) || draggableId !in Ids(WithStatus(issues, source.droppableId))
    ensures r.action.None? ==> r.issues == issues
    ensures r.action.Some? ==>
              r.action.value == LastAction(draggableId, source.droppableId, destination.value.droppableId, issues)
  {
    if DroppedInPlace(source, destination) then Dropped(issues, None)
    else
      var from, to, index := source.droppableId, destination.value.droppableId, destination.value.index;
      var startCol := WithStatus(issues, from);
      var d := IndexOfId(startCol, draggableId);
      if d == -1 then
        assert draggableId !in Ids(startCol);
        Dropped(issues, None)
      else
        assert draggableId in Ids(startCol) by { assert Ids(startCol)[d] == draggableId; }
        var dragged := startCol[d];
        var rest := RemoveAt(startCol, d);
        var action := Some(LastAction(dragged.id, from, to, issues));
        if from == to then
          Dropped(Refill(issues, from, InsertAt(rest, index, dragged)), action)
        else
          Dropped(Regroup(Columns, issues, from, to, rest, InsertAt(WithStatus(issues, to), index, dragged.(status := to))),
                  action)
  }

  /** The same-column loop: `for (const issue of prevState)` pushes either
      the issue itself or `startCol.shift()!`. The shift never runs dry,
      because col has one issue per position of status st. */
  method RebuildSameColumn(prevState: seq<Issue>, st: string, col: seq<Issue>) returns (newIssues: seq<Issue>)
    requires |col| == |WithStatus(prevState, st)|
    ensures newIssues == Refill(prevState, st, col)
  {
    var queue := col;
    newIssues := [];
    for i := 0 to |prevState|
      invariant |queue| == |WithStatus(prevState[i..], st)|
      invariant newIssues + Refill(prevState[i..], st, queue) == Refill(prevState, st, col)
    {
      RefillAt(prevState, i, st, queue);
      if prevState[i].status == st {
        ghost var r := Refill(prevState[i + 1..], st, queue[1..]);
        assert newIssues + ([queue[0]] + r) == (newIssues + [queue[0]]) + r;
        newIssues := newIssues + [queue[0]];
        queue := queue[1..];
      } else {
        ghost var r := Refill(prevState[i + 1..], st, queue);
        assert newIssues + ([prevState[i]] + r) == (newIssues + [prevState[i]]) + r;
        newIssues := newIssues + [prevState[i]];
      }
    }
    assert prevState[|prevState|..] == [];
  }

  /** One step of the same-column rebuild, at position i of s. */
  lemma RefillAt(s: seq<Issue>, i: nat, st: string, queue: seq<Issue>)
    requires i < |s| && |queue| == |WithStatus(s[i..], st)|
    ensures s[i].status == st ==> |queue| > 0 && |queue[1..]| == |WithStatus(s[i + 1..], st)| &&
                                   Refill(s[i..], st, queue) == [queue[0]] + Refill(s[i + 1..], st, queue[1..])
    ensures s[i].status != st ==> |queue| == |WithStatus(s[i + 1..], st)| &&
                                   Refill(s[i..], st, queue) == [s[i]] + Refill(s[i + 1..], st, queue)
  {
    var tail := s[i..];
    assert tail[0] == s[i] && tail[1..] == s[i + 1..];
    RefillHead(tail, st, queue);
  }

  /** The cross-column loop: `for (const col of columns)` pushes the shrunk
      source column, the grown destination column, or the other column's
      issues filtered afresh from prevState. */
  method RebuildAcrossColumns(prevState: seq<Issue>, from: string, to: string, rest: seq<Issue>, grown: seq<Issue>)
    returns (newIssues: seq<Issue>)
    ensures newIssues == Regroup(Columns, prevState, from, to, rest, grown)
  {
    newIssues := [];
    for j := 0 to |Columns|
      invariant newIssues == Regroup(Columns[..j], prevState, from, to, rest, grown)
    {
      assert Columns[..j + 1][..j] == Columns[..j];
      var col := Columns[j];
      if col == from {
        newIssues := newIssues + rest;
      } else if col == to {
        newIssues := newIssues + grown;
      } else {
        newIssues := newIssues + WithStatus(prevState, col);
      }
    }
    assert Columns[..|Columns|] == Columns;
  }

  /** `onDragEnd`, step by step: the early returns, the splices on the
      column copies, and one of the two rebuilding loops. */
  method OnDragEnd(issues: seq<Issue>, source: Location, destination: Option<Location>, draggableId: string)
    returns (newIssues: seq<Issue>, action: Option<LastAction>)
    ensures Dropped(newIssues, action) == DropResult(issues, source, destination, draggableId)
  {
    if DroppedInPlace(source, destination) {
      return issues, None;
    }
    var prevState := issues;
    var from, to := source.droppableId, destination.value.droppableId;
    var startCol := WithStatus(prevState, from);
    var finishCol := if to != from then WithStatus(prevState, to) else [];
    var draggedIdx := IndexOfId(startCol, draggableId);
    if draggedIdx == -1 {
      return prevState, None;
    }
    var dragged := startCol[draggedIdx];
    startCol := RemoveAt(startCol, draggedIdx);
    action := Some(LastAction(dragged.id, from, to, prevState));
    if from == to {
      startCol := InsertAt(startCol, destination.value.index, dragged);
      newIssues := RebuildSameColumn(prevState, from, startCol);
    } else {
      dragged := dragged.(status := to);
      finishCol := InsertAt(finishCol, destination.value.index, dragged);
      newIssues := RebuildAcrossColumns(prevState, from, to, startCol, finishCol);
    }
  }

  // ---------------------------------------------------------------------
  // What a drop does to the list

  /** The index, in the unfiltered source column, of the dragged issue. */
  function DraggedIndex(issues: seq<Issue>, source: Location, draggableId: string): int {
    IndexOfId(WithStatus(issues, source.droppableId), draggableId)
  }

  /** The column after `splice(d, 1)` and `splice(k, 0, col[d])`. */
  function MovedWithin(col: seq<Issue>, d: nat, k: nat): seq<Issue>
    requires d < |col|
  {
    InsertAt(RemoveAt(col, d), k, col[d])
  }

  lemma DraggedIndexFound(issues: seq<Issue>, source: Location, draggableId: string)
    requires draggableId in Ids(WithStatus(issues, source.droppableId))
    ensures 0 <= DraggedIndex(issues, source, draggableId)
  {
    var col := WithStatus(issues, source.droppableId);
    var k :| 0 <= k < |col| && Ids(col)[k] == draggableId;
    assert col[k].id == draggableId;
  }

  /** One step of the same-column rebuild. */
  lemma RefillHead(s: seq<Issue>, st: string, col: seq<Issue>)
    requires s != [] && |col| == |WithStatus(s, st)|
    ensures s[0].status == st ==> |col[1..]| == |WithStatus(s[1..], st)| &&
                                   Refill(s, st, col) == [col[0]] + Refill(s[1..], st, col[1..])
    ensures s[0].status != st ==> |col| == |WithStatus(s[1..], st)| &&
                                   Refill(s, st, col) == [s[0]] + Refill(s[1..], st, col)
  {
  }

  /** The same-column rebuild keeps the length and leaves every position of
      another status alone. */
  lemma {:induction false} RefillKeepsOthers(s: seq<Issue>, st: string, col: seq<Issue>)
    requires |col| == |WithStatus(s, st)|
    ensures |Refill(s, st, col)| == |s|
    ensures forall k :: 0 <= k < |s| && s[k].status != st ==> Refill(s, st, col)[k] == s[k]
  {
    if s != [] {
      RefillHead(s, st, col);
      var c' := if s[0].status == st then col[1..] else col;
      RefillKeepsOthers(s[1..], st, c');
      var r := Refill(s, st, col);
      forall k | 0 < k < |s| ensures r[k] == Refill(s[1..], st, c')[k - 1] && s[k] == s[1..][k - 1] {
      }
    }
  }

  /** When col has status st, the rebuild keeps every position's status. */
  lemma {:induction false} RefillStatuses(s: seq<Issue>, st: string, col: seq<Issue>)
    requires |col| == |WithStatus(s, st)| && AllWithStatus(col, st)
    ensures |Refill(s, st, col)| == |s|
    ensures forall k :: 0 <= k < |s| ==> Refill(s, st, col)[k].status == s[k].status
  {
    if s != [] {
      RefillHead(s, st, col);
      var r := Refill(s, st, col);
      if s[0].status == st {
        var c' := col[1..];
        assert AllWithStatus(c', st) by {
          forall y | y in c' ensures y.status == st {
            assert y in col;
          }
        }
        RefillStatuses(s[1..], st, c');
        var r' := Refill(s[1..], st, c');
        assert r[0] == col[0] && col[0] in col;
        forall k | 0 < k < |s| ensures r[k] == r'[k - 1] && s[k] == s[1..][k - 1] {
        }
      } else {
        RefillStatuses(s[1..], st, col);
        var r' := Refill(s[1..], st, col);
        assert r[0] == s[0];
        forall k | 0 < k < |s| ensures r[k] == r'[k - 1] && s[k] == s[1..][k - 1] {
        }
      }
    }
  }

  /** When col has status st, the positions of status st read back col in order. */
  lemma {:induction false} RefillReadsBack(s: seq<Issue>, st: string, col: seq<Issue>)
    requires |col| == |WithStatus(s, st)| && AllWithStatus(col, st)
    ensures WithStatus(Refill(s, st, col), st) == col
  {
    if s != [] {
      RefillHead(s, st, col);
      var r := Refill(s, st, col);
      if s[0].status == st {
        var c' := col[1..];
        assert AllWithStatus(c', st);
        RefillReadsBack(s[1..], st, c');
        var r' := Refill(s[1..], st, c');
        assert col[0] in col;
        assert r[1..] == r';
        assert col == [col[0]] + c';
      } else {
        RefillReadsBack(s[1..], st, col);
        var r' := Refill(s[1..], st, col);
        assert r[1..] == r';
      }
    }
  }

  /** The same-column rebuild trades the issues of status st for col. */
  lemma {:induction false} RefillMultiset(s: seq<Issue>, st: string, col: seq<Issue>)
    requires |col| == |WithStatus(s, st)|
    ensures multiset(Refill(s, st, col)) + multiset(WithStatus(s, st)) == multiset(s) + multiset(col)
  {
    if s != [] {
      var s' := s[1..];
      assert multiset(s) == multiset{s[0]} + multiset(s') by { assert s == [s[0]] + s'; }
      RefillHead(s, st, col);
      var w' := WithStatus(s', st);
      if s[0].status == st {
        var c' := col[1..];
        RefillMultiset(s', st, c');
        var r' := Refill(s', st, c');
        assert multiset(col) == multiset{col[0]} + multiset(c') by { assert col == [col[0]] + c'; }
        assert multiset(Refill(s, st, col)) == multiset{col[0]} + multiset(r');
        assert multiset(WithStatus(s, st)) == multiset{s[0]} + multiset(w');
        ExchangeOne(multiset(r'), multiset(w'), multiset(s'), multiset(c'), col[0], s[0]);
      } else {
        RefillMultiset(s', st, col);
        var r' := Refill(s', st, col);
        assert multiset(Refill(s, st, col)) == multiset{s[0]} + multiset(r');
        assert WithStatus(s, st) == w';
        AddOne(multiset(r'), multiset(w'), multiset(s'), multiset(col), s[0]);
      }
    }
  }

  lemma ExchangeOne<T>(r: multiset<T>, w: multiset<T>, s: multiset<T>, c: multiset<T>, x: T, y: T)
    requires r + w == s + c
    ensures (multiset{x} + r) + (multiset{y} + w) == (multiset{y} + s) + (multiset{x} + c)
  {
    forall z ensures ((multiset{x} + r) + (multiset{y} + w))[z] == ((multiset{y} + s) + (multiset{x} + c))[z] {
      assert (r + w)[z] == (s + c)[z];
    }
  }

  lemma AddOne<T>(r: multiset<T>, w: multiset<T>, s: multiset<T>, c: multiset<T>, y: T)
    requires r + w == s + c
    ensures (multiset{y} + r) + w == (multiset{y} + s) + c
  {
    forall z ensures ((multiset{y} + r) + w)[z] == ((multiset{y} + s) + c)[z] {
      assert (r + w)[z] == (s + c)[z];
    }
  }

  /** Same-column reorder: the list keeps its length and every status; each
      issue of another status keeps its absolute index; the column's own
      issues are the old column with the dragged issue moved from its index
      to `destination.index` (clamped), which is an index into the
      unfiltered column; and the result is a permutation of the input. */
  lemma SameColumnDrop(issues: seq<Issue>, source: Location, destination: Option<Location>, draggableId: string)
    requires !DroppedInPlace(source, destination) && destination.value.droppableId == source.droppableId
    requires draggableId in Ids(WithStatus(issues, source.droppableId))
    ensures DropResult(issues, source, destination, draggableId).action.Some?
    ensures 0 <= DraggedIndex(issues, source, draggableId)
    ensures var r := DropResult(issues, source, destination, draggableId).issues;
            var st := source.droppableId;
            |r| == |issues| &&
            (forall k :: 0 <= k < |issues| && issues[k].status != st ==> r[k] == issues[k]) &&
            (forall k :: 0 <= k < |issues| ==> r[k].status == issues[k].status) &&
            WithStatus(r, st) == MovedWithin(WithStatus(issues, st), DraggedIndex(issues, source, draggableId), destination.value.index) &&
            multiset(r) == multiset(issues)
  {
    DraggedIndexFound(issues, source, draggableId);
    SameColumnResult(issues, source, destination, draggableId);
    var st := source.droppableId;
    var col := WithStatus(issues, st);
    var d := DraggedIndex(issues, source, draggableId);
    var moved := MovedWithin(col, d, destination.value.index);
    MovedWithinFacts(col, d, destination.value.index, st);
    var r := Refill(issues, st, moved);
    RefillKeepsOthers(issues, st, moved);
    RefillStatuses(issues, st, moved);
    RefillReadsBack(issues, st, moved);
    RefillMultiset(issues, st, moved);
    Cancel(multiset(r), multiset(issues), multiset(col));
  }

  /** The same-column branch of DropResult, unfolded. */
  lemma SameColumnResult(issues: seq<Issue>, source: Location, destination: Option<Location>, draggableId: string)
    requires !DroppedInPlace(source, destination) && destination.value.droppableId == source.droppableId
    requires 0 <= DraggedIndex(issues, source, draggableId)
    ensures var st := source.droppableId;
            var col := WithStatus(issues, st);
            DropResult(issues, source, destination, draggableId).issues
            == Refill(issues, st, MovedWithin(col, DraggedIndex(issues, source, draggableId), destination.value.index))
  {
  }

  /** Moving an issue within a column keeps the column's issues and status. */
  lemma MovedWithinFacts(col: seq<Issue>, d: nat, k: nat, st: string)
    requires d < |col| && AllWithStatus(col, st)
    ensures |MovedWithin(col, d, k)| == |col|
    ensures AllWithStatus(MovedWithin(col, d, k), st)
    ensures multiset(MovedWithin(col, d, k)) == multiset(col)
  {
    var moved := MovedWithin(col, d, k);
    forall y | y in moved ensures y.status == st {
      assert y in RemoveAt(col, d) || y == col[d];
    }
  }

  lemma Cancel<T>(a: multiset<T>, b: multiset<T>, x: multiset<T>)
    requires a + x == b + x
    ensures a == b
  {
    forall z ensures a[z] == b[z] {
      assert (a + x)[z] == (b + x)[z];
    }
  }

  /** Issues ordered Backlog, then In Progress, then Done. */
  predicate Grouped(s: seq<Issue>) {
    forall i, j :: 0 <= i < j < |s| ==> IndexOf(Columns, s[i].status) <= IndexOf(Columns, s[j].status)
  }

  lemma RegroupColumns(s: seq<Issue>, from: string, to: string, rest: seq<Issue>, grown: seq<Issue>)
    ensures Regroup(Columns, s, from, to, rest, grown)
            == Group(Backlog, s, from, to, rest, grown) + Group(InProgress, s, from, to, rest, grown)
               + Group(Done, s, from, to, rest, grown)
  {
    var c2, c1 := Columns[..2], Columns[..2][..1];
    assert c2 == [Backlog, InProgress] && c1 == [Backlog] && c1[..0] == [];
    assert Regroup(Columns, s, from, to, rest, grown)
           == Regroup(c2, s, from, to, rest, grown) + Group(Done, s, from, to, rest, grown);
    assert Regroup(c2, s, from, to, rest, grown)
           == Regroup(c1, s, from, to, rest, grown) + Group(InProgress, s, from, to, rest, grown);
    assert Regroup(c1, s, from, to, rest, grown) == Group(Backlog, s, from, to, rest, grown);
  }

  lemma GroupedColumns(a: seq<Issue>, b: seq<Issue>, c: seq<Issue>)
    requires AllWithStatus(a, Backlog) && AllWithStatus(b, InProgress) && AllWithStatus(c, Done)
    ensures AllInColumns(a + b + c) && Grouped(a + b + c)
  {
    var s := a + b + c;
    assert IndexOf(Columns, Backlog) == 0;
    assert IndexOf(Columns, InProgress) == 1;
    assert IndexOf(Columns, Done) == 2;
    forall k | 0 <= k < |s|
      ensures IndexOf(Columns, s[k].status) == if k < |a| then 0 else if k < |a| + |b| then 1 else 2
    {
      if k < |a| {
        assert s[k] == a[k];
      } else if k < |a| + |b| {
        assert s[k] == b[k - |a|];
      } else {
        assert s[k] == c[k - |a| - |b|];
      }
    }
    forall x | x in s ensures x.status in Columns {
      assert x in a || x in b || x in c;
    }
  }

  /** Filtering the three uniform groups for a column gives that column's group. */
  lemma WithStatusOfGroups(a: seq<Issue>, b: seq<Issue>, c: seq<Issue>)
    requires AllWithStatus(a, Backlog) && AllWithStatus(b, InProgress) && AllWithStatus(c, Done)
    ensures WithStatus(a + b + c, Backlog) == a
    ensures WithStatus(a + b + c, InProgress) == b
    ensures WithStatus(a + b + c, Done) == c
  {
    WithStatusOfFirst(a, b, c, Backlog, InProgress, Done);
    WithStatusOfSecond(a, b, c, Backlog, InProgress, Done);
    WithStatusOfThird(a, b, c, Backlog, InProgress, Done);
  }

  lemma WithStatusOfFirst(a: seq<Issue>, b: seq<Issue>, c: seq<Issue>, ca: string, cb: string, cc: string)
    requires AllWithStatus(a, ca) && AllWithStatus(b, cb) && AllWithStatus(c, cc) && ca != cb && ca != cc
    ensures WithStatus(a + b + c, ca) == a
  {
    WithStatusConcat(a + b, c, ca);
    WithStatusConcat(a, b, ca);
    WithStatusUniform(a, ca, ca);
    WithStatusUniform(b, cb, ca);
    WithStatusUniform(c, cc, ca);
    assert a + [] + [] == a;
  }

  lemma WithStatusOfSecond(a: seq<Issue>, b: seq<Issue>, c: seq<Issue>, ca: string, cb: string, cc: string)
    requires AllWithStatus(a, ca) && AllWithStatus(b, cb) && AllWithStatus(c, cc) && cb != ca && cb != cc
    ensures WithStatus(a + b + c, cb) == b
  {
    WithStatusConcat(a + b, c, cb);
    WithStatusConcat(a, b, cb);
    WithStatusUniform(a, ca, cb);
    WithStatusUniform(b, cb, cb);
    WithStatusUniform(c, cc, cb);
    assert [] + b + [] == b;
  }

  lemma WithStatusOfThird(a: seq<Issue>, b: seq<Issue>, c: seq<Issue>, ca: string, cb: string, cc: string)
    requires AllWithStatus(a, ca) && AllWithStatus(b, cb) && AllWithStatus(c, cc) && cc != ca && cc != cb
    ensures WithStatus(a + b + c, cc) == c
  {
    WithStatusConcat(a + b, c, cc);
    WithStatusConcat(a, b, cc);
    WithStatusUniform(a, ca, cc);
    WithStatusUniform(b, cb, cc);
    WithStatusUniform(c, cc, cc);
    assert [] + [] + c == c;
  }

  /** Cross-column move. The result is grouped by column, and every issue in
      it has one of the three statuses: issues of any other status are
      dropped. The destination column is the old one with the dragged issue,
      now carrying the new status, inserted at `destination.index` clamped to
      its length; the source column is the old one without the dragged issue;
      the third column is unchanged. When every status is a column, the
      result is the input with the dragged issue's status changed. */
  lemma CrossColumnDrop(issues: seq<Issue>, source: Location, destination: Option<Location>, draggableId: string)
    requires !DroppedInPlace(source, destination) && destination.value.droppableId != source.droppableId
    requires draggableId in Ids(WithStatus(issues, source.droppableId))
    ensures DropResult(issues, source, destination, draggableId).action.Some?
    ensures 0 <= DraggedIndex(issues, source, draggableId)
    ensures var r := DropResult(issues, source, destination, draggableId).issues;
            var from, to := source.droppableId, destination.value.droppableId;
            var col := WithStatus(issues, from);
            var d := DraggedIndex(issues, source, draggableId);
            var moved := col[d].(status := to);
            AllInColumns(r) && Grouped(r) &&
            (to in Columns ==> WithStatus(r, to) == InsertAt(WithStatus(issues, to), destination.value.index, moved)) &&
            (from in Columns ==> WithStatus(r, from) == RemoveAt(col, d)) &&
            (forall c :: c in Columns && c != from && c != to ==> WithStatus(r, c) == WithStatus(issues, c)) &&
            (from in Columns && to in Columns && AllInColumns(issues) ==>
               multiset(r) + multiset{col[d]} == multiset(issues) + multiset{moved})
  {
    DraggedIndexFound(issues, source, draggableId);
    CrossColumnResult(issues, source, destination, draggableId);
    var from, to := source.droppableId, destination.value.droppableId;
    var col := WithStatus(issues, from);
    var d := DraggedIndex(issues, source, draggableId);
    var moved := col[d].(status := to);
    var rest := RemoveAt(col, d);
    var grown := InsertAt(WithStatus(issues, to), destination.value.index, moved);
    assert AllWithStatus(rest, from);
    assert AllWithStatus(grown, to) by {
      forall y | y in grown ensures y.status == to {
        assert y in WithStatus(issues, to) || y == moved;
      }
    }
    CrossColumnGroups(issues, from, to, rest, grown);
    if from in Columns && to in Columns && AllInColumns(issues) {
      ColumnsPartition(issues);
      RegroupColumns(issues, from, to, rest, grown);
      assert multiset(rest) + multiset{col[d]} == multiset(col);
      assert multiset(grown) == multiset(WithStatus(issues, to)) + multiset{moved};
      CrossColumnMultiset(issues, from, to, rest, grown, col[d], moved);
    }
  }

  /** The cross-column branch of DropResult, unfolded. */
  lemma CrossColumnResult(issues: seq<Issue>, source: Location, destination: Option<Location>, draggableId: string)
    requires !DroppedInPlace(source, destination) && destination.value.droppableId != source.droppableId
    requires 0 <= DraggedIndex(issues, source, draggableId)
    ensures var from, to := source.droppableId, destination.value.droppableId;
            var col := WithStatus(issues, from);
            var d := DraggedIndex(issues, source, draggableId);
            DropResult(issues, source, destination, draggableId).issues
            == Regroup(Columns, issues, from, to, RemoveAt(col, d),
                       InsertAt(WithStatus(issues, to), destination.value.index, col[d].(status := to)))
  {
  }

  /** Each pushed group is uniform in its column's status. */
  lemma GroupUniform(c: string, s: seq<Issue>, from: string, to: string, rest: seq<Issue>, grown: seq<Issue>)
    requires AllWithStatus(rest, from) && AllWithStatus(grown, to)
    ensures AllWithStatus(Group(c, s, from, to, rest, grown), c)
  {
  }

  /** The grouped rebuild holds only column statuses, in column order, and
      filtering it for a column gives back that column's group. */
  lemma CrossColumnGroups(s: seq<Issue>, from: string, to: string, rest: seq<Issue>, grown: seq<Issue>)
    requires AllWithStatus(rest, from) && AllWithStatus(grown, to)
    ensures var r := Regroup(Columns, s, from, to, rest, grown);
            AllInColumns(r) && Grouped(r) &&
            forall c :: c in Columns ==> WithStatus(r, c) == Group(c, s, from, to, rest, grown)
  {
    var g0 := Group(Backlog, s, from, to, rest, grown);
    var g1 := Group(InProgress, s, from, to, rest, grown);
    var g2 := Group(Done, s, from, to, rest, grown);
    GroupUniform(Backlog, s, from, to, rest, grown);
    GroupUniform(InProgress, s, from, to, rest, grown);
    GroupUniform(Done, s, from, to, rest, grown);
    RegroupColumns(s, from, to, rest, grown);
    GroupedColumns(g0, g1, g2);
    WithStatusOfGroups(g0, g1, g2);
    forall c | c in Columns ensures WithStatus(g0 + g1 + g2, c) == Group(c, s, from, to, rest, grown) {
      if c == Backlog {
      } else if c == InProgress {
      } else {
        assert c == Done;
      }
    }
  }

  /** Three columns, each trading e for f, trade the sum of the e for the sum of the f. */
  lemma Exchange3<T>(g0: multiset<T>, g1: multiset<T>, g2: multiset<T>, w0: multiset<T>, w1: multiset<T>, w2: multiset<T>,
                     e0: multiset<T>, e1: multiset<T>, e2: multiset<T>, f0: multiset<T>, f1: multiset<T>, f2: multiset<T>)
    requires g0 + e0 == w0 + f0 && g1 + e1 == w1 + f1 && g2 + e2 == w2 + f2
    ensures (g0 + g1 + g2) + (e0 + e1 + e2) == (w0 + w1 + w2) + (f0 + f1 + f2)
  {
    forall z ensures ((g0 + g1 + g2) + (e0 + e1 + e2))[z] == ((w0 + w1 + w2) + (f0 + f1 + f2))[z] {
      assert (g0 + e0)[z] == (w0 + f0)[z];
      assert (g1 + e1)[z] == (w1 + f1)[z];
      assert (g2 + e2)[z] == (w2 + f2)[z];
    }
  }

  /** The issue column c gives up and the one it receives in a cross-column move. */
  function Given(c: string, from: string, x: Issue): multiset<Issue> {
    if c == from then multiset{x} else multiset{}
  }

  lemma GroupTrade(c: string, s: seq<Issue>, from: string, to: string, rest: seq<Issue>, grown: seq<Issue>, dragged: Issue, moved: Issue)
    requires from != to
    requires multiset(rest) + multiset{dragged} == multiset(WithStatus(s, from))
    requires multiset(grown) == multiset(WithStatus(s, to)) + multiset{moved}
    ensures multiset(Group(c, s, from, to, rest, grown)) + Given(c, from, dragged)
            == multiset(WithStatus(s, c)) + Given(c, to, moved)
  {
    var g := multiset(Group(c, s, from, to, rest, grown));
    var w := multiset(WithStatus(s, c));
    forall z ensures (g + Given(c, from, dragged))[z] == (w + Given(c, to, moved))[z] {
    }
  }

  lemma GivenOnce(from: string, x: Issue)
    requires from in Columns
    ensures Given(Backlog, from, x) + Given(InProgress, from, x) + Given(Done, from, x) == multiset{x}
  {
    var m := Given(Backlog, from, x) + Given(InProgress, from, x) + Given(Done, from, x);
    forall z ensures m[z] == multiset{x}[z] {
    }
  }

  /** The bookkeeping behind the permutation claim. */
  lemma CrossColumnMultiset(s: seq<Issue>, from: string, to: string, rest: seq<Issue>, grown: seq<Issue>, dragged: Issue, moved: Issue)
    requires from in Columns && to in Columns && from != to
    requires multiset(s) == multiset(WithStatus(s, Backlog)) + multiset(WithStatus(s, InProgress)) + multiset(WithStatus(s, Done))
    requires multiset(rest) + multiset{dragged} == multiset(WithStatus(s, from))
    requires multiset(grown) == multiset(WithStatus(s, to)) + multiset{moved}
    ensures multiset(Group(Backlog, s, from, to, rest, grown) + Group(InProgress, s, from, to, rest, grown)
                     + Group(Done, s, from, to, rest, grown)) + multiset{dragged}
            == multiset(s) + multiset{moved}
  {
    var g0 := Group(Backlog, s, from, to, rest, grown);
    var g1 := Group(InProgress, s, from, to, rest, grown);
    var g2 := Group(Done, s, from, to, rest, grown);
    assert multiset(g0 + g1 + g2) == multiset(g0) + multiset(g1) + multiset(g2);
    GroupTrade(Backlog, s, from, to, rest, grown, dragged, moved);
    GroupTrade(InProgress, s, from, to, rest, grown, dragged, moved);
    GroupTrade(Done, s, from, to, rest, grown, dragged, moved);
    GivenOnce(from, dragged);
    GivenOnce(to, moved);
    Exchange3(multiset(g0), multiset(g1), multiset(g2),
              multiset(WithStatus(s, Backlog)), multiset(WithStatus(s, InProgress)), multiset(WithStatus(s, Done)),
              Given(Backlog, from, dragged), Given(InProgress, from, dragged), Given(Done, from, dragged),
              Given(Backlog, to, moved), Given(InProgress, to, moved), Given(Done, to, moved));
  }

  /** `moveIssue(id, direction)`: `performMove` stores the moved list and
      offers the undo record. */
  method PerformMoveIssue(store: IssuesContext.IssuesStore, id: string, dir: Direction) returns (action: LastAction)
    requires CanApplyMove(store.issues, id, dir)
    modifies store
    ensures Moved(store.issues, action) == MoveIssue(old(store.issues), id, dir)
    ensures IssuesContext.OnlyIssuesChanged(store)
  {
    var m := MoveIssue(store.issues, id, dir);
    store.SetIssues(m.issues);
    action := m.action;
  }

  /** `onDragEnd(result)` on the store. The early returns do not touch the
      list; a drag whose id is not in the source column stores a copy equal
      to the list. */
  method PerformDrop(store: IssuesContext.IssuesStore, source: Location, destination: Option<Location>, draggableId: string)
    returns (action: Option<LastAction>)
    modifies store
    ensures Dropped(store.issues, action) == DropResult(old(store.issues), source, destination, draggableId)
    ensures IssuesContext.OnlyIssuesChanged(store)
  {
    var newIssues;
    newIssues, action := OnDragEnd(store.issues, source, destination, draggableId);
    if !DroppedInPlace(source, destination) {
      store.SetIssues(newIssues);
    }
  }

  /** The toast's Undo button: `undoMoveDirect(action.prevIssues)`. */
  method UndoMove(store: IssuesContext.IssuesStore, action: LastAction)
    modifies store
    ensures store.issues == action.prevIssues
    ensures IssuesContext.OnlyIssuesChanged(store)
  {
    store.UndoMoveDirect(action.prevIssues);
  }

  /** A button move followed by its undo gives back the list it started from. */
  method MoveThenUndo(store: IssuesContext.IssuesStore, id: string, dir: Direction)
    requires CanApplyMove(store.issues, id, dir)
    modifies store
    ensures store.issues == old(store.issues)
    ensures IssuesContext.OnlyIssuesChanged(store)
  {
    var action := PerformMoveIssue(store, id, dir);
    UndoMove(store, action);
  }

  /** A drop that records an action, followed by its undo, gives back the list
      it started from; one that records none leaves the list alone. */
  method DropThenUndo(store: IssuesContext.IssuesStore, source: Location, destination: Option<Location>, draggableId: string)
    modifies store
    ensures store.issues == old(store.issues)
    ensures IssuesContext.OnlyIssuesChanged(store)
  {
    var action := PerformDrop(store, source, destination, draggableId);
    if action.Some? {
      UndoMove(store, action.value);
    }
  }
}
