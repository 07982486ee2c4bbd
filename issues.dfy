/** The Issue record and the list queries every component shares: the three
    board columns, `filter` by status, `find`/`findIndex` by id and the
    `{ ...issue, ...fields }` overlay of a Partial<Issue>. */
module Issues {
  import opened Common

  /** An issue as the components use it. Status, priority and the creation
      time stay strings: the list arrives through JSON casts, so nothing
      guarantees that a status is one of the three columns. Absent tags
      (`issue.tags || []`) are the empty sequence. */
  datatype Issue = Issue(
    id: string,
    title: string,
    description: Option<string>,
    assignee: string,
    priority: string,
    severity: int,
    status: string,
    tags: seq<string>,
    createdAt: string)

  /** `"left" | "right"`, the direction of a button move. */
  datatype Direction = Left | Right

  const Backlog: string := "Backlog"
  const InProgress: string := "In Progress"
  const Done: string := "Done"

  /** The board's fixed column order. */
  const Columns: seq<string> := [Backlog, InProgress, Done]

  /** Partial<Issue>: a field that is present replaces the issue's field. For
      the optional description, Some(None) is a key present with value
      undefined. */
  datatype IssuePatch = IssuePatch(
    id: Option<string>,
    title: Option<string>,
    description: Option<Option<string>>,
    assignee: Option<string>,
    priority: Option<string>,
    severity: Option<int>,
    status: Option<string>,
    tags: Option<seq<string>>,
    createdAt: Option<string>)

  function Pick<T>(o: Option<T>, d: T): T {
    if o.Some? then o.value else d
  }

  /** `{ ...issue, ...patch }` */
  function Overlay(i: Issue, p: IssuePatch): Issue {
    Issue(Pick(p.id, i.id), Pick(p.title, i.title), Pick(p.description, i.description),
          Pick(p.assignee, i.assignee), Pick(p.priority, i.priority), Pick(p.severity, i.severity),
          Pick(p.status, i.status), Pick(p.tags, i.tags), Pick(p.createdAt, i.createdAt))
  }

  /** The patch `{}`: overlaying it changes nothing. */
  function EmptyPatch(): (p: IssuePatch)
    ensures forall i :: Overlay(i, p) == i
  {
    IssuePatch(None, None, None, None, None, None, None, None, None)
  }

  /** The patch `{ status: st }`: overlaying it changes the status and nothing else. */
  function StatusPatch(st: string): (p: IssuePatch)
    ensures forall i :: Overlay(i, p) == i.(status := st)
  {
    EmptyPatch().(status := Some(st))
  }

  /** Every issue's status is one of the three columns. */
  predicate AllInColumns(s: seq<Issue>) {
    forall x :: x in s ==> x.status in Columns
  }

  /** Every issue's status is st. */
  predicate AllWithStatus(s: seq<Issue>, st: string) {
    forall x :: x in s ==> x.status == st
  }

  /** `s.filter(i => i.status === st)`, exact string equality. */
  function WithStatus(s: seq<Issue>, st: string): (r: seq<Issue>)
    ensures AllWithStatus(r, st)
    ensures forall x :: x in s && x.status == st ==> x in r
    ensures forall x :: x in r ==> x in s
    ensures |r| <= |s|
  {
    if s == [] then []
    else
      var t := WithStatus(s[1..], st);
      if s[0].status == st then [s[0]] + t else t
  }

  /** The status filter keeps every copy of an issue with the status and no other. */
  lemma {:induction false} WithStatusMultiplicity(s: seq<Issue>, st: string, x: Issue)
    ensures multiset(WithStatus(s, st))[x] == if x.status == st then multiset(s)[x] else 0
  {
    if s != [] {
      assert s == [s[0]] + s[1..];
      WithStatusMultiplicity(s[1..], st, x);
    }
  }

  /** The status filter keeps the list's order. */
  lemma {:induction false} WithStatusSubsequence(s: seq<Issue>, st: string)
    ensures IsSubsequence(WithStatus(s, st), s)
  {
    if s != [] {
      WithStatusSubsequence(s[1..], st);
      var t := WithStatus(s[1..], st);
      if s[0].status == st {
        assert ([s[0]] + t)[1..] == t;
      }
    }
  }

  lemma {:induction false} WithStatusConcat(a: seq<Issue>, b: seq<Issue>, st: string)
    ensures WithStatus(a + b, st) == WithStatus(a, st) + WithStatus(b, st)
  {
    if a == [] {
      assert a + b == b;
    } else {
      assert (a + b)[1..] == a[1..] + b;
      WithStatusConcat(a[1..], b, st);
    }
  }

  /** Filtering a single-status list keeps all of it or none of it. */
  lemma {:induction false} WithStatusUniform(s: seq<Issue>, c: string, st: string)
    requires AllWithStatus(s, c)
    ensures WithStatus(s, st) == if st == c then s else []
  {
    if s != [] {
      WithStatusUniform(s[1..], c, st);
    }
  }

  /** The head's contribution to the status filter. */
  function HeadPart(x: Issue, st: string): multiset<Issue> {
    if x.status == st then multiset{x} else multiset{}
  }

  /** One step of the status filter, as an equation. */
  lemma WithStatusHead(s: seq<Issue>, st: string)
    requires s != []
    ensures multiset(WithStatus(s, st)) == HeadPart(s[0], st) + multiset(WithStatus(s[1..], st))
  {
    var t := WithStatus(s[1..], st);
    if s[0].status == st {
      assert WithStatus(s, st) == [s[0]] + t;
    }
  }

  /** A column status falls in exactly one of the three filters. */
  lemma HeadInOneColumn(x: Issue)
    requires x.status in Columns
    ensures HeadPart(x, Backlog) + HeadPart(x, InProgress) + HeadPart(x, Done) == multiset{x}
  {
  }

  lemma SumStep<T>(mt: multiset<T>, a: multiset<T>, b: multiset<T>, c: multiset<T>,
                   ea: multiset<T>, eb: multiset<T>, ec: multiset<T>, x: T)
    requires mt == a + b + c && ea + eb + ec == multiset{x}
    ensures multiset{x} + mt == (ea + a) + (eb + b) + (ec + c)
  {
    forall z ensures (multiset{x} + mt)[z] == ((ea + a) + (eb + b) + (ec + c))[z] {
      assert multiset{x}[z] == (ea + eb + ec)[z];
    }
  }

  /** When every status is a column, the three column filters split the list. */
  lemma {:induction false} ColumnsPartition(s: seq<Issue>)
    requires AllInColumns(s)
    ensures multiset(s) == multiset(WithStatus(s, Backlog)) + multiset(WithStatus(s, InProgress))
                           + multiset(WithStatus(s, Done))
  {
    if s != [] {
      var t := s[1..];
      assert AllInColumns(t);
      ColumnsPartition(t);
      assert multiset(s) == multiset{s[0]} + multiset(t) by { assert s == [s[0]] + t; }
      WithStatusHead(s, Backlog);
      WithStatusHead(s, InProgress);
      WithStatusHead(s, Done);
      HeadInOneColumn(s[0]);
      SumStep(multiset(t), multiset(WithStatus(t, Backlog)), multiset(WithStatus(t, InProgress)),
              multiset(WithStatus(t, Done)), HeadPart(s[0], Backlog), HeadPart(s[0], InProgress),
              HeadPart(s[0], Done), s[0]);
    }
  }

  /** `s.findIndex(i => i.id === id)`. */
  function IndexOfId(s: seq<Issue>, id: string): (r: int)
    ensures -1 <= r < |s|
    ensures r == -1 <==> forall k :: 0 <= k < |s| ==> s[k].id != id
    ensures 0 <= r ==> s[r].id == id && forall k :: 0 <= k < r ==> s[k].id != id
  {
    if s == [] then -1
    else if s[0].id == id then 0
    else
      var k := IndexOfId(s[1..], id);
      if k == -1 then -1 else k + 1
  }

  /** `s.find(i => i.id === id)`: the first issue with that id. */
  function FindById(s: seq<Issue>, id: string): (r: Option<Issue>)
    ensures r.None? <==> forall k :: 0 <= k < |s| ==> s[k].id != id
    ensures r.Some? ==> r.value.id == id
    ensures r.Some? ==> exists k :: 0 <= k < |s| && s[k] == r.value && forall j :: 0 <= j < k ==> s[j].id != id
  {
    var k := IndexOfId(s, id);
    if k == -1 then None else Some(s[k])
  }

  /** `s.map(i => i.id)` */
  function Ids(s: seq<Issue>): (r: seq<string>)
    ensures |r| == |s|
    ensures forall k :: 0 <= k < |s| ==> r[k] == s[k].id
  {
    if s == [] then [] else [s[0].id] + Ids(s[1..])
  }
}
