/** What the board shows: the search/assignee/severity filter over the issue
    list, its split into the three columns, and the assignee options. */
module BoardView {
  import opened Common
  import opened Issues

  /** ASCII `toLowerCase` of one character. */
  function LowerChar(c: char): char {
    if 'A' <= c <= 'Z' then (c as int + 32) as char else c
  }

  /** ASCII `toLowerCase`. */
  function Lower(s: string): (r: string)
    ensures |r| == |s|
    ensures forall k :: 0 <= k < |s| ==> r[k] == LowerChar(s[k])
  {
    if s == [] then [] else [LowerChar(s[0])] + Lower(s[1..])
  }

  /** q occurs in s starting at index i. */
  predicate OccursAt(s: string, q: string, i: int) {
    0 <= i && i + |q| <= |s| && s[i..i + |q|] == q
  }

  /** `s.includes(q)`: q occurs somewhere in s; the empty query occurs everywhere. */
  function Includes(s: string, q: string): (b: bool)
    ensures b <==> exists i :: OccursAt(s, q, i)
    decreases |s|
  {
    if |q| > |s| then false
    else if s[..|q|] == q then
      assert OccursAt(s, q, 0);
      true
    else
      var b := Includes(s[1..], q);
      IncludesShift(s, q);
      b
  }

  lemma IncludesShift(s: string, q: string)
    requires |q| <= |s| && s[..|q|] != q
    ensures (exists i :: OccursAt(s, q, i)) <==> (exists i :: OccursAt(s[1..], q, i))
  {
    if exists i :: OccursAt(s, q, i) {
      var i :| OccursAt(s, q, i);
      assert i != 0;
      assert s[1..][i - 1..i - 1 + |q|] == s[i..i + |q|];
      assert OccursAt(s[1..], q, i - 1);
    }
    if exists i :: OccursAt(s[1..], q, i) {
      var i :| OccursAt(s[1..], q, i);
      assert s[1..][i..i + |q|] == s[i + 1..i + 1 + |q|];
      assert OccursAt(s, q, i + 1);
    }
  }

  /** The search box: the lower-cased title, or one lower-cased tag, contains
      the lower-cased query. */
  predicate MatchesSearch(issue: Issue, query: string) {
    var q := Lower(query);
    Includes(Lower(issue.title), q) || exists k :: 0 <= k < |issue.tags| && Includes(Lower(issue.tags[k]), q)
  }

  /** `filterAssignee ? issue.assignee === filterAssignee : true`; the empty
      string is falsy, so it filters nothing. */
  predicate MatchesAssignee(issue: Issue, filterAssignee: Option<string>) {
    filterAssignee.None? || filterAssignee.value == "" || issue.assignee == filterAssignee.value
  }

  /** `filterSeverity ? issue.severity === filterSeverity : true`; 0 is
      falsy, so it filters nothing. */
  predicate MatchesSeverity(issue: Issue, filterSeverity: Option<int>) {
    filterSeverity.None? || filterSeverity.value == 0 || issue.severity == filterSeverity.value
  }

  predicate Matches(issue: Issue, query: string, filterAssignee: Option<string>, filterSeverity: Option<int>) {
    MatchesSearch(issue, query) && MatchesAssignee(issue, filterAssignee) && MatchesSeverity(issue, filterSeverity)
  }

  /** `processedIssues`: the issues that pass all three tests, in list order. */
  function ProcessedIssues(issues: seq<Issue>, query: string, filterAssignee: Option<string>, filterSeverity: Option<int>)
    : (r: seq<Issue>)
    ensures IsSubsequence(r, issues)
    ensures forall x :: x in r ==> Matches(x, query, filterAssignee, filterSeverity)
    ensures forall x :: x in issues && Matches(x, query, filterAssignee, filterSeverity) ==> x in r
  {
    if issues == [] then []
    else
      var t := ProcessedIssues(issues[1..], query, filterAssignee, filterSeverity);
      SubsequenceMembers(t, issues[1..]);
      if Matches(issues[0], query, filterAssignee, filterSeverity) then
        assert ([issues[0]] + t)[1..] == t;
        [issues[0]] + t
      else t
  }

  /** The filter keeps every copy of a passing issue and no copy of another. */
  lemma {:induction false} ProcessedMultiplicity(issues: seq<Issue>, query: string, filterAssignee: Option<string>,
                                                 filterSeverity: Option<int>, x: Issue)
    ensures multiset(ProcessedIssues(issues, query, filterAssignee, filterSeverity))[x]
            == if Matches(x, query, filterAssignee, filterSeverity) then multiset(issues)[x] else 0
  {
    if issues != [] {
      assert issues == [issues[0]] + issues[1..];
      ProcessedMultiplicity(issues[1..], query, filterAssignee, filterSeverity, x);
    }
  }

  /** An empty assignee and a zero severity are falsy, so they filter as
      much as no filter at all. */
  lemma {:induction false} FalsyFiltersFilterNothing(issues: seq<Issue>, query: string)
    ensures ProcessedIssues(issues, query, Some(""), Some(0)) == ProcessedIssues(issues, query, None, None)
  {
    if issues != [] {
      FalsyFiltersFilterNothing(issues[1..], query);
    }
  }

  /** With an empty query and no assignee or severity filter, every issue is shown. */
  lemma {:induction false} NoFilterShowsAll(issues: seq<Issue>)
    ensures ProcessedIssues(issues, "", None, None) == issues
  {
    if issues != [] {
      assert OccursAt(Lower(issues[0].title), Lower(""), 0);
      NoFilterShowsAll(issues[1..]);
    }
  }

  /** The three displayed columns. */
  datatype BoardColumns = BoardColumns(backlog: seq<Issue>, inProgress: seq<Issue>, done: seq<Issue>)

  /** `backlog`, `inProgress`, `done`: the status filters of processedIssues.
      They are disjoint subsequences; an issue of any other status is in
      none of them; and when every status is a column they hold exactly the
      processed issues. */
  function Partition(processed: seq<Issue>): (b: BoardColumns)
    ensures AllWithStatus(b.backlog, Backlog) && AllWithStatus(b.inProgress, InProgress) && AllWithStatus(b.done, Done)
    ensures IsSubsequence(b.backlog, processed) && IsSubsequence(b.inProgress, processed) && IsSubsequence(b.done, processed)
    ensures forall x :: x in processed && x.status == Backlog ==> x in b.backlog
    ensures forall x :: x in processed && x.status == InProgress ==> x in b.inProgress
    ensures forall x :: x in processed && x.status == Done ==> x in b.done
    ensures forall x :: x in b.backlog ==> x !in b.inProgress && x !in b.done
    ensures forall x :: x in b.inProgress ==> x !in b.done
    ensures forall x :: x in processed && x.status !in Columns ==> x !in b.backlog && x !in b.inProgress && x !in b.done
    ensures AllInColumns(processed) ==> multiset(processed) == multiset(b.backlog) + multiset(b.inProgress) + multiset(b.done)
  {
    WithStatusSubsequence(processed, Backlog);
    WithStatusSubsequence(processed, InProgress);
    WithStatusSubsequence(processed, Done);
    var b := BoardColumns(WithStatus(processed, Backlog), WithStatus(processed, InProgress), WithStatus(processed, Done));
    if AllInColumns(processed) then
      ColumnsPartition(processed);
      b
    else b
  }

  /** Every card on the board is an issue of the list that passes the
      filters, and each column keeps the list's order. */
  lemma BoardShowsFilteredIssues(issues: seq<Issue>, query: string, filterAssignee: Option<string>, filterSeverity: Option<int>)
    ensures var b := Partition(ProcessedIssues(issues, query, filterAssignee, filterSeverity));
            IsSubsequence(b.backlog, issues) && IsSubsequence(b.inProgress, issues) && IsSubsequence(b.done, issues) &&
            forall x :: x in b.backlog + b.inProgress + b.done ==>
              x in issues && Matches(x, query, filterAssignee, filterSeverity)
  {
    var p := ProcessedIssues(issues, query, filterAssignee, filterSeverity);
    var b := Partition(p);
    SubsequenceTransitive(b.backlog, p, issues);
    SubsequenceTransitive(b.inProgress, p, issues);
    SubsequenceTransitive(b.done, p, issues);
    SubsequenceMembers(b.backlog, p);
    SubsequenceMembers(b.inProgress, p);
    SubsequenceMembers(b.done, p);
    SubsequenceMembers(p, issues);
  }

  /** `issues.map(i => i.assignee)` */
  function Assignees(s: seq<Issue>): (r: seq<string>)
    ensures |r| == |s|
    ensures forall k :: 0 <= k < |s| ==> r[k] == s[k].assignee
  {
    if s == [] then [] else [s[0].assignee] + Assignees(s[1..])
  }

  /** `Array.from(new Set(issues.map(i => i.assignee)))`: every assignee
      once, in the order of first appearance. */
  function AssigneeOptions(issues: seq<Issue>): (r: seq<string>)
    ensures NoDup(r)
    ensures forall a :: a in r <==> exists k :: 0 <= k < |issues| && issues[k].assignee == a
    ensures forall i, j :: 0 <= i < j < |r| ==> IndexOf(Assignees(issues), r[i]) < IndexOf(Assignees(issues), r[j])
  {
    var all := Assignees(issues);
    assert forall a :: a in all <==> exists k :: 0 <= k < |issues| && issues[k].assignee == a by {
      forall a ensures a in all <==> exists k :: 0 <= k < |issues| && issues[k].assignee == a {
        if a in all {
          var k :| 0 <= k < |all| && all[k] == a;
          assert issues[k].assignee == a;
        }
      }
    }
    Dedup(all)
  }
}
