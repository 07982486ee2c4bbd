/** The recently-accessed sidebar: resolving the stored ids to issues, and
    the open/collapsed flag kept in storage. */
module RecentSidebar {
  import opened Common
  import opened Issues

  /** `recentlyAccessed.map(id => issues.find(i => i.id === id)).filter(Boolean)` */
  function RecentIssues(recents: seq<string>, issues: seq<Issue>): (r: seq<Issue>)
    ensures |r| <= |recents|
    ensures forall x :: x in r ==> x.id in recents && FindById(issues, x.id) == Some(x)
    ensures forall id :: id in recents && FindById(issues, id).Some? ==> FindById(issues, id).value in r
  {
    if recents == [] then []
    else
      var t := RecentIssues(recents[1..], issues);
      assert forall id :: id in recents[1..] ==> id in recents;
      assert forall id :: id in recents ==> id == recents[0] || id in recents[1..];
      match FindById(issues, recents[0])
      case None => t
      case Some(x) => [x] + t
  }

  /** The listed issues follow the order of the recently-accessed ids. */
  lemma {:induction false} RecentIssuesInOrder(recents: seq<string>, issues: seq<Issue>)
    ensures IsSubsequence(Ids(RecentIssues(recents, issues)), recents)
  {
    if recents != [] {
      RecentIssuesInOrder(recents[1..], issues);
      var t := RecentIssues(recents[1..], issues);
      match FindById(issues, recents[0])
      case None =>
      case Some(x) =>
        assert Ids([x] + t)[1..] == Ids(t);
    }
  }

  /** A recent id is listed once per occurrence when some issue has it, and
      not at all otherwise: only unresolvable ids are dropped. */
  lemma {:induction false} RecentIssuesMultiplicity(recents: seq<string>, issues: seq<Issue>, id: string)
    ensures multiset(Ids(RecentIssues(recents, issues)))[id]
            == if FindById(issues, id).Some? then multiset(recents)[id] else 0
  {
    if recents != [] {
      RecentIssuesMultiplicity(recents[1..], issues, id);
      var t := RecentIssues(recents[1..], issues);
      assert multiset(recents) == multiset{recents[0]} + multiset(recents[1..]) by {
        assert recents == [recents[0]] + recents[1..];
      }
      var f := FindById(issues, recents[0]);
      if f.None? {
        assert RecentIssues(recents, issues) == t;
        assert recents[0] == id ==> FindById(issues, id).None?;
      } else {
        var x := f.value;
        assert x.id == recents[0];
        assert RecentIssues(recents, issues) == [x] + t;
        assert Ids([x] + t) == [x.id] + Ids(t);
        assert multiset(Ids([x] + t)) == multiset{x.id} + multiset(Ids(t));
      }
    }
  }

  /** What the sidebar's button does. */
  datatype SidebarButton = Expand | Toggle

  /** What the sidebar renders: whether it is expanded, the issues it lists
      and its button. */
  datatype SidebarView = SidebarView(expanded: bool, listed: seq<Issue>, button: SidebarButton)

  /** With no resolvable recents the sidebar is collapsed whatever `isOpen`
      is, and its button expands; otherwise it follows `isOpen`. */
  function Render(isOpen: bool, recentIssues: seq<Issue>): (v: SidebarView)
    ensures recentIssues == [] ==> !v.expanded && v.listed == [] && v.button == Expand
    ensures recentIssues != [] ==> v.expanded == isOpen && v.button == Toggle
    ensures recentIssues != [] ==> v.listed == if isOpen then recentIssues else []
  {
    if recentIssues == [] then SidebarView(false, [], Expand)
    else SidebarView(isOpen, if isOpen then recentIssues else [], Toggle)
  }

  /** The open flag the mount effect derives from the stored value: an absent
      key keeps the initial `true`, a stored string opens only if it is "true". */
  function InitialOpen(stored: Option<string>): (b: bool)
    ensures b <==> stored.None? || stored.value == "true"
  {
    if stored.Some? then stored.value == "true" else true
  }

  /** `String(next)` */
  function ShowFlag(b: bool): (s: string)
    ensures InitialOpen(Some(s)) == b
  {
    if b then "true" else "false"
  }

  /** The sidebar's `isOpen` state and the stored flag (absent, or the
      string stored under the sidebar's one storage key). */
  class Sidebar {
    var isOpen: bool
    var stored: Option<string>

    /** The saved state matches the shown one: a reload would show the same. */
    predicate Persisted()
      reads this
    {
      isOpen == InitialOpen(stored)
    }

    /** `useState(true)`, before the mount effect. */
    constructor(storedFlag: Option<string>)
      ensures isOpen && stored == storedFlag
    {
      isOpen := true;
      stored := storedFlag;
    }

    /** The mount effect: a stored value overrides the initial `true`. */
    method MountEffect()
      modifies this
      ensures stored == old(stored)
      ensures stored.Some? ==> isOpen == (stored.value == "true")
      ensures stored.None? ==> isOpen == old(isOpen)
      ensures old(isOpen) ==> Persisted()
    {
      if stored.Some? {
        isOpen := stored.value == "true";
      }
    }

    /** A click on the sidebar's button, given the resolved recents. */
    method PressButton(recentIssues: seq<Issue>)
      modifies this
      ensures recentIssues == [] ==> isOpen && stored == Some("true")
      ensures recentIssues != [] ==> isOpen == !old(isOpen) && stored == Some(ShowFlag(isOpen))
      ensures Persisted()
    {
      if Render(isOpen, recentIssues).button == Expand {
        isOpen := true;
        stored := Some("true");
      } else {
        var next := !isOpen;
        isOpen := next;
        stored := Some(ShowFlag(next));
      }
    }
  }
}
