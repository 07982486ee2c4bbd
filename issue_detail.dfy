/** The issue detail page: the lookup of the routed id, the visit effect on
    the recently-accessed list, and "Mark as Resolved" with its undo. */
module IssueDetail {
  import opened Common
  import opened Issues
  import opened IssuesContext

  /** What the page renders. */
  datatype DetailView = NotFound | Found(issue: Issue)

  /** `issues.find(i => i.id === id)` for the route parameter; an absent
      parameter matches no issue. */
  function Lookup(issues: seq<Issue>, routeId: Option<string>): (v: DetailView)
    ensures routeId.None? ==> v == NotFound
    ensures routeId.Some? ==> (v.NotFound? <==> forall k :: 0 <= k < |issues| ==> issues[k].id != routeId.value)
    ensures v.Found? ==> routeId.Some? && v.issue.id == routeId.value
    ensures v.Found? ==> exists k :: 0 <= k < |issues| && issues[k] == v.issue &&
                                     forall j :: 0 <= j < k ==> issues[j].id != routeId.value
  {
    if routeId.None? then NotFound
    else
      match FindById(issues, routeId.value)
      case None => NotFound
      case Some(i) => Found(i)
  }

  /** The visit effect: a non-empty route id goes to the front of the
      recently-accessed list; the issues are not consulted. */
  function VisitRecents(recents: seq<string>, routeId: Option<string>): (r: seq<string>)
    ensures routeId.Some? && routeId.value != "" ==> r == AddToRecentlyAccessed(recents, routeId.value)
    ensures routeId.Some? && routeId.value != "" ==>
              r[0] == routeId.value && multiset(r)[routeId.value] == 1 && |r| <= MaxRecent
              && IsSubsequence(r[1..], recents)
    ensures routeId.Some? && routeId.value != "" && |recents| < MaxRecent ==> forall y :: y in recents ==> y in r
    ensures routeId.None? || routeId.value == "" ==> r == recents
  {
    if routeId.Some? && routeId.value != "" then AddToRecentlyAccessed(recents, routeId.value) else recents
  }

  /** The list after "Mark as Resolved" and the status its undo writes back
      (None when there is nothing to undo). */
  datatype Resolved = Resolved(issues: seq<Issue>, undoStatus: Option<string>)

  /** `markAsResolved` for the displayed issue `shown`. */
  function MarkAsResolved(issues: seq<Issue>, shown: Issue): (r: Resolved)
    ensures shown.status == Done ==> r == Resolved(issues, None)
    ensures shown.status != Done ==> r.undoStatus == Some(shown.status)
    ensures shown.status != Done ==> |r.issues| == |issues| && Ids(r.issues) == Ids(issues)
    ensures shown.status != Done ==>
              forall k :: 0 <= k < |issues| ==>
                r.issues[k] == if issues[k].id == shown.id then issues[k].(status := Done) else issues[k]
  {
    if shown.status == Done then Resolved(issues, None)
    else
      UpdateStatusOnly(issues, shown.id, Done);
      Resolved(UpdateIssues(issues, shown.id, StatusPatch(Done)), Some(shown.status))
  }

  /** The toast's Undo: `updateIssue(issue.id, { status: issue.status })`. */
  function UndoResolve(issues: seq<Issue>, shown: Issue): (r: seq<Issue>)
    ensures |r| == |issues| && Ids(r) == Ids(issues)
    ensures forall k :: 0 <= k < |issues| ==>
              r[k] == if issues[k].id == shown.id then issues[k].(status := shown.status) else issues[k]
  {
    UpdateStatusOnly(issues, shown.id, shown.status);
    UpdateIssues(issues, shown.id, StatusPatch(shown.status))
  }

  /** With no change in between, resolving the issue the page shows and
      undoing gives back the list, provided every issue with that id had the
      shown status (the shown issue is the first of them). */
  lemma ResolveThenUndo(issues: seq<Issue>, shown: Issue)
    requires forall k :: 0 <= k < |issues| && issues[k].id == shown.id ==> issues[k].status == shown.status
    ensures UndoResolve(MarkAsResolved(issues, shown).issues, shown) == issues
  {
    var m := MarkAsResolved(issues, shown).issues;
    var u := UndoResolve(m, shown);
    if shown.status != Done {
      assert forall k :: 0 <= k < |issues| ==> u[k] == issues[k];
    } else {
      assert forall k :: 0 <= k < |issues| ==> u[k] == issues[k];
    }
  }

  /** Opening the page: the render, then the visit effect. */
  method OpenPage(store: IssuesStore, routeId: Option<string>) returns (view: DetailView)
    modifies store
    ensures view == Lookup(old(store.issues), routeId)
    ensures store.recentlyAccessed == VisitRecents(old(store.recentlyAccessed), routeId)
    ensures routeId.Some? && routeId.value != "" ==> store.recentlyAccessed[0] == routeId.value
    ensures OnlyRecentsChanged(store)
  {
    view := Lookup(store.issues, routeId);
    if routeId.Some? && routeId.value != "" {
      store.AddRecent(routeId.value);
    }
  }

  /** The resolve button on the page for `view`: a page showing "not found"
      has no button, so nothing happens. */
  method ResolveOnPage(store: IssuesStore, view: DetailView) returns (undoStatus: Option<string>)
    modifies store
    ensures view.NotFound? ==> store.issues == old(store.issues) && undoStatus.None?
    ensures view.Found? ==> Resolved(store.issues, undoStatus) == MarkAsResolved(old(store.issues), view.issue)
    ensures OnlyIssuesChanged(store)
  {
    undoStatus := None;
    if view.Found? {
      var shown := view.issue;
      if shown.status == Done {
        return;
      }
      store.UpdateIssue(shown.id, StatusPatch(Done));
      undoStatus := Some(shown.status);
    }
  }

  /** The toast's Undo on the store. */
  method UndoOnPage(store: IssuesStore, shown: Issue)
    modifies store
    ensures store.issues == UndoResolve(old(store.issues), shown)
    ensures OnlyIssuesChanged(store)
  {
    store.UpdateIssue(shown.id, StatusPatch(shown.status));
  }
}
