/** The shared issue store of the provider: the per-id field update, the
    recently-accessed list, undo, and the polling state machine. */
module IssuesContext {
  import opened Common
  import opened Issues

  /** `prev.map(issue => issue.id === id ? { ...issue, ...updatedFields } : issue)` */
  function UpdateIssues(s: seq<Issue>, id: string, patch: IssuePatch): (r: seq<Issue>)
    ensures |r| == |s|
    ensures forall k :: 0 <= k < |s| && s[k].id == id ==> r[k] == Overlay(s[k], patch)
    ensures forall k :: 0 <= k < |s| && s[k].id != id ==> r[k] == s[k]
  {
    if s == [] then []
    else [if s[0].id == id then Overlay(s[0], patch) else s[0]] + UpdateIssues(s[1..], id, patch)
  }

  /** Updating with `{}` changes nothing. */
  lemma {:induction false} UpdateEmptyPatch(s: seq<Issue>, id: string)
    ensures UpdateIssues(s, id, EmptyPatch()) == s
  {
    if s != [] {
      UpdateEmptyPatch(s[1..], id);
    }
  }

  /** Updating an id no issue has changes nothing. */
  lemma {:induction false} UpdateMissingId(s: seq<Issue>, id: string, patch: IssuePatch)
    requires forall k :: 0 <= k < |s| ==> s[k].id != id
    ensures UpdateIssues(s, id, patch) == s
  {
    if s != [] {
      UpdateMissingId(s[1..], id, patch);
    }
  }

  /** A status-only update keeps the id order and every other field. */
  lemma UpdateStatusOnly(s: seq<Issue>, id: string, st: string)
    ensures var r := UpdateIssues(s, id, StatusPatch(st));
            Ids(r) == Ids(s) &&
            forall k :: 0 <= k < |s| ==> r[k] == if s[k].id == id then s[k].(status := st) else s[k]
  {
    var r := UpdateIssues(s, id, StatusPatch(st));
    assert Ids(r) == Ids(s) by {
      assert forall k :: 0 <= k < |s| ==> Ids(r)[k] == Ids(s)[k];
    }
  }

  /** The length bound of the recently-accessed list. */
  const MaxRecent: nat := 5

  /** `[issueId, ...prev.filter(id => id !== issueId)].slice(0, 5)` */
  function AddToRecentlyAccessed(prev: seq<string>, issueId: string): (r: seq<string>)
    ensures 1 <= |r| <= MaxRecent && r[0] == issueId
    ensures multiset(r)[issueId] == 1
    ensures IsSubsequence(r[1..], prev)
    ensures NoDup(prev) ==> NoDup(r)
    ensures |prev| < MaxRecent ==> forall y :: y in prev ==> y in r
    ensures |prev| >= MaxRecent && issueId !in prev ==> r == [issueId] + prev[..MaxRecent - 1]
    ensures |r| == Min(MaxRecent, |Without(prev, issueId)| + 1)
    ensures r[1..] == Without(prev, issueId)[..|r| - 1]
  {
    var w := Without(prev, issueId);
    SubsequenceMembers(w, prev);
    var m := Min(MaxRecent - 1, |w|);
    var r := ([issueId] + w)[..m + 1];
    assert r == [issueId] + w[..m];
    assert r[1..] == w[..m];
    PrefixSubsequence(w, m);
    SubsequenceTransitive(w[..m], w, prev);
    assert issueId !in w[..m];
    assert multiset(r) == multiset{issueId} + multiset(w[..m]);
    assert NoDup(w) ==> NoDup(r);
    r
  }

  /** Adding the same id twice in a row is the same as adding it once. */
  lemma AddTwice(prev: seq<string>, issueId: string)
    ensures AddToRecentlyAccessed(AddToRecentlyAccessed(prev, issueId), issueId)
            == AddToRecentlyAccessed(prev, issueId)
  {
    var r := AddToRecentlyAccessed(prev, issueId);
    var t := r[1..];
    assert r == [issueId] + t;
    assert issueId !in t by {
      assert multiset(r) == multiset{issueId} + multiset(t);
    }
    assert Without(r, issueId) == t by {
      assert r[1..] == t;
    }
  }

  /** The outcome of one `mockFetchIssues()` call. */
  datatype FetchOutcome = Fetched(data: seq<Issue>) | Failed

  /** The provider's state. A run of the polling effect is numbered by
      `effectRun`; its local `isMounted` flag holds while it is the current
      run and its cleanup has not happened (`effectActive`). */
  class IssuesStore {
    var issues: seq<Issue>
    var recentlyAccessed: seq<string>
    var lastSyncTime: Option<int>
    var pollingIntervalMs: real
    var isSyncing: bool
    var effectRun: nat
    var effectActive: bool

    /** The provider's initial state, before any effect has run. */
    constructor(initial: seq<Issue>)
      ensures issues == initial && recentlyAccessed == [] && lastSyncTime == None
      ensures pollingIntervalMs == 10000.0 && !isSyncing
      ensures effectRun == 0 && !effectActive
    {
      issues := initial;
      recentlyAccessed := [];
      lastSyncTime := None;
      pollingIntervalMs := 10000.0;
      isSyncing := false;
      effectRun := 0;
      effectActive := false;
    }

    /** `isMounted` as seen by a fetch started by polling run `run`. */
    predicate IsMounted(run: nat)
      reads this
    {
      effectActive && run == effectRun
    }

    /** `setIssues(next)` */
    method SetIssues(next: seq<Issue>)
      modifies this
      ensures issues == next
      ensures recentlyAccessed == old(recentlyAccessed) && lastSyncTime == old(lastSyncTime)
      ensures pollingIntervalMs == old(pollingIntervalMs) && isSyncing == old(isSyncing)
      ensures effectRun == old(effectRun) && effectActive == old(effectActive)
    {
      issues := next;
    }

    /** `updateIssue(id, updatedFields)` */
    method UpdateIssue(id: string, patch: IssuePatch)
      modifies this
      ensures issues == UpdateIssues(old(issues), id, patch)
      ensures recentlyAccessed == old(recentlyAccessed) && lastSyncTime == old(lastSyncTime)
      ensures pollingIntervalMs == old(pollingIntervalMs) && isSyncing == old(isSyncing)
      ensures effectRun == old(effectRun) && effectActive == old(effectActive)
    {
      issues := UpdateIssues(issues, id, patch);
    }

    /** `undoMoveDirect(prevIssues)`: the list becomes a deep copy of the
        snapshot, which is equal to it as a value. */
    method UndoMoveDirect(prevIssues: seq<Issue>)
      modifies this
      ensures issues == prevIssues
      ensures recentlyAccessed == old(recentlyAccessed) && lastSyncTime == old(lastSyncTime)
      ensures pollingIntervalMs == old(pollingIntervalMs) && isSyncing == old(isSyncing)
      ensures effectRun == old(effectRun) && effectActive == old(effectActive)
    {
      issues := prevIssues;
    }

    /** `addToRecentlyAccessed(issueId)` */
    method AddRecent(issueId: string)
      modifies this
      ensures recentlyAccessed == AddToRecentlyAccessed(old(recentlyAccessed), issueId)
      ensures issues == old(issues) && lastSyncTime == old(lastSyncTime)
      ensures pollingIntervalMs == old(pollingIntervalMs) && isSyncing == old(isSyncing)
      ensures effectRun == old(effectRun) && effectActive == old(effectActive)
    {
      recentlyAccessed := AddToRecentlyAccessed(recentlyAccessed, issueId);
    }

    /** The mount effect that restores the list: a non-empty stored value
        that parses replaces it; an absent or empty one, or a parse error,
        leaves it alone. `parsed` is the result of `JSON.parse(stored)`. */
    method RestoreRecentlyAccessed(stored: Option<string>, parsed: Option<seq<string>>)
      modifies this
      ensures recentlyAccessed == if stored.Some? && stored.value != "" && parsed.Some? then parsed.value
                                  else old(recentlyAccessed)
      ensures issues == old(issues) && lastSyncTime == old(lastSyncTime)
      ensures pollingIntervalMs == old(pollingIntervalMs) && isSyncing == old(isSyncing)
      ensures effectRun == old(effectRun) && effectActive == old(effectActive)
    {
      if stored.Some? && stored.value != "" && parsed.Some? {
        recentlyAccessed := parsed.value;
      }
    }

    /** A new run of the polling effect: its `isMounted` starts true and its
        first `fetchAndUpdate()` starts at once, setting `isSyncing`. That
        fetch settles later, as `CompleteFetch(run, ...)`. */
    method StartPolling() returns (run: nat)
      modifies this
      ensures effectRun == old(effectRun) + 1 && effectActive && run == effectRun
      ensures IsMounted(run) && !IsMounted(old(effectRun))
      ensures isSyncing
      ensures issues == old(issues) && recentlyAccessed == old(recentlyAccessed)
      ensures lastSyncTime == old(lastSyncTime) && pollingIntervalMs == old(pollingIntervalMs)
    {
      effectRun := effectRun + 1;
      effectActive := true;
      run := effectRun;
      BeginFetch();
    }

    /** The effect's cleanup: `isMounted = false` (the interval is cleared). */
    method Teardown()
      modifies this
      ensures !effectActive && effectRun == old(effectRun)
      ensures forall run: nat :: !IsMounted(run)
      ensures issues == old(issues) && recentlyAccessed == old(recentlyAccessed)
      ensures lastSyncTime == old(lastSyncTime) && pollingIntervalMs == old(pollingIntervalMs)
      ensures isSyncing == old(isSyncing)
    {
      effectActive := false;
    }

    /** `setPollingIntervalMs(ms)`. A changed value re-runs the polling
        effect: the old run's cleanup, then a new run with its first fetch
        under way. An unchanged value does not re-run it. */
    method SetPollingIntervalMs(ms: real) returns (run: nat)
      modifies this
      ensures pollingIntervalMs == ms
      ensures ms == old(pollingIntervalMs) ==>
                effectRun == old(effectRun) && effectActive == old(effectActive) && isSyncing == old(isSyncing)
      ensures ms != old(pollingIntervalMs) ==> effectRun == old(effectRun) + 1 && IsMounted(run) && isSyncing
      ensures ms != old(pollingIntervalMs) ==> !IsMounted(old(effectRun))
      ensures issues == old(issues) && recentlyAccessed == old(recentlyAccessed)
      ensures lastSyncTime == old(lastSyncTime)
    {
      run := effectRun;
      if ms != pollingIntervalMs {
        pollingIntervalMs := ms;
        Teardown();
        run := StartPolling();
      }
    }

    /** The start of `fetchAndUpdate`: `setIsSyncing(true)`. */
    method BeginFetch()
      modifies this
      ensures isSyncing
      ensures issues == old(issues) && recentlyAccessed == old(recentlyAccessed)
      ensures lastSyncTime == old(lastSyncTime) && pollingIntervalMs == old(pollingIntervalMs)
      ensures effectRun == old(effectRun) && effectActive == old(effectActive)
    {
      isSyncing := true;
    }

    /** The rest of `fetchAndUpdate`, for a fetch started by run `run` that
        settles with `outcome` at time `now`. A success seen by a torn-down
        run returns before `setIsSyncing(false)`; a failure always reaches it. */
    method CompleteFetch(run: nat, outcome: FetchOutcome, now: int)
      modifies this
      ensures outcome.Fetched? && old(IsMounted(run)) ==>
                issues == outcome.data && lastSyncTime == Some(now) && !isSyncing
      ensures outcome.Fetched? && !old(IsMounted(run)) ==>
                issues == old(issues) && lastSyncTime == old(lastSyncTime) && isSyncing == old(isSyncing)
      ensures outcome.Failed? ==> issues == old(issues) && lastSyncTime == old(lastSyncTime) && !isSyncing
      ensures recentlyAccessed == old(recentlyAccessed) && pollingIntervalMs == old(pollingIntervalMs)
      ensures effectRun == old(effectRun) && effectActive == old(effectActive)
    {
      match outcome {
        case Fetched(data) =>
          if !IsMounted(run) {
            return;
          }
          issues := data;
          lastSyncTime := Some(now);
        case Failed =>
      }
      isSyncing := false;
    }

    /** One whole poll cycle with no other event between its start and its
        end: `isSyncing` is true while the fetch is out. */
    method PollCycle(run: nat, outcome: FetchOutcome, now: int)
      modifies this
      ensures outcome.Fetched? && old(IsMounted(run)) ==>
                issues == outcome.data && lastSyncTime == Some(now) && !isSyncing
      ensures outcome.Fetched? && !old(IsMounted(run)) ==>
                issues == old(issues) && lastSyncTime == old(lastSyncTime) && isSyncing
      ensures outcome.Failed? ==> issues == old(issues) && lastSyncTime == old(lastSyncTime) && !isSyncing
      ensures recentlyAccessed == old(recentlyAccessed) && pollingIntervalMs == old(pollingIntervalMs)
      ensures effectRun == old(effectRun) && effectActive == old(effectActive)
    {
      BeginFetch();
      assert isSyncing;
      CompleteFetch(run, outcome, now);
    }
  }

  /** The store's fields other than the issue list are as they were. */
  twostate predicate OnlyIssuesChanged(store: IssuesStore)
    reads store
  {
    store.recentlyAccessed == old(store.recentlyAccessed) && store.lastSyncTime == old(store.lastSyncTime)
    && store.pollingIntervalMs == old(store.pollingIntervalMs) && store.isSyncing == old(store.isSyncing)
    && store.effectRun == old(store.effectRun) && store.effectActive == old(store.effectActive)
  }

  /** The store's fields other than the recently-accessed list are as they were. */
  twostate predicate OnlyRecentsChanged(store: IssuesStore)
    reads store
  {
    store.issues == old(store.issues) && store.lastSyncTime == old(store.lastSyncTime)
    && store.pollingIntervalMs == old(store.pollingIntervalMs) && store.isSyncing == old(store.isSyncing)
    && store.effectRun == old(store.effectRun) && store.effectActive == old(store.effectActive)
  }
}
