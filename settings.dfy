/** The settings page's polling-interval input: seconds typed by the user
    become a clamped interval in milliseconds, shown back in seconds. */
module Settings {
  import opened Common
  import IssuesContext

  /** The smallest interval the handler lets through, in seconds. */
  const MinSeconds: real := 5.0

  /** `handleChange`: `Number(value)` is `input` (None for NaN); NaN or less
      than 5 seconds becomes 5; the result is in milliseconds. */
  function HandleChange(input: Option<real>): (ms: real)
    ensures ms >= MinSeconds * 1000.0
    ensures input.Some? && input.value >= MinSeconds ==> ms == input.value * 1000.0
    ensures input.None? || input.value < MinSeconds ==> ms == MinSeconds * 1000.0
  {
    var secs := if input.None? || input.value < MinSeconds then MinSeconds else input.value;
    secs * 1000.0
  }

  /** The input's displayed value `pollingIntervalMs / 1000`. */
  function DisplaySeconds(ms: real): (s: real)
    ensures s * 1000.0 == ms
  {
    ms / 1000.0
  }

  /** Typing s >= 5 seconds displays s again. */
  lemma DisplayRoundTrip(s: real)
    requires s >= MinSeconds
    ensures DisplaySeconds(HandleChange(Some(s))) == s
  {
  }

  /** After any input the display shows at least 5 seconds. */
  lemma DisplayAtLeastMinimum(input: Option<real>)
    ensures DisplaySeconds(HandleChange(input)) >= MinSeconds
  {
  }

  /** The input's change event on the store: a clamped value that differs
      from the current interval restarts polling with a fetch under way. */
  method OnIntervalInput(store: IssuesContext.IssuesStore, input: Option<real>) returns (run: nat)
    modifies store
    ensures store.pollingIntervalMs == HandleChange(input) && store.pollingIntervalMs >= 5000.0
    ensures HandleChange(input) == old(store.pollingIntervalMs) ==>
              store.effectRun == old(store.effectRun) && store.effectActive == old(store.effectActive)
              && store.isSyncing == old(store.isSyncing)
    ensures HandleChange(input) != old(store.pollingIntervalMs) ==>
              store.effectRun == old(store.effectRun) + 1 && store.IsMounted(run) && store.isSyncing
              && !store.IsMounted(old(store.effectRun))
    ensures store.issues == old(store.issues) && store.recentlyAccessed == old(store.recentlyAccessed)
    ensures store.lastSyncTime == old(store.lastSyncTime)
  {
    run := store.SetPollingIntervalMs(HandleChange(input));
  }
}
