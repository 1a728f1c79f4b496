/**
 * The auto-save hook: a debounced save of the form data whenever it changes
 * structurally, with a status that goes saving, then saved or error, then back
 * to idle after a delay.
 *
 * React's rendering is modelled as events on one object: `Render` is a render
 * of the hook together with its change-detection effect, the timer callbacks
 * are `DebounceFires` and `IdleTimerFires`, the settling of the promise that
 * `onSave` returned is `SaveResolves` (with `ok` false when it rejects), and `Save`, `Reset` and `Unmount` are the
 * manual save, the manual reset and the unmounting of the component.
 */
module AutoSave {
  import opened Wrappers

  datatype Status = Idle | Saving | Saved | Error

  const DefaultDelay: int := 500
  const SavedToIdleDelay: int := 2000
  const ErrorToIdleDelay: int := 3000

  /** The statuses other than `Idle`, in order. */
  function NonIdle(log: seq<Status>): (r: seq<Status>)
    ensures |r| <= |log|
    ensures forall i :: 0 <= i < |r| ==> r[i] != Idle
  {
    if log == [] then []
    else
      var last := log[|log| - 1];
      NonIdle(log[..|log| - 1]) + (if last == Idle then [] else [last])
  }

  lemma NonIdleAppend(log: seq<Status>, s: Status)
    ensures NonIdle(log + [s]) == if s == Idle then NonIdle(log) else NonIdle(log) + [s]
  {
    assert (log + [s])[..|log|] == log;
  }

  /** Starts with `saving`, and `saving` and a terminal status (`saved` or `error`) take turns. */
  predicate Alternates(s: seq<Status>)
  {
    && (|s| > 0 ==> s[0] == Saving)
    && forall i :: 0 <= i < |s| - 1 ==> (s[i] == Saving <==> s[i + 1] != Saving)
  }

  /** Taking turns from `saving` on puts `saving` at every even position and a terminal status at every odd one. */
  lemma {:induction false} AlternatesParity(s: seq<Status>)
    requires Alternates(s)
    requires forall i :: 0 <= i < |s| ==> s[i] != Idle
    ensures forall i :: 0 <= i < |s| ==> (s[i] == Saving <==> i % 2 == 0)
  {
    if |s| > 1 {
      var init := s[..|s| - 1];
      assert Alternates(init) by {
        forall i | 0 <= i < |init| - 1
          ensures init[i] == Saving <==> init[i + 1] != Saving
        {
          assert init[i] == s[i] && init[i + 1] == s[i + 1];
        }
      }
      AlternatesParity(init);
      forall i | 0 <= i < |s|
        ensures s[i] == Saving <==> i % 2 == 0
      {
        if i < |s| - 1 {
          assert s[i] == init[i];
        } else {
          assert s[i - 1] == init[i - 1];
        }
      }
    }
  }

  /** The status the hook returns, and `isLoading`, which holds exactly when that status is `saving`. */
  function Returned(status: Status): (r: (Status, bool))
    ensures r.0 == status
    ensures r.1 <==> status == Saving
  {
    (status, status == Saving)
  }

  /**
   * The set statuses other than `idle` alternate `saving` / terminal, a save
   * is in flight exactly when the last of them is `saving`, and each `saving`
   * went with one call of `onSave`.
   */
  predicate SaveTrace(log: seq<Status>, saving: bool, calls: nat)
  {
    var n := NonIdle(log);
    && Alternates(n)
    && (saving <==> |n| > 0 && n[|n| - 1] == Saving)
    && |n| + (if saving then 1 else 0) == 2 * calls
  }

  /** Setting `saving` when no save is in flight, a terminal status when one is, or `idle` at any time, keeps the trace. */
  lemma SaveTraceStep(log: seq<Status>, saving: bool, calls: nat, s: Status)
    requires SaveTrace(log, saving, calls)
    requires s == Saving ==> !saving
    requires s == Saved || s == Error ==> saving
    ensures SaveTrace(log + [s], if s == Idle then saving else s == Saving, if s == Saving then calls + 1 else calls)
  {
    NonIdleAppend(log, s);
    if s != Idle {
      var n := NonIdle(log);
      var m := n + [s];
      assert NonIdle(log + [s]) == m;
      forall i | 0 <= i < |m| - 1
        ensures m[i] == Saving <==> m[i + 1] != Saving
      {
        if i < |n| - 1 {
          assert m[i] == n[i] && m[i + 1] == n[i + 1];
        } else {
          assert m[i] == n[|n| - 1] && m[i + 1] == s;
        }
      }
    }
  }

  /** The callback heard every status set while mounted, and nothing without a callback. */
  predicate Reported(hasCallback: bool, mounted: bool, log: seq<Status>, emitted: seq<Status>)
  {
    && (!hasCallback ==> emitted == [])
    && (hasCallback ==> |emitted| <= |log| && emitted == log[..|emitted|])
    && (hasCallback && mounted ==> emitted == log)
  }

  lemma ReportedStep(hasCallback: bool, mounted: bool, log: seq<Status>, emitted: seq<Status>, s: Status)
    requires Reported(hasCallback, mounted, log, emitted)
    ensures Reported(hasCallback, mounted, log + [s], if mounted && hasCallback then emitted + [s] else emitted)
  {
    if hasCallback && !mounted {
      assert (log + [s])[..|emitted|] == log[..|emitted|];
    }
  }

  /** Unmounting keeps what the callback heard. */
  lemma ReportedUnmount(hasCallback: bool, log: seq<Status>, emitted: seq<Status>)
    requires Reported(hasCallback, true, log, emitted)
    ensures Reported(hasCallback, false, log, emitted)
  {
  }

  /**
   * The hook's refs and what it has handed to its callbacks.
   *
   * `pending` is the debounce timer armed by the change-detection effect, with
   * the data its `save` closure captured; `cleanupArmed` says that the last run
   * of that effect returned its cleanup; `idleTimers` are the back-to-idle
   * timers not yet run, by delay. `statusLog` is every status set through
   * `setStatus`, `emitted` what `onStatusChange` received, and `saveCalls` the
   * data each call of `onSave` received.
   */
  class AutoSave<D(==)> {
    const serialize: D -> string
    const hasCallback: bool

    var status: Status
    var snapshot: D
    var latest: D
    var pending: Option<D>
    var pendingDelay: int
    var cleanupArmed: bool
    var mounted: bool
    var saving: bool
    var idleTimers: multiset<int>
    var statusLog: seq<Status>
    var emitted: seq<Status>
    var saveCalls: seq<D>

    /**
     * The status is the last one set; the set statuses other than `idle`
     * alternate `saving` / terminal, and a save is in flight exactly when the
     * last of them is `saving`; each `saving` went with one call of `onSave`;
     * the callback heard every status set while mounted and nothing after;
     * a pending debounce timer belongs to a mounted hook and carries the data
     * last recorded as changed.
     */
    predicate Valid()
      reads this
    {
      && status == (if statusLog == [] then Idle else statusLog[|statusLog| - 1])
      && SaveTrace(statusLog, saving, |saveCalls|)
      && Reported(hasCallback, mounted, statusLog, emitted)
      && (pending.Some? ==> mounted && cleanupArmed && pending.value == snapshot)
    }

    /** The first render: status `idle`, the data recorded as the snapshot, and no timer armed. */
    constructor (serialize: D -> string, hasCallback: bool, data: D)
      ensures Valid()
      ensures this.serialize == serialize && this.hasCallback == hasCallback
      ensures status == Idle && snapshot == data && latest == data
      ensures pending == None && pendingDelay == DefaultDelay && !cleanupArmed && mounted && !saving
      ensures idleTimers == multiset{} && statusLog == [] && emitted == [] && saveCalls == []
    {
      this.serialize := serialize;
      this.hasCallback := hasCallback;
      status := Idle;
      snapshot := data;
      latest := data;
      pending := None;
      pendingDelay := DefaultDelay;
      cleanupArmed := false;
      mounted := true;
      saving := false;
      idleTimers := multiset{};
      statusLog := [];
      emitted := [];
      saveCalls := [];
    }

    /** `setStatus`: record the status, and report it only when there is a callback and the hook is mounted. */
    method SetStatus(s: Status)
      modifies this
      ensures status == s && statusLog == old(statusLog) + [s]
      ensures emitted == if old(mounted) && hasCallback then old(emitted) + [s] else old(emitted)
      ensures snapshot == old(snapshot) && latest == old(latest) && pending == old(pending)
      ensures pendingDelay == old(pendingDelay) && cleanupArmed == old(cleanupArmed)
      ensures mounted == old(mounted) && saving == old(saving)
      ensures idleTimers == old(idleTimers) && saveCalls == old(saveCalls)
    {
      status := s;
      statusLog := statusLog + [s];
      if hasCallback && mounted {
        emitted := emitted + [s];
      }
    }

    /**
     * A render of the hook with `data`. When React re-runs the change-detection
     * effect (`effectRuns`: one of `data`, `delay`, `enabled` or `save` is a new
     * value), the previous run's cleanup first cancels the pending timer; then,
     * if enabled and the data serializes differently from the snapshot, the data
     * becomes the snapshot and one timer of `delay` (default 500) is armed.
     */
    method Render(data: D, enabled: bool, delay: Option<int>, effectRuns: bool)
      requires Valid() && mounted
      modifies this
      ensures Valid()
      ensures latest == data
      ensures !effectRuns ==> snapshot == old(snapshot) && pending == old(pending) && cleanupArmed == old(cleanupArmed)
      ensures effectRuns && enabled && serialize(data) != serialize(old(snapshot)) ==>
        snapshot == data && pending == Some(data) && pendingDelay == delay.GetOr(DefaultDelay) && cleanupArmed
      ensures effectRuns && !(enabled && serialize(data) != serialize(old(snapshot))) ==>
        snapshot == old(snapshot) && pending == None && !cleanupArmed
      ensures !(effectRuns && enabled && serialize(data) != serialize(old(snapshot))) ==> pendingDelay == old(pendingDelay)
      ensures status == old(status) && mounted && saving == old(saving) && idleTimers == old(idleTimers)
      ensures statusLog == old(statusLog) && emitted == old(emitted) && saveCalls == old(saveCalls)
    {
      latest := data;
      if effectRuns {
        // The previous run's cleanup cancels any pending timer (one is pending
        // only when that cleanup is armed); an early return leaves no cleanup.
        var changed := enabled && serialize(data) != serialize(snapshot);
        if changed {
          Arm(data, delay.GetOr(DefaultDelay));
        } else {
          Disarm();
        }
      }
    }

    /** The effect records `data` as the snapshot, arms one debounce timer of `delay` and returns its cleanup. */
    method Arm(data: D, delay: int)
      requires Valid() && mounted
      modifies this
      ensures Valid()
      ensures snapshot == data && pending == Some(data) && pendingDelay == delay && cleanupArmed
      ensures latest == old(latest) && status == old(status) && mounted && saving == old(saving) && idleTimers == old(idleTimers)
      ensures statusLog == old(statusLog) && emitted == old(emitted) && saveCalls == old(saveCalls)
    {
      snapshot := data;
      pending := Some(data);
      pendingDelay := delay;
      cleanupArmed := true;
    }

    /** The effect returns early: the pending timer is gone and no cleanup is armed. */
    method Disarm()
      requires Valid()
      modifies this
      ensures Valid()
      ensures pending == None && !cleanupArmed
      ensures snapshot == old(snapshot) && pendingDelay == old(pendingDelay) && latest == old(latest) && status == old(status)
      ensures mounted == old(mounted) && saving == old(saving) && idleTimers == old(idleTimers)
      ensures statusLog == old(statusLog) && emitted == old(emitted) && saveCalls == old(saveCalls)
    {
      pending := None;
      cleanupArmed := false;
    }

    /**
     * The body of `save` up to its `await`: nothing at all while another save
     * is in flight; otherwise mark a save in flight, set `saving` and call
     * `onSave` with the data the closure captured.
     */
    method StartSave(d: D)
      requires Valid()
      modifies this
      ensures Valid()
      ensures old(saving) ==> status == old(status) && saving && statusLog == old(statusLog) && emitted == old(emitted) && saveCalls == old(saveCalls)
      ensures !old(saving) ==> saving && status == Saving && statusLog == old(statusLog) + [Saving] && saveCalls == old(saveCalls) + [d]
      ensures !old(saving) ==> emitted == if mounted && hasCallback then old(emitted) + [Saving] else old(emitted)
      ensures snapshot == old(snapshot) && latest == old(latest) && pending == old(pending)
      ensures pendingDelay == old(pendingDelay) && cleanupArmed == old(cleanupArmed)
      ensures mounted == old(mounted) && idleTimers == old(idleTimers)
    {
      if saving {
        return;
      }
      SaveTraceStep(statusLog, saving, |saveCalls|, Saving);
      ReportedStep(hasCallback, mounted, statusLog, emitted, Saving);
      saving := true;
      SetStatus(Saving);
      saveCalls := saveCalls + [d];
    }

    /** The debounce timer fires and calls the `save` of the render that armed it. */
    method DebounceFires()
      requires Valid() && pending.Some?
      modifies this
      ensures Valid()
      ensures pending == None
      ensures old(saving) ==> status == old(status) && statusLog == old(statusLog) && saveCalls == old(saveCalls)
      ensures !old(saving) ==> status == Saving && statusLog == old(statusLog) + [Saving] && saveCalls == old(saveCalls) + [old(pending).value]
      ensures emitted == if !old(saving) && mounted && hasCallback then old(emitted) + [Saving] else old(emitted)
      ensures saving && snapshot == old(snapshot) && latest == old(latest) && mounted == old(mounted)
      ensures idleTimers == old(idleTimers) && cleanupArmed == old(cleanupArmed) && pendingDelay == old(pendingDelay)
    {
      var d := pending.value;
      pending := None;
      StartSave(d);
    }

    /** A manual call of the returned `save`, which captured the data of the latest render. */
    method Save()
      requires Valid()
      modifies this
      ensures Valid()
      ensures old(saving) ==> status == old(status) && statusLog == old(statusLog) && saveCalls == old(saveCalls)
      ensures !old(saving) ==> status == Saving && statusLog == old(statusLog) + [Saving] && saveCalls == old(saveCalls) + [old(latest)]
      ensures emitted == if !old(saving) && mounted && hasCallback then old(emitted) + [Saving] else old(emitted)
      ensures saving && pending == old(pending) && snapshot == old(snapshot) && latest == old(latest)
      ensures mounted == old(mounted) && idleTimers == old(idleTimers)
      ensures cleanupArmed == old(cleanupArmed) && pendingDelay == old(pendingDelay)
    {
      StartSave(latest);
    }

    /**
     * The promise of the save in flight settles: when it resolves (`ok`) it
     * sets `saved` and arms a 2000 ms back-to-idle timer, when it rejects it
     * sets `error` and arms a 3000 ms one; either way the save is no longer in
     * flight.
     */
    method SaveResolves(ok: bool)
      requires Valid() && saving
      modifies this
      ensures Valid()
      ensures !saving
      ensures ok ==> status == Saved && idleTimers == old(idleTimers) + multiset{SavedToIdleDelay}
      ensures !ok ==> status == Error && idleTimers == old(idleTimers) + multiset{ErrorToIdleDelay}
      ensures statusLog == old(statusLog) + [status]
      ensures emitted == if mounted && hasCallback then old(emitted) + [status] else old(emitted)
      ensures pending == old(pending) && snapshot == old(snapshot) && latest == old(latest)
      ensures mounted == old(mounted) && saveCalls == old(saveCalls)
      ensures cleanupArmed == old(cleanupArmed) && pendingDelay == old(pendingDelay)
    {
      var s := if ok then Saved else Error;
      SaveTraceStep(statusLog, saving, |saveCalls|, s);
      ReportedStep(hasCallback, mounted, statusLog, emitted, s);
      saving := false;
      SetStatus(s);
      idleTimers := idleTimers + multiset{if ok then SavedToIdleDelay else ErrorToIdleDelay};
    }

    /** A back-to-idle timer runs: it sets `idle` only if the hook is still mounted; nothing ever cancels it. */
    method IdleTimerFires(delay: int)
      requires Valid() && delay in idleTimers
      modifies this
      ensures Valid()
      ensures idleTimers == old(idleTimers) - multiset{delay}
      ensures mounted ==> status == Idle && statusLog == old(statusLog) + [Idle]
      ensures !mounted ==> status == old(status) && statusLog == old(statusLog)
      ensures emitted == if mounted && hasCallback then old(emitted) + [Idle] else old(emitted)
      ensures saving == old(saving) && pending == old(pending) && snapshot == old(snapshot) && latest == old(latest)
      ensures mounted == old(mounted) && saveCalls == old(saveCalls)
      ensures cleanupArmed == old(cleanupArmed) && pendingDelay == old(pendingDelay)
    {
      idleTimers := idleTimers - multiset{delay};
      if mounted {
        SetIdle();
      }
    }

    /** `setStatus('idle')`, which is allowed at any time and keeps the invariant. */
    method SetIdle()
      requires Valid()
      modifies this
      ensures Valid()
      ensures status == Idle && statusLog == old(statusLog) + [Idle]
      ensures emitted == if mounted && hasCallback then old(emitted) + [Idle] else old(emitted)
      ensures pending == old(pending) && cleanupArmed == old(cleanupArmed) && pendingDelay == old(pendingDelay)
      ensures saving == old(saving) && snapshot == old(snapshot) && latest == old(latest)
      ensures mounted == old(mounted) && idleTimers == old(idleTimers) && saveCalls == old(saveCalls)
    {
      SaveTraceStep(statusLog, saving, |saveCalls|, Idle);
      ReportedStep(hasCallback, mounted, statusLog, emitted, Idle);
      SetStatus(Idle);
    }

    /** `reset`: cancel the pending debounce timer and set `idle`, even while a save is in flight. */
    method Reset()
      requires Valid()
      modifies this
      ensures Valid()
      ensures pending == None && status == Idle && statusLog == old(statusLog) + [Idle]
      ensures emitted == if mounted && hasCallback then old(emitted) + [Idle] else old(emitted)
      ensures saving == old(saving) && snapshot == old(snapshot) && latest == old(latest)
      ensures mounted == old(mounted) && idleTimers == old(idleTimers) && saveCalls == old(saveCalls)
      ensures cleanupArmed == old(cleanupArmed) && pendingDelay == old(pendingDelay)
    {
      pending := None;
      SetIdle();
    }

    /** Unmounting runs both effects' cleanups: the hook is no longer mounted and the pending timer is cancelled. */
    method Unmount()
      requires Valid() && mounted
      modifies this
      ensures Valid()
      ensures !mounted && pending == None
      ensures status == old(status) && saving == old(saving) && snapshot == old(snapshot)
      ensures statusLog == old(statusLog) && emitted == old(emitted) && saveCalls == old(saveCalls)
      ensures idleTimers == old(idleTimers) && latest == old(latest)
      ensures cleanupArmed == old(cleanupArmed) && pendingDelay == old(pendingDelay)
    {
      ReportedUnmount(hasCallback, statusLog, emitted);
      mounted := false;
      pending := None;
    }
  }

  /** The serialization used by the scenarios below: data that is already a string. */
  function Identity(s: string): string
  {
    s
  }

  /** Three quick edits cause one call of `onSave`, with the last of them. */
  method CoalescedEdits() returns (calls: seq<string>, reported: seq<Status>)
    ensures calls == ["abc"]
    ensures reported == [Saving]
  {
    var hook := new AutoSave<string>(Identity, true, "");
    hook.Render("a", true, None, true);
    hook.Render("ab", true, None, true);
    hook.Render("abc", true, None, true);
    assert hook.pending == Some("abc") && !hook.saving && hook.emitted == [] && hook.saveCalls == [];
    hook.DebounceFires();
    calls, reported := hook.saveCalls, hook.emitted;
  }

  /** Rendering the first data again, or data that serializes the same, arms nothing. */
  method UnchangedDataArmsNothing() returns (armed: bool, calls: seq<string>)
    ensures !armed && calls == []
  {
    var hook := new AutoSave<string>(Identity, true, "x");
    hook.Render("x", true, None, true);
    hook.Render("x", true, Some(100), true);
    armed, calls := hook.pending.Some?, hook.saveCalls;
  }

  /**
   * A changed value followed, within the delay, by a render with equal data
   * whose effect re-runs: the cleanup cancels the timer, the equal data arms
   * none, and the change is recorded as the snapshot without ever being saved.
   */
  method EqualRenderCancelsPendingSave() returns (armed: bool, snapshot: string)
    ensures !armed && snapshot == "b"
  {
    var hook := new AutoSave<string>(Identity, true, "a");
    hook.Render("b", true, None, true);
    hook.Render("b", true, None, true);
    armed, snapshot := hook.pending.Some?, hook.snapshot;
  }

  /**
   * A debounced save that fires while another is in flight is dropped, and
   * its data, already the snapshot, is not armed again.
   */
  method SaveInFlightDropsNext() returns (calls: seq<string>, armed: bool)
    ensures calls == ["a"] && !armed
  {
    var hook := new AutoSave<string>(Identity, false, "");
    hook.Render("a", true, None, true);
    hook.DebounceFires();
    assert hook.saving && hook.saveCalls == ["a"];
    hook.Render("ab", true, None, true);
    assert hook.pending == Some("ab");
    hook.DebounceFires();
    assert hook.saveCalls == ["a"] && hook.pending == None;
    hook.SaveResolves(true);
    calls, armed := hook.saveCalls, hook.pending.Some?;
  }

  /**
   * The back-to-idle timer of an earlier save is not cancelled: it can set
   * `idle` while a later save is in flight, so the hook then reports
   * `isLoading` false during a save.
   */
  method StaleIdleTimer() returns (shown: (Status, bool), inFlight: bool)
    ensures shown == (Idle, false) && inFlight
  {
    var hook := new AutoSave<string>(Identity, true, "");
    hook.Render("a", true, None, true);
    hook.DebounceFires();
    hook.SaveResolves(true);
    assert !hook.saving && hook.idleTimers == multiset{SavedToIdleDelay};
    hook.Render("ab", true, None, true);
    hook.DebounceFires();
    assert hook.saving && hook.mounted;
    hook.IdleTimerFires(SavedToIdleDelay);
    shown, inFlight := Returned(hook.status), hook.saving;
  }

  /** After unmounting, a settling save still updates the status but the callback hears nothing. */
  method SettleAfterUnmount() returns (status: Status, reported: seq<Status>)
    ensures status == Error && reported == [Saving]
  {
    var hook := new AutoSave<string>(Identity, true, "");
    hook.Render("a", true, None, true);
    hook.DebounceFires();
    hook.Unmount();
    hook.SaveResolves(false);
    status, reported := hook.status, hook.emitted;
  }
}
