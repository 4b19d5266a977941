/** The generic polling hook `usePolling`: a start/stop/tick state machine
    around a caller-supplied asynchronous check and an optional continuation
    predicate. The check's completion is an explicit event (`CheckSettled`),
    and so is the firing of the scheduled timeout (`Tick`).

    React keeps `isPolling` as render state that `poll` reads through a stale
    closure; here it is a plain field that every step reads afresh. */
module Polling {
  import opened Wrappers

  /** The interval used when the option is absent or 0. */
  const DefaultInterval: nat := 3000

  /** `options?.interval || 3000`. */
  function IntervalOf(interval: Option<nat>): (ms: nat)
    ensures ms > 0
    ensures interval.Some? && interval.value != 0 ==> ms == interval.value
    ensures interval.None? || interval.value == 0 ==> ms == DefaultInterval
  {
    if interval.Some? && interval.value != 0 then interval.value else DefaultInterval
  }

  class PollingHook {
    /** Whether a polling function was supplied. */
    const hasFunction: bool
    const intervalMs: nat
    /** `options.shouldContinue`, when supplied. */
    const shouldContinue: Option<string -> bool>
    var isPolling: bool
    /** The timeout held in `timeoutIdRef` is scheduled and has neither fired
        nor been cleared. */
    var refTimerPending: bool
    /** Timeouts still scheduled whose id was overwritten in `timeoutIdRef` by
        a later success: `stopPolling` can no longer clear them. */
    var orphanTimers: nat
    /** `currentJobIdRef.current`. */
    var currentJobId: Option<string>
    /** Checks started and not yet settled. */
    var inFlight: nat

    ghost predicate Valid()
      reads this
    {
      isPolling ==> currentJobId.Some?
    }

    /** The continuation decision after a successful check: the predicate for
        the current job id, or true when no predicate was supplied. */
    predicate Continues()
      reads this
      requires currentJobId.Some?
    {
      match shouldContinue
      case None => true
      case Some(p) => p(currentJobId.value)
    }

    constructor (hasFunction: bool, interval: Option<nat>, shouldContinue: Option<string -> bool>)
      ensures Valid()
      ensures this.hasFunction == hasFunction && this.shouldContinue == shouldContinue
      ensures intervalMs == IntervalOf(interval)
      ensures !isPolling && !refTimerPending && orphanTimers == 0 && currentJobId.None? && inFlight == 0
    {
      this.hasFunction := hasFunction;
      this.intervalMs := IntervalOf(interval);
      this.shouldContinue := shouldContinue;
      isPolling := false;
      refTimerPending := false;
      orphanTimers := 0;
      currentJobId := None;
      inFlight := 0;
    }

    /** `poll`: starts a check only while polling, with a polling function and
        a non-empty job id. */
    method Poll()
      requires Valid()
      modifies this
      ensures Valid()
      ensures isPolling == old(isPolling) && refTimerPending == old(refTimerPending)
      ensures orphanTimers == old(orphanTimers) && currentJobId == old(currentJobId)
      ensures inFlight == old(inFlight) + (if isPolling && hasFunction && currentJobId.value != "" then 1 else 0)
    {
      if !isPolling || !hasFunction || currentJobId.value == "" {
        return;
      }
      inFlight := inFlight + 1;
    }

    /** `stopPolling`: marks polling inactive, clears the timeout held in the
        ref and forgets the job id; repeating it changes nothing further.
        Orphaned timeouts stay scheduled. */
    method StopPolling()
      modifies this
      ensures Valid()
      ensures !isPolling && !refTimerPending && currentJobId.None?
      ensures orphanTimers == old(orphanTimers) && inFlight == old(inFlight)
    {
      isPolling := false;
      if refTimerPending {
        refTimerPending := false;
      }
      currentJobId := None;
    }

    /** `startPolling(jobId)`: without a polling function nothing changes;
        otherwise the previous polling is stopped, the job id recorded,
        polling marked active and the first check started at once. */
    method StartPolling(jobId: string)
      requires Valid()
      modifies this
      ensures Valid()
      ensures orphanTimers == old(orphanTimers)
      ensures !hasFunction ==>
                isPolling == old(isPolling) && refTimerPending == old(refTimerPending)
                && currentJobId == old(currentJobId) && inFlight == old(inFlight)
      ensures hasFunction ==>
                isPolling && !refTimerPending && currentJobId == Some(jobId)
                && inFlight == old(inFlight) + (if jobId != "" then 1 else 0)
    {
      if !hasFunction {
        return;
      }
      StopPolling();
      currentJobId := Some(jobId);
      isPolling := true;
      Poll();
    }

    /** A scheduled timeout fires and runs `poll`, which starts no check once
        polling has become inactive. `referenced` says whether it is the
        timeout held in the ref or an orphaned one. */
    method Tick(referenced: bool)
      requires Valid()
      requires referenced ==> refTimerPending
      requires !referenced ==> orphanTimers > 0
      modifies this
      ensures Valid()
      ensures referenced ==> !refTimerPending && orphanTimers == old(orphanTimers)
      ensures !referenced ==> refTimerPending == old(refTimerPending) && orphanTimers == old(orphanTimers) - 1
      ensures isPolling == old(isPolling) && currentJobId == old(currentJobId)
      ensures inFlight == old(inFlight) + (if isPolling && hasFunction && currentJobId.value != "" then 1 else 0)
    {
      if referenced {
        refTimerPending := false;
      } else {
        orphanTimers := orphanTimers - 1;
      }
      Poll();
    }

    /** A check settles. After a success the next check is scheduled iff
        polling is still active and the continuation holds; otherwise polling
        becomes inactive. A failed check stops polling with no new timer.
        Scheduling overwrites the ref: a timeout it still held becomes an
        orphan, so overlapping checks leave two poll chains running. */
    method CheckSettled(succeeded: bool)
      requires Valid() && inFlight > 0
      modifies this
      ensures Valid()
      ensures inFlight == old(inFlight) - 1 && currentJobId == old(currentJobId)
      ensures succeeded && old(isPolling) && old(Continues()) ==>
                isPolling && refTimerPending
                && orphanTimers == old(orphanTimers) + (if old(refTimerPending) then 1 else 0)
      ensures !(succeeded && old(isPolling) && old(Continues())) ==>
                !isPolling && refTimerPending == old(refTimerPending) && orphanTimers == old(orphanTimers)
    {
      inFlight := inFlight - 1;
      if succeeded {
        if isPolling && Continues() {
          if refTimerPending {
            orphanTimers := orphanTimers + 1;
          }
          refTimerPending := true;
        } else {
          isPolling := false;
        }
      } else {
        isPolling := false;
      }
    }

    /** The unmount cleanup runs `stopPolling`. */
    method Unmount()
      modifies this
      ensures Valid()
      ensures !isPolling && !refTimerPending && currentJobId.None?
      ensures orphanTimers == old(orphanTimers) && inFlight == old(inFlight)
    {
      StopPolling();
    }
  }

  /** Two starts in a row, both checks succeeding, then a stop: the timeout
      the first success scheduled was overwritten in the ref and is still
      scheduled after `stopPolling`. */
  method OverlappingChecksOutliveStop() returns (orphans: nat, pollingAfterStop: bool)
    ensures orphans == 1 && !pollingAfterStop
  {
    var hook := new PollingHook(true, None, None);
    hook.StartPolling("A");
    hook.StartPolling("B");
    hook.CheckSettled(true);
    hook.CheckSettled(true);
    hook.StopPolling();
    orphans := hook.orphanTimers;
    pollingAfterStop := hook.isPolling;
  }
}
