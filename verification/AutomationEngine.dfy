/**
 * The engine as it runs: reads and writes of the automation and job rows, one statement at a
 * time, each method proved to do what `AutomationWorld` says its step does.
 */
module AutomationEngine {
  import opened AutomationPolicy
  import opened AutomationWorld
  import opened Wrappers

  class Engine {
    const next: Next
    var autos: map<nat, Automation>
    var jobs: seq<Job>

    ghost function State(): World
      reads this
    {
      World(autos, jobs)
    }

    constructor (next: Next, autos: map<nat, Automation>)
      ensures this.next == next && State() == World(autos, [])
    {
      this.next := next;
      this.autos := autos;
      this.jobs := [];
    }

    // ----- The queue -----

    method EnqueueJob(job: Job, forever: bool) returns (id: nat, created: bool)
      modifies this`jobs
      ensures Enqueued(jobs, id, created) ==
              if forever then EnqueueForever(old(jobs), job) else EnqueueActive(old(jobs), job)
    {
      var existing := if forever then FindKey(jobs, job.key) else FindActive(jobs, job.key);
      if existing.Some? {
        return existing.value, false;
      }
      id := |jobs|;
      jobs := jobs + [job];
      created := true;
    }

    // ----- One execution -----

    /** The next run a scheduled tick leaves behind; unchanged when the schedule has none. */
    method AdvanceSchedule(id: nat, now: int)
      requires id in autos
      modifies this`autos
      ensures autos == old(autos)[id := MoveSchedule(next, id, old(autos)[id], now)]
    {
      var computed := next(id, now);
      if computed.Some? {
        autos := autos[id := autos[id].(nextRunAt := computed.value)];
      }
    }

    method SkipAutomationForPausedAgent(id: nat, now: int, preserveSchedule: bool)
      requires id in autos
      modifies this`autos
      ensures autos == if preserveSchedule then old(autos)
                       else old(autos)[id := MoveSchedule(next, id, old(autos)[id], now)]
    {
      if !preserveSchedule {
        AdvanceSchedule(id, now);
      }
    }

    method HandleAutomationBudgetBlocked(id: nat, now: int, preserveSchedule: bool)
      requires id in autos
      modifies this`autos
      ensures autos == old(autos)[id :=
                (if preserveSchedule then old(autos)[id] else MoveSchedule(next, id, old(autos)[id], now))
                  .(lastRunAt := Some(now))]
    {
      var nextRunAt := autos[id].nextRunAt;
      if !preserveSchedule {
        var computed := next(id, now);
        if computed.Some? {
          nextRunAt := computed.value;
        }
      }
      autos := autos[id := autos[id].(lastRunAt := Some(now), nextRunAt := nextRunAt)];
    }

    /** Clears the streak and the mark, where there is anything to clear. */
    method ResetAutomationFailureState(id: nat)
      requires id in autos
      modifies this`autos
      ensures autos == old(autos)[id := ResetFailures(old(autos)[id])]
    {
      var row := autos[id];
      if row.consecutiveFailures > 0 || row.disabledByFailures {
        autos := autos[id := row.(consecutiveFailures := 0, disabledByFailures := false)];
      }
    }

    method RunAutomationById(id: nat, now: int, trigger: Trigger, env: Env) returns (outcome: Outcome)
      modifies this`autos
      ensures id !in old(autos) ==> outcome == Unavailable && autos == old(autos)
      ensures id in old(autos) ==>
                var (row, result) := RunRow(next, id, old(autos)[id], trigger, now, env);
                outcome == result && autos == old(autos)[id := row]
    {
      if id !in autos {
        return Unavailable;
      }
      var policy := TriggerPolicy(trigger);
      var row := autos[id];
      if !row.enabled && !policy.allowDisabled {
        return Unavailable;
      }
      if env.paused {
        SkipAutomationForPausedAgent(id, now, policy.preserveSchedule);
        return Blocked;
      }
      if env.overBudget {
        HandleAutomationBudgetBlocked(id, now, policy.preserveSchedule);
        return Blocked;
      }
      if !env.works {
        return Threw;
      }
      if policy.preserveSchedule {
        autos := autos[id := row.(lastRunAt := Some(now))];
      } else {
        var computed := next(id, now);
        if computed.None? {
          return Threw;
        }
        autos := autos[id := row.(lastRunAt := Some(now), nextRunAt := computed.value)];
      }
      ResetAutomationFailureState(id);
      return Succeeded;
    }

    method RecordTerminalAutomationFailure(id: nat, trigger: Trigger, now: int)
      requires id in autos
      modifies this`autos
      ensures autos == old(autos)[id := GiveUpRow(next, id, old(autos)[id], trigger, now)]
    {
      var wasEnabled := autos[id].enabled;
      var failures := autos[id].consecutiveFailures + 1;
      autos := autos[id := autos[id].(consecutiveFailures := failures)];
      if !TriggerPolicy(trigger).preserveSchedule {
        var computed := next(id, now);
        if computed.Some? {
          autos := autos[id := autos[id].(lastRunAt := Some(now), nextRunAt := computed.value)];
        }
      }
      if wasEnabled && ShouldDisable(failures) {
        autos := autos[id := autos[id].(enabled := false, disabledByFailures := true)];
      }
    }

    /** Retry, give up or only report; answers the job queued as the next attempt. */
    method HandleAutomationRunFailure(jobId: nat, now: int, env: Env) returns (retry: Option<nat>)
      requires jobId < |jobs|
      modifies this`autos, this`jobs
      ensures (State(), retry) == HandleFailure(next, old(State()), jobId, now, env)
    {
      var job := jobs[jobId];
      if !TriggerPolicy(job.trigger).escalateFailures {
        return None;
      }
      if ShouldRetry(job.attempt) && !env.enqueueFails {
        var attempt := job.attempt + 1;
        var runAt := now + RetryBackoff(job.attempt);
        var id, _ := EnqueueJob(
          Job(job.automation, job.trigger, attempt, RetryKey(jobId, attempt), runAt, Active, None), true);
        return Some(id);
      }
      if job.automation in autos {
        RecordTerminalAutomationFailure(job.automation, job.trigger, now);
      }
      return None;
    }

    method ExecuteAutomationRunJob(jobId: nat, now: int, env: Env) returns (retry: Option<nat>)
      requires jobId < |jobs|
      modifies this`autos, this`jobs
      ensures (State(), retry) == Execute(next, old(State()), jobId, now, env)
    {
      var job := jobs[jobId];
      var outcome := RunAutomationById(job.automation, now, job.trigger, env);
      if outcome == Threw {
        assert autos == old(autos);
        retry := HandleAutomationRunFailure(jobId, now, env);
      } else {
        retry := None;
      }
    }

    // ----- The dispatch tick -----

    /** The newest job of a slot's chain of attempts, and whether it may still run. */
    method FollowRetryChain(slotJob: nat) returns (active: bool, last: nat)
      requires slotJob < |jobs|
      ensures last == FollowChain(jobs, slotJob, MAX_RETRY_CHAIN_HOPS)
      ensures active == (jobs[last].status == Active)
    {
      last := slotJob;
      var hop := 0;
      while hop < MAX_RETRY_CHAIN_HOPS
        invariant 0 <= hop <= MAX_RETRY_CHAIN_HOPS
        invariant last < |jobs|
        invariant FollowChain(jobs, last, MAX_RETRY_CHAIN_HOPS - hop)
                  == FollowChain(jobs, slotJob, MAX_RETRY_CHAIN_HOPS)
      {
        if jobs[last].status == Active {
          return true, last;
        }
        if jobs[last].status != Completed || jobs[last].retryJob.None? {
          break;
        }
        var retryJob := jobs[last].retryJob.value;
        if retryJob >= |jobs| {
          break;
        }
        last := retryJob;
        hop := hop + 1;
      }
      active := jobs[last].status == Active;
    }

    /** Rolls the schedule past a dead slot, if the row is still on it. */
    method SkipScheduledSlot(id: nat, slot: int, now: int) returns (skipped: bool)
      requires id in autos
      modifies this`autos
      ensures State() == SkipSlot(next, old(State()), id, slot, now)
      ensures skipped <==> next(id, now).Some? && old(autos)[id].nextRunAt == slot
    {
      var computed := next(id, now);
      if computed.None? || autos[id].nextRunAt != slot {
        return false;
      }
      autos := autos[id := autos[id].(nextRunAt := computed.value)];
      return true;
    }

    /** One due automation: its slot's job, or the end of its chain, or a slot to skip. */
    method ExamineAutomation(id: nat, row: Automation, now: int) returns (entry: Entry)
      requires id in autos
      modifies this`autos, this`jobs
      ensures State() == Examine(next, old(State()), id, row, now)
      ensures entry == EntryOf(next, old(State()), id, row, now)
      ensures entry.automation == id && entry.created == (|jobs| > |old(jobs)|)
      ensures entry.skipped ==>
                && DeadSlot(old(jobs), id, row.nextRunAt) && next(id, now).Some?
                && old(autos)[id].nextRunAt == row.nextRunAt
                && !entry.created && autos[id] == old(autos)[id].(nextRunAt := next(id, now).value)
      ensures !entry.skipped ==> autos == old(autos)
    {
      var job, created := EnqueueJob(
        Job(id, Schedule, 1, SlotKey(id, Minute(row.nextRunAt)), now, Active, None), true);
      if !created {
        var active, last := FollowRetryChain(job);
        if !active {
          var skipped := SkipScheduledSlot(id, row.nextRunAt, now);
          if skipped {
            return Entry(id, last, created, true);
          }
        }
      }
      return Entry(id, job, created, false);
    }

    /** Of some automations, one whose next run is earliest. */
    method Earliest(ids: set<nat>) returns (best: nat)
      requires ids != {} && forall id :: id in ids ==> id in autos
      ensures best in ids && forall id :: id in ids ==> autos[best].nextRunAt <= autos[id].nextRunAt
    {
      best :| best in ids;
      var left := ids - {best};
      while left != {}
        invariant left <= ids && best in ids
        invariant forall id :: id in ids && id !in left ==> autos[best].nextRunAt <= autos[id].nextRunAt
        decreases left
      {
        var id :| id in left;
        if autos[id].nextRunAt < autos[best].nextRunAt {
          best := id;
        }
        left := left - {id};
      }
    }

    /** The due query: enabled, due, the earliest first, at most a page. */
    method DueAutomations(now: int) returns (page: seq<nat>)
      ensures IsDuePage(autos, now, page)
    {
      page := [];
      var left := set id | id in autos && Due(autos[id], now);
      ghost var due := left;
      while left != {} && |page| < PAGE
        invariant left <= due && |page| <= PAGE
        invariant forall id :: id in due <==> id in left || id in page
        invariant forall id :: id in page ==> id !in left
        invariant forall k :: 0 <= k < |page| ==> page[k] in due
        invariant forall k, id :: 0 <= k < |page| && id in left ==> autos[page[k]].nextRunAt <= autos[id].nextRunAt
        invariant forall j, k :: 0 <= j < k < |page| ==>
                    page[j] != page[k] && autos[page[j]].nextRunAt <= autos[page[k]].nextRunAt
        decreases left
      {
        var id := Earliest(left);
        left := left - {id};
        page := page + [id];
      }
    }

    /** The dispatch tick: the due rows, each as it was read, one after another. */
    method CheckAndRunAutomations(now: int) returns (enqueued: seq<Entry>)
      modifies this`autos, this`jobs
      ensures IsDuePage(old(autos), now, Examined(enqueued))
      ensures State() == Tick(next, old(State()), Examined(enqueued), now)
      ensures enqueued == TickReport(next, old(State()), old(autos), Examined(enqueued), now)
    {
      hide Examine, EntryOf, IsDuePage, ExamineAll, TickReport, DeadSlot;
      var page := DueAutomations(now);
      var rows := autos;
      enqueued := [];
      NoTurn(next, State(), rows, now);
      assert page[..0] == [];
      for k := 0 to |page|
        invariant autos.Keys == rows.Keys
        invariant State() == ExamineAll(next, old(State()), rows, page[..k], now)
        invariant enqueued == TickReport(next, old(State()), rows, page[..k], now)
      {
        NextTurn(next, old(State()), rows, page, k, now);
        var entry := ExamineAutomation(page[k], rows[page[k]], now);
        enqueued := enqueued + [entry];
      }
      assert page[..|page|] == page;
      ReportNames(next, old(State()), rows, page, now);
    }

    // ----- What people do -----

    method RunAutomationNow(id: nat, now: int) returns (job: Option<nat>)
      modifies this`jobs
      ensures State() == RunNow(old(State()), id, now)
      ensures job.Some? <==> id in autos
    {
      if id !in autos {
        return None;
      }
      var queued, _ := EnqueueJob(Job(id, Manual, 1, ManualKey(id, Minute(now)), now, Active, None), false);
      return Some(queued);
    }

    /** The on/off switch of the form; refused when switching on finds no next run. */
    method UpdateEnabled(id: nat, on: bool, now: int) returns (ok: bool)
      modifies this`autos
      ensures State() == Switch(next, old(State()), id, on, now)
      ensures !ok ==> autos == old(autos)
    {
      if id !in autos {
        return false;
      }
      var updates := autos[id].(enabled := on);
      if on {
        updates := updates.(consecutiveFailures := 0, disabledByFailures := false);
        if !autos[id].enabled {
          var computed := next(id, now);
          if computed.None? {
            return false;
          }
          updates := updates.(nextRunAt := computed.value);
        }
      } else {
        updates := updates.(disabledByFailures := false);
      }
      autos := autos[id := updates];
      return true;
    }
  }
}
