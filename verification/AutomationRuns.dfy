/**
 * Every run of the automation system: ticks, executions that succeed, fail, are held back or lose
 * their worker, cancellations, and what people and monitors do, in any order.
 */
module AutomationRuns {
  import opened AutomationPolicy
  import opened AutomationWorld
  import opened CronSchedule
  import opened CronSearch
  import opened Wrappers
  import opened Zone

  // ----- Events and runs -----

  datatype Event =
    | TickEvent(page: seq<nat>)
    | WorkEvent(job: nat, env: Env, reported: bool)
    | QueueGivesUp(job: nat)
    | CancelEvent(job: nat)
    | RunNowEvent(id: nat)
    | MonitorEvent(id: nat, monitor: nat, fireCount: nat)
    | SwitchEvent(id: nat, on: bool)

  datatype Step = Step(event: Event, now: int)

  ghost predicate Enabled(w: World, step: Step) {
    match step.event
    case TickEvent(page) => IsDuePage(w.autos, step.now, page)
    case WorkEvent(j, _, _) => j < |w.jobs| && w.jobs[j].status == Active && w.jobs[j].scheduledAt <= step.now
    case QueueGivesUp(j) => j < |w.jobs| && w.jobs[j].status == Active
    case CancelEvent(j) => j < |w.jobs|
    case _ => true
  }

  function SetStatus(w: World, j: nat, status: Status): World
    requires j < |w.jobs|
  {
    w.(jobs := w.jobs[j := w.jobs[j].(status := status)])
  }

  ghost function Apply(next: Next, w: World, step: Step): World
    requires Enabled(w, step)
  {
    match step.event
    case TickEvent(page) => Tick(next, w, page, step.now)
    case WorkEvent(j, env, reported) => Work(next, w, j, step.now, env, reported)
    case QueueGivesUp(j) => SetStatus(w, j, Failed)
    case CancelEvent(j) => SetStatus(w, j, Canceled)
    case RunNowEvent(id) => RunNow(w, id, step.now)
    case MonitorEvent(id, monitor, fireCount) => MonitorFires(w, id, monitor, fireCount, step.now)
    case SwitchEvent(id, on) => Switch(next, w, id, on, step.now)
  }

  /** The steps can happen one after another from `w`, at times that never go back. */
  ghost predicate Legal(next: Next, w: World, clock: int, steps: seq<Step>)
    decreases |steps|
  {
    steps == [] || (Enabled(w, steps[0]) && clock <= steps[0].now
                    && Legal(next, Apply(next, w, steps[0]), steps[0].now, steps[1..]))
  }

  ghost function After(next: Next, w: World, clock: int, steps: seq<Step>): World
    requires Legal(next, w, clock, steps)
    decreases |steps|
  {
    if steps == [] then w else After(next, Apply(next, w, steps[0]), steps[0].now, steps[1..])
  }

  /** What the schedule search guarantees: later than asked, and never earlier for a later start. */
  ghost predicate Lawful(next: Next) {
    && (forall id, t :: next(id, t).Some? ==> next(id, t).value > t)
    && (forall id, t, u :: t <= u && next(id, t).Some? && next(id, u).Some? ==>
          next(id, t).value <= next(id, u).value)
  }

  /** The cron search is lawful, whatever the schedules and zones. */
  lemma CronIsLawful(next: Next, cron: nat -> ParsedCron, zone: nat -> Zone)
    requires forall id :: Bounded(zone(id))
    requires forall id, t :: next(id, t).Some? ==> IsNextRun(cron(id), zone(id), t, next(id, t).value)
    ensures Lawful(next)
  {
    hide IsNextRun;
    forall id, t | next(id, t).Some?
      ensures next(id, t).value > t
    {
      assert next(id, t).value > t by {
        AfterStart(cron(id), zone(id), t, next(id, t).value);
      }
    }
    forall id, t, u | t <= u && next(id, t).Some? && next(id, u).Some?
      ensures next(id, t).value <= next(id, u).value
    {
      NextRunMonotone(cron(id), zone(id), t, next(id, t).value, u, next(id, u).value);
    }
  }

  lemma AfterStart(p: ParsedCron, z: Zone, t: int, r: int)
    requires Bounded(z) && IsNextRun(p, z, t, r)
    ensures r > t
  {
  }

  // ----- The queue keeps its shape -----

  ghost predicate JobOk(jobs: seq<Job>, j: nat)
    requires j < |jobs|
  {
    var job := jobs[j];
    && 1 <= job.attempt <= MAX_ATTEMPTS
    && (match job.key
        case SlotKey(a, _) => job.automation == a && job.trigger == Schedule && job.attempt == 1
        case ManualKey(a, _) => job.automation == a && job.trigger == Manual && job.attempt == 1
        case MonitorKey(_, _) => job.trigger == Monitor && job.attempt == 1
        case RetryKey(f, k) =>
          && f < j && job.attempt == k == jobs[f].attempt + 1
          && job.automation == jobs[f].automation && job.trigger == jobs[f].trigger
          && job.trigger != Manual)
    && (job.retryJob.Some? ==>
          j < job.retryJob.value < |jobs| && jobs[job.retryJob.value].key == RetryKey(j, job.attempt + 1))
  }

  predicate Permanent(key: DedupeKey) { key.SlotKey? || key.RetryKey? }

  ghost predicate JobsOk(jobs: seq<Job>) {
    && (forall j: nat :: j < |jobs| ==> JobOk(jobs, j))
    && (forall i, j :: 0 <= i < j < |jobs| && Permanent(jobs[i].key) ==> jobs[i].key != jobs[j].key)
  }

  /** Adding a well-formed job whose permanent key is new keeps the queue well formed. */
  lemma AppendOk(jobs: seq<Job>, job: Job)
    requires JobsOk(jobs) && JobOk(jobs + [job], |jobs|)
    requires Permanent(job.key) ==> forall j :: 0 <= j < |jobs| ==> jobs[j].key != job.key
    ensures JobsOk(jobs + [job])
  {
    var all := jobs + [job];
    forall j: nat | j < |all|
      ensures JobOk(all, j)
    {
      if j < |jobs| {
        assert JobOk(jobs, j);
        assert forall k :: 0 <= k < |jobs| ==> all[k] == jobs[k];
      }
    }
  }

  /** Changing only a job's status, or recording its own retry, keeps the queue well formed. */
  lemma UpdateOk(jobs: seq<Job>, j: nat, status: Status, retry: Option<nat>)
    requires JobsOk(jobs) && j < |jobs|
    requires retry.Some? ==> j < retry.value < |jobs| && jobs[retry.value].key == RetryKey(j, jobs[j].attempt + 1)
    ensures JobsOk(jobs[j := jobs[j].(status := status, retryJob := retry)])
  {
    var all := jobs[j := jobs[j].(status := status, retryJob := retry)];
    assert forall k :: 0 <= k < |jobs| ==> all[k].key == jobs[k].key && all[k].attempt == jobs[k].attempt;
    assert forall k :: 0 <= k < |jobs| ==> all[k].automation == jobs[k].automation && all[k].trigger == jobs[k].trigger;
    forall k: nat | k < |all|
      ensures JobOk(all, k)
    {
      assert JobOk(jobs, k);
    }
  }

  lemma EnqueueForeverOk(jobs: seq<Job>, job: Job)
    requires JobsOk(jobs) && JobOk(jobs + [job], |jobs|)
    ensures JobsOk(EnqueueForever(jobs, job).jobs)
  {
    if FindKey(jobs, job.key).None? {
      AppendOk(jobs, job);
    }
  }

  lemma EnqueueActiveOk(jobs: seq<Job>, job: Job)
    requires JobsOk(jobs) && JobOk(jobs + [job], |jobs|) && !Permanent(job.key)
    ensures JobsOk(EnqueueActive(jobs, job).jobs)
  {
    if FindActive(jobs, job.key).None? {
      AppendOk(jobs, job);
    }
  }

  lemma RetryOk(jobs: seq<Job>, j: nat, now: int)
    requires JobsOk(jobs) && j < |jobs|
    requires ShouldRetry(jobs[j].attempt) && jobs[j].trigger != Manual
    ensures var retry := EnqueueForever(jobs, RetryOf(jobs[j], j, now));
            && JobsOk(retry.jobs) && |jobs| <= |retry.jobs| && retry.jobs[..|jobs|] == jobs
            && j < retry.id < |retry.jobs| && retry.jobs[retry.id].key == RetryKey(j, jobs[j].attempt + 1)
  {
    var job := RetryOf(jobs[j], j, now);
    assert JobOk(jobs, j);
    EnqueueForeverOk(jobs, job);
    var retry := EnqueueForever(jobs, job);
    assert JobOk(retry.jobs, retry.id);
  }

  // ----- One automation's row -----

  /**
   * Switched on means the streak is below the limit; switched off by failures means off; and no
   * next run still to be computed can come before the one that is stored.
   */
  ghost predicate RowOk(next: Next, id: nat, a: Automation, clock: int) {
    && (a.enabled ==> a.consecutiveFailures < DISABLE_AFTER_FAILURES)
    && (a.disabledByFailures ==> !a.enabled)
    && (forall t :: clock <= t && next(id, t).Some? ==> a.nextRunAt <= next(id, t).value)
  }

  /** What any step may do to a row: keep it sound and leave its next run or move it later. */
  ghost predicate RowStep(next: Next, id: nat, a: Automation, a': Automation, now: int) {
    RowOk(next, id, a', now) && a.nextRunAt <= a'.nextRunAt
  }

  lemma RunRowOk(next: Next, id: nat, a: Automation, trigger: Trigger, now: int, env: Env)
    requires Lawful(next) && RowOk(next, id, a, now)
    ensures RowStep(next, id, a, RunRow(next, id, a, trigger, now, env).0, now)
    ensures TriggerPolicy(trigger).preserveSchedule ==>
              RunRow(next, id, a, trigger, now, env).0.nextRunAt == a.nextRunAt
  {
  }

  lemma GiveUpRowOk(next: Next, id: nat, a: Automation, trigger: Trigger, now: int)
    requires Lawful(next) && RowOk(next, id, a, now)
    ensures RowStep(next, id, a, GiveUpRow(next, id, a, trigger, now), now)
    ensures TriggerPolicy(trigger).preserveSchedule ==>
              GiveUpRow(next, id, a, trigger, now).nextRunAt == a.nextRunAt
  {
  }

  // ----- One step -----

  ghost predicate Inv(next: Next, w: World, clock: int) {
    JobsOk(w.jobs) && forall id :: id in w.autos ==> RowOk(next, id, w.autos[id], clock)
  }

  /** The steps that may move an automation's next run. */
  ghost predicate MayMove(w: World, step: Step, id: nat)
    requires Enabled(w, step)
  {
    match step.event
    case TickEvent(page) => id in page && id in w.autos && DeadSlot(w.jobs, id, w.autos[id].nextRunAt)
    case WorkEvent(j, _, _) => w.jobs[j].automation == id && w.jobs[j].trigger == Schedule
    case SwitchEvent(a, on) => a == id && on && id in w.autos && !w.autos[id].enabled
    case _ => false
  }

  /** Rows are only added to or changed soundly, and only the permitted steps move a next run. */
  ghost predicate RowsStep(next: Next, w: World, w': World, step: Step)
    requires Enabled(w, step)
  {
    && w'.autos.Keys == w.autos.Keys
    && forall id :: id in w.autos ==>
         && RowStep(next, id, w.autos[id], w'.autos[id], step.now)
         && (w'.autos[id].nextRunAt != w.autos[id].nextRunAt ==> MayMove(w, step, id))
  }

  lemma LaterClock(next: Next, w: World, clock: int, now: int)
    requires Inv(next, w, clock) && clock <= now
    ensures Inv(next, w, now)
  {
  }

  lemma HandleFailureOk(next: Next, w: World, j: nat, step: Step)
    requires Lawful(next) && Inv(next, w, step.now)
    requires step.event.WorkEvent? && step.event.job == j && Enabled(w, step)
    ensures var (w', retry) := HandleFailure(next, w, j, step.now, step.event.env);
            && JobsOk(w'.jobs) && RowsStep(next, w, w', step)
            && |w.jobs| <= |w'.jobs| && w'.jobs[..|w.jobs|] == w.jobs
            && (retry.Some? ==>
                  j < retry.value < |w'.jobs| && w'.jobs[retry.value].key == RetryKey(j, w.jobs[j].attempt + 1))
  {
    var job := w.jobs[j];
    assert JobOk(w.jobs, j);
    match FailureActionOf(job, step.event.env) {
      case Report =>
      case Retry => RetryOk(w.jobs, j, step.now);
      case GiveUp =>
        if job.automation in w.autos {
          GiveUpRowOk(next, job.automation, w.autos[job.automation], job.trigger, step.now);
        }
    }
  }

  lemma WorkOk(next: Next, w: World, step: Step)
    requires Lawful(next) && Inv(next, w, step.now)
    requires step.event.WorkEvent? && Enabled(w, step)
    ensures var w' := Apply(next, w, step);
            JobsOk(w'.jobs) && RowsStep(next, w, w', step)
  {
    var j, env := step.event.job, step.event.env;
    var job := w.jobs[j];
    var (w', retry) := Execute(next, w, j, step.now, env);
    if job.automation in w.autos {
      RunRowOk(next, job.automation, w.autos[job.automation], job.trigger, step.now, env);
      HandleFailureOk(next, w, j, step);
    }
    assert |w.jobs| <= |w'.jobs| && w'.jobs[..|w.jobs|] == w.jobs;
    assert w'.jobs[j] == w.jobs[j];
    UpdateOk(w'.jobs, j, Completed, retry);
  }

  // ----- The tick -----

  /** The retry links all point at jobs of the queue. */
  lemma LinkIsLater(jobs: seq<Job>, j: nat)
    requires JobsOk(jobs) && j < |jobs|
    ensures LinkOf(jobs, j).Some? ==>
              && j < LinkOf(jobs, j).value < |jobs|
              && jobs[LinkOf(jobs, j).value].key == RetryKey(j, jobs[j].attempt + 1)
              && jobs[LinkOf(jobs, j).value].attempt == jobs[j].attempt + 1
  {
    assert JobOk(jobs, j);
    if LinkOf(jobs, j).Some? {
      assert JobOk(jobs, LinkOf(jobs, j).value);
    }
  }

  /**
   * Following a chain always reaches its end: a job that may still run, or one whose result names
   * no retry. As many links as attempts are left are enough, so two always are, and the limit of
   * ten is never what stops it.
   */
  lemma {:induction false} ChainReachesEnd(jobs: seq<Job>, j: nat, hops: nat, enough: nat)
    requires JobsOk(jobs) && j < |jobs|
    requires enough == MAX_ATTEMPTS - jobs[j].attempt <= hops
    ensures var last := FollowChain(jobs, j, hops);
            && (jobs[last].status == Active || LinkOf(jobs, last).None?)
            && last == FollowChain(jobs, j, enough)
    decreases enough
  {
    assert JobOk(jobs, j);
    LinkIsLater(jobs, j);
    if jobs[j].status != Active && LinkOf(jobs, j).Some? {
      var k := LinkOf(jobs, j).value;
      assert JobOk(jobs, k);
      ChainReachesEnd(jobs, k, hops - 1, enough - 1);
    }
  }

  /** New jobs at the end of the queue do not change where a chain leads. */
  lemma {:induction false} ChainUnchanged(jobs: seq<Job>, more: seq<Job>, j: nat, hops: nat)
    requires JobsOk(jobs) && j < |jobs|
    ensures FollowChain(jobs + more, j, hops) == FollowChain(jobs, j, hops)
    decreases hops
  {
    assert JobOk(jobs, j);
    assert (jobs + more)[j] == jobs[j];
    if hops > 0 && jobs[j].status != Active && LinkOf(jobs, j).Some? {
      ChainUnchanged(jobs, more, LinkOf(jobs, j).value, hops - 1);
    }
  }

  /**
   * A due automation is looked after: its schedule has no next run, or the stored one is now in
   * the future, or its slot has a job whose chain of attempts may still run.
   */
  ghost predicate Covered(next: Next, w: World, id: nat, slot: int, now: int)
    requires id in w.autos
  {
    || next(id, now).None?
    || w.autos[id].nextRunAt > now
    || exists s: nat :: s < |w.jobs| && w.jobs[s].key == SlotKey(id, Minute(slot))
                        && w.jobs[FollowChain(w.jobs, s, MAX_RETRY_CHAIN_HOPS)].status == Active
  }

  lemma CoveredLater(next: Next, w: World, w': World, id: nat, slot: int, now: int)
    requires id in w.autos && id in w'.autos && w'.autos[id] == w.autos[id]
    requires JobsOk(w.jobs) && |w.jobs| <= |w'.jobs| && w'.jobs[..|w.jobs|] == w.jobs
    requires Covered(next, w, id, slot, now)
    ensures Covered(next, w', id, slot, now)
  {
    if next(id, now).Some? && w.autos[id].nextRunAt <= now {
      var s: nat :| s < |w.jobs| && w.jobs[s].key == SlotKey(id, Minute(slot))
                    && w.jobs[FollowChain(w.jobs, s, MAX_RETRY_CHAIN_HOPS)].status == Active;
      ChainUnchanged(w.jobs, w'.jobs[|w.jobs|..], s, MAX_RETRY_CHAIN_HOPS);
      assert w'.jobs == w.jobs + w'.jobs[|w.jobs|..];
      assert w'.jobs[s].key == SlotKey(id, Minute(slot));
    }
  }

  /**
   * What one automation's turn does: one new job at most, its own row at most, which then is covered;
   * and its next run moves exactly when its slot is dead and the schedule goes on.
   */
  lemma ExamineOk(next: Next, w: World, id: nat, now: int)
    requires Lawful(next) && Inv(next, w, now)
    requires id in w.autos && Due(w.autos[id], now)
    ensures var w' := Examine(next, w, id, w.autos[id], now);
            && Inv(next, w', now)
            && |w.jobs| <= |w'.jobs| && w'.jobs[..|w.jobs|] == w.jobs
            && (forall other :: other in w.autos && other != id ==> w'.autos[other] == w.autos[other])
            && (forall k :: |w.jobs| <= k < |w'.jobs| ==> w'.jobs[k].key.SlotKey? && w'.jobs[k].key.automation == id)
            && RowStep(next, id, w.autos[id], w'.autos[id], now)
            && Covered(next, w', id, w.autos[id].nextRunAt, now)
            && (w'.autos[id].nextRunAt != w.autos[id].nextRunAt
                <==> DeadSlot(w.jobs, id, w.autos[id].nextRunAt) && next(id, now).Some?)
  {
    var row := w.autos[id];
    var job := SlotJob(id, row, now);
    assert JobOk(w.jobs + [job], |w.jobs|);
    EnqueueForeverOk(w.jobs, job);
    var slot := EnqueueForever(w.jobs, job);
    if slot.created {
      assert FollowChain(slot.jobs, slot.id, MAX_RETRY_CHAIN_HOPS) == slot.id;
    } else {
      assert slot.jobs == w.jobs;
    }
    assert slot.jobs[slot.id].key == SlotKey(id, Minute(row.nextRunAt));
    if DeadSlot(w.jobs, id, row.nextRunAt) {
      var s: nat :| s < |w.jobs| && w.jobs[s].key == SlotKey(id, Minute(row.nextRunAt))
                    && w.jobs[FollowChain(w.jobs, s, MAX_RETRY_CHAIN_HOPS)].status != Active;
      SlotJobUnique(w.jobs, s, slot.id);
    }
  }

  /** A dead slot in a queue that has only grown by other automations' slot jobs was dead before. */
  lemma DeadBefore(jobs: seq<Job>, more: seq<Job>, id: nat, slot: int)
    requires JobsOk(jobs) && DeadSlot(jobs + more, id, slot)
    requires forall k :: 0 <= k < |more| ==> more[k].key.SlotKey? && more[k].key.automation != id
    ensures DeadSlot(jobs, id, slot)
  {
    hide JobsOk;
    var all := jobs + more;
    assert forall i: nat :: |jobs| <= i < |all| ==> all[i] == more[i - |jobs|];
    assert forall i: nat :: |jobs| <= i < |all| ==> all[i].key != SlotKey(id, Minute(slot));
    var s: nat :| s < |all| && all[s].key == SlotKey(id, Minute(slot))
                  && all[FollowChain(all, s, MAX_RETRY_CHAIN_HOPS)].status != Active;
    ChainUnchanged(jobs, more, s, MAX_RETRY_CHAIN_HOPS);
    assert all[s] == jobs[s];
  }

  lemma DeadFromTheStart(jobs: seq<Job>, later: seq<Job>, id: nat, slot: int)
    requires JobsOk(jobs) && DeadSlot(later, id, slot) && jobs <= later
    requires forall k :: |jobs| <= k < |later| ==> later[k].key.SlotKey? && later[k].key.automation != id
    ensures DeadSlot(jobs, id, slot)
  {
    hide JobsOk, DeadSlot;
    var more := later[|jobs|..];
    assert later == jobs + more;
    assert forall k :: 0 <= k < |more| ==> more[k] == later[|jobs| + k];
    DeadBefore(jobs, more, id, slot);
  }

  /** The whole tick: every row of the page is covered, and nothing else changes. */
  lemma {:induction false} ExamineAllOk(next: Next, w: World, page: seq<nat>, now: int)
    requires Lawful(next) && Inv(next, w, now)
    requires forall k :: 0 <= k < |page| ==> page[k] in w.autos && Due(w.autos[page[k]], now)
    requires forall j, k :: 0 <= j < k < |page| ==> page[j] != page[k]
    ensures var w' := ExamineAll(next, w, w.autos, page, now);
            && Inv(next, w', now)
            && |w.jobs| <= |w'.jobs| && w'.jobs[..|w.jobs|] == w.jobs
            && (forall id :: id in w.autos && id !in page ==> w'.autos[id] == w.autos[id])
            && (forall k :: |w.jobs| <= k < |w'.jobs| ==> w'.jobs[k].key.SlotKey? && w'.jobs[k].key.automation in page)
            && (forall id :: id in page ==> RowStep(next, id, w.autos[id], w'.autos[id], now)
                                            && Covered(next, w', id, w.autos[id].nextRunAt, now))
            && (forall id :: id in page && w'.autos[id].nextRunAt != w.autos[id].nextRunAt ==>
                  DeadSlot(w.jobs, id, w.autos[id].nextRunAt))
    decreases |page|
  {
    hide Examine, Covered, RowOk, JobsOk, Lawful, DeadSlot, RowStep, FollowChain;
    if |page| > 0 {
      var front, last := page[..|page| - 1], page[|page| - 1];
      assert page == front + [last];
      ExamineAllOk(next, w, front, now);
      var mid := ExamineAll(next, w, w.autos, front, now);
      assert last !in front;
      ExamineOk(next, mid, last, now);
      var w' := Examine(next, mid, last, w.autos[last], now);
      assert w' == ExamineAll(next, w, w.autos, page, now);
      forall id | id in front
        ensures RowStep(next, id, w.autos[id], w'.autos[id], now) && Covered(next, w', id, w.autos[id].nextRunAt, now)
      {
        CoveredLater(next, mid, w', id, w.autos[id].nextRunAt, now);
      }
      assert w'.jobs[..|w.jobs|] == (w'.jobs[..|mid.jobs|])[..|w.jobs|];
      if w'.autos[last].nextRunAt != w.autos[last].nextRunAt {
        DeadFromTheStart(w.jobs, mid.jobs, last, w.autos[last].nextRunAt);
      }
      forall k | |w.jobs| <= k < |w'.jobs|
        ensures w'.jobs[k].key.SlotKey? && w'.jobs[k].key.automation in page
      {
        assert k < |mid.jobs| ==> w'.jobs[k] == w'.jobs[..|mid.jobs|][k] == mid.jobs[k];
      }
    }
  }

  /**
   * After a tick every automation it examined either has a job of its slot that may still run or
   * a next run in the future, if its schedule has a next run at all.
   */
  lemma TickCovers(next: Next, w: World, page: seq<nat>, now: int)
    requires Lawful(next) && Inv(next, w, now) && IsDuePage(w.autos, now, page)
    ensures forall id :: id in page ==> Covered(next, Tick(next, w, page, now), id, w.autos[id].nextRunAt, now)
  {
    ExamineAllOk(next, w, page, now);
  }

  /**
   * What an entry of the report says: a job was created exactly when the slot had none; the slot was
   * skipped, and its schedule moved on, exactly when it was dead and there is a next run; the job
   * named is the slot's own, or the one its chain ended with when the slot was skipped.
   */
  ghost predicate Reported(next: Next, w: World, w': World, id: nat, now: int, e: Entry)
    requires id in w.autos && id in w'.autos
  {
    var slot := w.autos[id].nextRunAt;
    && e.automation == id && e.job < |w'.jobs|
    && (e.created <==> forall k :: 0 <= k < |w.jobs| ==> w.jobs[k].key != SlotKey(id, Minute(slot)))
    && (e.skipped <==> DeadSlot(w.jobs, id, slot) && next(id, now).Some?)
    && (e.skipped <==> w'.autos[id].nextRunAt != slot)
    && (!e.skipped ==> w'.jobs[e.job].key == SlotKey(id, Minute(slot)))
    && (e.created ==> w'.jobs[e.job] == Job(id, Schedule, 1, SlotKey(id, slot / 60_000), now, Active, None))
    && (e.skipped ==> IsChainEnd(w.jobs, id, slot, e.job) && w'.jobs[e.job].status != Active)
  }

  /** The chain of the slot's job ends with this one. */
  ghost predicate IsChainEnd(jobs: seq<Job>, id: nat, slot: int, j: nat) {
    exists s: nat :: s < |jobs| && jobs[s].key == SlotKey(id, Minute(slot))
                     && j == FollowChain(jobs, s, MAX_RETRY_CHAIN_HOPS)
  }

  lemma EntryMeans(next: Next, w: World, id: nat, now: int)
    requires Lawful(next) && Inv(next, w, now) && id in w.autos && Due(w.autos[id], now)
    ensures Reported(next, w, Examine(next, w, id, w.autos[id], now), id, now, EntryOf(next, w, id, w.autos[id], now))
  {
    hide Lawful, RowOk, JobOk;
    var (row, w') := (w.autos[id], Examine(next, w, id, w.autos[id], now));
    ExamineOk(next, w, id, now);
    if FindKey(w.jobs, SlotKey(id, Minute(row.nextRunAt))).Some? {
      var s := FindKey(w.jobs, SlotKey(id, Minute(row.nextRunAt))).value;
      OneSlotJob(w.jobs, s, id, row.nextRunAt);
      assert w'.jobs == w.jobs;
    }
  }

  /** Other automations' slot jobs, queued in between, do not change what an entry says. */
  lemma EntryFromStart(next: Next, w: World, mid: World, w': World, id: nat, now: int, e: Entry)
    requires JobsOk(w.jobs) && |w.jobs| <= |mid.jobs| && mid.jobs[..|w.jobs|] == w.jobs
    requires id in w.autos && id in mid.autos && id in w'.autos && w.autos[id] == mid.autos[id]
    requires forall k :: |w.jobs| <= k < |mid.jobs| ==> mid.jobs[k].key.SlotKey? && mid.jobs[k].key.automation != id
    requires Reported(next, mid, w', id, now, e)
    ensures Reported(next, w, w', id, now, e)
  {
    hide JobsOk, DeadSlot, IsChainEnd, FollowChain;
    var slot, more := w.autos[id].nextRunAt, mid.jobs[|w.jobs|..];
    assert mid.jobs == w.jobs + more;
    assert forall k :: 0 <= k < |more| ==> more[k] == mid.jobs[|w.jobs| + k];
    assert forall k :: 0 <= k < |w.jobs| ==> w.jobs[k] == mid.jobs[k];
    DeadFromStart(w.jobs, more, id, slot);
    EndFromStart(w.jobs, more, id, slot, e.job);
  }

  lemma DeadFromStart(jobs: seq<Job>, more: seq<Job>, id: nat, slot: int)
    requires JobsOk(jobs) && forall k :: 0 <= k < |more| ==> more[k].key.SlotKey? && more[k].key.automation != id
    ensures DeadSlot(jobs, id, slot) <==> DeadSlot(jobs + more, id, slot)
  {
    hide JobsOk;
    if DeadSlot(jobs + more, id, slot) {
      DeadBefore(jobs, more, id, slot);
    }
    if s: nat :| s < |jobs| && jobs[s].key == SlotKey(id, Minute(slot))
                 && jobs[FollowChain(jobs, s, MAX_RETRY_CHAIN_HOPS)].status != Active {
      ChainUnchanged(jobs, more, s, MAX_RETRY_CHAIN_HOPS);
      assert (jobs + more)[s] == jobs[s];
    }
  }

  lemma EndFromStart(jobs: seq<Job>, more: seq<Job>, id: nat, slot: int, j: nat)
    requires JobsOk(jobs) && forall k :: 0 <= k < |more| ==> more[k].key.SlotKey? && more[k].key.automation != id
    ensures IsChainEnd(jobs + more, id, slot, j) ==> IsChainEnd(jobs, id, slot, j)
  {
    hide JobsOk;
    var all := jobs + more;
    assert forall k :: |jobs| <= k < |all| ==> all[k] == more[k - |jobs|];
    if s: nat :| s < |all| && all[s].key == SlotKey(id, Minute(slot))
                 && j == FollowChain(all, s, MAX_RETRY_CHAIN_HOPS) {
      ChainUnchanged(jobs, more, s, MAX_RETRY_CHAIN_HOPS);
    }
  }

  /** What an entry says stays true while other automations have their turn. */
  lemma ReportedLater(next: Next, w: World, mid: World, w': World, id: nat, now: int, e: Entry)
    requires id in w.autos && id in mid.autos && id in w'.autos && w'.autos[id] == mid.autos[id]
    requires |mid.jobs| <= |w'.jobs| && w'.jobs[..|mid.jobs|] == mid.jobs
    requires Reported(next, w, mid, id, now, e)
    ensures Reported(next, w, w', id, now, e)
  {
    hide DeadSlot, IsChainEnd;
    assert w'.jobs[e.job] == w'.jobs[..|mid.jobs|][e.job] == mid.jobs[e.job];
  }

  /** Every entry of a tick's report says what became of its automation between the tick's start and its end. */
  lemma {:induction false} TickReports(next: Next, w: World, page: seq<nat>, now: int, i: nat)
    requires Lawful(next) && Inv(next, w, now) && i < |page|
    requires forall k :: 0 <= k < |page| ==> page[k] in w.autos && Due(w.autos[page[k]], now)
    requires forall j, k :: 0 <= j < k < |page| ==> page[j] != page[k]
    ensures Reported(next, w, ExamineAll(next, w, w.autos, page, now), page[i], now,
                     TickReport(next, w, w.autos, page, now)[i])
    decreases |page|
  {
    hide Examine, EntryOf, RowOk, JobsOk, Lawful, DeadSlot, Covered, RowStep, IsChainEnd, Reported, Inv;
    var front, last := page[..|page| - 1], page[|page| - 1];
    assert page == front + [last];
    var mid := ExamineAll(next, w, w.autos, front, now);
    ExamineAllOk(next, w, front, now);
    assert last !in front;
    ExamineOk(next, mid, last, now);
    var w' := Examine(next, mid, last, w.autos[last], now);
    if i < |front| {
      TickReports(next, w, front, now, i);
      ReportedLater(next, w, mid, w', front[i], now, TickReport(next, w, w.autos, front, now)[i]);
    } else {
      EntryMeans(next, mid, last, now);
      InvJobs(next, w, now);
      EntryFromStart(next, w, mid, w', last, now, EntryOf(next, mid, last, w.autos[last], now));
    }
  }

  // ----- Every step -----

  lemma SameRows(next: Next, w: World, w': World, step: Step)
    requires Inv(next, w, step.now) && Enabled(w, step) && w'.autos == w.autos
    ensures RowsStep(next, w, w', step)
  {
  }

  lemma SwitchOk(next: Next, w: World, step: Step)
    requires Lawful(next) && Inv(next, w, step.now)
    requires step.event.SwitchEvent? && Enabled(w, step)
    ensures Inv(next, Apply(next, w, step), step.now)
    ensures RowsStep(next, w, Apply(next, w, step), step)
  {
    hide JobsOk, RowOk, Lawful;
    var id, w' := step.event.id, Apply(next, w, step);
    SameRow(next, w, step.now);
    if id in w.autos {
      SwitchRowOk(next, id, w.autos[id], step.now);
    }
    assert forall other :: other in w.autos && other != id ==> w'.autos[other] == w.autos[other];
  }

  lemma SameRow(next: Next, w: World, now: int)
    requires Inv(next, w, now)
    ensures forall id :: id in w.autos ==> RowStep(next, id, w.autos[id], w.autos[id], now)
  {
    hide RowOk;
  }

  /** Switched off, still on with the streak cleared, or back on from the next run. */
  lemma SwitchRowOk(next: Next, id: nat, a: Automation, now: int)
    requires Lawful(next) && RowOk(next, id, a, now)
    ensures RowStep(next, id, a, a.(enabled := false, disabledByFailures := false), now)
    ensures RowStep(next, id, a, ResetFailures(a), now)
    ensures next(id, now).Some? ==>
              RowStep(next, id, a, ResetFailures(a.(enabled := true, nextRunAt := next(id, now).value)), now)
  {
  }

  /** Every step keeps the invariant, and moves a next run only forward and only when allowed. */
  lemma StepOk(next: Next, w: World, clock: int, step: Step)
    requires Lawful(next) && Inv(next, w, clock)
    requires clock <= step.now && Enabled(w, step)
    ensures Inv(next, Apply(next, w, step), step.now)
    ensures RowsStep(next, w, Apply(next, w, step), step)
  {
    LaterClock(next, w, clock, step.now);
    match step.event {
      case TickEvent(page) =>
        ExamineAllOk(next, w, page, step.now);
      case WorkEvent(_, _, _) =>
        WorkOk(next, w, step);
      case QueueGivesUp(j) =>
        assert JobOk(w.jobs, j);
        UpdateOk(w.jobs, j, Failed, w.jobs[j].retryJob);
      case CancelEvent(j) =>
        assert JobOk(w.jobs, j);
        UpdateOk(w.jobs, j, Canceled, w.jobs[j].retryJob);
      case RunNowEvent(id) =>
        var job := Job(id, Manual, 1, ManualKey(id, Minute(step.now)), step.now, Active, None);
        EnqueueActiveOk(w.jobs, job);
        SameRows(next, w, Apply(next, w, step), step);
      case MonitorEvent(id, monitor, fireCount) =>
        var job := Job(id, Monitor, 1, MonitorKey(monitor, fireCount), step.now, Active, None);
        EnqueueActiveOk(w.jobs, job);
        SameRows(next, w, Apply(next, w, step), step);
      case SwitchEvent(_, _) =>
        SwitchOk(next, w, step);
    }
  }

  /** A page holds the earliest of the due rows, at most twenty-five, and leaves one out only when it is full. */
  lemma PageIs(autos: map<nat, Automation>, now: int, page: seq<nat>, id: nat)
    requires IsDuePage(autos, now, page)
    ensures |page| <= 25
    ensures id in page ==> id in autos && autos[id].enabled && autos[id].nextRunAt <= now
    ensures id in autos && autos[id].enabled && autos[id].nextRunAt <= now && id !in page ==>
              && |page| == 25
              && forall k :: 0 <= k < |page| ==>
                   page[k] in autos && autos[page[k]].nextRunAt <= autos[id].nextRunAt
  {
  }

  // ----- What a step decides -----

  /** The automation of a job that is executed, and the row it finds. */
  ghost predicate Executes(w: World, step: Step, id: nat) {
    && Enabled(w, step) && step.event.WorkEvent?
    && w.jobs[step.event.job].automation == id && id in w.autos
  }

  /** The row lets the run through: it is switched on, or a person asked. */
  ghost predicate LetThrough(w: World, step: Step, id: nat)
    requires Executes(w, step, id)
  {
    w.autos[id].enabled || w.jobs[step.event.job].trigger == Manual
  }

  /** The run was neither held up nor did it work out; a scheduled one needs a next run too. */
  ghost predicate Fails(next: Next, w: World, step: Step, id: nat)
    requires Executes(w, step, id)
  {
    var env, scheduled := step.event.env, w.jobs[step.event.job].trigger == Schedule;
    LetThrough(w, step, id) && !env.paused && !env.overBudget && (!env.works || (scheduled && next(id, step.now).None?))
  }

  /** A failed run that a later attempt makes up for. */
  ghost predicate IsRetried(w: World, step: Step)
    requires Enabled(w, step) && step.event.WorkEvent?
  {
    var job := w.jobs[step.event.job];
    job.trigger != Manual && 1 <= job.attempt <= 2 && !step.event.env.enqueueFails
  }

  /**
   * The schedule moves on: whenever a scheduled run has worked, was held up or is given up on, the
   * next run is the schedule's next after now, so the row is no longer due. No other run moves it.
   */
  lemma ScheduleMoves(next: Next, w: World, step: Step, id: nat)
    requires Lawful(next) && Executes(w, step, id)
    ensures var w' := Apply(next, w, step); id in w'.autos
    ensures var (a, a', job) := (w.autos[id], Apply(next, w, step).autos[id], w.jobs[step.event.job]);
            && (job.trigger == Schedule && LetThrough(w, step, id) && next(id, step.now).Some?
                && (Fails(next, w, step, id) ==> !IsRetried(w, step)) ==>
                  next(id, step.now) == Some(a'.nextRunAt) && a'.nextRunAt > step.now && !Due(a', step.now))
            && (job.trigger != Schedule || !LetThrough(w, step, id) ==> a'.nextRunAt == a.nextRunAt)
            && (Fails(next, w, step, id) && IsRetried(w, step) ==> a'.nextRunAt == a.nextRunAt)
            && (next(id, step.now).None? ==> a'.nextRunAt == a.nextRunAt)
  {
  }

  /** What becomes of the rest of the row. */
  lemma RunDecides(next: Next, w: World, step: Step, id: nat)
    requires Executes(w, step, id)
    ensures var (w', env) := (Apply(next, w, step), step.event.env);
            && w'.autos.Keys == w.autos.Keys
            && (forall other :: other in w.autos && other != id ==> w'.autos[other] == w.autos[other])
            && var (a, a') := (w.autos[id], w'.autos[id]);
               var moved := a.(nextRunAt := a'.nextRunAt);
               && (!LetThrough(w, step, id) ==> a' == a)
               && (LetThrough(w, step, id) && env.paused ==> a' == moved)
               && (LetThrough(w, step, id) && !env.paused && env.overBudget ==>
                     a' == moved.(lastRunAt := Some(step.now)))
               && (LetThrough(w, step, id) && !env.paused && !env.overBudget && !Fails(next, w, step, id) ==>
                     a' == moved.(lastRunAt := Some(step.now), consecutiveFailures := 0, disabledByFailures := false))
  {
  }

  /** What becomes of the row when the run fails: a person's own or a retried one leaves it; else the streak grows. */
  lemma FailureDecides(next: Next, w: World, step: Step, id: nat)
    requires Executes(w, step, id) && Fails(next, w, step, id)
    ensures var (w', job) := (Apply(next, w, step), w.jobs[step.event.job]);
            && id in w'.autos
            && var (a, a') := (w.autos[id], w'.autos[id]);
               && (job.trigger == Manual || IsRetried(w, step) ==> a' == a)
               && (job.trigger != Manual && !IsRetried(w, step) ==>
                     && a'.consecutiveFailures == a.consecutiveFailures + 1
                     && a'.lastRunAt == (if job.trigger == Schedule && next(id, step.now).Some?
                                         then Some(step.now) else a.lastRunAt)
                     && (a.enabled && a.consecutiveFailures >= 4 ==> !a'.enabled && a'.disabledByFailures)
                     && (!(a.enabled && a.consecutiveFailures >= 4) ==>
                           a'.enabled == a.enabled && a'.disabledByFailures == a.disabledByFailures))
  {
  }

  /**
   * The queue after an execution: at most a retry is added, for a failure that is retried, one minute
   * after the first attempt and five after the second; a report completes the job and names it.
   */
  lemma ExecutionQueues(next: Next, w: World, step: Step, id: nat)
    requires Executes(w, step, id)
    ensures var (jobs, jobs', j, reported) := (w.jobs, Apply(next, w, step).jobs, step.event.job, step.event.reported);
            var key := RetryKey(j, jobs[j].attempt + 1);
            && |jobs| <= |jobs'| <= |jobs| + 1
            && (forall k :: 0 <= k < |jobs| && k != j ==> jobs'[k] == jobs[k])
            && (|jobs'| > |jobs| <==>
                  Fails(next, w, step, id) && IsRetried(w, step) && forall k :: 0 <= k < |jobs| ==> jobs[k].key != key)
            && (|jobs'| > |jobs| ==>
                  jobs'[|jobs|] == Job(id, jobs[j].trigger, jobs[j].attempt + 1, key,
                                       step.now + (if jobs[j].attempt == 1 then 60_000 else 300_000), Active, None))
            && jobs'[j].key == jobs[j].key && jobs'[j].status == (if reported then Completed else jobs[j].status)
            && (reported && Fails(next, w, step, id) && IsRetried(w, step) ==>
                  jobs'[j].retryJob.Some? && jobs'[j].retryJob.value < |jobs'|
                  && jobs'[jobs'[j].retryJob.value].key == key)
            && (reported && !(Fails(next, w, step, id) && IsRetried(w, step)) ==> jobs'[j].retryJob == None)
  {
  }

  /** What a person's own run or a monitor adds: a first attempt, unless the same is queued or running. */
  lemma AskedFor(next: Next, w: World, step: Step)
    requires Enabled(w, step) && (step.event.RunNowEvent? || step.event.MonitorEvent?)
    ensures var (id, w') := (step.event.id, Apply(next, w, step));
            var (trigger, key) := if step.event.RunNowEvent? then (Manual, ManualKey(id, step.now / 60_000))
                                  else (Monitor, MonitorKey(step.event.monitor, step.event.fireCount));
            && w'.autos == w.autos
            && if id in w.autos && (w.autos[id].enabled || trigger == Manual)
                  && forall k :: 0 <= k < |w.jobs| ==> w.jobs[k].key != key || w.jobs[k].status != Active
               then w'.jobs == w.jobs + [Job(id, trigger, 1, key, step.now, Active, None)]
               else w'.jobs == w.jobs
  {
  }

  /** The switch: on again, a row gets the schedule's next run and a clean record; it stays off if there is none. */
  lemma SwitchDecides(next: Next, w: World, id: nat, on: bool, now: int)
    requires id in w.autos
    ensures var w' := Apply(next, w, Step(SwitchEvent(id, on), now));
            && w'.jobs == w.jobs && w'.autos.Keys == w.autos.Keys
            && (forall other :: other in w.autos && other != id ==> w'.autos[other] == w.autos[other])
            && var (a, a') := (w.autos[id], w'.autos[id]);
               && (!on ==> a' == a.(enabled := false, disabledByFailures := false))
               && (on && !a.enabled && next(id, now).None? ==> a' == a)
               && (on && (a.enabled || next(id, now).Some?) ==>
                     && a'.enabled && a'.consecutiveFailures == 0 && !a'.disabledByFailures
                     && a'.lastRunAt == a.lastRunAt
                     && a'.nextRunAt == if a.enabled then a.nextRunAt else next(id, now).value)
  {
  }

  // ----- Whole runs -----

  /** A new system: no jobs, and automations as they are created. */
  ghost predicate Start(next: Next, w: World, clock: int) {
    && w.jobs == []
    && forall id :: id in w.autos ==>
         && w.autos[id].consecutiveFailures == 0 && !w.autos[id].disabledByFailures
         && exists t :: t <= clock && next(id, t) == Some(w.autos[id].nextRunAt)
  }

  lemma StartOk(next: Next, w: World, clock: int)
    requires Lawful(next) && Start(next, w, clock)
    ensures Inv(next, w, clock)
  {
    forall id | id in w.autos
      ensures RowOk(next, id, w.autos[id], clock)
    {
      var t :| t <= clock && next(id, t) == Some(w.autos[id].nextRunAt);
    }
  }

  ghost function ClockAfter(clock: int, steps: seq<Step>): int {
    if steps == [] then clock else steps[|steps| - 1].now
  }

  /**
   * Over any run: an enabled automation's streak is below the limit, only a switched-off one is
   * marked as disabled by failures, no next run moves backward, and the queue keeps its shape.
   */
  lemma {:induction false} RunIsSafe(next: Next, w: World, clock: int, steps: seq<Step>)
    requires Lawful(next) && Inv(next, w, clock)
    requires Legal(next, w, clock, steps)
    ensures var w' := After(next, w, clock, steps);
            && Inv(next, w', ClockAfter(clock, steps))
            && w'.autos.Keys == w.autos.Keys
            && forall id :: id in w.autos ==> w.autos[id].nextRunAt <= w'.autos[id].nextRunAt
    decreases |steps|
  {
    if steps != [] {
      hide Inv, Enabled, RowOk, Lawful;
      StepOk(next, w, clock, steps[0]);
      RunIsSafe(next, Apply(next, w, steps[0]), steps[0].now, steps[1..]);
    }
  }

  /** A run whose steps never may move an automation's next run leaves it where it was. */
  lemma {:induction false} ScheduleUntouched(next: Next, w: World, clock: int, steps: seq<Step>, id: nat)
    requires Lawful(next) && Inv(next, w, clock) && id in w.autos
    requires Legal(next, w, clock, steps)
    requires NeverMoves(next, w, clock, steps, id)
    ensures id in After(next, w, clock, steps).autos
    ensures After(next, w, clock, steps).autos[id].nextRunAt == w.autos[id].nextRunAt
    decreases |steps|
  {
    if steps != [] {
      hide Inv, Enabled, RowOk, Lawful, MayMove;
      StepOk(next, w, clock, steps[0]);
      ScheduleUntouched(next, Apply(next, w, steps[0]), steps[0].now, steps[1..], id);
    }
  }

  ghost predicate NeverMoves(next: Next, w: World, clock: int, steps: seq<Step>, id: nat)
    requires Legal(next, w, clock, steps)
    decreases |steps|
  {
    steps == [] || (!MayMove(w, steps[0], id)
                    && NeverMoves(next, Apply(next, w, steps[0]), steps[0].now, steps[1..], id))
  }

  // ----- Slots and their chains -----

  /** The job a chain of attempts started from. */
  ghost function Root(jobs: seq<Job>, j: nat): (r: nat)
    requires JobsOk(jobs) && j < |jobs|
    ensures r <= j && jobs[r].attempt == 1 && !jobs[r].key.RetryKey?
    decreases j
  {
    assert JobOk(jobs, j);
    if jobs[j].key.RetryKey? then Root(jobs, jobs[j].key.failed) else j
  }

  /** A slot has one job ever. */
  lemma SlotJobUnique(jobs: seq<Job>, i: nat, j: nat)
    requires JobsOk(jobs) && i < |jobs| && j < |jobs|
    requires jobs[i].key.SlotKey? && jobs[i].key == jobs[j].key
    ensures i == j
  {
  }

  /** A failed job has one retry ever. */
  lemma RetryUnique(jobs: seq<Job>, i: nat, j: nat)
    requires JobsOk(jobs) && i < |jobs| && j < |jobs|
    requires jobs[i].key.RetryKey? && jobs[j].key.RetryKey? && jobs[i].key.failed == jobs[j].key.failed
    ensures i == j
  {
    assert JobOk(jobs, i) && JobOk(jobs, j);
  }

  /** Exactly the retries have an attempt number above one. */
  lemma RetriesAreLater(jobs: seq<Job>, j: nat)
    requires JobsOk(jobs) && j < |jobs|
    ensures 1 <= jobs[j].attempt <= MAX_ATTEMPTS
    ensures jobs[j].key.RetryKey? <==> jobs[j].attempt >= 2
  {
    assert JobOk(jobs, j);
    if jobs[j].key.RetryKey? {
      assert JobOk(jobs, jobs[j].key.failed);
    }
  }

  /**
   * The jobs of a slot form one path, whatever was re-delivered, lost or canceled: two jobs of
   * one chain have different attempt numbers, all within the limit, and the one with the lower
   * number has been retried.
   */
  lemma {:induction false} ChainIsAPath(jobs: seq<Job>, i: nat, j: nat)
    requires JobsOk(jobs) && i < |jobs| && j < |jobs|
    requires Root(jobs, i) == Root(jobs, j)
    requires jobs[i].attempt <= jobs[j].attempt
    ensures 1 <= jobs[i].attempt <= jobs[j].attempt <= MAX_ATTEMPTS
    ensures jobs[i].attempt == jobs[j].attempt <==> i == j
    ensures i != j ==> exists k :: 0 <= k < |jobs| && jobs[k].key == RetryKey(i, jobs[i].attempt + 1)
    decreases j
  {
    assert JobOk(jobs, i) && JobOk(jobs, j);
    RetriesAreLater(jobs, i);
    RetriesAreLater(jobs, j);
    if i != j {
      var before := jobs[j].key.failed;
      if jobs[i].attempt == jobs[j].attempt {
        ChainIsAPath(jobs, jobs[i].key.failed, before);
        RetryUnique(jobs, i, j);
      } else if before == i {
        assert jobs[j].key == RetryKey(i, jobs[i].attempt + 1);
      } else {
        ChainIsAPath(jobs, i, before);
      }
    }
  }

  // ----- Where a chain really ends -----

  /** The retry a job's failure queued, if it queued one. */
  ghost function RetryFor(jobs: seq<Job>, j: nat): (r: Option<nat>)
    requires j < |jobs|
  {
    FindKey(jobs, RetryKey(j, jobs[j].attempt + 1))
  }

  lemma RetryIsLater(jobs: seq<Job>, j: nat)
    requires JobsOk(jobs) && j < |jobs|
    ensures RetryFor(jobs, j).Some? ==>
              var k := RetryFor(jobs, j).value;
              && j < k < |jobs| && jobs[k].attempt == jobs[j].attempt + 1
              && jobs[k].key == RetryKey(j, jobs[j].attempt + 1)
    ensures LinkOf(jobs, j).Some? ==> RetryFor(jobs, j) == LinkOf(jobs, j)
  {
    assert JobOk(jobs, j);
    if RetryFor(jobs, j).Some? {
      assert JobOk(jobs, RetryFor(jobs, j).value);
    }
    if LinkOf(jobs, j).Some? {
      RetryUnique(jobs, LinkOf(jobs, j).value, RetryFor(jobs, j).value);
    }
  }

  /** The newest attempt of the path a job is on. */
  ghost function TrueEnd(jobs: seq<Job>, j: nat): (r: nat)
    requires JobsOk(jobs) && j < |jobs|
    ensures j <= r < |jobs| && RetryFor(jobs, r).None?
    decreases |jobs| - j
  {
    RetryIsLater(jobs, j);
    match RetryFor(jobs, j)
    case None => j
    case Some(k) => TrueEnd(jobs, k)
  }

  /** From a job on, every attempt that was retried is completed and its result names the retry. */
  ghost predicate PathLinked(jobs: seq<Job>, j: nat)
    requires JobsOk(jobs) && j < |jobs|
    decreases |jobs| - j
  {
    RetryIsLater(jobs, j);
    match RetryFor(jobs, j)
    case None => true
    case Some(k) => LinkOf(jobs, j) == Some(k) && PathLinked(jobs, k)
  }

  /**
   * Following a chain arrives at the newest attempt exactly when every attempt before it is completed
   * with its retry in the result: none failed, was canceled, still counts as running, or completed
   * otherwise after its retry was queued.
   */
  lemma {:induction false} ChainReachesTrueEnd(jobs: seq<Job>, j: nat, hops: nat)
    requires JobsOk(jobs) && j < |jobs| && MAX_ATTEMPTS - jobs[j].attempt <= hops
    ensures FollowChain(jobs, j, hops) == TrueEnd(jobs, j) <==> PathLinked(jobs, j)
    decreases |jobs| - j
  {
    hide JobsOk;
    RetryIsLater(jobs, j);
    JobInLimit(jobs, j);
    if RetryFor(jobs, j).Some? {
      var k := RetryFor(jobs, j).value;
      JobInLimit(jobs, k);
      if LinkOf(jobs, j) == Some(k) {
        ChainReachesTrueEnd(jobs, k, hops - 1);
      }
    }
  }

  lemma JobInLimit(jobs: seq<Job>, j: nat)
    requires JobsOk(jobs) && j < |jobs|
    ensures 1 <= jobs[j].attempt <= MAX_ATTEMPTS
  {
    assert JobOk(jobs, j);
  }

  /** A job whose retry is queued, that is over, and whose result does not say so. */
  ghost predicate Broken(jobs: seq<Job>, j: nat)
    requires j < |jobs|
  {
    RetryFor(jobs, j).Some? && jobs[j].status != Active && LinkOf(jobs, j) != RetryFor(jobs, j)
  }

  /** The first job on the path that stops the walk short, if one does before a job that still counts as running. */
  ghost predicate BreaksOff(jobs: seq<Job>, j: nat)
    requires JobsOk(jobs) && j < |jobs|
    decreases |jobs| - j
  {
    RetryIsLater(jobs, j);
    Broken(jobs, j) || (LinkOf(jobs, j).Some? && BreaksOff(jobs, LinkOf(jobs, j).value))
  }

  /**
   * A slot whose newest attempt may still run is taken for dead exactly when the walk meets a broken
   * job: that is when the schedule moves past a slot with a retry still to come.
   */
  lemma {:induction false} LiveRetryMissed(jobs: seq<Job>, j: nat, hops: nat)
    requires JobsOk(jobs) && j < |jobs| && MAX_ATTEMPTS - jobs[j].attempt <= hops
    requires jobs[TrueEnd(jobs, j)].status == Active
    ensures jobs[FollowChain(jobs, j, hops)].status != Active <==> BreaksOff(jobs, j)
    decreases |jobs| - j
  {
    hide JobsOk;
    RetryIsLater(jobs, j);
    JobInLimit(jobs, j);
    if RetryFor(jobs, j).Some? {
      var k := RetryFor(jobs, j).value;
      JobInLimit(jobs, k);
      if LinkOf(jobs, j).Some? {
        LiveRetryMissed(jobs, k, hops - 1);
      }
    }
  }

  /**
   * The steps that break a job's link: after its retry was queued it fails in the queue, is canceled,
   * or is delivered again and reported with another result.
   */
  ghost predicate Breaks(next: Next, w: World, step: Step, j: nat)
    requires Enabled(w, step) && j < |w.jobs|
  {
    && RetryFor(w.jobs, j).Some? && !Broken(w.jobs, j)
    && match step.event
       case QueueGivesUp(i) => i == j
       case CancelEvent(i) => i == j
       case WorkEvent(i, env, reported) => i == j && reported && Execute(next, w, j, step.now, env).1.None?
       case _ => false
  }

  lemma {:induction false} FindKeyStays(jobs: seq<Job>, jobs': seq<Job>, key: DedupeKey)
    requires |jobs| <= |jobs'|
    requires forall k :: 0 <= k < |jobs| ==> jobs'[k].key == jobs[k].key
    requires forall k :: |jobs| <= k < |jobs'| ==> jobs'[k].key != key
    ensures FindKey(jobs', key) == FindKey(jobs, key)
    decreases |jobs'|
  {
    if |jobs'| > |jobs| {
      FindKeyStays(jobs, jobs'[..|jobs'| - 1], key);
    } else if jobs != [] {
      FindKeyStays(jobs[..|jobs| - 1], jobs'[..|jobs'| - 1], key);
    }
  }

  /** What a step does to a job that is there: its status, and its result when it is reported. */
  ghost function JobAfter(next: Next, w: World, step: Step, j: nat): Job
    requires Enabled(w, step) && j < |w.jobs|
  {
    match step.event
    case QueueGivesUp(i) => if i == j then w.jobs[j].(status := Failed) else w.jobs[j]
    case CancelEvent(i) => if i == j then w.jobs[j].(status := Canceled) else w.jobs[j]
    case WorkEvent(i, env, reported) =>
      if i == j && reported
      then w.jobs[j].(status := Completed, retryJob := Execute(next, w, j, step.now, env).1) else w.jobs[j]
    case _ => w.jobs[j]
  }

  lemma JobStep(next: Next, w: World, step: Step, j: nat)
    requires Lawful(next) && Inv(next, w, step.now) && Enabled(w, step) && j < |w.jobs|
    ensures j < |Apply(next, w, step).jobs| && Apply(next, w, step).jobs[j] == JobAfter(next, w, step, j)
    ensures step.event.WorkEvent? && step.event.job == j ==>
              (Execute(next, w, j, step.now, step.event.env).1.None? ==> |Apply(next, w, step).jobs| == |w.jobs|)
  {
    hide RowOk, Lawful;
    match step.event {
      case TickEvent(page) => TickAddsSlots(next, w, w.autos, page, step.now);
      case WorkEvent(i, env, _) => assert JobOk(w.jobs, i);
      case _ =>
    }
  }

  /** A reported execution that was retried names its retry. */
  lemma ResultNamesRetry(next: Next, w: World, step: Step)
    requires Lawful(next) && Inv(next, w, step.now) && Enabled(w, step) && step.event.WorkEvent?
    ensures var j := step.event.job;
            var retry := Execute(next, w, j, step.now, step.event.env).1;
            retry.Some? ==>
              retry.value < |Apply(next, w, step).jobs|
              && Apply(next, w, step).jobs[retry.value].key == RetryKey(j, w.jobs[j].attempt + 1)
  {
    hide RowOk;
    HandleFailureOk(next, w, step.event.job, step);
  }

  /** A job is broken from exactly such a step on, for good. */
  lemma BrokenSince(next: Next, w: World, clock: int, step: Step, j: nat)
    requires Lawful(next) && Inv(next, w, clock) && clock <= step.now && Enabled(w, step) && j < |w.jobs|
    ensures j < |Apply(next, w, step).jobs|
    ensures Broken(Apply(next, w, step).jobs, j) <==> Broken(w.jobs, j) || Breaks(next, w, step, j)
  {
    hide Lawful, Inv, Apply, Execute, FindKey;
    LaterClock(next, w, clock, step.now);
    JobStep(next, w, step, j);
    KeysStepOk(next, w, step);
    StepOk(next, w, clock, step);
    var w' := Apply(next, w, step);
    var key := RetryKey(j, w.jobs[j].attempt + 1);
    if step.event.WorkEvent? && step.event.job == j {
      ResultNamesRetry(next, w, step);
      InvJobs(next, w', step.now);
      var retry := Execute(next, w, j, step.now, step.event.env).1;
      if retry.None? {
        FindKeyStays(w.jobs, w'.jobs, key);
      } else if step.event.reported {
        RetryIsLater(w'.jobs, j);
      }
    } else {
      FindKeyStays(w.jobs, w'.jobs, key);
    }
  }

  lemma InvJobs(next: Next, w: World, clock: int)
    requires Inv(next, w, clock)
    ensures JobsOk(w.jobs)
  {
  }

  ghost predicate NoneBroken(jobs: seq<Job>) {
    forall j: nat :: j < |jobs| ==> !Broken(jobs, j)
  }

  ghost predicate BreaksNone(next: Next, w: World, step: Step)
    requires Enabled(w, step)
  {
    forall j: nat :: j < |w.jobs| ==> !Breaks(next, w, step, j)
  }

  /** No step of the run breaks a job. */
  ghost predicate NeverBreaks(next: Next, w: World, clock: int, steps: seq<Step>)
    requires Legal(next, w, clock, steps)
    decreases |steps|
  {
    steps == [] || (BreaksNone(next, w, steps[0])
                    && NeverBreaks(next, Apply(next, w, steps[0]), steps[0].now, steps[1..]))
  }

  /** A job that was only just queued has no retry. */
  lemma NewIsWhole(next: Next, w: World, clock: int, step: Step, j: nat)
    requires Lawful(next) && Inv(next, w, clock) && clock <= step.now && Enabled(w, step)
    requires |w.jobs| <= j < |Apply(next, w, step).jobs|
    ensures !Broken(Apply(next, w, step).jobs, j)
  {
    hide Apply, Inv, Lawful, FindKey;
    LaterClock(next, w, clock, step.now);
    KeysStepOk(next, w, step);
    StepOk(next, w, clock, step);
    InvJobs(next, Apply(next, w, step), step.now);
    RetryIsLater(Apply(next, w, step).jobs, j);
  }

  lemma StepBreaks(next: Next, w: World, clock: int, step: Step)
    requires Lawful(next) && Inv(next, w, clock) && clock <= step.now && Enabled(w, step)
    ensures NoneBroken(Apply(next, w, step).jobs) <==> NoneBroken(w.jobs) && BreaksNone(next, w, step)
  {
    hide Apply, Inv, Lawful, Broken, Breaks, Enabled;
    var w' := Apply(next, w, step);
    forall j: nat | j < |w.jobs|
      ensures j < |w'.jobs| && (Broken(w'.jobs, j) <==> Broken(w.jobs, j) || Breaks(next, w, step, j))
    {
      BrokenSince(next, w, clock, step, j);
    }
    forall j: nat | |w.jobs| <= j < |w'.jobs|
      ensures !Broken(w'.jobs, j)
    {
      NewIsWhole(next, w, clock, step, j);
    }
  }

  /** Over a run, every job is whole at the end exactly when all were at the start and no step broke one. */
  lemma {:induction false} BrokenOverRuns(next: Next, w: World, clock: int, steps: seq<Step>)
    requires Lawful(next) && Inv(next, w, clock) && Legal(next, w, clock, steps)
    ensures NoneBroken(After(next, w, clock, steps).jobs) <==> NoneBroken(w.jobs) && NeverBreaks(next, w, clock, steps)
    decreases |steps|
  {
    hide Apply, Inv, Lawful, NoneBroken, BreaksNone, Enabled;
    if steps != [] {
      StepBreaks(next, w, clock, steps[0]);
      StepOk(next, w, clock, steps[0]);
      BrokenOverRuns(next, Apply(next, w, steps[0]), steps[0].now, steps[1..]);
    }
  }

  /** Without a broken job every walk arrives at a newest attempt that may still run. */
  lemma {:induction false} WholeWalks(jobs: seq<Job>, j: nat)
    requires JobsOk(jobs) && j < |jobs| && NoneBroken(jobs)
    ensures !BreaksOff(jobs, j)
    decreases |jobs| - j
  {
    hide JobsOk, Broken;
    RetryIsLater(jobs, j);
    if LinkOf(jobs, j).Some? {
      WholeWalks(jobs, LinkOf(jobs, j).value);
    }
  }

  /**
   * While no job is canceled, fails in the queue, or is delivered again with another result after
   * its retry was queued, no slot whose newest attempt may still run is taken for dead.
   */
  lemma LiveRetrySeen(next: Next, w: World, clock: int, steps: seq<Step>, s: nat, id: nat, slot: int)
    requires Lawful(next) && Start(next, w, clock) && Legal(next, w, clock, steps)
    requires NeverBreaks(next, w, clock, steps)
    requires s < |After(next, w, clock, steps).jobs|
    requires After(next, w, clock, steps).jobs[s].key == SlotKey(id, Minute(slot))
    ensures var jobs := After(next, w, clock, steps).jobs;
            JobsOk(jobs) && (jobs[TrueEnd(jobs, s)].status == Active ==> !DeadSlot(jobs, id, slot))
  {
    hide Start, Lawful, After, Legal, NeverBreaks, RowOk, JobOk;
    StartIsWhole(next, w, clock);
    RunIsSafe(next, w, clock, steps);
    BrokenOverRuns(next, w, clock, steps);
    var jobs := After(next, w, clock, steps).jobs;
    JobInLimit(jobs, s);
    WholeWalks(jobs, s);
    if jobs[TrueEnd(jobs, s)].status == Active {
      LiveRetryMissed(jobs, s, MAX_RETRY_CHAIN_HOPS);
      OneSlotJob(jobs, s, id, slot);
    }
  }

  /** The slot's one job tells whether the slot is dead. */
  lemma OneSlotJob(jobs: seq<Job>, s: nat, id: nat, slot: int)
    requires JobsOk(jobs) && s < |jobs| && jobs[s].key == SlotKey(id, Minute(slot))
    ensures DeadSlot(jobs, id, slot) <==> jobs[FollowChain(jobs, s, MAX_RETRY_CHAIN_HOPS)].status != Active
  {
    hide JobOk;
    if DeadSlot(jobs, id, slot) {
      var t: nat :| t < |jobs| && jobs[t].key == SlotKey(id, Minute(slot))
                    && jobs[FollowChain(jobs, t, MAX_RETRY_CHAIN_HOPS)].status != Active;
      SlotJobUnique(jobs, s, t);
    }
  }

  lemma StartIsWhole(next: Next, w: World, clock: int)
    requires Lawful(next) && Start(next, w, clock)
    ensures Inv(next, w, clock) && NoneBroken(w.jobs)
  {
    hide Lawful, Broken;
    StartOk(next, w, clock);
  }

  // ----- A retry the tick does not see -----

  /** One automation, due. */
  function OneDue(slot: int): World {
    World(map[0 := Automation(true, slot, None, 0, false)], [])
  }

  /** Its slot's job fails once; then the worker dies before reporting it, or somebody cancels the reported job. */
  function MissedRetry(now: int, reported: bool): seq<Step> {
    [Step(TickEvent([0]), now),
     Step(WorkEvent(0, Env(false, false, false, false), reported), now),
     Step(if reported then CancelEvent(0) else QueueGivesUp(0), now),
     Step(TickEvent([0]), now)]
  }

  lemma TickOne(next: Next, w: World, now: int)
    requires 0 in w.autos
    ensures Tick(next, w, [0], now) == Examine(next, w, 0, w.autos[0], now)
  {
    hide Examine;
    assert [0][..0] == [];
    assert ExamineAll(next, w, w.autos, [0][..0], now) == w;
  }

  lemma FourSteps(next: Next, w: World, clock: int, steps: seq<Step>, w1: World, w2: World, w3: World, w4: World)
    requires |steps| == 4 && forall k :: 0 <= k < 4 ==> clock == steps[k].now
    requires Enabled(w, steps[0]) && w1 == Apply(next, w, steps[0])
    requires Enabled(w1, steps[1]) && w2 == Apply(next, w1, steps[1])
    requires Enabled(w2, steps[2]) && w3 == Apply(next, w2, steps[2])
    requires Enabled(w3, steps[3]) && w4 == Apply(next, w3, steps[3])
    ensures Legal(next, w, clock, steps) && After(next, w, clock, steps) == w4
  {
    hide Enabled, Apply;
    var r1, r2, r3 := steps[1..], steps[2..], steps[3..];
    assert r1[0] == steps[1] && r1[1..] == r2 && r2[0] == steps[2] && r2[1..] == r3;
    assert r3[0] == steps[3] && r3[1..] == [];
    assert Legal(next, w3, clock, r3) && After(next, w3, clock, r3) == w4;
    assert Legal(next, w2, clock, r2) && After(next, w2, clock, r2) == w4;
    assert Legal(next, w1, clock, r1) && After(next, w1, clock, r1) == w4;
  }

  lemma FirstTick(next: Next, slot: int, now: int)
    requires slot <= now
    ensures var w, step := OneDue(slot), Step(TickEvent([0]), now);
            Enabled(w, step) && Apply(next, w, step) == World(w.autos, [SlotJob(0, w.autos[0], now)])
  {
    TickOne(next, OneDue(slot), now);
  }

  lemma FailedRun(next: Next, slot: int, now: int, reported: bool)
    ensures var w := OneDue(slot);
            var job := SlotJob(0, w.autos[0], now);
            var step := Step(WorkEvent(0, Env(false, false, false, false), reported), now);
            && Enabled(World(w.autos, [job]), step)
            && Apply(next, World(w.autos, [job]), step)
               == World(w.autos, [if reported then job.(status := Completed, retryJob := Some(1)) else job,
                                  RetryOf(job, 0, now)])
  {
    var w := OneDue(slot);
    var job := SlotJob(0, w.autos[0], now);
    var retry := RetryOf(job, 0, now);
    assert RunRow(next, 0, w.autos[0], Schedule, now, Env(false, false, false, false)) == (w.autos[0], Threw);
    assert [job][..0] == [] && FindKey([], retry.key) == None;
    assert FindKey([job], retry.key) == None;
    assert [job] + [retry] == [job, retry];
  }

  lemma SlotJobShape(slot: int, now: int)
    ensures var job := SlotJob(0, OneDue(slot).autos[0], now);
            && job.key == SlotKey(0, Minute(slot)) && job.status == Active && job.retryJob.None?
            && RetryOf(job, 0, now).key == RetryKey(0, 2) && RetryOf(job, 0, now).status == Active
  {
  }

  lemma KilledJob(next: Next, autos: map<nat, Automation>, over: Job, retry: Job, now: int, reported: bool)
    requires !reported ==> over.status == Active
    ensures var step := Step(if reported then CancelEvent(0) else QueueGivesUp(0), now);
            Enabled(World(autos, [over, retry]), step)
            && Apply(next, World(autos, [over, retry]), step)
               == World(autos, [over.(status := if reported then Canceled else Failed), retry])
  {
  }

  lemma SecondTick(next: Next, slot: int, now: int, later: int, dead: Job, retry: Job)
    requires slot <= now && next(0, now) == Some(later)
    requires dead.key == SlotKey(0, Minute(slot)) && (dead.status == Failed || dead.status == Canceled)
    requires retry.key.RetryKey?
    ensures var w, step := World(OneDue(slot).autos, [dead, retry]), Step(TickEvent([0]), now);
            Enabled(w, step)
            && Apply(next, w, step) == World(map[0 := OneDue(slot).autos[0].(nextRunAt := later)], [dead, retry])
  {
    var w := World(OneDue(slot).autos, [dead, retry]);
    TickOne(next, w, now);
    assert w.jobs[..1] == [dead];
    assert FindKey([dead], dead.key) == Some(0);
    assert FindKey(w.jobs, dead.key) == Some(0);
    assert FollowChain(w.jobs, 0, MAX_RETRY_CHAIN_HOPS) == 0;
  }

  /**
   * Such a run: the second tick finds the slot's job failed or canceled and moves the schedule on,
   * although the retry is queued and will run.
   */
  lemma MissedRetryExample(next: Next, slot: int, now: int, later: int, reported: bool)
    requires slot <= now && next(0, now) == Some(later) && later > now
    ensures Legal(next, OneDue(slot), now, MissedRetry(now, reported))
    ensures var w := After(next, OneDue(slot), now, MissedRetry(now, reported));
            && |w.jobs| == 2 && w.jobs[1].key == RetryKey(0, 2) && w.jobs[1].status == Active
            && w.autos.Keys == {0} && w.autos[0].nextRunAt == later != slot
  {
    hide Enabled, Apply, Legal, After, SlotJob, RetryOf;
    SlotJobShape(slot, now);
    var steps, w0 := MissedRetry(now, reported), OneDue(slot);
    var job := SlotJob(0, w0.autos[0], now);
    var retry := RetryOf(job, 0, now);
    var over := if reported then job.(status := Completed, retryJob := Some(1)) else job;
    var dead := over.(status := if reported then Canceled else Failed);
    FirstTick(next, slot, now);
    FailedRun(next, slot, now, reported);
    SecondTick(next, slot, now, later, dead, retry);
    var w2, w3 := World(w0.autos, [over, retry]), World(w0.autos, [dead, retry]);
    KilledJob(next, w0.autos, over, retry, now, reported);
    FourSteps(next, w0, now, steps, World(w0.autos, [job]), w2, w3,
              World(map[0 := w0.autos[0].(nextRunAt := later)], [dead, retry]));
  }

  // ----- The failure streak -----

  /** The step in which an automation's chain of attempts is given up on. */
  ghost predicate GivesUp(next: Next, w: World, step: Step, id: nat)
    requires Enabled(w, step)
  {
    && step.event.WorkEvent? && id in w.autos
    && var job := w.jobs[step.event.job];
       && job.automation == id
       && RunRow(next, id, w.autos[id], job.trigger, step.now, step.event.env).1 == Threw
       && FailureActionOf(job, step.event.env) == GiveUp
  }

  /** The step that ends an automation's streak: a run that worked, or switching it on. */
  ghost predicate EndsStreak(next: Next, w: World, step: Step, id: nat)
    requires Enabled(w, step)
  {
    && id in w.autos
    && match step.event
       case WorkEvent(j, env, _) =>
         w.jobs[j].automation == id
         && RunRow(next, id, w.autos[id], w.jobs[j].trigger, step.now, env).1 == Succeeded
       case SwitchEvent(a, on) => a == id && on && (w.autos[id].enabled || next(id, step.now).Some?)
       case _ => false
  }

  /** The jobs given up on since the streak last ended, newest last. */
  ghost function Streak(next: Next, w: World, clock: int, steps: seq<Step>, id: nat, sofar: seq<nat>): seq<nat>
    requires Legal(next, w, clock, steps)
    decreases |steps|
  {
    if steps == [] then sofar
    else Streak(next, Apply(next, w, steps[0]), steps[0].now, steps[1..], id, NextStreak(next, w, steps[0], id, sofar))
  }

  ghost function NextStreak(next: Next, w: World, step: Step, id: nat, sofar: seq<nat>): seq<nat>
    requires Enabled(w, step)
  {
    if EndsStreak(next, w, step, id) then []
    else if GivesUp(next, w, step, id) then sofar + [step.event.job]
    else sofar
  }

  lemma StreakStep(next: Next, w: World, step: Step, id: nat)
    requires Lawful(next) && Inv(next, w, step.now) && Enabled(w, step) && id in w.autos
    ensures var w' := Apply(next, w, step);
            && id in w'.autos
            && w'.autos[id].consecutiveFailures ==
               if EndsStreak(next, w, step, id) then 0
               else if GivesUp(next, w, step, id) then w.autos[id].consecutiveFailures + 1
               else w.autos[id].consecutiveFailures
  {
    match step.event {
      case TickEvent(page) => TickKeepsStreaks(next, w, w.autos, page, step.now);
      case _ =>
    }
  }

  lemma {:induction false} TickKeepsStreaks(next: Next, w: World, rows: map<nat, Automation>, page: seq<nat>, now: int)
    requires forall k :: 0 <= k < |page| ==> page[k] in w.autos && page[k] in rows
    ensures forall id :: id in w.autos ==>
              ExamineAll(next, w, rows, page, now).autos[id].consecutiveFailures == w.autos[id].consecutiveFailures
    decreases |page|
  {
    if page != [] {
      TickKeepsStreaks(next, w, rows, page[..|page| - 1], now);
    }
  }

  /**
   * The counter is the number of times a chain of attempts was given up on since the last run
   * that worked or switching on: nothing else touches it, neither manual failures nor runs held
   * back by a budget or a paused agent.
   */
  lemma {:induction false} StreakIsCounted(next: Next, w: World, clock: int, steps: seq<Step>, id: nat, sofar: seq<nat>)
    requires Lawful(next) && Inv(next, w, clock) && id in w.autos
    requires Legal(next, w, clock, steps)
    requires w.autos[id].consecutiveFailures == |sofar|
    ensures id in After(next, w, clock, steps).autos
    ensures After(next, w, clock, steps).autos[id].consecutiveFailures
            == |Streak(next, w, clock, steps, id, sofar)|
    decreases |steps|
  {
    if steps != [] {
      hide Inv, Enabled, RowOk, Lawful, Apply, EndsStreak, GivesUp;
      LaterClock(next, w, clock, steps[0].now);
      StepOk(next, w, clock, steps[0]);
      StreakStep(next, w, steps[0], id);
      StreakIsCounted(
        next, Apply(next, w, steps[0]), steps[0].now, steps[1..], id, NextStreak(next, w, steps[0], id, sofar));
    }
  }

  // ----- One count per chain -----

  /** No job is executed twice: the run has no re-delivery. */
  ghost predicate WorkedOnce(steps: seq<Step>, worked: set<nat>)
    decreases |steps|
  {
    steps == [] ||
    if steps[0].event.WorkEvent?
    then steps[0].event.job !in worked && WorkedOnce(steps[1..], worked + {steps[0].event.job})
    else WorkedOnce(steps[1..], worked)
  }

  ghost predicate Unretried(jobs: seq<Job>, g: nat) {
    forall k :: 0 <= k < |jobs| ==> !(jobs[k].key.RetryKey? && jobs[k].key.failed == g)
  }

  /** The jobs given up on are distinct, executed and unretried; only executed jobs are retried. */
  ghost predicate Book(jobs: seq<Job>, worked: set<nat>, given: seq<nat>) {
    && (forall k :: 0 <= k < |given| ==> given[k] < |jobs| && given[k] in worked && Unretried(jobs, given[k]))
    && (forall a, b :: 0 <= a < b < |given| ==> given[a] != given[b])
    && (forall k :: 0 <= k < |jobs| && jobs[k].key.RetryKey? ==> jobs[k].key.failed in worked)
  }

  /** Jobs keep their keys, and a new retry is of the job just executed. */
  ghost predicate KeysStep(w: World, w': World, step: Step) {
    && |w.jobs| <= |w'.jobs|
    && (forall k :: 0 <= k < |w.jobs| ==> w'.jobs[k].key == w.jobs[k].key)
    && (forall k :: |w.jobs| <= k < |w'.jobs| && w'.jobs[k].key.RetryKey? ==>
          step.event.WorkEvent? && w'.jobs[k].key.failed == step.event.job)
  }

  lemma {:induction false} TickAddsSlots(next: Next, w: World, rows: map<nat, Automation>, page: seq<nat>, now: int)
    requires forall k :: 0 <= k < |page| ==> page[k] in w.autos && page[k] in rows
    ensures var w' := ExamineAll(next, w, rows, page, now);
            && |w.jobs| <= |w'.jobs|
            && (forall k :: 0 <= k < |w.jobs| ==> w'.jobs[k] == w.jobs[k])
            && (forall k :: |w.jobs| <= k < |w'.jobs| ==> w'.jobs[k].key.SlotKey?)
    decreases |page|
  {
    if page != [] {
      TickAddsSlots(next, w, rows, page[..|page| - 1], now);
    }
  }

  lemma KeysStepOk(next: Next, w: World, step: Step)
    requires Lawful(next) && Inv(next, w, step.now) && Enabled(w, step)
    ensures KeysStep(w, Apply(next, w, step), step)
    ensures step.event.WorkEvent? && (exists id :: GivesUp(next, w, step, id)) ==>
              |Apply(next, w, step).jobs| == |w.jobs|
  {
    hide RowOk;
    match step.event {
      case TickEvent(page) => TickAddsSlots(next, w, w.autos, page, step.now);
      case WorkEvent(j, env, _) => assert JobOk(w.jobs, j);
      case _ =>
    }
  }

  lemma BookStep(next: Next, w: World, step: Step, id: nat, worked: set<nat>, given: seq<nat>)
    requires Lawful(next) && Inv(next, w, step.now) && Enabled(w, step)
    requires Book(w.jobs, worked, given)
    requires step.event.WorkEvent? ==> step.event.job !in worked
    ensures var w' := Apply(next, w, step);
            var worked' := if step.event.WorkEvent? then worked + {step.event.job} else worked;
            && Book(w'.jobs, worked', given) && Book(w'.jobs, worked', [])
            && (GivesUp(next, w, step, id) ==> Book(w'.jobs, worked', given + [step.event.job]))
  {
    KeysStepOk(next, w, step);
    hide Apply, Inv, Lawful;
    var w' := Apply(next, w, step);
    if GivesUp(next, w, step, id) {
      assert Unretried(w'.jobs, step.event.job);
    }
  }

  /**
   * Without re-delivery the counter counts chains: no two of the jobs given up on since the
   * streak began belong to the same chain of attempts.
   */
  lemma {:induction false} StreakCountsChains(
    next: Next, w: World, clock: int, steps: seq<Step>, id: nat, sofar: seq<nat>, worked: set<nat>)
    requires Lawful(next) && Inv(next, w, clock)
    requires Legal(next, w, clock, steps)
    requires WorkedOnce(steps, worked) && Book(w.jobs, worked, sofar)
    ensures DistinctRoots(After(next, w, clock, steps).jobs, Streak(next, w, clock, steps, id, sofar))
    decreases |steps|
  {
    if steps == [] {
      DifferentRoots(next, w, clock, worked, sofar);
    } else {
      var step := steps[0];
      LaterClock(next, w, clock, step.now);
      StepOk(next, w, clock, step);
      BookStep(next, w, step, id, worked, sofar);
      hide Inv, Enabled, RowOk, Lawful, Apply, EndsStreak, GivesUp, Book, JobsOk, Root, DistinctRoots;
      var worked' := if step.event.WorkEvent? then worked + {step.event.job} else worked;
      var sofar' := NextStreak(next, w, step, id, sofar);
      StreakCountsChains(next, Apply(next, w, step), step.now, steps[1..], id, sofar', worked');
    }
  }

  /** No two of these jobs belong to one chain of attempts. */
  ghost predicate DistinctRoots(jobs: seq<Job>, given: seq<nat>) {
    && JobsOk(jobs)
    && (forall k :: 0 <= k < |given| ==> given[k] < |jobs|)
    && (forall a, b :: 0 <= a < b < |given| ==> Root(jobs, given[a]) != Root(jobs, given[b]))
  }

  lemma DifferentRoots(next: Next, w: World, clock: int, worked: set<nat>, sofar: seq<nat>)
    requires Inv(next, w, clock) && Book(w.jobs, worked, sofar)
    ensures DistinctRoots(w.jobs, sofar)
  {
    forall a, b | 0 <= a < b < |sofar| ensures Root(w.jobs, sofar[a]) != Root(w.jobs, sofar[b]) {
      DifferentChains(w.jobs, worked, sofar, a, b);
    }
  }

  lemma DifferentChains(jobs: seq<Job>, worked: set<nat>, given: seq<nat>, a: nat, b: nat)
    requires JobsOk(jobs) && Book(jobs, worked, given) && a < b < |given|
    ensures Root(jobs, given[a]) != Root(jobs, given[b])
  {
    if Root(jobs, given[a]) == Root(jobs, given[b]) {
      if jobs[given[a]].attempt <= jobs[given[b]].attempt {
        ChainIsAPath(jobs, given[a], given[b]);
      } else {
        ChainIsAPath(jobs, given[b], given[a]);
      }
      assert false;
    }
  }
}
