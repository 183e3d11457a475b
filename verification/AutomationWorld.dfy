/**
 * The rows automations live in, and what each step of dispatch, execution and failure handling
 * does to them, as functions from one state to the next.
 */
module AutomationWorld {
  import opened AutomationPolicy
  import opened Wrappers

  /** A job that is queued or in flight is active; the four active statuses are one here. */
  datatype Status = Active | Completed | Failed | Canceled

  datatype DedupeKey =
    | SlotKey(automation: nat, minute: int)
    | RetryKey(failed: nat, attempt: nat)
    | ManualKey(automation: nat, minute: int)
    | MonitorKey(monitor: nat, fireCount: nat)

  /** An `automation_run` job; its id is its position. `retryJob` is the result's retry link. */
  datatype Job = Job(
    automation: nat,
    trigger: Trigger,
    attempt: nat,
    key: DedupeKey,
    scheduledAt: int,
    status: Status,
    retryJob: Option<nat>)

  datatype Automation = Automation(
    enabled: bool,
    nextRunAt: int,
    lastRunAt: Option<int>,
    consecutiveFailures: nat,
    disabledByFailures: bool)

  datatype World = World(autos: map<nat, Automation>, jobs: seq<Job>)

  /** The next run of an automation's schedule after an instant; none when the search fails. */
  type Next = (nat, int) -> Option<int>

  /** What the outside decides about one execution. */
  datatype Env = Env(paused: bool, overBudget: bool, works: bool, enqueueFails: bool)

  const MINUTE := 60_000

  // ----- The queue -----

  /** The last job in the queue whose dedupe key is this one. */
  function FindKey(jobs: seq<Job>, key: DedupeKey): (r: Option<nat>)
    ensures r.Some? ==> r.value < |jobs| && jobs[r.value].key == key
    ensures r.None? ==> forall j :: 0 <= j < |jobs| ==> jobs[j].key != key
  {
    if jobs == [] then None
    else if jobs[|jobs| - 1].key == key then Some(|jobs| - 1)
    else FindKey(jobs[..|jobs| - 1], key)
  }

  function FindActive(jobs: seq<Job>, key: DedupeKey): (r: Option<nat>)
    ensures r.Some? ==> r.value < |jobs| && jobs[r.value].key == key && jobs[r.value].status == Active
    ensures r.None? ==> forall j :: 0 <= j < |jobs| ==> jobs[j].key != key || jobs[j].status != Active
  {
    if jobs == [] then None
    else if jobs[|jobs| - 1].key == key && jobs[|jobs| - 1].status == Active then Some(|jobs| - 1)
    else FindActive(jobs[..|jobs| - 1], key)
  }

  datatype Enqueued = Enqueued(jobs: seq<Job>, id: nat, created: bool)

  /** `dedupeScope: 'forever'`: any job ever queued with the key stands for this one. */
  function EnqueueForever(jobs: seq<Job>, job: Job): (r: Enqueued)
    ensures r.id < |r.jobs| && r.jobs[r.id].key == job.key
  {
    match FindKey(jobs, job.key)
    case Some(j) => Enqueued(jobs, j, false)
    case None => Enqueued(jobs + [job], |jobs|, true)
  }

  /** `dedupeScope: 'active'`: only a job still queued or running stands for this one. */
  function EnqueueActive(jobs: seq<Job>, job: Job): Enqueued {
    match FindActive(jobs, job.key)
    case Some(j) => Enqueued(jobs, j, false)
    case None => Enqueued(jobs + [job], |jobs|, true)
  }

  // ----- One execution -----

  datatype Outcome = Unavailable | Blocked | Succeeded | Threw

  function MoveSchedule(next: Next, id: nat, a: Automation, now: int): Automation {
    a.(nextRunAt := match next(id, now) case Some(r) => r case None => a.nextRunAt)
  }

  function ResetFailures(a: Automation): Automation {
    a.(consecutiveFailures := 0, disabledByFailures := false)
  }

  /** `runAutomationById`, as far as the automation's row is concerned. */
  function RunRow(next: Next, id: nat, a: Automation, trigger: Trigger, now: int, env: Env): (Automation, Outcome) {
    var policy := TriggerPolicy(trigger);
    if !a.enabled && !policy.allowDisabled then (a, Unavailable)
    else if env.paused then
      (if policy.preserveSchedule then a else MoveSchedule(next, id, a, now), Blocked)
    else if env.overBudget then
      ((if policy.preserveSchedule then a else MoveSchedule(next, id, a, now)).(lastRunAt := Some(now)), Blocked)
    else if !env.works then (a, Threw)
    else if policy.preserveSchedule then (ResetFailures(a.(lastRunAt := Some(now))), Succeeded)
    else
      match next(id, now)
      case None => (a, Threw)
      case Some(r) => (ResetFailures(a.(lastRunAt := Some(now), nextRunAt := r)), Succeeded)
  }

  /** `recordTerminalAutomationFailure` on the row. */
  function GiveUpRow(next: Next, id: nat, a: Automation, trigger: Trigger, now: int): Automation {
    var bumped := a.(consecutiveFailures := a.consecutiveFailures + 1);
    var moved :=
      if TriggerPolicy(trigger).preserveSchedule || next(id, now).None? then bumped
      else bumped.(lastRunAt := Some(now), nextRunAt := next(id, now).value);
    if a.enabled && ShouldDisable(bumped.consecutiveFailures)
    then moved.(enabled := false, disabledByFailures := true)
    else moved
  }

  /** The job a failed attempt queues. */
  function RetryOf(job: Job, id: nat, now: int): Job {
    Job(job.automation, job.trigger, job.attempt + 1, RetryKey(id, job.attempt + 1),
        now + RetryBackoff(job.attempt), Active, None)
  }

  /** A failed attempt is retried, given up on, or (a person's own run) only reported. */
  datatype FailureAction = Report | Retry | GiveUp

  function FailureActionOf(job: Job, env: Env): FailureAction {
    if !TriggerPolicy(job.trigger).escalateFailures then Report
    else if ShouldRetry(job.attempt) && !env.enqueueFails then Retry
    else GiveUp
  }

  function HandleFailure(next: Next, w: World, id: nat, now: int, env: Env): (World, Option<nat>)
    requires id < |w.jobs|
  {
    var job := w.jobs[id];
    match FailureActionOf(job, env)
    case Report => (w, None)
    case Retry =>
      var retry := EnqueueForever(w.jobs, RetryOf(job, id, now));
      (w.(jobs := retry.jobs), Some(retry.id))
    case GiveUp =>
      if job.automation !in w.autos then (w, None)
      else
        var a := GiveUpRow(next, job.automation, w.autos[job.automation], job.trigger, now);
        (w.(autos := w.autos[job.automation := a]), None)
  }

  /** `executeAutomationRunJob`: the state after the handler, and the retry link of its result. */
  function Execute(next: Next, w: World, id: nat, now: int, env: Env): (World, Option<nat>)
    requires id < |w.jobs|
  {
    var job := w.jobs[id];
    if job.automation !in w.autos then (w, None)
    else
      var (a, outcome) := RunRow(next, job.automation, w.autos[job.automation], job.trigger, now, env);
      if outcome == Threw then HandleFailure(next, w, id, now, env)
      else (w.(autos := w.autos[job.automation := a]), None)
  }

  /** The worker's report reaches the queue: the job is completed, with its result. */
  function Complete(jobs: seq<Job>, id: nat, retry: Option<nat>): seq<Job>
    requires id < |jobs|
  {
    jobs[id := jobs[id].(status := Completed, retryJob := retry)]
  }

  function Work(next: Next, w: World, id: nat, now: int, env: Env, reported: bool): World
    requires id < |w.jobs|
  {
    var (w', retry) := Execute(next, w, id, now, env);
    if reported && id < |w'.jobs| then w'.(jobs := Complete(w'.jobs, id, retry)) else w'
  }

  // ----- The dispatch tick -----

  function Minute(instant: int): int { instant / MINUTE }

  function SlotJob(id: nat, a: Automation, now: int): Job {
    Job(id, Schedule, 1, SlotKey(id, Minute(a.nextRunAt)), now, Active, None)
  }

  /** The retry link the chain follows: only a completed job's result counts. */
  function LinkOf(jobs: seq<Job>, j: nat): Option<nat>
    requires j < |jobs|
  {
    if jobs[j].status == Completed && jobs[j].retryJob.Some? && jobs[j].retryJob.value < |jobs|
    then jobs[j].retryJob else None
  }

  /** Where a slot's chain of attempts has got to, following at most `hops` links. */
  function FollowChain(jobs: seq<Job>, j: nat, hops: nat): (r: nat)
    requires j < |jobs|
    ensures r < |jobs|
    decreases hops
  {
    if hops == 0 || jobs[j].status == Active || LinkOf(jobs, j).None? then j
    else FollowChain(jobs, LinkOf(jobs, j).value, hops - 1)
  }

  const MAX_RETRY_CHAIN_HOPS := 10

  /** Moves the schedule past a slot nothing will run any more. */
  function SkipSlot(next: Next, w: World, id: nat, slot: int, now: int): (r: World)
    requires id in w.autos
    ensures r.autos.Keys == w.autos.Keys
  {
    if next(id, now).Some? && w.autos[id].nextRunAt == slot
    then w.(autos := w.autos[id := w.autos[id].(nextRunAt := next(id, now).value)])
    else w
  }

  /** One automation's turn in a tick; `row` is the row as the tick read it. */
  function Examine(next: Next, w: World, id: nat, row: Automation, now: int): (r: World)
    requires id in w.autos
    ensures r.autos.Keys == w.autos.Keys
  {
    var slot := EnqueueForever(w.jobs, SlotJob(id, row, now));
    var w' := w.(jobs := slot.jobs);
    if slot.created then w'
    else
      var last := FollowChain(slot.jobs, slot.id, MAX_RETRY_CHAIN_HOPS);
      if slot.jobs[last].status == Active then w' else SkipSlot(next, w', id, row.nextRunAt, now)
  }

  /** The slot has its job, and where that job's chain leads nothing may run any more. */
  ghost predicate DeadSlot(jobs: seq<Job>, id: nat, slot: int) {
    exists s: nat :: s < |jobs| && jobs[s].key == SlotKey(id, Minute(slot))
                     && jobs[FollowChain(jobs, s, MAX_RETRY_CHAIN_HOPS)].status != Active
  }

  predicate Due(a: Automation, now: int) {
    a.enabled && a.nextRunAt <= now
  }

  const PAGE := 25

  /** A page the due query may answer with: the earliest due rows, at most a page of them. */
  ghost predicate IsDuePage(autos: map<nat, Automation>, now: int, page: seq<nat>) {
    && (forall k :: 0 <= k < |page| ==> page[k] in autos && Due(autos[page[k]], now))
    && (forall j, k :: 0 <= j < k < |page| ==> page[j] != page[k])
    && (forall j, k :: 0 <= j < k < |page| ==> autos[page[j]].nextRunAt <= autos[page[k]].nextRunAt)
    && |page| <= PAGE
    && (forall id :: id in autos && Due(autos[id], now) && id !in page ==>
          |page| == PAGE && forall k :: 0 <= k < |page| ==> autos[page[k]].nextRunAt <= autos[id].nextRunAt)
  }

  /** The tick: every row of the page in turn, each as the query read it. */
  function ExamineAll(next: Next, w: World, rows: map<nat, Automation>, page: seq<nat>, now: int): (r: World)
    requires forall k :: 0 <= k < |page| ==> page[k] in w.autos && page[k] in rows
    ensures r.autos.Keys == w.autos.Keys
    decreases |page|
  {
    if page == [] then w
    else
      var last := page[|page| - 1];
      Examine(next, ExamineAll(next, w, rows, page[..|page| - 1], now), last, rows[last], now)
  }

  function Tick(next: Next, w: World, page: seq<nat>, now: int): World
    requires forall k :: 0 <= k < |page| ==> page[k] in w.autos
  {
    ExamineAll(next, w, w.autos, page, now)
  }

  /** What a tick reports about one automation it examined. */
  datatype Entry = Entry(automation: nat, job: nat, created: bool, skipped: bool)

  /** The report of one automation's turn, from the world before it. */
  function EntryOf(next: Next, w: World, id: nat, row: Automation, now: int): (e: Entry)
    requires id in w.autos
    ensures e.automation == id
  {
    match FindKey(w.jobs, SlotKey(id, Minute(row.nextRunAt)))
    case None => Entry(id, |w.jobs|, true, false)
    case Some(s) =>
      var last := FollowChain(w.jobs, s, MAX_RETRY_CHAIN_HOPS);
      if w.jobs[last].status != Active && next(id, now).Some? && w.autos[id].nextRunAt == row.nextRunAt
      then Entry(id, last, false, true)
      else Entry(id, s, false, false)
  }

  /** The report of a tick: an entry for each row of the page, in its order. */
  function TickReport(next: Next, w: World, rows: map<nat, Automation>, page: seq<nat>, now: int): (r: seq<Entry>)
    requires forall k :: 0 <= k < |page| ==> page[k] in w.autos && page[k] in rows
    ensures |r| == |page|
    decreases |page|
  {
    hide EntryOf, Examine, ExamineAll;
    if page == [] then []
    else
      var front, last := page[..|page| - 1], page[|page| - 1];
      var before := ExamineAll(next, w, rows, front, now);
      TickReport(next, w, rows, front, now) + [EntryOf(next, before, last, rows[last], now)]
  }

  lemma {:induction false} ReportNames(next: Next, w: World, rows: map<nat, Automation>, page: seq<nat>, now: int)
    requires forall k :: 0 <= k < |page| ==> page[k] in w.autos && page[k] in rows
    ensures Examined(TickReport(next, w, rows, page, now)) == page
    decreases |page|
  {
    hide EntryOf, ExamineAll;
    if page != [] {
      ReportNames(next, w, rows, page[..|page| - 1], now);
    }
  }

  lemma NoTurn(next: Next, w: World, rows: map<nat, Automation>, now: int)
    ensures ExamineAll(next, w, rows, [], now) == w && TickReport(next, w, rows, [], now) == []
  {
  }

  /** One more turn of a tick, and one more entry. */
  lemma NextTurn(next: Next, w: World, rows: map<nat, Automation>, page: seq<nat>, k: nat, now: int)
    requires k < |page| && forall i :: 0 <= i < |page| ==> page[i] in w.autos && page[i] in rows
    ensures var before := ExamineAll(next, w, rows, page[..k], now);
            && ExamineAll(next, w, rows, page[..k + 1], now) == Examine(next, before, page[k], rows[page[k]], now)
            && TickReport(next, w, rows, page[..k + 1], now)
               == TickReport(next, w, rows, page[..k], now) + [EntryOf(next, before, page[k], rows[page[k]], now)]
  {
    hide EntryOf, Examine;
    assert page[..k + 1][..k] == page[..k];
  }

  /** The automations a report is about, in order. */
  function Examined(entries: seq<Entry>): seq<nat> {
    seq(|entries|, k requires 0 <= k < |entries| => entries[k].automation)
  }

  // ----- What people and monitors do -----

  function RunNow(w: World, id: nat, now: int): World {
    if id !in w.autos then w
    else w.(jobs := EnqueueActive(w.jobs, Job(id, Manual, 1, ManualKey(id, Minute(now)), now, Active, None)).jobs)
  }

  function MonitorFires(w: World, id: nat, monitor: nat, fireCount: nat, now: int): World {
    if id !in w.autos || !w.autos[id].enabled then w
    else w.(jobs := EnqueueActive(w.jobs, Job(id, Monitor, 1, MonitorKey(monitor, fireCount), now, Active, None)).jobs)
  }

  /** Switching on and off from the form. Switching on fails when the schedule has no next run. */
  function Switch(next: Next, w: World, id: nat, on: bool, now: int): World {
    if id !in w.autos then w
    else
      var a := w.autos[id];
      if !on then w.(autos := w.autos[id := a.(enabled := false, disabledByFailures := false)])
      else if a.enabled then w.(autos := w.autos[id := ResetFailures(a)])
      else
        match next(id, now)
        case None => w
        case Some(r) => w.(autos := w.autos[id := ResetFailures(a.(enabled := true, nextRunAt := r))])
  }
}
