/** The state of the worker pool as a value, and every event handler of the pool as a function on it.
    A process is named by its generation number: 0 for the first process ever forked, and so on.
    The history fields sends, log and closed are never read by a handler. */
module PoolModel {
  import opened Options

  type JobId = nat
  type ProcId = nat
  type TimerId = nat

  const MAX_WORKER_CRASH_RETRIES: nat := 1

  datatype Signal = SigTerm | SigKill

  /** What one call of kill does: its boolean result, and whether it emits an error event before it returns. */
  datatype KillOutcome = KillOutcome(sent: bool, emitsError: bool)
  type Kills = (ProcId, Signal) -> KillOutcome

  datatype Job = Job(id: JobId, prepared: bool, retries: nat, attempts: nat)
  datatype Active = Active(job: Job, timer: TimerId)
  datatype Slot = Slot(proc: ProcId, busy: bool, ready: bool, active: Option<Active>)

  /** What the timer callback captured: the job, and the index of the slot it was started on. */
  datatype Timer = Timer(job: Job, slot: nat)

  /** How a job's promise was settled. */
  datatype Outcome =
    | Answered(worker: ProcId)   // the worker's own answer
    | Invalid(worker: ProcId)   // an answer that failed the prepared-request validation
    | Refused                // prepared job, selected child is not the builtin worker
    | TimedOut
    | CrashedTwice
  datatype Resolution = Resolution(id: JobId, attempts: nat, outcome: Outcome)
  datatype Send = Send(id: JobId, proc: ProcId)

  datatype SignalRequest = SignalRequest(signal: Signal, sent: bool)
  datatype Shutdown = NotRequested | Draining | Drained | Expired | BadTimeout

  /** A worker's answer; valid is the verdict of the prepared-request validators. */
  datatype Answer = Answer(id: JobId, recycle: bool, valid: bool)

  /** The processes of a pool. */
  datatype Children = Children(
    builtin: bool,                                // no worker path override
    unified: bool,                                // builtin, and the unified worker
    preparedChildren: set<ProcId>,
    nextProc: nat,
    outstanding: map<ProcId, seq<SignalRequest>>, // forked and not yet closed
    attached: map<ProcId, nat>,                   // process whose job handlers are attached -> slot
    killed: set<ProcId>,                          // kill returned true
    closed: set<ProcId>)

  /** How far shutdown has come. */
  datatype Drain = Drain(
    shuttingDown: bool,
    shutdown: Shutdown,                           // the state of the shutdown promise
    settlements: nat,                             // how often that promise was settled
    shutdownArmed: bool,                          // shutdownResolve is not null
    shutdownTimer: bool)

  datatype State = State(
    slots: seq<Slot>,
    queue: seq<Job>,
    pending: map<JobId, Active>,
    nextId: nat,
    timers: map<TimerId, Timer>,
    nextTimer: nat,
    sends: seq<Send>,
    log: seq<Resolution>,
    children: Children,
    drain: Drain)

  // ---------------------------------------------------------------- construction

  /** forkProcess and attachForkHandlers: a new process, bound to slot k. */
  function Forked(s: State, k: nat): State {
    var c := s.children;
    var p := c.nextProc;
    s.(children := c.(
         nextProc := p + 1,
         preparedChildren := if c.builtin then c.preparedChildren + {p} else c.preparedChildren,
         outstanding := c.outstanding[p := []],
         attached := c.attached[p := k]))
  }

  /** createFork: one more slot, with a process of its own. */
  function Grown(s: State): State {
    Forked(s, |s.slots|).(slots := s.slots + [Slot(s.children.nextProc, false, false, None)])
  }

  function NoSlots(builtin: bool, unified: bool): State {
    State([], [], map[], 0, map[], 0, [], [],
          Children(builtin, unified, {}, 0, map[], map[], {}, {}),
          Drain(false, NotRequested, 0, false, false))
  }

  /** A pool of the given size before any event: one process for each slot. */
  function Init(size: nat, builtin: bool, unified: bool): State {
    if size == 0 then NoSlots(builtin, unified) else Grown(Init(size - 1, builtin, unified))
  }

  // ---------------------------------------------------------------- dispatch

  /** The first slot at or after k that is ready and not busy, or |slots| when there is none. */
  function FirstIdle(slots: seq<Slot>, k: nat): (r: nat)
    requires k <= |slots|
    ensures k <= r <= |slots|
    ensures r < |slots| ==> slots[r].ready && !slots[r].busy
    ensures forall j :: k <= j < r ==> !(slots[j].ready && !slots[j].busy)
    decreases |slots| - k
  {
    if k == |slots| || (slots[k].ready && !slots[k].busy) then k else FirstIdle(slots, k + 1)
  }

  /** Hand the head of the queue to slot k: start its timer, record it as pending, send it. */
  function Start(s: State, k: nat): State
    requires k < |s.slots| && s.queue != []
  {
    var job := s.queue[0].(attempts := s.queue[0].attempts + 1);
    var active := Active(job, s.nextTimer);
    s.(queue := s.queue[1..],
       slots := s.slots[k := s.slots[k].(busy := true, active := Some(active))],
       timers := s.timers[s.nextTimer := Timer(job, k)],
       nextTimer := s.nextTimer + 1,
       pending := s.pending[job.id := active],
       sends := s.sends + [Send(job.id, s.slots[k].proc)])
  }

  /** Settle the head of the queue without starting it. */
  function Refuse(s: State): State
    requires s.queue != []
  {
    s.(queue := s.queue[1..],
       log := s.log + [Resolution(s.queue[0].id, s.queue[0].attempts, Refused)])
  }

  /** One turn of the dispatch loop, with slot k free. */
  function DispatchOnce(s: State, k: nat): State
    requires s.queue != [] && k < |s.slots|
  {
    if s.queue[0].prepared && s.slots[k].proc !in s.children.preparedChildren then Refuse(s) else Start(s, k)
  }

  function DispatchLoop(s: State): State
    decreases |s.queue|
  {
    var k := FirstIdle(s.slots, 0);
    if s.queue == [] || k == |s.slots| then s else DispatchLoop(DispatchOnce(s, k))
  }

  function Dispatch(s: State): State {
    if s.drain.shuttingDown then s else DispatchLoop(s)
  }

  // ---------------------------------------------------------------- submitting

  /** A new job at the end of the queue. */
  function Enqueued(s: State, prepared: bool): State {
    s.(queue := s.queue + [Job(s.nextId, prepared, 0, 0)], nextId := s.nextId + 1)
  }

  /** compile (execute is false) and runTest (execute is true): a prepared request the pool cannot
      honour is thrown back before it gets an id. */
  predicate Accepts(s: State, execute: bool, prepared: bool) {
    prepared ==> if execute then s.children.unified else s.children.builtin
  }

  function OnSubmit(s: State, execute: bool, prepared: bool): State {
    if Accepts(s, execute, prepared) then Dispatch(Enqueued(s, prepared)) else s
  }

  // ---------------------------------------------------------------- retiring a process

  /** Handlers of process p removed. */
  function Detach(s: State, p: ProcId): State {
    s.(children := s.children.(attached := s.children.attached - {p}))
  }

  /** The record of one kill call in the lifetime of its process. */
  function Requested(s: State, p: ProcId, request: SignalRequest): (r: State)
    ensures r.children.attached == s.children.attached && r.slots == s.slots
  {
    var c := s.children;
    if p !in c.outstanding then s else
    s.(children := c.(outstanding := c.outstanding[p := c.outstanding[p] + [request]]))
  }

  function MarkKilled(s: State, p: ProcId, sent: bool): (r: State)
    ensures r.children.attached == s.children.attached && r.slots == s.slots
  {
    if sent then s.(children := s.children.(killed := s.children.killed + {p})) else s
  }

  /** A fresh process takes over slot k. */
  function Replace(s: State, k: nat): State
    requires k < |s.slots|
  {
    Forked(s, k).(slots := s.slots[k := Slot(s.children.nextProc, false, false, None)])
  }

  /** Slots named by attached handlers exist. */
  predicate HandlersInRange(s: State) {
    forall p: ProcId :: p in s.children.attached ==> s.children.attached[p] < |s.slots|
  }

  /** The job of slot k goes back to the front of the queue with one more crash on its record. */
  function Requeue(s: State, k: nat): State
    requires k < |s.slots| && s.slots[k].active.Some?
  {
    var active := s.slots[k].active.value;
    s.(slots := s.slots[k := s.slots[k].(busy := false, ready := false, active := None)],
       timers := s.timers - {active.timer},
       pending := s.pending - {active.job.id},
       queue := [active.job.(retries := active.job.retries + 1)] + s.queue)
  }

  /** The job of slot k is settled and its timer stopped; ready says whether the slot stays ready. */
  function Finish(s: State, k: nat, outcome: Outcome, ready: bool): State
    requires k < |s.slots| && s.slots[k].active.Some?
  {
    var active := s.slots[k].active.value;
    s.(slots := s.slots[k := s.slots[k].(busy := false, ready := ready, active := None)],
       timers := s.timers - {active.timer},
       pending := s.pending - {active.job.id},
       log := s.log + [Resolution(active.job.id, active.job.attempts, outcome)])
  }

  /** handleForkFailure: the error or exit handler that was attached for process p on slot k. */
  function OnFailure(s: State, k: nat, p: ProcId, kills: Kills): (r: State)
    requires HandlersInRange(s) && k < |s.slots|
    ensures HandlersInRange(r) && |r.slots| == |s.slots|
    decreases |s.children.attached|, 2
  {
    if s.drain.shuttingDown || s.slots[k].proc != p then s else
    var slot := s.slots[k];
    if slot.active.None? then
      var down := s.(slots := s.slots[k := slot.(busy := false, ready := false)]);
      if !slot.ready then down else Respawn(down, k, kills)
    else if slot.active.value.job.retries < MAX_WORKER_CRASH_RETRIES then
      Respawn(Requeue(s, k), k, kills)
    else
      Respawn(Finish(s, k, CrashedTwice, false), k, kills)
  }

  /** respawnFork: detach the old process before it is signalled, then fork its replacement. */
  function Respawn(s: State, k: nat, kills: Kills): (r: State)
    requires HandlersInRange(s) && k < |s.slots|
    ensures HandlersInRange(r) && |r.slots| == |s.slots|
    decreases |s.children.attached|, 1
  {
    if s.drain.shuttingDown then s else
    var retiring := s.slots[k].proc;
    var detached := Detach(s, retiring);
    var signalled :=
      if retiring in s.children.killed then detached else SignalChild(detached, retiring, SigTerm, kills);
    Replace(signalled, k)
  }

  /** signalChild: kill may emit an error event before it returns, and so re-enter the failure handler. */
  function SignalChild(s: State, p: ProcId, signal: Signal, kills: Kills): (r: State)
    requires HandlersInRange(s)
    ensures HandlersInRange(r) && |r.slots| == |s.slots|
    decreases if p in s.children.attached then |s.children.attached| else 0, if p in s.children.attached then 3 else 0
  {
    var kill := kills(p, signal);
    var asked := Requested(s, p, SignalRequest(signal, kill.sent));
    var after :=
      if kill.emitsError && p in s.children.attached then OnFailure(asked, s.children.attached[p], p, kills) else asked;
    MarkKilled(after, p, kill.sent)
  }

  // ---------------------------------------------------------------- the other handlers

  /** The message handler attached for process p on slot k, for a ready message. */
  function OnReady(s: State, k: nat, p: ProcId): State
    requires k < |s.slots|
  {
    if s.drain.shuttingDown || s.slots[k].proc != p then s else
    Dispatch(s.(slots := s.slots[k := s.slots[k].(ready := true)]))
  }

  /** What an answer to a job counts as, and whether its process is to be recycled. */
  function Judge(s: State, p: ProcId, job: Job, answer: Answer): (Outcome, bool) {
    if !job.prepared then (Answered(p), answer.recycle)
    else if p in s.children.preparedChildren && answer.valid then (Answered(p), answer.recycle)
    else (Invalid(p), p in s.children.preparedChildren && answer.recycle)
  }

  /** The same handler for an answer. */
  function OnAnswer(s: State, k: nat, p: ProcId, answer: Answer, kills: Kills): State
    requires HandlersInRange(s) && k < |s.slots|
  {
    var slot := s.slots[k];
    if s.drain.shuttingDown || slot.proc != p then s
    else if slot.active.None? || slot.active.value.job.id != answer.id then s
    else if answer.id !in s.pending then s
    else
      var (outcome, recycle) := Judge(s, p, slot.active.value.job, answer);
      var delivered := Finish(s, k, outcome, slot.ready);
      if recycle then Respawn(delivered, k, kills) else Dispatch(delivered)
  }

  /** The timer callback before it kills: it trusts what it captured and checks nothing. */
  function Expire(s: State, t: TimerId): State
    requires t in s.timers && s.timers[t].slot < |s.slots|
  {
    var job, k := s.timers[t].job, s.timers[t].slot;
    s.(timers := s.timers - {t},
       pending := s.pending - {job.id},
       log := s.log + [Resolution(job.id, job.attempts, TimedOut)],
       slots := s.slots[k := s.slots[k].(busy := false, ready := false, active := None)])
  }

  /** The timer callback. */
  function OnTimer(s: State, t: TimerId, kills: Kills): State
    requires HandlersInRange(s)
    requires t in s.timers ==> s.timers[t].slot < |s.slots|
  {
    if t !in s.timers then s else
    var k := s.timers[t].slot;
    Respawn(SignalChild(Expire(s, t), s.slots[k].proc, SigKill, kills), k, kills)
  }

  /** finishShutdownIfClosed */
  function FinishShutdown(s: State): State {
    if s.children.outstanding != map[] || !s.drain.shutdownArmed then s else
    s.(drain := s.drain.(
         shutdown := Drained, settlements := s.drain.settlements + 1, shutdownArmed := false, shutdownTimer := false))
  }

  /** Process p is no longer outstanding. */
  function Closed(s: State, p: ProcId): State {
    s.(children := s.children.(outstanding := s.children.outstanding - {p}, closed := s.children.closed + {p}))
  }

  /** The close event of process p, which comes at most once for each process. */
  function OnClose(s: State, p: ProcId): State {
    if p !in s.children.outstanding then s else
    Detach(FinishShutdown(Closed(s, p)), p)
  }

  /** Process p is open and no kill call has reached it. */
  predicate Unsignalled(s: State, p: ProcId) {
    && p in s.children.outstanding && p !in s.children.killed
    && forall i :: 0 <= i < |s.children.outstanding[p]| ==> !s.children.outstanding[p][i].sent
  }

  /** The last loop of shutdown, over the outstanding processes in the order they were forked. */
  function SignalAll(s: State, p: ProcId, bound: nat, kills: Kills): State
    requires HandlersInRange(s)
    decreases bound - p
  {
    if p >= bound then s
    else SignalAll(if Unsignalled(s, p) then SignalChild(s, p, SigTerm, kills) else s, p + 1, bound, kills)
  }

  /** shutdown up to its last loop; timeoutOk says that its argument is finite, positive and at most 5000. */
  function Closing(s: State, timeoutOk: bool): State {
    var d := s.drain.(shuttingDown := true);
    if !timeoutOk then s.(drain := d.(shutdown := BadTimeout, settlements := d.settlements + 1))
    else if s.children.outstanding == map[] then
      FinishShutdown(s.(drain := d.(shutdown := Draining, shutdownArmed := true)))
    else s.(drain := d.(shutdown := Draining, shutdownArmed := true, shutdownTimer := true))
  }

  function OnShutdown(s: State, timeoutOk: bool, kills: Kills): State
    requires HandlersInRange(s)
  {
    if s.drain.shutdown != NotRequested then s else SignalAll(Closing(s, timeoutOk), 0, s.children.nextProc, kills)
  }

  function OnShutdownTimer(s: State): State {
    if !s.drain.shutdownTimer then s else
    s.(drain := s.drain.(
         shutdown := Expired, settlements := s.drain.settlements + 1, shutdownArmed := false, shutdownTimer := false))
  }

  // ---------------------------------------------------------------- runs

  datatype Event =
    | Submit(execute: bool, prepared: bool)
    | Ready(slot: nat, proc: ProcId)
    | Reply(slot: nat, proc: ProcId, answer: Answer)
    | Failure(slot: nat, proc: ProcId)   // the error or the exit event
    | TimerFires(timer: TimerId)
    | Close(proc: ProcId)
    | RequestShutdown(timeoutOk: bool)
    | ShutdownExpires

  /** An event, and how the kill calls made while it is handled turn out. */
  datatype Input = Input(event: Event, kills: Kills)

  /** Listeners are closures over a slot of the pool; the process they are bound to is arbitrary, so an
      event may come from any generation, long after it was retired. */
  predicate Possible(s: State, e: Event) {
    && HandlersInRange(s)
    && (forall t :: t in s.timers ==> s.timers[t].slot < |s.slots|)
    && (e.Ready? || e.Reply? || e.Failure? ==> e.slot < |s.slots|)
  }

  function Step(s: State, i: Input): State
    requires Possible(s, i.event)
  {
    match i.event
    case Submit(execute, prepared) => OnSubmit(s, execute, prepared)
    case Ready(k, p) => OnReady(s, k, p)
    case Reply(k, p, answer) => OnAnswer(s, k, p, answer, i.kills)
    case Failure(k, p) => OnFailure(s, k, p, i.kills)
    case TimerFires(t) => OnTimer(s, t, i.kills)
    case Close(p) => OnClose(s, p)
    case RequestShutdown(timeoutOk) => OnShutdown(s, timeoutOk, i.kills)
    case ShutdownExpires => OnShutdownTimer(s)
  }

  /** The state after a run; an event that cannot happen is passed over. */
  function Run(s: State, inputs: seq<Input>): State
    decreases |inputs|
  {
    if inputs == [] then s else
    var last := |inputs| - 1;
    var before := Run(s, inputs[..last]);
    if Possible(before, inputs[last].event) then Step(before, inputs[last]) else before
  }
}
