/** What holds in every state of the pool, and that each elementary change of state keeps it. */
module PoolInvariant {
  import opened Options
  import opened PoolModel
  import opened PoolLedger

  // ---------------------------------------------------------------- jobs

  /** busy says exactly that a job is active, and only a ready slot is busy. */
  ghost predicate SlotsOk(slots: seq<Slot>) {
    forall k :: 0 <= k < |slots| ==>
      (slots[k].busy <==> slots[k].active.Some?) && (slots[k].busy ==> slots[k].ready)
  }

  /** The live timers are those of the active jobs, and each names its own job on its own slot. */
  ghost predicate TimersOk(slots: seq<Slot>, timers: map<TimerId, Timer>, nextTimer: nat) {
    && (forall t :: t in timers ==>
          && t < nextTimer
          && timers[t].slot < |slots|
          && slots[timers[t].slot].active == Some(Active(timers[t].job, t)))
    && (forall k :: 0 <= k < |slots| && slots[k].active.Some? ==>
          && slots[k].active.value.timer in timers
          && timers[slots[k].active.value.timer] == Timer(slots[k].active.value.job, k))
  }

  /** The keys of pending are exactly the ids of the active jobs. */
  ghost predicate PendingOk(slots: seq<Slot>, pending: map<JobId, Active>) {
    && (forall k :: 0 <= k < |slots| && slots[k].active.Some? ==>
          && slots[k].active.value.job.id in pending
          && pending[slots[k].active.value.job.id] == slots[k].active.value)
    && (forall id :: id in pending ==> OnSlots(slots, id) >= 1)
  }

  /** Every submitted job is in exactly one place, and no other job is in any. */
  ghost predicate LedgerOk(queue: seq<Job>, slots: seq<Slot>, log: seq<Resolution>, nextId: nat) {
    forall id: nat :: Places(queue, slots, log, id) == if id < nextId then 1 else 0
  }

  ghost predicate JobsOk(s: State) {
    && SlotsOk(s.slots)
    && TimersOk(s.slots, s.timers, s.nextTimer)
    && PendingOk(s.slots, s.pending)
    && LedgerOk(s.queue, s.slots, s.log, s.nextId)
  }

  // ---------------------------------------------------------------- attempts and order

  ghost predicate QueuedJobOk(job: Job, sentTo: seq<ProcId>) {
    job.retries <= MAX_WORKER_CRASH_RETRIES && job.attempts == job.retries == |sentTo|
  }

  ghost predicate ActiveJobOk(slot: Slot, sentTo: seq<ProcId>) {
    slot.active.Some? ==>
      && slot.active.value.job.retries <= MAX_WORKER_CRASH_RETRIES
      && slot.active.value.job.attempts == slot.active.value.job.retries + 1 == |sentTo|
      && sentTo[|sentTo| - 1] == slot.proc
  }

  /** A settled job was sent once, or twice to different processes, and its answer came from the process it was sent to
      last. */
  ghost predicate SettledJobOk(r: Resolution, sentTo: seq<ProcId>) {
    && 1 <= r.attempts == |sentTo| <= 1 + MAX_WORKER_CRASH_RETRIES
    && (r.attempts == 2 ==> sentTo[0] != sentTo[1])
    && match r.outcome
       case Answered(p) => p == sentTo[|sentTo| - 1]
       case Invalid(p) => p == sentTo[|sentTo| - 1]
       case Refused => false
       case TimedOut => true
       case CrashedTwice => r.attempts == 1 + MAX_WORKER_CRASH_RETRIES
  }

  ghost predicate SendsOk(queue: seq<Job>, slots: seq<Slot>, log: seq<Resolution>, sends: seq<Send>, nextId: nat) {
    && (forall i :: 0 <= i < |queue| ==> QueuedJobOk(queue[i], SentTo(sends, queue[i].id)))
    && (forall k :: 0 <= k < |slots| && slots[k].active.Some? ==>
          ActiveJobOk(slots[k], SentTo(sends, slots[k].active.value.job.id)))
    && (forall i :: 0 <= i < |log| ==> SettledJobOk(log[i], SentTo(sends, log[i].id)))
    && (forall id: nat :: id >= nextId ==> SentTo(sends, id) == [])
  }

  /** Process p has been forked and serves no slot, except possibly the slot hole. */
  ghost predicate Retired(slots: seq<Slot>, nextProc: nat, hole: nat, p: ProcId) {
    p < nextProc && forall k :: 0 <= k < |slots| && k != hole ==> slots[k].proc != p
  }

  /** The process that crashed under a job's first attempt is never used again. Between a crash and the
      replacement of the process its slot is the hole; at all other times hole is |slots|. */
  ghost predicate RetiredOk(queue: seq<Job>, slots: seq<Slot>, sends: seq<Send>, nextProc: nat, hole: nat) {
    && (forall i :: 0 <= i < |queue| && SentTo(sends, queue[i].id) != [] ==>
          Retired(slots, nextProc, hole, SentTo(sends, queue[i].id)[0]))
    && (forall k :: 0 <= k < |slots| && slots[k].active.Some? && |SentTo(sends, slots[k].active.value.job.id)| > 1 ==>
          Retired(slots, nextProc, hole, SentTo(sends, slots[k].active.value.job.id)[0]))
  }

  /** The number of jobs that have left the queue for the first time. */
  ghost function Started(queue: seq<Job>, nextId: nat): int {
    nextId - (|queue| - Waiting(queue))
  }

  /** The queue is a prefix of retries followed by the never-started jobs in submission order. */
  ghost predicate QueueOk(queue: seq<Job>, nextId: nat) {
    && 0 <= Started(queue, nextId)
    && (forall i :: Waiting(queue) <= i < |queue| ==>
          queue[i].retries == 0 && queue[i].id == nextId - |queue| + i)
  }

  ghost function Iota(n: int): seq<nat> {
    if n <= 0 then [] else Iota(n - 1) + [n - 1]
  }

  /** Jobs are started for the first time in exactly the order in which they were submitted. */
  ghost predicate OrderOk(queue: seq<Job>, sends: seq<Send>, nextId: nat) {
    FirstSends(sends) == Iota(Started(queue, nextId))
  }

  ghost predicate CapacityOk(queue: seq<Job>, slots: seq<Slot>) {
    Waiting(queue) + FirstTries(slots) <= |slots|
  }

  ghost predicate HistoryOk(s: State, hole: nat) {
    && SendsOk(s.queue, s.slots, s.log, s.sends, s.nextId)
    && RetiredOk(s.queue, s.slots, s.sends, s.children.nextProc, hole)
    && QueueOk(s.queue, s.nextId)
    && OrderOk(s.queue, s.sends, s.nextId)
    && CapacityOk(s.queue, s.slots)
  }

  // ---------------------------------------------------------------- processes

  /** The slots have distinct processes, and job handlers are attached to current processes only. */
  ghost predicate CurrentOk(slots: seq<Slot>, attached: map<ProcId, nat>, nextProc: nat) {
    && (forall k :: 0 <= k < |slots| ==> slots[k].proc < nextProc)
    && (forall j, k :: 0 <= j < k < |slots| ==> slots[j].proc != slots[k].proc)
    && (forall p: ProcId :: p in attached ==> attached[p] < |slots| && slots[attached[p]].proc == p)
  }

  /** A process that was forked is outstanding until it closes. */
  ghost predicate LifetimesOk(c: Children) {
    && (forall p: ProcId :: p in c.outstanding <==> p < c.nextProc && p !in c.closed)
    && (forall p: ProcId :: p in c.closed ==> p < c.nextProc)
  }

  ghost predicate BuiltinOk(c: Children) {
    && (c.unified ==> c.builtin)
    && (forall p: ProcId :: p in c.preparedChildren <==> c.builtin && p < c.nextProc)
  }

  /** Only a pool of builtin workers holds prepared jobs. */
  ghost predicate PreparedOk(queue: seq<Job>, slots: seq<Slot>, builtin: bool) {
    && (forall i :: 0 <= i < |queue| ==> queue[i].prepared ==> builtin)
    && (forall k :: 0 <= k < |slots| && slots[k].active.Some? ==> slots[k].active.value.job.prepared ==> builtin)
  }

  /** The shutdown promise is settled at most once, and it resolves only when every process has closed. */
  ghost predicate ShutdownOk(d: Drain, open: set<ProcId>) {
    && (d.shuttingDown <==> d.shutdown != NotRequested)
    && (d.shutdownArmed <==> d.shutdown == Draining)
    && (d.shutdownTimer <==> d.shutdown == Draining)
    && d.settlements == (if d.shutdown in {NotRequested, Draining} then 0 else 1)
    && (d.shutdown == Drained ==> open == {})
    && (d.shutdown == Draining ==> open != {})
  }

  ghost predicate ProcessesOk(s: State) {
    && CurrentOk(s.slots, s.children.attached, s.children.nextProc)
    && LifetimesOk(s.children)
    && BuiltinOk(s.children)
    && PreparedOk(s.queue, s.slots, s.children.builtin)
    && ShutdownOk(s.drain, s.children.outstanding.Keys)
  }

  /** Everything above. */
  ghost predicate Consistent(s: State, hole: nat) {
    JobsOk(s) && HistoryOk(s, hole) && ProcessesOk(s)
  }

  // ---------------------------------------------------------------- wake-ups

  ghost predicate Idle(slot: Slot) { slot.ready && !slot.busy }

  /** A job waits although a slot could take it. */
  ghost predicate Stuck(s: State) {
    && !s.drain.shuttingDown
    && s.queue != []
    && exists k :: 0 <= k < |s.slots| && Idle(s.slots[k])
  }

  /** If a job waits beside an idle slot then some slot is not ready, and so still owes a ready message. */
  ghost predicate WakeOk(s: State) {
    Stuck(s) ==> exists k :: 0 <= k < |s.slots| && !s.slots[k].ready
  }

  /** The invariant of the pool between events. */
  ghost predicate Valid(s: State) {
    Consistent(s, |s.slots|) && WakeOk(s)
  }

  // ---------------------------------------------------------------- a job leaves a slot

  lemma SlotUpdate(slots: seq<Slot>, k: nat, slot: Slot)
    requires k < |slots|
    ensures forall id: nat :: OnSlots(slots[k := slot], id) + (if Runs(slots[k], id) then 1 else 0)
                           == OnSlots(slots, id) + (if Runs(slot, id) then 1 else 0)
  {
    forall id: nat ensures OnSlots(slots[k := slot], id) + (if Runs(slots[k], id) then 1 else 0)
                        == OnSlots(slots, id) + (if Runs(slot, id) then 1 else 0)
    {
      OnSlotsUpdate(slots, k, slot, id);
    }
  }

  /** An active job is nowhere else. */
  lemma ActiveAlone(s: State, k: nat)
    requires LedgerOk(s.queue, s.slots, s.log, s.nextId)
    requires k < |s.slots| && s.slots[k].active.Some?
    ensures var id := s.slots[k].active.value.job.id;
      && id < s.nextId
      && OnSlots(s.slots, id) == 1
      && (forall j :: 0 <= j < |s.slots| && j != k ==> !Runs(s.slots[j], id))
      && (forall i :: 0 <= i < |s.queue| ==> s.queue[i].id != id)
      && (forall i :: 0 <= i < |s.log| ==> s.log[i].id != id)
  {
    var id := s.slots[k].active.value.job.id;
    OnSlotsHas(s.slots, k, id);
    assert Places(s.queue, s.slots, s.log, id) == 1;
    forall j | 0 <= j < |s.slots| && j != k ensures !Runs(s.slots[j], id) {
      if Runs(s.slots[j], id) { OnSlotsHasTwo(s.slots, j, k, id); }
    }
    forall i | 0 <= i < |s.queue| ensures s.queue[i].id != id {
      if s.queue[i].id == id { InQueueHas(s.queue, i); }
    }
    forall i | 0 <= i < |s.log| ensures s.log[i].id != id {
      if s.log[i].id == id { InLogHas(s.log, i); }
    }
  }

  /** Timers and pending after the job of slot k has been taken away. */
  lemma VacateKeepsTimersAndPending(s: State, k: nat, ready: bool)
    requires JobsOk(s) && k < |s.slots| && s.slots[k].active.Some?
    ensures var active := s.slots[k].active.value;
      var slots := s.slots[k := s.slots[k].(busy := false, ready := ready, active := None)];
      && SlotsOk(slots)
      && TimersOk(slots, s.timers - {active.timer}, s.nextTimer)
      && PendingOk(slots, s.pending - {active.job.id})
  {
    var active := s.slots[k].active.value;
    var vacant := s.slots[k].(busy := false, ready := ready, active := None);
    ActiveAlone(s, k);
    SlotUpdate(s.slots, k, vacant);
  }

  lemma FinishKeepsJobs(s: State, k: nat, outcome: Outcome, ready: bool)
    requires JobsOk(s) && k < |s.slots| && s.slots[k].active.Some?
    ensures JobsOk(Finish(s, k, outcome, ready))
  {
    var r := Finish(s, k, outcome, ready);
    VacateKeepsTimersAndPending(s, k, ready);
    SlotUpdate(s.slots, k, r.slots[k]);
    forall id: nat ensures Places(r.queue, r.slots, r.log, id) == Places(s.queue, s.slots, s.log, id) {
      InLogAppend(s.log, r.log[|s.log|], id);
    }
  }

  lemma RequeueKeepsJobs(s: State, k: nat)
    requires JobsOk(s) && k < |s.slots| && s.slots[k].active.Some?
    ensures JobsOk(Requeue(s, k))
  {
    var r := Requeue(s, k);
    VacateKeepsTimersAndPending(s, k, false);
    SlotUpdate(s.slots, k, r.slots[k]);
    forall id: nat ensures Places(r.queue, r.slots, r.log, id) == Places(s.queue, s.slots, s.log, id) {
      InQueuePush(s.queue, r.queue[0], id);
    }
  }

  // ---------------------------------------------------------------- a job enters a slot

  lemma StartKeepsLedger(s: State, k: nat)
    requires LedgerOk(s.queue, s.slots, s.log, s.nextId) && k < |s.slots| && s.slots[k].active.None? && s.queue != []
    ensures var r := Start(s, k); LedgerOk(r.queue, r.slots, r.log, r.nextId)
  {
    var r := Start(s, k);
    SlotUpdate(s.slots, k, r.slots[k]);
    forall i: nat ensures Places(r.queue, r.slots, r.log, i) == Places(s.queue, s.slots, s.log, i) {
    }
  }

  lemma StartKeepsPending(s: State, k: nat)
    requires PendingOk(s.slots, s.pending) && k < |s.slots| && s.slots[k].active.None? && s.queue != []
    requires s.queue[0].id !in s.pending
    ensures var r := Start(s, k); PendingOk(r.slots, r.pending)
  {
    var r := Start(s, k);
    SlotUpdate(s.slots, k, r.slots[k]);
    forall id | id in r.pending ensures OnSlots(r.slots, id) >= 1 {
      if id == s.queue[0].id {
        OnSlotsHas(r.slots, k, id);
      } else {
        assert OnSlots(s.slots, id) >= 1;
      }
    }
  }

  lemma StartKeepsJobs(s: State, k: nat)
    requires JobsOk(s) && k < |s.slots| && Idle(s.slots[k]) && s.queue != []
    ensures JobsOk(Start(s, k))
  {
    InQueueHas(s.queue, 0);
    assert Places(s.queue, s.slots, s.log, s.queue[0].id) == 1;
    StartKeepsLedger(s, k);
    StartKeepsPending(s, k);
  }

  // ---------------------------------------------------------------- attempts and order are kept

  lemma SendFrame(sends: seq<Send>, send: Send)
    ensures forall id: nat ::
      SentTo(sends + [send], id) == SentTo(sends, id) + if send.id == id then [send.proc] else []
  {
    forall id: nat ensures SentTo(sends + [send], id) == SentTo(sends, id) + if send.id == id then [send.proc] else [] {
      SentToAppend(sends, send, id);
    }
  }

  lemma FinishKeepsSends(s: State, k: nat, outcome: Outcome, ready: bool)
    requires k < |s.slots| && s.slots[k].active.Some?
    requires SendsOk(s.queue, s.slots, s.log, s.sends, s.nextId)
    requires var job := s.slots[k].active.value.job;
      SettledJobOk(Resolution(job.id, job.attempts, outcome), SentTo(s.sends, job.id))
    ensures var r := Finish(s, k, outcome, ready); SendsOk(r.queue, r.slots, r.log, r.sends, r.nextId)
  {
  }

  lemma FinishKeepsRetired(s: State, k: nat, outcome: Outcome, ready: bool)
    requires k < |s.slots| && s.slots[k].active.Some?
    requires RetiredOk(s.queue, s.slots, s.sends, s.children.nextProc, |s.slots|)
    ensures var r := Finish(s, k, outcome, ready); RetiredOk(r.queue, r.slots, r.sends, r.children.nextProc, |s.slots|)
  {
    var r := Finish(s, k, outcome, ready);
    assert forall j :: 0 <= j < |r.slots| ==> r.slots[j].proc == s.slots[j].proc;
    assert forall p: ProcId :: Retired(s.slots, s.children.nextProc, |s.slots|, p) ==>
        Retired(r.slots, r.children.nextProc, |s.slots|, p);
  }

  lemma FinishKeepsHistory(s: State, k: nat, outcome: Outcome, ready: bool)
    requires JobsOk(s) && HistoryOk(s, |s.slots|) && k < |s.slots| && s.slots[k].active.Some?
    requires match outcome
             case Answered(p) => p == s.slots[k].proc
             case Invalid(p) => p == s.slots[k].proc
             case Refused => false
             case TimedOut => true
             case CrashedTwice => s.slots[k].active.value.job.retries == MAX_WORKER_CRASH_RETRIES
    ensures HistoryOk(Finish(s, k, outcome, ready), |s.slots|)
  {
    FirstTriesUpdate(s.slots, k, Finish(s, k, outcome, ready).slots[k]);
    FinishKeepsSends(s, k, outcome, ready);
    FinishKeepsRetired(s, k, outcome, ready);
  }

  lemma RequeueKeepsSends(s: State, k: nat)
    requires JobsOk(s) && k < |s.slots| && s.slots[k].active.Some?
    requires SendsOk(s.queue, s.slots, s.log, s.sends, s.nextId)
    requires s.slots[k].active.value.job.retries < MAX_WORKER_CRASH_RETRIES
    ensures var r := Requeue(s, k); SendsOk(r.queue, r.slots, r.log, r.sends, r.nextId)
  {
    var r := Requeue(s, k);
    assert forall i :: 0 < i < |r.queue| ==> r.queue[i] == s.queue[i - 1];
  }

  lemma RequeueRetires(s: State, k: nat)
    requires k < |s.slots| && s.slots[k].active.Some?
    requires SendsOk(s.queue, s.slots, s.log, s.sends, s.nextId)
    requires RetiredOk(s.queue, s.slots, s.sends, s.children.nextProc, |s.slots|)
    requires CurrentOk(s.slots, s.children.attached, s.children.nextProc)
    requires s.slots[k].active.value.job.retries < MAX_WORKER_CRASH_RETRIES
    ensures var r := Requeue(s, k); RetiredOk(r.queue, r.slots, r.sends, r.children.nextProc, k)
  {
    var r := Requeue(s, k);
    assert forall i :: 0 < i < |r.queue| ==> r.queue[i] == s.queue[i - 1];
    assert forall j :: 0 <= j < |r.slots| ==> r.slots[j].proc == s.slots[j].proc;
    assert forall p: ProcId :: Retired(s.slots, s.children.nextProc, |s.slots|, p) ==>
        Retired(r.slots, r.children.nextProc, k, p);
  }

  lemma RequeueKeepsQueue(s: State, k: nat)
    requires k < |s.slots| && s.slots[k].active.Some?
    requires ActiveJobOk(s.slots[k], SentTo(s.sends, s.slots[k].active.value.job.id))
    requires QueueOk(s.queue, s.nextId) && OrderOk(s.queue, s.sends, s.nextId) && CapacityOk(s.queue, s.slots)
    requires s.slots[k].active.value.job.retries < MAX_WORKER_CRASH_RETRIES
    ensures var r := Requeue(s, k);
      QueueOk(r.queue, r.nextId) && OrderOk(r.queue, r.sends, r.nextId) && CapacityOk(r.queue, r.slots)
  {
    var r := Requeue(s, k);
    FirstTriesUpdate(s.slots, k, r.slots[k]);
    WaitingPush(s.queue, r.queue[0]);
    assert forall i :: 0 < i < |r.queue| ==> r.queue[i] == s.queue[i - 1];
  }

  lemma RequeueKeepsHistory(s: State, k: nat)
    requires Consistent(s, |s.slots|) && k < |s.slots| && s.slots[k].active.Some?
    requires s.slots[k].active.value.job.retries < MAX_WORKER_CRASH_RETRIES
    ensures HistoryOk(Requeue(s, k), k)
  {
    RequeueKeepsSends(s, k);
    RequeueRetires(s, k);
    RequeueKeepsQueue(s, k);
  }

  lemma ReplaceKeepsSends(s: State, k: nat)
    requires SendsOk(s.queue, s.slots, s.log, s.sends, s.nextId) && k < |s.slots|
    ensures var r := Replace(s, k); SendsOk(r.queue, r.slots, r.log, r.sends, r.nextId)
  {
  }

  lemma ReplaceKeepsRetired(s: State, k: nat)
    requires RetiredOk(s.queue, s.slots, s.sends, s.children.nextProc, k) && k < |s.slots|
    ensures var r := Replace(s, k); RetiredOk(r.queue, r.slots, r.sends, r.children.nextProc, |s.slots|)
  {
    var r := Replace(s, k);
    assert forall p: ProcId :: Retired(s.slots, s.children.nextProc, k, p) ==>
        Retired(r.slots, r.children.nextProc, |s.slots|, p);
  }

  lemma ReplaceKeepsHistory(s: State, k: nat)
    requires HistoryOk(s, k) && CurrentOk(s.slots, s.children.attached, s.children.nextProc)
    requires k < |s.slots| && s.slots[k].active.None?
    ensures HistoryOk(Replace(s, k), |s.slots|)
  {
    FirstTriesUpdate(s.slots, k, Replace(s, k).slots[k]);
    ReplaceKeepsSends(s, k);
    ReplaceKeepsRetired(s, k);
  }

  /** The job at the head of the queue is nowhere else. */
  lemma HeadAlone(s: State)
    requires LedgerOk(s.queue, s.slots, s.log, s.nextId) && s.queue != []
    ensures var id := s.queue[0].id;
      && id < s.nextId
      && (forall i :: 1 <= i < |s.queue| ==> s.queue[i].id != id)
      && (forall k :: 0 <= k < |s.slots| ==> !Runs(s.slots[k], id))
      && (forall i :: 0 <= i < |s.log| ==> s.log[i].id != id)
  {
    var id := s.queue[0].id;
    InQueueHas(s.queue, 0);
    assert Places(s.queue, s.slots, s.log, id) == 1;
    forall i | 1 <= i < |s.queue| ensures s.queue[i].id != id {
      if s.queue[i].id == id { InQueueHas(s.queue[1..], i - 1); }
    }
    forall k | 0 <= k < |s.slots| ensures !Runs(s.slots[k], id) {
      if Runs(s.slots[k], id) { OnSlotsHas(s.slots, k, id); }
    }
    forall i | 0 <= i < |s.log| ensures s.log[i].id != id {
      if s.log[i].id == id { InLogHas(s.log, i); }
    }
  }

  /** Starting the head of the queue adds its own send, and leaves every other job's sends as they were. */
  lemma StartSends(s: State, k: nat)
    requires LedgerOk(s.queue, s.slots, s.log, s.nextId) && k < |s.slots| && s.queue != []
    ensures var r := Start(s, k);
      && SentTo(r.sends, s.queue[0].id) == SentTo(s.sends, s.queue[0].id) + [s.slots[k].proc]
      && (forall i :: 0 <= i < |r.queue| ==>
            r.queue[i] == s.queue[i + 1] && SentTo(r.sends, r.queue[i].id) == SentTo(s.sends, r.queue[i].id))
      && (forall j :: 0 <= j < |r.slots| && j != k ==>
            r.slots[j] == s.slots[j] && (s.slots[j].active.Some? ==>
              SentTo(r.sends, s.slots[j].active.value.job.id) == SentTo(s.sends, s.slots[j].active.value.job.id)))
      && (forall i :: 0 <= i < |s.log| ==> SentTo(r.sends, s.log[i].id) == SentTo(s.sends, s.log[i].id))
      && (forall id: nat :: id >= s.nextId ==> SentTo(r.sends, id) == SentTo(s.sends, id))
  {
    HeadAlone(s);
    SendFrame(s.sends, Send(s.queue[0].id, s.slots[k].proc));
    assert forall j :: 0 <= j < |s.slots| ==> !Runs(s.slots[j], s.queue[0].id);
  }

  lemma StartKeepsSends(s: State, k: nat)
    requires LedgerOk(s.queue, s.slots, s.log, s.nextId) && k < |s.slots| && s.queue != []
    requires SendsOk(s.queue, s.slots, s.log, s.sends, s.nextId)
    ensures var r := Start(s, k); SendsOk(r.queue, r.slots, r.log, r.sends, r.nextId)
  {
    StartSends(s, k);
    assert QueuedJobOk(s.queue[0], SentTo(s.sends, s.queue[0].id));
  }

  lemma StartKeepsRetired(s: State, k: nat)
    requires LedgerOk(s.queue, s.slots, s.log, s.nextId) && k < |s.slots| && s.queue != []
    requires SendsOk(s.queue, s.slots, s.log, s.sends, s.nextId)
    requires RetiredOk(s.queue, s.slots, s.sends, s.children.nextProc, |s.slots|)
    ensures var r := Start(s, k); RetiredOk(r.queue, r.slots, r.sends, r.children.nextProc, |s.slots|)
  {
    var r := Start(s, k);
    StartSends(s, k);
    assert forall j :: 0 <= j < |r.slots| ==> r.slots[j].proc == s.slots[j].proc;
    assert forall p: ProcId :: Retired(s.slots, s.children.nextProc, |s.slots|, p) ==>
        Retired(r.slots, r.children.nextProc, |s.slots|, p);
  }

  lemma StartKeepsQueue(s: State, k: nat)
    requires k < |s.slots| && s.slots[k].active.None? && s.queue != []
    requires QueuedJobOk(s.queue[0], SentTo(s.sends, s.queue[0].id))
    requires QueueOk(s.queue, s.nextId) && OrderOk(s.queue, s.sends, s.nextId) && CapacityOk(s.queue, s.slots)
    ensures var r := Start(s, k);
      QueueOk(r.queue, r.nextId) && OrderOk(r.queue, r.sends, r.nextId) && CapacityOk(r.queue, r.slots)
  {
    var r := Start(s, k);
    SentToAppend(s.sends, Send(s.queue[0].id, s.slots[k].proc), s.queue[0].id);
    FirstTriesUpdate(s.slots, k, r.slots[k]);
    assert forall i :: 0 <= i < |r.queue| ==> r.queue[i] == s.queue[i + 1];
    if s.queue[0].retries == 0 {
      assert Waiting(s.queue) == 0;
      assert Waiting(r.queue) == 0 by {
        if r.queue != [] { assert s.queue[1].retries == 0; }
      }
    }
  }

  lemma StartKeepsHistory(s: State, k: nat)
    requires Consistent(s, |s.slots|) && k < |s.slots| && Idle(s.slots[k]) && s.queue != []
    ensures HistoryOk(Start(s, k), |s.slots|)
  {
    StartKeepsSends(s, k);
    StartKeepsRetired(s, k);
    StartKeepsQueue(s, k);
  }
}
