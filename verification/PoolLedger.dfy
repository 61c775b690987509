/** Counting the jobs of a pool: which ids wait in the queue, are active on a slot, or are settled,
    and to which processes a job was sent. */
module PoolLedger {
  import opened Options
  import opened PoolModel

  // ---------------------------------------------------------------- places of a job

  /** How often job id waits in the queue. */
  ghost function InQueue(queue: seq<Job>, id: JobId): nat {
    if queue == [] then 0 else (if queue[0].id == id then 1 else 0) + InQueue(queue[1..], id)
  }

  ghost predicate Runs(slot: Slot, id: JobId) {
    slot.active.Some? && slot.active.value.job.id == id
  }

  /** On how many slots job id is active. */
  ghost function OnSlots(slots: seq<Slot>, id: JobId): nat {
    if slots == [] then 0
    else OnSlots(slots[..|slots| - 1], id) + if Runs(slots[|slots| - 1], id) then 1 else 0
  }

  /** How often job id was settled. */
  ghost function InLog(log: seq<Resolution>, id: JobId): nat {
    if log == [] then 0 else InLog(log[..|log| - 1], id) + if log[|log| - 1].id == id then 1 else 0
  }

  /** The number of places that hold job id. */
  ghost function Places(queue: seq<Job>, slots: seq<Slot>, log: seq<Resolution>, id: JobId): nat {
    InQueue(queue, id) + OnSlots(slots, id) + InLog(log, id)
  }

  lemma {:induction false} InQueueAppend(queue: seq<Job>, job: Job, id: JobId)
    ensures InQueue(queue + [job], id) == InQueue(queue, id) + if job.id == id then 1 else 0
  {
    if queue == [] {
      assert queue + [job] == [job];
    } else {
      assert (queue + [job])[1..] == queue[1..] + [job];
      InQueueAppend(queue[1..], job, id);
    }
  }

  lemma InQueuePush(queue: seq<Job>, job: Job, id: JobId)
    ensures InQueue([job] + queue, id) == InQueue(queue, id) + if job.id == id then 1 else 0
  {
    assert ([job] + queue)[1..] == queue;
  }

  lemma {:induction false} InQueueHas(queue: seq<Job>, i: nat)
    requires i < |queue|
    ensures InQueue(queue, queue[i].id) >= 1
  {
    if i > 0 {
      InQueueHas(queue[1..], i - 1);
    }
  }

  lemma {:induction false} OnSlotsUpdate(slots: seq<Slot>, k: nat, slot: Slot, id: JobId)
    requires k < |slots|
    ensures OnSlots(slots[k := slot], id) + (if Runs(slots[k], id) then 1 else 0)
         == OnSlots(slots, id) + (if Runs(slot, id) then 1 else 0)
  {
    var last := |slots| - 1;
    if k == last {
      assert slots[k := slot][..last] == slots[..last];
    } else {
      assert slots[k := slot][..last] == slots[..last][k := slot];
      OnSlotsUpdate(slots[..last], k, slot, id);
    }
  }

  lemma {:induction false} OnSlotsHas(slots: seq<Slot>, k: nat, id: JobId)
    requires k < |slots| && Runs(slots[k], id)
    ensures OnSlots(slots, id) >= 1
  {
    if k < |slots| - 1 {
      OnSlotsHas(slots[..|slots| - 1], k, id);
    }
  }

  lemma OnSlotsHasTwo(slots: seq<Slot>, j: nat, k: nat, id: JobId)
    requires j < |slots| && k < |slots| && j != k && Runs(slots[j], id) && Runs(slots[k], id)
    ensures OnSlots(slots, id) >= 2
  {
    var emptied := slots[k].(active := None);
    OnSlotsUpdate(slots, k, emptied, id);
    OnSlotsHas(slots[k := emptied], j, id);
  }

  lemma {:induction false} OnSlotsFind(slots: seq<Slot>, id: JobId) returns (k: nat)
    requires OnSlots(slots, id) >= 1
    ensures k < |slots| && Runs(slots[k], id)
  {
    k := |slots| - 1;
    if !Runs(slots[k], id) {
      k := OnSlotsFind(slots[..k], id);
    }
  }

  lemma {:induction false} InLogHas(log: seq<Resolution>, i: nat)
    requires i < |log|
    ensures InLog(log, log[i].id) >= 1
  {
    if i < |log| - 1 {
      InLogHas(log[..|log| - 1], i);
    }
  }

  lemma InLogAppend(log: seq<Resolution>, r: Resolution, id: JobId)
    ensures InLog(log + [r], id) == InLog(log, id) + if r.id == id then 1 else 0
  {
    assert (log + [r])[..|log|] == log;
  }

  // ---------------------------------------------------------------- sends

  /** The processes job id was sent to, in order. */
  ghost function SentTo(sends: seq<Send>, id: JobId): seq<ProcId> {
    if sends == [] then [] else
    var last := sends[|sends| - 1];
    SentTo(sends[..|sends| - 1], id) + if last.id == id then [last.proc] else []
  }

  /** The ids in the order in which they were sent for the first time. */
  ghost function FirstSends(sends: seq<Send>): seq<JobId> {
    if sends == [] then [] else
    var init, last := sends[..|sends| - 1], sends[|sends| - 1];
    FirstSends(init) + if SentTo(init, last.id) == [] then [last.id] else []
  }

  lemma SentToAppend(sends: seq<Send>, send: Send, id: JobId)
    ensures SentTo(sends + [send], id) == SentTo(sends, id) + if send.id == id then [send.proc] else []
    ensures FirstSends(sends + [send]) == FirstSends(sends) + if SentTo(sends, send.id) == [] then [send.id] else []
  {
    assert (sends + [send])[..|sends|] == sends;
  }

  // ---------------------------------------------------------------- retries

  /** How many jobs at the front of the queue wait for their second attempt. */
  ghost function Waiting(queue: seq<Job>): (r: nat)
    ensures r <= |queue|
    ensures r < |queue| ==> queue[r].retries == 0
    ensures forall i :: 0 <= i < r ==> queue[i].retries > 0
  {
    if queue == [] || queue[0].retries == 0 then 0 else 1 + Waiting(queue[1..])
  }

  lemma {:induction false} WaitingAppend(queue: seq<Job>, job: Job)
    requires job.retries == 0
    ensures Waiting(queue + [job]) == Waiting(queue)
  {
    if queue != [] && queue[0].retries > 0 {
      assert (queue + [job])[1..] == queue[1..] + [job];
      WaitingAppend(queue[1..], job);
    }
  }

  lemma WaitingPush(queue: seq<Job>, job: Job)
    requires job.retries > 0
    ensures Waiting([job] + queue) == 1 + Waiting(queue)
  {
    assert ([job] + queue)[1..] == queue;
  }

  ghost function FirstTry(slot: Slot): nat {
    if slot.active.Some? && slot.active.value.job.attempts == 1 then 1 else 0
  }

  /** How many slots run the first attempt of their job. */
  ghost function FirstTries(slots: seq<Slot>): (r: nat)
    ensures r <= |slots|
  {
    if slots == [] then 0 else FirstTries(slots[..|slots| - 1]) + FirstTry(slots[|slots| - 1])
  }

  lemma {:induction false} FirstTriesUpdate(slots: seq<Slot>, k: nat, slot: Slot)
    requires k < |slots|
    ensures FirstTries(slots[k := slot]) + FirstTry(slots[k]) == FirstTries(slots) + FirstTry(slot)
  {
    var last := |slots| - 1;
    if k == last {
      assert slots[k := slot][..last] == slots[..last];
    } else {
      assert slots[k := slot][..last] == slots[..last][k := slot];
      FirstTriesUpdate(slots[..last], k, slot);
    }
  }
}
