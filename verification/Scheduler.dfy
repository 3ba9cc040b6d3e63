/** The task manager as a transition system: every section that holds the lock is one atomic step,
    and any number of runner goroutines take steps in any order.

    `T` is the identity of an internal task (in the program, the pointer made by cloneTask). */
module Scheduler {
  import opened Text

  /** Where a runTask goroutine stands. `Abandoned` is a poll loop that left through the stop channel. */
  datatype Pc = Spawned | Operating | Polling(upid: string) | Finished(ok: bool) | Abandoned

  datatype Runner<T> = Runner(task: T, key: string, pc: Pc)

  datatype Arrival<T> = Arrival(task: T, key: string)

  /** `queue` and `active` are the two maps of the manager, `runners` every goroutine ever spawned in
      start order, `arrived` every task ever enqueued in enqueue order. */
  datatype State<T(==)> = State(
    cap: nat,
    queue: map<string, seq<T>>,
    active: map<string, T>,
    runners: seq<Runner<T>>,
    stopped: bool,
    arrived: seq<Arrival<T>>,
    cancelled: set<T>)

  datatype PollReply = Unreachable | StillRunning | Stopped(exitStatus: string)

  datatype Step<T> =
    | Enqueue(task: T, key: string)
    | Begin(runner: nat)
    | OperationFailed(runner: nat)
    | OperationReturned(runner: nat, upid: string)
    | Poll(runner: nat, reply: PollReply)
    | CancelQueued(key: string, index: nat)
    | Stop
    | Quit(runner: nat)

  // ---- The steps ----

  function Waiting<T>(s: State<T>, key: string): seq<T> {
    if key in s.queue then s.queue[key] else []
  }

  predicate Startable<T>(s: State<T>, key: string) {
    key !in s.active && Waiting(s, key) != []
  }

  predicate TakesFastPath<T>(s: State<T>, key: string) {
    key !in s.active && |s.active| < s.cap
  }

  function AfterEnqueue<T>(s: State<T>, task: T, key: string): State<T> {
    var s' := s.(arrived := s.arrived + [Arrival(task, key)]);
    if TakesFastPath(s, key) then
      s'.(active := s.active[key := task], runners := s.runners + [Runner(task, key, Spawned)])
    else
      s'.(queue := s.queue[key := Waiting(s, key) + [task]])
  }

  /** Storing a shortened queue: an empty one is deleted from the map. */
  function WithQueue<T>(s: State<T>, key: string, rest: seq<T>): State<T> {
    s.(queue := if rest == [] then s.queue - {key} else s.queue[key := rest])
  }

  function AfterStart<T>(s: State<T>, key: string): State<T>
    requires Startable(s, key)
  {
    var next := Waiting(s, key)[0];
    WithQueue(s, key, Waiting(s, key)[1..]).(
      active := s.active[key := next],
      runners := s.runners + [Runner(next, key, Spawned)])
  }

  /** `key` is the startable key sort.Strings puts first. */
  ghost predicate LeastStartable<T>(s: State<T>, key: string) {
    Startable(s, key) && forall k :: k in s.queue && Startable(s, k) && k != key ==> Less(key, k)
  }

  ghost predicate Dequeues<T>(s: State<T>, preferred: string, s': State<T>) {
    if |s.active| >= s.cap then s' == s
    else if Startable(s, preferred) then s' == AfterStart(s, preferred)
    else
      || (exists key :: LeastStartable(s, key) && s' == AfterStart(s, key))
      || (s' == s && forall k :: k in s.queue ==> !Startable(s, k))
  }

  predicate AtPc<T>(s: State<T>, i: nat, pc: Pc) { i < |s.runners| && s.runners[i].pc == pc }

  function Moved<T>(s: State<T>, i: nat, pc: Pc): State<T>
    requires i < |s.runners|
  {
    s.(runners := s.runners[i := s.runners[i].(pc := pc)])
  }

  /** The slot of the finishing task's key is freed, whoever holds it. */
  function Freed<T>(s: State<T>, i: nat, ok: bool): State<T>
    requires i < |s.runners|
  {
    Moved(s, i, Finished(ok)).(active := s.active - {s.runners[i].key})
  }

  ghost predicate Completes<T>(s: State<T>, i: nat, ok: bool, s': State<T>)
    requires i < |s.runners|
  {
    Dequeues(Freed(s, i, ok), s.runners[i].key, s')
  }

  function AfterCancel<T>(s: State<T>, key: string, index: nat): State<T>
    requires index < |Waiting(s, key)|
  {
    var q := Waiting(s, key);
    WithQueue(s, key, q[..index] + q[index + 1..]).(cancelled := s.cancelled + {q[index]})
  }

  ghost predicate Next<T>(s: State<T>, step: Step<T>, s': State<T>) {
    match step
    case Enqueue(task, key) => !Arrived(s, task) && s' == AfterEnqueue(s, task, key)
    case Begin(i) => AtPc(s, i, Spawned) && s' == Moved(s, i, Operating)
    case OperationFailed(i) => AtPc(s, i, Operating) && Completes(s, i, false, s')
    case OperationReturned(i, upid) =>
      AtPc(s, i, Operating) && if upid == "" then Completes(s, i, true, s') else s' == Moved(s, i, Polling(upid))
    case Poll(i, reply) =>
      && i < |s.runners| && s.runners[i].pc.Polling?
      && (if reply.Stopped? then Completes(s, i, reply.exitStatus == "OK", s') else s' == s)
    case CancelQueued(key, index) => index < |Waiting(s, key)| && s' == AfterCancel(s, key, index)
    case Stop => !s.stopped && s' == s.(stopped := true)
    case Quit(i) => s.stopped && i < |s.runners| && s.runners[i].pc.Polling? && s' == Moved(s, i, Abandoned)
  }

  predicate Initial<T>(s: State<T>) {
    s.cap >= 1 && s.queue == map[] && s.active == map[] && s.runners == [] && !s.stopped && s.arrived == []
    && s.cancelled == {}
  }

  /** A run: a first state and, for each step taken, the state it leads to. */
  ghost predicate IsRun<T>(states: seq<State<T>>, steps: seq<Step<T>>) {
    |states| == |steps| + 1 && Initial(states[0])
    && forall i :: 0 <= i < |steps| ==> Next(states[i], steps[i], states[i + 1])
  }

  // ---- Histories ----

  predicate Arrived<T(==)>(s: State<T>, task: T) {
    exists i :: 0 <= i < |s.arrived| && s.arrived[i].task == task
  }

  predicate ArrivedFor<T(==)>(arrived: seq<Arrival<T>>, task: T, key: string) {
    exists i :: 0 <= i < |arrived| && arrived[i].key == key && arrived[i].task == task
  }

  /** The tasks of one key in the order they were given a slot. */
  function Started<T>(runners: seq<Runner<T>>, key: string): seq<T> {
    if runners == [] then []
    else
      var front, last := runners[..|runners| - 1], runners[|runners| - 1];
      Started(front, key) + if last.key == key then [last.task] else []
  }

  /** The tasks of one key in the order they were enqueued, leaving out `gone`. */
  function Kept<T(==)>(arrived: seq<Arrival<T>>, key: string, gone: set<T>): seq<T> {
    if arrived == [] then []
    else
      var front, last := arrived[..|arrived| - 1], arrived[|arrived| - 1];
      Kept(front, key, gone) + if last.key == key && last.task !in gone then [last.task] else []
  }

  predicate HoldsSlot(pc: Pc) { !pc.Finished? }

  // ---- The invariant ----

  /** A key waits only while its own slot is taken or all slots are taken. */
  predicate WorkConserving<T>(s: State<T>) {
    && 1 <= s.cap && |s.active| <= s.cap
    && (forall k :: k in s.queue ==> s.queue[k] != [])
    && (forall k :: k in s.queue ==> k in s.active || |s.active| == s.cap)
  }

  predicate HasRunner<T>(runners: seq<Runner<T>>, key: string) {
    exists i :: 0 <= i < |runners| && runners[i].key == key && HoldsSlot(runners[i].pc)
  }

  /** Every slot has exactly one goroutine working for it, and it works on the task in that slot. */
  predicate SlotsOwned<T>(s: State<T>) {
    && (forall i :: 0 <= i < |s.runners| && HoldsSlot(s.runners[i].pc) ==>
          s.runners[i].key in s.active && s.active[s.runners[i].key] == s.runners[i].task)
    && (forall k :: k in s.active ==> HasRunner(s.runners, k))
    && OneRunner(s)
  }

  predicate DistinctArrivals<T>(s: State<T>) {
    forall i, j :: 0 <= i < j < |s.arrived| ==> s.arrived[i].task != s.arrived[j].task
  }

  /** What a key has started, then what it still queues, is what it enqueued minus what was cancelled. */
  predicate FifoAt<T>(s: State<T>, key: string) {
    Started(s.runners, key) + Waiting(s, key) == Kept(s.arrived, key, s.cancelled)
  }

  ghost predicate Fifo<T>(s: State<T>) { forall key :: FifoAt(s, key) }

  ghost predicate Inv<T>(s: State<T>) {
    WorkConserving(s) && SlotsOwned(s) && DistinctArrivals(s) && Fifo(s)
    && (forall i :: 0 <= i < |s.runners| && s.runners[i].pc.Abandoned? ==> s.stopped)
    && (forall t :: t in s.cancelled ==> Arrived(s, t))
  }

  // ---- Lemmas on histories ----

  lemma StartedSnoc<T>(runners: seq<Runner<T>>, r: Runner<T>, key: string)
    ensures Started(runners + [r], key) == Started(runners, key) + if r.key == key then [r.task] else []
  {}

  lemma KeptSnoc<T>(arrived: seq<Arrival<T>>, a: Arrival<T>, key: string, gone: set<T>)
    ensures Kept(arrived + [a], key, gone)
         == Kept(arrived, key, gone) + if a.key == key && a.task !in gone then [a.task] else []
  {}

  /** Moving a goroutine along does not change who started. */
  lemma {:induction false} StartedMoved<T>(runners: seq<Runner<T>>, i: nat, pc: Pc, key: string)
    requires i < |runners|
    ensures Started(runners[i := runners[i].(pc := pc)], key) == Started(runners, key)
  {
    var moved := runners[i := runners[i].(pc := pc)];
    var n := |runners| - 1;
    if i < n {
      StartedMoved(runners[..n], i, pc, key);
      assert moved[..n] == runners[..n][i := runners[i].(pc := pc)];
    } else {
      assert moved[..n] == runners[..n];
    }
  }

  /** A started task is the task of a goroutine of that key, and the other way round. */
  lemma {:induction false} StartedMembers<T>(runners: seq<Runner<T>>, key: string)
    ensures forall i :: 0 <= i < |runners| && runners[i].key == key ==> runners[i].task in Started(runners, key)
    ensures forall t :: t in Started(runners, key) ==>
              exists i :: 0 <= i < |runners| && runners[i].key == key && runners[i].task == t
  {
    if runners != [] {
      var n := |runners| - 1;
      StartedMembers(runners[..n], key);
      forall t | t in Started(runners, key)
        ensures exists i :: 0 <= i < |runners| && runners[i].key == key && runners[i].task == t
      {
        if t in Started(runners[..n], key) {
          var i :| 0 <= i < n && runners[..n][i].key == key && runners[..n][i].task == t;
          assert runners[i].task == t;
        } else {
          assert runners[n].task == t;
        }
      }
      forall i | 0 <= i < |runners| && runners[i].key == key ensures runners[i].task in Started(runners, key) {
        if i < n { assert runners[..n][i] == runners[i]; }
      }
    }
  }

  lemma {:induction false} KeptMembers<T>(arrived: seq<Arrival<T>>, key: string, gone: set<T>)
    ensures forall i :: 0 <= i < |arrived| && arrived[i].key == key && arrived[i].task !in gone ==>
              arrived[i].task in Kept(arrived, key, gone)
    ensures forall t :: t in Kept(arrived, key, gone) ==>
              t !in gone && ArrivedFor(arrived, t, key)
  {
    if arrived != [] {
      var n := |arrived| - 1;
      KeptMembers(arrived[..n], key, gone);
      forall t | t in Kept(arrived, key, gone)
        ensures t !in gone && ArrivedFor(arrived, t, key)
      {
        if t in Kept(arrived[..n], key, gone) {
          var i :| 0 <= i < n && arrived[..n][i].key == key && arrived[..n][i].task == t;
          assert arrived[i].task == t;
        } else {
          assert arrived[n].task == t;
        }
      }
      forall i | 0 <= i < |arrived| && arrived[i].key == key && arrived[i].task !in gone
        ensures arrived[i].task in Kept(arrived, key, gone)
      {
        if i < n { assert arrived[..n][i] == arrived[i]; }
      }
    }
  }

  predicate NoRepeats<T(==)>(q: seq<T>) { forall i, j :: 0 <= i < j < |q| ==> q[i] != q[j] }

  lemma AppendNoRepeats<T>(a: seq<T>, b: seq<T>)
    requires NoRepeats(a + b)
    ensures forall t :: t in b ==> t !in a
  {
    forall i, j | 0 <= i < |a| && 0 <= j < |b| ensures a[i] != b[j] {
      assert (a + b)[i] == a[i] && (a + b)[|a| + j] == b[j];
    }
  }

  lemma {:induction false} KeptNoRepeats<T>(arrived: seq<Arrival<T>>, key: string, gone: set<T>)
    requires forall i, j :: 0 <= i < j < |arrived| ==> arrived[i].task != arrived[j].task
    ensures NoRepeats(Kept(arrived, key, gone))
  {
    if arrived != [] {
      var n := |arrived| - 1;
      KeptNoRepeats(arrived[..n], key, gone);
      KeptMembers(arrived[..n], key, gone);
      assert arrived[n].task !in Kept(arrived[..n], key, gone);
    }
  }

  /** Cancelling a task takes exactly that task out of the kept arrivals. */
  lemma {:induction false} KeptCancelled<T>(arrived: seq<Arrival<T>>, key: string, gone: set<T>, pos: nat)
    requires forall i, j :: 0 <= i < j < |arrived| ==> arrived[i].task != arrived[j].task
    requires pos < |Kept(arrived, key, gone)|
    ensures var kept := Kept(arrived, key, gone);
            Kept(arrived, key, gone + {kept[pos]}) == kept[..pos] + kept[pos + 1..]
  {
    var n := |arrived| - 1;
    var front := Kept(arrived[..n], key, gone);
    var task := Kept(arrived, key, gone)[pos];
    KeptNoRepeats(arrived, key, gone);
    var kept := Kept(arrived, key, gone);
    if pos < |front| {
      KeptCancelled(arrived[..n], key, gone, pos);
      KeptMembers(arrived[..n], key, gone);
      assert task == front[pos] && task != arrived[n].task;
      var tail := kept[|front|..];
      assert kept == front + tail;
      assert kept[..pos] + kept[pos + 1..] == front[..pos] + front[pos + 1..] + tail;
    } else {
      KeptMembers(arrived[..n], key, gone);
      assert task !in front;
      KeptUntouched(arrived[..n], key, gone, task);
    }
  }

  /** Cancelling a task leaves every key alone that does not keep it. */
  lemma {:induction false} KeptUntouched<T>(arrived: seq<Arrival<T>>, key: string, gone: set<T>, task: T)
    requires task !in Kept(arrived, key, gone)
    ensures Kept(arrived, key, gone + {task}) == Kept(arrived, key, gone)
  {
    if arrived != [] {
      KeptUntouched(arrived[..|arrived| - 1], key, gone, task);
    }
  }

  // ---- Every step keeps the invariant ----

  lemma InitialInv<T>(s: State<T>)
    requires Initial(s)
    ensures Inv(s)
  {}

  /** Work conservation makes the fast path fair: it is only taken when nothing of that key waits. */
  lemma FastPathOnlyWhenQueueEmpty<T>(s: State<T>, key: string)
    requires Inv(s) && TakesFastPath(s, key)
    ensures Waiting(s, key) == []
  {}

  lemma EnqueueKeepsFifo<T>(s: State<T>, task: T, key: string, k: string)
    requires FifoAt(s, k) && task !in s.cancelled
    requires TakesFastPath(s, key) ==> Waiting(s, key) == []
    ensures FifoAt(AfterEnqueue(s, task, key), k)
  {
    hide Kept, Started;
    var s' := AfterEnqueue(s, task, key);
    var last := if k == key then [task] else [];
    KeptSnoc(s.arrived, Arrival(task, key), k, s.cancelled);
    assert Kept(s'.arrived, k, s'.cancelled) == Started(s.runners, k) + Waiting(s, k) + last;
    if TakesFastPath(s, key) {
      StartedSnoc(s.runners, Runner(task, key, Spawned), k);
      assert Started(s'.runners, k) == Started(s.runners, k) + last;
      assert Waiting(s', k) == Waiting(s, k);
    } else {
      assert Waiting(s', k) == Waiting(s, k) + last;
    }
  }

  lemma EnqueueArrives<T>(s: State<T>, task: T, key: string)
    ensures ArrivedTasks(AfterEnqueue(s, task, key)) == ArrivedTasks(s) + {task}
  {
    var s' := AfterEnqueue(s, task, key);
    assert s'.arrived[|s.arrived|].task == task;
    forall t | t in ArrivedTasks(s) ensures t in ArrivedTasks(s') {
      var i :| 0 <= i < |s.arrived| && s.arrived[i].task == t;
      assert s'.arrived[i].task == t;
    }
  }

  lemma SameArrived<T>(s: State<T>, s': State<T>)
    requires s.arrived == s'.arrived
    ensures ArrivedTasks(s) == ArrivedTasks(s')
  {}

  /** No task has two goroutines. */
  predicate OneRunner<T>(s: State<T>) {
    forall i, j :: 0 <= i < j < |s.runners| ==> s.runners[i].task != s.runners[j].task
  }

  lemma CancelledKnown<T>(s: State<T>)
    requires Inv(s)
    ensures s.cancelled <= ArrivedTasks(s)
  {}

  lemma CancelledArrived<T>(s: State<T>, task: T)
    requires Inv(s) && !Arrived(s, task)
    ensures task !in s.cancelled
  {}

  lemma SpawnKeepsSlots<T>(s: State<T>, task: T, key: string, s': State<T>)
    requires SlotsOwned(s) && key !in s.active
    requires forall i :: 0 <= i < |s.runners| ==> s.runners[i].task != task
    requires s'.active == s.active[key := task] && s'.runners == s.runners + [Runner(task, key, Spawned)]
    ensures SlotsOwned(s') && |s'.active| == |s.active| + 1
  {
    forall k | k in s'.active
      ensures HasRunner(s'.runners, k)
    {
      if k in s.active {
        var i :| 0 <= i < |s.runners| && s.runners[i].key == k && HoldsSlot(s.runners[i].pc);
        assert s'.runners[i] == s.runners[i];
      } else {
        assert s'.runners[|s.runners|].key == k;
      }
    }
  }

  lemma EnqueueKeepsInv<T>(s: State<T>, task: T, key: string)
    requires Inv(s) && !Arrived(s, task)
    ensures Inv(AfterEnqueue(s, task, key))
  {
    var s' := AfterEnqueue(s, task, key);
    CancelledArrived(s, task);
    forall k ensures FifoAt(s', k) {
      assert FifoAt(s, k);
      EnqueueKeepsFifo(s, task, key, k);
    }
    EnqueueKeepsHistory(s, task, key);
    if TakesFastPath(s, key) {
      forall i | 0 <= i < |s.runners| ensures s.runners[i].task != task { RunnerArrived(s, i); }
      SpawnKeepsSlots(s, task, key, s');
    } else {
      SameSlots(s, s');
    }
    assert WorkConserving(s') by { EnqueueConserves(s, task, key); }
  }

  lemma EnqueueConserves<T>(s: State<T>, task: T, key: string)
    requires WorkConserving(s)
    ensures WorkConserving(AfterEnqueue(s, task, key))
  {}

  lemma EnqueueKeepsHistory<T>(s: State<T>, task: T, key: string)
    requires DistinctArrivals(s) && !Arrived(s, task)
    ensures DistinctArrivals(AfterEnqueue(s, task, key))
    ensures forall t :: t in s.cancelled && Arrived(s, t) ==> Arrived(AfterEnqueue(s, task, key), t)
  {
    var s' := AfterEnqueue(s, task, key);
    forall t | t in s.cancelled && Arrived(s, t) ensures Arrived(s', t) {
      var i :| 0 <= i < |s.arrived| && s.arrived[i].task == t;
      assert s'.arrived[i].task == t;
    }
  }

  lemma RunnerArrived<T>(s: State<T>, i: nat)
    requires Fifo(s) && i < |s.runners|
    ensures s.runners[i].task in Kept(s.arrived, s.runners[i].key, s.cancelled)
    ensures Arrived(s, s.runners[i].task) && s.runners[i].task !in s.cancelled
  {
    var key := s.runners[i].key;
    StartedMembers(s.runners, key);
    assert FifoAt(s, key);
    KeptMembers(s.arrived, key, s.cancelled);
  }

  /** A goroutine that moves on without giving up its slot. */
  lemma MoveKeepsInv<T>(s: State<T>, i: nat, pc: Pc)
    requires Inv(s) && i < |s.runners| && HoldsSlot(s.runners[i].pc) && HoldsSlot(pc)
    requires pc.Abandoned? ==> s.stopped
    ensures Inv(Moved(s, i, pc))
  {
    var s' := Moved(s, i, pc);
    forall k ensures FifoAt(s', k) {
      StartedMoved(s.runners, i, pc, k);
      assert FifoAt(s, k);
    }
    forall k | k in s'.active
      ensures HasRunner(s'.runners, k)
    {
      var j :| 0 <= j < |s.runners| && s.runners[j].key == k && HoldsSlot(s.runners[j].pc);
      assert s'.runners[j].key == k;
    }
  }

  /** completeTask deletes by key without looking at the task there: the invariant makes it its own. */
  lemma CompleteFreesOwnSlot<T>(s: State<T>, i: nat)
    requires Inv(s) && i < |s.runners| && HoldsSlot(s.runners[i].pc)
    ensures s.runners[i].key in s.active && s.active[s.runners[i].key] == s.runners[i].task
    ensures forall j :: 0 <= j < |s.runners| && j != i && HoldsSlot(s.runners[j].pc) ==>
        s.runners[j].key != s.runners[i].key
  {}

  /** Between the deletion and the dequeue only work conservation is open, and only for the freed key
      unless every slot was taken. */
  ghost predicate InvWhileDequeuing<T>(s: State<T>, freed: string) {
    && s.cap >= 1 && |s.active| < s.cap && freed !in s.active
    && (forall k :: k in s.queue ==> s.queue[k] != [])
    && (forall k :: k in s.queue && k != freed && k !in s.active ==> |s.active| == s.cap - 1)
    && SlotsOwned(s) && DistinctArrivals(s) && Fifo(s)
    && (forall i :: 0 <= i < |s.runners| && s.runners[i].pc.Abandoned? ==> s.stopped)
    && (forall t :: t in s.cancelled ==> Arrived(s, t))
  }

  lemma DequeuingParts<T>(s: State<T>, freed: string)
    requires InvWhileDequeuing(s, freed)
    ensures Fifo(s) && DistinctArrivals(s)
  {}

  lemma FreedSlot<T>(s: State<T>, i: nat, ok: bool)
    requires Inv(s) && i < |s.runners| && HoldsSlot(s.runners[i].pc)
    ensures InvWhileDequeuing(Freed(s, i, ok), s.runners[i].key)
  {
    var s' := Freed(s, i, ok);
    var key := s.runners[i].key;
    CompleteFreesOwnSlot(s, i);
    FreeKeepsSlots(s, i, ok);
    forall k ensures FifoAt(s', k) {
      StartedMoved(s.runners, i, Finished(ok), k);
      assert FifoAt(s, k);
    }
    forall t | t in s'.cancelled ensures Arrived(s', t) { assert Arrived(s, t); }
  }

  lemma FreeKeepsSlots<T>(s: State<T>, i: nat, ok: bool)
    requires SlotsOwned(s) && i < |s.runners| && HoldsSlot(s.runners[i].pc)
    ensures SlotsOwned(Freed(s, i, ok))
    ensures |Freed(s, i, ok).active| == |s.active| - 1
  {
    var s', key := Freed(s, i, ok), s.runners[i].key;
    assert s'.active.Keys == s.active.Keys - {key};
    forall j | 0 <= j < |s'.runners| && HoldsSlot(s'.runners[j].pc)
      ensures s'.runners[j].key in s'.active && s'.active[s'.runners[j].key] == s'.runners[j].task
    {
      assert s'.runners[j] == s.runners[j];
    }
    forall k | k in s'.active ensures HasRunner(s'.runners, k) {
      assert HasRunner(s.runners, k);
      var j :| 0 <= j < |s.runners| && s.runners[j].key == k && HoldsSlot(s.runners[j].pc);
      assert s'.runners[j] == s.runners[j];
    }
  }

  /** The head of a queue of a key without a slot has not been started before. */
  lemma HeadNotStarted<T>(s: State<T>, key: string)
    requires Fifo(s) && DistinctArrivals(s) && Startable(s, key)
    ensures forall i :: 0 <= i < |s.runners| ==> s.runners[i].task != Waiting(s, key)[0]
  {
    var head := Waiting(s, key)[0];
    forall i | 0 <= i < |s.runners| ensures s.runners[i].task != head {
      WaitingNotStarted(s, key, 0, i);
    }
  }

  lemma WaitingNotStarted<T>(s: State<T>, key: string, index: nat, i: nat)
    requires Fifo(s) && DistinctArrivals(s) && index < |Waiting(s, key)| && i < |s.runners|
    ensures s.runners[i].task != Waiting(s, key)[index]
  {
    var task := Waiting(s, key)[index];
    var kept := Kept(s.arrived, key, s.cancelled);
    assert FifoAt(s, key);
    assert kept[|Started(s.runners, key)| + index] == task;
    KeptMembers(s.arrived, key, s.cancelled);
    KeptNoRepeats(s.arrived, key, s.cancelled);
    AppendNoRepeats(Started(s.runners, key), Waiting(s, key));
    if s.runners[i].task == task {
      RunnerArrived(s, i);
      KeptMembers(s.arrived, s.runners[i].key, s.cancelled);
      var x :| 0 <= x < |s.arrived| && s.arrived[x].key == key && s.arrived[x].task == task;
      var y :| 0 <= y < |s.arrived| && s.arrived[y].key == s.runners[i].key && s.arrived[y].task == task;
      assert x == y;
      StartedMembers(s.runners, key);
      assert false;
    }
  }

  /** A task that has a goroutine is neither cancelled nor queued. */
  lemma RunnerPlace<T>(s: State<T>, i: nat)
    requires Inv(s) && i < |s.runners|
    ensures s.runners[i].task !in s.cancelled && Arrived(s, s.runners[i].task)
    ensures forall key :: s.runners[i].task !in Waiting(s, key)
  {
    RunnerArrived(s, i);
    forall key ensures s.runners[i].task !in Waiting(s, key) {
      forall index: nat | index < |Waiting(s, key)| ensures Waiting(s, key)[index] != s.runners[i].task {
        WaitingNotStarted(s, key, index, i);
      }
    }
  }

  lemma WaitingArrived<T>(s: State<T>, key: string, index: nat)
    requires FifoAt(s, key) && index < |Waiting(s, key)|
    ensures Arrival(Waiting(s, key)[index], key) in s.arrived && Waiting(s, key)[index] !in s.cancelled
  {
    WaitingKept(s, key, index);
    KeptMembers(s.arrived, key, s.cancelled);
    assert Waiting(s, key)[index] in Kept(s.arrived, key, s.cancelled);
  }

  lemma StartKeepsFifo<T>(s: State<T>, key: string, k: string)
    requires FifoAt(s, k) && Startable(s, key)
    ensures FifoAt(AfterStart(s, key), k)
  {
    var s', head := AfterStart(s, key), Waiting(s, key)[0];
    StartedSnoc(s.runners, Runner(head, key, Spawned), k);
    if k == key {
      assert Waiting(s, k) == [head] + Waiting(s', k);
      Associative(Started(s.runners, k), [head], Waiting(s', k));
    } else {
      assert Waiting(s', k) == Waiting(s, k);
      assert Started(s'.runners, k) == Started(s.runners, k);
    }
  }

  lemma StartKeepsInv<T>(s: State<T>, freed: string, key: string)
    requires InvWhileDequeuing(s, freed) && Startable(s, key)
    requires Startable(s, freed) ==> key == freed
    ensures Inv(AfterStart(s, key))
  {
    var s' := AfterStart(s, key);
    forall k ensures FifoAt(s', k) {
      assert FifoAt(s, k);
      StartKeepsFifo(s, key, k);
    }
    HeadNotStarted(s, key);
    SpawnKeepsSlots(s, Waiting(s, key)[0], key, s');
    assert WorkConserving(s');
    assert s'.arrived == s.arrived && s'.cancelled == s.cancelled;
  }

  /** One dequeue per completion is enough to restore work conservation. */
  lemma CompleteKeepsInv<T>(s: State<T>, i: nat, ok: bool, s': State<T>)
    requires Inv(s) && i < |s.runners| && HoldsSlot(s.runners[i].pc) && Completes(s, i, ok, s')
    ensures Inv(s')
  {
    var mid, key := Freed(s, i, ok), s.runners[i].key;
    FreedSlot(s, i, ok);
    if Startable(mid, key) {
      StartKeepsInv(mid, key, key);
    } else if k :| LeastStartable(mid, k) && s' == AfterStart(mid, k) {
      StartKeepsInv(mid, key, k);
    } else {
      assert forall k :: k in mid.queue ==> !Startable(mid, k);
    }
  }

  /** A freed slot goes to the next task of its own key while there is one, and else to the head of the queue that
      comes first in the dictionary among those whose key holds no slot. */
  lemma FreedSlotGoesTo<T>(s: State<T>, i: nat, ok: bool, s': State<T>, key: string)
    requires Inv(s) && i < |s.runners| && HoldsSlot(s.runners[i].pc) && Completes(s, i, ok, s')
    ensures var own := s.runners[i].key;
            && (Waiting(s, own) != [] ==>
                  && own in s'.active && s'.active[own] == Waiting(s, own)[0]
                  && s'.runners[|s.runners|..] == [Runner(Waiting(s, own)[0], own, Spawned)])
            && (Waiting(s, own) == [] && key in s.queue && key !in s.active ==>
                  |s'.runners| == |s.runners| + 1
                  && var next := s'.runners[|s.runners|];
                     && next.key in s.queue && next.key !in s.active && next.task == s.queue[next.key][0]
                     && (next.key == key || Less(next.key, key)))
  {
    var mid, own := Freed(s, i, ok), s.runners[i].key;
    FreedSlot(s, i, ok);
    assert own !in mid.active && |mid.active| < mid.cap;
    if Waiting(s, own) != [] {
      assert Startable(mid, own);
    } else if key in s.queue && key !in s.active {
      assert Startable(mid, key) && !Startable(mid, own);
      var k :| LeastStartable(mid, k) && s' == AfterStart(mid, k);
    }
  }

  lemma WaitingKept<T>(s: State<T>, key: string, index: nat)
    requires FifoAt(s, key) && index < |Waiting(s, key)|
    ensures var pos, kept := |Started(s.runners, key)| + index, Kept(s.arrived, key, s.cancelled);
            && pos < |kept| && kept[pos] == Waiting(s, key)[index]
            && kept[..pos] == Started(s.runners, key) + Waiting(s, key)[..index]
            && kept[pos + 1..] == Waiting(s, key)[index + 1..]
    ensures ArrivedFor(s.arrived, Waiting(s, key)[index], key)
  {
    var kept := Kept(s.arrived, key, s.cancelled);
    assert kept[|Started(s.runners, key)| + index] == Waiting(s, key)[index];
    KeptMembers(s.arrived, key, s.cancelled);
    assert Waiting(s, key)[index] in kept;
  }

  lemma CancelKeepsFifo<T>(s: State<T>, key: string, index: nat, k: string)
    requires DistinctArrivals(s) && FifoAt(s, key) && FifoAt(s, k) && index < |Waiting(s, key)|
    ensures FifoAt(AfterCancel(s, key, index), k)
  {
    var s', task := AfterCancel(s, key, index), Waiting(s, key)[index];
    var pos := |Started(s.runners, key)| + index;
    WaitingKept(s, key, index);
    if k == key {
      KeptCancelled(s.arrived, key, s.cancelled, pos);
      Associative(Started(s.runners, key), Waiting(s, key)[..index], Waiting(s, key)[index + 1..]);
    } else {
      KeptOnce(s, key, task, k);
      KeptUntouched(s.arrived, k, s.cancelled, task);
      assert Waiting(s', k) == Waiting(s, k);
    }
  }

  lemma Associative<T>(a: seq<T>, b: seq<T>, c: seq<T>)
    ensures (a + b) + c == a + (b + c)
  {}

  /** A task is kept for no key but the one it arrived with. */
  lemma KeptOnce<T>(s: State<T>, key: string, task: T, other: string)
    requires DistinctArrivals(s) && other != key
    requires ArrivedFor(s.arrived, task, key)
    ensures task !in Kept(s.arrived, other, s.cancelled)
  {
    KeptMembers(s.arrived, other, s.cancelled);
  }

  lemma CancelKeepsInv<T>(s: State<T>, key: string, index: nat)
    requires Inv(s) && index < |Waiting(s, key)|
    ensures Inv(AfterCancel(s, key, index))
  {
    var s' := AfterCancel(s, key, index);
    forall k ensures FifoAt(s', k) {
      assert FifoAt(s, k) && FifoAt(s, key);
      CancelKeepsFifo(s, key, index, k);
    }
    assert FifoAt(s, key);
    WaitingKept(s, key, index);
    assert SlotsOwned(s') by { SameSlots(s, s'); }
    assert WorkConserving(s');
    forall t | t in s'.cancelled ensures Arrived(s', t) {
      if t in s.cancelled { assert Arrived(s, t); }
    }
  }

  lemma SameSlots<T>(s: State<T>, s': State<T>)
    requires SlotsOwned(s) && s'.active == s.active && s'.runners == s.runners
    ensures SlotsOwned(s')
  {}

  lemma StepKeepsInv<T>(s: State<T>, step: Step<T>, s': State<T>)
    requires Inv(s) && Next(s, step, s')
    ensures Inv(s')
  {
    match step
    case Enqueue(task, key) => EnqueueKeepsInv(s, task, key);
    case Begin(i) => MoveKeepsInv(s, i, Operating);
    case OperationFailed(i) => CompleteKeepsInv(s, i, false, s');
    case OperationReturned(i, upid) =>
      if upid == "" { CompleteKeepsInv(s, i, true, s'); } else { MoveKeepsInv(s, i, Polling(upid)); }
    case Poll(i, reply) => if reply.Stopped? { CompleteKeepsInv(s, i, reply.exitStatus == "OK", s'); }
    case CancelQueued(key, index) => CancelKeepsInv(s, key, index);
    case Stop =>
      forall k ensures FifoAt(s', k) {
        assert FifoAt(s, k);
      }
      forall t | t in s'.cancelled ensures Arrived(s', t) { assert Arrived(s, t); }
    case Quit(i) => MoveKeepsInv(s, i, Abandoned);
  }

  /** How a task ends: well exactly when its operation returned no identifier, or the server says that it stopped with
      the exit status "OK"; and badly on an error or any other exit status. */
  lemma EndsAs<T>(s: State<T>, step: Step<T>, s': State<T>, i: nat, ok: bool)
    requires Next(s, step, s') && i < |s.runners| && HoldsSlot(s.runners[i].pc)
    requires i < |s'.runners| && s'.runners[i].pc == Finished(ok)
    ensures ok ==> step == OperationReturned(i, "") || step == Poll(i, Stopped("OK"))
    ensures !ok ==>
              || step == OperationFailed(i)
              || (step.Poll? && step.runner == i && step.reply.Stopped? && step.reply.exitStatus != "OK")
  {
    match step
    case OperationFailed(j) => CompletesOnly(s, j, false, s', i);
    case OperationReturned(j, upid) => if upid == "" { CompletesOnly(s, j, true, s', i); }
    case Poll(j, reply) => if reply.Stopped? { CompletesOnly(s, j, reply.exitStatus == "OK", s', i); }
    case _ =>
  }

  lemma CompletesOnly<T>(s: State<T>, j: nat, ok: bool, s': State<T>, i: nat)
    requires j < |s.runners| && Completes(s, j, ok, s') && i < |s.runners|
    ensures i < |s'.runners| && s'.runners[i].pc == if i == j then Finished(ok) else s.runners[i].pc
  {
    var mid := Freed(s, j, ok);
    if s' != mid && !Startable(mid, s.runners[j].key) {
      var k :| LeastStartable(mid, k) && s' == AfterStart(mid, k);
    }
  }

  // ---- Over whole runs ----

  /** Work conservation, slot ownership and per-key order hold in every state of every run. */
  lemma {:induction false} RunsKeepInv<T>(states: seq<State<T>>, steps: seq<Step<T>>)
    requires IsRun(states, steps)
    ensures forall i :: 0 <= i < |states| ==> Inv(states[i])
    decreases |steps|
  {
    hide Inv, Next;
    if steps == [] {
      InitialInv(states[0]);
    } else {
      var n := |steps| - 1;
      RunsKeepInv(states[..n + 1], steps[..n]);
      assert states[..n + 1][n] == states[n];
      StepKeepsInv(states[n], steps[n], states[n + 1]);
      forall i | 0 <= i < |states| ensures Inv(states[i]) {
        if i <= n { assert states[..n + 1][i] == states[i]; }
      }
    }
  }

  lemma {:induction false} StartedPrefix<T>(runners: seq<Runner<T>>, n: nat, key: string)
    requires n <= |runners|
    ensures Started(runners[..n], key) <= Started(runners, key)
    decreases |runners|
  {
    if n < |runners| {
      StartedPrefix(runners[..|runners| - 1], n, key);
      assert runners[..|runners| - 1][..n] == runners[..n];
    } else {
      assert runners[..n] == runners;
    }
  }

  lemma {:induction false} KeptPrefix<T>(arrived: seq<Arrival<T>>, n: nat, key: string, gone: set<T>)
    requires n <= |arrived|
    ensures Kept(arrived[..n], key, gone) <= Kept(arrived, key, gone)
    decreases |arrived|
  {
    if n < |arrived| {
      KeptPrefix(arrived[..|arrived| - 1], n, key, gone);
      assert arrived[..|arrived| - 1][..n] == arrived[..n];
    } else {
      assert arrived[..n] == arrived;
    }
  }

  predicate StartedAs<T(==)>(s: State<T>, task: T, i: nat) { i < |s.runners| && s.runners[i].task == task }

  /** No overtaking: when a task has started, each task of the same key enqueued before it
      was cancelled or started before it. */
  lemma NoOvertaking<T>(s: State<T>, earlier: nat, later: nat, j: nat)
    requires Inv(s) && earlier < later < |s.arrived| && s.arrived[earlier].key == s.arrived[later].key
    requires StartedAs(s, s.arrived[later].task, j)
    ensures s.arrived[earlier].task in s.cancelled || exists i: nat :: i < j && StartedAs(s, s.arrived[earlier].task, i)
  {
    var a, key := s.arrived[earlier].task, s.runners[j].key;
    if a !in s.cancelled {
      StartersKey(s, later, j);
      SamePosition(s, later, j);
      KeptMembers(s.arrived[..later], key, s.cancelled);
      assert s.arrived[..later][earlier].task == a;
      StartedMembers(s.runners[..j], key);
      var i :| 0 <= i < j && s.runners[..j][i].key == key && s.runners[..j][i].task == a;
      assert StartedAs(s, a, i);
    }
  }

  /** What its key started before a task is what its key enqueued before it and did not cancel. */
  lemma SamePosition<T>(s: State<T>, arrival: nat, j: nat)
    requires Inv(s) && arrival < |s.arrived| && StartedAs(s, s.arrived[arrival].task, j)
    requires s.runners[j].key == s.arrived[arrival].key
    ensures Started(s.runners[..j], s.runners[j].key) == Kept(s.arrived[..arrival], s.runners[j].key, s.cancelled)
  {
    var key := s.runners[j].key;
    var started, before := Started(s.runners[..j], key), Kept(s.arrived[..arrival], key, s.cancelled);
    var kept := Kept(s.arrived, key, s.cancelled);
    RunnerArrived(s, j);
    assert FifoAt(s, key);
    KeptPosition(s.arrived, arrival, key, s.cancelled);
    StartedPosition(s.runners, j, key);
    KeptNoRepeats(s.arrived, key, s.cancelled);
    assert kept[|started|] == kept[|before|];
    assert started == kept[..|started|];
  }

  /** A kept arrival stands right after the kept arrivals before it. */
  lemma KeptPosition<T>(arrived: seq<Arrival<T>>, n: nat, key: string, gone: set<T>)
    requires n < |arrived| && arrived[n].key == key && arrived[n].task !in gone
    ensures var all, pos := Kept(arrived, key, gone), |Kept(arrived[..n], key, gone)|;
            pos < |all| && all[..pos] == Kept(arrived[..n], key, gone) && all[pos] == arrived[n].task
  {
    var front := Kept(arrived[..n], key, gone);
    KeptPrefix(arrived, n + 1, key, gone);
    KeptSnoc(arrived[..n], arrived[n], key, gone);
    assert arrived[..n] + [arrived[n]] == arrived[..n + 1];
    PrefixParts(front, arrived[n].task, Kept(arrived, key, gone));
  }

  lemma StartedPosition<T>(runners: seq<Runner<T>>, n: nat, key: string)
    requires n < |runners| && runners[n].key == key
    ensures var all, pos := Started(runners, key), |Started(runners[..n], key)|;
            pos < |all| && all[..pos] == Started(runners[..n], key) && all[pos] == runners[n].task
  {
    var front := Started(runners[..n], key);
    StartedPrefix(runners, n + 1, key);
    StartedSnoc(runners[..n], runners[n], key);
    assert runners[..n] + [runners[n]] == runners[..n + 1];
    PrefixParts(front, runners[n].task, Started(runners, key));
  }

  lemma PrefixParts<T>(front: seq<T>, t: T, all: seq<T>)
    requires front + [t] <= all
    ensures |front| < |all| && all[..|front|] == front && all[|front|] == t
  {}

  lemma StartersKey<T>(s: State<T>, arrival: nat, j: nat)
    requires Inv(s) && arrival < |s.arrived| && StartedAs(s, s.arrived[arrival].task, j)
    ensures s.runners[j].key == s.arrived[arrival].key
  {
    RunnerArrived(s, j);
    KeptMembers(s.arrived, s.runners[j].key, s.cancelled);
  }

  /** Conservation: every enqueued task is in exactly one place, and only under its own key. */
  lemma ExactlyOnePlace<T>(s: State<T>, a: nat)
    requires Inv(s) && a < |s.arrived|
    ensures var task, key := s.arrived[a].task, s.arrived[a].key;
            var queued := task in Waiting(s, key);
            var started := exists i: nat :: StartedAs(s, task, i);
            && (task in s.cancelled || queued || started)
            && !(task in s.cancelled && queued) && !(task in s.cancelled && started) && !(queued && started)
            && NoRepeats(Waiting(s, key))
            && (forall k :: task in Waiting(s, k) ==> k == key)
            && (forall i: nat :: StartedAs(s, task, i) ==>
                  s.runners[i].key == key && (HoldsSlot(s.runners[i].pc) <==> key in s.active && s.active[key] == task))
  {
    var task, key := s.arrived[a].task, s.arrived[a].key;
    PlacedSomewhere(s, a);
    OwnQueueOnly(s, a);
    forall i: nat | StartedAs(s, task, i)
      ensures task !in s.cancelled && task !in Waiting(s, key) && s.runners[i].key == key
      ensures HoldsSlot(s.runners[i].pc) <==> key in s.active && s.active[key] == task
    {
      RunnerPlace(s, i);
      StartersKey(s, a, i);
      if key in s.active && s.active[key] == task { ActiveRunner(s, key, i); }
    }
  }

  lemma PlacedSomewhere<T>(s: State<T>, a: nat)
    requires a < |s.arrived| && FifoAt(s, s.arrived[a].key)
    ensures var task := s.arrived[a].task;
            task in s.cancelled || task in Waiting(s, s.arrived[a].key) || exists i: nat :: StartedAs(s, task, i)
  {
    var task, key := s.arrived[a].task, s.arrived[a].key;
    KeptMembers(s.arrived, key, s.cancelled);
    StartedMembers(s.runners, key);
    if task !in s.cancelled && task !in Waiting(s, key) {
      assert task in Started(s.runners, key);
      var i :| 0 <= i < |s.runners| && s.runners[i].key == key && s.runners[i].task == task;
      assert StartedAs(s, task, i);
    }
  }

  lemma OwnQueueOnly<T>(s: State<T>, a: nat)
    requires Fifo(s) && DistinctArrivals(s) && a < |s.arrived|
    ensures NoRepeats(Waiting(s, s.arrived[a].key))
    ensures forall k :: s.arrived[a].task in Waiting(s, k) ==>
        k == s.arrived[a].key && s.arrived[a].task !in s.cancelled
  {
    var task, key := s.arrived[a].task, s.arrived[a].key;
    assert FifoAt(s, key);
    KeptNoRepeats(s.arrived, key, s.cancelled);
    SuffixNoRepeats(Started(s.runners, key), Waiting(s, key));
    forall k | task in Waiting(s, k) ensures k == key && task !in s.cancelled {
      assert FifoAt(s, k);
      KeptMembers(s.arrived, k, s.cancelled);
      assert task in Kept(s.arrived, k, s.cancelled);
    }
  }

  lemma SuffixNoRepeats<T>(a: seq<T>, b: seq<T>)
    requires NoRepeats(a + b)
    ensures NoRepeats(b)
  {
    forall i, j | 0 <= i < j < |b| ensures b[i] != b[j] {
      assert (a + b)[|a| + i] == b[i] && (a + b)[|a| + j] == b[j];
    }
  }

  lemma ActiveRunner<T>(s: State<T>, key: string, i: nat)
    requires SlotsOwned(s) && key in s.active && StartedAs(s, s.active[key], i)
    ensures HoldsSlot(s.runners[i].pc)
  {}

  /** Goroutines and cancellations are never forgotten. */
  predicate KeepsHistory<T>(s: State<T>, s': State<T>) {
    && s.cancelled <= s'.cancelled && |s.runners| <= |s'.runners|
    && forall i :: 0 <= i < |s.runners| ==> s'.runners[i].task == s.runners[i].task
  }

  lemma StartKeepsHistory<T>(s: State<T>, mid: State<T>, key: string)
    requires KeepsHistory(s, mid) && Startable(mid, key)
    ensures KeepsHistory(s, AfterStart(mid, key))
  {}

  lemma CompleteKeepsHistory<T>(s: State<T>, i: nat, ok: bool, s': State<T>)
    requires i < |s.runners| && Completes(s, i, ok, s')
    ensures KeepsHistory(s, s')
  {
    var mid, key := Freed(s, i, ok), s.runners[i].key;
    assert KeepsHistory(s, mid);
    if s' == mid {
    } else if Startable(mid, key) {
      StartKeepsHistory(s, mid, key);
    } else {
      var k :| LeastStartable(mid, k) && s' == AfterStart(mid, k);
      StartKeepsHistory(s, mid, k);
    }
  }

  lemma StepKeepsHistory<T>(s: State<T>, step: Step<T>, s': State<T>)
    requires Next(s, step, s')
    ensures KeepsHistory(s, s')
  {
    match step
    case OperationFailed(i) => CompleteKeepsHistory(s, i, false, s');
    case OperationReturned(i, upid) => if upid == "" { CompleteKeepsHistory(s, i, true, s'); }
    case Poll(i, reply) => if reply.Stopped? { CompleteKeepsHistory(s, i, reply.exitStatus == "OK", s'); }
    case _ =>
  }

  lemma {:induction false} RunKeepsHistory<T>(states: seq<State<T>>, steps: seq<Step<T>>, i: nat, j: nat)
    requires IsRun(states, steps) && i <= j < |states|
    ensures KeepsHistory(states[i], states[j])
    decreases j - i
  {
    if i < j {
      RunKeepsHistory(states, steps, i, j - 1);
      StepKeepsHistory(states[j - 1], steps[j - 1], states[j]);
    }
  }

  /** A task that is ever cancelled has no goroutine at any time of the run, before or after. */
  lemma CancelledNeverStarts<T>(states: seq<State<T>>, steps: seq<Step<T>>, i: nat, task: T, j: nat, r: nat)
    requires IsRun(states, steps) && i < |states| && task in states[i].cancelled && j < |states|
    ensures !StartedAs(states[j], task, r)
  {
    var last := if i < j then j else i;
    RunsKeepInv(states, steps);
    RunKeepsHistory(states, steps, i, last);
    RunKeepsHistory(states, steps, j, last);
    if StartedAs(states[j], task, r) { RunnerArrived(states[last], r); }
  }

  // ---- Draining ----

  function Weight(pc: Pc): nat {
    match pc
    case Spawned => 3
    case Operating => 2
    case Polling(_) => 1
    case Finished(_) => 0
    case Abandoned => 0
  }

  function Remaining<T>(runners: seq<Runner<T>>): nat {
    if runners == [] then 0
    else Remaining(runners[..|runners| - 1]) + Weight(runners[|runners| - 1].pc)
  }

  function ArrivedTasks<T>(s: State<T>): set<T> { set i | 0 <= i < |s.arrived| :: s.arrived[i].task }

  function StartedTasks<T>(s: State<T>): set<T> { set i | 0 <= i < |s.runners| :: s.runners[i].task }

  /** The tasks still to be started. */
  function Backlog<T>(s: State<T>): set<T> { ArrivedTasks(s) - StartedTasks(s) - s.cancelled }

  function Measure<T>(s: State<T>): nat { 4 * |Backlog(s)| + Remaining(s.runners) }

  /** Every step but a new enqueue, a poll without an answer and the stop channel makes progress. */
  predicate IsProgress<T>(step: Step<T>) {
    step.Begin? || step.OperationFailed? || step.OperationReturned? || step.CancelQueued?
    || (step.Poll? && step.reply.Stopped?)
  }

  lemma {:induction false} RemainingMoved<T>(runners: seq<Runner<T>>, i: nat, pc: Pc)
    requires i < |runners|
    ensures Remaining(runners[i := runners[i].(pc := pc)]) + Weight(runners[i].pc) == Remaining(runners) + Weight(pc)
  {
    var moved, n := runners[i := runners[i].(pc := pc)], |runners| - 1;
    if i < n {
      RemainingMoved(runners[..n], i, pc);
      assert moved[..n] == runners[..n][i := runners[i].(pc := pc)];
    } else {
      assert moved[..n] == runners[..n];
    }
  }

  lemma MoveMeasure<T>(s: State<T>, i: nat, pc: Pc, s': State<T>)
    requires i < |s.runners| && s'.runners == Moved(s, i, pc).runners
    requires s'.arrived == s.arrived && s'.cancelled == s.cancelled
    ensures Measure(s') + Weight(s.runners[i].pc) == Measure(s) + Weight(pc)
    ensures Backlog(s') == Backlog(s)
  {
    RemainingMoved(s.runners, i, pc);
    assert StartedTasks(s') == StartedTasks(s) by {
      forall t | t in StartedTasks(s) ensures t in StartedTasks(s') {
        var j :| 0 <= j < |s.runners| && s.runners[j].task == t;
        assert s'.runners[j].task == t;
      }
      forall t | t in StartedTasks(s') ensures t in StartedTasks(s) {
        var j :| 0 <= j < |s'.runners| && s'.runners[j].task == t;
        assert s.runners[j].task == t;
      }
    }
  }

  lemma StartMeasure<T>(s: State<T>, key: string)
    requires DistinctArrivals(s) && Fifo(s) && Startable(s, key)
    ensures Measure(AfterStart(s, key)) < Measure(s)
  {
    var s', head := AfterStart(s, key), Waiting(s, key)[0];
    WaitingInBacklog(s, key, 0);
    assert s'.runners[..|s.runners|] == s.runners;
    SpawnStartsTask(s, head, key, s');
    assert Backlog(s') == Backlog(s) - {head};
    assert |Backlog(s')| == |Backlog(s)| - 1;
  }

  lemma SpawnStartsTask<T>(s: State<T>, task: T, key: string, s': State<T>)
    requires s'.runners == s.runners + [Runner(task, key, Spawned)]
    ensures StartedTasks(s') == StartedTasks(s) + {task}
  {
    forall t | t in StartedTasks(s) + {task} ensures t in StartedTasks(s') {
      if t == task {
        assert s'.runners[|s.runners|].task == t;
      } else {
        var j :| 0 <= j < |s.runners| && s.runners[j].task == t;
        assert s'.runners[j].task == t;
      }
    }
  }

  lemma WaitingInBacklog<T>(s: State<T>, key: string, index: nat)
    requires DistinctArrivals(s) && Fifo(s) && index < |Waiting(s, key)|
    ensures Waiting(s, key)[index] in Backlog(s)
  {
    assert FifoAt(s, key);
    WaitingKept(s, key, index);
    KeptMembers(s.arrived, key, s.cancelled);
    assert Waiting(s, key)[index] in Kept(s.arrived, key, s.cancelled);
    forall i: nat | i < |s.runners| ensures s.runners[i].task != Waiting(s, key)[index] {
      WaitingNotStarted(s, key, index, i);
    }
  }

  lemma InvParts<T>(s: State<T>)
    requires Inv(s)
    ensures DistinctArrivals(s) && Fifo(s)
  {}

  /** Each progress step brings the drained state nearer. */
  lemma ProgressDecreases<T>(s: State<T>, step: Step<T>, s': State<T>)
    requires Inv(s) && Next(s, step, s') && IsProgress(step)
    ensures Measure(s') < Measure(s)
  {
    hide Measure, Dequeues, WorkConserving, SlotsOwned, DistinctArrivals, Fifo, Inv;
    InvParts(s);
    match step
    case Begin(i) =>
      MoveDecreases(s, i, Operating);
    case OperationFailed(i) =>
      CompleteMeasure(s, i, false, s');
    case OperationReturned(i, upid) =>
      if upid == "" {
        CompleteMeasure(s, i, true, s');
      } else {
        MoveDecreases(s, i, Polling(upid));
      }
    case Poll(i, reply) =>
      CompleteMeasure(s, i, reply.exitStatus == "OK", s');
    case CancelQueued(key, index) =>
      CancelMeasure(s, key, index);
    case _ =>
      assert false;
  }

  lemma MoveDecreases<T>(s: State<T>, i: nat, pc: Pc)
    requires i < |s.runners| && Weight(pc) < Weight(s.runners[i].pc)
    ensures Measure(Moved(s, i, pc)) < Measure(s)
  {
    MoveMeasure(s, i, pc, Moved(s, i, pc));
  }

  /** A queued task has no goroutine and stands in its queue once. */
  lemma QueuedPlace<T>(s: State<T>, key: string, index: nat)
    requires Inv(s) && index < |Waiting(s, key)|
    ensures var task := Waiting(s, key)[index];
            && Arrival(task, key) in s.arrived && task in ArrivedTasks(s) && task !in s.cancelled
            && NoRepeats(Waiting(s, key)) && forall i: nat :: !StartedAs(s, task, i)
  {
    var task := Waiting(s, key)[index];
    assert FifoAt(s, key);
    WaitingArrived(s, key, index);
    KeptNoRepeats(s.arrived, key, s.cancelled);
    SuffixNoRepeats(Started(s.runners, key), Waiting(s, key));
    forall i: nat ensures !StartedAs(s, task, i) {
      if i < |s.runners| { WaitingNotStarted(s, key, index, i); }
    }
  }

  lemma CancelMeasure<T>(s: State<T>, key: string, index: nat)
    requires DistinctArrivals(s) && Fifo(s) && index < |Waiting(s, key)|
    ensures Measure(AfterCancel(s, key, index)) < Measure(s)
  {
    var s' := AfterCancel(s, key, index);
    WaitingInBacklog(s, key, index);
    assert ArrivedTasks(s') == ArrivedTasks(s) && StartedTasks(s') == StartedTasks(s);
    assert Backlog(s') == Backlog(s) - {Waiting(s, key)[index]};
    assert |Backlog(s')| == |Backlog(s)| - 1;
  }

  lemma CompleteMeasure<T>(s: State<T>, i: nat, ok: bool, s': State<T>)
    requires Inv(s) && i < |s.runners| && Weight(s.runners[i].pc) > 0 && Completes(s, i, ok, s')
    ensures Measure(s') < Measure(s)
  {
    var mid, key := Freed(s, i, ok), s.runners[i].key;
    FreedSlot(s, i, ok);
    MoveMeasure(s, i, Finished(ok), mid);
    if Startable(mid, key) {
      StartMeasure(mid, key);
    } else if k :| LeastStartable(mid, k) && s' == AfterStart(mid, k) {
      StartMeasure(mid, k);
    }
  }

  predicate CanMove<T>(s: State<T>, i: nat) { i < |s.runners| && Weight(s.runners[i].pc) > 0 }

  lemma SomeDequeue<T>(s: State<T>, preferred: string) returns (s': State<T>)
    ensures Dequeues(s, preferred, s')
  {
    var startable := set k | k in s.queue && Startable(s, k);
    if |s.active| < s.cap && Startable(s, preferred) {
      s' := AfterStart(s, preferred);
    } else if |s.active| < s.cap && startable != {} {
      var key := HasLeast(startable);
      assert LeastStartable(s, key);
      s' := AfterStart(s, key);
    } else {
      s' := s;
      assert |s.active| < s.cap ==> forall k :: k in s.queue ==> k !in startable;
    }
  }

  lemma CanMoveSteps<T>(s: State<T>, i: nat) returns (step: Step<T>, s': State<T>)
    requires CanMove(s, i)
    ensures IsProgress(step) && Next(s, step, s')
  {
    match s.runners[i].pc
    case Spawned =>
      step, s' := Begin(i), Moved(s, i, Operating);
    case Operating =>
      step, s' := OperationReturned(i, "upid"), Moved(s, i, Polling("upid"));
    case Polling(_) =>
      step := Poll(i, Stopped("OK"));
      s' := SomeDequeue(Freed(s, i, true), s.runners[i].key);
  }

  /** While Stop has not been called and anything is left, some goroutine has a step to take that makes progress. */
  lemma NeverStuck<T>(s: State<T>)
    requires Inv(s) && !s.stopped && (s.queue != map[] || s.active != map[])
    ensures exists i: nat :: CanMove(s, i)
    ensures exists step, s' :: IsProgress(step) && Next(s, step, s')
  {
    var k :| k in s.active;
    assert HasRunner(s.runners, k);
    var i :| 0 <= i < |s.runners| && s.runners[i].key == k && HoldsSlot(s.runners[i].pc);
    assert CanMove(s, i);
    var step, s' := CanMoveSteps(s, i);
  }

  /** Without new work and without Stop, at most Measure(s) progress steps can be taken, and when no
      further one can be, every queue is empty and every slot free. */
  lemma {:induction false} Drains<T>(states: seq<State<T>>, steps: seq<Step<T>>)
    requires |states| == |steps| + 1 && Inv(states[0])
    requires forall i :: 0 <= i < |steps| ==> IsProgress(steps[i]) && Next(states[i], steps[i], states[i + 1])
    ensures |steps| <= Measure(states[0]) - Measure(states[|steps|]) && Inv(states[|steps|])
    ensures !states[|steps|].stopped && (forall step, s' :: Next(states[|steps|], step, s') ==> !IsProgress(step)) ==>
              states[|steps|].queue == map[] && states[|steps|].active == map[]
    decreases |steps|
  {
    hide Inv, Next, Measure, IsProgress;
    var n := |steps|;
    if n > 0 {
      Drains(states[..n], steps[..n - 1]);
      assert states[..n][n - 1] == states[n - 1];
      StepKeepsInv(states[n - 1], steps[n - 1], states[n]);
      ProgressDecreases(states[n - 1], steps[n - 1], states[n]);
    }
    if !states[n].stopped && (states[n].queue != map[] || states[n].active != map[]) { NeverStuck(states[n]); }
  }
}
