/** The task manager object: each method is one section of the program that holds the lock,
    proved to be the step of the transition system in `Scheduler`. */
module TaskManagement {
  import opened Text
  import S = Scheduler

  datatype TaskStatus = Queued | Running | Completed | Failed | Cancelled

  function TaskKey(node: string, vmid: int): string { node + "/" + Dec(vmid) }

  /** Two targets share a queue only when they are the same guest of the same node,
      although a node name may itself hold slashes and digits. */
  lemma TaskKeyInjective(node1: string, vmid1: int, node2: string, vmid2: int)
    ensures TaskKey(node1, vmid1) == TaskKey(node2, vmid2) <==> node1 == node2 && vmid1 == vmid2
    ensures TaskKey(node1, vmid1) != ""
  {
    var k1, k2 := TaskKey(node1, vmid1), TaskKey(node2, vmid2);
    if k1 == k2 {
      LastSlash(node1, vmid1);
      LastSlash(node2, vmid2);
      assert |node1| == |node2|;
      assert node1 == k1[..|node1|] && node2 == k2[..|node2|];
      assert Dec(vmid1) == k1[|node1| + 1..] && Dec(vmid2) == k2[|node2| + 1..];
      DecInjective(vmid1, vmid2);
    }
  }

  lemma LastSlash(node: string, vmid: int)
    ensures var key := TaskKey(node, vmid);
            key[|node|] == '/' && forall i :: |node| < i < |key| ==> key[i] != '/'
  {}

  class Task {
    var id: string
    const targetNode: string
    const targetVmid: int
    var status: TaskStatus
    var upid: string
    var error: Option<string>

    constructor (id: string, targetNode: string, targetVmid: int, status: TaskStatus, upid: string,
                 error: Option<string>)
      ensures this.id == id && this.targetNode == targetNode && this.targetVmid == targetVmid
      ensures this.status == status && this.upid == upid && this.error == error
    {
      this.id, this.targetNode, this.targetVmid := id, targetNode, targetVmid;
      this.status, this.upid, this.error := status, upid, error;
    }

    function Key(): string { TaskKey(targetNode, targetVmid) }
  }

  /** What the lock-held part of CancelTask decides. A stop is then requested from the server. */
  datatype CancelReply = Removed | StopRequested(node: string, upid: string) | StillStarting | NotFound

  /** The status a goroutine at `pc` has left in its task. */
  ghost predicate Shows(task: Task, pc: S.Pc)
    reads task
  {
    match pc
    case Spawned => task.status == Queued
    case Operating => task.status == Running
    case Polling(upid) => task.status == Running && task.upid == upid
    case Finished(ok) => task.status == if ok then Completed else Failed
    case Abandoned => task.status == Running
  }

  ghost predicate KeysMatch(s: S.State<Task>) {
    && (forall a :: a in s.arrived ==> a.key == a.task.Key())
    && (forall r :: r in s.runners ==> r.key == r.task.Key())
  }

  /** The fields of `task` agree with the place it is in. */
  ghost predicate FieldsShow(s: S.State<Task>, task: Task)
    reads task
  {
    && (task in s.cancelled ==> task.status == Cancelled)
    && (task in S.Waiting(s, task.Key()) ==> task.status == Queued)
    && (forall i: nat :: S.StartedAs(s, task, i) ==> Shows(task, s.runners[i].pc))
  }

  ghost predicate AllShow(s: S.State<Task>, tasks: set<Task>)
    reads tasks
  {
    forall t :: t in tasks ==> FieldsShow(s, t)
  }

  ghost predicate Consistent(s: S.State<Task>)
    reads S.ArrivedTasks(s)
  {
    KeysMatch(s) && AllShow(s, S.ArrivedTasks(s))
  }

  lemma EnqueueShows(s: S.State<Task>, task: Task, key: string)
    requires S.Inv(s) && Consistent(s) && task !in S.ArrivedTasks(s)
    requires key == task.Key() && task.status == Queued
    ensures var s' := S.AfterEnqueue(s, task, key);
            Consistent(s') && S.ArrivedTasks(s') == S.ArrivedTasks(s) + {task}
  {
    hide S.Inv;
    var s' := S.AfterEnqueue(s, task, key);
    S.EnqueueArrives(s, task, key);
    S.CancelledKnown(s);
    forall t | t in S.ArrivedTasks(s) ensures FieldsShow(s', t) { EnqueueOthersShow(s, task, key, t); }
    forall i: nat ensures !S.StartedAs(s, task, i) {
      if i < |s.runners| { S.RunnerPlace(s, i); }
    }
    EnqueuedShows(s, task, key);
  }

  lemma EnqueueOthersShow(s: S.State<Task>, task: Task, key: string, other: Task)
    requires FieldsShow(s, other) && other != task
    ensures FieldsShow(S.AfterEnqueue(s, task, key), other)
  {
    hide Shows;
    var s' := S.AfterEnqueue(s, task, key);
    forall i: nat | S.StartedAs(s', other, i) ensures Shows(other, s'.runners[i].pc) {
      assert S.StartedAs(s, other, i);
    }
  }

  lemma EnqueuedShows(s: S.State<Task>, task: Task, key: string)
    requires task !in s.cancelled && task.status == Queued && forall i: nat :: !S.StartedAs(s, task, i)
    ensures FieldsShow(S.AfterEnqueue(s, task, key), task)
  {
    var s' := S.AfterEnqueue(s, task, key);
    forall i: nat | S.StartedAs(s', task, i) ensures Shows(task, s'.runners[i].pc) {
      assert !S.StartedAs(s, task, i);
      assert i == |s.runners|;
    }
  }

  /** Only the task of goroutine `i` changed, while the goroutine moved to `pc`. */
  lemma MoveShows(s: S.State<Task>, task: Task, i: nat, pc: S.Pc)
    requires S.Inv(s) && KeysMatch(s) && AllShow(s, S.ArrivedTasks(s) - {task})
    requires S.StartedAs(s, task, i) && Shows(task, pc)
    ensures var s' := S.Moved(s, i, pc);
            Consistent(s') && S.ArrivedTasks(s') == S.ArrivedTasks(s)
  {
    assert S.OneRunner(s);
    hide S.Inv;
    var s' := S.Moved(s, i, pc);
    S.RunnerPlace(s, i);
    S.SameArrived(s, s');
    MoveMatches(s, i, pc);
    forall t | t in S.ArrivedTasks(s) ensures FieldsShow(s', t) {
      if t == task { OwnTaskShows(s, task, i, pc); } else { OtherTaskShows(s, task, i, pc, t); }
    }
  }

  lemma MoveMatches(s: S.State<Task>, i: nat, pc: S.Pc)
    requires KeysMatch(s) && i < |s.runners|
    ensures KeysMatch(S.Moved(s, i, pc))
  {}

  lemma OwnTaskShows(s: S.State<Task>, task: Task, i: nat, pc: S.Pc)
    requires S.OneRunner(s) && S.StartedAs(s, task, i) && Shows(task, pc)
    requires task !in s.cancelled && task !in S.Waiting(s, task.Key())
    ensures FieldsShow(S.Moved(s, i, pc), task)
  {}

  lemma OtherTaskShows(s: S.State<Task>, task: Task, i: nat, pc: S.Pc, other: Task)
    requires S.StartedAs(s, task, i) && other != task && FieldsShow(s, other)
    ensures FieldsShow(S.Moved(s, i, pc), other)
  {}

  const DEFAULT_MAX_RUNNING_TASKS := 3

  class TaskManager {
    var queue: map<string, seq<Task>>
    var activeTasks: map<string, Task>
    var stopped: bool
    const maxRunning: nat

    ghost var runners: seq<S.Runner<Task>>
    ghost var arrived: seq<S.Arrival<Task>>
    ghost var cancelled: set<Task>

    ghost function Model(): S.State<Task>
      reads this
    {
      S.State(maxRunning, queue, activeTasks, runners, stopped, arrived, cancelled)
    }

    ghost function Tasks(): set<Task>
      reads this
    {
      S.ArrivedTasks(Model())
    }

    ghost predicate Valid()
      reads this, Tasks()
    {
      S.Inv(Model()) && Consistent(Model())
    }

    constructor (maxRunning: int)
      ensures Valid() && S.Initial(Model())
      ensures this.maxRunning == if maxRunning < 1 then 3 else maxRunning
    {
      this.maxRunning := if maxRunning < 1 then DEFAULT_MAX_RUNNING_TASKS else maxRunning;
      queue, activeTasks, stopped := map[], map[], false;
      runners, arrived, cancelled := [], [], {};
      new;
      S.InitialInv(Model());
    }

    /** `freshId` is the identifier uuid.New would give. The manager keeps `internal`, a clone. */
    method Enqueue(task: Task?, freshId: string) returns (startTask: Task?, ghost internal: Task?)
      requires Valid() && task !in Tasks()
      modifies this
      modifies if task == null then {} else {task}
      ensures Valid()
      ensures task == null ==> Model() == old(Model()) && startTask == null
      ensures task != null ==>
        && internal != null && fresh(internal) && internal.id == task.id && internal.Key() == task.Key()
        && internal.status == Queued && internal.upid == task.upid && internal.error == task.error
        && task.id == (if old(task.id) == "" then freshId else old(task.id))
        && !S.Arrived(old(Model()), internal) && Model() == S.AfterEnqueue(old(Model()), internal, task.Key())
        && startTask == (if S.TakesFastPath(old(Model()), task.Key()) then internal else null)
    {
      startTask, internal := null, null;
      if task != null {
        if task.id == "" { task.id := freshId; }
        var internalTask := new Task(task.id, task.targetNode, task.targetVmid, Queued, task.upid, task.error);
        internal := internalTask;
        var started := Insert(internalTask);
        if started { startTask := internalTask; }
      }
    }

    method Insert(internalTask: Task) returns (started: bool)
      requires Valid() && internalTask !in Tasks() && internalTask.status == Queued
      modifies this
      ensures Valid()
      ensures Model() == S.AfterEnqueue(old(Model()), internalTask, internalTask.Key())
      ensures started == S.TakesFastPath(old(Model()), internalTask.Key())
    {
      hide S.Inv;
      ghost var before := Model();
      S.CancelledKnown(before);
      var key := TaskKey(internalTask.targetNode, internalTask.targetVmid);
      started := key !in activeTasks && |activeTasks| < maxRunning;
      if started {
        activeTasks := activeTasks[key := internalTask];
        runners := runners + [S.Runner(internalTask, key, S.Spawned)];
      } else {
        queue := queue[key := (if key in queue then queue[key] else []) + [internalTask]];
      }
      arrived := arrived + [S.Arrival(internalTask, key)];
      assert Model() == S.AfterEnqueue(before, internalTask, key);
      S.EnqueueKeepsInv(before, internalTask, key);
      EnqueueShows(before, internalTask, key);
    }

    /** A goroutine has been spawned for `task`: the first lock-held section of runTask. */
    method BeginRun(task: Task, ghost i: nat)
      requires Valid() && S.StartedAs(Model(), task, i) && S.AtPc(Model(), i, S.Spawned)
      modifies this, task
      ensures Valid() && Model() == S.Moved(old(Model()), i, S.Operating)
      ensures task.status == Running
    {
      hide S.Inv;
      ghost var before := Model();
      assert task in Tasks() by { S.RunnerPlace(before, i); }
      S.MoveKeepsInv(before, i, S.Operating);
      assert AllShow(before, S.ArrivedTasks(before) - {task});
      task.status := Running;
      runners := runners[i := runners[i].(pc := S.Operating)];
      MoveShows(before, task, i, S.Operating);
    }

    /** The operation returned an identifier: the second lock-held section of runTask. */
    method StoreUpid(task: Task, upid: string, ghost i: nat)
      requires Valid() && S.StartedAs(Model(), task, i) && S.AtPc(Model(), i, S.Operating) && upid != ""
      modifies this, task
      ensures Valid() && Model() == S.Moved(old(Model()), i, S.Polling(upid))
      ensures task.upid == upid
    {
      hide S.Inv;
      ghost var before := Model();
      assert task in Tasks() && FieldsShow(before, task) by { S.RunnerPlace(before, i); }
      S.MoveKeepsInv(before, i, S.Polling(upid));
      assert AllShow(before, S.ArrivedTasks(before) - {task});
      task.upid := upid;
      runners := runners[i := runners[i].(pc := S.Polling(upid))];
      MoveShows(before, task, i, S.Polling(upid));
    }

    /** Closing the stop channel a second time would panic. */
    method Stop()
      requires Valid() && !stopped
      modifies this`stopped
      ensures Valid() && S.Next(old(Model()), S.Stop, Model())
    {
      ghost var before := Model();
      stopped := true;
      S.StepKeepsInv(before, S.Stop, Model());
      FreeShows(before, Model());
    }

    /** The lock-held section of completeTask. `next` is the task the freed slot goes to. */
    method CompleteTask(task: Task, ok: bool, error: Option<string>, ghost i: nat) returns (next: Task?)
      requires Valid() && S.StartedAs(Model(), task, i)
      requires S.AtPc(Model(), i, S.Operating) || runners[i].pc.Polling?
      modifies this, task
      ensures Valid()
      ensures S.Completes(old(Model()), i, ok, Model())
      ensures next == Spawned(old(Model()), Model())
      ensures task.status == (if ok then Completed else Failed) && task.error == error
    {
      hide S.Inv, S.Dequeues, S.Fifo, S.DistinctArrivals, S.Freed, KeysMatch, FieldsShow;
      ghost var before := Model();
      var key := FreeSlot(task, ok, error, i);
      next := DequeueNextStartable(key);
      S.CompleteKeepsInv(before, i, ok, Model());
    }

    /** The first half of it: the task is marked and its slot freed. */
    method FreeSlot(task: Task, ok: bool, error: Option<string>, ghost i: nat) returns (key: string)
      requires Valid() && S.StartedAs(Model(), task, i)
      requires S.AtPc(Model(), i, S.Operating) || runners[i].pc.Polling?
      modifies this`activeTasks, this`runners, task
      ensures key == old(Model()).runners[i].key && Model() == S.Freed(old(Model()), i, ok)
      ensures |runners| == |old(runners)|
      ensures S.Fifo(Model()) && S.DistinctArrivals(Model()) && Consistent(Model())
      ensures task.status == (if ok then Completed else Failed) && task.error == error
    {
      hide S.Inv, S.Fifo, S.DistinctArrivals, Shows;
      ghost var before := Model();
      assert task in Tasks() by { S.RunnerPlace(before, i); }
      assert AllShow(before, S.ArrivedTasks(before) - {task});
      OwnKey(before, task, i);
      task.status := if ok then Completed else Failed;
      task.error := error;
      key := TaskKey(task.targetNode, task.targetVmid);
      activeTasks := activeTasks - {key};
      runners := runners[i := runners[i].(pc := S.Finished(ok))];
      FreedShows(before, task, i, ok);
    }

    /** While it runs, everything but work conservation holds. */
    method DequeueNextStartable(preferredKey: string) returns (next: Task?)
      requires S.Fifo(Model()) && S.DistinctArrivals(Model()) && Consistent(Model())
      modifies this`queue, this`activeTasks, this`runners
      ensures S.Dequeues(old(Model()), preferredKey, Model())
      ensures next == Spawned(old(Model()), Model())
      ensures Consistent(Model())
    {
      hide S.Fifo, S.DistinctArrivals, S.AfterStart, FieldsShow;
      next := null;
      if |activeTasks| >= maxRunning { return; }
      if preferredKey != "" {
        next := TryStartForKey(preferredKey);
        if next != null { return; }
      } else {
        NoEmptyKey(Model());
      }
      next := StartFirstOther(preferredKey);
    }

    method StartFirstOther(preferredKey: string) returns (next: Task?)
      requires S.Fifo(Model()) && S.DistinctArrivals(Model()) && Consistent(Model())
      requires !S.Startable(Model(), preferredKey)
      modifies this`queue, this`activeTasks, this`runners
      ensures next == null ==> Model() == old(Model()) && forall k :: k in queue ==> !S.Startable(Model(), k)
      ensures next != null ==>
        exists key :: S.LeastStartable(old(Model()), key) && Model() == S.AfterStart(old(Model()), key)
      ensures next == Spawned(old(Model()), Model())
      ensures Consistent(Model())
    {
      hide S.Fifo, S.DistinctArrivals, S.AfterStart, FieldsShow;
      next := null;
      var keys := SortedKeys(queue.Keys - {preferredKey});
      for n := 0 to |keys|
        invariant Model() == old(Model()) && next == null && Consistent(Model())
        invariant forall m :: 0 <= m < n ==> !S.Startable(Model(), keys[m])
      {
        next := TryStartForKey(keys[n]);
        if next != null {
          LeastOf(old(Model()), preferredKey, keys, n);
          return;
        }
      }
      forall k | k in queue ensures !S.Startable(Model(), k) {
        if k != preferredKey { assert k in keys; }
      }
    }

    /** The lock-held section of CancelTask. `key` and `index` say which queued task was removed:
        maps are visited in no particular order, so any queued task with the identifier may go. */
    method CancelTask(taskId: string) returns (reply: CancelReply, ghost key: string, ghost index: nat)
      requires Valid()
      modifies this, Tasks()`status
      ensures Valid()
      ensures reply.Removed? ==>
        && index < |S.Waiting(old(Model()), key)| && Model() == S.AfterCancel(old(Model()), key, index)
        && S.Waiting(old(Model()), key)[index].id == taskId
        && S.Waiting(old(Model()), key)[index].status == Cancelled
      ensures !reply.Removed? ==>
          Model() == old(Model()) && (forall k, t :: t in S.Waiting(Model(), k) ==> t.id != taskId)
      ensures reply.StopRequested? ==>
        exists t :: t in activeTasks.Values && t.id == taskId && t.upid == reply.upid != ""
          && t.targetNode == reply.node
      ensures reply.StillStarting? ==> exists t :: t in activeTasks.Values && t.id == taskId && t.upid == ""
      ensures reply.NotFound? ==> forall t :: t in activeTasks.Values ==> t.id != taskId
    {
      hide S.Inv, FieldsShow, KeysMatch;
      key, index := "", 0;
      var left := queue.Keys;
      while left != {}
        invariant left <= queue.Keys
        invariant forall k, t :: k in queue && k !in left && t in queue[k] ==> t.id != taskId
        decreases |left|
      {
        var k :| k in left;
        left := left - {k};
        var q := queue[k];
        for n := 0 to |q|
          invariant forall t :: t in q[..n] ==> t.id != taskId
        {
          if q[n].id == taskId {
            S.QueuedPlace(Model(), k, n);
            Remove(k, n);
            return Removed, k, n;
          }
        }
        assert q[..|q|] == q;
      }
      left := activeTasks.Keys;
      while left != {}
        invariant left <= activeTasks.Keys
        invariant forall k :: k in activeTasks && k !in left ==> activeTasks[k].id != taskId
        decreases |left|
      {
        var k :| k in left;
        left := left - {k};
        var task := activeTasks[k];
        if task.id == taskId {
          assert task in activeTasks.Values;
          if task.upid != "" { return StopRequested(task.targetNode, task.upid), "", 0; }
          return StillStarting, "", 0;
        }
      }
      reply := NotFound;
    }

    method Remove(key: string, index: nat)
      requires Valid() && index < |S.Waiting(Model(), key)|
      modifies this, {S.Waiting(Model(), key)[index]}`status
      ensures Valid() && Model() == S.AfterCancel(old(Model()), key, index)
      ensures S.Waiting(old(Model()), key)[index].status == Cancelled
    {
      hide S.Inv, FieldsShow, KeysMatch, S.ArrivedTasks, S.NoRepeats, S.StartedAs, Shows;
      ghost var before := Model();
      var task := queue[key][index];
      S.QueuedPlace(before, key, index);
      S.CancelKeepsInv(before, key, index);
      assert AllShow(before, S.ArrivedTasks(before) - {task});
      CutQueue(key, index);
      task.status := Cancelled;
      cancelled := cancelled + {task};
      CancelShows(before, key, index);
    }

    method CutQueue(key: string, index: nat)
      requires index < |S.Waiting(Model(), key)|
      modifies this`queue
      ensures queue == S.AfterCancel(old(Model()), key, index).queue
    {
      var q := queue[key];
      var rest := q[..index] + q[index + 1..];
      queue := queue[key := rest];
      if |queue[key]| == 0 { queue := queue - {key}; }
    }

    method TryStartForKey(key: string) returns (next: Task?)
      requires S.Fifo(Model()) && S.DistinctArrivals(Model()) && Consistent(Model())
      modifies this`queue, this`activeTasks, this`runners
      ensures next != null <==> S.Startable(old(Model()), key)
      ensures next == null ==> Model() == old(Model())
      ensures next != null ==> Model() == S.AfterStart(old(Model()), key)
      ensures next == Spawned(old(Model()), Model())
      ensures Consistent(Model())
    {
      hide S.Fifo, S.DistinctArrivals;
      if key in activeTasks { return null; }
      var q := if key in queue then queue[key] else [];
      if |q| == 0 { return null; }
      ghost var before := Model();
      next := q[0];
      queue := queue[key := q[1..]];
      if |queue[key]| == 0 { queue := queue - {key}; }
      activeTasks := activeTasks[key := next];
      runners := runners + [S.Runner(next, key, S.Spawned)];
      assert Model() == S.AfterStart(before, key);
      StartShows(before, key);
    }
  }

  lemma OwnKey(s: S.State<Task>, task: Task, i: nat)
    requires KeysMatch(s) && S.StartedAs(s, task, i)
    ensures TaskKey(task.targetNode, task.targetVmid) == s.runners[i].key
  {
    assert s.runners[i] in s.runners;
  }

  /** Nothing is ever queued under the empty key. */
  lemma NoEmptyKey(s: S.State<Task>)
    requires S.Fifo(s) && KeysMatch(s)
    ensures !S.Startable(s, "")
  {
    if S.Startable(s, "") {
      assert S.FifoAt(s, "");
      S.WaitingArrived(s, "", 0);
      var task := S.Waiting(s, "")[0];
      TaskKeyInjective(task.targetNode, task.targetVmid, task.targetNode, task.targetVmid);
      assert false;
    }
  }

  /** Only the task of goroutine `i` changed, and the goroutine finished and gave up its slot. */
  lemma FreedShows(s: S.State<Task>, task: Task, i: nat, ok: bool)
    requires S.Inv(s) && KeysMatch(s) && AllShow(s, S.ArrivedTasks(s) - {task})
    requires S.StartedAs(s, task, i) && S.HoldsSlot(s.runners[i].pc)
    requires task.status == if ok then Completed else Failed
    ensures var freed := S.Freed(s, i, ok);
            S.Fifo(freed) && S.DistinctArrivals(freed) && Consistent(freed)
  {
    hide S.Inv, S.InvWhileDequeuing, S.Fifo, S.DistinctArrivals;
    var moved, freed := S.Moved(s, i, S.Finished(ok)), S.Freed(s, i, ok);
    S.FreedSlot(s, i, ok);
    S.DequeuingParts(freed, s.runners[i].key);
    MoveShows(s, task, i, S.Finished(ok));
    FreeShows(moved, freed);
  }

  /** The task of the goroutine that a step spawned, if it spawned one. */
  ghost function Spawned(s: S.State<Task>, s': S.State<Task>): Task? {
    if |s'.runners| > |s.runners| then s'.runners[|s.runners|].task else null
  }

  /** The first startable key in sorted order is the least startable key. */
  lemma LeastOf(s: S.State<Task>, preferred: string, keys: seq<string>, n: nat)
    requires Sorted(keys) && (forall k :: k in keys <==> k in s.queue.Keys - {preferred})
    requires n < |keys| && S.Startable(s, keys[n]) && !S.Startable(s, preferred)
    requires forall m :: 0 <= m < n ==> !S.Startable(s, keys[m])
    ensures S.LeastStartable(s, keys[n])
  {
    forall k | k in s.queue && S.Startable(s, k) && k != keys[n] ensures Less(keys[n], k) {
      assert k in keys;
    }
  }

  lemma FreeShows(s: S.State<Task>, s': S.State<Task>)
    requires Consistent(s)
    requires s'.queue == s.queue && s'.runners == s.runners && s'.arrived == s.arrived && s'.cancelled == s.cancelled
    ensures Consistent(s')
  {}

  lemma StartShows(s: S.State<Task>, key: string)
    requires S.Fifo(s) && S.DistinctArrivals(s) && S.Startable(s, key)
    requires Consistent(s)
    ensures Consistent(S.AfterStart(s, key))
  {
    var s', head := S.AfterStart(s, key), S.Waiting(s, key)[0];
    S.HeadNotStarted(s, key);
    S.WaitingArrived(s, key, 0);
    S.SameArrived(s, s');
    forall t | t in S.ArrivedTasks(s) ensures FieldsShow(s', t) {
      assert FieldsShow(s, t);
      assert t in S.Waiting(s', t.Key()) ==> t in S.Waiting(s, t.Key());
      forall i: nat | S.StartedAs(s', t, i) ensures Shows(t, s'.runners[i].pc) {
        if i < |s.runners| { assert S.StartedAs(s, t, i); }
      }
    }
  }

  lemma CancelShows(s: S.State<Task>, key: string, index: nat)
    requires index < |S.Waiting(s, key)| && KeysMatch(s)
    requires var task := S.Waiting(s, key)[index];
             && AllShow(s, S.ArrivedTasks(s) - {task}) && task.status == Cancelled && S.Arrival(task, key) in s.arrived
             && S.NoRepeats(S.Waiting(s, key)) && forall i: nat :: !S.StartedAs(s, task, i)
    ensures Consistent(S.AfterCancel(s, key, index))
  {
    hide Shows;
    var s', q := S.AfterCancel(s, key, index), S.Waiting(s, key);
    var task := q[index];
    S.SameArrived(s, s');
    forall t | t in S.ArrivedTasks(s) ensures FieldsShow(s', t) {
      if t == task {
        assert task !in S.Waiting(s', key);
        forall i: nat ensures !S.StartedAs(s', t, i) { assert !S.StartedAs(s, t, i); }
      } else {
        assert FieldsShow(s, t);
        assert t in S.Waiting(s', t.Key()) ==> t in S.Waiting(s, t.Key());
        forall i: nat | S.StartedAs(s', t, i) ensures Shows(t, s'.runners[i].pc) { assert S.StartedAs(s, t, i); }
      }
    }
  }
}
