/** The worker pipeline of EnrichVMs as a transition system: one producer, five workers, two bounded
    channels, an error collector and a wait group. Sending on or closing a closed channel, and taking the
    wait group below zero, would panic: the model records it and the invariant excludes it. */
module EnrichPipeline {
  import opened Text

  const MAX_CONCURRENT_REQUESTS := 5
  const CHANNEL_CAPACITY := 100

  // ---- The input ----

  datatype VM = VM(running: bool, disk: int, maxDisk: int)

  /** `vms` is None for a node whose list is nil. */
  datatype Node = Node(online: bool, vms: Option<seq<VM>>)

  function Listed(nodes: seq<Node>): seq<VM> {
    if nodes == [] then []
    else (if nodes[0].online && nodes[0].vms.Some? then nodes[0].vms.value else []) + Listed(nodes[1..])
  }

  function RunningOnly(vms: seq<VM>): seq<VM> {
    if vms == [] then [] else (if vms[0].running then [vms[0]] else []) + RunningOnly(vms[1..])
  }

  /** The machines to enrich, in the order they are queued. A job is a position in this list. */
  function Jobs(nodes: seq<Node>): seq<VM> { RunningOnly(Listed(nodes)) }

  // ---- The state ----

  /** What one status request wrote into its machine, and the error it returned if any. */
  datatype Report = Report(disk: int, maxDisk: int, error: Option<string>)

  datatype Worker = Receiving | Working(job: nat, disk: int, maxDisk: int) | Sending(error: Option<string>) | Exited

  datatype Producer = Queuing | Waiting | Closing | Joining | Returned

  datatype State = State(
    producer: Producer,
    next: nat,
    vmChan: seq<nat>,
    vmClosed: bool,
    errChan: seq<Option<string>>,
    errClosed: bool,
    workers: seq<Worker>,
    waitGroup: int,
    collecting: bool,
    errors: seq<string>,
    vms: seq<VM>,
    handled: seq<(nat, Report)>,
    panicked: bool)

  function Start(vms: seq<VM>): State {
    State(Queuing, 0, [], false, [], false, seq(MAX_CONCURRENT_REQUESTS, _ => Receiving), MAX_CONCURRENT_REQUESTS,
          true, [], vms, [], false)
  }

  /** A zero from the status request keeps the value known from the cluster resources. */
  function Restore(reported: int, known: int): int { if reported == 0 && known > 0 then known else reported }

  // ---- The steps ----

  datatype Step =
    | Queue | CloseVms | WaitDone | CloseErrors | Return
    | Receive(worker: nat) | Finish(worker: nat, report: Report) | Send(worker: nat) | Exit(worker: nat)
    | Collect | CollectorDone

  predicate Enabled(s: State, step: Step) {
    !s.panicked
    && match step
       case Queue => s.producer == Queuing && s.next < |s.vms| && |s.vmChan| < CHANNEL_CAPACITY
       case CloseVms => s.producer == Queuing && s.next >= |s.vms|
       case WaitDone => s.producer == Waiting && s.waitGroup == 0
       case CloseErrors => s.producer == Closing
       case Return => s.producer == Joining && !s.collecting
       case Receive(w) => w < |s.workers| && s.workers[w] == Receiving && s.vmChan != [] && s.vmChan[0] < |s.vms|
       case Finish(w, _) => w < |s.workers| && s.workers[w].Working? && s.workers[w].job < |s.vms|
       case Send(w) => w < |s.workers| && s.workers[w].Sending? && (s.errClosed || |s.errChan| < CHANNEL_CAPACITY)
       case Exit(w) => w < |s.workers| && s.workers[w] == Receiving && s.vmChan == [] && s.vmClosed
       case Collect => s.collecting && s.errChan != []
       case CollectorDone => s.collecting && s.errChan == [] && s.errClosed
  }

  function Panic(s: State): State { s.(panicked := true) }

  function After(s: State, step: Step): State
    requires Enabled(s, step)
  {
    match step
    case Queue => if s.vmClosed then Panic(s) else s.(next := s.next + 1, vmChan := s.vmChan + [s.next])
    case CloseVms => if s.vmClosed then Panic(s) else s.(vmClosed := true, producer := Waiting)
    case WaitDone => s.(producer := Closing)
    case CloseErrors => if s.errClosed then Panic(s) else s.(errClosed := true, producer := Joining)
    case Return => s.(producer := Returned)
    case Receive(w) =>
      var job := s.vmChan[0];
      s.(vmChan := s.vmChan[1..], workers := s.workers[w := Working(job, s.vms[job].disk, s.vms[job].maxDisk)])
    case Finish(w, report) =>
      var known := s.workers[w];
      var vm := s.vms[known.job].(disk := Restore(report.disk, known.disk),
                                  maxDisk := Restore(report.maxDisk, known.maxDisk));
      s.(vms := s.vms[known.job := vm], workers := s.workers[w := Sending(report.error)],
         handled := s.handled + [(known.job, report)])
    case Send(w) =>
      if s.errClosed then Panic(s)
      else s.(errChan := s.errChan + [s.workers[w].error], workers := s.workers[w := Receiving])
    case Exit(w) =>
      if s.waitGroup <= 0 then Panic(s)
      else s.(workers := s.workers[w := Exited], waitGroup := s.waitGroup - 1)
    case Collect =>
      var error := s.errChan[0];
      s.(errChan := s.errChan[1..], errors := if error.Some? then s.errors + [error.value] else s.errors)
    case CollectorDone => s.(collecting := false)
  }

  // ---- What the workers hold between them ----

  function JobOf(w: Worker): multiset<nat> { if w.Working? then multiset{w.job} else multiset{} }

  function JobsHeld(workers: seq<Worker>): multiset<nat> {
    if workers == [] then multiset{} else JobOf(workers[0]) + JobsHeld(workers[1..])
  }

  function Failure(error: Option<string>): multiset<string> {
    if error.Some? then multiset{error.value} else multiset{}
  }

  function ErrorOf(w: Worker): multiset<string> { if w.Sending? then Failure(w.error) else multiset{} }

  function ErrorsHeld(workers: seq<Worker>): multiset<string> {
    if workers == [] then multiset{} else ErrorOf(workers[0]) + ErrorsHeld(workers[1..])
  }

  function Running(workers: seq<Worker>): nat {
    if workers == [] then 0 else Running(workers[1..]) + if workers[0] == Exited then 0 else 1
  }

  function Weight(w: Worker): nat {
    match w
    case Receiving => 1
    case Working(_, _, _) => 4
    case Sending(_) => 3
    case Exited => 0
  }

  function Load(workers: seq<Worker>): nat {
    if workers == [] then 0 else Load(workers[1..]) + Weight(workers[0])
  }

  /** One worker moves from one state to another. */
  lemma Moved(workers: seq<Worker>, i: nat, w: Worker)
    requires i < |workers|
    ensures var workers', was := workers[i := w], workers[i];
            && JobsHeld(workers') + JobOf(was) == JobsHeld(workers) + JobOf(w)
            && ErrorsHeld(workers') + ErrorOf(was) == ErrorsHeld(workers) + ErrorOf(w)
            && Running(workers') + (if was == Exited then 0 else 1) == Running(workers) + (if w == Exited then 0 else 1)
            && Load(workers') + Weight(was) == Load(workers) + Weight(w)
  {
    MovedJobs(workers, i, w);
    MovedErrors(workers, i, w);
    MovedCounts(workers, i, w);
  }

  lemma {:induction false} MovedJobs(workers: seq<Worker>, i: nat, w: Worker)
    requires i < |workers|
    ensures JobsHeld(workers[i := w]) + JobOf(workers[i]) == JobsHeld(workers) + JobOf(w)
  {
    var workers' := workers[i := w];
    if i == 0 {
      assert workers'[1..] == workers[1..];
    } else {
      MovedJobs(workers[1..], i - 1, w);
      assert workers'[1..] == workers[1..][i - 1 := w];
      Exchange(JobOf(workers[0]), JobsHeld(workers'[1..]), JobOf(workers[i]), JobsHeld(workers[1..]), JobOf(w));
    }
  }

  lemma {:induction false} MovedErrors(workers: seq<Worker>, i: nat, w: Worker)
    requires i < |workers|
    ensures ErrorsHeld(workers[i := w]) + ErrorOf(workers[i]) == ErrorsHeld(workers) + ErrorOf(w)
  {
    var workers' := workers[i := w];
    if i == 0 {
      assert workers'[1..] == workers[1..];
    } else {
      MovedErrors(workers[1..], i - 1, w);
      assert workers'[1..] == workers[1..][i - 1 := w];
      Exchange(ErrorOf(workers[0]), ErrorsHeld(workers'[1..]), ErrorOf(workers[i]),
               ErrorsHeld(workers[1..]), ErrorOf(w));
    }
  }

  lemma {:induction false} MovedCounts(workers: seq<Worker>, i: nat, w: Worker)
    requires i < |workers|
    ensures var workers', was := workers[i := w], workers[i];
            && Running(workers') + (if was == Exited then 0 else 1) == Running(workers) + (if w == Exited then 0 else 1)
            && Load(workers') + Weight(was) == Load(workers) + Weight(w)
  {
    var workers' := workers[i := w];
    if i == 0 {
      assert workers'[1..] == workers[1..];
    } else {
      MovedCounts(workers[1..], i - 1, w);
      assert workers'[1..] == workers[1..][i - 1 := w];
    }
  }

  lemma Exchange<T>(head: multiset<T>, rest': multiset<T>, was: multiset<T>, rest: multiset<T>, now: multiset<T>)
    requires rest' + was == rest + now
    ensures (head + rest') + was == (head + rest) + now
  {
    assert (head + rest') + was == head + (rest' + was);
    assert (head + rest) + now == head + (rest + now);
  }

  // ---- The invariant ----

  function UpTo(n: nat): multiset<nat> { if n == 0 then multiset{} else UpTo(n - 1) + multiset{n - 1} }

  function HandledJobs(handled: seq<(nat, Report)>): multiset<nat> {
    if handled == [] then multiset{}
    else HandledJobs(handled[..|handled| - 1]) + multiset{handled[|handled| - 1].0}
  }

  function Failures(handled: seq<(nat, Report)>): multiset<string> {
    if handled == [] then multiset{}
    else Failures(handled[..|handled| - 1]) + Failure(handled[|handled| - 1].1.error)
  }

  function InChannel(errChan: seq<Option<string>>): multiset<string> {
    if errChan == [] then multiset{} else Failure(errChan[0]) + InChannel(errChan[1..])
  }

  /** Every queued job is in the channel, with one worker, or handled, and in one of them once. */
  predicate JobsConserved(s: State) {
    multiset(s.vmChan) + JobsHeld(s.workers) + HandledJobs(s.handled) == UpTo(s.next)
  }

  /** Every failure so far is collected, in the channel or with one worker, and in one of them once. */
  predicate ErrorsConserved(s: State) {
    multiset(s.errors) + InChannel(s.errChan) + ErrorsHeld(s.workers) == Failures(s.handled)
  }

  predicate ChannelsInOrder(s: State) {
    && !s.panicked
    && |s.workers| == MAX_CONCURRENT_REQUESTS && s.waitGroup == Running(s.workers)
    && s.next <= |s.vms| && |s.vmChan| <= CHANNEL_CAPACITY && |s.errChan| <= CHANNEL_CAPACITY
    && s.vmClosed == (s.producer != Queuing) && (s.vmClosed ==> s.next == |s.vms|)
    && s.errClosed == (s.producer == Joining || s.producer == Returned)
    && (s.producer == Closing || s.errClosed ==> s.waitGroup == 0)
    && (Running(s.workers) < |s.workers| ==> s.vmClosed && s.vmChan == [])
    && (!s.collecting ==> s.errClosed && s.errChan == [])
    && (s.producer == Returned ==> !s.collecting)
  }

  /** A fresh figure is shown, and only a zero gives way to what was known before. */
  predicate Shows(shown: int, reported: int, known: int) {
    && (reported != 0 ==> shown == reported)
    && (reported == 0 ==> shown == if known > 0 then known else 0)
  }

  /** A handled machine shows its report. */
  predicate Settled(vms: seq<VM>, initial: seq<VM>, h: (nat, Report)) {
    && h.0 < |initial| && h.0 < |vms| && vms[h.0].running == initial[h.0].running
    && Shows(vms[h.0].disk, h.1.disk, initial[h.0].disk)
    && Shows(vms[h.0].maxDisk, h.1.maxDisk, initial[h.0].maxDisk)
  }

  predicate Remembers(w: Worker, initial: seq<VM>) {
    w.Working? ==> w.job < |initial| && w.disk == initial[w.job].disk && w.maxDisk == initial[w.job].maxDisk
  }

  predicate Untouched(s: State, initial: seq<VM>) {
    |s.vms| == |initial| && forall j :: 0 <= j < |s.vms| && j !in HandledJobs(s.handled) ==> s.vms[j] == initial[j]
  }

  predicate AllRemember(s: State, initial: seq<VM>) {
    forall i :: 0 <= i < |s.workers| ==> Remembers(s.workers[i], initial)
  }

  predicate AllSettled(s: State, initial: seq<VM>) {
    forall i :: 0 <= i < |s.handled| ==> Settled(s.vms, initial, s.handled[i])
  }

  /** The field values follow from the reports: `initial` is what the cluster resources said. */
  predicate ValuesKept(s: State, initial: seq<VM>) {
    Untouched(s, initial) && AllRemember(s, initial) && AllSettled(s, initial)
  }

  ghost predicate Inv(s: State, initial: seq<VM>) {
    JobsConserved(s) && ErrorsConserved(s) && ChannelsInOrder(s) && ValuesKept(s, initial)
  }

  lemma {:induction false} UpToCounts(n: nat, j: nat)
    ensures UpTo(n)[j] == if j < n then 1 else 0
  {
    if n > 0 { UpToCounts(n - 1, j); }
  }

  lemma {:induction false} RunningZero(workers: seq<Worker>)
    ensures Running(workers) == 0 <==> forall i :: 0 <= i < |workers| ==> workers[i] == Exited
  {
    if workers != [] {
      RunningZero(workers[1..]);
      assert workers == [workers[0]] + workers[1..];
      if workers[0] == Exited && Running(workers[1..]) == 0 {
        assert forall i :: 1 <= i < |workers| ==> workers[i] == workers[1..][i - 1];
      }
    }
  }

  lemma {:induction false} HeldBy(workers: seq<Worker>, i: nat)
    requires i < |workers| && workers[i].Working?
    ensures workers[i].job in JobsHeld(workers)
  {
    if i > 0 { HeldBy(workers[1..], i - 1); }
  }

  lemma {:induction false} AllReceiving(workers: seq<Worker>)
    requires forall i :: 0 <= i < |workers| ==> workers[i] == Receiving
    ensures JobsHeld(workers) == multiset{} && ErrorsHeld(workers) == multiset{}
    ensures Running(workers) == |workers| && Load(workers) == |workers|
  {
    if workers != [] { AllReceiving(workers[1..]); }
  }

  lemma StartInv(vms: seq<VM>)
    ensures Inv(Start(vms), vms)
  {
    AllReceiving(Start(vms).workers);
  }

  // Moving an element between the places that conservation adds up.

  lemma MoveRight<T>(a: multiset<T>, b: multiset<T>, b': multiset<T>, c: multiset<T>, x: multiset<T>)
    requires b' + x == b
    ensures a + b' + (c + x) == a + b + c
  {}

  lemma MoveLeft<T>(a: multiset<T>, b: multiset<T>, c: multiset<T>, c': multiset<T>, x: multiset<T>)
    requires c' + x == c + multiset{}
    ensures a + (b + x) + c' == a + b + c
  {
    assert c + multiset{} == c;
    assert a + (b + x) + c' == a + b + (c' + x);
  }

  lemma NoChange<T>(a: multiset<T>, b: multiset<T>)
    requires a + multiset{} == b || a + multiset{} == b + multiset{}
    ensures a == b
  {}

  lemma Append<T>(a: multiset<T>, b: multiset<T>, b': multiset<T>, c: multiset<T>, x: multiset<T>)
    requires b' + multiset{} == b + x && a + b == c
    ensures a + b' == c + x
  {
    assert b' + multiset{} == b';
    assert a + (b + x) == (a + b) + x;
  }

  lemma MoveIn<T>(a: multiset<T>, a': multiset<T>, b: multiset<T>, b': multiset<T>, c: multiset<T>, x: multiset<T>)
    requires a' + x == a && b' == b + x
    ensures a' + b' + c == a + b + c
  {}

  lemma QueueKeepsJobs(s: State)
    requires Enabled(s, Queue) && JobsConserved(s) && !s.vmClosed
    ensures JobsConserved(After(s, Queue))
  {}

  lemma ChannelHead(channel: seq<nat>)
    requires channel != []
    ensures multiset(channel[1..]) + multiset{channel[0]} == multiset(channel)
  {
    assert channel == [channel[0]] + channel[1..];
  }

  lemma ReceiveKeepsJobs(s: State, w: nat)
    requires Enabled(s, Receive(w)) && JobsConserved(s)
    ensures JobsConserved(After(s, Receive(w)))
  {
    hide JobsHeld, HandledJobs, UpTo;
    var s', job := After(s, Receive(w)), s.vmChan[0];
    ReceivedJob(s, w);
    ChannelHead(s.vmChan);
    MoveIn(multiset(s.vmChan), multiset(s'.vmChan), JobsHeld(s.workers), JobsHeld(s'.workers), HandledJobs(s.handled),
           multiset{job});
  }

  lemma ReceivedJob(s: State, w: nat)
    requires Enabled(s, Receive(w))
    ensures JobsHeld(After(s, Receive(w)).workers) == JobsHeld(s.workers) + multiset{s.vmChan[0]}
  {
    hide JobsHeld, ErrorsHeld, Running, Load;
    Moved(s.workers, w, After(s, Receive(w)).workers[w]);
    NoChange(JobsHeld(After(s, Receive(w)).workers), JobsHeld(s.workers) + multiset{s.vmChan[0]});
  }

  lemma FinishKeepsJobs(s: State, w: nat, report: Report)
    requires Enabled(s, Finish(w, report)) && JobsConserved(s)
    ensures JobsConserved(After(s, Finish(w, report)))
  {
    hide JobsHeld, HandledJobs, UpTo, ErrorsHeld, Running, Load, Failures;
    var s', job := After(s, Finish(w, report)), s.workers[w].job;
    Moved(s.workers, w, Sending(report.error));
    NoChange(JobsHeld(s'.workers) + multiset{job}, JobsHeld(s.workers));
    HandledSnoc(s.handled, job, report);
    MoveRight(multiset(s.vmChan), JobsHeld(s.workers), JobsHeld(s'.workers), HandledJobs(s.handled), multiset{job});
  }

  lemma FinishKeepsErrors(s: State, w: nat, report: Report)
    requires Enabled(s, Finish(w, report)) && ErrorsConserved(s)
    ensures ErrorsConserved(After(s, Finish(w, report)))
  {
    var s', x := After(s, Finish(w, report)), Failure(report.error);
    Moved(s.workers, w, Sending(report.error));
    HandledSnoc(s.handled, s.workers[w].job, report);
    Append(multiset(s.errors) + InChannel(s.errChan), ErrorsHeld(s.workers), ErrorsHeld(s'.workers),
           Failures(s.handled), x);
  }

  lemma {:induction false} InChannelSnoc(errChan: seq<Option<string>>, error: Option<string>)
    ensures InChannel(errChan + [error]) == InChannel(errChan) + Failure(error)
  {
    if errChan == [] {
      assert errChan + [error] == [error];
    } else {
      InChannelSnoc(errChan[1..], error);
      assert (errChan + [error])[1..] == errChan[1..] + [error];
    }
  }

  lemma SendKeepsErrors(s: State, w: nat)
    requires Enabled(s, Send(w)) && ErrorsConserved(s) && !s.errClosed
    ensures ErrorsConserved(After(s, Send(w)))
  {
    var s', error := After(s, Send(w)), s.workers[w].error;
    Moved(s.workers, w, Receiving);
    InChannelSnoc(s.errChan, error);
    MoveLeft(multiset(s.errors), InChannel(s.errChan), ErrorsHeld(s.workers), ErrorsHeld(s'.workers), Failure(error));
  }

  lemma CollectKeepsErrors(s: State)
    requires Enabled(s, Collect) && ErrorsConserved(s)
    ensures ErrorsConserved(After(s, Collect))
  {
    var s', error := After(s, Collect), s.errChan[0];
    assert multiset(s'.errors) == multiset(s.errors) + Failure(error);
    var rest := InChannel(s'.errChan);
    assert multiset(s.errors) + Failure(error) + rest == multiset(s.errors) + (Failure(error) + rest);
  }

  lemma SilentMove(s: State, w: nat, worker: Worker)
    requires w < |s.workers| && !s.workers[w].Working? && !worker.Working?
    ensures JobsHeld(s.workers[w := worker]) == JobsHeld(s.workers)
  {
    Moved(s.workers, w, worker);
    NoChange(JobsHeld(s.workers[w := worker]), JobsHeld(s.workers));
  }

  lemma QuietMove(s: State, w: nat, worker: Worker)
    requires w < |s.workers| && !s.workers[w].Sending? && !worker.Sending?
    ensures ErrorsHeld(s.workers[w := worker]) == ErrorsHeld(s.workers)
  {
    Moved(s.workers, w, worker);
    NoChange(ErrorsHeld(s.workers[w := worker]), ErrorsHeld(s.workers));
  }

  lemma StepConserves(s: State, step: Step)
    requires Enabled(s, step) && JobsConserved(s) && ErrorsConserved(s) && ChannelsInOrder(s)
    requires !After(s, step).panicked
    ensures JobsConserved(After(s, step)) && ErrorsConserved(After(s, step))
  {
    match step
    case Queue => QueueKeepsJobs(s);
    case Receive(w) =>
      ReceiveKeepsJobs(s, w);
      QuietMove(s, w, After(s, step).workers[w]);
    case Finish(w, report) =>
      FinishKeepsJobs(s, w, report);
      FinishKeepsErrors(s, w, report);
    case Send(w) =>
      SilentMove(s, w, Receiving);
      SendKeepsErrors(s, w);
    case Exit(w) =>
      SilentMove(s, w, Exited);
      QuietMove(s, w, Exited);
    case Collect => CollectKeepsErrors(s);
    case _ =>
  }

  /** No step of a state in order panics: nothing is sent on or done to a closed channel,
      and the wait group never goes below zero. */
  lemma StepKeepsOrder(s: State, step: Step)
    requires Enabled(s, step) && ChannelsInOrder(s)
    ensures ChannelsInOrder(After(s, step))
  {
    RunningZero(s.workers);
    hide Running, Load, Restore;
    match step
    case Receive(w) => MovedCounts(s.workers, w, After(s, step).workers[w]);
    case Finish(w, report) => MovedCounts(s.workers, w, Sending(report.error));
    case Send(w) => MovedCounts(s.workers, w, Receiving);
    case Exit(w) => MovedCounts(s.workers, w, Exited);
    case _ =>
  }

  lemma JobUnhandled(s: State, j: nat)
    requires JobsConserved(s) && j in multiset(s.vmChan) + JobsHeld(s.workers)
    ensures j < s.next && j !in HandledJobs(s.handled)
  {
    UpToCounts(s.next, j);
    assert (multiset(s.vmChan) + JobsHeld(s.workers))[j] + HandledJobs(s.handled)[j] == UpTo(s.next)[j];
  }

  lemma {:induction false} HandledMember(handled: seq<(nat, Report)>)
    ensures forall h :: h in handled ==> h.0 in HandledJobs(handled)
  {
    if handled != [] {
      HandledMember(handled[..|handled| - 1]);
      assert handled == handled[..|handled| - 1] + [handled[|handled| - 1]];
    }
  }

  /** What a report does to the disk figures of its machine, in full. */
  ghost predicate FiguresKept(s: State, initial: seq<VM>) {
    forall i :: 0 <= i < |s.handled| ==>
      var (j, report) := s.handled[i];
      && j < |s.vms| == |initial|
      && (report.disk != 0 ==> s.vms[j].disk == report.disk)
      && (report.disk == 0 ==> s.vms[j].disk == if initial[j].disk > 0 then initial[j].disk else 0)
      && (report.maxDisk != 0 ==> s.vms[j].maxDisk == report.maxDisk)
      && (report.maxDisk == 0 ==> s.vms[j].maxDisk == if initial[j].maxDisk > 0 then initial[j].maxDisk else 0)
  }

  lemma SettledFigures(s: State, initial: seq<VM>)
    ensures ValuesKept(s, initial) ==> FiguresKept(s, initial)
  {
    if ValuesKept(s, initial) {
      forall i | 0 <= i < |s.handled| ensures Settled(s.vms, initial, s.handled[i]) {}
    }
  }

  lemma StepKeepsValues(s: State, step: Step, initial: seq<VM>)
    requires Enabled(s, step) && JobsConserved(s) && ValuesKept(s, initial)
    ensures ValuesKept(After(s, step), initial) && FiguresKept(After(s, step), initial)
  {
    hide After, ValuesKept, FiguresKept, JobsConserved;
    StepKeepsSettled(s, step, initial);
    SettledFigures(After(s, step), initial);
  }

  lemma StepKeepsSettled(s: State, step: Step, initial: seq<VM>)
    requires Enabled(s, step) && JobsConserved(s) && ValuesKept(s, initial)
    ensures ValuesKept(After(s, step), initial)
  {
    hide JobsConserved, HandledJobs, Settled, Restore;
    match step
    case Receive(w) => ReceiveKeepsValues(s, w, initial);
    case Finish(w, report) => FinishKeepsValues(s, w, report, initial);
    case _ =>
      var s' := After(s, step);
      assert s'.vms == s.vms && s'.handled == s.handled;
      forall i | 0 <= i < |s'.workers| ensures Remembers(s'.workers[i], initial) {
        assert Remembers(s.workers[i], initial);
      }
  }

  lemma ReceiveKeepsValues(s: State, w: nat, initial: seq<VM>)
    requires Enabled(s, Receive(w)) && JobsConserved(s) && ValuesKept(s, initial)
    ensures ValuesKept(After(s, Receive(w)), initial)
  {
    hide Settled, JobsConserved, JobsHeld, HandledJobs;
    assert s.vmChan[0] in multiset(s.vmChan);
    JobUnhandled(s, s.vmChan[0]);
  }

  lemma FinishKeepsValues(s: State, w: nat, report: Report, initial: seq<VM>)
    requires Enabled(s, Finish(w, report)) && JobsConserved(s) && ValuesKept(s, initial)
    ensures ValuesKept(After(s, Finish(w, report)), initial)
  {
    hide Settled, Restore, JobsConserved, JobsHeld, HandledJobs;
    HeldBy(s.workers, w);
    JobUnhandled(s, s.workers[w].job);
    FinishKeepsUntouched(s, w, report, initial);
    FinishKeepsSettled(s, w, report, initial);
  }

  lemma FinishKeepsUntouched(s: State, w: nat, report: Report, initial: seq<VM>)
    requires Enabled(s, Finish(w, report)) && Untouched(s, initial)
    ensures Untouched(After(s, Finish(w, report)), initial)
  {
    hide Restore;
    HandledSnoc(s.handled, s.workers[w].job, report);
  }

  lemma FinishKeepsSettled(s: State, w: nat, report: Report, initial: seq<VM>)
    requires Enabled(s, Finish(w, report)) && AllSettled(s, initial) && AllRemember(s, initial)
    requires Untouched(s, initial) && s.workers[w].job !in HandledJobs(s.handled)
    ensures AllSettled(After(s, Finish(w, report)), initial)
  {
    hide Settled, Restore, HandledJobs;
    var s', job := After(s, Finish(w, report)), s.workers[w].job;
    HandledMember(s.handled);
    FinishSettles(s, w, report, initial);
    forall i | 0 <= i < |s.handled| ensures Settled(s'.vms, initial, s.handled[i]) {
      assert s.handled[i] in s.handled;
      SettledElsewhere(s.vms, initial, s.handled[i], job, s'.vms[job]);
    }
  }

  lemma HandledSnoc(handled: seq<(nat, Report)>, job: nat, report: Report)
    ensures HandledJobs(handled + [(job, report)]) == HandledJobs(handled) + multiset{job}
    ensures Failures(handled + [(job, report)]) == Failures(handled) + Failure(report.error)
  {}

  lemma FinishSettles(s: State, w: nat, report: Report, initial: seq<VM>)
    requires Enabled(s, Finish(w, report)) && Remembers(s.workers[w], initial) && |s.vms| == |initial|
    requires s.vms[s.workers[w].job] == initial[s.workers[w].job]
    ensures Settled(After(s, Finish(w, report)).vms, initial, (s.workers[w].job, report))
  {}

  lemma SettledElsewhere(vms: seq<VM>, initial: seq<VM>, h: (nat, Report), job: nat, vm: VM)
    requires Settled(vms, initial, h) && job < |vms| && h.0 != job
    ensures Settled(vms[job := vm], initial, h)
  {}

  lemma StepKeepsInv(s: State, step: Step, initial: seq<VM>)
    requires Enabled(s, step) && Inv(s, initial)
    ensures Inv(After(s, step), initial)
  {
    StepKeepsOrder(s, step);
    StepConserves(s, step);
    StepKeepsValues(s, step, initial);
  }

  // ---- Progress ----

  function ProducerWeight(p: Producer): nat {
    match p
    case Queuing => 4
    case Waiting => 3
    case Closing => 2
    case Joining => 1
    case Returned => 0
  }

  function Measure(s: State): nat
    requires s.next <= |s.vms|
  {
    6 * (|s.vms| - s.next) + 5 * |s.vmChan| + Load(s.workers) + |s.errChan| + ProducerWeight(s.producer)
    + if s.collecting then 1 else 0
  }

  lemma StepDecreases(s: State, step: Step)
    requires Enabled(s, step) && ChannelsInOrder(s)
    ensures After(s, step).next <= |After(s, step).vms| && Measure(After(s, step)) < Measure(s)
  {
    RunningZero(s.workers);
    hide Running, Load, Restore;
    match step
    case Receive(w) => MovedCounts(s.workers, w, After(s, step).workers[w]);
    case Finish(w, report) => MovedCounts(s.workers, w, Sending(report.error));
    case Send(w) => MovedCounts(s.workers, w, Receiving);
    case Exit(w) => MovedCounts(s.workers, w, Exited);
    case _ =>
  }

  /** Until EnrichVMs returns, some goroutine can move. */
  lemma NeverStuck(s: State, initial: seq<VM>)
    requires Inv(s, initial) && s.producer != Returned
    ensures exists step :: Enabled(s, step)
  {
    RunningZero(s.workers);
    if s.collecting && s.errChan != [] {
      assert Enabled(s, Collect);
    } else if w :| 0 <= w < |s.workers| && s.workers[w].Working? {
      HeldBy(s.workers, w);
      JobUnhandled(s, s.workers[w].job);
      assert Enabled(s, Finish(w, Report(0, 0, None)));
    } else if w :| 0 <= w < |s.workers| && s.workers[w].Sending? {
      assert Enabled(s, Send(w));
    } else if s.waitGroup > 0 {
      var w :| 0 <= w < |s.workers| && s.workers[w] != Exited;
      IdleWorkerMoves(s, w);
    } else {
      ProducerMoves(s);
    }
  }

  lemma IdleWorkerMoves(s: State, w: nat)
    requires JobsConserved(s) && ChannelsInOrder(s) && w < |s.workers| && s.workers[w] == Receiving
    ensures exists step :: Enabled(s, step)
  {
    if s.vmChan != [] {
      assert s.vmChan[0] in multiset(s.vmChan);
      JobUnhandled(s, s.vmChan[0]);
      assert Enabled(s, Receive(w));
    } else if s.vmClosed {
      assert Enabled(s, Exit(w));
    } else if s.next < |s.vms| {
      assert Enabled(s, Queue);
    } else {
      assert Enabled(s, CloseVms);
    }
  }

  lemma ProducerMoves(s: State)
    requires ChannelsInOrder(s) && s.waitGroup == 0 && s.producer != Returned && !(s.collecting && s.errChan != [])
    ensures exists step :: Enabled(s, step)
  {
    match s.producer
    case Waiting => assert Enabled(s, WaitDone);
    case Closing => assert Enabled(s, CloseErrors);
    case Joining => if s.collecting { assert Enabled(s, CollectorDone); } else { assert Enabled(s, Return); }
    case Queuing => assert false;
  }

  // ---- Whole runs ----

  ghost predicate IsRun(vms: seq<VM>, states: seq<State>, steps: seq<Step>) {
    |states| == |steps| + 1 && states[0] == Start(vms)
    && forall i :: 0 <= i < |steps| ==> Enabled(states[i], steps[i]) && states[i + 1] == After(states[i], steps[i])
  }

  /** No interleaving panics, and every run takes fewer steps than the measure of its start allows. */
  lemma {:induction false} RunsAreSafe(vms: seq<VM>, states: seq<State>, steps: seq<Step>)
    requires IsRun(vms, states, steps)
    ensures var last := states[|steps|];
            && Inv(last, vms) && !last.panicked && |steps| + Measure(last) <= Measure(Start(vms))
            && |last.workers| == 5 && |last.vmChan| <= 100 && |last.errChan| <= 100
    decreases |steps|
  {
    if steps == [] {
      StartInv(vms);
    } else {
      var n := |steps| - 1;
      RunsAreSafe(vms, states[..n + 1], steps[..n]);
      assert states[..n + 1][n] == states[n];
      StepKeepsInv(states[n], steps[n], vms);
      StepDecreases(states[n], steps[n]);
    }
  }

  /** A run that can go no further has returned. */
  lemma RunsReturn(vms: seq<VM>, states: seq<State>, steps: seq<Step>)
    requires IsRun(vms, states, steps) && forall step :: !Enabled(states[|steps|], step)
    ensures states[|steps|].producer == Returned
  {
    RunsAreSafe(vms, states, steps);
    if states[|steps|].producer != Returned { NeverStuck(states[|steps|], vms); }
  }

  /** When EnrichVMs returns, every machine was handled exactly once, shows its own report, and the
      collected errors are exactly the failures of the reports. */
  lemma ReturnedMeansDone(vms: seq<VM>, states: seq<State>, steps: seq<Step>)
    requires IsRun(vms, states, steps) && states[|steps|].producer == Returned
    ensures var last := states[|steps|];
            && HandledJobs(last.handled) == UpTo(|vms|)
            && (forall j :: 0 <= j < |vms| ==> HandledJobs(last.handled)[j] == 1)
            && multiset(last.errors) == Failures(last.handled)
            && FiguresKept(last, vms)
  {
    hide HandledJobs, UpTo, Failures, Settled, JobsHeld, ErrorsHeld, InChannel, After, Enabled, FiguresKept;
    var last := states[|steps|];
    RunsAreSafe(vms, states, steps);
    SettledFigures(last, vms);
    assert InChannel([]) == multiset{} by { EmptyChannel(); }
    RunningZero(last.workers);
    AllExited(last.workers);
    OnlyLast(multiset(last.vmChan), JobsHeld(last.workers), HandledJobs(last.handled));
    OnlyFirst(multiset(last.errors), InChannel(last.errChan), ErrorsHeld(last.workers));
    forall j | 0 <= j < |vms| ensures HandledJobs(last.handled)[j] == 1 { UpToCounts(|vms|, j); }
  }

  lemma EmptyChannel()
    ensures InChannel([]) == multiset{}
  {}

  lemma OnlyLast<T>(a: multiset<T>, b: multiset<T>, c: multiset<T>)
    requires a == multiset{} && b == multiset{}
    ensures a + b + c == c
  {}

  lemma OnlyFirst<T>(a: multiset<T>, b: multiset<T>, c: multiset<T>)
    requires b == multiset{} && c == multiset{}
    ensures a + b + c == a
  {}

  lemma {:induction false} AllExited(workers: seq<Worker>)
    requires forall i :: 0 <= i < |workers| ==> workers[i] == Exited
    ensures JobsHeld(workers) == multiset{} && ErrorsHeld(workers) == multiset{}
  {
    if workers != [] { AllExited(workers[1..]); }
  }

  lemma {:induction false} RunningOnlyCounts(vms: seq<VM>)
    ensures forall vm :: vm in RunningOnly(vms) ==> vm.running
    ensures forall vm: VM :: vm.running ==> multiset(RunningOnly(vms))[vm] == multiset(vms)[vm]
  {
    if vms != [] {
      RunningOnlyCounts(vms[1..]);
      assert vms == [vms[0]] + vms[1..];
    }
  }

  /** How often online nodes list the machine. */
  function Listings(nodes: seq<Node>, vm: VM): nat {
    if nodes == [] then 0
    else
      var last := nodes[|nodes| - 1];
      Listings(nodes[..|nodes| - 1], vm)
      + match last.vms
        case Some(vms) => if last.online then multiset(vms)[vm] else 0
        case None => 0
  }

  lemma {:induction false} ListedConcat(a: seq<Node>, b: seq<Node>)
    ensures Listed(a + b) == Listed(a) + Listed(b)
  {
    if a == [] {
      assert a + b == b;
    } else {
      assert (a + b)[1..] == a[1..] + b;
      ListedConcat(a[1..], b);
    }
  }

  lemma {:induction false} ListedCounts(nodes: seq<Node>, vm: VM)
    ensures multiset(Listed(nodes))[vm] == Listings(nodes, vm)
  {
    if nodes != [] {
      var n := |nodes| - 1;
      ListedCounts(nodes[..n], vm);
      ListedConcat(nodes[..n], [nodes[n]]);
      assert nodes == nodes[..n] + [nodes[n]] && [nodes[n]][1..] == [];
    }
  }

  /** When EnrichVMs returns, exactly the running machines on online nodes were handled, once for each listing. */
  lemma RunningHandledOnce(nodes: seq<Node>, states: seq<State>, steps: seq<Step>)
    requires IsRun(Jobs(nodes), states, steps) && states[|steps|].producer == Returned
    ensures forall j :: 0 <= j < |Jobs(nodes)| ==>
              Jobs(nodes)[j].running && HandledJobs(states[|steps|].handled)[j] == 1
    ensures forall vm: VM :: vm.running ==> multiset(Jobs(nodes))[vm] == Listings(nodes, vm)
  {
    hide HandledJobs, UpTo, Failures, Settled, After, Enabled, IsRun, FiguresKept;
    ReturnedMeansDone(Jobs(nodes), states, steps);
    RunningOnlyCounts(Listed(nodes));
    forall vm: VM ensures multiset(Listed(nodes))[vm] == Listings(nodes, vm) { ListedCounts(nodes, vm); }
    forall j | 0 <= j < |Jobs(nodes)| ensures Jobs(nodes)[j].running { assert Jobs(nodes)[j] in Jobs(nodes); }
  }
}
