/** The cluster client: one active connection, and round-robin failover over an ordered list of candidates. */
module ClusterFailover {
  import opened Text

  datatype Profile = Profile(name: string, config: string)

  type Client = string

  /** The outcome of connecting to each candidate, by position, during one call. */
  type Reach = seq<Option<Client>>

  datatype State = State(candidates: seq<Profile>, client: Option<Client>, profile: string, index: int)

  const UNCONNECTED := State([], None, "", -1)

  /** The candidate tried at the `attempt`-th probe, counted from 1. */
  function Probe(index: int, attempt: nat, n: nat): int
    requires n > 0
  {
    (index + attempt) % n
  }

  predicate Connected(s: State, i: int, reach: Reach) {
    && 0 <= i < |s.candidates| && i < |reach| && reach[i].Some?
    && s.client == reach[i] && s.profile == s.candidates[i].name && s.index == i
  }

  /** Failover over `n` candidates connects to the first reachable one after `s.index` in cyclic order. */
  ghost predicate FailsOver(s: State, reach: Reach, s': State, ok: bool) {
    var n := |s.candidates|;
    && |reach| == n && s'.candidates == s.candidates
    && (if ok then
          exists attempt: nat :: 1 <= attempt <= n && Connected(s', Probe(s.index, attempt, n), reach)
            && forall a: nat :: 1 <= a < attempt ==> 0 <= Probe(s.index, a, n) < n && reach[Probe(s.index, a, n)].None?
        else
          s' == s && forall i :: 0 <= i < n ==> reach[i].None?)
  }

  /** Initialize over at least one profile connects to the first reachable one, or to none. */
  ghost predicate Initializes(profiles: seq<Profile>, reach: Reach, s': State, ok: bool) {
    && |reach| == |profiles| && s'.candidates == profiles
    && (if ok then
          exists i :: 0 <= i < |profiles| && Connected(s', i, reach) && forall j :: 0 <= j < i ==> reach[j].None?
        else
          s' == State(profiles, None, "", -1) && forall j :: 0 <= j < |profiles| ==> reach[j].None?)
  }

  // ---- Modular round robin ----

  /** The attempt that probes candidate `i`. */
  function AttemptFor(index: int, i: nat, n: nat): int
    requires n > 0
  {
    if i > index then i - index else i - index + n
  }

  /** The probes 1..n visit every candidate exactly once, also from index -1, and the active one last. */
  lemma ProbesVisitAll(index: int, n: nat)
    requires n > 0 && -1 <= index < n
    ensures forall a: nat :: 1 <= a <= n ==>
        0 <= Probe(index, a, n) < n && AttemptFor(index, Probe(index, a, n), n) == a
    ensures forall i: nat :: i < n ==>
        1 <= AttemptFor(index, i, n) <= n && Probe(index, AttemptFor(index, i, n), n) == i
    ensures index >= 0 ==> Probe(index, n, n) == index
  {
    forall a: nat | 1 <= a <= n
      ensures 0 <= Probe(index, a, n) < n && AttemptFor(index, Probe(index, a, n), n) == a
    {
      ModOnce(index + a, n);
    }
    forall i: nat | i < n
      ensures 1 <= AttemptFor(index, i, n) <= n && Probe(index, AttemptFor(index, i, n), n) == i
    {
      ModOnce(index + AttemptFor(index, i, n), n);
    }
    ModOnce(index + n, n);
  }

  lemma ModOnce(x: int, n: nat)
    requires n > 0 && 0 <= x < 2 * n
    ensures x % n == if x < n then x else x - n
  {}

  // ---- The object ----

  class ClusterClient {
    var candidates: seq<Profile>
    var activeClient: Option<Client>
    var activeProfile: string
    var activeIndex: int

    ghost function View(): State
      reads this
    {
      State(candidates, activeClient, activeProfile, activeIndex)
    }

    constructor ()
      ensures View() == UNCONNECTED
    {
      candidates, activeClient, activeProfile, activeIndex := [], None, "", -1;
    }

    method Initialize(profiles: seq<Profile>, reach: Reach) returns (ok: bool)
      requires |reach| == |profiles|
      modifies this
      ensures profiles == [] ==> !ok && View() == old(View())
      ensures profiles != [] ==> Initializes(profiles, reach, View(), ok)
    {
      if |profiles| == 0 { return false; }
      candidates, activeClient, activeProfile, activeIndex := profiles, None, "", -1;
      for i := 0 to |profiles|
        invariant View() == State(profiles, None, "", -1)
        invariant forall j :: 0 <= j < i ==> reach[j].None?
      {
        if reach[i].Some? {
          activeClient, activeProfile, activeIndex := reach[i], profiles[i].name, i;
          assert Connected(View(), i, reach);
          return true;
        }
      }
      return false;
    }

    /** failoverLocked, called by Failover and by a failing health check. */
    method Failover(reach: Reach) returns (ok: bool)
      requires Consistent(View()) && |reach| == |candidates|
      modifies this
      ensures FailsOver(old(View()), reach, View(), ok)
    {
      var numCandidates := |candidates|;
      if numCandidates == 0 { return false; }
      ProbesVisitAll(activeIndex, numCandidates);
      for attempt := 1 to numCandidates + 1
        invariant View() == old(View())
        invariant forall a: nat :: 1 <= a < attempt ==> reach[Probe(activeIndex, a, numCandidates)].None?
      {
        var idx := (activeIndex + attempt) % numCandidates;
        assert idx == Probe(activeIndex, attempt, numCandidates);
        if reach[idx].Some? {
          activeClient, activeProfile, activeIndex := reach[idx], candidates[idx].name, idx;
          assert Connected(View(), Probe(old(activeIndex), attempt, numCandidates), reach);
          return true;
        }
      }
      forall i: nat | i < numCandidates ensures reach[i].None? {
        assert i == Probe(activeIndex, AttemptFor(activeIndex, i, numCandidates), numCandidates);
      }
      return false;
    }

    method Close()
      modifies this
      ensures View() == State(old(candidates), None, "", -1)
    {
      activeClient, activeProfile, activeIndex := None, "", -1;
    }
  }

  // ---- Whole runs ----

  datatype Op = Initialize(profiles: seq<Profile>, reach: Reach) | Failover(reach: Reach) | Close

  ghost predicate Next(s: State, op: Op, s': State) {
    match op
    case Initialize(profiles, reach) =>
      if profiles == [] then s' == s else exists ok :: Initializes(profiles, reach, s', ok)
    case Failover(reach) => exists ok :: FailsOver(s, reach, s', ok)
    case Close => s' == s.(client := None, profile := "", index := -1)
  }

  /** A connection names the candidate it belongs to, and without one nothing is named. */
  predicate Consistent(s: State) {
    if s.client.Some? then 0 <= s.index < |s.candidates| && s.profile == s.candidates[s.index].name
    else s.index == -1 && s.profile == ""
  }

  lemma StepKeepsConsistent(s: State, op: Op, s': State)
    requires Consistent(s) && Next(s, op, s')
    ensures Consistent(s')
  {}

  lemma {:induction false} RunsStayConsistent(states: seq<State>, ops: seq<Op>)
    requires |states| == |ops| + 1 && states[0] == UNCONNECTED
    requires forall i :: 0 <= i < |ops| ==> Next(states[i], ops[i], states[i + 1])
    ensures Consistent(states[|ops|])
    decreases |ops|
  {
    if ops != [] {
      var n := |ops| - 1;
      RunsStayConsistent(states[..n + 1], ops[..n]);
      assert states[..n + 1][n] == states[n];
      StepKeepsConsistent(states[n], ops[n], states[n + 1]);
    }
  }

  /** Failover fails only when no candidate at all is reachable, and otherwise its result is determined. */
  lemma FailoverIsDetermined(s: State, reach: Reach, s1: State, ok1: bool, s2: State, ok2: bool)
    requires Consistent(s) && FailsOver(s, reach, s1, ok1) && FailsOver(s, reach, s2, ok2)
    ensures s1 == s2 && ok1 == ok2
    ensures ok1 <==> exists i :: 0 <= i < |reach| && reach[i].Some?
  {}

  /** So is the result of Initialize, which connects to the first profile that can be reached. */
  lemma InitializeIsDetermined(profiles: seq<Profile>, reach: Reach, s1: State, ok1: bool, s2: State, ok2: bool)
    requires Initializes(profiles, reach, s1, ok1) && Initializes(profiles, reach, s2, ok2)
    ensures s1 == s2 && ok1 == ok2
    ensures ok1 <==> exists i :: 0 <= i < |reach| && reach[i].Some?
    ensures forall i :: 0 <= i < |reach| && reach[i].Some? && (forall j :: 0 <= j < i ==> reach[j].None?) ==>
              s1.index == i && s1.client == reach[i] && s1.profile == profiles[i].name
  {}
}
