/**
 What the port-forwarding service does for its callers: an entry that has been started is enabled
 and stays so until it is stopped, every round of the worker reaches it, and with a gateway that
 cooperates its first pulse maps its port.
 */
module Serving {
  import opened Forwarding
  import opened PortStatus
  import opened Sequences
  import opened Options
  import Upnp
  import NatPmp

  // Starting and stopping

  /** A start for one of the two protocols: a fresh enabled entry under the name, for the port and
      the protocol asked for, and nothing else changes. */
  lemma StartedEntry(s: State)
    requires s.client.Starting? && (s.client.proto == TCP || s.client.proto == UDP)
    ensures var t, name := Started(s), s.client.name;
      && t.ports == s.ports[name := |s.handles|] && t.handles[..|s.handles|] == s.handles
      && |t.handles| == |s.handles| + 1
      && var p := t.handles[|s.handles|];
         && p.enabled && p.port == s.client.port && p.proto == s.client.proto
         && p.status == PortError && p.countdown == 0 && !p.check && p.upnp == Upnp.INITIAL && p.pmp == NatPmp.NEW
  {
  }

  /** Any other protocol is refused. */
  lemma RefusedStart(s: State)
    requires s.client.Starting? && s.client.proto != TCP && s.client.proto != UDP
    ensures Started(s) == s.(client := Ready)
  {
  }

  /** A stop moves the entry under the name behind the retired ones; other names keep theirs. */
  lemma StoppedEntry(s: State, name: string)
    ensures var t := Retire(s, name);
      && name !in t.ports && t.handles == s.handles
      && (forall n | n != name :: n in t.ports <==> n in s.ports)
      && (forall n | n in t.ports :: t.ports[n] == s.ports[n])
      && t.retired == if name in s.ports then s.retired + [s.ports[name]] else s.retired
  {
  }

  ghost predicate LiveEnabled(s: State) {
    forall n | n in s.ports :: s.ports[n] < |s.handles| && s.handles[s.ports[n]].enabled
  }

  lemma StepKeepsEnabled(s: State, act: Action, t: State)
    requires Inv(s) && Next(s, act, t) && LiveEnabled(s)
    ensures LiveEnabled(t)
  {
    if act.WorkerStep? {
      WorkerKeepsEnabled(s, act.a, t);
    }
  }

  lemma WorkerKeepsEnabled(s: State, a: Answers, t: State)
    requires Inv(s) && WorkerMoves(s, a, t) && LiveEnabled(s)
    ensures LiveEnabled(t)
  {
    WorkerKeepsFlags(s, a, t);
    if s.worker.CloseOld? && s.retired != [] {
      RetiredIsNotLive(s);
    }
  }

  /** The worker disables the entry that it takes out and no other. */
  lemma WorkerKeepsFlags(s: State, a: Answers, t: State)
    requires WorkerMoves(s, a, t)
    ensures |t.handles| == |s.handles| && (t.ports == s.ports || t.ports == map[])
    ensures forall id: Id | id < |s.handles| ::
              t.handles[id].enabled ==
              (s.handles[id].enabled && !(s.worker.CloseOld? && s.retired != [] && id == s.retired[0]))
  {
  }

  lemma RetiredIsNotLive(s: State)
    requires Inv(s) && s.retired != []
    ensures forall n | n in s.ports :: s.ports[n] != s.retired[0]
  {
    assert s.retired[0] in s.retired;
    assert s.retired[0] in Removed(s);
  }

  /** In every state of every run, every live entry is enabled. */
  lemma {:induction false} LiveEntriesEnabled(run: seq<State>, acts: seq<Action>, i: nat)
    requires IsRun(run, acts) && i < |run|
    ensures LiveEnabled(run[i])
  {
    if i > 0 {
      LiveEntriesEnabled(run, acts, i - 1);
      RunInv(run, acts, i - 1);
      assert Next(run[i - 1], acts[i - 1], run[i - 1 + 1]);
      StepKeepsEnabled(run[i - 1], acts[i - 1], run[i]);
    }
  }

  /** Entries never change their port or protocol, and are never forgotten. */
  ghost predicate SamePorts(s: State, t: State) {
    && |s.handles| <= |t.handles|
    && forall id: Id | id < |s.handles| ::
         t.handles[id].port == s.handles[id].port && t.handles[id].proto == s.handles[id].proto
  }

  lemma StepKeepsPorts(s: State, act: Action, t: State)
    requires Next(s, act, t)
    ensures SamePorts(s, t)
  {
    if act.WorkerStep? {
      WorkerKeepsPorts(s, act.a, t);
    }
  }

  lemma WorkerKeepsPorts(s: State, a: Answers, t: State)
    requires WorkerMoves(s, a, t)
    ensures SamePorts(s, t)
  {
  }

  lemma {:induction false} EntriesKeepPorts(run: seq<State>, acts: seq<Action>, i: nat, j: nat)
    requires IsRun(run, acts) && i <= j < |run|
    ensures SamePorts(run[i], run[j])
    decreases j
  {
    if i < j {
      EntriesKeepPorts(run, acts, i, j - 1);
      assert Next(run[j - 1], acts[j - 1], run[j - 1 + 1]);
      StepKeepsPorts(run[j - 1], acts[j - 1], run[j]);
    }
  }

  /** Entries are closed in the order in which they were retired. */
  lemma StepKeepsOrder(s: State, act: Action, t: State)
    requires Inv(s) && Next(s, act, t)
    ensures Removed(s) <= Removed(t)
  {
    if act.WorkerStep? {
      WorkerKeepsOrder(s, act.a, t);
    } else {
      assert s.closed + InHand(s) + s.retired <= t.closed + InHand(t) + t.retired;
    }
  }

  lemma WorkerKeepsOrder(s: State, a: Answers, t: State)
    requires WorkerMoves(s, a, t)
    ensures Removed(s) <= Removed(t)
  {
    if s.worker.CloseOld? && s.retired != [] {
      TakenInOrder(s, t);
    } else if s.worker.Closing? {
      ClosedNext(s, t, s.worker.id);
    } else if s.worker == Collect {
      CollectedInOrder(s, a, t);
    } else {
      assert Removed(t) == s.closed + InHand(s) + s.retired;
    }
  }

  lemma ClosedNext(s: State, t: State, id: Id)
    requires s.worker.Closing? && s.worker.id == id && InHand(t) == [] && t.retired == s.retired
    requires t.closed == s.closed + [id]
    ensures Removed(t) == Removed(s)
  {
  }

  lemma TakenInOrder(s: State, t: State)
    requires s.worker.CloseOld? && s.retired != [] && t.worker.Retiring?
    requires t.worker.id == s.retired[0] && t.retired == s.retired[1..] && t.closed == s.closed
    ensures Removed(t) == Removed(s)
  {
    assert s.retired == [s.retired[0]] + s.retired[1..];
    Regroup(s.closed, [s.retired[0]], s.retired[1..]);
  }

  lemma CollectedInOrder(s: State, a: Answers, t: State)
    requires s.worker == Collect && WorkerMoves(s, a, t)
    ensures Removed(s) <= Removed(t)
  {
    assert t.retired == s.retired + t.retired[|s.retired|..];
    Regroup(s.closed, s.retired, t.retired[|s.retired|..]);
  }

  lemma ClosedInOrder(run: seq<State>, acts: seq<Action>, i: nat, j: nat)
    requires IsRun(run, acts) && i <= j < |run|
    ensures Removed(run[i]) <= Removed(run[j])
  {
    var removed := seq(|run|, (k: nat) requires k < |run| => Removed(run[k]));
    forall k: nat | k + 1 < |run| ensures removed[k] <= removed[k + 1] {
      NextInOrder(run, acts, k);
    }
    Growing(removed, i, j);
  }

  lemma {:induction false} Growing(q: seq<seq<Id>>, i: nat, j: nat)
    requires i <= j < |q| && forall k: nat :: k + 1 < |q| ==> q[k] <= q[k + 1]
    ensures q[i] <= q[j]
    decreases j
  {
    if i < j {
      Growing(q, i, j - 1);
      assert q[j - 1] <= q[j - 1 + 1];
    }
  }

  lemma NextInOrder(run: seq<State>, acts: seq<Action>, j: nat)
    requires IsRun(run, acts) && j + 1 < |run|
    ensures Removed(run[j]) <= Removed(run[j + 1])
  {
    RunInv(run, acts, j);
    StepKeepsOrder(run[j], acts[j], run[j + 1]);
  }

  // Pulsing

  /** The better of the two statuses counts; the port is checked next time exactly if it is mapped,
      and an entry in error is left alone for nineteen rounds. */
  lemma StatusAfterPulse(p: Port, a: Answers)
    ensures var q := Forward(p, a);
      var us, ns := Upnp.StatusOf(q.upnp), NatPmp.StatusOf(q.pmp.h);
      && (q.status == us || q.status == ns) && Rank(q.status) >= Rank(us) && Rank(q.status) >= Rank(ns)
      && (q.check <==> us == PortMapped || ns == PortMapped)
      && q.countdown == (if us == PortError && ns == PortError then 19 else p.countdown)
      && q.enabled == p.enabled && q.port == p.port && q.proto == p.proto
  {
  }

  /** Exactly when the UPnP half of a pulse leaves the entry's port mapped. */
  lemma PulseMaps(p: Port, a: Answers)
    requires Upnp.Settled(p.upnp)
    ensures var q := Forward(p, a);
      && (q.upnp.isMapped <==>
            && p.enabled && Upnp.Found(p.upnp, p.enabled, a.upnp)
            && (Upnp.Stands(p.upnp, p.port, p.check, a.upnp) || (a.upnp.hasUrl && a.upnp.accepted)))
      && (q.upnp.isMapped ==> q.upnp.port == p.port && q.status == PortMapped)
  {
    Upnp.MapsExactly(p.upnp, p.port, p.enabled, p.enabled && p.check, a.upnp);
    Upnp.PulseSettles(p.upnp, p.port, p.enabled, p.enabled && p.check, a.upnp);
  }

  /** The first pulse of an entry that has been started, with a gateway that is connected and
      accepts: the port is mapped, the gateway holds it, and its status says so. */
  lemma FirstPulseMaps(s: State, id: Id, a: Answers)
    requires id < |s.handles| && s.handles[id] == NewPort(s.handles[id].port, s.handles[id].proto)
    requires a.upnp.connected && a.upnp.hasUrl && a.upnp.accepted
    ensures var t := Pulse(s, id, a);
      var p := t.handles[id];
      && p.status == PortMapped && p.check && p.upnp.isMapped && p.upnp.port == p.port
      && p.port == s.handles[id].port && (p.port, p.proto) in t.table
  {
    var p := s.handles[id];
    PulseMaps(p, a);
    StatusAfterPulse(p, a);
    Upnp.PulseSends(p.upnp, p.port, true, false, a.upnp);
    assert p.port in Served(s, p, a);
  }

  /** A mapped entry is looked up at the gateway with its next pulse. */
  lemma MappedIsChecked(p: Port, a: Answers, b: Answers)
    requires Upnp.Settled(p.upnp) && Forward(p, a).upnp.isMapped
    ensures var q := Forward(p, a);
      Upnp.Sent(q.upnp, q.port, q.enabled, q.enabled && q.check, b.upnp).query == Some(q.port)
  {
    PulseMaps(p, a);
    StatusAfterPulse(p, a);
    Upnp.PulseSettles(p.upnp, p.port, p.enabled, p.enabled && p.check, a.upnp);
    var q := Forward(p, a);
    Upnp.PulseSends(q.upnp, q.port, q.enabled, q.enabled && q.check, b.upnp);
  }

  // The worker's rounds

  /** The worker has the name still before it in this round. */
  predicate Ahead(w: Worker, n: string) {
    (w.Scanning? || w.Pulsing?) && n in w.names
  }

  /** This step is the entry's turn: its countdown goes on, or it is pulsed. */
  ghost predicate Turn(s: State, act: Action, t: State, id: Id) {
    && act.WorkerStep? && id < |s.handles| && id < |t.handles|
    && var p, q := s.handles[id], t.handles[id];
       || (s.worker.Scanning? && p.countdown > 0 && q == p.(countdown := p.countdown - 1))
       || (s.worker.Pulsing? && s.worker.id == id && q == Forward(p, act.a))
  }

  /** Looking at the first of the names. */
  lemma LookAt(s: State, a: Answers, t: State, n: string, id: Id)
    requires WorkerMoves(s, a, t) && s.worker.Scanning? && s.worker.names != [] && s.worker.names[0] == n
    requires n in s.ports && s.ports[n] == id
    ensures id < |s.handles|
    ensures if s.handles[id].countdown > 0 then Turn(s, WorkerStep(a), t, id)
            else t.worker.Pulsing? && t.worker.id == id
  {
  }

  lemma StaysAhead(s: State, act: Action, t: State, n: string)
    requires Next(s, act, t) && Ahead(s.worker, n)
    ensures (act.WorkerStep? && s.worker.Scanning? && s.worker.names[0] == n) || Ahead(t.worker, n)
  {
    if act.WorkerStep? && s.worker.Scanning? {
      assert s.worker.names == [s.worker.names[0]] + s.worker.names[1..];
    }
  }

  lemma StepAhead(s: State, act: Action, t: State, n: string, id: Id)
    requires Next(s, act, t) && Ahead(s.worker, n) && n in s.ports && s.ports[n] == id
    ensures Ahead(t.worker, n) || Turn(s, act, t, id) || (t.worker.Pulsing? && t.worker.id == id)
  {
    StaysAhead(s, act, t, n);
    if !Ahead(t.worker, n) {
      LookAt(s, act.a, t, n, id);
    }
  }

  /** The entry has its turn still before it in this round. */
  predicate Due(w: Worker, n: string, id: Id) {
    Ahead(w, n) || (w.Pulsing? && w.id == id)
  }

  lemma StepDue(s: State, act: Action, t: State, n: string, id: Id)
    requires Next(s, act, t) && Due(s.worker, n, id) && n in s.ports && s.ports[n] == id
    ensures Due(t.worker, n, id) || Turn(s, act, t, id)
  {
    if Ahead(s.worker, n) {
      StepAhead(s, act, t, n, id);
    }
  }

  lemma RunDue(run: seq<State>, acts: seq<Action>, k: nat, n: string, id: Id)
    requires IsRun(run, acts) && k + 1 < |run| && Due(run[k].worker, n, id)
    requires n in run[k].ports && run[k].ports[n] == id
    ensures Due(run[k + 1].worker, n, id) || Turn(run[k], acts[k], run[k + 1], id)
  {
    assert Next(run[k], acts[k], run[k + 1]);
    StepDue(run[k], acts[k], run[k + 1], n, id);
  }

  /** Whatever the client does meanwhile: in every round that has an entry's name before it and in
      which the entry stays live, the entry has its turn. */
  lemma TurnComes(run: seq<State>, acts: seq<Action>, i: nat, j: nat, n: string, id: Id) returns (k: nat)
    requires IsRun(run, acts) && i <= j < |run| && Ahead(run[i].worker, n) && run[j].worker == Top
    requires forall m | i <= m <= j :: n in run[m].ports && run[m].ports[n] == id
    ensures i <= k < j && Turn(run[k], acts[k], run[k + 1], id)
  {
    k := LastTrue(seq(|run|, (m: nat) requires m < |run| => Due(run[m].worker, n, id)), i, j);
    RunDue(run, acts, k, n, id);
  }

  lemma {:induction false} LastTrue(due: seq<bool>, i: nat, j: nat) returns (k: nat)
    requires i <= j < |due| && due[i] && !due[j]
    ensures i <= k < j && due[k] && !due[k + 1]
    decreases j - i
  {
    k := i;
    if due[i + 1] {
      k := LastTrue(due, i + 1, j);
    }
  }

  /** And every round that begins has every live name before it. */
  lemma RoundHasAll(s: State, a: Answers, t: State)
    requires s.worker == Scan && WorkerMoves(s, a, t)
    ensures forall n | n in s.ports :: Ahead(t.worker, n)
  {
  }
}
