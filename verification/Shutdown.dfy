/**
 The end of the port-forwarding service: the worker is never stuck, it exits within a known number
 of steps once destruction has begun, and what the last pulse of each entry did to its NAT-PMP
 mapping is what remains.
 */
module Shutdown {
  import opened Forwarding
  import Upnp
  import NatPmp

  // Progress

  lemma {:induction false} SomeListing(ports: map<string, Id>) returns (names: seq<string>)
    ensures Lists(names, ports)
    decreases |ports|
  {
    if ports == map[] {
      names := [];
    } else {
      var n :| n in ports;
      var rest := ports - {n};
      assert rest.Keys == ports.Keys - {n};
      var more := SomeListing(rest);
      names := [n] + more;
    }
  }

  /** A gateway that does all it is asked to, at second 0. */
  const WILLING := Answers(Upnp.Answers(true, true, true, true, true),
                           NatPmp.At(0, NatPmp.TryAgain, NatPmp.TryAgain, NatPmp.TryAgain))

  /** Until it has exited, the worker can always take a step. */
  lemma WorkerCanMove(s: State) returns (t: State)
    requires Inv(s) && s.worker != Exited
    ensures WorkerMoves(s, WILLING, t)
  {
    match s.worker
    case Top => t := s.(worker := if s.running then CloseOld(false) else Collect);
    case CloseOld(quitting) =>
      if s.retired == [] {
        t := s.(worker := if quitting then Exited else Scan);
      } else {
        var id := s.retired[0];
        assert id in Removed(s);
        t := s.(retired := s.retired[1..], worker := Retiring(id, quitting),
                handles := s.handles[id := s.handles[id].(enabled := false)]);
      }
    case Retiring(id, quitting) => t := Pulse(s, id, WILLING).(worker := Closing(id, quitting));
    case Closing(id, quitting) => t := s.(closed := s.closed + [id], worker := CloseOld(quitting));
    case Scan =>
      var names := SomeListing(s.ports);
      t := s.(worker := Scanning(names));
    case Scanning(names) => t := Scanned(s, names);
    case Pulsing(id, names) =>
      NotYetClosed(s);
      t := Pulse(s, id, WILLING).(worker := Scanning(names));
    case Collect =>
      var names := SomeListing(s.ports);
      var ids := seq(|names|, i requires 0 <= i < |names| => s.ports[names[i]]);
      t := s.(ports := map[], retired := s.retired + ids, worker := CloseOld(true));
      assert t.retired[|s.retired|..] == ids && t.retired[..|s.retired|] == s.retired;
  }

  /** The step for the first of the names. */
  function Scanned(s: State, names: seq<string>): State {
    if names == [] then s.(worker := Top)
    else if names[0] in s.ports && s.ports[names[0]] < |s.handles| then
      var id := s.ports[names[0]];
      var p := s.handles[id];
      if p.countdown == 0 then s.(worker := Pulsing(id, names[1..]))
      else s.(worker := Scanning(names[1..]), handles := s.handles[id := p.(countdown := p.countdown - 1)])
    else s.(worker := Scanning(names[1..]))
  }

  // Termination

  /** How many worker steps are left at most once the service is no longer running: three for
      every entry to be closed, two for every name still to be looked at. */
  function Left(s: State): nat {
    LeftAt(s.worker, |s.retired|, |s.ports|)
  }

  function LeftAt(w: Worker, r: nat, l: nat): nat {
    match w
    case Exited => 0
    case CloseOld(q) => 3 * r + if q then 1 else 5 * l + 6
    case Retiring(_, q) => 3 * r + if q then 3 else 5 * l + 8
    case Closing(_, q) => 3 * r + if q then 2 else 5 * l + 7
    case Collect => 3 * (r + l) + 2
    case Top => 3 * (r + l) + 3
    case Scanning(names) => 3 * (r + l) + 4 + 2 * |names|
    case Pulsing(_, names) => 3 * (r + l) + 5 + 2 * |names|
    case Scan => 3 * (r + l) + 5 + 2 * l
  }

  lemma {:induction false} ListingSize(names: seq<string>, ports: map<string, Id>)
    requires Lists(names, ports)
    ensures |names| == |ports|
    decreases |names|
  {
    if names == [] {
      assert ports == map[];
    } else {
      var rest := ports - {names[0]};
      assert rest.Keys == ports.Keys - {names[0]};
      assert names == [names[0]] + names[1..];
      ListingSize(names[1..], rest);
    }
  }

  lemma IdsSize(ids: seq<Id>, ports: map<string, Id>)
    requires ListsIds(ids, ports)
    ensures |ids| == |ports|
  {
    var names :| Lists(names, ports) && |ids| == |names|;
    ListingSize(names, ports);
  }

  /** Each worker step brings the end nearer: that of the round while the service is running, that
      of the worker when it is not. */
  lemma StepsDown(s: State, a: Answers, t: State)
    requires WorkerMoves(s, a, t) && (s.worker == Top ==> !s.running)
    ensures t.running == s.running && Left(t) < Left(s)
  {
    if s.worker == Scan || s.worker == Collect {
      ListingDown(s, a, t);
    } else if s.worker.CloseOld? || s.worker.Retiring? || s.worker.Closing? {
      ClosingDown(s, a, t);
    } else {
      RoundDown(s, a, t);
    }
  }

  lemma ListingDown(s: State, a: Answers, t: State)
    requires WorkerMoves(s, a, t) && (s.worker == Scan || s.worker == Collect)
    ensures t.running == s.running && Left(t) < Left(s)
  {
    if s.worker == Scan {
      ListingSize(t.worker.names, s.ports);
    } else {
      IdsSize(t.retired[|s.retired|..], s.ports);
    }
  }

  lemma ClosingDown(s: State, a: Answers, t: State)
    requires WorkerMoves(s, a, t) && (s.worker.CloseOld? || s.worker.Retiring? || s.worker.Closing?)
    ensures t.running == s.running && Left(t) < Left(s)
  {
  }

  lemma RoundDown(s: State, a: Answers, t: State)
    requires WorkerMoves(s, a, t) && (s.worker == Top ==> !s.running)
    requires s.worker == Top || s.worker.Scanning? || s.worker.Pulsing? || s.worker == Exited
    ensures t.running == s.running && Left(t) < Left(s)
  {
    assert t.ports == s.ports && t.retired == s.retired && t.running == s.running;
    RoundShrinks(s.worker, t.worker, |s.retired|, |s.ports|);
  }

  lemma RoundShrinks(w: Worker, w': Worker, r: nat, l: nat)
    requires match w
             case Top => w' == Collect
             case Scanning(names) =>
               || (names == [] && w' == Top)
               || (names != [] && (w' == Scanning(names[1..]) || (w'.Pulsing? && w'.names == names[1..])))
             case Pulsing(_, names) => w' == Scanning(names)
             case _ => false
    ensures LeftAt(w', r, l) < LeftAt(w, r, l)
  {
  }

  /** The worker steps among the actions from `i` up to `j`. */
  function WorkerSteps(acts: seq<Action>, i: nat, j: nat): nat
    requires i <= j <= |acts|
    decreases j - i
  {
    if i == j then 0 else WorkerSteps(acts, i, j - 1) + if acts[j - 1].WorkerStep? then 1 else 0
  }

  /** Once destruction has begun, the steps taken and the steps left never exceed the bound. */
  lemma BoundHolds(run: seq<State>, acts: seq<Action>, i: nat, j: nat)
    requires IsRun(run, acts) && i <= j < |run| && run[i].client == Destroyed
    ensures WorkerSteps(acts, i, j) + Left(run[j]) <= Left(run[i])
  {
    forall k | i <= k < j ensures StepCounts(run[k], acts[k], run[k + 1]) {
      StaysDestroyed(run, acts, i, k);
      RunStepBound(run, acts, k);
    }
    StepsAddUp(run, acts, i, j);
  }

  predicate StepCounts(s: State, act: Action, t: State) {
    Left(t) + (if act.WorkerStep? then 1 else 0) <= Left(s)
  }

  lemma {:induction false} StepsAddUp(run: seq<State>, acts: seq<Action>, i: nat, j: nat)
    requires i <= j <= |acts| && |run| == |acts| + 1
    requires forall k | i <= k < j :: StepCounts(run[k], acts[k], run[k + 1])
    ensures WorkerSteps(acts, i, j) + Left(run[j]) <= Left(run[i])
    decreases j
  {
    if i < j {
      StepsAddUp(run, acts, i, j - 1);
      assert StepCounts(run[j - 1], acts[j - 1], run[j - 1 + 1]);
    }
  }

  lemma {:induction false} StaysDestroyed(run: seq<State>, acts: seq<Action>, i: nat, k: nat)
    requires IsRun(run, acts) && i <= k < |run| && run[i].client == Destroyed
    ensures run[k].client == Destroyed && !run[k].running
    decreases k
  {
    if i == k {
      DestroyedStops(run, acts, i);
    } else {
      StaysDestroyed(run, acts, i, k - 1);
      RunStepBound(run, acts, k - 1);
    }
  }

  lemma DestroyedStops(run: seq<State>, acts: seq<Action>, i: nat)
    requires IsRun(run, acts) && i < |run| && run[i].client == Destroyed
    ensures !run[i].running
  {
    RunInv(run, acts, i);
  }

  lemma RunStepBound(run: seq<State>, acts: seq<Action>, k: nat)
    requires IsRun(run, acts) && k < |acts| && run[k].client == Destroyed && !run[k].running
    ensures run[k + 1].client == Destroyed && !run[k + 1].running
    ensures StepCounts(run[k], acts[k], run[k + 1])
  {
    assert Next(run[k], acts[k], run[k + 1]);
    StepBound(run[k], acts[k], run[k + 1]);
  }

  lemma StepBound(s: State, act: Action, t: State)
    requires s.client == Destroyed && !s.running && Next(s, act, t)
    ensures t.client == Destroyed && !t.running
    ensures StepCounts(s, act, t)
  {
    if act.WorkerStep? {
      StepsDown(s, act.a, t);
      ClientStays(s, act.a, t);
    }
  }

  lemma ClientStays(s: State, a: Answers, t: State)
    requires WorkerMoves(s, a, t)
    ensures t.client == s.client
  {
  }

  /** So after that many worker steps the worker has exited, and `wait` returns. */
  lemma ExitsInTime(run: seq<State>, acts: seq<Action>, i: nat, j: nat)
    requires IsRun(run, acts) && i <= j < |run| && run[i].client == Destroyed
    requires WorkerSteps(acts, i, j) >= Left(run[i])
    ensures run[j].worker == Exited
  {
    BoundHolds(run, acts, i, j);
  }

  // What remains of NAT-PMP

  /** The entry is closed or about to be: its last pulse lies behind it. */
  predicate Finished(s: State, id: Id) {
    id in s.closed || (s.worker.Closing? && s.worker.id == id)
  }

  /** A finished entry never changes again. */
  lemma FinishedStays(s: State, act: Action, t: State, id: Id)
    requires Inv(s) && Next(s, act, t) && Finished(s, id)
    ensures Finished(t, id) && id < |s.handles| <= |t.handles| && t.handles[id] == s.handles[id]
  {
    FinishedIsRemoved(s, id);
    if act.WorkerStep? {
      FinishedInWorker(s, act.a, t, id);
    }
  }

  lemma FinishedIsRemoved(s: State, id: Id)
    requires Inv(s) && Finished(s, id)
    ensures id < |s.handles| && !Live(s, id) && id !in s.retired
  {
    var r := Removed(s);
    var k := if id in s.closed then IndexIn(s.closed, id) else |s.closed|;
    assert r[k] == id && id in r;
    forall j | 0 <= j < |s.retired| ensures s.retired[j] != id {
      assert r[|s.closed| + |InHand(s)| + j] == s.retired[j];
    }
  }

  lemma FinishedInWorker(s: State, a: Answers, t: State, id: Id)
    requires Inv(s) && WorkerMoves(s, a, t) && Finished(s, id)
    requires id < |s.handles| && !Live(s, id) && id !in s.retired
    ensures Finished(t, id) && |t.handles| == |s.handles| && t.handles[id] == s.handles[id]
  {
    if s.worker.Pulsing? || s.worker.Retiring? || s.worker.Closing? {
      NotYetClosed(s);
    }
    if s.worker.Scanning? && s.worker.names != [] && s.worker.names[0] in s.ports {
      assert Live(s, s.ports[s.worker.names[0]]);
    }
  }

  /** The last pulse of a finished entry: it was disabled, and left the entry as it is now. */
  lemma {:induction false} LastPulse(run: seq<State>, acts: seq<Action>, i: nat, id: Id) returns (j: nat)
    requires IsRun(run, acts) && i < |run| && Finished(run[i], id)
    ensures j < i && acts[j].WorkerStep? && run[j].worker.Retiring? && run[j].worker.id == id
    ensures id < |run[j].handles| && id < |run[i].handles| && !run[j].handles[id].enabled
    ensures run[i].handles[id] == Forward(run[j].handles[id], acts[j].a)
    decreases i
  {
    var k: nat := i - 1;
    RunInv(run, acts, k);
    assert Next(run[k], acts[k], run[k + 1]);
    if Finished(run[k], id) {
      j := LastPulse(run, acts, k, id);
      FinishedStays(run[k], acts[k], run[i], id);
    } else {
      JustFinished(run[k], acts[k], run[i], id);
      j := k;
    }
  }

  lemma JustFinished(s: State, act: Action, t: State, id: Id)
    requires Next(s, act, t) && !Finished(s, id) && Finished(t, id)
    ensures act.WorkerStep? && s.worker.Retiring? && s.worker.id == id && id < |s.handles| == |t.handles|
    ensures t.handles[id] == Forward(s.handles[id], act.a)
  {
    if act.WorkerStep? {
      FinishingStep(s, act.a, t, id);
    }
  }

  lemma FinishingStep(s: State, a: Answers, t: State, id: Id)
    requires WorkerMoves(s, a, t) && !Finished(s, id) && Finished(t, id)
    ensures s.worker.Retiring? && s.worker.id == id && id < |s.handles| == |t.handles|
    ensures t.handles[id] == Forward(s.handles[id], a)
  {
  }

  /** At exit an entry's NAT-PMP handle still counts as mapped exactly if its last pulse could not
      remove the mapping or was answered with one. */
  lemma PmpAtExit(run: seq<State>, acts: seq<Action>, i: nat, id: Id) returns (j: nat)
    requires IsRun(run, acts) && i < |run| && run[i].worker == Exited && id < |run[i].handles|
    ensures j < i && acts[j].WorkerStep? && run[j].worker.Retiring? && run[j].worker.id == id
    ensures id < |run[j].handles|
    ensures run[i].handles[id].pmp.h.isMapped <==> NatPmp.StaysMapped(run[j].handles[id].pmp, acts[j].a.pmp)
  {
    CleanExit(run, acts, i);
    j := LastPulse(run, acts, i, id);
    RunInv(run, acts, j);
    var p := run[j].handles[id];
    NatPmp.MappedAfterDisabled(p.pmp, p.port, acts[j].a.pmp);
  }
  // What the gateway still holds by NAT-PMP

  /** The answers taken for confirmations in the pulse are ones, if the step is a pulse. */
  ghost predicate TruthfulStep(s: State, act: Action) {
    act.WorkerStep? && (s.worker.Retiring? || s.worker.Pulsing?) && s.worker.id < |s.handles| ==>
      var p := s.handles[s.worker.id]; NatPmp.Truthful(p.pmp, p.port, p.enabled, act.a.pmp)
  }

  ghost predicate TruthfulRun(run: seq<State>, acts: seq<Action>) {
    IsRun(run, acts) && forall i | 0 <= i < |acts| :: TruthfulStep(run[i], acts[i])
  }

  ghost predicate AllExplained(handles: seq<Port>) {
    forall id | 0 <= id < |handles| :: NatPmp.Explained(handles[id].pmp, handles[id].port)
  }

  lemma StepExplains(s: State, act: Action, t: State)
    requires Inv(s) && Next(s, act, t) && TruthfulStep(s, act) && AllExplained(s.handles)
    ensures AllExplained(t.handles)
  {
    if act.WorkerStep? {
      WorkerExplains(s, act.a, t);
    }
  }

  lemma WorkerExplains(s: State, a: Answers, t: State)
    requires Inv(s) && WorkerMoves(s, a, t) && TruthfulStep(s, WorkerStep(a)) && AllExplained(s.handles)
    ensures AllExplained(t.handles)
  {
    if s.worker.Retiring? || s.worker.Pulsing? {
      PulsedExplains(s, s.worker.id, a);
    }
  }

  lemma PulsedExplains(s: State, id: Id, a: Answers)
    requires id < |s.handles| && AllExplained(s.handles) && NatPmp.Inv(s.handles[id].pmp)
    requires var p := s.handles[id]; NatPmp.Truthful(p.pmp, p.port, p.enabled, a.pmp)
    ensures AllExplained(Pulse(s, id, a).handles)
  {
    var p := s.handles[id];
    NatPmp.PulseExplains(p.pmp, p.port, p.enabled, a.pmp);
  }

  lemma {:induction false} RunExplains(run: seq<State>, acts: seq<Action>, i: nat)
    requires TruthfulRun(run, acts) && i < |run|
    ensures AllExplained(run[i].handles)
  {
    if i > 0 {
      RunExplains(run, acts, i - 1);
      RunInv(run, acts, i - 1);
      assert Next(run[i - 1], acts[i - 1], run[i - 1 + 1]) && TruthfulStep(run[i - 1], acts[i - 1]);
      StepExplains(run[i - 1], acts[i - 1], run[i]);
    }
  }

  /** In every state, and so at exit: what the gateway holds on account of an entry's NAT-PMP
      requests is the entry's port at most, and only if the handle counts as mapped or its last
      request for a mapping has had no answer. */
  lemma PmpHeld(run: seq<State>, acts: seq<Action>, i: nat, id: Id)
    requires TruthfulRun(run, acts) && i < |run| && id < |run[i].handles|
    ensures var p := run[i].handles[id];
      p.pmp.held <= {p.port} && (p.pmp.held != {} ==> p.pmp.h.isMapped || p.pmp.unanswered)
  {
    RunExplains(run, acts, i);
  }
}
