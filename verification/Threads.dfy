/**
 The two threads of the port-forwarding service at work on its object, one section at a time. Every
 section, whenever the schedule picks it, is a step of the machine in `Forwarding`: of its program
 counters, its list of closed entries and the gateway's table as much as of its entries.
 */
module Threads {
  import opened Forwarding
  import opened Service
  import NatPmp

  /** Where the worker is, with the entry it has taken or is about to pulse. */
  datatype Place =
    | AtTop | AtScan | AtCollect | AtExit
    | AtCloseOld(quitting: bool)
    | AtRetiring(p: SPort, quitting: bool)
    | AtClosing(p: SPort, quitting: bool)
    | AtScanning(names: seq<string>)
    | AtPulsing(p: SPort, names: seq<string>)

  /** Where the client is, with the arguments of the call it is in. */
  datatype Caller = Free | InStart(name: string, port: int, protoText: string) | Gone

  ghost predicate Refers(p: SPort, created: seq<SPort>, id: Id) {
    id < |created| && p == created[id]
  }

  ghost predicate Points(place: Place, w: Worker, created: seq<SPort>) {
    match place
    case AtTop => w == Top
    case AtScan => w == Scan
    case AtCollect => w == Collect
    case AtExit => w == Exited
    case AtCloseOld(q) => w == CloseOld(q)
    case AtRetiring(p, q) => w.Retiring? && w.quitting == q && Refers(p, created, w.id)
    case AtClosing(p, q) => w.Closing? && w.quitting == q && Refers(p, created, w.id)
    case AtScanning(names) => w == Scanning(names)
    case AtPulsing(p, names) => w.Pulsing? && w.names == names && Refers(p, created, w.id)
  }

  function Calls(caller: Caller): Client {
    match caller
    case Free => Ready
    case InStart(name, port, protoText) => Starting(name, port, Protocol(protoText))
    case Gone => Destroyed
  }

  lemma PointsMore(place: Place, w: Worker, created: seq<SPort>, more: seq<SPort>)
    requires Points(place, w, created) && created <= more
    ensures Points(place, w, more)
  {
  }

  class System {
    const service: CMiniUPnP
    var place: Place
    var caller: Caller
    ghost var m: State

    ghost predicate Valid()
      reads this, service, service.created
      reads set p | p in service.created :: p.upnp, set p | p in service.created :: p.pmp
    {
      service.Shows(m) && Points(place, m.worker, service.created) && Calls(caller) == m.client && Inv(m)
    }

    constructor ()
      ensures Valid() && fresh(service) && m == INITIAL
    {
      service := new CMiniUPnP();
      place, caller, m := AtTop, Free, INITIAL;
    }

    /** Both threads' places and the machine move on together. */
    method Advance(ghost t: State, at: Place, call: Caller)
      requires service.Shows(t) && Points(at, t.worker, service.created) && Calls(call) == t.client && Inv(t)
      modifies this
      ensures Valid() && m == t
    {
      place, caller, m := at, call, t;
    }

    // The client's sections; those under the lock wait until the worker does not hold it.

    method Stop(name: string)
      requires Valid() && caller == Free && !place.AtScanning?
      modifies this, service
      ensures Valid() && Next(old(m), Action.Stop(name), m)
    {
      StopMoves(m, name);
      service.StopForwarding(name, m);
      Advance(Retire(m, name), place, caller);
    }

    method BeginStart(name: string, port: int, protoText: string)
      requires Valid() && caller == Free && !place.AtScanning?
      modifies this, service
      ensures Valid() && Next(old(m), StartBegin(name, port, Protocol(protoText)), m)
    {
      BeginMoves(m, name, port, Protocol(protoText));
      service.StopForwarding(name, m);
      Advance(Retire(m, name).(client := Starting(name, port, Protocol(protoText))), place,
              InStart(name, port, protoText));
    }

    method EndStart() returns (ok: bool)
      requires Valid() && caller.InStart? && !place.AtScanning?
      modifies this, service
      ensures Valid() && Next(old(m), StartEnd, m) && ok == (Protocol(old(caller).protoText) != 0)
    {
      StartMoves(m);
      ghost var created := service.created;
      ok := service.FinishStart(caller.name, caller.port, caller.protoText, m);
      PointsMore(place, m.worker, created, service.created);
      Advance(Started(m), place, Free);
    }

    method Destroy()
      requires Valid() && caller == Free
      modifies this, service
      ensures Valid() && Next(old(m), Action.Destroy, m)
    {
      DestroyMoves(m);
      service.BeginDestroy(m);
      Advance(m.(running := false, client := Destroyed), place, Gone);
    }

    /** The gateway loses mappings by itself. */
    ghost method Forget(lost: set<(int, int)>)
      requires Valid()
      modifies this`m
      ensures Valid() && Next(old(m), Action.Forget(lost), m)
    {
      NextKeeps(m, Action.Forget(lost), m.(table := m.table - lost));
      m := m.(table := m.table - lost);
    }

    // The worker's sections

    method TestRunning(ghost a: Answers)
      requires Valid() && place == AtTop
      modifies this
      ensures Valid() && WorkerMoves(old(m), a, m)
    {
      ghost var w := if m.running then Worker.CloseOld(false) else Worker.Collect;
      WorkerKeeps(m, a, m.(worker := w));
      Advance(m.(worker := w), if service.running then AtCloseOld(false) else AtCollect, caller);
    }

    method Take(ghost a: Answers)
      requires Valid() && place.AtCloseOld?
      modifies this, service, service.created
      ensures Valid() && WorkerMoves(old(m), a, m)
    {
      var q := place.quitting;
      TakeMoves(m, a);
      var p := service.TakeOld(m);
      Advance(Taken(m), if p != null then AtRetiring(p, q) else if q then AtExit else AtScan, caller);
    }

    /** A pulse outside the lock, after which the worker is at `at`. */
    method PulseAt(p: SPort, a: Answers, ghost id: Id, at: Place, ghost w: Worker)
      requires service.Shows(m) && Refers(p, service.created, id) && id < |m.handles|
      requires Points(at, w, service.created) && Calls(caller) == m.client
      requires Inv(Pulse(m, id, a).(worker := w))
      modifies this, p, p.upnp, p.pmp
      ensures Valid() && m == Pulse(old(m), id, a).(worker := w)
    {
      ghost var t := Pulse(m, id, a).(worker := w);
      var _ := service.PulseEntry(p, a, id, m);
      Advance(t, at, caller);
    }

    method LastPulse(a: Answers)
      requires Valid() && place.AtRetiring? && NatPmp.Monotone(a.pmp)
      modifies this, place.p, place.p.upnp, place.p.pmp
      ensures Valid() && WorkerMoves(old(m), a, m)
    {
      var p, q := place.p, place.quitting;
      ghost var id := m.worker.id;
      LastPulseMoves(m, a);
      PulseAt(p, a, id, AtClosing(p, q), Closing(id, q));
    }

    method Close(ghost a: Answers)
      requires Valid() && place.AtClosing?
      modifies this, service`closed
      ensures Valid() && WorkerMoves(old(m), a, m)
    {
      var p, q := place.p, place.quitting;
      ghost var id := m.worker.id;
      CloseMoves(m, a);
      service.Close(p, id, m);
      Advance(m.(closed := m.closed + [id], worker := CloseOld(q)), AtCloseOld(q), caller);
    }

    /** Takes the lock and lists the names; `keys` is what `QMap::keys` returns. */
    method List(keys: seq<string>, ghost a: Answers)
      requires Valid() && place == AtScan && Lists(keys, m.ports)
      modifies this
      ensures Valid() && WorkerMoves(old(m), a, m)
    {
      WorkerKeeps(m, a, m.(worker := Scanning(keys)));
      Advance(m.(worker := Scanning(keys)), AtScanning(keys), caller);
    }

    method Visit(ghost a: Answers)
      requires Valid() && place.AtScanning? && place.names != []
      modifies this, service.created
      ensures Valid() && WorkerMoves(old(m), a, m)
    {
      var name, names := place.names[0], place.names[1..];
      assert place.names == [name] + names;
      VisitMoves(m, name, names, a);
      var p := service.Visit(name, names, m);
      Advance(Visited(m, name, names), if p != null then AtPulsing(p, names) else AtScanning(names), caller);
    }

    /** Gives the lock back after the last name. */
    method EndScan(ghost a: Answers)
      requires Valid() && place == AtScanning([])
      modifies this
      ensures Valid() && WorkerMoves(old(m), a, m)
    {
      WorkerKeeps(m, a, m.(worker := Top));
      Advance(m.(worker := Top), AtTop, caller);
    }

    method PulseDue(a: Answers)
      requires Valid() && place.AtPulsing? && NatPmp.Monotone(a.pmp)
      modifies this, place.p, place.p.upnp, place.p.pmp
      ensures Valid() && WorkerMoves(old(m), a, m)
    {
      var p, names := place.p, place.names;
      ghost var id := m.worker.id;
      PulseMoves(m, a);
      PulseAt(p, a, id, AtScanning(names), Scanning(names));
    }

    method CollectAll(keys: seq<string>, ghost a: Answers)
      requires Valid() && place == AtCollect && Lists(keys, m.ports)
      modifies this, service
      ensures Valid() && WorkerMoves(old(m), a, m)
    {
      CollectMoves(m, keys, a);
      service.RetireAll(keys, m);
      Advance(Collected(m, keys), AtCloseOld(true), caller);
    }
  }

  // The sections' steps are steps of the machine.

  lemma StopMoves(s: State, name: string)
    requires Inv(s) && s.client == Ready && !s.worker.Scanning?
    ensures Next(s, Stop(name), Retire(s, name)) && Inv(Retire(s, name))
  {
    NextKeeps(s, Stop(name), Retire(s, name));
  }

  lemma BeginMoves(s: State, name: string, port: int, proto: int)
    requires Inv(s) && s.client == Ready && !s.worker.Scanning?
    ensures var t := Retire(s, name).(client := Starting(name, port, proto));
      Next(s, StartBegin(name, port, proto), t) && Inv(t)
  {
    NextKeeps(s, StartBegin(name, port, proto), Retire(s, name).(client := Starting(name, port, proto)));
  }

  lemma DestroyMoves(s: State)
    requires Inv(s) && s.client == Ready
    ensures var t := s.(running := false, client := Destroyed); Next(s, Destroy, t) && Inv(t)
  {
    NextKeeps(s, Destroy, s.(running := false, client := Destroyed));
  }

  lemma LastPulseMoves(s: State, a: Answers)
    requires Inv(s) && s.worker.Retiring? && NatPmp.Monotone(a.pmp)
    ensures var t := Pulse(s, s.worker.id, a).(worker := Closing(s.worker.id, s.worker.quitting));
      WorkerMoves(s, a, t) && Inv(t)
  {
    WorkerKeeps(s, a, Pulse(s, s.worker.id, a).(worker := Closing(s.worker.id, s.worker.quitting)));
  }

  lemma PulseMoves(s: State, a: Answers)
    requires Inv(s) && s.worker.Pulsing? && NatPmp.Monotone(a.pmp)
    ensures s.worker.id < |s.handles|
    ensures var t := Pulse(s, s.worker.id, a).(worker := Scanning(s.worker.names)); WorkerMoves(s, a, t) && Inv(t)
  {
    NotYetClosed(s);
    WorkerKeeps(s, a, Pulse(s, s.worker.id, a).(worker := Scanning(s.worker.names)));
  }

  lemma CloseMoves(s: State, a: Answers)
    requires Inv(s) && s.worker.Closing?
    ensures var t := s.(closed := s.closed + [s.worker.id], worker := CloseOld(s.worker.quitting));
      WorkerMoves(s, a, t) && Inv(t)
  {
    WorkerKeeps(s, a, s.(closed := s.closed + [s.worker.id], worker := CloseOld(s.worker.quitting)));
  }
}
