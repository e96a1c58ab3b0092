/**
 The objects of the port-forwarding service: `SPort` entries with their two handles, and the
 `CMiniUPnP` object that keeps them by name. Each method is one section of the code that runs
 between two scheduling points, and is proved to do to the object what the state machine of
 `Forwarding` does to its entries; `Threads` adds where the two threads are.
 */
module Service {
  import opened PortStatus
  import opened Search
  import opened Forwarding
  import Upnp
  import NatPmp

  /** An entry; nothing but its own pulse and the fields below ever changes. */
  class SPort {
    const port: int
    const proto: int
    var enabled: bool
    var check: bool
    var countdown: nat
    var status: Status
    const upnp: Upnp.CUpnp
    const pmp: NatPmp.CNatPmp

    ghost function Abs(): Port
      reads this, upnp, pmp
    {
      Port(port, proto, enabled, check, countdown, status, upnp.Abs(), pmp.Abs())
    }

    constructor (port: int, proto: int)
      ensures Abs() == NewPort(port, proto) && fresh(upnp) && fresh(pmp)
    {
      this.port, this.proto := port, proto;
      enabled, check, countdown, status := true, false, 0, PortError;
      upnp := new Upnp.CUpnp();
      pmp := new NatPmp.CNatPmp();
    }

    /** One pulse of each handle, outside the lock. */
    method DoForwarding(a: Answers) returns (sent: Upnp.Requests)
      modifies this, upnp, pmp
      ensures Abs() == Forward(old(Abs()), a)
      ensures sent == Upnp.Sent(old(Abs()).upnp, port, old(enabled), old(enabled && check), a.upnp)
    {
      var upnpStatus;
      upnpStatus, sent := upnp.Pulse(port, enabled, enabled && check, a.upnp);
      var pmpStatus := pmp.Pulse(port, enabled, a.pmp);
      status := if Rank(upnpStatus) > Rank(pmpStatus) then upnpStatus else pmpStatus;
      check := status == PortMapped;
      if status == PortError {
        countdown := COUNTDOWN;
      }
    }
  }

  /** The protocol that a text names in either case, or 0. */
  function Protocol(text: string): int {
    if Spells(text, "TCP") then TCP else if Spells(text, "UDP") then UDP else 0
  }

  predicate Spells(text: string, name: string) {
    |text| == |name| && forall i | 0 <= i < |name| :: SameChar(text[i], name[i])
  }

  /** No two entries share anything. */
  ghost predicate Apart(created: seq<SPort>) {
    forall i, j | 0 <= i < j < |created| ::
      created[i] != created[j] && created[i].upnp != created[j].upnp && created[i].pmp != created[j].pmp
  }

  ghost predicate Hold(created: seq<SPort>, handles: seq<Port>)
    reads created, set p | p in created :: p.upnp, set p | p in created :: p.pmp
  {
    |created| == |handles| && forall i | 0 <= i < |created| :: created[i].Abs() == handles[i]
  }

  ghost predicate Named(ports: map<string, SPort>, created: seq<SPort>, ids: map<string, Id>) {
    && ports.Keys == ids.Keys
    && forall n | n in ports :: ids[n] < |created| && ports[n] == created[ids[n]]
  }

  ghost predicate Refer(entries: seq<SPort>, created: seq<SPort>, ids: seq<Id>) {
    && |entries| == |ids|
    && forall i | 0 <= i < |entries| :: ids[i] < |created| && entries[i] == created[ids[i]]
  }

  lemma ReferMore(entries: seq<SPort>, created: seq<SPort>, ids: seq<Id>, entry: SPort)
    requires Refer(entries, created, ids)
    ensures Refer(entries, created + [entry], ids)
  {
  }

  lemma NamedMore(ports: map<string, SPort>, created: seq<SPort>, ids: map<string, Id>, name: string, entry: SPort)
    requires Named(ports, created, ids)
    ensures Named(ports[name := entry], created + [entry], ids[name := |created|])
  {
  }

  lemma HoldMore(created: seq<SPort>, handles: seq<Port>, entry: SPort)
    requires Apart(created) && Hold(created, handles)
    requires forall p | p in created :: p != entry && p.upnp != entry.upnp && p.pmp != entry.pmp
    ensures Apart(created + [entry]) && Hold(created + [entry], handles + [entry.Abs()])
  {
    forall i | 0 <= i < |created| ensures created[i] in created {
    }
  }

  /** The names drained into the list of retired entries refer to the entries they named. */
  lemma DrainedRefer(was: seq<SPort>, now: seq<SPort>, ports: map<string, SPort>, created: seq<SPort>,
                     s: State, names: seq<string>)
    requires Refer(was, created, s.retired) && Named(ports, created, s.ports)
    requires (forall n | n in names :: n in s.ports) && |now| == |was| + |names|
    requires forall k | 0 <= k < |was| :: now[k] == was[k]
    requires forall k | 0 <= k < |names| :: names[k] in ports && now[|was| + k] == ports[names[k]]
    ensures Refer(now, created, Collected(s, names).retired)
  {
    var ids := Collected(s, names).retired;
    forall i | 0 <= i < |now| ensures ids[i] < |created| && now[i] == created[ids[i]] {
      if i >= |was| {
        assert now[|was| + (i - |was|)] == ports[names[i - |was|]];
      }
    }
  }

  class CMiniUPnP {
    var ports: map<string, SPort>
    var oldPorts: seq<SPort>
    var running: bool
    ghost var created: seq<SPort>  // every entry there ever was
    ghost var closed: seq<SPort>   // the entries whose handles have been closed, in order

    /** The object is in the given state: ids number the entries in the order of creation. */
    ghost predicate Shows(s: State)
      reads this, created, set p | p in created :: p.upnp, set p | p in created :: p.pmp
    {
      && Apart(created) && Hold(created, s.handles) && running == s.running
      && Named(ports, created, s.ports) && Refer(oldPorts, created, s.retired) && Refer(closed, created, s.closed)
    }

    constructor ()
      ensures Shows(INITIAL)
    {
      ports, oldPorts, running, created, closed := map[], [], true, [], [];
    }

    /** Also the first section of `StartForwarding`. */
    method StopForwarding(name: string, ghost s: State)
      requires Shows(s)
      modifies this
      ensures created == old(created) && Shows(Retire(s, name))
    {
      if name in ports {
        oldPorts := oldPorts + [ports[name]];
        ports := ports - {name};
      }
    }

    /** The second section of `StartForwarding`. The name must be free, or an entry is lost. */
    method FinishStart(name: string, port: int, protoText: string, ghost s: State) returns (ok: bool)
      requires Shows(s) && s.client == Starting(name, port, Protocol(protoText))
      requires name !in s.ports
      modifies this
      ensures Shows(Started(s)) && ok == (Protocol(protoText) != 0)
      ensures |old(created)| <= |created| && created[..|old(created)|] == old(created)
      ensures forall i | |old(created)| <= i < |created| ::
                fresh(created[i]) && fresh(created[i].upnp) && fresh(created[i].pmp)
    {
      var proto := Protocol(protoText);
      if proto == 0 {
        return false;
      }
      var entry := new SPort(port, proto);
      Add(name, entry, s);
      return true;
    }

    method Add(name: string, entry: SPort, ghost s: State)
      requires Shows(s) && s.client.Starting? && s.client.name == name && name !in s.ports
      requires forall p | p in created :: p != entry && p.upnp != entry.upnp && p.pmp != entry.pmp
      requires entry.Abs() == NewPort(s.client.port, s.client.proto)
      modifies this
      ensures Shows(s.(ports := s.ports[name := |s.handles|], client := Ready, handles := s.handles + [entry.Abs()]))
      ensures created == old(created) + [entry]
    {
      ReferMore(oldPorts, created, s.retired, entry);
      ReferMore(closed, created, s.closed, entry);
      NamedMore(ports, created, s.ports, name, entry);
      HoldMore(created, s.handles, entry);
      ports := ports[name := entry];
      created := created + [entry];
    }

    /** The destructor, up to the point where it waits for the worker. */
    method BeginDestroy(ghost s: State)
      requires Shows(s)
      modifies this
      ensures created == old(created) && Shows(s.(running := false, client := Destroyed))
    {
      running := false;
    }

    /** `closeOld` under the lock: the oldest retired entry is taken and disabled. */
    method TakeOld(ghost s: State) returns (p: SPort?)
      requires Shows(s) && s.worker.CloseOld?
      modifies this, created
      ensures created == old(created) && Shows(Taken(s))
      ensures p == null <==> s.retired == []
      ensures p != null ==> s.retired[0] < |created| && p == created[s.retired[0]]
    {
      if oldPorts == [] {
        return null;
      }
      p := oldPorts[0];
      Disable(p, s.retired[0], s);
      oldPorts := oldPorts[1..];
    }

    method Disable(p: SPort, ghost id: Id, ghost s: State)
      requires Shows(s) && id < |created| && p == created[id]
      modifies p
      ensures Shows(s.(handles := s.handles[id := s.handles[id].(enabled := false)]))
    {
      p.enabled := false;
    }

    /** `DoForwarding` on an entry, wherever the entry is. The gateway's table changes by the
        requests that are sent. */
    method PulseEntry(p: SPort, a: Answers, ghost id: Id, ghost s: State) returns (sent: Upnp.Requests)
      requires Shows(s) && id < |created| && p == created[id]
      modifies p, p.upnp, p.pmp
      ensures Shows(Pulse(s, id, a))
      ensures Pulse(s, id, a).table ==
              WithColumn(s.table, p.proto, Upnp.Serve(Column(s.table, p.proto), sent, a.upnp))
    {
      assert p.Abs() == s.handles[id];
      sent := p.DoForwarding(a);
    }

    /** `upnpClose` and `natpmpClose`, with the assertions of the former. */
    method Close(p: SPort, ghost id: Id, ghost s: State)
      requires Shows(s) && id < |created| && p == created[id] && Upnp.MayClose(s.handles[id].upnp)
      modifies this`closed
      ensures Shows(s.(closed := s.closed + [id]))
    {
      assert p.Abs() == s.handles[id];
      assert !p.upnp.isMapped;
      assert p.upnp.state == Upnp.Idle || p.upnp.state == Upnp.Err || p.upnp.state == Upnp.Discover;
      closed := closed + [p];
    }

    /** One round of the loop in `run`, under the lock: the entry to pulse, if it is due. */
    method Visit(name: string, ghost names: seq<string>, ghost s: State) returns (p: SPort?)
      requires Shows(s)
      modifies created
      ensures Shows(Visited(s, name, names))
      ensures p != null ==> name in s.ports && s.ports[name] < |created| && p == created[s.ports[name]]
      ensures p != null <==> Visited(s, name, names).worker.Pulsing?
    {
      if name !in ports {
        return null;
      }
      p := ports[name];
      var due := Due(p, s.ports[name], s);
      if !due {
        p := null;
      }
    }

    /** Whether the entry is to be pulsed; if not, its countdown goes on. */
    method Due(p: SPort, ghost id: Id, ghost s: State) returns (due: bool)
      requires Shows(s) && id < |created| && p == created[id]
      modifies p
      ensures id < |s.handles| && due == (s.handles[id].countdown == 0) && Shows(Waited(s, id))
    {
      assert p.Abs() == s.handles[id];
      due := p.countdown == 0;
      if !due {
        CountDown(p, id, s);
      }
    }

    method CountDown(p: SPort, ghost id: Id, ghost s: State)
      requires Shows(s) && id < |created| && p == created[id] && p.countdown > 0
      modifies p
      ensures Shows(Waited(s, id))
    {
      p.countdown := p.countdown - 1;
    }

    /** The end of `run`: every entry still in the map is retired, in the order of the names. */
    method RetireAll(names: seq<string>, ghost s: State)
      requires Shows(s) && Lists(names, s.ports)
      modifies this
      ensures created == old(created) && Shows(Collected(s, names))
    {
      ghost var was, named := oldPorts, ports;
      Drain(names);
      DrainedRefer(was, oldPorts, named, created, s, names);
    }

    method Drain(names: seq<string>)
      requires forall n :: n in names <==> n in ports
      requires forall i, j | 0 <= i < j < |names| :: names[i] != names[j]
      modifies this
      ensures ports == map[] && running == old(running) && created == old(created) && closed == old(closed)
      ensures |oldPorts| == |old(oldPorts)| + |names|
      ensures forall k | 0 <= k < |old(oldPorts)| :: oldPorts[k] == old(oldPorts)[k]
      ensures forall k | 0 <= k < |names| :: oldPorts[|old(oldPorts)| + k] == old(ports)[names[k]]
    {
      var i := 0;
      while i < |names|
        invariant 0 <= i <= |names| && running == old(running) && created == old(created) && closed == old(closed)
        invariant forall k | 0 <= k < |names| :: names[k] in ports <==> i <= k
        invariant forall n | n in ports :: n in old(ports) && ports[n] == old(ports)[n]
        invariant |oldPorts| == |old(oldPorts)| + i
        invariant forall k | 0 <= k < |old(oldPorts)| :: oldPorts[k] == old(oldPorts)[k]
        invariant forall k | 0 <= k < i :: oldPorts[|old(oldPorts)| + k] == old(ports)[names[k]]
      {
        oldPorts := oldPorts + [ports[names[i]]];
        ports := ports - {names[i]};
        i := i + 1;
      }
    }
  }

  /** The step that `TakeOld` takes on the state. */
  function Taken(s: State): State
    requires s.worker.CloseOld?
  {
    if s.retired == [] then s.(worker := if s.worker.quitting then Exited else Scan)
    else
      var id := s.retired[0];
      s.(retired := s.retired[1..], worker := Retiring(id, s.worker.quitting),
         handles := if id < |s.handles| then s.handles[id := s.handles[id].(enabled := false)] else s.handles)
  }

  function Waited(s: State, id: Id): State {
    if id < |s.handles| && s.handles[id].countdown > 0 then
      s.(handles := s.handles[id := s.handles[id].(countdown := s.handles[id].countdown - 1)])
    else s
  }

  /** The step that `Visit` takes on the state. */
  function Visited(s: State, name: string, names: seq<string>): State {
    if name in s.ports && s.ports[name] < |s.handles| then
      var id := s.ports[name];
      Waited(s, id).(worker := if s.handles[id].countdown == 0 then Pulsing(id, names) else Scanning(names))
    else s.(worker := Scanning(names))
  }

  /** The step that `RetireAll` takes on the state. */
  function Collected(s: State, names: seq<string>): State
    requires forall n | n in names :: n in s.ports
  {
    s.(ports := map[], worker := CloseOld(true),
       retired := s.retired + seq(|names|, i requires 0 <= i < |names| => s.ports[names[i]]))
  }

  /** The steps of the object's sections are worker steps, so they keep the invariant of every
      run; that invariant provides what `FinishStart` asks for. */
  lemma TakeMoves(s: State, a: Answers)
    requires Inv(s) && s.worker.CloseOld?
    ensures WorkerMoves(s, a, Taken(s)) && Inv(Taken(s))
  {
    if s.retired != [] {
      assert s.retired[0] in Removed(s);
    }
    WorkerKeeps(s, a, Taken(s));
  }

  lemma VisitMoves(s: State, name: string, names: seq<string>, a: Answers)
    requires Inv(s) && s.worker == Scanning([name] + names)
    ensures WorkerMoves(s, a, Visited(s, name, names)) && Inv(Visited(s, name, names))
  {
    assert ([name] + names)[1..] == names;
    WorkerKeeps(s, a, Visited(s, name, names));
  }

  lemma CollectMoves(s: State, names: seq<string>, a: Answers)
    requires Inv(s) && s.worker == Collect && Lists(names, s.ports)
    ensures WorkerMoves(s, a, Collected(s, names)) && Inv(Collected(s, names))
  {
    var t := Collected(s, names);
    assert t.retired[..|s.retired|] == s.retired;
    var ids := t.retired[|s.retired|..];
    assert forall i | 0 <= i < |names| :: names[i] in s.ports && ids[i] == s.ports[names[i]];
    WorkerKeeps(s, a, t);
  }

  lemma StartMoves(s: State)
    requires Inv(s) && s.client.Starting? && !s.worker.Scanning?
    ensures s.client.name !in s.ports && Next(s, StartEnd, Started(s)) && Inv(Started(s))
  {
    NextKeeps(s, StartEnd, Started(s));
  }
}
