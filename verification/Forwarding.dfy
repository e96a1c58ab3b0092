/**
 The port-forwarding service (`CMiniUPnP`): a worker thread and one client thread that interleave
 at a mutex. Every section that runs under the lock is one atomic step, and so is every stretch of
 work between two such sections. The client makes no calls once destruction has begun.
 */
module Forwarding {
  import opened PortStatus
  import Upnp
  import NatPmp

  type Id = nat

  const UDP := 1
  const TCP := 2

  /** `SPort`. Port and protocol never change once the entry exists. */
  datatype Port = Port(port: int, proto: int, enabled: bool, check: bool, countdown: nat, status: Status,
                       upnp: Upnp.Handle, pmp: NatPmp.Machine)

  function NewPort(port: int, proto: int): Port {
    Port(port, proto, true, false, 0, PortError, Upnp.INITIAL, NatPmp.NEW)
  }

  /** What the gateway and the clock contribute to one call of `DoForwarding`. */
  datatype Answers = Answers(upnp: Upnp.Answers, pmp: NatPmp.Inputs)

  const COUNTDOWN := 60 * 333 / 1000

  /** `DoForwarding`: one pulse of each kind; the better status counts. */
  function Forward(p: Port, a: Answers): Port {
    var u := Upnp.Pulsed(p.upnp, p.port, p.enabled, p.enabled && p.check, a.upnp);
    var n := NatPmp.Pulsed(p.pmp, p.port, p.enabled, a.pmp);
    var us, ns := Upnp.StatusOf(u), NatPmp.StatusOf(n.h);
    var status := if Rank(us) > Rank(ns) then us else ns;
    p.(upnp := u, pmp := n, status := status, check := status == PortMapped,
       countdown := if status == PortError then COUNTDOWN else p.countdown)
  }

  /** Where the worker is. In `Scanning` it holds the lock, everywhere else it does not. */
  datatype Worker =
    | Top                                    // about to test m_Running
    | CloseOld(quitting: bool)               // about to lock and look for a retired entry
    | Retiring(id: Id, quitting: bool)       // entry taken, its last pulse is due
    | Closing(id: Id, quitting: bool)        // last pulse done, handles about to be closed
    | Scan                                   // about to lock and list the names
    | Scanning(names: seq<string>)           // going through the names under the lock
    | Pulsing(id: Id, names: seq<string>)    // unlocked, pulsing one entry
    | Collect                                // about to retire everything on quit
    | Exited

  /** Where the client is: `StartForwarding` has two sections under the lock. */
  datatype Client = Ready | Starting(name: string, port: int, proto: int) | Destroyed

  datatype State = State(
    ports: map<string, Id>, retired: seq<Id>, running: bool, worker: Worker, client: Client,
    handles: seq<Port>,        // every entry ever created, by id
    closed: seq<Id>,           // the entries whose handles have been closed, in order
    table: set<(int, int)>,    // what the gateway holds for us: port and protocol
    blamed: set<(int, int)>)   // history: what it has held and denied, or not deleted when asked

  const INITIAL := State(map[], [], true, Top, Ready, [], [], {}, {})

  datatype Action =
    | Stop(name: string)
    | StartBegin(name: string, port: int, proto: int)
    | StartEnd
    | Destroy
    | WorkerStep(a: Answers)
    | Forget(lost: set<(int, int)>)

  function Retire(s: State, name: string): State {
    if name in s.ports then s.(ports := s.ports - {name}, retired := s.retired + [s.ports[name]]) else s
  }

  /** The second section of `StartForwarding`; a protocol other than the two is refused. */
  function Started(s: State): State
    requires s.client.Starting?
  {
    if s.client.proto != TCP && s.client.proto != UDP then s.(client := Ready)
    else s.(ports := s.ports[s.client.name := |s.handles|], client := Ready,
            handles := s.handles + [NewPort(s.client.port, s.client.proto)])
  }

  /** The ports with the entry's protocol in the gateway's table. */
  function Column(table: set<(int, int)>, proto: int): set<int> {
    set e | e in table && e.1 == proto :: e.0
  }

  /** The table with one protocol's ports replaced. */
  function WithColumn(table: set<(int, int)>, proto: int, ports: set<int>): set<(int, int)> {
    (set e | e in table && e.1 != proto) + (set p | p in ports :: (p, proto))
  }

  function Served(s: State, p: Port, a: Answers): set<int> {
    Upnp.Served(Column(s.table, p.proto), p.upnp, p.port, p.enabled, p.enabled && p.check, a.upnp)
  }

  /** The mappings that the gateway is to blame for in one pulse. */
  function BlamedBy(s: State, p: Port, a: Answers): set<int> {
    Upnp.BlamedBy(Column(s.table, p.proto), p.upnp, p.port, p.enabled, p.enabled && p.check, a.upnp)
  }

  /** `DoForwarding` on an entry, with its effect on the gateway, whatever that answers. */
  function Pulse(s: State, id: Id, a: Answers): State
    requires id < |s.handles|
  {
    var p := s.handles[id];
    s.(handles := s.handles[id := Forward(p, a)], table := WithColumn(s.table, p.proto, Served(s, p, a)),
       blamed := s.blamed + set q | q in BlamedBy(s, p, a) :: (q, p.proto))
  }

  /** The names in the order that `QMap::keys` gives them is irrelevant here. */
  ghost predicate Lists(names: seq<string>, ports: map<string, Id>) {
    (forall n :: n in names <==> n in ports) && forall i, j | 0 <= i < j < |names| :: names[i] != names[j]
  }

  ghost predicate ListsIds(ids: seq<Id>, ports: map<string, Id>) {
    exists names | Lists(names, ports) ::
      |ids| == |names| && forall i | 0 <= i < |names| :: names[i] in ports && ids[i] == ports[names[i]]
  }

  ghost predicate WorkerMoves(s: State, a: Answers, t: State) {
    match s.worker
    case Top => t == s.(worker := if s.running then CloseOld(false) else Collect)
    case CloseOld(quitting) =>
      if s.retired == [] then t == s.(worker := if quitting then Exited else Scan)
      else
        && s.retired[0] < |s.handles|
        && t == s.(retired := s.retired[1..], worker := Retiring(s.retired[0], quitting),
                   handles := s.handles[s.retired[0] := s.handles[s.retired[0]].(enabled := false)])
    case Retiring(id, quitting) =>
      id < |s.handles| && NatPmp.Monotone(a.pmp) && t == Pulse(s, id, a).(worker := Closing(id, quitting))
    case Closing(id, quitting) => t == s.(closed := s.closed + [id], worker := CloseOld(quitting))
    case Scan => t.worker.Scanning? && Lists(t.worker.names, s.ports) && t == s.(worker := t.worker)
    case Scanning(names) =>
      if names == [] then t == s.(worker := Top)
      else
        var rest := names[1..];
        if names[0] !in s.ports then t == s.(worker := Scanning(rest))
        else
          var id := s.ports[names[0]];
          && id < |s.handles|
          && if s.handles[id].countdown != 0 then
               t == s.(handles := s.handles[id := s.handles[id].(countdown := s.handles[id].countdown - 1)],
                       worker := Scanning(rest))
             else t == s.(worker := Pulsing(id, rest))
    case Pulsing(id, names) =>
      id < |s.handles| && NatPmp.Monotone(a.pmp) && t == Pulse(s, id, a).(worker := Scanning(names))
    case Collect =>
      && |t.retired| >= |s.retired| && t.retired[..|s.retired|] == s.retired
      && ListsIds(t.retired[|s.retired|..], s.ports)
      && t == s.(ports := map[], retired := t.retired, worker := CloseOld(true))
    case Exited => false
  }

  /** One step of the system. A client step needs the lock to be free. */
  ghost predicate Next(s: State, act: Action, t: State) {
    match act
    case Stop(name) => s.client == Ready && !s.worker.Scanning? && t == Retire(s, name)
    case StartBegin(name, port, proto) =>
      s.client == Ready && !s.worker.Scanning? && t == Retire(s, name).(client := Starting(name, port, proto))
    case StartEnd =>
      && s.client.Starting? && !s.worker.Scanning?
      && t == Started(s)
    case Destroy => s.client == Ready && t == s.(running := false, client := Destroyed)
    case WorkerStep(a) => WorkerMoves(s, a, t)
    case Forget(lost) => t == s.(table := s.table - lost)
  }

  /** `run[i]` is the state before the action `acts[i]`. */
  ghost predicate IsRun(run: seq<State>, acts: seq<Action>) {
    && |run| == |acts| + 1 && run[0] == INITIAL
    && forall i | 0 <= i < |acts| :: Next(run[i], acts[i], run[i + 1])
  }

  // Ownership

  /** The entry that the worker has taken out to close. */
  function InHand(s: State): seq<Id> {
    match s.worker
    case Retiring(id, _) => [id]
    case Closing(id, _) => [id]
    case _ => []
  }

  predicate Live(s: State, id: Id) {
    exists n | n in s.ports :: s.ports[n] == id
  }

  /** The entries outside the map: retired, in hand or closed. */
  function Removed(s: State): seq<Id> {
    s.closed + InHand(s) + s.retired
  }

  ghost predicate NoRepeats(s: seq<Id>) {
    forall i, j | 0 <= i < j < |s| :: s[i] != s[j]
  }

  /** Each entry is in exactly one place: live under exactly one name, or once among the
      retired, the one in hand and the closed. */
  ghost predicate Owned(s: State) {
    && (forall m, n | m in s.ports && n in s.ports && m != n :: s.ports[m] != s.ports[n])
    && NoRepeats(Removed(s))
    && (forall n | n in s.ports :: s.ports[n] < |s.handles| && s.ports[n] !in Removed(s))
    && (forall id | id in Removed(s) :: id < |s.handles|)
    && (forall id: Id | id < |s.handles| :: Live(s, id) || id in Removed(s))
  }

  /** Every entry's handles are as a pulse leaves them; an entry taken out is disabled, and once
      its last pulse is done its UPnP handle may be closed. */
  ghost predicate Healthy(s: State) {
    && (forall id: Id | id < |s.handles| :: Upnp.Settled(s.handles[id].upnp) && NatPmp.Inv(s.handles[id].pmp))
    && (forall id | id in s.closed :: id < |s.handles| && Upnp.MayClose(s.handles[id].upnp))
    && (s.worker.Retiring? ==> s.worker.id < |s.handles| && !s.handles[s.worker.id].enabled)
    && (s.worker.Closing? ==>
          && s.worker.id < |s.handles| && !s.handles[s.worker.id].enabled
          && Upnp.MayClose(s.handles[s.worker.id].upnp))
  }

  /** What the gateway holds some entry has on record, or the gateway is to blame for. */
  ghost predicate Accounted(s: State) {
    forall e | e in s.table :: OnRecord(s, e) || e in s.blamed
  }

  predicate OnRecord(s: State, e: (int, int)) {
    exists id: Id | id < |s.handles| :: Records(s.handles[id], e)
  }

  predicate Records(p: Port, e: (int, int)) {
    p.upnp.isMapped && p.upnp.port == e.0 && p.proto == e.1
  }

  /** How far shutting down has come. */
  ghost predicate Orderly(s: State) {
    && (s.running <==> s.client != Destroyed)
    && (s.client.Starting? ==> s.client.name !in s.ports)
    && (s.worker == Collect ==> !s.running)
    && (Quitting(s.worker) ==> !s.running && s.ports == map[])
    && (s.worker == Exited ==> s.retired == [])
    && (s.worker.Pulsing? ==> Live(s, s.worker.id) || s.worker.id in s.retired)
  }

  predicate Quitting(w: Worker) {
    match w
    case CloseOld(q) => q
    case Retiring(_, q) => q
    case Closing(_, q) => q
    case Exited => true
    case _ => false
  }

  ghost predicate Inv(s: State) {
    Owned(s) && Healthy(s) && Accounted(s) && Orderly(s)
  }

  /** Moving an entry between the retired, the one in hand and the closed keeps ownership. */
  lemma OwnedSame(s: State, t: State)
    requires Owned(s) && t.ports == s.ports && |t.handles| == |s.handles| && Removed(t) == Removed(s)
    ensures Owned(t)
  {
    forall id: Id | id < |t.handles| ensures Live(t, id) || id in Removed(t) {
      if Live(s, id) {
        var n :| n in s.ports && s.ports[n] == id;
        assert n in t.ports && t.ports[n] == id;
      }
    }
  }

  lemma RetireOwned(s: State, name: string)
    requires Owned(s)
    ensures Owned(Retire(s, name))
  {
    if name in s.ports {
      var t, id := Retire(s, name), s.ports[name];
      assert Removed(t) == Removed(s) + [id];
      forall x: Id | x < |t.handles| ensures Live(t, x) || x in Removed(t) {
        if Live(s, x) && x != id {
          var n :| n in s.ports && s.ports[n] == x;
          assert n in t.ports && t.ports[n] == x;
        }
      }
    }
  }

  /** A new entry is live under its name and nowhere else. */
  lemma CreateOwned(s: State, name: string, p: Port, t: State)
    requires Owned(s) && name !in s.ports
    requires t == s.(ports := s.ports[name := |s.handles|], handles := s.handles + [p], client := Ready)
    ensures Owned(t)
  {
    assert Removed(t) == Removed(s);
    assert t.ports[name] == |s.handles|;
    forall x: Id | x < |t.handles| ensures Live(t, x) || x in Removed(t) {
      if x < |s.handles| && Live(s, x) {
        var n :| n in s.ports && s.ports[n] == x;
        assert n in t.ports && t.ports[n] == x;
      }
    }
  }

  /** The live entries, listed by name, are distinct, open and complete. */
  lemma LiveIds(s: State, ids: seq<Id>)
    requires Owned(s) && ListsIds(ids, s.ports)
    ensures NoRepeats(ids) && forall i | 0 <= i < |ids| :: ids[i] < |s.handles| && ids[i] !in Removed(s)
    ensures forall x: Id | Live(s, x) :: x in ids
  {
    var names :| Lists(names, s.ports) &&
      |ids| == |names| && forall i | 0 <= i < |names| :: names[i] in s.ports && ids[i] == s.ports[names[i]];
    forall x: Id | Live(s, x) ensures x in ids {
      var n :| n in s.ports && s.ports[n] == x;
      assert n in names;
      var i :| 0 <= i < |names| && names[i] == n;
      assert ids[i] == x;
    }
  }

  /** Retiring every live entry on quit. */
  lemma CollectOwned(s: State, t: State, ids: seq<Id>)
    requires Owned(s) && ListsIds(ids, s.ports) && s.worker == Collect
    requires t == s.(ports := map[], retired := s.retired + ids, worker := CloseOld(true))
    ensures Owned(t)
  {
    assert Removed(t) == Removed(s) + ids;
    LiveIds(s, ids);
    NoRepeatsConcat(Removed(s), ids);
  }

  lemma NoRepeatsConcat(a: seq<Id>, b: seq<Id>)
    requires NoRepeats(a) && NoRepeats(b) && forall i | 0 <= i < |b| :: b[i] !in a
    ensures NoRepeats(a + b)
  {
    forall i, j | 0 <= i < j < |a + b| ensures (a + b)[i] != (a + b)[j] {
      if i < |a| { assert (a + b)[i] in a; }
    }
  }

  // Health

  lemma ForwardSettles(p: Port, a: Answers)
    requires Upnp.Settled(p.upnp) && NatPmp.Inv(p.pmp) && NatPmp.Monotone(a.pmp)
    ensures var q := Forward(p, a);
      Upnp.Settled(q.upnp) && NatPmp.Inv(q.pmp) && (!p.enabled ==> Upnp.MayClose(q.upnp))
  {
    Upnp.PulseSettles(p.upnp, p.port, p.enabled, p.enabled && p.check, a.upnp);
    NatPmp.PulseKeeps(p.pmp, p.port, p.enabled, a.pmp);
  }

  // The gateway

  lemma PulseAccounted(s: State, id: Id, a: Answers)
    requires Accounted(s) && id < |s.handles| && Upnp.Settled(s.handles[id].upnp)
    ensures Accounted(Pulse(s, id, a))
  {
    var t, proto := Pulse(s, id, a), s.handles[id].proto;
    forall e | e in t.table ensures OnRecord(t, e) || e in t.blamed {
      if e.1 == proto {
        assert e.0 in Served(s, s.handles[id], a);
        ColumnAccounted(s, id, a, e.0);
        if RecordedElsewhere(s, id, e) {
          ElsewhereStays(s, id, a, e);
        } else if e !in t.blamed {
          assert Records(t.handles[id], e);
        }
      } else {
        assert e in s.table;
        if e !in s.blamed { ElsewhereStays(s, id, a, e); }
      }
    }
  }

  /** What the gateway holds in the entry's column after its pulse, the entry or another has, or
      the gateway is to blame for. */
  lemma ColumnAccounted(s: State, id: Id, a: Answers, port: int)
    requires Accounted(s) && id < |s.handles| && Upnp.Settled(s.handles[id].upnp)
    requires port in Served(s, s.handles[id], a)
    ensures var e := (port, s.handles[id].proto);
      || RecordedElsewhere(s, id, e) || Records(Forward(s.handles[id], a), e)
      || e in s.blamed || port in BlamedBy(s, s.handles[id], a)
  {
    var p := s.handles[id];
    var others := Elsewhere(s, id);
    ColumnRecorded(s, id);
    Upnp.PulseAccounts(Column(s.table, p.proto), others, p.upnp, p.port, p.enabled, p.enabled && p.check, a.upnp);
  }

  /** The ports in the entry's column that are none of its business. */
  ghost function Elsewhere(s: State, id: Id): set<int>
    requires id < |s.handles|
  {
    set e | e in s.table && e.1 == s.handles[id].proto && (RecordedElsewhere(s, id, e) || e in s.blamed) :: e.0
  }

  lemma ColumnRecorded(s: State, id: Id)
    requires Accounted(s) && id < |s.handles|
    ensures Column(s.table, s.handles[id].proto) <= Upnp.Recorded(s.handles[id].upnp) + Elsewhere(s, id)
  {
    var p := s.handles[id];
    forall q | q in Column(s.table, p.proto) ensures q in Upnp.Recorded(p.upnp) + Elsewhere(s, id) {
      var e := (q, p.proto);
      assert e in s.table;
      if e !in s.blamed {
        var k: Id :| k < |s.handles| && Records(s.handles[k], e);
        if k != id { assert RecordedElsewhere(s, id, e); }
      }
    }
  }

  /** A record of another entry, or of another protocol, outlasts the pulse. */
  lemma ElsewhereStays(s: State, id: Id, a: Answers, e: (int, int))
    requires id < |s.handles|
    requires RecordedElsewhere(s, id, e) || (OnRecord(s, e) && e.1 != s.handles[id].proto)
    ensures OnRecord(Pulse(s, id, a), e)
  {
    var k: Id :| k < |s.handles| && k != id && Records(s.handles[k], e);
    assert Records(Pulse(s, id, a).handles[k], e);
  }

  predicate RecordedElsewhere(s: State, id: Id, e: (int, int)) {
    exists k: Id | k < |s.handles| && k != id :: Records(s.handles[k], e)
  }

  /** Steps that change no UPnP handle and add nothing to the table. */
  lemma AccountedSame(s: State, t: State)
    requires Accounted(s) && t.table <= s.table && t.blamed == s.blamed && |s.handles| <= |t.handles|
    requires forall id: Id | id < |s.handles| ::
               t.handles[id].upnp == s.handles[id].upnp && t.handles[id].proto == s.handles[id].proto
    ensures Accounted(t)
  {
    forall e | e in t.table ensures OnRecord(t, e) || e in t.blamed {
      if e !in s.blamed {
        var k: Id :| k < |s.handles| && Records(s.handles[k], e);
        assert Records(t.handles[k], e);
      }
    }
  }

  lemma LiveStays(s: State, t: State, id: Id)
    requires t.ports == s.ports && Live(s, id)
    ensures Live(t, id)
  {
    var n :| n in s.ports && s.ports[n] == id;
    assert t.ports[n] == id;
  }

  lemma RetireKeeps(s: State, name: string, client: Client)
    requires Inv(s) && s.client == Ready && client != Destroyed
    requires client.Starting? ==> client.name == name
    ensures Inv(Retire(s, name).(client := client))
  {
    var r := Retire(s, name);
    var t := r.(client := client);
    RetireOwned(s, name);
    assert Removed(t) == Removed(r);
    OwnedSame(r, t);
    AccountedSame(s, t);
    if s.worker.Pulsing? && Live(s, s.worker.id) {
      var n :| n in s.ports && s.ports[n] == s.worker.id;
      assert n == name || (n in t.ports && t.ports[n] == s.worker.id);
    }
  }

  lemma CreateKeeps(s: State, t: State)
    requires Inv(s) && s.client.Starting? && (s.client.proto == TCP || s.client.proto == UDP)
    requires t == s.(ports := s.ports[s.client.name := |s.handles|], client := Ready,
                     handles := s.handles + [NewPort(s.client.port, s.client.proto)])
    ensures Inv(t)
  {
    CreateOwned(s, s.client.name, NewPort(s.client.port, s.client.proto), t);
    AccountedSame(s, t);
    if s.worker.Pulsing? && Live(s, s.worker.id) {
      var n :| n in s.ports && s.ports[n] == s.worker.id;
      assert n in t.ports && t.ports[n] == s.worker.id;
    }
  }

  /** A worker step that only moves the worker on. */
  lemma MoveKeeps(s: State, w: Worker)
    requires Inv(s) && InHand(s.(worker := w)) == InHand(s) && !w.Retiring? && !w.Closing?
    requires w == Collect ==> !s.running
    requires Quitting(w) ==> Quitting(s.worker) && (w == Exited ==> s.retired == [])
    requires w.Pulsing? ==> Live(s, w.id)
    ensures Inv(s.(worker := w))
  {
    var t := s.(worker := w);
    assert Removed(t) == Removed(s);
    OwnedSame(s, t);
    AccountedSame(s, t);
    if w.Pulsing? { LiveStays(s, t, w.id); }
  }

  lemma TakeKeeps(s: State, quitting: bool, t: State)
    requires Inv(s) && s.worker == CloseOld(quitting) && s.retired != [] && s.retired[0] < |s.handles|
    requires t == s.(retired := s.retired[1..], worker := Retiring(s.retired[0], quitting),
                     handles := s.handles[s.retired[0] := s.handles[s.retired[0]].(enabled := false)])
    ensures Inv(t)
  {
    assert Removed(t) == Removed(s) by {
      assert s.retired == [s.retired[0]] + s.retired[1..];
      assert s.closed + [s.retired[0]] + s.retired[1..] == s.closed + [] + s.retired;
    }
    OwnedSame(s, t);
    AccountedSame(s, t);
  }

  lemma PulseKeeps(s: State, id: Id, a: Answers, w: Worker)
    requires Inv(s) && id < |s.handles| && NatPmp.Monotone(a.pmp) && id !in s.closed
    requires (s.worker.Retiring? && s.worker.id == id && w == Closing(id, s.worker.quitting))
             || (s.worker.Pulsing? && s.worker.id == id && w == Scanning(s.worker.names))
    ensures Inv(Pulse(s, id, a).(worker := w))
  {
    var p := Pulse(s, id, a);
    var t := p.(worker := w);
    assert Removed(t) == Removed(s);
    OwnedSame(s, t);
    ForwardSettles(s.handles[id], a);
    PulseAccounted(s, id, a);
    AccountedSame(p, t);
  }

  lemma CloseKeeps(s: State, t: State)
    requires Inv(s) && s.worker.Closing?
    requires t == s.(closed := s.closed + [s.worker.id], worker := CloseOld(s.worker.quitting))
    ensures Inv(t)
  {
    assert Removed(t) == Removed(s);
    OwnedSame(s, t);
    AccountedSame(s, t);
  }

  lemma CountdownKeeps(s: State, id: Id, p: Port, names: seq<string>)
    requires Inv(s) && s.worker.Scanning? && id < |s.handles|
    requires p.upnp == s.handles[id].upnp && p.pmp == s.handles[id].pmp && p.proto == s.handles[id].proto
    ensures Inv(s.(handles := s.handles[id := p], worker := Scanning(names)))
  {
    var t := s.(handles := s.handles[id := p], worker := Scanning(names));
    assert Removed(t) == Removed(s);
    OwnedSame(s, t);
    AccountedSame(s, t);
  }

  lemma CollectKeeps(s: State, a: Answers, t: State)
    requires Inv(s) && s.worker == Collect && WorkerMoves(s, a, t)
    ensures Inv(t)
  {
    var ids := t.retired[|s.retired|..];
    assert t.retired == s.retired + ids;
    CollectOwned(s, t, ids);
    AccountedSame(s, t);
  }

  /** Entries that the worker is working on are never closed ones. */
  lemma NotYetClosed(s: State)
    requires Inv(s) && (s.worker.Pulsing? || s.worker.Retiring? || s.worker.Closing?)
    ensures s.worker.id < |s.handles| && s.worker.id !in s.closed
  {
    var id := s.worker.id;
    var r := Removed(s);
    assert forall j | 0 <= j < |s.closed| :: r[j] == s.closed[j];
    if s.worker.Pulsing? && Live(s, id) {
      assert id !in r;
    } else {
      var k := if s.worker.Pulsing? then IndexIn(s.retired, id) else 0;
      assert r[|s.closed| + k] == id;
      assert id in r;
      forall j | 0 <= j < |s.closed| ensures s.closed[j] != id {
        assert r[j] != r[|s.closed| + k];
      }
    }
  }

  function IndexIn(ids: seq<Id>, id: Id): (k: nat)
    requires id in ids
    ensures k < |ids| && ids[k] == id
  {
    if ids[0] == id then 0 else 1 + IndexIn(ids[1..], id)
  }

  lemma ScanningKeeps(s: State, a: Answers, t: State)
    requires Inv(s) && s.worker.Scanning? && WorkerMoves(s, a, t)
    ensures Inv(t)
  {
    var names := s.worker.names;
    if names == [] || names[0] !in s.ports {
      MoveKeeps(s, t.worker);
    } else {
      var id := s.ports[names[0]];
      if s.handles[id].countdown != 0 {
        CountdownKeeps(s, id, t.handles[id], names[1..]);
      } else {
        assert Live(s, id);
        MoveKeeps(s, t.worker);
      }
    }
  }

  lemma WorkerKeeps(s: State, a: Answers, t: State)
    requires Inv(s) && WorkerMoves(s, a, t)
    ensures Inv(t)
  {
    match s.worker
    case Top => MoveKeeps(s, t.worker);
    case CloseOld(quitting) =>
      if s.retired == [] { MoveKeeps(s, t.worker); } else { TakeKeeps(s, quitting, t); }
    case Retiring(id, quitting) =>
      NotYetClosed(s);
      PulseKeeps(s, id, a, t.worker);
    case Closing(_, _) => CloseKeeps(s, t);
    case Scan => MoveKeeps(s, t.worker);
    case Scanning(_) => ScanningKeeps(s, a, t);
    case Pulsing(id, names) =>
      NotYetClosed(s);
      PulseKeeps(s, id, a, t.worker);
    case Collect => CollectKeeps(s, a, t);
    case Exited =>
  }

  /** Every step keeps the invariant. */
  lemma NextKeeps(s: State, act: Action, t: State)
    requires Inv(s) && Next(s, act, t)
    ensures Inv(t)
  {
    match act
    case Stop(name) => RetireKeeps(s, name, Ready);
    case StartBegin(name, port, proto) => RetireKeeps(s, name, t.client);
    case StartEnd =>
      if s.client.proto != TCP && s.client.proto != UDP {
        PlainKeeps(s, t);
      } else {
        CreateKeeps(s, t);
      }
    case Destroy => PlainKeeps(s, t);
    case WorkerStep(a) => WorkerKeeps(s, a, t);
    case Forget(_) => PlainKeeps(s, t);
  }

  /** Steps that touch neither entries nor ownership. */
  lemma PlainKeeps(s: State, t: State)
    requires Inv(s) && t.table <= s.table
    requires t == s.(client := t.client, running := t.running, table := t.table)
    requires (t.running <==> t.client != Destroyed) && (t.running ==> s.running)
    requires t.client.Starting? ==> t.client == s.client
    ensures Inv(t)
  {
    assert Removed(t) == Removed(s);
    OwnedSame(s, t);
    AccountedSame(s, t);
    if s.worker.Pulsing? && Live(s, s.worker.id) { LiveStays(s, t, s.worker.id); }
  }

  lemma {:induction false} RunInv(run: seq<State>, acts: seq<Action>, i: nat)
    requires IsRun(run, acts) && i < |run|
    ensures Inv(run[i])
  {
    if i > 0 {
      RunInv(run, acts, i - 1);
      assert Next(run[i - 1], acts[i - 1], run[i - 1 + 1]);
      NextKeeps(run[i - 1], acts[i - 1], run[i]);
    }
  }

  /** Over every interleaving, in every state: each entry ever created is in exactly one of
      live, retired, in hand and closed. */
  lemma ExactlyOnePlace(run: seq<State>, acts: seq<Action>, i: nat)
    requires IsRun(run, acts) && i < |run|
    ensures Owned(run[i]) && Healthy(run[i])
  {
    RunInv(run, acts, i);
  }

  /** No entry is pulsed after it has been closed, and whenever one is closed both assertions
      of `upnpClose` hold and it had not been closed before. */
  lemma PulseAndClose(run: seq<State>, acts: seq<Action>, i: nat)
    requires IsRun(run, acts) && i < |run|
    ensures var s := run[i];
      && (s.worker.Pulsing? || s.worker.Retiring? ==> s.worker.id < |s.handles| && s.worker.id !in s.closed)
      && (s.worker.Closing? ==>
            && s.worker.id < |s.handles| && s.worker.id !in s.closed
            && !s.handles[s.worker.id].enabled && Upnp.MayClose(s.handles[s.worker.id].upnp))
  {
    RunInv(run, acts, i);
    if run[i].worker.Pulsing? || run[i].worker.Retiring? || run[i].worker.Closing? {
      NotYetClosed(run[i]);
    }
  }

  /** The assertion in `StartForwarding` that the name is not taken holds at every creation. */
  lemma NameIsFree(run: seq<State>, acts: seq<Action>, i: nat)
    requires IsRun(run, acts) && i < |acts| && acts[i] == StartEnd
    ensures run[i].client.Starting? && run[i].client.name !in run[i].ports
  {
    RunInv(run, acts, i);
    assert Next(run[i], acts[i], run[i + 1]);
  }

  /** When the worker has exited, every entry ever created has been closed exactly once, and all
      that the gateway may still hold of ours it has denied, or not deleted when asked to. */
  lemma CleanExit(run: seq<State>, acts: seq<Action>, i: nat)
    requires IsRun(run, acts) && i < |run| && run[i].worker == Exited
    ensures var s := run[i];
      && s.ports == map[] && s.retired == []
      && NoRepeats(s.closed) && (forall id: Id :: id in s.closed <==> id < |s.handles|)
      && s.table <= s.blamed
  {
    RunInv(run, acts, i);
    var s := run[i];
    assert Removed(s) == s.closed;
    forall id: Id ensures id in s.closed <==> id < |s.handles| {
      assert !Live(s, id);
    }
    forall e ensures !OnRecord(s, e) {
      forall id: Id | id < |s.handles| ensures !Records(s.handles[id], e) {
        assert id in s.closed;
      }
    }
  }

  /** The gateway answers the UPnP requests of the pulse honestly, if the step is one. */
  predicate HonestStep(s: State, act: Action) {
    act.WorkerStep? && (s.worker.Retiring? || s.worker.Pulsing?) && s.worker.id < |s.handles| ==>
      BlamedBy(s, s.handles[s.worker.id], act.a) == {}
  }

  ghost predicate HonestRun(run: seq<State>, acts: seq<Action>) {
    IsRun(run, acts) && forall i | 0 <= i < |acts| :: HonestStep(run[i], acts[i])
  }

  lemma {:induction false} HonestIsBlameless(run: seq<State>, acts: seq<Action>, i: nat)
    requires HonestRun(run, acts) && i < |run|
    ensures run[i].blamed == {}
  {
    if i > 0 {
      HonestIsBlameless(run, acts, i - 1);
      assert Next(run[i - 1], acts[i - 1], run[i - 1 + 1]) && HonestStep(run[i - 1], acts[i - 1]);
      BlamelessStep(run[i - 1], acts[i - 1], run[i]);
    }
  }

  lemma BlamelessStep(s: State, act: Action, t: State)
    requires Next(s, act, t) && HonestStep(s, act)
    ensures t.blamed == s.blamed
  {
  }

  /** With an honest gateway, in every state: it holds nothing that no entry has on record; and
      when the worker has exited it holds no UPnP mapping of ours. */
  lemma HonestGateway(run: seq<State>, acts: seq<Action>, i: nat)
    requires HonestRun(run, acts) && i < |run|
    ensures forall e | e in run[i].table :: OnRecord(run[i], e)
    ensures run[i].worker == Exited ==> run[i].table == {}
  {
    RunInv(run, acts, i);
    HonestIsBlameless(run, acts, i);
    if run[i].worker == Exited {
      CleanExit(run, acts, i);
    }
  }
}
