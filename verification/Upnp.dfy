/**
 The UPnP port-mapping handle (`upnp-impl.cpp`). Each pulse runs a small state machine against
 a gateway whose answers are arbitrary inputs; `table` is what the gateway really holds.
 */
module Upnp {
  import opened Options
  import opened PortStatus

  datatype Phase = Idle | Err | Discover | Map | Unmap

  datatype Handle = Handle(hasDiscovered: bool, port: int, isMapped: bool, state: Phase)

  const INITIAL := Handle(false, -1, false, Discover)

  /** What the gateway answers during one pulse: a connected gateway was found, the specific
      mapping exists, the deletion took effect, a control URL is known, the new mapping was
      accepted. The handle never looks at the result of a deletion. */
  datatype Answers = Answers(connected: bool, present: bool, removed: bool, hasUrl: bool, accepted: bool)

  /** The requests of one pulse that concern a mapping, in the order they are made: the ports
      queried, deleted and added. */
  datatype Requests = Requests(query: Option<int>, delete: Option<int>, add: Option<int>)

  function Discovered(h: Handle, enabled: bool, a: Answers): Handle {
    if enabled && h.state == Discover then
      if a.connected then h.(state := Idle, hasDiscovered := true) else h.(state := Err)
    else h
  }

  /** Whether the pulse wants to drop the current mapping. */
  function Obsolete(h: Handle, port: int, enabled: bool): Handle {
    if h.state == Idle && h.isMapped && (!enabled || h.port != port) then h.(state := Unmap) else h
  }

  predicate Queries(h: Handle, enabled: bool, check: bool) {
    enabled && h.isMapped && check
  }

  function Checked(h: Handle, enabled: bool, check: bool, a: Answers): Handle {
    if Queries(h, enabled, check) && !a.present then h.(isMapped := false) else h
  }

  function Unmapped(h: Handle): Handle {
    if h.state == Unmap then h.(isMapped := false, state := Idle, port := -1) else h
  }

  /** Whether the pulse tries to map. */
  predicate Wants(h: Handle, enabled: bool) {
    h.state == Map || (h.state == Idle && enabled && !h.isMapped)
  }

  predicate Adds(h: Handle, enabled: bool, a: Answers) {
    Wants(h, enabled) && a.hasUrl
  }

  function Mapped(h: Handle, port: int, enabled: bool, a: Answers): Handle {
    if Wants(h, enabled) then
      if a.hasUrl && a.accepted then h.(isMapped := true, port := port, state := Idle)
      else h.(isMapped := false, port := -1, state := Err)
    else h
  }

  /** The handle when the port check is due. */
  function AtCheck(h: Handle, port: int, enabled: bool, a: Answers): Handle {
    Obsolete(Discovered(h, enabled, a), port, enabled)
  }

  /** One pulse on a handle. */
  function Pulsed(h: Handle, port: int, enabled: bool, check: bool, a: Answers): Handle {
    Mapped(Unmapped(Checked(AtCheck(h, port, enabled, a), enabled, check, a)), port, enabled, a)
  }

  function Sent(h: Handle, port: int, enabled: bool, check: bool, a: Answers): Requests {
    var h1 := AtCheck(h, port, enabled, a);
    var h2 := Checked(h1, enabled, check, a);
    Requests(if Queries(h1, enabled, check) then Some(h1.port) else None,
             if h2.state == Unmap then Some(h2.port) else None,
             if Adds(Unmapped(h2), enabled, a) then Some(port) else None)
  }

  function StatusOf(h: Handle): Status {
    match h.state
    case Discover => PortUnmapped
    case Map => PortMapping
    case Unmap => PortUnmapping
    case Idle => if h.isMapped then PortMapped else PortUnmapped
    case Err => PortError
  }

  /** `struct upnp`, updated in place by every pulse. */
  class CUpnp {
    var hasDiscovered: bool
    var port: int
    var isMapped: bool
    var state: Phase

    ghost function Abs(): Handle
      reads this
    {
      Handle(hasDiscovered, port, isMapped, state)
    }

    constructor ()
      ensures Abs() == INITIAL
    {
      hasDiscovered, port, isMapped, state := false, -1, false, Discover;
    }

    /** The first half of a pulse: discover, check, and drop an obsolete mapping. */
    method Review(p: int, enabled: bool, check: bool, a: Answers) returns (query: Option<int>, delete: Option<int>)
      modifies this
      ensures var h := Checked(AtCheck(old(Abs()), p, enabled, a), enabled, check, a);
        && Abs() == Unmapped(h)
        && query == (if Queries(AtCheck(old(Abs()), p, enabled, a), enabled, check) then Some(h.port) else None)
        && delete == (if h.state == Unmap then Some(h.port) else None)
    {
      query, delete := None, None;
      if enabled && state == Discover {
        if a.connected {
          state := Idle;
          hasDiscovered := true;
        } else {
          state := Err;
        }
      }
      if state == Idle {
        if isMapped && (!enabled || port != p) {
          state := Unmap;
        }
      }
      if enabled && isMapped && check {
        query := Some(port);
        if !a.present {
          isMapped := false;
        }
      }
      if state == Unmap {
        delete := Some(port);
        isMapped, state, port := false, Idle, -1;
      }
    }

    /** The second half of a pulse: map the port if it is wanted and not mapped. */
    method TryMap(p: int, enabled: bool, a: Answers) returns (add: Option<int>)
      modifies this
      ensures Abs() == Mapped(old(Abs()), p, enabled, a)
      ensures add == if Adds(old(Abs()), enabled, a) then Some(p) else None
    {
      add := None;
      if state == Idle {
        if enabled && !isMapped {
          state := Map;
        }
      }
      if state == Map {
        if !a.hasUrl {
          isMapped := false;
        } else {
          add := Some(p);
          isMapped := a.accepted;
        }
        if isMapped {
          port, state := p, Idle;
        } else {
          port, state := -1, Err;
        }
      }
    }

    method Pulse(p: int, enabled: bool, check: bool, a: Answers) returns (status: Status, sent: Requests)
      modifies this
      ensures Abs() == Pulsed(old(Abs()), p, enabled, check, a)
      ensures sent == Sent(old(Abs()), p, enabled, check, a)
      ensures status == StatusOf(Abs())
    {
      var query, delete := Review(p, enabled, check, a);
      var add := TryMap(p, enabled, a);
      sent := Requests(query, delete, add);
      match state {
        case Discover => status := PortUnmapped;
        case Map => status := PortMapping;
        case Unmap => status := PortUnmapping;
        case Idle => status := if isMapped then PortMapped else PortUnmapped;
        case Err => status := PortError;
      }
    }
  }

  /** What holds of a handle between pulses. */
  predicate Settled(h: Handle) {
    && (h.state == Discover || h.state == Idle || h.state == Err)
    && (h.isMapped ==> h.state == Idle)
    && (h.state == Idle ==> h.hasDiscovered) && (h.state == Discover ==> !h.hasDiscovered)
  }

  /** The two assertions of `upnpClose`. */
  predicate MayClose(h: Handle) {
    !h.isMapped && (h.state == Idle || h.state == Err || h.state == Discover)
  }

  /** Every pulse leaves the handle settled; a mapping it leaves is for the port just asked
      for; and a disabled pulse leaves none, so the handle may be closed. */
  lemma PulseSettles(h: Handle, port: int, enabled: bool, check: bool, a: Answers)
    requires Settled(h)
    ensures var t := Pulsed(h, port, enabled, check, a);
      && Settled(t)
      && (t.isMapped ==> enabled && t.port == port)
      && (!enabled ==> MayClose(t))
      && (StatusOf(t) == PortMapped <==> t.isMapped)
      && (h.state == Err ==> t == h)
  {
  }

  /** The gateway's table (of ports mapped for us with one protocol) after the requests of a
      pulse: a deletion that took effect removes its port, an accepted addition adds its port. */
  function Serve(table: set<int>, sent: Requests, a: Answers): set<int> {
    var kept := if sent.delete.Some? && a.removed then table - {sent.delete.value} else table;
    if sent.add.Some? && a.accepted then kept + {sent.add.value} else kept
  }

  function Served(table: set<int>, h: Handle, port: int, enabled: bool, check: bool, a: Answers): set<int> {
    Serve(table, Sent(h, port, enabled, check, a), a)
  }

  /** The gateway may be asked: it was found before, or is found in this pulse. */
  predicate Found(h: Handle, enabled: bool, a: Answers) {
    h.state == Idle || (h.state == Discover && enabled && a.connected)
  }

  /** The mapping asked for is there already, and not denied if the pulse checks it. */
  predicate Stands(h: Handle, port: int, check: bool, a: Answers) {
    h.isMapped && h.port == port && (check ==> a.present)
  }

  /** Exactly when a pulse leaves a mapping: it is wanted, the gateway has been found, and the
      mapping stands or a new one is accepted. */
  lemma MapsExactly(h: Handle, port: int, enabled: bool, check: bool, a: Answers)
    requires Settled(h)
    ensures Pulsed(h, port, enabled, check, a).isMapped <==>
            enabled && Found(h, enabled, a) && (Stands(h, port, check, a) || (a.hasUrl && a.accepted))
  {
  }

  /** The other states of a handle after a pulse, its status, and that without a mapping it has no
      port. */
  lemma StateAfterPulse(h: Handle, port: int, enabled: bool, check: bool, a: Answers)
    requires Settled(h)
    ensures var t := Pulsed(h, port, enabled, check, a);
      && (t.state == Discover <==> h.state == Discover && !enabled)
      && (t.state == Err <==>
            || h.state == Err || (enabled && h.state == Discover && !a.connected)
            || (enabled && Found(h, enabled, a) && !Stands(h, port, check, a) && !(a.hasUrl && a.accepted)))
      && (t.hasDiscovered <==> h.hasDiscovered || (enabled && h.state == Discover && a.connected))
      && (!t.isMapped && (h.isMapped || h.port == -1) ==> t.port == -1)
      && StatusOf(t) == (if t.isMapped then PortMapped else if t.state == Err then PortError else PortUnmapped)
  {
  }

  /** Exactly which requests a pulse sends. */
  lemma PulseSends(h: Handle, port: int, enabled: bool, check: bool, a: Answers)
    requires Settled(h)
    ensures var sent := Sent(h, port, enabled, check, a);
      && (sent.query == if enabled && h.isMapped && check then Some(h.port) else None)
      && (sent.delete == if h.isMapped && !(enabled && h.port == port) then Some(h.port) else None)
      && (sent.add ==
            if enabled && a.hasUrl && Found(h, enabled, a) && !Stands(h, port, check, a) then Some(port) else None)
  {
  }

  /** What the requests do at the gateway: a deletion that takes effect is gone, an accepted
      addition is there, everything else is as before. */
  lemma ServeExactly(table: set<int>, sent: Requests, a: Answers, p: int)
    ensures p in Serve(table, sent, a) <==>
            || (sent.add == Some(p) && a.accepted)
            || (p in table && !(sent.delete == Some(p) && a.removed))
  {
  }

  /** The gateway is to blame for a mapping: it holds it and denies it, or does not delete it. */
  predicate Blamed(table: set<int>, sent: Requests, a: Answers, port: int) {
    && port in table
    && ((sent.query == Some(port) && !a.present) || (sent.delete == Some(port) && !a.removed))
  }

  function BlamedBy(table: set<int>, h: Handle, port: int, enabled: bool, check: bool, a: Answers): set<int> {
    set p | p in table && Blamed(table, Sent(h, port, enabled, check, a), a, p)
  }

  /** What an honest gateway holds it does not deny, and deletes when asked to. */
  predicate Honest(table: set<int>, h: Handle, port: int, enabled: bool, check: bool, a: Answers) {
    BlamedBy(table, h, port, enabled, check, a) == {}
  }

  /** The ports that the handle has on record. */
  function Recorded(h: Handle): set<int> {
    if h.isMapped then {h.port} else {}
  }

  /** Whatever this handle is responsible for stays on record unless the gateway is to blame,
      whatever it is not responsible for is left alone. The answers are arbitrary. */
  lemma PulseAccounts(table: set<int>, others: set<int>, h: Handle, port: int, enabled: bool, check: bool, a: Answers)
    requires Settled(h) && table <= Recorded(h) + others
    ensures Served(table, h, port, enabled, check, a) <=
            Recorded(Pulsed(h, port, enabled, check, a)) + others + BlamedBy(table, h, port, enabled, check, a)
  {
  }

  /** One pulse of a run: its arguments, the answers to it, and which mappings the gateway
      has forgotten by itself before it. */
  datatype Round = Round(port: int, enabled: bool, check: bool, a: Answers, forgotten: set<int>)

  /** A handle with its gateway's table and all the mappings the gateway has been to blame for. */
  datatype World = World(h: Handle, table: set<int>, blamed: set<int>)

  function AfterRound(w: World, r: Round): World {
    var held := w.table - r.forgotten;
    World(Pulsed(w.h, r.port, r.enabled, r.check, r.a), Served(held, w.h, r.port, r.enabled, r.check, r.a),
          w.blamed + BlamedBy(held, w.h, r.port, r.enabled, r.check, r.a))
  }

  function RunAll(w: World, rounds: seq<Round>): World
    decreases |rounds|
  {
    if rounds == [] then w else RunAll(AfterRound(w, rounds[0]), rounds[1..])
  }

  /** Every gateway, however it answers: the handle is settled after each pulse, a recorded mapping
      is for the port last asked for, and after a disabled pulse the handle may be closed. What is
      in the table and not on record, the gateway is to blame for. */
  lemma {:induction false} RunKeeps(w: World, rounds: seq<Round>)
    requires Settled(w.h) && w.table <= Recorded(w.h) + w.blamed && rounds != []
    ensures var t, last := RunAll(w, rounds), rounds[|rounds| - 1];
      && Settled(t.h) && t.table <= Recorded(t.h) + t.blamed
      && (t.h.isMapped ==> last.enabled && t.h.port == last.port) && (!last.enabled ==> MayClose(t.h))
    decreases |rounds|
  {
    var r := rounds[0];
    var t := AfterRound(w, r);
    PulseSettles(w.h, r.port, r.enabled, r.check, r.a);
    PulseAccounts(w.table - r.forgotten, w.blamed, w.h, r.port, r.enabled, r.check, r.a);
    if |rounds| > 1 {
      RunKeeps(t, rounds[1..]);
      assert rounds[1..][|rounds| - 2] == rounds[|rounds| - 1];
    } else {
      assert RunAll(w, rounds) == RunAll(t, []);
    }
  }

  const START := World(INITIAL, {}, {})

  /** The same of every run from a new handle. */
  lemma UpnpRuns(rounds: seq<Round>)
    ensures var t := RunAll(START, rounds);
      && Settled(t.h) && t.table <= Recorded(t.h) + t.blamed
      && (t.h.isMapped ==> rounds != [] && rounds[|rounds| - 1].enabled && t.h.port == rounds[|rounds| - 1].port)
      && (rounds == [] || !rounds[|rounds| - 1].enabled ==> MayClose(t.h) && t.table <= t.blamed)
  {
    if rounds != [] {
      RunKeeps(START, rounds);
    }
  }

  /** Each pulse of the run is answered honestly. */
  predicate HonestRun(w: World, rounds: seq<Round>)
    decreases |rounds|
  {
    rounds == []
    || (Honest(w.table - rounds[0].forgotten, w.h, rounds[0].port, rounds[0].enabled, rounds[0].check, rounds[0].a)
        && HonestRun(AfterRound(w, rounds[0]), rounds[1..]))
  }

  /** An honest gateway is to blame for nothing. */
  lemma {:induction false} HonestRunIsBlameless(w: World, rounds: seq<Round>)
    requires HonestRun(w, rounds)
    ensures RunAll(w, rounds).blamed == w.blamed
    decreases |rounds|
  {
    if rounds != [] {
      assert AfterRound(w, rounds[0]).blamed == w.blamed;
      HonestRunIsBlameless(AfterRound(w, rounds[0]), rounds[1..]);
    }
  }

  /** So it holds at most the recorded mapping, and nothing after a disabled pulse. */
  lemma HonestUpnpRuns(rounds: seq<Round>)
    requires HonestRun(START, rounds)
    ensures var t := RunAll(START, rounds);
      t.table <= Recorded(t.h) && (rounds == [] || !rounds[|rounds| - 1].enabled ==> t.table == {})
  {
    HonestRunIsBlameless(START, rounds);
    UpnpRuns(rounds);
  }

  /** When a pulse loses track of its mapping: the gateway denies it and then refuses to add it
      again, or fails to delete it once it is obsolete. */
  predicate Orphans(h: Handle, port: int, enabled: bool, check: bool, a: Answers) {
    h.isMapped &&
    if enabled && h.port == port then check && !a.present && !(a.hasUrl && a.accepted) else !a.removed
  }

  /** Honesty is needed exactly there, whatever the gateway answers. */
  lemma OrphansExactly(h: Handle, port: int, enabled: bool, check: bool, a: Answers)
    requires Settled(h)
    ensures Served(Recorded(h), h, port, enabled, check, a) <= Recorded(Pulsed(h, port, enabled, check, a)) <==>
            !Orphans(h, port, enabled, check, a)
  {
    var held, noted := Served(Recorded(h), h, port, enabled, check, a), Recorded(Pulsed(h, port, enabled, check, a));
    if Orphans(h, port, enabled, check, a) {
      assert h.port in held && h.port !in noted;
    }
  }

  /** A gateway that denies a mapping it holds, and one that does not delete. */
  lemma LyingGatewayOrphans()
    ensures var h := Handle(true, 7, true, Idle); var a := Answers(true, false, true, true, false);
      && Settled(h) && BlamedBy({7}, h, 7, true, true, a) == {7}
      && Served({7}, h, 7, true, true, a) == {7} && Recorded(Pulsed(h, 7, true, true, a)) == {}
  {
  }

  lemma RefusedDeletionOrphans()
    ensures var h := Handle(true, 7, true, Idle); var a := Answers(true, true, false, true, true);
      && Settled(h) && BlamedBy({7}, h, 7, false, false, a) == {7}
      && Served({7}, h, 7, false, false, a) == {7} && MayClose(Pulsed(h, 7, false, false, a))
  {
  }
}
