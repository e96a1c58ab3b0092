/**
 The NAT-PMP handle (`natpmp-impl.cpp`): requests for a mapping and its removal, as in sections
 3.3 and 3.4 of RFC 6886. Socket results and clock readings are inputs; the readings of one
 pulse never decrease. Retries inside the library's response reader are not counted as requests.
 */
module NatPmp {
  import opened PortStatus

  datatype State = Idle | Err | Discover | RecvPub | SendMap | RecvMap | SendUnmap | RecvUnmap

  const LIFETIME_SECS := 3600
  const COMMAND_WAIT_SECS := 8

  datatype Handle = Handle(hasDiscovered: bool, isMapped: bool, publicPort: int, privatePort: int,
                           renewTime: int, commandTime: int, state: State)

  const FRESH := Handle(false, false, 0, 0, 0, 0, Discover)

  datatype Purpose = AskAddress | AskMapping(port: int, lifetime: int) | AskRemoval(privatePort: int, publicPort: int)

  /** A request, issued at some moment between two clock readings. */
  datatype Request = Request(purpose: Purpose, earliest: int, latest: int)

  /** The result of waiting for a response. */
  datatype Response = Got(privatePort: int, publicPort: int, lifetime: nat) | TryAgain | Failed

  /** What happens during one pulse, in order: whether each send succeeds, each response, and
      the clock at each reading; and whether the gateway acts on the removal and on the mapping. */
  datatype Inputs = Inputs(
    start: int, sendAddress: bool, atAddress: int,
    atPub: int, pub: Response,
    atRemovalCheck: int, sendRemoval: bool, atRemoval: int, removal: Response,
    atRenew: int, atMappingCheck: int, sendMapping: bool, atMapping: int, mapping: Response, atMapped: int,
    removes: bool, maps: bool)

  predicate Monotone(i: Inputs) {
    i.start <= i.atAddress <= i.atPub <= i.atRemovalCheck <= i.atRemoval <= i.atRenew <= i.atMappingCheck
      <= i.atMapping <= i.atMapped
  }

  /** A handle and its history: every request it has issued so far, the private ports that the
      gateway holds on their account, and whether the last request for a mapping is unanswered. */
  datatype Machine = Machine(h: Handle, sent: seq<Request>, held: set<int>, unanswered: bool)

  const NEW := Machine(FRESH, [], {}, false)

  /** What the gateway holds after a request, if it acts on it. */
  function Held(held: set<int>, purpose: Purpose, acts: bool): set<int> {
    if !acts then held
    else
      match purpose
      case AskAddress => held
      case AskMapping(port, _) => held + {port}
      case AskRemoval(port, _) => held - {port}
  }

  function Issue(m: Machine, next: Handle, purpose: Purpose, earliest: int, latest: int, acts: bool): Machine {
    Machine(next.(commandTime := latest + COMMAND_WAIT_SECS), m.sent + [Request(purpose, earliest, latest)],
            Held(m.held, purpose, acts), m.unanswered || purpose.AskMapping?)
  }

  function Discovering(m: Machine, enabled: bool, i: Inputs): Machine {
    if enabled && m.h.state == Discover then
      Issue(m, m.h.(state := if i.sendAddress then RecvPub else Err, hasDiscovered := true),
            AskAddress, i.start, i.atAddress, true)
    else m
  }

  function Discovered(m: Machine, i: Inputs): Machine {
    if m.h.state == RecvPub && i.atPub >= m.h.commandTime && !i.pub.TryAgain? then
      m.(h := m.h.(state := if i.pub.Got? then Idle else Err))
    else m
  }

  function Obsolete(m: Machine, port: int, enabled: bool): Machine {
    if (m.h.state == Idle || m.h.state == Err) && m.h.isMapped && (!enabled || m.h.privatePort != port) then
      m.(h := m.h.(state := SendUnmap))
    else m
  }

  function Removing(m: Machine, i: Inputs): Machine {
    if m.h.state == SendUnmap && i.atRemovalCheck >= m.h.commandTime then
      Issue(m, m.h.(state := if i.sendRemoval then RecvUnmap else Err),
            AskRemoval(m.h.privatePort, m.h.publicPort), i.atRemovalCheck, i.atRemoval, i.removes)
    else m
  }

  function Removed(m: Machine, i: Inputs): Machine {
    if m.h.state == RecvUnmap then
      match i.removal
      case Got(p, _, _) =>
        if p == m.h.privatePort then
          m.(h := m.h.(privatePort := 0, publicPort := 0, state := Idle, isMapped := false), unanswered := false)
        else m
      case TryAgain => m
      case Failed => m.(h := m.h.(state := Err))
    else m
  }

  function Deciding(m: Machine, enabled: bool, i: Inputs): Machine {
    if m.h.state == Idle && ((enabled && !m.h.isMapped && m.h.hasDiscovered)
                              || (m.h.isMapped && i.atRenew >= m.h.renewTime)) then
      m.(h := m.h.(state := SendMap))
    else m
  }

  function Mapping(m: Machine, port: int, i: Inputs): Machine {
    if m.h.state == SendMap && i.atMappingCheck >= m.h.commandTime then
      Issue(m, m.h.(state := if i.sendMapping then RecvMap else Err),
            AskMapping(port, LIFETIME_SECS), i.atMappingCheck, i.atMapping, i.maps)
    else m
  }

  function Mapped(m: Machine, i: Inputs): Machine {
    if m.h.state == RecvMap then
      match i.mapping
      case Got(priv, pub, lifetime) =>
        m.(h := m.h.(state := Idle, isMapped := true, renewTime := i.atMapped + lifetime / 2,
                     privatePort := priv, publicPort := pub), unanswered := false)
      case TryAgain => m
      case Failed => m.(h := m.h.(state := Err))
    else m
  }

  /** The three parts of a pulse: find the gateway, remove an obsolete mapping, make or
      renew the mapping. */
  function Found(m: Machine, enabled: bool, i: Inputs): Machine {
    Discovered(Discovering(m, enabled, i), i)
  }

  function Cleared(m: Machine, port: int, enabled: bool, i: Inputs): Machine {
    Removed(Removing(Obsolete(m, port, enabled), i), i)
  }

  function Established(m: Machine, port: int, enabled: bool, i: Inputs): Machine {
    Mapped(Mapping(Deciding(m, enabled, i), port, i), i)
  }

  /** One pulse. */
  function Pulsed(m: Machine, port: int, enabled: bool, i: Inputs): Machine {
    Established(Cleared(Found(m, enabled, i), port, enabled, i), port, enabled, i)
  }

  function StatusOf(h: Handle): Status {
    match h.state
    case Idle => if h.isMapped then PortMapped else PortUnmapped
    case Discover => PortUnmapped
    case RecvPub => PortMapping
    case SendMap => PortMapping
    case RecvMap => PortMapping
    case SendUnmap => PortUnmapping
    case RecvUnmap => PortUnmapping
    case Err => PortError
  }

  /** `struct natpmp`, updated in place by every pulse. */
  class CNatPmp {
    var hasDiscovered: bool
    var isMapped: bool
    var publicPort: int
    var privatePort: int
    var renewTime: int
    var commandTime: int
    var state: State
    ghost var sent: seq<Request>
    ghost var held: set<int>
    ghost var unanswered: bool

    ghost function Abs(): Machine
      reads this
    {
      Machine(Handle(hasDiscovered, isMapped, publicPort, privatePort, renewTime, commandTime, state),
              sent, held, unanswered)
    }

    constructor ()
      ensures Abs() == NEW
    {
      hasDiscovered, isMapped, publicPort, privatePort, renewTime, commandTime := false, false, 0, 0, 0, 0;
      state, sent, held, unanswered := Discover, [], {}, false;
    }

    method SetCommandTime(now: int)
      modifies this`commandTime
      ensures commandTime == now + COMMAND_WAIT_SECS
    {
      commandTime := now + COMMAND_WAIT_SECS;
    }

    method Find(enabled: bool, i: Inputs)
      modifies this
      ensures Abs() == Found(old(Abs()), enabled, i)
    {
      if enabled && state == Discover {
        sent := sent + [Request(AskAddress, i.start, i.atAddress)];
        state := if i.sendAddress then RecvPub else Err;
        hasDiscovered := true;
        SetCommandTime(i.atAddress);
      }
      if state == RecvPub && i.atPub >= commandTime {
        if i.pub.Got? {
          state := Idle;
        } else if !i.pub.TryAgain? {
          state := Err;
        }
      }
    }

    method AwaitRemoval(i: Inputs)
      modifies this
      ensures Abs() == Removed(old(Abs()), i)
    {
      if state == RecvUnmap {
        if i.removal.Got? {
          if privatePort == i.removal.privatePort {
            privatePort, publicPort, state, isMapped := 0, 0, Idle, false;
            unanswered := false;
          }
        } else if !i.removal.TryAgain? {
          state := Err;
        }
      }
    }

    method Drop(port: int, enabled: bool)
      modifies this`state
      ensures Abs() == Obsolete(old(Abs()), port, enabled)
    {
      if state == Idle || state == Err {
        if isMapped && (!enabled || privatePort != port) {
          state := SendUnmap;
        }
      }
    }

    method AskToRemove(i: Inputs)
      modifies this
      ensures Abs() == Removing(old(Abs()), i)
    {
      if state == SendUnmap && i.atRemovalCheck >= commandTime {
        sent := sent + [Request(AskRemoval(privatePort, publicPort), i.atRemovalCheck, i.atRemoval)];
        held := Held(held, AskRemoval(privatePort, publicPort), i.removes);
        state := if i.sendRemoval then RecvUnmap else Err;
        SetCommandTime(i.atRemoval);
      }
    }

    method Clear(port: int, enabled: bool, i: Inputs)
      modifies this
      ensures Abs() == Cleared(old(Abs()), port, enabled, i)
    {
      Drop(port, enabled);
      AskToRemove(i);
      AwaitRemoval(i);
    }

    method AwaitMapping(i: Inputs)
      modifies this
      ensures Abs() == Mapped(old(Abs()), i)
    {
      if state == RecvMap {
        if i.mapping.Got? {
          state, isMapped := Idle, true;
          renewTime := i.atMapped + i.mapping.lifetime / 2;
          privatePort, publicPort := i.mapping.privatePort, i.mapping.publicPort;
          unanswered := false;
        } else if !i.mapping.TryAgain? {
          state := Err;
        }
      }
    }

    method Decide(enabled: bool, i: Inputs)
      modifies this`state
      ensures Abs() == Deciding(old(Abs()), enabled, i)
    {
      if state == Idle {
        if enabled && !isMapped && hasDiscovered {
          state := SendMap;
        } else if isMapped && i.atRenew >= renewTime {
          state := SendMap;
        }
      }
    }

    method AskToMap(port: int, i: Inputs)
      modifies this
      ensures Abs() == Mapping(old(Abs()), port, i)
    {
      if state == SendMap && i.atMappingCheck >= commandTime {
        sent := sent + [Request(AskMapping(port, LIFETIME_SECS), i.atMappingCheck, i.atMapping)];
        held, unanswered := Held(held, AskMapping(port, LIFETIME_SECS), i.maps), true;
        state := if i.sendMapping then RecvMap else Err;
        SetCommandTime(i.atMapping);
      }
    }

    method Establish(port: int, enabled: bool, i: Inputs)
      modifies this
      ensures Abs() == Established(old(Abs()), port, enabled, i)
    {
      Decide(enabled, i);
      AskToMap(port, i);
      AwaitMapping(i);
    }

    method Pulse(port: int, enabled: bool, i: Inputs) returns (status: Status)
      modifies this
      ensures Abs() == Pulsed(old(Abs()), port, enabled, i)
      ensures status == StatusOf(Abs().h)
      ensures status == PortMapped <==> state == Idle && isMapped
    {
      Find(enabled, i);
      Clear(port, enabled, i);
      Establish(port, enabled, i);
      match state {
        case Idle => status := if isMapped then PortMapped else PortUnmapped;
        case Discover => status := PortUnmapped;
        case RecvPub => status := PortMapping;
        case SendMap => status := PortMapping;
        case RecvMap => status := PortMapping;
        case SendUnmap => status := PortUnmapping;
        case RecvUnmap => status := PortUnmapping;
        case Err => status := PortError;
      }
    }
  }

  /** Any two requests are at least eight seconds apart. */
  ghost predicate Spaced(sent: seq<Request>) {
    && (forall a | 0 <= a < |sent| :: sent[a].earliest <= sent[a].latest)
    && (forall a, b | 0 <= a < b < |sent| :: sent[a].latest + COMMAND_WAIT_SECS <= sent[b].earliest)
  }

  /** The address is asked for once, first of all. */
  ghost predicate AskedOnce(m: Machine) {
    && (m.h.hasDiscovered <==> m.sent != [])
    && (forall a | 0 <= a < |m.sent| :: m.sent[a].purpose == AskAddress <==> a == 0)
  }

  ghost predicate Inv(m: Machine) {
    && Spaced(m.sent) && AskedOnce(m)
    && (m.sent != [] ==> m.h.commandTime == m.sent[|m.sent| - 1].latest + COMMAND_WAIT_SECS)
    && (m.h.hasDiscovered <==> m.h.state != Discover)
    && (m.h.state == SendUnmap || m.h.state == RecvUnmap ==> m.h.isMapped)
    && (m.h.state == Discover || m.h.state == RecvPub ==> !m.h.isMapped)
    && (!m.h.isMapped ==> m.h.privatePort == 0 && m.h.publicPort == 0)
  }

  /** A request issued no earlier than the command time keeps the distance to all before it. */
  lemma IssueKeeps(m: Machine, next: Handle, purpose: Purpose, earliest: int, latest: int, acts: bool)
    requires Inv(m) && earliest <= latest && (m.sent != [] ==> earliest >= m.h.commandTime)
    requires next.hasDiscovered && next.state != Discover && (purpose == AskAddress <==> m.sent == [])
    requires next.state == SendUnmap || next.state == RecvUnmap ==> next.isMapped
    requires next.state == RecvPub ==> !next.isMapped
    requires !next.isMapped ==> next.privatePort == 0 && next.publicPort == 0
    ensures Inv(Issue(m, next, purpose, earliest, latest, acts))
  {
    var t := Issue(m, next, purpose, earliest, latest, acts).sent;
    forall a, b | 0 <= a < b < |t| ensures t[a].latest + COMMAND_WAIT_SECS <= t[b].earliest {
      if b == |m.sent| && a < b - 1 {
        assert m.sent[a].latest + COMMAND_WAIT_SECS <= m.sent[b - 1].earliest;
      }
    }
  }

  lemma FoundKeeps(m: Machine, enabled: bool, i: Inputs)
    requires Inv(m) && Monotone(i)
    ensures Inv(Found(m, enabled, i))
  {
    if enabled && m.h.state == Discover {
      IssueKeeps(m, m.h.(state := if i.sendAddress then RecvPub else Err, hasDiscovered := true),
                 AskAddress, i.start, i.atAddress, true);
    }
    assert Inv(Discovering(m, enabled, i));
  }

  lemma RemovingKeeps(m: Machine, i: Inputs)
    requires Inv(m) && Monotone(i)
    ensures Inv(Removing(m, i))
  {
    if m.h.state == SendUnmap && i.atRemovalCheck >= m.h.commandTime {
      IssueKeeps(m, m.h.(state := if i.sendRemoval then RecvUnmap else Err),
                 AskRemoval(m.h.privatePort, m.h.publicPort), i.atRemovalCheck, i.atRemoval, i.removes);
    }
  }

  lemma ObsoleteKeeps(m: Machine, port: int, enabled: bool)
    requires Inv(m)
    ensures Inv(Obsolete(m, port, enabled))
  {
  }

  lemma RemovedKeeps(m: Machine, i: Inputs)
    requires Inv(m)
    ensures Inv(Removed(m, i))
  {
  }

  lemma DecidingKeeps(m: Machine, enabled: bool, i: Inputs)
    requires Inv(m)
    ensures Inv(Deciding(m, enabled, i))
  {
  }

  lemma MappingKeeps(m: Machine, port: int, i: Inputs)
    requires Inv(m) && Monotone(i)
    ensures Inv(Mapping(m, port, i))
  {
    if m.h.state == SendMap && i.atMappingCheck >= m.h.commandTime {
      IssueKeeps(m, m.h.(state := if i.sendMapping then RecvMap else Err),
                 AskMapping(port, LIFETIME_SECS), i.atMappingCheck, i.atMapping, i.maps);
    }
  }

  lemma MappedKeeps(m: Machine, i: Inputs)
    requires Inv(m)
    ensures Inv(Mapped(m, i))
  {
  }

  lemma ClearedKeeps(m: Machine, port: int, enabled: bool, i: Inputs)
    requires Inv(m) && Monotone(i)
    ensures Inv(Cleared(m, port, enabled, i))
  {
    ObsoleteKeeps(m, port, enabled);
    var m1 := Obsolete(m, port, enabled);
    RemovingKeeps(m1, i);
    RemovedKeeps(Removing(m1, i), i);
  }

  lemma EstablishedKeeps(m: Machine, port: int, enabled: bool, i: Inputs)
    requires Inv(m) && Monotone(i)
    ensures Inv(Established(m, port, enabled, i))
  {
    DecidingKeeps(m, enabled, i);
    var m1 := Deciding(m, enabled, i);
    MappingKeeps(m1, port, i);
    MappedKeeps(Mapping(m1, port, i), i);
  }

  lemma PulseKeeps(m: Machine, port: int, enabled: bool, i: Inputs)
    requires Inv(m) && Monotone(i)
    ensures Inv(Pulsed(m, port, enabled, i))
  {
    FoundKeeps(m, enabled, i);
    var m1 := Found(m, enabled, i);
    ClearedKeeps(m1, port, enabled, i);
    EstablishedKeeps(Cleared(m1, port, enabled, i), port, enabled, i);
  }

  /** One pulse of a run. */
  datatype Round = Round(port: int, enabled: bool, i: Inputs)

  ghost function RunAll(m: Machine, rounds: seq<Round>): Machine
    decreases |rounds|
  {
    if rounds == [] then m
    else RunAll(Pulsed(m, rounds[0].port, rounds[0].enabled, rounds[0].i), rounds[1..])
  }

  lemma {:induction false} RunKeeps(m: Machine, rounds: seq<Round>)
    requires Inv(m) && forall k | 0 <= k < |rounds| :: Monotone(rounds[k].i)
    ensures Inv(RunAll(m, rounds))
    decreases |rounds|
  {
    if rounds != [] {
      var r := rounds[0];
      assert Monotone(r.i);
      PulseKeeps(m, r.port, r.enabled, r.i);
      RunKeeps(Pulsed(m, r.port, r.enabled, r.i), rounds[1..]);
    }
  }

  /** In every run of pulses on a new handle: requests are at least eight seconds apart, the
      address is asked for at most once and before anything else, a handle has discovered
      exactly when it has left that state, the removal states only occur with a mapping, and
      both ports are 0 without one. */
  lemma {:induction false} NatPmpRuns(rounds: seq<Round>)
    requires forall k | 0 <= k < |rounds| :: Monotone(rounds[k].i)
    ensures Inv(RunAll(NEW, rounds))
  {
    RunKeeps(NEW, rounds);
  }

  /** A disabled pulse gets rid of a mapping exactly when it is not in the middle of renewing it,
      the removal has been or can be sent at once, and the matching response is already there.
      `closeOld` makes a single such pulse, so it can leave the mapping on the gateway. */
  lemma DisabledPulseUnmaps(m: Machine, port: int, i: Inputs)
    requires Inv(m) && m.h.isMapped
    ensures !Pulsed(m, port, false, i).h.isMapped <==>
            && m.h.state != SendMap && m.h.state != RecvMap
            && (m.h.state == RecvUnmap || (i.atRemovalCheck >= m.h.commandTime && i.sendRemoval))
            && i.removal.Got? && i.removal.privatePort == m.h.privatePort
  {
    ClearedUnmaps(m, port, i);
    EstablishedKeepsMapped(Cleared(Found(m, false, i), port, false, i), port, i);
  }

  lemma ClearedUnmaps(m: Machine, port: int, i: Inputs)
    requires Inv(m) && m.h.isMapped
    ensures var c := Cleared(Found(m, false, i), port, false, i);
      && (!c.h.isMapped ==> c.h.state == Idle)
      && (!c.h.isMapped <==>
            && m.h.state != SendMap && m.h.state != RecvMap
            && (m.h.state == RecvUnmap || (i.atRemovalCheck >= m.h.commandTime && i.sendRemoval))
            && i.removal.Got? && i.removal.privatePort == m.h.privatePort)
  {
    assert Found(m, false, i) == m;
  }

  lemma EstablishedKeepsMapped(c: Machine, port: int, i: Inputs)
    requires !c.h.isMapped ==> c.h.state == Idle
    ensures Established(c, port, false, i).h.isMapped == c.h.isMapped
  {
    if !c.h.isMapped {
      assert Deciding(c, false, i) == c;
    }
  }

  /** When a handle is mapped after a disabled pulse: a mapping that could not be removed, or the
      late answer to a request for one. */
  predicate StaysMapped(m: Machine, i: Inputs) {
    if m.h.isMapped then
      || m.h.state == SendMap || m.h.state == RecvMap
      || !(m.h.state == RecvUnmap || (i.atRemovalCheck >= m.h.commandTime && i.sendRemoval))
      || !i.removal.Got? || i.removal.privatePort != m.h.privatePort
    else
      && (m.h.state == RecvMap || (m.h.state == SendMap && i.atMappingCheck >= m.h.commandTime && i.sendMapping))
      && i.mapping.Got?
  }

  lemma MappedAfterDisabled(m: Machine, port: int, i: Inputs)
    requires Inv(m)
    ensures Pulsed(m, port, false, i).h.isMapped <==> StaysMapped(m, i)
  {
    if m.h.isMapped {
      DisabledPulseUnmaps(m, port, i);
    } else {
      assert Cleared(Found(m, false, i), port, false, i) == Found(m, false, i);
    }
  }

  /** A disabled pulse even asks for a mapping exactly when that request was still waiting for
      its turn. */
  lemma DisabledPulseMaps(m: Machine, port: int, i: Inputs)
    requires Inv(m)
    ensures var t := Pulsed(m, port, false, i);
      (exists a | |m.sent| <= a < |t.sent| :: t.sent[a].purpose.AskMapping?) <==>
      m.h.state == SendMap && i.atMappingCheck >= m.h.commandTime
  {
    var d, t := Deciding(Cleared(Found(m, false, i), port, false, i), false, i), Pulsed(m, port, false, i);
    DisabledDecides(m, port, i);
    MapsWhenAsked(d, port, i);
    assert t == Mapped(Mapping(d, port, i), i);
    if m.h.state == SendMap && i.atMappingCheck >= m.h.commandTime {
      assert t.sent[|m.sent|].purpose.AskMapping?;
    } else {
      assert t.sent == d.sent;
    }
  }

  /** Before it comes to mapping, a disabled pulse asks for a removal at most. */
  lemma DisabledDecides(m: Machine, port: int, i: Inputs)
    requires Inv(m)
    ensures var d := Deciding(Cleared(Found(m, false, i), port, false, i), false, i);
      && (m.h.state == SendMap ==> d == m)
      && (m.h.state != SendMap ==> d.h.state != SendMap)
      && |m.sent| <= |d.sent| && forall a | |m.sent| <= a < |d.sent| :: d.sent[a].purpose.AskRemoval?
  {
  }

  lemma MapsWhenAsked(d: Machine, port: int, i: Inputs)
    ensures Mapped(Mapping(d, port, i), i).sent ==
            if d.h.state == SendMap && i.atMappingCheck >= d.h.commandTime then
              d.sent + [Request(AskMapping(port, LIFETIME_SECS), i.atMappingCheck, i.atMapping)]
            else d.sent
  {
  }

  // What the gateway holds

  /** The answers that the code takes for a confirmation are ones: a mapping is confirmed for the
      port asked for, and a removal has taken place. */
  ghost predicate Truthful(m: Machine, port: int, enabled: bool, i: Inputs) {
    var asked := Removing(Obsolete(Found(m, enabled, i), port, enabled), i);
    var tried := Mapping(Deciding(Removed(asked, i), enabled, i), port, i);
    && (asked.h.state == RecvUnmap && i.removal.Got? && i.removal.privatePort == asked.h.privatePort ==>
          asked.h.privatePort !in asked.held)
    && (tried.h.state == RecvMap && i.mapping.Got? ==> i.mapping.privatePort == port)
  }

  /** A handle that is only ever pulsed for one port: the gateway holds at most that port, and only
      if the handle counts as mapped or its last request for a mapping is unanswered. */
  ghost predicate Explained(m: Machine, port: int) {
    && m.held <= {port}
    && (m.h.isMapped ==> m.h.privatePort == port)
    && (m.held != {} ==> m.h.isMapped || m.unanswered)
  }

  lemma PulseExplains(m: Machine, port: int, enabled: bool, i: Inputs)
    requires Explained(m, port) && Truthful(m, port, enabled, i)
    requires m.h.state == RecvUnmap || m.h.state == SendUnmap ==> m.h.isMapped
    ensures Explained(Pulsed(m, port, enabled, i), port)
  {
    var c := Cleared(Found(m, enabled, i), port, enabled, i);
    assert Explained(c, port) by { ClearedExplains(m, port, enabled, i); }
    var tried := Mapping(Deciding(c, enabled, i), port, i);
    assert Explained(tried, port);
  }

  lemma ClearedExplains(m: Machine, port: int, enabled: bool, i: Inputs)
    requires Explained(m, port) && Truthful(m, port, enabled, i)
    requires m.h.state == RecvUnmap || m.h.state == SendUnmap ==> m.h.isMapped
    ensures Explained(Cleared(Found(m, enabled, i), port, enabled, i), port)
  {
    var asked := Removing(Obsolete(Found(m, enabled, i), port, enabled), i);
    assert Explained(asked, port);
  }

  /** All clock readings of a pulse equal, every send successful and every request acted on. */
  function At(t: int, pub: Response, removal: Response, mapping: Response): Inputs {
    Inputs(t, true, t, t, pub, t, true, t, removal, t, t, true, t, mapping, t, true, true)
  }

  /** A handle that was mapped at second 8, with half its lifetime to run until renewal. */
  function MappedAt8(lifetime: nat): Handle {
    Handle(true, true, 7, 7, 8 + lifetime / 2, 16, Idle)
  }

  /** The rounds that lead there: the address is asked for at 0, the mapping at 8. */
  function ToMapped(lifetime: nat): seq<Round> {
    [Round(7, true, At(0, TryAgain, TryAgain, TryAgain)),
     Round(7, true, At(8, Got(0, 0, 0), TryAgain, Got(7, 7, lifetime)))]
  }

  lemma ReachesMapped(lifetime: nat)
    ensures RunAll(NEW, ToMapped(lifetime)).h == MappedAt8(lifetime) && RunAll(NEW, ToMapped(lifetime)).held == {7}
  {
    var m0, rounds := NEW, ToMapped(lifetime);
    var m1 := Pulsed(m0, 7, true, rounds[0].i);
    assert m1.h == FRESH.(hasDiscovered := true, commandTime := 8, state := RecvPub);
    var m2 := Pulsed(m1, 7, true, rounds[1].i);
    assert m2.h == MappedAt8(lifetime) && m2.held == {7};
    assert rounds[1..] == [rounds[1]] && [rounds[1]][1..] == [];
    assert RunAll(m1, [rounds[1]]) == m2;
  }

  lemma {:induction false} RunConcat(m: Machine, a: seq<Round>, b: seq<Round>)
    ensures RunAll(m, a + b) == RunAll(RunAll(m, a), b)
    decreases |a|
  {
    if a == [] {
      assert a + b == b;
    } else {
      assert (a + b)[1..] == a[1..] + b;
      RunConcat(Pulsed(m, a[0].port, a[0].enabled, a[0].i), a[1..], b);
    }
  }

  /** A run that ends like `closeOld` and leaves the mapping in place: mapped at second 8,
      disabled one second later, too early for another request. */
  lemma DisabledPulseCanLeak()
    ensures var last := Round(7, false, At(9, TryAgain, Got(7, 0, 0), TryAgain));
      RunAll(NEW, ToMapped(3600) + [last]).h.isMapped && RunAll(NEW, ToMapped(3600) + [last]).held == {7}
  {
    var last := Round(7, false, At(9, TryAgain, Got(7, 0, 0), TryAgain));
    var m := RunAll(NEW, ToMapped(3600));
    ReachesMapped(3600);
    RunConcat(NEW, ToMapped(3600), [last]);
    assert [last][1..] == [] && RunAll(m, [last]) == Pulsed(m, 7, false, last.i);
  }

  /** A run whose last, disabled pulse asks for a mapping: a renewal falls due at second 9, has
      to wait for its turn until 16, and goes out then although the port is no longer wanted. */
  lemma DisabledPulseCanMap()
    ensures var due := Round(7, true, At(9, TryAgain, TryAgain, TryAgain));
      var last := Round(7, false, At(16, TryAgain, TryAgain, TryAgain));
      var sent := RunAll(NEW, ToMapped(2) + [due, last]).sent;
      sent != [] && sent[|sent| - 1] == Request(AskMapping(7, LIFETIME_SECS), 16, 16)
  {
    var due := Round(7, true, At(9, TryAgain, TryAgain, TryAgain));
    var last := Round(7, false, At(16, TryAgain, TryAgain, TryAgain));
    var m2 := RunAll(NEW, ToMapped(2));
    ReachesMapped(2);
    var m3 := Pulsed(m2, 7, true, due.i);
    RenewalWaits(m2, due.i);
    var m4 := Pulsed(m3, 7, false, last.i);
    RenewalGoesOut(m3, last.i);
    RunConcat(NEW, ToMapped(2), [due, last]);
    TwoRounds(m2, due, last);
  }

  lemma TwoRounds(m: Machine, a: Round, b: Round)
    ensures RunAll(m, [a, b]) == Pulsed(Pulsed(m, a.port, a.enabled, a.i), b.port, b.enabled, b.i)
  {
    var m1 := Pulsed(m, a.port, a.enabled, a.i);
    assert [a, b][1..] == [b] && [b][1..] == [];
    assert RunAll(m1, [b]) == Pulsed(m1, b.port, b.enabled, b.i);
  }

  lemma RenewalWaits(m: Machine, i: Inputs)
    requires m.h == MappedAt8(2) && i == At(9, TryAgain, TryAgain, TryAgain)
    ensures Pulsed(m, 7, true, i).h == m.h.(state := SendMap)
  {
  }

  lemma RenewalGoesOut(m: Machine, i: Inputs)
    requires m.h == MappedAt8(2).(state := SendMap) && i == At(16, TryAgain, TryAgain, TryAgain)
    ensures Pulsed(m, 7, false, i).sent == m.sent + [Request(AskMapping(7, LIFETIME_SECS), 16, 16)]
  {
  }
}
