/**
 What a pulse of the NAT-PMP handle does, for every state it can find and all that can happen: a
 complete table, read off nowhere but from the state before and the inputs.
 */
module NatPmpTable {
  import opened NatPmp
  import PortStatus

  /** A mapping was asked for: one request, and where its sending and the answer lead. */
  ghost predicate MapRequested(m: Machine, t: Machine, port: int, i: Inputs) {
    var done := i.sendMapping && i.mapping.Got?;
    && t.sent == m.sent + [Request(AskMapping(port, 3600), i.atMappingCheck, i.atMapping)]
    && t.held == (if i.maps then m.held + {port} else m.held) && t.unanswered == !done
    && t.h.commandTime == i.atMapping + 8 && t.h.hasDiscovered == m.h.hasDiscovered
    && (t.h.state == Err <==> !i.sendMapping || i.mapping.Failed?)
    && (t.h.state == RecvMap <==> i.sendMapping && i.mapping.TryAgain?)
    && if done then MapAnswered(t.h, i) else Unchanged(m.h, t.h)
  }

  /** The mapping is there, as answered, and to be renewed after half its lifetime. */
  predicate MapAnswered(h: Handle, i: Inputs) {
    && i.mapping.Got? && h.state == Idle && h.isMapped
    && h.privatePort == i.mapping.privatePort && h.publicPort == i.mapping.publicPort
    && h.renewTime == i.atMapped + i.mapping.lifetime / 2
  }

  /** Nothing about the mapping has changed. */
  predicate Unchanged(h: Handle, h': Handle) {
    && h'.isMapped == h.isMapped && h'.renewTime == h.renewTime
    && h'.privatePort == h.privatePort && h'.publicPort == h.publicPort
  }

  lemma RequestedMeans(m: Machine, port: int, i: Inputs)
    requires m.h.state == SendMap && i.atMappingCheck >= m.h.commandTime
    ensures MapRequested(m, Mapped(Mapping(m, port, i), i), port, i)
  {
  }

  /** The handle after the request for the address. */
  function AddressAsked(m: Machine, i: Inputs): Machine {
    var h := m.h.(state := if i.sendAddress then RecvPub else Err, hasDiscovered := true);
    Machine(h.(commandTime := i.atAddress + 8),
            m.sent + [Request(AskAddress, i.start, i.atAddress)], m.held, m.unanswered)
  }

  /** Still looking for the gateway: the first enabled pulse asks for the address and goes on like
      one on a handle that waits for it. */
  lemma DiscoverPulse(m: Machine, port: int, enabled: bool, i: Inputs)
    requires Inv(m) && m.h.state == Discover
    ensures m.sent == []
    ensures Pulsed(m, port, enabled, i) ==
            if !enabled then m
            else if i.sendAddress then Pulsed(AddressAsked(m, i), port, enabled, i)
            else AddressAsked(m, i)
  {
    DiscoverFinds(m, enabled, i);
    if enabled && i.sendAddress {
      SameFound(m, AddressAsked(m, i), port, enabled, i);
    } else {
      Untouched(Found(m, enabled, i), port, enabled, i);
    }
  }

  lemma DiscoverFinds(m: Machine, enabled: bool, i: Inputs)
    requires m.h.state == Discover
    ensures Found(m, enabled, i) ==
            if !enabled then m
            else if i.sendAddress then Found(AddressAsked(m, i), enabled, i)
            else AddressAsked(m, i)
  {
  }

  lemma SameFound(m: Machine, m': Machine, port: int, enabled: bool, i: Inputs)
    requires Found(m, enabled, i) == Found(m', enabled, i)
    ensures Pulsed(m, port, enabled, i) == Pulsed(m', port, enabled, i)
  {
  }

  /** Without a mapping, a handle in error or not yet enabled passes through the rest of a pulse. */
  lemma Untouched(m: Machine, port: int, enabled: bool, i: Inputs)
    requires !m.h.isMapped && (m.h.state == Err || m.h.state == Discover)
    ensures Established(Cleared(m, port, enabled, i), port, enabled, i) == m
  {
  }

  /** Waiting for the address; with an answer the pulse goes on like one on an idle handle. */
  lemma AddressPulse(m: Machine, port: int, enabled: bool, i: Inputs)
    requires Inv(m) && m.h.state == RecvPub
    ensures Pulsed(m, port, enabled, i) ==
            if i.atPub < m.h.commandTime || i.pub.TryAgain? then m
            else if i.pub.Failed? then m.(h := m.h.(state := Err))
            else Pulsed(m.(h := m.h.(state := Idle)), port, enabled, i)
  {
  }

  /** Idle and not mapped. */
  lemma UnmappedPulse(m: Machine, port: int, enabled: bool, i: Inputs)
    requires Inv(m) && m.h.state == Idle && !m.h.isMapped
    ensures var t := Pulsed(m, port, enabled, i);
      if !enabled then t == m
      else if i.atMappingCheck < m.h.commandTime then t == m.(h := m.h.(state := SendMap))
      else MapRequested(m, t, port, i)
  {
    var d := m.(h := m.h.(state := SendMap));
    if enabled {
      assert Deciding(Cleared(Found(m, enabled, i), port, enabled, i), enabled, i) == d;
      if i.atMappingCheck >= m.h.commandTime { RequestedMeans(d, port, i); }
    }
  }

  /** Idle and mapped as wanted: renewed exactly once half the lifetime has passed. */
  lemma RenewalPulse(m: Machine, port: int, i: Inputs)
    requires Inv(m) && m.h.state == Idle && m.h.isMapped && m.h.privatePort == port
    ensures var t := Pulsed(m, port, true, i);
      if i.atRenew < m.h.renewTime then t == m
      else if i.atMappingCheck < m.h.commandTime then t == m.(h := m.h.(state := SendMap))
      else MapRequested(m, t, port, i)
  {
    var d := m.(h := m.h.(state := SendMap));
    assert Cleared(Found(m, true, i), port, true, i) == m;
    if i.atRenew >= m.h.renewTime {
      assert Deciding(m, true, i) == d;
      if i.atMappingCheck >= m.h.commandTime { RequestedMeans(d, port, i); }
    }
  }

  /** A request for a mapping waiting for its turn goes out then, even if the port has changed or
      is no longer wanted. */
  lemma WaitingPulse(m: Machine, port: int, enabled: bool, i: Inputs)
    requires Inv(m) && m.h.state == SendMap
    ensures var t := Pulsed(m, port, enabled, i);
      if i.atMappingCheck < m.h.commandTime then t == m else MapRequested(m, t, port, i)
  {
    assert Deciding(Cleared(Found(m, enabled, i), port, enabled, i), enabled, i) == m;
    if i.atMappingCheck >= m.h.commandTime { RequestedMeans(m, port, i); }
  }

  /** Waiting for the answer to such a request. */
  lemma MapAnswerPulse(m: Machine, port: int, enabled: bool, i: Inputs)
    requires Inv(m) && m.h.state == RecvMap
    ensures var t := Pulsed(m, port, enabled, i);
      match i.mapping
      case TryAgain => t == m
      case Failed => t == m.(h := m.h.(state := Err))
      case Got(_, _, _) =>
        && t.sent == m.sent && t.held == m.held && !t.unanswered && MapAnswered(t.h, i)
        && t.h.commandTime == m.h.commandTime && t.h.hasDiscovered == m.h.hasDiscovered
  {
    assert Mapping(Deciding(Cleared(Found(m, enabled, i), port, enabled, i), enabled, i), port, i) == m;
  }

  /** The handle when its mapping has been removed. */
  function Cleaned(m: Machine): Machine {
    m.(h := m.h.(state := Idle, isMapped := false, privatePort := 0, publicPort := 0), unanswered := false)
  }

  /** The removal of the recorded mapping is confirmed. */
  predicate Confirmed(m: Machine, i: Inputs) {
    i.removal.Got? && i.removal.privatePort == m.h.privatePort
  }

  /** Where a handle goes that waits for the confirmation; once it has it, an enabled pulse goes on
      like one on an idle handle. */
  ghost predicate RemovalAnswered(m: Machine, t: Machine, port: int, enabled: bool, i: Inputs) {
    if Confirmed(m, i) then t == Pulsed(Cleaned(m), port, enabled, i)
    else t == m.(h := m.h.(state := if i.removal.Failed? then Err else RecvUnmap))
  }

  lemma RemovalAnswerPulse(m: Machine, port: int, enabled: bool, i: Inputs)
    requires Inv(m) && m.h.state == RecvUnmap
    ensures RemovalAnswered(m, Pulsed(m, port, enabled, i), port, enabled, i)
  {
    assert Removing(Obsolete(Found(m, enabled, i), port, enabled), i) == m;
    AfterRemoval(m, port, enabled, i);
  }

  lemma AfterRemoval(m: Machine, port: int, enabled: bool, i: Inputs)
    requires m.h.state == RecvUnmap && m.h.isMapped
    ensures RemovalAnswered(m, Established(Removed(m, i), port, enabled, i), port, enabled, i)
  {
    if Confirmed(m, i) {
      var c := Cleaned(m);
      assert Removed(m, i) == c && Cleared(Found(c, enabled, i), port, enabled, i) == c;
    }
  }

  /** Mapped, and the mapping is obsolete: its removal is asked for as soon as its time has come. */
  lemma RemovalPulse(m: Machine, port: int, enabled: bool, i: Inputs)
    requires Inv(m) && m.h.isMapped
    requires m.h.state == SendUnmap
             || ((m.h.state == Idle || m.h.state == Err) && !(enabled && m.h.privatePort == port))
    ensures var t := Pulsed(m, port, enabled, i);
      if i.atRemovalCheck < m.h.commandTime then t == m.(h := m.h.(state := SendUnmap))
      else
        var asked := Machine(
          m.h.(state := if i.sendRemoval then RecvUnmap else Err, commandTime := i.atRemoval + 8),
          m.sent + [Request(AskRemoval(m.h.privatePort, m.h.publicPort), i.atRemovalCheck, i.atRemoval)],
          if i.removes then m.held - {m.h.privatePort} else m.held, m.unanswered);
        if i.sendRemoval then RemovalAnswered(asked, t, port, enabled, i) else t == asked
  {
    var o := Obsolete(Found(m, enabled, i), port, enabled);
    assert o == m.(h := m.h.(state := SendUnmap));
    var asked := Removing(o, i);
    if i.atRemovalCheck >= m.h.commandTime && i.sendRemoval {
      AfterRemoval(asked, port, enabled, i);
    }
  }

  /** In error with nothing to remove: nothing ever happens again. */
  lemma ErrorPulse(m: Machine, port: int, enabled: bool, i: Inputs)
    requires Inv(m) && m.h.state == Err && (!m.h.isMapped || (enabled && m.h.privatePort == port))
    ensures Pulsed(m, port, enabled, i) == m
  {
  }

  /** What is reported: mapped, waiting for the gateway, waiting for a removal, in error or none
      of these. */
  lemma StatusMeans(h: Handle)
    ensures StatusOf(h) == PortStatus.PortMapped <==> h.state == Idle && h.isMapped
    ensures StatusOf(h) == PortStatus.PortUnmapping <==> h.state == SendUnmap || h.state == RecvUnmap
    ensures StatusOf(h) == PortStatus.PortMapping <==> h.state in {RecvPub, SendMap, RecvMap}
    ensures StatusOf(h) == PortStatus.PortError <==> h.state == Err
    ensures StatusOf(h) == PortStatus.PortUnmapped <==> h.state == Discover || (h.state == Idle && !h.isMapped)
  {
  }

  /** A gateway that answers, and a service that goes on pulsing: eight seconds after the request
      for the address the port is mapped, whatever the port, the times and the lifetime. */
  lemma AnsweringGatewayMaps(port: int, first: Inputs, second: Inputs)
    requires Monotone(first) && first.sendAddress && first.atPub < first.atAddress + 8
    requires Monotone(second) && second.atPub >= first.atAddress + 8
    requires second.pub.Got? && second.sendMapping && second.mapping.Got?
    ensures var t := Pulsed(Pulsed(NEW, port, true, first), port, true, second);
      MapAnswered(t.h, second) && StatusOf(t.h) == PortStatus.PortMapped
  {
    var m1 := Pulsed(NEW, port, true, first);
    DiscoverPulse(NEW, port, true, first);
    assert m1.h.state == RecvPub && m1.h.commandTime == first.atAddress + 8;
    PulseKeeps(NEW, port, true, first);
    AddressPulse(m1, port, true, second);
    UnmappedPulse(m1.(h := m1.h.(state := Idle)), port, true, second);
  }
}
