/**
 Connection bookkeeping of the HID packet handlers: the application state
 (`app_state`) and the HID channel id (`hid_cid`) as stack events update them.
 */
module HidLink {
  import opened Common

  datatype AppState = Booting | NotConnected | Connecting | Connected

  /** The two globals every HID packet handler maintains. */
  datatype Link = Link(appState: AppState, hidCid: uint16)

  /** Their values at power-on: `APP_BOOTING` and a zero channel id. */
  const InitLink: Link := Link(Booting, 0)

  /** The HCI events a HID packet handler tells apart. */
  datatype HciEvent =
    /** BTSTACK_EVENT_STATE; `working` is "the state is HCI_STATE_WORKING". */
    | StackState(working: bool)
    | UserConfirmationRequest
    | HidConnectionOpened(status: byte, cid: uint16)
    | HidConnectionClosed
    | HidCanSendNow
    | OtherEvent

  /** A packet delivered to a handler: an HCI event, or a packet of another
      type, which the handlers ignore. */
  datatype Packet = EventPacket(event: HciEvent) | OtherPacket

  /** The packet handler of hid_single_key/main/hid_single_key.c, of the
      `hid_packet_handler` of hfp_hid_muti/main/hfp_hid_muti.c and the link
      part of the handlers of the typing demo. */
  function OnHidPacket(l: Link, p: Packet): (r: Link)
    ensures p.EventPacket? && p.event.HidConnectionOpened? && p.event.status != StatusSuccess ==>
              r == Link(NotConnected, 0)
    ensures p.EventPacket? && p.event.HidConnectionOpened? && p.event.status == StatusSuccess ==>
              r == Link(Connected, p.event.cid)
    ensures p.EventPacket? && p.event.HidConnectionClosed? ==> r == Link(NotConnected, 0)
    ensures p == EventPacket(StackState(true)) ==> r == l.(appState := NotConnected)
    ensures r != l ==> DecidesState(p)
    ensures r.hidCid != l.hidCid ==>
              p.EventPacket? && (p.event.HidConnectionOpened? || p.event.HidConnectionClosed?)
  {
    match p
    case OtherPacket => l
    case EventPacket(e) =>
      match e
      case StackState(working) => if working then l.(appState := NotConnected) else l
      case HidConnectionOpened(status, cid) =>
        if status != StatusSuccess then Link(NotConnected, 0) else Link(Connected, cid)
      case HidConnectionClosed => Link(NotConnected, 0)
      case _ => l
  }

  /** Runs the handler over a sequence of packets. */
  function RunLink(l: Link, ps: seq<Packet>): Link
    decreases |ps|
  {
    if ps == [] then l else RunLink(OnHidPacket(l, ps[0]), ps[1..])
  }

  /** The events that decide the application state: a WORKING state event,
      an open or a close. */
  predicate DecidesState(p: Packet)
  {
    p.EventPacket?
    && (p.event == StackState(true) || p.event.HidConnectionOpened? || p.event.HidConnectionClosed?)
  }

  /** The events that decide the channel id: an open or a close. */
  predicate DecidesCid(p: Packet)
  {
    p.EventPacket? && (p.event.HidConnectionOpened? || p.event.HidConnectionClosed?)
  }

  predicate IsSuccessfulOpen(p: Packet)
  {
    p.EventPacket? && p.event.HidConnectionOpened? && p.event.status == StatusSuccess
  }

  /** Reference reading of the application state after a run from power-on:
      connected exactly when the last deciding event was a successful open,
      booting while no deciding event has arrived, not connected otherwise. */
  function ExpectedState(ps: seq<Packet>): AppState
  {
    if ps == [] then Booting
    else if DecidesState(ps[|ps| - 1]) then
      (if IsSuccessfulOpen(ps[|ps| - 1]) then Connected else NotConnected)
    else ExpectedState(ps[..|ps| - 1])
  }

  /** Reference reading of the channel id after a run from power-on: the cid
      of the last open-or-close event if that was a successful open, else 0. */
  function ExpectedCid(ps: seq<Packet>): uint16
  {
    if ps == [] then 0
    else if DecidesCid(ps[|ps| - 1]) then
      (if IsSuccessfulOpen(ps[|ps| - 1]) then ps[|ps| - 1].event.cid else 0)
    else ExpectedCid(ps[..|ps| - 1])
  }

  lemma {:induction false} RunLinkSnoc(l: Link, ps: seq<Packet>, p: Packet)
    ensures RunLink(l, ps + [p]) == OnHidPacket(RunLink(l, ps), p)
    decreases |ps|
  {
    if ps == [] {
      assert [p][1..] == [];
    } else {
      assert (ps + [p])[1..] == ps[1..] + [p];
      RunLinkSnoc(OnHidPacket(l, ps[0]), ps[1..], p);
    }
  }

  /** Every run from power-on ends in the state and channel id the reference
      readings give. */
  lemma {:induction false} RunLinkMatchesExpected(ps: seq<Packet>)
    ensures RunLink(InitLink, ps) == Link(ExpectedState(ps), ExpectedCid(ps))
    decreases |ps|
  {
    if ps != [] {
      var init, last := ps[..|ps| - 1], ps[|ps| - 1];
      assert ps == init + [last];
      RunLinkMatchesExpected(init);
      RunLinkSnoc(InitLink, init, last);
    }
  }

  /** A close and a repeated close leave the same link. */
  lemma CloseIdempotent(l: Link)
    ensures OnHidPacket(OnHidPacket(l, EventPacket(HidConnectionClosed)), EventPacket(HidConnectionClosed))
            == OnHidPacket(l, EventPacket(HidConnectionClosed))
  {
  }

  /** `APP_CONNECTING` is never entered: no run from power-on reaches it. */
  lemma {:induction false} NeverConnecting(l: Link, ps: seq<Packet>)
    requires l.appState != Connecting
    ensures RunLink(l, ps).appState != Connecting
    decreases |ps|
  {
    if ps != [] {
      NeverConnecting(OnHidPacket(l, ps[0]), ps[1..]);
    }
  }

  /** The handler of hid_single_key_q/main/hid_single_key_q.c keeps only the
      channel id, takes it from every open event whatever its status, and
      changes nothing on a stack-state event. */
  function OnHidPacketQ(cid: uint16, p: Packet): (r: uint16)
    ensures p.EventPacket? && p.event.HidConnectionOpened? ==> r == p.event.cid
    ensures p.EventPacket? && p.event.HidConnectionClosed? ==> r == 0
    ensures !DecidesCid(p) ==> r == cid
  {
    match p
    case OtherPacket => cid
    case EventPacket(e) =>
      match e
      case HidConnectionOpened(_, c) => c
      case HidConnectionClosed => 0
      case _ => cid
  }

  function RunLinkQ(cid: uint16, ps: seq<Packet>): uint16
    decreases |ps|
  {
    if ps == [] then cid else RunLinkQ(OnHidPacketQ(cid, ps[0]), ps[1..])
  }

  /** As long as every open succeeds, the status-blind handler tracks the
      same channel id as the full handler. */
  lemma {:induction false} RunLinkQAgrees(l: Link, ps: seq<Packet>)
    requires forall i | 0 <= i < |ps| :: ps[i].EventPacket? && ps[i].event.HidConnectionOpened? ==>
               ps[i].event.status == StatusSuccess
    ensures RunLinkQ(l.hidCid, ps) == RunLink(l, ps).hidCid
    decreases |ps|
  {
    if ps != [] {
      RunLinkQAgrees(OnHidPacket(l, ps[0]), ps[1..]);
    }
  }

  /** A failed open is where the two handlers part: the full handler drops
      the channel id, the status-blind one adopts the event's. */
  lemma FailedOpenDiverges(l: Link, status: byte, cid: uint16)
    requires status != StatusSuccess && cid != 0
    ensures OnHidPacket(l, EventPacket(HidConnectionOpened(status, cid))).hidCid == 0
    ensures OnHidPacketQ(l.hidCid, EventPacket(HidConnectionOpened(status, cid))) == cid
  {
  }
}
