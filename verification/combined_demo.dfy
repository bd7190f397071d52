/**
 The newer combined demo runs its HID handler and its Hands-Free handler
 side by side, and both write `hid_cid`. The HID handler writes it on opens
 and closes. The Hands-Free handler writes it when a service level
 connection comes up while no HID connection is open: it calls
 `hid_device_connect(device_addr, &hid_cid)`, and the stack stores the
 channel id it assigns to the new connection through that pointer.
 */
module CombinedDemo {
  import opened Common
  import opened Actions
  import opened HidLink
  import opened HfpHandles

  /** A packet for one of the two handlers. A Hands-Free packet carries what
      `hid_device_connect` would store into `hid_cid` if the handler calls
      it: the channel id the stack assigns, or nothing when the stack
      refuses before assigning one. */
  datatype Input =
    | FromHid(packet: Packet)
    | FromHfp(hfp: HfpPacket, stored: Option<uint16>)

  /** The globals of both handlers. */
  datatype Combined = Combined(link: Link, handles: Handles)

  const InitCombined: Combined := Combined(InitLink, InitHandles)

  /** The Hands-Free handler stores a channel id into `hid_cid` on this
      input, given the application state. */
  predicate WritesCid(appState: AppState, x: Input)
  {
    x.FromHfp? && IsSuccessfulSlc(x.hfp) && appState != Connected && x.stored.Some?
  }

  /** One packet, handled by the handler it is for. */
  function CombinedStep(st: Combined, x: Input): (r: Combined)
    ensures x.FromHid? ==> r == Combined(OnHidPacket(st.link, x.packet), st.handles)
    ensures x.FromHfp? ==>
              r.handles == OnHfpPacket(ConnectsHid, st.link.appState, st.handles, x.hfp).state
              && r.link.appState == st.link.appState
    ensures x.FromHfp? && r.link != st.link ==>
              IsSuccessfulSlc(x.hfp)
              && OnHfpPacket(ConnectsHid, st.link.appState, st.handles, x.hfp).trace == [HidConnect(x.hfp.event.addr)]
    ensures WritesCid(st.link.appState, x) ==> r.link.hidCid == x.stored.value
    ensures r.link.hidCid != st.link.hidCid ==>
              (x.FromHid? && DecidesCid(x.packet)) || WritesCid(st.link.appState, x)
  {
    match x
    case FromHid(p) => Combined(OnHidPacket(st.link, p), st.handles)
    case FromHfp(p, stored) =>
      var o := OnHfpPacket(ConnectsHid, st.link.appState, st.handles, p);
      var cid := if WritesCid(st.link.appState, x) then stored.value else st.link.hidCid;
      Combined(st.link.(hidCid := cid), o.state)
  }

  /** Runs both handlers over a sequence of packets, oldest first. */
  function RunCombined(st: Combined, xs: seq<Input>): Combined
    decreases |xs|
  {
    if xs == [] then st else CombinedStep(RunCombined(st, xs[..|xs| - 1]), xs[|xs| - 1])
  }

  /** The packets of a run that went to the HID handler, in order. */
  function HidPackets(xs: seq<Input>): seq<Packet>
    decreases |xs|
  {
    if xs == [] then []
    else HidPackets(xs[..|xs| - 1]) + (if xs[|xs| - 1].FromHid? then [xs[|xs| - 1].packet] else [])
  }

  /** Reference reading of `hid_cid` in the combined demo: the value of the
      last write by either handler. An HID open or close decides it as in
      `HidLink.ExpectedCid`; a Hands-Free packet decides it when it makes
      the stack store a channel id, which it can only do while the HID
      packets so far leave the application not connected. */
  function ExpectedCombinedCid(xs: seq<Input>): uint16
    decreases |xs|
  {
    if xs == [] then 0
    else
      var init, last := xs[..|xs| - 1], xs[|xs| - 1];
      if last.FromHid? && DecidesCid(last.packet) then
        (if IsSuccessfulOpen(last.packet) then last.packet.event.cid else 0)
      else if WritesCid(ExpectedState(HidPackets(init)), last) then last.stored.value
      else ExpectedCombinedCid(init)
  }

  /** Every run of the combined demo from power-on ends with the application
      state its HID packets alone decide, and with the channel id of the
      last write by either handler. */
  lemma {:induction false} RunCombinedMatchesExpected(xs: seq<Input>)
    ensures RunCombined(InitCombined, xs).link == Link(ExpectedState(HidPackets(xs)), ExpectedCombinedCid(xs))
    decreases |xs|
  {
    if xs != [] {
      var init, last := xs[..|xs| - 1], xs[|xs| - 1];
      RunCombinedMatchesExpected(init);
      var hp := HidPackets(init);
      if last.FromHid? {
        assert HidPackets(xs) == hp + [last.packet];
        assert (hp + [last.packet])[..|hp|] == hp;
      } else {
        assert HidPackets(xs) == hp;
      }
    }
  }

  /** When the stack never stores a channel id through `hid_device_connect`,
      the combined demo's `hid_cid` is the one the HID packets alone
      decide. */
  lemma {:induction false} NoWriteBackAgrees(xs: seq<Input>)
    requires forall i | 0 <= i < |xs| :: xs[i].FromHfp? ==> xs[i].stored.None?
    ensures ExpectedCombinedCid(xs) == ExpectedCid(HidPackets(xs))
    decreases |xs|
  {
    if xs != [] {
      var init, last := xs[..|xs| - 1], xs[|xs| - 1];
      assert forall i | 0 <= i < |init| :: init[i] == xs[i];
      NoWriteBackAgrees(init);
      var hp := HidPackets(init);
      if last.FromHid? {
        assert HidPackets(xs) == hp + [last.packet];
        assert (hp + [last.packet])[..|hp|] == hp;
      } else {
        assert HidPackets(xs) == hp;
      }
    }
  }

  /** A channel id stored by `hid_device_connect` lasts only until the HID
      handler's next open or close. */
  lemma WriteBackOverridden(st: Combined, x: Input, p: Packet)
    requires DecidesCid(p)
    ensures CombinedStep(CombinedStep(st, x), FromHid(p)).link.hidCid
            == OnHidPacket(st.link, p).hidCid
  {
  }

  /** In this demo the HID packets alone do not decide `hid_cid`: a service
      level connection that makes the stack store a channel id changes it
      although no HID packet has arrived. */
  lemma WriteBackWithoutHidPacket(addr: BdAddr, cid: uint16)
    requires cid != 0
    ensures RunCombined(InitCombined, [FromHfp(HfpMeta(SlcEstablished(StatusSuccess, 0x0B, addr)), Some(cid))]).link.hidCid
            == cid
    ensures HidPackets([FromHfp(HfpMeta(SlcEstablished(StatusSuccess, 0x0B, addr)), Some(cid))]) == []
  {
    var xs := [FromHfp(HfpMeta(SlcEstablished(StatusSuccess, 0x0B, addr)), Some(cid))];
    assert xs[..0] == [];
  }
}
