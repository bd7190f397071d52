/**
 Connection bookkeeping of the Hands-Free side: the ACL handle of the service
 level connection and the SCO handle of the audio connection, set by success
 events and invalidated by release events, and the SCO data filter that
 forwards only packets of the current audio connection.

 Two handlers are modelled. The Hands-Free demo and the older combined demo
 remember the ACL handle; the newer combined demo never stores it and
 instead asks for an HID connection to the Hands-Free peer.
 */
module HfpHandles {
  import opened Common
  import opened Actions
  import opened HidLink

  /** `HCI_CON_HANDLE_INVALID`. */
  const HandleInvalid: uint16 := 0xFFFF

  /** The connection handle in the first 16-bit field of an HCI synchronous
      data packet: its low 12 bits (Bluetooth Core Specification, Volume 4,
      Part E, section 5.4.3); the upper bits carry packet flags. */
  function ConnectionHandle(field: uint16): (h: uint16)
    ensures h < 0x1000 && h != HandleInvalid
    ensures field < 0x1000 ==> h == field
  {
    field % 0x1000
  }

  /** Which handler: the one that stores the ACL handle (hfp_hf_demo.c and
      the older hfp_hid_muti.c) or the newer hfp_hid_muti.c. */
  datatype Variant = StoresAcl | ConnectsHid

  /** The Hands-Free profile events the handlers act on. */
  datatype HfpEvent =
    | SlcEstablished(status: byte, acl: uint16, addr: BdAddr)
    | SlcReleased
    | AudioEstablished(status: byte, sco: uint16, codec: byte)
    | AudioReleased
    /** HFP_SUBEVENT_VOICE_RECOGNITION_ACTIVATED; `enhanced` is non-zero for
        enhanced voice recognition. */
    | VoiceRecognitionActivated(status: byte, enhanced: byte)
    /** Any other subevent: call status, indicators, completions. */
    | OtherHfpEvent

  datatype HfpPacket =
    /** An SCO data packet, by the field that holds its connection handle. */
    | ScoData(handleField: uint16)
    | ScoCanSendNow
    | HfpMeta(event: HfpEvent)
    /** Any other packet or HCI event. */
    | OtherHfpPacket

  datatype Handles = Handles(acl: uint16, sco: uint16, deviceAddr: BdAddr)

  const InitHandles := Handles(HandleInvalid, HandleInvalid, [0, 0, 0, 0, 0, 0])

  datatype HfpOutcome = HfpOutcome(state: Handles, trace: seq<Action>)

  predicate IsSuccessfulSlc(p: HfpPacket)
  {
    p.HfpMeta? && p.event.SlcEstablished? && p.event.status == StatusSuccess
  }

  predicate IsSuccessfulAudio(p: HfpPacket)
  {
    p.HfpMeta? && p.event.AudioEstablished? && p.event.status == StatusSuccess
  }

  /** Enhanced voice recognition was activated. */
  predicate IsEnhancedVoiceRecognition(p: HfpPacket)
  {
    p.HfpMeta? && p.event.VoiceRecognitionActivated? && p.event.status == StatusSuccess
    && p.event.enhanced != 0
  }

  /** A packet that fails to establish a connection. */
  predicate IsFailedEstablishment(p: HfpPacket)
  {
    p.HfpMeta?
    && (p.event.SlcEstablished? || p.event.AudioEstablished?)
    && p.event.status != StatusSuccess
  }

  /** Whether the SCO filter lets a data packet through to the audio code. */
  predicate Forwards(s: Handles, p: HfpPacket)
  {
    p.ScoData? && ConnectionHandle(p.handleField) == s.sco
  }

  /** `hfp_hf_packet_handler` (and, for the SCO packets and the SCO
      can-send-now event it shares, `hci_packet_handler`), with the HID
      application state the newer combined demo consults. */
  function OnHfpPacket(v: Variant, appState: AppState, s: Handles, p: HfpPacket): (o: HfpOutcome)
    ensures IsFailedEstablishment(p) ==> o == HfpOutcome(s, [])
    ensures p == HfpMeta(SlcReleased) ==> o.state.acl == HandleInvalid
    ensures p == HfpMeta(AudioReleased) ==> o.state.sco == HandleInvalid
    ensures IsSuccessfulAudio(p) ==> o.state.sco == p.event.sco
    ensures IsSuccessfulSlc(p) ==> o.state.deviceAddr == p.event.addr
    ensures v == StoresAcl && IsSuccessfulSlc(p) ==> o.state.acl == p.event.acl
    ensures o.state.acl != s.acl ==>
              p == HfpMeta(SlcReleased) || (v == StoresAcl && IsSuccessfulSlc(p) && o.state.acl == p.event.acl)
    ensures v == ConnectsHid ==> o.state.acl == s.acl || o.state.acl == HandleInvalid
    ensures o.state.sco != s.sco ==> p == HfpMeta(AudioReleased) || IsSuccessfulAudio(p)
    ensures v == ConnectsHid && IsSuccessfulSlc(p) && appState != Connected ==>
              o.trace == [HidConnect(p.event.addr)]
    ensures !(v == ConnectsHid && IsSuccessfulSlc(p) && appState != Connected) ==>
              forall a | a in o.trace :: !a.HidConnect?
    ensures Forwards(s, p) ==> o.trace == [ScoDemoReceive(p.handleField)]
    ensures !Forwards(s, p) ==> forall a | a in o.trace :: !a.ScoDemoReceive?
    ensures p == ScoCanSendNow ==> o == HfpOutcome(s, [ScoDemoSend(s.sco)])
    ensures IsSuccessfulAudio(p) ==> o.trace == [ScoDemoSetCodec(p.event.codec), RequestScoCanSendNow]
    ensures p == HfpMeta(AudioReleased) ==> o.trace == [ScoDemoClose]
    ensures v == StoresAcl && IsEnhancedVoiceRecognition(p) ==> o == HfpOutcome(s, [ReportReadyForAudio(s.acl)])
    ensures !(v == StoresAcl && IsEnhancedVoiceRecognition(p)) ==>
              forall a | a in o.trace :: !a.ReportReadyForAudio?
  {
    match p
    case ScoData(field) =>
      HfpOutcome(s, if ConnectionHandle(field) == s.sco then [ScoDemoReceive(field)] else [])
    case ScoCanSendNow =>
      HfpOutcome(s, [ScoDemoSend(s.sco)])
    case HfpMeta(SlcEstablished(status, acl, addr)) =>
      if status != StatusSuccess then HfpOutcome(s, [])
      else if v == StoresAcl then HfpOutcome(s.(acl := acl, deviceAddr := addr), [])
      else if appState != Connected then
        assert v == ConnectsHid && IsSuccessfulSlc(p);
        HfpOutcome(s.(deviceAddr := addr), [HidConnect(addr)])
      else HfpOutcome(s.(deviceAddr := addr), [])
    case HfpMeta(SlcReleased) =>
      HfpOutcome(s.(acl := HandleInvalid), [])
    case HfpMeta(AudioEstablished(status, sco, codec)) =>
      if status != StatusSuccess then HfpOutcome(s, [])
      else HfpOutcome(s.(sco := sco), [ScoDemoSetCodec(codec), RequestScoCanSendNow])
    case HfpMeta(AudioReleased) =>
      HfpOutcome(s.(sco := HandleInvalid), [ScoDemoClose])
    case HfpMeta(VoiceRecognitionActivated(status, enhanced)) =>
      if v == StoresAcl && status == StatusSuccess && enhanced != 0 then
        HfpOutcome(s, [ReportReadyForAudio(s.acl)])
      else HfpOutcome(s, [])
    case HfpMeta(OtherHfpEvent) =>
      HfpOutcome(s, [])
    case OtherHfpPacket =>
      HfpOutcome(s, [])
  }

  /** While no audio connection is up, no SCO data reaches the audio code:
      no 12-bit connection handle equals the invalid handle. */
  lemma NothingForwardedWithoutAudio(v: Variant, appState: AppState, s: Handles, p: HfpPacket)
    requires s.sco == HandleInvalid
    ensures forall a | a in OnHfpPacket(v, appState, s, p).trace :: !a.ScoDemoReceive?
  {
  }

  /** The handles after a sequence of packets; the application state is held
      fixed, since the handles never depend on it. */
  function RunHfp(v: Variant, appState: AppState, s: Handles, ps: seq<HfpPacket>): Handles
    decreases |ps|
  {
    if ps == [] then s else RunHfp(v, appState, OnHfpPacket(v, appState, s, ps[0]).state, ps[1..])
  }

  /** The packets that decide the ACL handle. */
  predicate DecidesAcl(v: Variant, p: HfpPacket)
  {
    p == HfpMeta(SlcReleased) || (v == StoresAcl && IsSuccessfulSlc(p))
  }

  /** The packets that decide the SCO handle. */
  predicate DecidesSco(p: HfpPacket)
  {
    p == HfpMeta(AudioReleased) || IsSuccessfulAudio(p)
  }

  /** Reference reading of the ACL handle: the one the last deciding packet
      names, or `acl` when there is none. */
  function ExpectedAcl(v: Variant, acl: uint16, ps: seq<HfpPacket>): uint16
    decreases |ps|
  {
    if ps == [] then acl
    else
      var last := ps[|ps| - 1];
      if last == HfpMeta(SlcReleased) then HandleInvalid
      else if DecidesAcl(v, last) then last.event.acl
      else ExpectedAcl(v, acl, ps[..|ps| - 1])
  }

  /** Reference reading of the SCO handle, likewise. */
  function ExpectedSco(sco: uint16, ps: seq<HfpPacket>): uint16
    decreases |ps|
  {
    if ps == [] then sco
    else
      var last := ps[|ps| - 1];
      if last == HfpMeta(AudioReleased) then HandleInvalid
      else if DecidesSco(last) then last.event.sco
      else ExpectedSco(sco, ps[..|ps| - 1])
  }

  lemma {:induction false} RunHfpSnoc(v: Variant, appState: AppState, s: Handles, ps: seq<HfpPacket>, p: HfpPacket)
    ensures RunHfp(v, appState, s, ps + [p]) == OnHfpPacket(v, appState, RunHfp(v, appState, s, ps), p).state
    decreases |ps|
  {
    if ps == [] {
      assert [p][1..] == [];
    } else {
      assert (ps + [p])[1..] == ps[1..] + [p];
      RunHfpSnoc(v, appState, OnHfpPacket(v, appState, s, ps[0]).state, ps[1..], p);
    }
  }

  /** Every run ends with the handles the reference readings give: each
      handle is the one its last deciding packet set, and packets that fail
      or decide nothing leave it alone. */
  lemma {:induction false} RunHfpMatchesExpected(v: Variant, appState: AppState, s: Handles, ps: seq<HfpPacket>)
    ensures RunHfp(v, appState, s, ps).acl == ExpectedAcl(v, s.acl, ps)
    ensures RunHfp(v, appState, s, ps).sco == ExpectedSco(s.sco, ps)
    decreases |ps|
  {
    if ps != [] {
      var init, last := ps[..|ps| - 1], ps[|ps| - 1];
      assert ps == init + [last];
      RunHfpMatchesExpected(v, appState, s, init);
      RunHfpSnoc(v, appState, s, init, last);
    }
  }

  /** The newer combined demo never holds a valid ACL handle: from power-on
      every reading is the invalid handle. */
  lemma {:induction false} ConnectsHidNeverStoresAcl(ps: seq<HfpPacket>)
    ensures ExpectedAcl(ConnectsHid, HandleInvalid, ps) == HandleInvalid
    decreases |ps|
  {
    if ps != [] {
      ConnectsHidNeverStoresAcl(ps[..|ps| - 1]);
    }
  }

  /** The ACL handle of the newer combined demo is invalid after every run. */
  lemma ConnectsHidAclInvalid(appState: AppState, ps: seq<HfpPacket>)
    ensures RunHfp(ConnectsHid, appState, InitHandles, ps).acl == HandleInvalid
  {
    RunHfpMatchesExpected(ConnectsHid, appState, InitHandles, ps);
    ConnectsHidNeverStoresAcl(ps);
  }

  /** The ready-for-audio report that follows an enhanced voice recognition
      activation names the ACL handle of the last service level connection
      that came up, or the invalid handle once it was released or before
      any came up. */
  lemma ReadyForAudioNamesLastSlc(appState: AppState, ps: seq<HfpPacket>, p: HfpPacket)
    requires IsEnhancedVoiceRecognition(p)
    ensures OnHfpPacket(StoresAcl, appState, RunHfp(StoresAcl, appState, InitHandles, ps), p).trace
            == [ReportReadyForAudio(ExpectedAcl(StoresAcl, HandleInvalid, ps))]
  {
    RunHfpMatchesExpected(StoresAcl, appState, InitHandles, ps);
  }

  /** The two handlers agree on everything but the ACL handle. */
  lemma VariantsAgreeOnSco(appState: AppState, s: Handles, p: HfpPacket)
    ensures OnHfpPacket(StoresAcl, appState, s, p).state.sco == OnHfpPacket(ConnectsHid, appState, s, p).state.sco
    ensures OnHfpPacket(StoresAcl, appState, s, p).state.deviceAddr
            == OnHfpPacket(ConnectsHid, appState, s, p).state.deviceAddr
  {
  }
}
