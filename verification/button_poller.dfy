/**
 The single-key demos: a button sampled every 10 ms, and for each sample one
 report, the key 'q' while the button is down and the release report while
 it is up. There is no debouncing and no edge detection.

 The demos sample in two ways: a FreeRTOS task (`task_button_monitor`) or a
 run-loop timer handler (`button_monitor_handler`), and they build the 'q'
 report in three ways: through the US-layout resolver, through
 `send_report` with the literal usage, or as a literal byte array.
 */
module ButtonPoller {
  import opened Common
  import opened KeyTables
  import opened Reports
  import opened Actions

  /** `HID_KEY_Q`: the Keyboard/Keypad usage of the 'q' key. */
  const HidKeyQ: byte := 0x14

  /** The poll period: the task's `vTaskDelay(10 / portTICK_PERIOD_MS)` and
      the timer's re-arm interval. */
  const PollPeriodMs: nat := 10

  /** No modifier and no key: what the outputs hold before a lookup. */
  const NoKey: KeyStroke := KeyStroke(0, 0)

  /** The key a sample asks for: 'q' while pressed, nothing otherwise. */
  function KeyForSample(pressed: bool): KeyStroke
  {
    if pressed then KeyStroke(0, HidKeyQ) else NoKey
  }

  /** `send_report(modifier, keycode)` on channel `cid`. */
  function SendReport(cid: uint16, modifier: byte, keycode: byte): (a: Action)
    ensures a.SendInterruptMessage? && a.cid == cid
    ensures ParseKeyReport(a.message) == Some(KeyStroke(modifier, keycode))
  {
    ParseKeyReportRoundTrip(KeyStroke(modifier, keycode));
    SendInterruptMessage(cid, KeyReport(modifier, keycode))
  }

  /** `send_key_q` of the typing demo: both outputs start at 0 and are
      overwritten by the resolver, whose answer for 'q' is usage 0x14
      without modifier. */
  function SendKeyQByLookup(cid: uint16): (a: Action)
    ensures a == SendReport(cid, 0, HidKeyQ)
  {
    ResolveLowerQ();
    var k := match Resolve(UsLayout, 'q') case Some(k) => k case None => NoKey;
    SendReport(cid, k.modifier, k.keycode)
  }

  /** `send_key_q` of hid_single_key: `send_report` with the literal usage. */
  function SendKeyQ(cid: uint16): (a: Action)
    ensures a.SendInterruptMessage? && ParseKeyReport(a.message) == Some(KeyForSample(true))
  {
    SendReport(cid, 0, HidKeyQ)
  }

  /** `send_key_q` of hid_single_key_q: the report written out byte by byte. */
  function SendKeyQBytes(cid: uint16): (a: Action)
    ensures a == SendKeyQ(cid)
  {
    SendInterruptMessage(cid, [0xA1, 0x01, 0, 0, HidKeyQ, 0, 0, 0, 0, 0])
  }

  /** `release_key` of hid_single_key_q: the release report written out byte
      by byte, on the current channel. */
  function ReleaseKeyBytes(cid: uint16): (a: Action)
    ensures a == SendReport(cid, 0, 0)
  {
    SendInterruptMessage(cid, [0xA1, 0x01, 0, 0, 0, 0, 0, 0, 0, 0])
  }

  /** `release_key` of the typing demo and of hid_single_key: a 9-byte
      message on channel 0, which no poll loop calls. */
  function ReleaseKeyShort(): (a: Action)
    ensures a.SendInterruptMessage? && a.cid == 0
    ensures ParseKeyReport(a.message) == None && a.message + [0] == ReleaseReport
  {
    ShortReleaseIsTruncated();
    SendInterruptMessage(0, ShortReleaseMessage)
  }

  /** How a demo builds the 'q' report in its poll loop. */
  datatype Variant =
    /** hfp_hid_muti/main/old/hid_single_key.c: through the resolver. */
    | ByLookup
    /** hid_single_key/main/hid_single_key.c: through `send_report`. */
    | ByUsage
    /** hid_single_key_q/main/hid_single_key_q.c: literal byte arrays. */
    | ByBytes

  /** One iteration of `task_button_monitor`: the one message sent for the
      sampled level. */
  function TaskIteration(v: Variant, cid: uint16, pressed: bool): (a: Action)
    ensures a.SendInterruptMessage? && a.cid == cid
    ensures ParseKeyReport(a.message) == Some(KeyForSample(pressed))
  {
    if pressed then
      match v
      case ByLookup => SendKeyQByLookup(cid)
      case ByUsage => SendKeyQ(cid)
      case ByBytes => SendKeyQBytes(cid)
    else
      match v
      case ByBytes => ReleaseKeyBytes(cid)
      case _ => SendReport(cid, 0, 0)
  }

  /** A run of `button_monitor_handler`: one message and the interval it
      re-arms its timer with. */
  datatype HandlerRun = HandlerRun(sent: Action, rearmMs: nat)

  /** `button_monitor_handler` of hid_single_key and of hfp_hid_muti: the
      report for the sample, then a re-arm after the poll period. */
  function MonitorHandler(cid: uint16, pressed: bool): (r: HandlerRun)
    ensures r.rearmMs == PollPeriodMs
    ensures r.sent.SendInterruptMessage? && r.sent.cid == cid
    ensures ParseKeyReport(r.sent.message) == Some(KeyForSample(pressed))
  {
    HandlerRun(if pressed then SendReport(cid, 0, HidKeyQ) else SendReport(cid, 0, 0), PollPeriodMs)
  }

  /** Every demo sends the same message for the same sample, whichever way
      it builds it and whether a task or a timer samples. */
  lemma VariantsAgree(v: Variant, cid: uint16, pressed: bool)
    ensures TaskIteration(v, cid, pressed) == MonitorHandler(cid, pressed).sent
  {
    var a := TaskIteration(v, cid, pressed);
    KeyReportFromParse(a.message);
  }

  /** The poll loop over a sequence of samples: exactly one message per
      sample, the i-th decided by the i-th sample alone. */
  method PollLoop(v: Variant, cid: uint16, samples: seq<bool>) returns (trace: seq<Action>)
    ensures |trace| == |samples|
    ensures forall i | 0 <= i < |samples| :: trace[i] == MonitorHandler(cid, samples[i]).sent
  {
    trace := [];
    var i := 0;
    while i < |samples|
      invariant 0 <= i <= |samples| && |trace| == i
      invariant forall j | 0 <= j < i :: trace[j] == MonitorHandler(cid, samples[j]).sent
    {
      VariantsAgree(v, cid, samples[i]);
      trace := trace + [TaskIteration(v, cid, samples[i])];
      i := i + 1;
    }
  }

  /** Holding the button sends a 'q' report on every tick, so the host sees
      one uninterrupted press, and releasing it sends release reports; two
      runs of samples that differ in one tick differ in exactly that
      report. */
  lemma NoDebounce(cid: uint16, samples: seq<bool>, k: nat)
    requires k < |samples|
    ensures forall i | 0 <= i < |samples| && i != k ::
              MonitorHandler(cid, samples[k := !samples[k]][i]).sent == MonitorHandler(cid, samples[i]).sent
    ensures MonitorHandler(cid, samples[k := !samples[k]][k]).sent != MonitorHandler(cid, samples[k]).sent
  {
    var a := MonitorHandler(cid, samples[k]).sent;
    var b := MonitorHandler(cid, !samples[k]).sent;
    assert ParseKeyReport(a.message) != ParseKeyReport(b.message);
  }
}
