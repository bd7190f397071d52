/**
 Framing of keyboard input reports as the HID device sends them on the
 interrupt channel: the Bluetooth HID transaction header DATA|Input (0xA1),
 the report id, then the 8-byte boot keyboard input report of Appendix B.1 of
 the USB HID Device Class Definition 1.11 (modifier byte, reserved byte, six
 key slots of which only the first is used).
 */
module Reports {
  import opened Common
  import opened KeyTables

  /** Transaction header: DATA (0xA) with report type Input (0x1). */
  const DataInputHeader: byte := 0xA1

  /** REPORT_ID of the keyboard's report descriptor. */
  const ReportId: byte := 0x01

  /** Header, report id and the 8-byte boot report. */
  const KeyReportLength: nat := 10

  /** `send_report(modifier, keycode)`: the one-key input report. The C
      parameters are `int` copied into a `uint8_t` array; every caller passes
      a `uint8_t`, so the copy never truncates and the model takes bytes. */
  function KeyReport(modifier: byte, keycode: byte): (m: seq<byte>)
    ensures |m| == KeyReportLength
    ensures m[..2] == [DataInputHeader, ReportId]
  {
    [DataInputHeader, ReportId, modifier, 0, keycode, 0, 0, 0, 0, 0]
  }

  /** The release ("no key pressed") report. */
  const ReleaseReport: seq<byte> := KeyReport(0, 0)

  /** The reading a host applies to an interrupt message: a one-key report
      yields its modifier and first key slot; any other framing (wrong length,
      header or report id, nonzero reserved byte or second-to-sixth key slot)
      yields nothing. */
  function ParseKeyReport(m: seq<byte>): (r: Option<KeyStroke>)
    ensures r.Some? <==>
              |m| == KeyReportLength && m[0] == DataInputHeader && m[1] == ReportId
              && m[3] == 0 && m[5..] == [0, 0, 0, 0, 0]
    ensures r.Some? ==> r.value.modifier == m[2] && r.value.keycode == m[4]
  {
    if |m| == KeyReportLength && m[0] == DataInputHeader && m[1] == ReportId
       && m[3] == 0 && m[5..] == [0, 0, 0, 0, 0]
    then Some(KeyStroke(m[2], m[4]))
    else None
  }

  /** Parsing recovers the key a report was built from. */
  lemma ParseKeyReportRoundTrip(k: KeyStroke)
    ensures ParseKeyReport(KeyReport(k.modifier, k.keycode)) == Some(k)
  {
  }

  /** Every message that parses is exactly the report of the key it parses
      to, so `KeyReport` is onto the parseable messages. */
  lemma KeyReportFromParse(m: seq<byte>)
    requires ParseKeyReport(m).Some?
    ensures KeyReport(ParseKeyReport(m).value.modifier, ParseKeyReport(m).value.keycode) == m
  {
    var k := ParseKeyReport(m).value;
    var r := KeyReport(k.modifier, k.keycode);
    assert m[5..] == r[5..];
    assert forall i | 0 <= i < 5 :: m[i] == r[i];
    assert m == m[..5] + m[5..];
  }

  /** Two reports are equal only when their keys are. */
  lemma KeyReportInjective(a: KeyStroke, b: KeyStroke)
    ensures KeyReport(a.modifier, a.keycode) == KeyReport(b.modifier, b.keycode) <==> a == b
  {
    ParseKeyReportRoundTrip(a);
    ParseKeyReportRoundTrip(b);
  }

  /** The release report is the report of "no modifier, no key". */
  lemma ReleaseReportIsEmptyKey()
    ensures ParseKeyReport(ReleaseReport) == Some(KeyStroke(0, 0))
    ensures forall i | 2 <= i < |ReleaseReport| :: ReleaseReport[i] == 0
  {
  }

  /** The 9-byte release message `release_key` builds in the single-key
      demos: header, report id and seven zero bytes, one short of a boot
      report. */
  const ShortReleaseMessage: seq<byte> := [DataInputHeader, ReportId, 0, 0, 0, 0, 0, 0, 0]

  /** The short release message is the release report with its last key
      slot missing, so it is not a well-formed one-key report. */
  lemma ShortReleaseIsTruncated()
    ensures |ShortReleaseMessage| == KeyReportLength - 1
    ensures ShortReleaseMessage + [0] == ReleaseReport
    ensures ParseKeyReport(ShortReleaseMessage) == None
  {
  }
}
