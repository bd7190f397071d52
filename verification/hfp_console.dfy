/**
 The console of the Hands-Free demos: `stdin_process` maps one typed
 character to one Hands-Free profile request with fixed arguments, records
 the character for the completion report, and prints a failure line when the
 request is refused. The two copies of `stdin_process` (the Hands-Free demo
 and the older combined demo) are identical and share this model.
 */
module HfpConsole {
  import opened Common

  /** The request a character selects, with the arguments the console fixes. */
  datatype Command =
    | SendDtmf(code: char)
    | EstablishServiceLevelConnection
    | ReleaseServiceLevelConnection
    | EstablishAudioConnection
    | ReleaseAudioConnection
    | EnableIndicatorStatusUpdate
    | DisableIndicatorStatusUpdate
    | SetIndividualIndicatorStatusUpdate(bitmap: nat)
    | QueryOperatorSelection
    | EnableExtendedErrorResultCode
    | DisableExtendedErrorResultCode
    | AnswerIncomingCall
    | TerminateCall
    | RejectIncomingCall
    | Disconnect
    | DialNumber(number: string)
    | DialMemory(slot: nat)
    | DeactivateCallWaitingNotification
    | ActivateCallWaitingNotification
    | DeactivateCallingLineNotification
    | ActivateCallingLineNotification
    | DeactivateEchoCancelingAndNoiseReduction
    | DeactivateVoiceRecognition
    | ActivateVoiceRecognition
    | SetSpeakerGain(gain: nat)
    | SetMicrophoneGain(gain: nat)
    | UserBusy
    | EndActiveAndAcceptOther
    | SwapCalls
    | JoinHeldCall
    | ConnectCalls
    | RedialLastNumber
    | RequestPhoneNumberForVoiceTag
    | QueryCurrentCallStatus
    | ReleaseCallWithIndex(index: nat)
    | PrivateConsultationWithCall(index: nat)
    | ResponseAndHoldQueryStatus
    | ResponseAndHoldHoldCall
    | ResponseAndHoldAcceptHeldCall
    | ResponseAndHoldRejectHeldCall
    | QuerySubscriberNumber
    | SetHfIndicator(assignedNumber: nat, value: nat)
    | ShowUsage

  predicate IsDigit(c: char)
  {
    '0' <= c <= '9'
  }

  /** The DTMF characters the console sends besides the digits. */
  const DtmfSymbols: set<char> := {'#', '-', '+', '*'}

  /** The characters the `switch` of `stdin_process` has a case for. */
  predicate IsSwitchKey(c: char)
  {
    c in {
      '#', '-', '+', '*',
      'a', 'A', 'b', 'B', 'C', 'c', 'D', 'd', 'E', 'e', 'f', 'F', 'G',
      'g', 't', 'i', 'I', 'j', 'J', 'k', 'K', 'l', 'L', 'm', 'n', 'N',
      'o', 'O', 'p', 'P', 'q', 'Q', 's', 'S', 'u', 'U', 'v', 'V', 'w',
      'W', 'x', 'X', 'y', 'Y', '[', ']', '{', '}', '?', '!'}
  }

  /** The largest speaker or microphone gain the Hands-Free Profile allows:
      both gains range over 0 to 15. */
  const MaxGain: nat := 15

  /** The request a character selects. */
  function Decode(c: char): (r: Command)
    ensures IsDigit(c) ==> r == SendDtmf(c)
    ensures r.SendDtmf? ==> r.code == c && (IsDigit(c) || c in DtmfSymbols)
    ensures r.SetSpeakerGain? ==> r.gain in {0, 9, 12, 15} && r.gain <= MaxGain
    ensures r.SetMicrophoneGain? ==> r.gain in {0, 9, 12, 15} && r.gain <= MaxGain
  {
    if IsDigit(c) then SendDtmf(c)
    else
      match c
      case '#' => SendDtmf(c)
      case '-' => SendDtmf(c)
      case '+' => SendDtmf(c)
      case '*' => SendDtmf(c)
      case 'a' => EstablishServiceLevelConnection
      case 'A' => ReleaseServiceLevelConnection
      case 'b' => EstablishAudioConnection
      case 'B' => ReleaseAudioConnection
      case 'C' => EnableIndicatorStatusUpdate
      case 'c' => DisableIndicatorStatusUpdate
      case 'D' => SetIndividualIndicatorStatusUpdate(63)
      case 'd' => QueryOperatorSelection
      case 'E' => EnableExtendedErrorResultCode
      case 'e' => DisableExtendedErrorResultCode
      case 'f' => AnswerIncomingCall
      case 'F' => TerminateCall
      case 'G' => RejectIncomingCall
      case 'g' => QueryOperatorSelection
      case 't' => Disconnect
      case 'i' => DialNumber("1234567")
      case 'I' => DialNumber("7654321")
      case 'j' => DialMemory(1)
      case 'J' => DialMemory(99)
      case 'k' => DeactivateCallWaitingNotification
      case 'K' => ActivateCallWaitingNotification
      case 'l' => DeactivateCallingLineNotification
      case 'L' => ActivateCallingLineNotification
      case 'm' => DeactivateEchoCancelingAndNoiseReduction
      case 'n' => DeactivateVoiceRecognition
      case 'N' => ActivateVoiceRecognition
      case 'o' => SetSpeakerGain(0)
      case 'O' => SetSpeakerGain(9)
      case 'p' => SetSpeakerGain(12)
      case 'P' => SetSpeakerGain(15)
      case 'q' => SetMicrophoneGain(0)
      case 'Q' => SetMicrophoneGain(9)
      case 's' => SetMicrophoneGain(12)
      case 'S' => SetMicrophoneGain(15)
      case 'u' => UserBusy
      case 'U' => EndActiveAndAcceptOther
      case 'v' => SwapCalls
      case 'V' => JoinHeldCall
      case 'w' => ConnectCalls
      case 'W' => RedialLastNumber
      case 'x' => RequestPhoneNumberForVoiceTag
      case 'X' => QueryCurrentCallStatus
      case 'y' => ReleaseCallWithIndex(2)
      case 'Y' => PrivateConsultationWithCall(2)
      case '[' => ResponseAndHoldQueryStatus
      case ']' => ResponseAndHoldHoldCall
      case '{' => ResponseAndHoldAcceptHeldCall
      case '}' => ResponseAndHoldRejectHeldCall
      case '?' => QuerySubscriberNumber
      case '!' => SetHfIndicator(1, 1)
      case _ => ShowUsage
  }

  /** The character that selects a request, when one does; of the two
      characters that select the operator query, 'd' is the one given. */
  function Encode(cmd: Command): (r: Option<char>)
    ensures r.Some? ==> IsSwitchKey(r.value) || IsDigit(r.value)
  {
    match cmd
    case SendDtmf(code) => if IsDigit(code) || code in DtmfSymbols then Some(code) else None
    case EstablishServiceLevelConnection => Some('a')
    case ReleaseServiceLevelConnection => Some('A')
    case EstablishAudioConnection => Some('b')
    case ReleaseAudioConnection => Some('B')
    case EnableIndicatorStatusUpdate => Some('C')
    case DisableIndicatorStatusUpdate => Some('c')
    case SetIndividualIndicatorStatusUpdate(bitmap) => if bitmap == 63 then Some('D') else None
    case QueryOperatorSelection => Some('d')
    case EnableExtendedErrorResultCode => Some('E')
    case DisableExtendedErrorResultCode => Some('e')
    case AnswerIncomingCall => Some('f')
    case TerminateCall => Some('F')
    case RejectIncomingCall => Some('G')
    case Disconnect => Some('t')
    case DialNumber(number) =>
      if number == "1234567" then Some('i') else if number == "7654321" then Some('I') else None
    case DialMemory(slot) => if slot == 1 then Some('j') else if slot == 99 then Some('J') else None
    case DeactivateCallWaitingNotification => Some('k')
    case ActivateCallWaitingNotification => Some('K')
    case DeactivateCallingLineNotification => Some('l')
    case ActivateCallingLineNotification => Some('L')
    case DeactivateEchoCancelingAndNoiseReduction => Some('m')
    case DeactivateVoiceRecognition => Some('n')
    case ActivateVoiceRecognition => Some('N')
    case SetSpeakerGain(gain) =>
      if gain == 0 then Some('o') else if gain == 9 then Some('O')
      else if gain == 12 then Some('p') else if gain == 15 then Some('P') else None
    case SetMicrophoneGain(gain) =>
      if gain == 0 then Some('q') else if gain == 9 then Some('Q')
      else if gain == 12 then Some('s') else if gain == 15 then Some('S') else None
    case UserBusy => Some('u')
    case EndActiveAndAcceptOther => Some('U')
    case SwapCalls => Some('v')
    case JoinHeldCall => Some('V')
    case ConnectCalls => Some('w')
    case RedialLastNumber => Some('W')
    case RequestPhoneNumberForVoiceTag => Some('x')
    case QueryCurrentCallStatus => Some('X')
    case ReleaseCallWithIndex(index) => if index == 2 then Some('y') else None
    case PrivateConsultationWithCall(index) => if index == 2 then Some('Y') else None
    case ResponseAndHoldQueryStatus => Some('[')
    case ResponseAndHoldHoldCall => Some(']')
    case ResponseAndHoldAcceptHeldCall => Some('{')
    case ResponseAndHoldRejectHeldCall => Some('}')
    case QuerySubscriberNumber => Some('?')
    case SetHfIndicator(assignedNumber, value) =>
      if assignedNumber == 1 && value == 1 then Some('!') else None
    case ShowUsage => None
  }

  lemma DecodeDtmfSymbol(c: char)
    requires c in DtmfSymbols
    ensures Decode(c) == SendDtmf(c)
  {
  }

  /** The requests the console makes with arguments it fixes. */
  predicate HasArguments(cmd: Command)
  {
    || cmd.SendDtmf? || cmd.SetIndividualIndicatorStatusUpdate? || cmd.DialNumber?
    || cmd.DialMemory? || cmd.SetSpeakerGain? || cmd.SetMicrophoneGain?
    || cmd.ReleaseCallWithIndex? || cmd.PrivateConsultationWithCall? || cmd.SetHfIndicator?
  }

  lemma DecodeEncodeWithArguments(cmd: Command)
    requires Encode(cmd).Some? && HasArguments(cmd) && !cmd.SendDtmf?
    ensures Decode(Encode(cmd).value) == cmd
  {
  }

  lemma DecodeEncodeWithoutArguments(cmd: Command)
    requires Encode(cmd).Some? && !HasArguments(cmd)
    ensures Decode(Encode(cmd).value) == cmd
  {
  }

  /** Decoding inverts encoding: the character given for a request selects
      that request. */
  lemma DecodeEncode(cmd: Command)
    requires Encode(cmd).Some?
    ensures Decode(Encode(cmd).value) == cmd
  {
    if cmd.SendDtmf? {
      if !IsDigit(cmd.code) {
        DecodeDtmfSymbol(cmd.code);
      }
    } else if HasArguments(cmd) {
      DecodeEncodeWithArguments(cmd);
    } else {
      DecodeEncodeWithoutArguments(cmd);
    }
  }

  /** Encoding inverts decoding on every character with a case of its own;
      'g' is the one alias, selecting the same request as 'd'. */
  lemma EncodeDecode(c: char)
    requires Decode(c) != ShowUsage && c != 'g'
    ensures Encode(Decode(c)) == Some(c)
  {
  }

  lemma OperatorQueryAlias()
    ensures Decode('g') == Decode('d') == QueryOperatorSelection
  {
  }

  /** Exactly the digits and the characters of the `switch` select a
      request; every other character shows the usage text. */
  lemma DecodeRecognises(c: char)
    ensures Decode(c) != ShowUsage <==> IsDigit(c) || IsSwitchKey(c)
  {
    if Decode(c) != ShowUsage && c != 'g' {
      EncodeDecode(c);
    }
    if c in DtmfSymbols {
      DecodeDtmfSymbol(c);
    }
  }

  /** Whether the request goes out on the service level connection's ACL
      handle: all do except establishing the connection, which goes to the
      remembered device address, and the usage text, which is local. */
  predicate OnAclHandle(cmd: Command)
  {
    cmd != EstablishServiceLevelConnection && cmd != ShowUsage
  }

  /** Whether the status of the call is checked: not for DTMF digits, which
      return before the status test, nor for the disconnect, whose result is
      dropped, nor for the usage text, which makes no call. */
  predicate StatusChecked(c: char)
  {
    !IsDigit(c) && Decode(c) != Disconnect && Decode(c) != ShowUsage
  }

  /** One call of `stdin_process`. */
  datatype ConsoleStep = ConsoleStep(
    /** The character recorded in `cmd` for the completion report. */
    cmd: char,
    /** The request made. */
    command: Command,
    /** The handle the request is addressed to, if it is addressed to one. */
    handle: Option<uint16>,
    /** Whether "Could not perform command" is printed. */
    failureReported: bool)

  /** `stdin_process(c)` with the ACL handle of the current connection and
      the status the profile call returns. */
  function StdinProcess(c: char, acl: uint16, callStatus: byte): (r: ConsoleStep)
    ensures r.cmd == c && r.command == Decode(c)
    ensures r.handle.Some? <==> OnAclHandle(Decode(c))
    ensures r.handle.Some? ==> r.handle.value == acl
    ensures r.failureReported <==> callStatus != StatusSuccess && StatusChecked(c)
  {
    var cmd := Decode(c);
    var handle := if OnAclHandle(cmd) then Some(acl) else None;
    if IsDigit(c) then
      ConsoleStep(c, cmd, handle, false)
    else
      var status := if cmd == Disconnect || cmd == ShowUsage then StatusSuccess else callStatus;
      ConsoleStep(c, cmd, handle, status != StatusSuccess)
  }

  /** A digit never reports a failure, whatever the call returns. */
  lemma DigitsNeverReportFailure(c: char, acl: uint16, callStatus: byte)
    requires IsDigit(c)
    ensures StdinProcess(c, acl, callStatus) == ConsoleStep(c, SendDtmf(c), Some(acl), false)
  {
  }

  /** The other DTMF characters do report a refused call. */
  lemma DtmfSymbolsReportFailure(c: char, acl: uint16, callStatus: byte)
    requires c in DtmfSymbols && callStatus != StatusSuccess
    ensures StdinProcess(c, acl, callStatus).command == SendDtmf(c)
    ensures StdinProcess(c, acl, callStatus).failureReported
  {
  }

  /** What reaches the console: a typed character, with the status the
      profile call it selects returns, or a completion event. */
  datatype ConsoleInput =
    | Typed(c: char, callStatus: byte)
    /** HFP_SUBEVENT_COMPLETE with the status of the last request. */
    | Completed(status: byte)

  /** The line the completion handler prints: the recorded character and
      whether the request succeeded. */
  datatype CompletionReport = CompletionReport(cmd: char, succeeded: bool)

  /** The `HFP_SUBEVENT_COMPLETE` branch. */
  function OnComplete(cmd: char, status: byte): (r: CompletionReport)
    ensures r.cmd == cmd
    ensures r.succeeded <==> status == StatusSuccess
  {
    CompletionReport(cmd, status == StatusSuccess)
  }

  /** Runs the console and the completion handler over a sequence of inputs,
      starting from the recorded character `cmd`; returns the completion
      reports printed. */
  function RunConsole(cmd: char, ins: seq<ConsoleInput>): seq<CompletionReport>
    decreases |ins|
  {
    if ins == [] then []
    else
      match ins[0]
      case Typed(c, callStatus) => RunConsole(StdinProcess(c, 0, callStatus).cmd, ins[1..])
      case Completed(status) => [OnComplete(cmd, status)] + RunConsole(cmd, ins[1..])
  }

  /** The character typed last among `ins`, or `cmd` if none was. */
  function LastTyped(cmd: char, ins: seq<ConsoleInput>): char
    decreases |ins|
  {
    if ins == [] then cmd
    else if ins[|ins| - 1].Typed? then ins[|ins| - 1].c
    else LastTyped(cmd, ins[..|ins| - 1])
  }

  lemma {:induction false} LastTypedCons(cmd: char, ins: seq<ConsoleInput>)
    requires ins != []
    ensures LastTyped(cmd, ins) == LastTyped(if ins[0].Typed? then ins[0].c else cmd, ins[1..])
    decreases |ins|
  {
    if |ins| > 1 {
      assert ins[..|ins| - 1][0] == ins[0];
      assert ins[..|ins| - 1][1..] == ins[1..][..|ins[1..]| - 1];
      LastTypedCons(cmd, ins[..|ins| - 1]);
    }
  }

  /** The number of completion events among `ins`. */
  function CountCompleted(ins: seq<ConsoleInput>): nat
    decreases |ins|
  {
    if ins == [] then 0 else (if ins[0].Completed? then 1 else 0) + CountCompleted(ins[1..])
  }

  /** One report per completion event, and nothing else. */
  lemma {:induction false} RunConsoleLength(cmd: char, ins: seq<ConsoleInput>)
    ensures |RunConsole(cmd, ins)| == CountCompleted(ins)
    decreases |ins|
  {
    if ins != [] {
      RunConsoleLength(if ins[0].Typed? then ins[0].c else cmd, ins[1..]);
    }
  }

  /** The report of the completion event at position `k` is the one numbered
      by the completions before it, and it names the character typed last
      before it. */
  lemma {:induction false} CompletionNamesLastTyped(cmd: char, ins: seq<ConsoleInput>, k: nat)
    requires k < |ins| && ins[k].Completed?
    ensures CountCompleted(ins[..k]) < |RunConsole(cmd, ins)|
    ensures RunConsole(cmd, ins)[CountCompleted(ins[..k])] == OnComplete(LastTyped(cmd, ins[..k]), ins[k].status)
    decreases |ins|
  {
    var cmd1 := if ins[0].Typed? then ins[0].c else cmd;
    var tail := RunConsole(cmd1, ins[1..]);
    assert RunConsole(cmd, ins) == (if ins[0].Typed? then tail else [OnComplete(cmd, ins[0].status)] + tail);
    if k == 0 {
      assert ins[..k] == [];
    } else {
      CompletionNamesLastTyped(cmd1, ins[1..], k - 1);
      assert ins[..k][0] == ins[0];
      assert ins[..k][1..] == ins[1..][..k - 1];
      LastTypedCons(cmd, ins[..k]);
    }
  }
}
