# AmazeDevice firmware core, modelled in Dafny

The firmware is a set of ESP32 demos over the BTstack Bluetooth stack: an HID
keyboard that types a demo text or sends the key 'q' while a button is held,
a Hands-Free (HFP) unit driven from a serial console, and a combined demo that
runs both profiles. This project models the parts of it that are the
firmware's own logic rather than calls into the stack:

- **Key tables** (`keytables.dfy`, module `KeyTables`). The two 101-entry US
  tables map a usage of the Keyboard/Keypad page (section 10 of the USB HID
  Usage Tables 1.12) to a character. `lookup_keycode` and
  `keycode_and_modifer_us_for_character` resolve a character by a first-match
  scan: the unshifted table first (modifier 0), then the shifted one
  (modifier 2, left Shift).
- **Report framing** (`reports.dfy`, module `Reports`). This is the 10-byte
  input report `A1 01 modifier 0 keycode 0 0 0 0 0`: the DATA/Input header,
  the report id, and the boot keyboard report of Appendix B.1 of the USB HID
  Device Class Definition 1.11. A parser is the partner of the framer, and
  the 9-byte `release_key` message is shown not to be a report.
- **Typing emitter** (`emitter.dfy`, module `TypingEmitter`). It models
  `queue_character`, `send_next`, `trigger_key_up`, the
  `HID_SUBEVENT_CAN_SEND_NOW` branch, the close handling and the demo-text
  cycler (`demo_text.dfy`, module `DemoText`). It is a step function over an
  emitter record and an event, and returns the new record and the calls it
  made. Runs from power-on are proved to:
  - read characters in the order they were written;
  - send only well-formed one-key reports;
  - alternate each key-down with a release;
  - send exactly the key-downs that the characters read resolve to.

  An idle emitter is also proved to type a resolvable character in full and
  to return to idle. The step used for runs re-arms with the corrected
  `send_next` described under "## Findings"; `send_next` as written is
  modelled beside it.
- **HID link bookkeeping** (`hid_link.dfy`, module `HidLink`). This covers
  `app_state` and `hid_cid` in each HID packet handler. A reference reading
  ("the last deciding event wins") is proved equal to every run of an HID
  handler. The status-blind handler of hid_single_key_q is modelled as well.
- **Button poller** (`button_poller.dfy`, module `ButtonPoller`). One report
  is sent per 10 ms sample. The 'q' report is built three ways; the three are
  proved to give the same message.
- **HFP console** (`hfp_console.dfy`, module `HfpConsole`). This is
  `stdin_process`:
  - a total map from a character to a Hands-Free request with fixed
    arguments;
  - its inverse;
  - the rule deciding when "Could not perform command" is printed;
  - the recorded `cmd` that the completion handler reports.
- **HFP handles** (`hfp_handles.dfy`, module `HfpHandles`). This covers
  `acl_handle` and `sco_handle` set by success events and invalidated by
  release events, plus the SCO data filter. In the newer combined demo,
  `acl_handle` is never stored, and an HID connection is requested when the
  service level connection comes up.
- **Combined demo** (`combined_demo.dfy`, module `CombinedDemo`). The newer
  combined demo runs both handlers. `hid_device_connect(device_addr,
  &hid_cid)` lets the stack store a channel id into `hid_cid` from the
  Hands-Free handler. The reading of `hid_cid` there is the last write by
  either handler.

Stack calls are not executed. `hid_device_send_interrupt_message`,
`hid_device_request_can_send_now_event`, `hid_device_connect`, the ring-buffer
read and write, the `sco_demo_*` calls and
`hfp_hf_enhanced_voice_recognition_report_ready_for_audio` all become `Actions.Action` values
in a returned trace. Button levels, typed characters and stack events are
inputs.

Two behaviours of the code a reader may not expect:

- A closed HID connection removes the send timer but leaves `send_active` set
  (old/hid_single_key.c:287-293). After a close during typing, the emitter
  therefore never types again (`TypingEmitter.CloseWhileActiveStalls`,
  `TypingEmitter.StalledForever`, `TypingEmitter.CloseWhileHeldStalls`); it
  does not return to idle.
- `HID_SUBEVENT_CAN_SEND_NOW` is acted on whatever `app_state` is. No
  connection-state gating exists (`TypingEmitter.CanSendNowIgnoresAppState`).

## Model

| member | source | states |
|---|---|---|
| KeyTables.UsLayoutSize | hfp_hid_muti/main/old/hid_single_key.c:88-124 | both US tables hold 101 entries, usages 0 to 100, so every index fits the keycode byte |
| KeyTables.FirstIndexFrom | hfp_hid_muti/main/old/hid_single_key.c:151-159 | the scan from `from` stops at the first position holding the character; it finds none exactly when no later position holds it |
| KeyTables.FirstIndexIsFirstOccurrence | hfp_hid_muti/main/old/hid_single_key.c:151-159 | the scan from 0 succeeds iff the character is in the table, and the index it returns is the character's first occurrence |
| KeyTables.LookupKeycode | hfp_hid_muti/main/old/hid_single_key.c:151-159 | `lookup_keycode` reports found iff the character is in the table; on success it writes the first index; on failure the output keeps its old value |
| KeyTables.Resolve | hfp_hid_muti/main/old/hid_single_key.c:161-174 | a character in the unshifted table gets modifier 0 and its first index there; else one in the shifted table gets modifier 2 and its first index there; no answer iff it is in neither |
| KeyTables.ResolveBounds | hfp_hid_muti/main/old/hid_single_key.c:161-174 | with the US tables every resolved keycode is below 101 and every modifier is 0 or 2 |
| KeyTables.KeycodeAndModifierForCharacter | hfp_hid_muti/main/old/hid_single_key.c:161-174 | found iff the character is in either table; when found the outputs are the resolved key; otherwise both outputs are left as they were |
| KeyTables.ResolveMinusFirstMatch | hfp_hid_muti/main/old/hfp_hid_muti.c:738-756 | '-' also sits at index 86 of the unshifted table, yet resolves to usage 45 without modifier |
| KeyTables.ResolveStarPrefersUnshifted | hfp_hid_muti/main/old/hfp_hid_muti.c:738-774 | '*' sits at index 37 of the shifted table, yet resolves to keypad usage 85 without modifier, because the unshifted table is searched first |
| KeyTables.ResolveLowerQ | hfp_hid_muti/main/old/hid_single_key.c:355-364 | 'q' resolves to usage 0x14 without modifier |
| KeyTables.ResolveUpperQ | hfp_hid_muti/main/old/hfp_hid_muti.c:810-823 | 'Q' is not in the unshifted table and resolves to usage 0x14 with the shift modifier |
| KeyTables.ResolveOutsideTables | hfp_hid_muti/main/old/hid_single_key.c:161-174 | character 0x80 is in neither table and does not resolve |
| KeyTables.ResolveCharIllegal | hfp_hid_muti/main/old/hfp_hid_muti.c:727-739 | CHAR_ILLEGAL (0xff) fills index 0 of the unshifted table, so it resolves to usage 0 without modifier |
| Reports.KeyReport | hfp_hid_muti/main/old/hid_single_key.c:176-180 | a report is 10 bytes that start with the input header 0xA1 and report id 1 |
| Reports.ParseKeyReport | hfp_hid_muti/main/old/hid_single_key.c:176-180 | a message is accepted iff it is 10 bytes with that header and id, a zero reserved byte 3 and zero key slots 5 to 9; it yields byte 2 as modifier and byte 4 as keycode |
| Reports.ParseKeyReportRoundTrip | hfp_hid_muti/main/old/hid_single_key.c:176-180 | parsing a framed report gives back its modifier and keycode |
| Reports.KeyReportFromParse | hfp_hid_muti/main/old/hid_single_key.c:176-180 | every accepted message is exactly the framing of the key it parses to |
| Reports.KeyReportInjective | hfp_hid_muti/main/old/hid_single_key.c:176-180 | two reports are equal iff their keys are equal |
| Reports.ReleaseReportIsEmptyKey | hid_single_key_q/main/hid_single_key_q.c:59-62 | the release report parses to no modifier and no key and has an all-zero payload |
| Reports.ShortReleaseIsTruncated | hfp_hid_muti/main/old/hid_single_key.c:366-369 | the `release_key` message is 9 bytes, the release report minus its last byte, and is not a report |
| ButtonPoller.SendReport | hfp_hid_muti/main/hfp_hid_muti.c:84-87 | `send_report` sends on `hid_cid` a message that parses to the given modifier and keycode |
| ButtonPoller.SendKeyQByLookup | hfp_hid_muti/main/old/hid_single_key.c:355-364 | resolving 'q' and sending the result is the report of usage 0x14 without modifier |
| ButtonPoller.SendKeyQ | hid_single_key/main/hid_single_key.c:159-163 | `send_key_q` sends a report of the key 'q' |
| ButtonPoller.SendKeyQBytes | hid_single_key_q/main/hid_single_key_q.c:53-56 | the literal byte array equals the framed report of usage 0x14 |
| ButtonPoller.ReleaseKeyBytes | hid_single_key_q/main/hid_single_key_q.c:59-62 | the literal release array on the current channel equals the framed report of no key |
| ButtonPoller.ReleaseKeyShort | hid_single_key/main/hid_single_key.c:166-169 | `release_key` sends on channel 0 a message one byte short of a release report, which no parser accepts |
| ButtonPoller.TaskIteration | hid_single_key_q/main/hid_single_key_q.c:65-74 | one task iteration sends exactly one message on `hid_cid`, whose key is 'q' when pressed and none when released |
| ButtonPoller.MonitorHandler | hfp_hid_muti/main/hfp_hid_muti.c:105-115 | each timer tick sends one report chosen by the sample and re-arms for 10 ms |
| ButtonPoller.VariantsAgree | hid_single_key/main/hid_single_key.c:172-201 | the task and the timer handler, whichever way they build the 'q' report, send the same message for the same sample |
| ButtonPoller.PollLoop | hid_single_key/main/hid_single_key.c:172-181 | a run of the poll loop sends one message per sample, the i-th decided by the i-th sample |
| ButtonPoller.NoDebounce | hid_single_key/main/hid_single_key.c:189-201 | flipping one sample changes that tick's report and no other |
| HidLink.OnHidPacket | hfp_hid_muti/main/old/hid_single_key.c:258-293 | a failed open gives NOT_CONNECTED and cid 0; a successful open gives CONNECTED and the event's cid; a close gives NOT_CONNECTED and 0; a WORKING state event sets NOT_CONNECTED and keeps the cid; any other packet changes nothing, and only opens and closes change the cid |
| HidLink.RunLinkMatchesExpected | hid_single_key/main/hid_single_key.c:102-144 | after any packets from power-on, the state and cid are those named by the last deciding event |
| HidLink.CloseIdempotent | hid_single_key/main/hid_single_key.c:126-129 | a second close changes nothing |
| HidLink.NeverConnecting | hfp_hid_muti/main/hfp_hid_muti.c:292-337 | no handler step enters APP_CONNECTING |
| HidLink.OnHidPacketQ | hid_single_key_q/main/hid_single_key_q.c:77-110 | the status-blind handler takes the cid of every open, zeroes it on close, and is unmoved by stack-state events |
| HidLink.RunLinkQAgrees | hid_single_key_q/main/hid_single_key_q.c:91-98 | while every open succeeds, the status-blind handler tracks the same cid as the full one |
| HidLink.FailedOpenDiverges | hid_single_key_q/main/hid_single_key_q.c:91-94 | on a failed open the full handler drops the cid but the status-blind one adopts it |
| DemoText.TextCyclable | hfp_hid_muti/main/old/hid_single_key.c:221 | the demo text has 86 characters and no NUL inside it |
| DemoText.Tick | hfp_hid_muti/main/old/hid_single_key.c:225-232 | a tick queues the character at `demo_pos` and moves to the next position, wrapping to 0 before the terminating NUL |
| DemoText.TicksCycle | hfp_hid_muti/main/old/hid_single_key.c:225-239 | n ticks from position p queue the text cyclically from p and end at (p + n) mod length |
| DemoText.DemoCycle | hfp_hid_muti/main/old/hfp_hid_muti.c:868-888 | from power-on the i-th queued character is the text's character i mod 86 |
| TypingEmitter.InitFor | hfp_hid_muti/main/old/hid_single_key.c:136-141 | power-on: typing idle and the buffer empty |
| TypingEmitter.SendNextStep | hfp_hid_muti/main/old/hid_single_key.c:187-208 | empty buffer: typing stops; otherwise the first character is read, and it either becomes the pending key with a can-send-now request, or re-arms the delay timer with `send_next` and leaves the pending key |
| TypingEmitter.SendNextAsWritten | hfp_hid_muti/main/old/hid_single_key.c:200-206 | for an unresolvable character the timer is re-armed with whatever handler it already has |
| TypingEmitter.SendNextAgreesOnceInstalled | hfp_hid_muti/main/old/hid_single_key.c:187-208 | once `send_next` is the installed handler, the code as written and the corrected step agree |
| TypingEmitter.UnsetHandlerArmedAsWritten | hfp_hid_muti/main/old/hid_single_key.c:210-215 | queueing 0x80 first after power-on arms the send timer with no handler |
| TypingEmitter.QueueAsWritten | hfp_hid_muti/main/old/hid_single_key.c:210-215 | the character is written to the buffer before anything else |
| TypingEmitter.QueueStep | hfp_hid_muti/main/old/hid_single_key.c:210-215 | the write comes first, and a full buffer loses the character; while typing is active nothing else happens; otherwise `send_next` runs on the buffer after the write, and from idle a resolvable character becomes the pending key with a can-send-now request while an unresolvable one arms `send_next` |
| TypingEmitter.CanSendNowStep | hfp_hid_muti/main/old/hid_single_key.c:295-311 | a pending key is sent, then cleared, with the key-up timer armed for 20 ms; otherwise a release is sent with `send_next` armed for 20 ms; buffer, link and activity untouched |
| TypingEmitter.SendTimerStep | hfp_hid_muti/main/old/hid_single_key.c:182-185 | the key-up handler only requests can-send-now; the `send_next` handler is the `send_next` step |
| TypingEmitter.DemoStep | hfp_hid_muti/main/old/hid_single_key.c:225-239 | a demo tick writes the text character at `demo_pos` and advances the position cyclically; into a full buffer it only advances the position |
| TypingEmitter.HidStep | hfp_hid_muti/main/old/hid_single_key.c:258-293 | packets other than can-send-now and close update the link and nothing else; a close also disarms the send timer, leaves no can-send-now request outstanding and leaves everything else |
| TypingEmitter.StepPreservesInv | hfp_hid_muti/main/old/hid_single_key.c:187-215 | idle means an empty buffer, no pending key, no request and no timer; an armed timer has a handler and no pending key |
| TypingEmitter.RunPreservesInv | hfp_hid_muti/main/old/hid_single_key.c:187-215 | the invariant holds after every run |
| TypingEmitter.StepFifo | hfp_hid_muti/main/old/hid_single_key.c:187-215 | each step keeps "buffer before + written = read + buffer after" |
| TypingEmitter.RunFifo | hfp_hid_muti/main/old/hid_single_key.c:187-215 | over any run, the buffer before followed by the characters written equals the characters read followed by the buffer after |
| TypingEmitter.RunDowns | hfp_hid_muti/main/old/hid_single_key.c:295-311 | over any run, the key-downs sent followed by the one left pending equal the one pending before followed by the non-zero keys the characters read resolve to |
| TypingEmitter.RunAlt | hfp_hid_muti/main/old/hid_single_key.c:295-311 | every message sent is a one-key report, and key-down reports alternate with releases |
| TypingEmitter.EmitterFromPowerOn | hfp_hid_muti/main/old/hid_single_key.c:187-311 | from power-on, for any layout: reads are a prefix of writes; no malformed message; downs and releases alternate; the key-downs sent, then the pending one, are exactly the resolved characters read, in order |
| TypingEmitter.TypesOneCharacter | hfp_hid_muti/main/old/hid_single_key.c:182-311 | from idle, queueing a resolvable character and answering each request and timer sends its key-down and then the release on the current channel, and ends idle with nothing else changed |
| TypingEmitter.SkipsUnresolvable | hfp_hid_muti/main/old/hid_single_key.c:187-215 | from idle, a character that does not resolve is read, nothing is sent, and the emitter is idle once the delay expires |
| TypingEmitter.TypesQ | hfp_hid_muti/main/old/hid_single_key.c:182-311 | after power-on and a successful open on channel `cid`, typing 'q' sends the report of usage 0x14 and then the release report on `cid`, and ends idle and connected |
| TypingEmitter.CanSendNowIgnoresAppState | hfp_hid_muti/main/old/hfp_hid_muti.c:929-944 | the can-send-now branch neither reads nor changes `app_state` |
| TypingEmitter.CanSendNowWhileNotConnected | hfp_hid_muti/main/old/hid_single_key.c:295-311 | a can-send-now event while NOT_CONNECTED still sends one message |
| TypingEmitter.StalledForever | hfp_hid_muti/main/old/hid_single_key.c:287-293 | once active with no timer and no request outstanding, the emitter never sends or reads again |
| TypingEmitter.CloseWhileActiveStalls | hfp_hid_muti/main/old/hid_single_key.c:287-293 | a close at any point while typing is active, whatever is outstanding, leaves the emitter stalled and sends nothing |
| TypingEmitter.CloseWhileHeldStalls | hfp_hid_muti/main/old/hid_single_key.c:287-293 | queueing a key, sending its key-down, then closing the connection leaves the emitter stalled |
| TypingEmitter.TypingQThenCloseStalls | hfp_hid_muti/main/old/hid_single_key.c:287-293 | with the US tables, typing 'q' and closing before the release leaves the emitter stalled |
| HfpConsole.Decode | hfp_hf_demo/main/hfp_hf_demo.c:115-389 | digits and '#', '-', '+', '*' become DTMF of the same character; speaker and microphone gains are 0, 9, 12 or 15, never above 15 |
| HfpConsole.Encode | hfp_hf_demo/main/hfp_hf_demo.c:127-384 | the character that selects a request is one of the switch's cases or a digit |
| HfpConsole.DecodeEncode | hfp_hf_demo/main/hfp_hf_demo.c:127-384 | the character given for a request decodes back to that request |
| HfpConsole.EncodeDecode | hfp_hf_demo/main/hfp_hf_demo.c:127-384 | every recognised character other than 'g' is the one its request encodes to |
| HfpConsole.OperatorQueryAlias | hfp_hf_demo/main/hfp_hf_demo.c:170-204 | 'd' and 'g' both query the operator selection |
| HfpConsole.DecodeRecognises | hfp_hf_demo/main/hfp_hf_demo.c:115-389 | a character shows the usage text iff it is neither a digit nor one of the switch's cases |
| HfpConsole.DecodeDtmfSymbol | hfp_hf_demo/main/hfp_hf_demo.c:127-134 | '#', '-', '+', '*' send the DTMF code of the same character |
| HfpConsole.StdinProcess | hfp_hf_demo/main/hfp_hf_demo.c:115-393 | `cmd` records the character; the request goes to the ACL handle except for connection setup and usage; a failure line appears iff the call fails and the character is neither a digit, 't', nor unrecognised |
| HfpConsole.DigitsNeverReportFailure | hfp_hf_demo/main/hfp_hf_demo.c:120-124 | a digit sends its DTMF code and never prints a failure, whatever the call returns |
| HfpConsole.DtmfSymbolsReportFailure | hfp_hid_muti/main/old/hfp_hid_muti.c:136-143 | a failing DTMF symbol does print the failure line |
| HfpConsole.OnComplete | hfp_hf_demo/main/hfp_hf_demo.c:544-551 | the completion line names the recorded character and says success iff the status is success |
| HfpConsole.RunConsoleLength | hfp_hf_demo/main/hfp_hf_demo.c:544-551 | one completion line is printed per completion event |
| HfpConsole.CompletionNamesLastTyped | hfp_hf_demo/main/hfp_hf_demo.c:544-551 | the line for the completion at position k is the line numbered by the completions before it, and it names the character typed last before k |
| HfpHandles.ConnectionHandle | hfp_hf_demo/main/hfp_hf_demo.c:414 | the handle read from an SCO packet has 12 bits, so it is never the invalid handle |
| HfpHandles.OnHfpPacket | hfp_hf_demo/main/hfp_hf_demo.c:448-711 | failed setups change nothing; releases invalidate; a successful SLC stores the ACL handle (in the handlers that keep it) and the address, a successful audio setup stores the SCO handle, sets the codec and requests an SCO can-send-now; an audio release closes the SCO demo; an SCO can-send-now sends on the current SCO handle; SCO data is forwarded exactly when its handle is the current one; enhanced voice recognition reports ready-for-audio on the ACL handle; the newer demo asks for an HID connection on a successful SLC iff HID is not connected |
| HfpHandles.NothingForwardedWithoutAudio | hfp_hf_demo/main/hfp_hf_demo.c:457 | while `sco_handle` is invalid no SCO data reaches the audio code |
| HfpHandles.RunHfpMatchesExpected | hfp_hid_muti/main/old/hfp_hid_muti.c:479-532 | after any packets each handle is the one set by the last success or release that decides it |
| HfpHandles.ConnectsHidNeverStoresAcl | hfp_hid_muti/main/hfp_hid_muti.c:236-256 | in the newer combined demo, no packet sequence makes the ACL reading anything but invalid |
| HfpHandles.ConnectsHidAclInvalid | hfp_hid_muti/main/hfp_hid_muti.c:130 | its `acl_handle` stays invalid after every run from power-on |
| HfpHandles.ReadyForAudioNamesLastSlc | hfp_hf_demo/main/hfp_hf_demo.c:636-654 | the ready-for-audio report after enhanced voice recognition names the ACL handle of the last service level connection, or the invalid handle |
| HfpHandles.VariantsAgreeOnSco | hfp_hid_muti/main/hfp_hid_muti.c:258-275 | both handlers treat the SCO handle and the peer address identically |
| CombinedDemo.CombinedStep | hfp_hid_muti/main/hfp_hid_muti.c:236-321 | an HID packet moves the link as the HID handler does; a Hands-Free packet moves the handles as its handler does, keeps `app_state`, and changes `hid_cid` only when it calls `hid_device_connect` and the stack stores a channel id |
| CombinedDemo.RunCombinedMatchesExpected | hfp_hid_muti/main/hfp_hid_muti.c:236-321 | after any packets from power-on, `app_state` is the one the HID packets decide and `hid_cid` is the value of the last write by either handler |
| CombinedDemo.NoWriteBackAgrees | hfp_hid_muti/main/hfp_hid_muti.c:247-250 | when the stack stores no channel id through `hid_device_connect`, `hid_cid` is the one the HID packets alone decide |
| CombinedDemo.WriteBackOverridden | hfp_hid_muti/main/hfp_hid_muti.c:303-322 | the next HID open or close decides `hid_cid` whatever the Hands-Free handler stored before it |
| CombinedDemo.WriteBackWithoutHidPacket | hfp_hid_muti/main/hfp_hid_muti.c:247-250 | a service level connection can change `hid_cid` with no HID packet at all |

## Left out

- Stack and profile calls (`hid_device_*`, `hfp_hf_*`, `sco_demo_*`) appear only as trace actions or console requests. Their delivery and effects live in the stack, which is not part of this model. The one effect the firmware reads back, the channel id `hid_device_connect` stores into `hid_cid`, is an input of the combined demo. The `gap_*` and `sdp_*` set-up calls and the PIN-code reply are left out, as configuration.
- Ring buffer: modelled as a sequence holding at most 16 characters. A write into a full buffer stores nothing, which is what a one-byte write that does not fit does in BTstack; the ring buffer code itself is not part of this model.
- Timers have no clock. A timer is a handler, a delay in milliseconds and an armed flag, and firing is an input event.
- Events that cannot happen in the modelled state are dropped from a run: a can-send-now with no request outstanding, or a fire of an unarmed timer or of one with no handler. Without the first assumption a spurious can-send-now while idle would arm `send_next`; the stack only delivers the event on request. A request outstanding when the connection closes is taken as never answered, since its channel is gone; the stack's handling of it is not part of this model.
- `btstack_main`, SDP records, GAP set-up, codec lists, HID descriptors, `printf`/`log_info` text and `show_usage` output are configuration or output only.
- FreeRTOS tasks, `vTaskDelay`, GPIO and the concurrency between the poll task and the run loop are out. A button level is a boolean input per sample.
- In the shipped firmware `btstack_main` never starts the demo-text timer, and the older combined demo never registers its HID half. The cycler and the emitter are modelled from their text.
- Characters are Dafny `char`s; the firmware's 8-bit characters are the code points up to 0xFF.
- TypingEmitter.SendTimerStep: a fire of the send timer with no handler is not modelled, because the run loop's behaviour for it is not part of this model; such fires are dropped.
- The run-level emitter theorems are stated for any pair of tables that fit the keycode byte; the US tables enter only through the concrete resolver lemmas and `TypingEmitter.TypingQThenCloseStalls`.
- HfpHandles.ConnectionHandle: masking the packet's first field to 12 bits is what BTstack's `READ_SCO_CONNECTION_HANDLE` does; the macro is not part of this model.
- Printed texts of the HFP handlers (codec names, indicator mappings, call status) are out, as output only.

## Findings

| source | as written | input that shows it | evidently intended | confidence | as-written member | corrected member |
|---|---|---|---|---|---|---|
| hfp_hid_muti/main/old/hid_single_key.c:200-206 | for a character the tables cannot resolve, `send_next` re-arms `send_timer` without setting its handler; before the first can-send-now the timer has never had one | `queue_character(0x80)` as the first character after power-on | re-arm with `send_next` as the handler, as the can-send-now branch does, so typing continues with the next character | not executed; the run loop's treatment of a handler-less timer is outside this model | TypingEmitter.UnsetHandlerArmedAsWritten | TypingEmitter.SendNextStep |
