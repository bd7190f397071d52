/**
 The typing emitter of the keyboard demo: characters queued into a FIFO are
 turned, one at a time, into a key-down report followed by a release report,
 paced by one run-loop timer and by the stack's "can send now" events.

 A step takes the emitter's globals and one event and returns the new
 globals and the stack calls made, in order.
 */
module TypingEmitter {
  import opened Common
  import opened KeyTables
  import opened Reports
  import opened Actions
  import opened HidLink
  import DemoText

  /** `TYPING_KEYDOWN_MS`: how long a key is held before its release. */
  const TypingKeydownMs: nat := 20

  /** `TYPING_DELAY_MS`: the pause after a release, or after a character
      that does not resolve, before the next character. */
  const TypingDelayMs: nat := 20

  /** Size of `send_buffer_storage`, the ring buffer's capacity. */
  const BufferCapacity: nat := 16

  /** The handler installed in `send_timer`; `Unset` is the zero-initialised
      timer no handler has been installed in yet. */
  datatype TimerHandler = Unset | TriggerKeyUp | SendNext

  /** A run-loop timer: its handler, its timeout and whether it is in the
      run loop's timer list. */
  datatype Timer = Timer(handler: TimerHandler, timeoutMs: nat, armed: bool)

  /** The globals of the emitter. `layout` is the keyboard layout characters
      are resolved against (the US layout in the firmware; the proofs hold
      for any layout); `canSendNowRequested` records a request the stack has
      not answered yet; `demoPos` is the demo cycler's position. */
  datatype Emitter = Emitter(
    layout: ValidLayout,
    link: Link,
    fifo: seq<char>,
    active: bool,
    keycode: byte,
    modifier: byte,
    timer: Timer,
    canSendNowRequested: bool,
    demoPos: nat)

  /** Power-on globals, resolving against `layout`. */
  function InitFor(layout: ValidLayout): (s: Emitter)
    ensures s.layout == layout && !s.active && s.fifo == []
  {
    Emitter(layout, InitLink, [], false, 0, 0, Timer(Unset, 0, false), false, 0)
  }

  /** The power-on globals of the firmware. */
  const InitEmitter: Emitter := InitFor(UsLayout)

  datatype Event =
    /** A packet delivered to the HID packet handler. */
    | Hid(packet: Packet)
    /** The run loop fires `send_timer`. */
    | SendTimerFires
    /** A caller hands `queue_character` a character. */
    | Queue(c: char)
    /** The run loop fires the demo text timer. */
    | DemoTick

  datatype Outcome = Outcome(state: Emitter, trace: seq<Action>)

  /** `send_next`, leaving the timer `rearm` behind when the head character
      does not resolve. An empty FIFO makes the emitter idle; otherwise the
      head character is read and either resolved, stored as the pending key
      and announced with a can-send-now request, or skipped by arming
      `rearm`. */
  function SendNextWith(s: Emitter, rearm: Timer): Outcome
  {
    if s.fifo == [] then
      Outcome(s.(active := false), [])
    else
      var c := s.fifo[0];
      var s1 := s.(fifo := s.fifo[1..], active := true);
      match Resolve(s.layout, c)
      case Some(k) =>
        Outcome(s1.(keycode := k.keycode, modifier := k.modifier, canSendNowRequested := true),
                [RingBufferRead(c), RequestCanSendNow(s.link.hidCid)])
      case None =>
        Outcome(s1.(timer := rearm), [RingBufferRead(c)])
  }

  /** `send_next` with the timer handler installed before the timer is
      re-armed (see `SendNextAsWritten` for the code as written). */
  function SendNextStep(s: Emitter): (o: Outcome)
    ensures s.fifo == [] ==> o == Outcome(s.(active := false), [])
    ensures s.fifo != [] ==>
              o.state.active && o.state.fifo == s.fifo[1..]
              && o.trace != [] && o.trace[0] == RingBufferRead(s.fifo[0])
    ensures s.fifo != [] && Resolve(s.layout, s.fifo[0]).Some? ==>
              o.state.keycode == Resolve(s.layout, s.fifo[0]).value.keycode
              && o.state.modifier == Resolve(s.layout, s.fifo[0]).value.modifier
              && o.state.canSendNowRequested && o.state.timer == s.timer
              && o.trace == [RingBufferRead(s.fifo[0]), RequestCanSendNow(s.link.hidCid)]
    ensures s.fifo != [] && Resolve(s.layout, s.fifo[0]).None? ==>
              o.state.keycode == s.keycode && o.state.modifier == s.modifier
              && o.state.timer == Timer(SendNext, TypingDelayMs, true)
              && o.state.canSendNowRequested == s.canSendNowRequested
              && o.trace == [RingBufferRead(s.fifo[0])]
    ensures o.state.link == s.link && o.state.demoPos == s.demoPos
  {
    SendNextWith(s, Timer(SendNext, TypingDelayMs, true))
  }

  /** `send_next` exactly as written: on a character that does not resolve
      it re-arms `send_timer` with whatever handler the timer already has. */
  function SendNextAsWritten(s: Emitter): (o: Outcome)
    ensures s.fifo != [] && Resolve(s.layout, s.fifo[0]).None? ==>
              o.state.timer == Timer(s.timer.handler, TypingDelayMs, true)
  {
    SendNextWith(s, s.timer.(timeoutMs := TypingDelayMs, armed := true))
  }

  /** Once `send_timer` carries the `send_next` handler, which it does from
      the first release report on, the code as written and the corrected
      `send_next` agree. */
  lemma SendNextAgreesOnceInstalled(s: Emitter)
    requires s.timer.handler == SendNext
    ensures SendNextAsWritten(s) == SendNextStep(s)
  {
  }

  /** Queueing '\U{80}', a byte in neither table, as the first character
      arms `send_timer` while it has no handler: when it expires the run
      loop calls through an unset handler. */
  lemma UnsetHandlerArmedAsWritten()
    ensures QueueAsWritten(InitEmitter, '\U{80}').state.timer == Timer(Unset, TypingDelayMs, true)
  {
    ResolveOutsideTables();
  }

  /** `btstack_ring_buffer_write` of one character: appended while the
      buffer has room, dropped when it is full. */
  function WriteChar(s: Emitter, c: char): Outcome
  {
    if |s.fifo| < BufferCapacity then Outcome(s.(fifo := s.fifo + [c]), [RingBufferWrite(c)])
    else Outcome(s, [])
  }

  /** `queue_character` over a `send_next` that leaves `rearm` behind. */
  function QueueWith(s: Emitter, c: char, rearm: Timer): Outcome
  {
    var w := WriteChar(s, c);
    if !s.active then
      var o := SendNextWith(w.state, rearm);
      Outcome(o.state, w.trace + o.trace)
    else
      w
  }

  /** `queue_character` with the as-written `send_next`. */
  function QueueAsWritten(s: Emitter, c: char): (o: Outcome)
    ensures |s.fifo| < BufferCapacity ==> o.trace != [] && o.trace[0] == RingBufferWrite(c)
  {
    QueueWith(s, c, s.timer.(timeoutMs := TypingDelayMs, armed := true))
  }

  /** `queue_character`: write the character into the ring buffer, and start
      the emitter if it is idle. A character that meets a full buffer is
      lost; an idle emitter still runs `send_next`. */
  function QueueStep(s: Emitter, c: char): (o: Outcome)
    ensures |s.fifo| < BufferCapacity ==> o.trace != [] && o.trace[0] == RingBufferWrite(c)
    ensures |s.fifo| >= BufferCapacity ==> forall a | a in o.trace :: !a.RingBufferWrite?
    ensures s.active && |s.fifo| < BufferCapacity ==> o == Outcome(s.(fifo := s.fifo + [c]), [RingBufferWrite(c)])
    ensures s.active && |s.fifo| >= BufferCapacity ==> o == Outcome(s, [])
    ensures !s.active ==>
              o.state == SendNextStep(WriteChar(s, c).state).state
              && o.trace == WriteChar(s, c).trace + SendNextStep(WriteChar(s, c).state).trace
    ensures !s.active && s.fifo == [] ==> o.state.active && o.state.fifo == []
    ensures !s.active && s.fifo == [] && Resolve(s.layout, c).Some? ==>
              o.trace == [RingBufferWrite(c), RingBufferRead(c), RequestCanSendNow(s.link.hidCid)]
              && o.state.canSendNowRequested
              && Resolve(s.layout, c) == Some(KeyStroke(o.state.modifier, o.state.keycode))
    ensures !s.active && s.fifo == [] && Resolve(s.layout, c).None? ==>
              o.trace == [RingBufferWrite(c), RingBufferRead(c)]
              && o.state.timer == Timer(SendNext, TypingDelayMs, true)
    ensures o.state.link == s.link && o.state.demoPos == s.demoPos
  {
    QueueWith(s, c, Timer(SendNext, TypingDelayMs, true))
  }

  /** The `HID_SUBEVENT_CAN_SEND_NOW` branch: a pending key is sent as a
      key-down report, cleared, and its release scheduled after
      `TYPING_KEYDOWN_MS`; with no pending key a release report is sent and
      the next character scheduled after `TYPING_DELAY_MS`. The branch
      neither reads nor writes the connection state. */
  function CanSendNowStep(s: Emitter): (o: Outcome)
    ensures s.keycode != 0 ==>
              o.trace == [SendInterruptMessage(s.link.hidCid, KeyReport(s.modifier, s.keycode))]
              && o.state.keycode == 0 && o.state.modifier == 0
              && o.state.timer == Timer(TriggerKeyUp, TypingKeydownMs, true)
    ensures s.keycode == 0 ==>
              o.trace == [SendInterruptMessage(s.link.hidCid, ReleaseReport)]
              && o.state.keycode == 0 && o.state.modifier == s.modifier
              && o.state.timer == Timer(SendNext, TypingDelayMs, true)
    ensures !o.state.canSendNowRequested
    ensures o.state.link == s.link && o.state.fifo == s.fifo && o.state.active == s.active
    ensures o.state.demoPos == s.demoPos
  {
    var s1 := s.(canSendNowRequested := false);
    if s.keycode != 0 then
      Outcome(s1.(keycode := 0, modifier := 0, timer := Timer(TriggerKeyUp, TypingKeydownMs, true)),
              [SendInterruptMessage(s.link.hidCid, KeyReport(s.modifier, s.keycode))])
    else
      Outcome(s1.(timer := Timer(SendNext, TypingDelayMs, true)),
              [SendInterruptMessage(s.link.hidCid, ReleaseReport)])
  }

  /** The run loop takes an expired timer out of its list and calls its
      handler: `trigger_key_up` asks for a can-send-now event, `send_next`
      moves on to the next character. A timer without a handler is only
      taken out of the list. */
  function SendTimerStep(s: Emitter): (o: Outcome)
    requires s.timer.armed
    ensures s.timer.handler == TriggerKeyUp ==>
              o == Outcome(s.(timer := s.timer.(armed := false), canSendNowRequested := true),
                           [RequestCanSendNow(s.link.hidCid)])
    ensures s.timer.handler == SendNext ==>
              o == SendNextStep(s.(timer := s.timer.(armed := false)))
  {
    var s0 := s.(timer := s.timer.(armed := false));
    match s.timer.handler
    case TriggerKeyUp => Outcome(s0.(canSendNowRequested := true), [RequestCanSendNow(s.link.hidCid)])
    case SendNext => SendNextStep(s0)
    case Unset => Outcome(s0, [])
  }

  /** The demo text timer handler: queue the character at the demo position
      and advance the position, whether or not the buffer took the
      character. */
  function DemoStep(s: Emitter): (o: Outcome)
    requires s.demoPos < DemoText.TextLength
    ensures o.state.demoPos == (s.demoPos + 1) % DemoText.TextLength
    ensures |s.fifo| < BufferCapacity ==> o.trace != [] && o.trace[0] == RingBufferWrite(DemoText.Text[s.demoPos])
    ensures s.active && |s.fifo| >= BufferCapacity ==>
              o == Outcome(s.(demoPos := (s.demoPos + 1) % DemoText.TextLength), [])
  {
    DemoText.TextCyclable();
    var (c, next) := DemoText.Tick(DemoText.Text, s.demoPos);
    var o := QueueStep(s, c);
    Outcome(o.state.(demoPos := next), o.trace)
  }

  /** The HID packet handler of the typing demo: the connection bookkeeping
      of `HidLink.OnHidPacket`, plus removal of `send_timer` on a close and
      the can-send-now branch. A can-send-now request made on a channel that
      closes is never answered, so after a close none is outstanding. */
  function HidStep(s: Emitter, p: Packet): (o: Outcome)
    ensures p != EventPacket(HidCanSendNow) ==>
              o.trace == [] && o.state.link == OnHidPacket(s.link, p)
    ensures p == EventPacket(HidConnectionClosed) ==>
              o.state == s.(link := Link(NotConnected, 0), timer := s.timer.(armed := false),
                            canSendNowRequested := false)
    ensures p != EventPacket(HidCanSendNow) && p != EventPacket(HidConnectionClosed) ==>
              o.state == s.(link := OnHidPacket(s.link, p))
  {
    if p == EventPacket(HidCanSendNow) then CanSendNowStep(s)
    else if p == EventPacket(HidConnectionClosed) then
      Outcome(s.(link := OnHidPacket(s.link, p), timer := s.timer.(armed := false),
                 canSendNowRequested := false), [])
    else
      Outcome(s.(link := OnHidPacket(s.link, p)), [])
  }

  /** What the environment can deliver: a can-send-now event only while one
      is requested, and a timer expiry only for an armed timer with a
      handler. Characters and demo ticks can always arrive. */
  predicate Enabled(s: Emitter, e: Event)
  {
    match e
    case Hid(p) => p == EventPacket(HidCanSendNow) ==> s.canSendNowRequested
    case SendTimerFires => s.timer.armed && s.timer.handler != Unset
    case Queue(_) => true
    case DemoTick => s.demoPos < DemoText.TextLength
  }

  function Step(s: Emitter, e: Event): (o: Outcome)
    requires Enabled(s, e)
  {
    match e
    case Hid(p) => HidStep(s, p)
    case SendTimerFires => SendTimerStep(s)
    case Queue(c) => QueueStep(s, c)
    case DemoTick => DemoStep(s)
  }

  /** Runs a sequence of events; an event the environment cannot deliver in
      the state reached is dropped. */
  function Run(s: Emitter, es: seq<Event>): Outcome
    decreases |es|
  {
    if es == [] then Outcome(s, [])
    else
      var o1 := StepOrSkip(s, es[0]);
      var o2 := Run(o1.state, es[1..]);
      Outcome(o2.state, o1.trace + o2.trace)
  }

  /** One event of a run: its step if it can be delivered, nothing
      otherwise. */
  function StepOrSkip(s: Emitter, e: Event): Outcome
  {
    if Enabled(s, e) then Step(s, e) else Outcome(s, [])
  }

  // ---------------------------------------------------------------------
  // Reading a trace

  /** The per-action pieces of a trace, concatenated. */
  function Project<T>(t: seq<Action>, f: Action -> seq<T>): seq<T>
    decreases |t|
  {
    if t == [] then [] else f(t[0]) + Project(t[1..], f)
  }

  lemma {:induction false} ProjectAppend<T>(a: seq<Action>, b: seq<Action>, f: Action -> seq<T>)
    ensures Project(a + b, f) == Project(a, f) + Project(b, f)
    decreases |a|
  {
    if a == [] {
      assert a + b == b;
    } else {
      assert (a + b)[0] == a[0];
      assert (a + b)[1..] == a[1..] + b;
      ProjectAppend(a[1..], b, f);
    }
  }

  function WriteOf(a: Action): seq<char> { if a.RingBufferWrite? then [a.c] else [] }
  function ReadOf(a: Action): seq<char> { if a.RingBufferRead? then [a.c] else [] }

  /** A sent message as the key it reports. */
  function KeyOf(a: Action): seq<KeyStroke>
  {
    if a.SendInterruptMessage? && ParseKeyReport(a.message).Some? then [ParseKeyReport(a.message).value]
    else []
  }

  /** A sent message that is not a one-key report. */
  function MalformedOf(a: Action): seq<seq<byte>>
  {
    if a.SendInterruptMessage? && ParseKeyReport(a.message).None? then [a.message] else []
  }

  /** A sent key-down report, as its key. */
  function KeyDownOf(a: Action): seq<KeyStroke>
  {
    if a.SendInterruptMessage? && ParseKeyReport(a.message).Some?
       && ParseKeyReport(a.message).value.keycode != 0
    then [ParseKeyReport(a.message).value]
    else []
  }

  /** A character read from the ring buffer, as the key-down it resolves to
      under `layout`; characters that do not resolve, or resolve to usage 0,
      give none. */
  function ResolvedDownOf(layout: ValidLayout): Action -> seq<KeyStroke>
  {
    (a: Action) =>
      if a.RingBufferRead? && Resolve(layout, a.c).Some? && Resolve(layout, a.c).value.keycode != 0
      then [Resolve(layout, a.c).value]
      else []
  }

  /** Characters written to, and read from, the ring buffer. */
  function Writes(t: seq<Action>): seq<char> { Project(t, WriteOf) }
  function Reads(t: seq<Action>): seq<char> { Project(t, ReadOf) }

  /** The keys of the reports sent, in order. */
  function KeysSent(t: seq<Action>): seq<KeyStroke> { Project(t, KeyOf) }

  /** The messages sent that are not one-key reports. */
  function Malformed(t: seq<Action>): seq<seq<byte>> { Project(t, MalformedOf) }

  /** The keys of the key-down reports sent, in order. */
  function KeyDownsSent(t: seq<Action>): seq<KeyStroke> { Project(t, KeyDownOf) }

  /** The key-downs the characters read resolve to, in order. */
  function KeyDownsRead(layout: ValidLayout, t: seq<Action>): seq<KeyStroke>
  {
    Project(t, ResolvedDownOf(layout))
  }

  // ---------------------------------------------------------------------
  // The emitter's invariant

  /** Idle means nothing buffered, nothing pending, no request outstanding
      and no timer armed; an armed timer always has a handler and is never
      armed alongside a pending key or an outstanding request. */
  predicate Inv(s: Emitter)
  {
    && (!s.active ==> s.fifo == [] && s.keycode == 0 && !s.canSendNowRequested && !s.timer.armed)
    && (s.timer.armed ==> s.keycode == 0 && !s.canSendNowRequested && s.timer.handler != Unset)
    && s.demoPos < DemoText.TextLength
  }

  lemma InitEmitterInv()
    ensures Inv(InitEmitter)
  {
    DemoText.TextCyclable();
  }

  lemma StepPreservesInv(s: Emitter, e: Event)
    requires Inv(s) && Enabled(s, e)
    ensures Inv(Step(s, e).state)
  {
    DemoText.TextCyclable();
    UsLayoutSize();
  }

  /** Every state a run from power-on reaches satisfies the invariant. */
  lemma {:induction false} RunPreservesInv(s: Emitter, es: seq<Event>)
    requires Inv(s)
    ensures Inv(Run(s, es).state)
    decreases |es|
  {
    if es != [] {
      if Enabled(s, es[0]) {
        StepPreservesInv(s, es[0]);
        RunPreservesInv(Step(s, es[0]).state, es[1..]);
      } else {
        RunPreservesInv(s, es[1..]);
      }
    }
  }

  // ---------------------------------------------------------------------
  // FIFO order

  /** The FIFO law of one step: what was buffered followed by what was
      written equals what was read followed by what is buffered after. */
  predicate FifoLaw(s: Emitter, o: Outcome)
  {
    s.fifo + Writes(o.trace) == Reads(o.trace) + o.state.fifo
  }

  lemma SendNextFifo(s: Emitter)
    ensures FifoLaw(s, SendNextStep(s))
  {
    var o := SendNextStep(s);
    UnfoldProject(o.trace, WriteOf);
    UnfoldProject(o.trace, ReadOf);
    if s.fifo != [] {
      assert s.fifo == [s.fifo[0]] + s.fifo[1..];
    }
  }

  lemma WriteFifo(s: Emitter, c: char)
    ensures FifoLaw(s, WriteChar(s, c))
  {
    var w := WriteChar(s, c);
    UnfoldProject(w.trace, WriteOf);
    UnfoldProject(w.trace, ReadOf);
  }

  /** Two steps, one after the other, keep the FIFO law. */
  lemma FifoLawThen(s: Emitter, o1: Outcome, o2: Outcome)
    requires FifoLaw(s, o1) && FifoLaw(o1.state, o2)
    ensures FifoLaw(s, Outcome(o2.state, o1.trace + o2.trace))
  {
    ProjectAppend(o1.trace, o2.trace, WriteOf);
    ProjectAppend(o1.trace, o2.trace, ReadOf);
    FifoCompose(s.fifo, Writes(o1.trace), Reads(o1.trace), o1.state.fifo,
                Writes(o2.trace), Reads(o2.trace), o2.state.fifo);
  }

  lemma QueueFifo(s: Emitter, c: char)
    ensures FifoLaw(s, QueueStep(s, c))
  {
    var w := WriteChar(s, c);
    WriteFifo(s, c);
    if !s.active {
      SendNextFifo(w.state);
      FifoLawThen(s, w, SendNextStep(w.state));
    }
  }

  lemma StepFifo(s: Emitter, e: Event)
    requires Enabled(s, e)
    ensures FifoLaw(s, Step(s, e))
  {
    var o := Step(s, e);
    match e
    case Queue(c) => QueueFifo(s, c);
    case DemoTick =>
      DemoText.TextCyclable();
      QueueFifo(s, DemoText.Tick(DemoText.Text, s.demoPos).0);
    case SendTimerFires =>
      if s.timer.handler == SendNext {
        SendNextFifo(s.(timer := s.timer.(armed := false)));
      } else {
        UnfoldProject(o.trace, WriteOf);
        UnfoldProject(o.trace, ReadOf);
      }
    case Hid(p) =>
      UnfoldProject(o.trace, WriteOf);
      UnfoldProject(o.trace, ReadOf);
  }

  /** Over any run, the characters read are the characters queued, in
      queue order: what was buffered and what was written equals what was
      read followed by what is still buffered. */
  lemma {:induction false} RunFifo(s: Emitter, es: seq<Event>)
    ensures FifoLaw(s, Run(s, es))
    decreases |es|
  {
    if es == [] {
      UnfoldProject([], WriteOf);
      UnfoldProject([], ReadOf);
    } else {
      var o1 := StepOrSkip(s, es[0]);
      StepOrSkipFifo(s, es[0]);
      var o2 := Run(o1.state, es[1..]);
      RunFifo(o1.state, es[1..]);
      ProjectAppend(o1.trace, o2.trace, WriteOf);
      ProjectAppend(o1.trace, o2.trace, ReadOf);
      assert Run(s, es) == Outcome(o2.state, o1.trace + o2.trace);
      FifoCompose(s.fifo, Writes(o1.trace), Reads(o1.trace), o1.state.fifo,
                  Writes(o2.trace), Reads(o2.trace), o2.state.fifo);
    }
  }

  /** Two laws of the shape "before + produced == consumed + after" chain
      into one. */
  lemma FifoCompose<T>(a: seq<T>, w1: seq<T>, r1: seq<T>, b: seq<T>,
                       w2: seq<T>, r2: seq<T>, c: seq<T>)
    requires a + w1 == r1 + b && b + w2 == r2 + c
    ensures a + (w1 + w2) == (r1 + r2) + c
  {
    calc {
      a + (w1 + w2);
      (a + w1) + w2;
      (r1 + b) + w2;
      r1 + (b + w2);
      r1 + (r2 + c);
    }
  }

  lemma StepOrSkipFifo(s: Emitter, e: Event)
    ensures FifoLaw(s, StepOrSkip(s, e))
  {
    if Enabled(s, e) {
      StepFifo(s, e);
    } else {
      UnfoldProject([], WriteOf);
      UnfoldProject([], ReadOf);
    }
  }

  // ---------------------------------------------------------------------
  // Key-downs follow the characters read

  /** The key-down waiting for a can-send-now event, if any. */
  function Pending(s: Emitter): seq<KeyStroke>
  {
    if s.keycode != 0 then [KeyStroke(s.modifier, s.keycode)] else []
  }

  /** The key-down law of one step: the key-downs sent, then the one left
      pending, are the one pending before, then the key-downs of the
      characters read. */
  predicate DownLaw(s: Emitter, o: Outcome)
  {
    && o.state.layout == s.layout
    && KeyDownsSent(o.trace) + Pending(o.state) == Pending(s) + KeyDownsRead(s.layout, o.trace)
  }

  lemma SendNextDowns(s: Emitter)
    requires s.keycode == 0
    ensures DownLaw(s, SendNextStep(s))
  {
    var o := SendNextStep(s);
    UnfoldProject(o.trace, KeyDownOf);
    UnfoldProject(o.trace, ResolvedDownOf(s.layout));
  }

  lemma QueueDowns(s: Emitter, c: char)
    requires Inv(s)
    ensures DownLaw(s, QueueStep(s, c))
  {
    var w := WriteChar(s, c);
    UnfoldProject(w.trace, KeyDownOf);
    UnfoldProject(w.trace, ResolvedDownOf(s.layout));
    if !s.active {
      var o1 := SendNextStep(w.state);
      SendNextDowns(w.state);
      ProjectAppend(w.trace, o1.trace, KeyDownOf);
      ProjectAppend(w.trace, o1.trace, ResolvedDownOf(s.layout));
    }
  }

  lemma CanSendNowDowns(s: Emitter)
    ensures DownLaw(s, CanSendNowStep(s))
  {
    var o := CanSendNowStep(s);
    UnfoldProject(o.trace, KeyDownOf);
    UnfoldProject(o.trace, ResolvedDownOf(s.layout));
    ParseKeyReportRoundTrip(KeyStroke(s.modifier, s.keycode));
    ParseKeyReportRoundTrip(KeyStroke(0, 0));
  }

  lemma StepDowns(s: Emitter, e: Event)
    requires Inv(s) && Enabled(s, e)
    ensures DownLaw(s, Step(s, e))
  {
    var o := Step(s, e);
    match e
    case Queue(c) => QueueDowns(s, c);
    case DemoTick =>
      DemoText.TextCyclable();
      QueueDowns(s, DemoText.Tick(DemoText.Text, s.demoPos).0);
    case SendTimerFires =>
      if s.timer.handler == SendNext {
        SendNextDowns(s.(timer := s.timer.(armed := false)));
      } else {
        UnfoldProject(o.trace, KeyDownOf);
        UnfoldProject(o.trace, ResolvedDownOf(s.layout));
      }
    case Hid(p) =>
      if p == EventPacket(HidCanSendNow) {
        CanSendNowDowns(s);
      } else {
        UnfoldProject(o.trace, KeyDownOf);
        UnfoldProject(o.trace, ResolvedDownOf(s.layout));
      }
  }

  lemma StepOrSkipDowns(s: Emitter, e: Event)
    requires Inv(s)
    ensures DownLaw(s, StepOrSkip(s, e)) && Inv(StepOrSkip(s, e).state)
  {
    if Enabled(s, e) {
      StepDowns(s, e);
      StepPreservesInv(s, e);
    } else {
      UnfoldProject([], KeyDownOf);
      UnfoldProject([], ResolvedDownOf(s.layout));
    }
  }

  /** Over any run from a state satisfying the invariant, the key-down
      reports sent are exactly the keys of the resolvable characters read,
      in reading order, the last of them possibly still pending. */
  lemma {:induction false} RunDowns(s: Emitter, es: seq<Event>)
    requires Inv(s)
    ensures DownLaw(s, Run(s, es))
    decreases |es|
  {
    if es == [] {
      UnfoldProject([], KeyDownOf);
      UnfoldProject([], ResolvedDownOf(s.layout));
    } else {
      var o1 := StepOrSkip(s, es[0]);
      StepOrSkipDowns(s, es[0]);
      var o2 := Run(o1.state, es[1..]);
      RunDowns(o1.state, es[1..]);
      ProjectAppend(o1.trace, o2.trace, KeyDownOf);
      ProjectAppend(o1.trace, o2.trace, ResolvedDownOf(s.layout));
      assert Run(s, es) == Outcome(o2.state, o1.trace + o2.trace);
      FifoCompose(Pending(s), KeyDownsRead(s.layout, o1.trace), KeyDownsSent(o1.trace), Pending(o1.state),
                  KeyDownsRead(s.layout, o2.trace), KeyDownsSent(o2.trace), Pending(o2.state));
    }
  }

  // ---------------------------------------------------------------------
  // Key-down and release alternate

  /** `ks` is a report sequence in which a key-down is always followed by the
      release report; `held` says the report before `ks` was a key-down. */
  predicate AlternatesFrom(held: bool, ks: seq<KeyStroke>)
    decreases |ks|
  {
    ks == [] || ((held ==> ks[0] == KeyStroke(0, 0)) && AlternatesFrom(ks[0].keycode != 0, ks[1..]))
  }

  /** Whether a key is held down after the reports `ks`. */
  function HeldAfter(held: bool, ks: seq<KeyStroke>): bool
  {
    if ks == [] then held else ks[|ks| - 1].keycode != 0
  }

  /** Every key-down report is immediately followed by the release report. */
  predicate Alternates(ks: seq<KeyStroke>)
  {
    forall i | 0 <= i < |ks| - 1 :: ks[i].keycode != 0 ==> ks[i + 1] == KeyStroke(0, 0)
  }

  lemma {:induction false} AlternatesAppend(held: bool, a: seq<KeyStroke>, b: seq<KeyStroke>)
    requires AlternatesFrom(held, a) && AlternatesFrom(HeldAfter(held, a), b)
    ensures AlternatesFrom(held, a + b)
    decreases |a|
  {
    if a == [] {
      assert a + b == b;
    } else {
      assert (a + b)[0] == a[0];
      assert (a + b)[1..] == a[1..] + b;
      assert HeldAfter(a[0].keycode != 0, a[1..]) == HeldAfter(held, a);
      AlternatesAppend(a[0].keycode != 0, a[1..], b);
    }
  }

  /** Starting with no key held, the recursive reading is the plain one. */
  lemma {:induction false} AlternatesFromMeans(held: bool, ks: seq<KeyStroke>)
    requires AlternatesFrom(held, ks)
    ensures Alternates(ks)
    ensures held && ks != [] ==> ks[0] == KeyStroke(0, 0)
    decreases |ks|
  {
    if ks != [] {
      AlternatesFromMeans(ks[0].keycode != 0, ks[1..]);
      forall i | 0 <= i < |ks| - 1 && ks[i].keycode != 0
        ensures ks[i + 1] == KeyStroke(0, 0)
      {
        if i > 0 {
          assert ks[1..][i - 1] == ks[i];
        }
      }
    }
  }

  /** While a key is held its release is on its way: nothing is pending,
      the emitter is busy and the timer carries `trigger_key_up`. */
  predicate HeldInv(s: Emitter, held: bool)
  {
    held ==> s.keycode == 0 && s.active && s.timer.handler == TriggerKeyUp
  }

  /** The alternation law of one step: the reports it sends are one-key
      reports that keep the alternation, and the held-key invariant
      carries over. */
  predicate AltLaw(s: Emitter, held: bool, o: Outcome)
  {
    && Malformed(o.trace) == []
    && AlternatesFrom(held, KeysSent(o.trace))
    && HeldInv(o.state, HeldAfter(held, KeysSent(o.trace)))
  }

  /** A trace that sends nothing. */
  predicate Silent(t: seq<Action>)
  {
    forall i | 0 <= i < |t| :: !t[i].SendInterruptMessage?
  }

  lemma SilentSendsNothing(t: seq<Action>)
    requires Silent(t) && |t| <= 3
    ensures KeysSent(t) == [] && Malformed(t) == []
  {
    UnfoldProject(t, KeyOf);
    UnfoldProject(t, MalformedOf);
  }

  lemma SilentAppend(a: seq<Action>, b: seq<Action>)
    requires Silent(a) && Silent(b)
    ensures Silent(a + b)
  {
    forall i | 0 <= i < |a + b|
      ensures !(a + b)[i].SendInterruptMessage?
    {
      if i < |a| {
        assert (a + b)[i] == a[i];
      } else {
        assert (a + b)[i] == b[i - |a|];
      }
    }
  }

  lemma CanSendNowAlt(s: Emitter, held: bool)
    requires Inv(s) && HeldInv(s, held)
    ensures AltLaw(s, held, CanSendNowStep(s))
  {
    var o := CanSendNowStep(s);
    UnfoldProject(o.trace, KeyOf);
    UnfoldProject(o.trace, MalformedOf);
    ParseKeyReportRoundTrip(KeyStroke(s.modifier, s.keycode));
    ParseKeyReportRoundTrip(KeyStroke(0, 0));
    assert KeysSent(o.trace)[1..] == [];
  }

  lemma StepAlt(s: Emitter, held: bool, e: Event)
    requires Inv(s) && HeldInv(s, held) && Enabled(s, e)
    ensures AltLaw(s, held, Step(s, e))
  {
    var o := Step(s, e);
    if e == Hid(EventPacket(HidCanSendNow)) {
      CanSendNowAlt(s, held);
    } else {
      if e.Queue? || e.DemoTick? {
        var c := if e.Queue? then e.c else DemoText.Text[s.demoPos];
        var w := WriteChar(s, c);
        if !s.active {
          SilentAppend(w.trace, SendNextStep(w.state).trace);
        }
      } else if e.SendTimerFires? && s.timer.handler == SendNext {
        assert Silent(SendNextStep(s.(timer := s.timer.(armed := false))).trace);
      }
      assert Silent(o.trace);
      SilentSendsNothing(o.trace);
    }
  }

  lemma StepOrSkipAlt(s: Emitter, held: bool, e: Event)
    requires Inv(s) && HeldInv(s, held)
    ensures AltLaw(s, held, StepOrSkip(s, e)) && Inv(StepOrSkip(s, e).state)
  {
    if Enabled(s, e) {
      StepAlt(s, held, e);
      StepPreservesInv(s, e);
    } else {
      SilentSendsNothing([]);
    }
  }

  /** Over any run from a state satisfying the invariants, every message
      sent is a one-key report and the reports alternate. */
  lemma {:induction false} RunAlt(s: Emitter, held: bool, es: seq<Event>)
    requires Inv(s) && HeldInv(s, held)
    ensures Malformed(Run(s, es).trace) == []
    ensures AlternatesFrom(held, KeysSent(Run(s, es).trace))
    decreases |es|
  {
    if es == [] {
      SilentSendsNothing([]);
    } else {
      var o1 := StepOrSkip(s, es[0]);
      StepOrSkipAlt(s, held, es[0]);
      var h1 := HeldAfter(held, KeysSent(o1.trace));
      var o2 := Run(o1.state, es[1..]);
      RunAlt(o1.state, h1, es[1..]);
      ProjectAppend(o1.trace, o2.trace, KeyOf);
      ProjectAppend(o1.trace, o2.trace, MalformedOf);
      assert Run(s, es) == Outcome(o2.state, o1.trace + o2.trace);
      AlternatesAppend(held, KeysSent(o1.trace), KeysSent(o2.trace));
    }
  }

  // ---------------------------------------------------------------------
  // Runs from power-on

  /** From power-on, for any layout and any events the environment can
      deliver: characters are read in queue order; every message sent is a
      one-key report; every key-down report is immediately followed by the
      release report; and the key-down reports are the keys of the
      resolvable characters read, in order, the last possibly pending. */
  lemma EmitterFromPowerOn(layout: ValidLayout, es: seq<Event>)
    ensures Reads(Run(InitFor(layout), es).trace) <= Writes(Run(InitFor(layout), es).trace)
    ensures Malformed(Run(InitFor(layout), es).trace) == []
    ensures Alternates(KeysSent(Run(InitFor(layout), es).trace))
    ensures KeyDownsSent(Run(InitFor(layout), es).trace) + Pending(Run(InitFor(layout), es).state)
            == KeyDownsRead(layout, Run(InitFor(layout), es).trace)
  {
    var s := InitFor(layout);
    var o := Run(s, es);
    DemoText.TextCyclable();
    assert Inv(s);
    RunFifo(s, es);
    assert s.fifo + Writes(o.trace) == Writes(o.trace);
    RunAlt(s, false, es);
    AlternatesFromMeans(false, KeysSent(o.trace));
    RunDowns(s, es);
    assert Pending(s) + KeyDownsRead(layout, o.trace) == KeyDownsRead(layout, o.trace);
  }

  // ---------------------------------------------------------------------
  // Progress

  /** The events that type one character: it is queued, and afterwards the
      stack answers each can-send-now request and the run loop fires each
      timer, in the order the emitter asks for them. */
  function TypingEvents(c: char): seq<Event>
  {
    [Queue(c), Hid(EventPacket(HidCanSendNow)), SendTimerFires, Hid(EventPacket(HidCanSendNow)), SendTimerFires]
  }

  lemma RunEnabledCons(s: Emitter, e: Event, es: seq<Event>)
    requires Enabled(s, e)
    ensures Run(s, [e] + es)
            == Outcome(Run(Step(s, e).state, es).state, Step(s, e).trace + Run(Step(s, e).state, es).trace)
  {
    assert ([e] + es)[1..] == es;
  }

  /** An idle emitter types a resolvable character in full: it reads the
      character, sends its key-down and then the release report on the
      current channel, and is idle again with nothing else changed but the
      cleared modifier and the expired timer. */
  lemma {:induction false} TypesOneCharacter(s: Emitter, c: char)
    requires Inv(s) && !s.active
    requires Resolve(s.layout, c).Some? && Resolve(s.layout, c).value.keycode != 0
    ensures Run(s, TypingEvents(c))
            == Outcome(s.(modifier := 0, timer := Timer(SendNext, TypingDelayMs, false)),
                       [RingBufferWrite(c), RingBufferRead(c), RequestCanSendNow(s.link.hidCid),
                        SendInterruptMessage(s.link.hidCid, KeyReport(Resolve(s.layout, c).value.modifier,
                                                                     Resolve(s.layout, c).value.keycode)),
                        RequestCanSendNow(s.link.hidCid),
                        SendInterruptMessage(s.link.hidCid, ReleaseReport)])
  {
    var es := TypingEvents(c);
    var o1 := Step(s, es[0]);
    var o2 := Step(o1.state, es[1]);
    var o3 := Step(o2.state, es[2]);
    var o4 := Step(o3.state, es[3]);
    var o5 := Step(o4.state, es[4]);
    assert o5.trace == [] && !o5.state.active;
    RunEnabledCons(o4.state, es[4], []);
    RunEnabledCons(o3.state, es[3], [es[4]]);
    RunEnabledCons(o2.state, es[2], es[3..]);
    RunEnabledCons(o1.state, es[1], es[2..]);
    RunEnabledCons(s, es[0], es[1..]);
    assert [es[3]] + [es[4]] == es[3..] && [es[2]] + es[3..] == es[2..];
    assert [es[1]] + es[2..] == es[1..] && [es[0]] + es[1..] == es;
  }

  /** An idle emitter skips a character that does not resolve: it reads the
      character, sends nothing and is idle again once the delay expires. */
  lemma {:induction false} SkipsUnresolvable(s: Emitter, c: char)
    requires Inv(s) && !s.active && Resolve(s.layout, c).None?
    ensures Run(s, [Queue(c), SendTimerFires])
            == Outcome(s.(timer := Timer(SendNext, TypingDelayMs, false)), [RingBufferWrite(c), RingBufferRead(c)])
  {
    var o1 := Step(s, Queue(c));
    var o2 := Step(o1.state, SendTimerFires);
    RunEnabledCons(o1.state, SendTimerFires, []);
    RunEnabledCons(s, Queue(c), [SendTimerFires]);
  }

  /** With the firmware's US layout: once a connection has opened on
      channel `cid`, typing 'q' sends the report of usage 0x14 and then the
      release report on that channel, and ends idle and still connected. */
  lemma TypesQ(cid: uint16)
    ensures Run(InitEmitter, [Hid(EventPacket(HidConnectionOpened(StatusSuccess, cid)))] + TypingEvents('q')).trace
            == [RingBufferWrite('q'), RingBufferRead('q'), RequestCanSendNow(cid),
                SendInterruptMessage(cid, KeyReport(0, 0x14)), RequestCanSendNow(cid),
                SendInterruptMessage(cid, ReleaseReport)]
    ensures Run(InitEmitter, [Hid(EventPacket(HidConnectionOpened(StatusSuccess, cid)))] + TypingEvents('q')).state
            .link == Link(Connected, cid)
    ensures !Run(InitEmitter, [Hid(EventPacket(HidConnectionOpened(StatusSuccess, cid)))] + TypingEvents('q')).state
            .active
  {
    var open := Hid(EventPacket(HidConnectionOpened(StatusSuccess, cid)));
    var s1 := Step(InitEmitter, open).state;
    ResolveLowerQ();
    InitEmitterInv();
    StepPreservesInv(InitEmitter, open);
    TypesOneCharacter(s1, 'q');
    RunEnabledCons(InitEmitter, open, TypingEvents('q'));
  }

  // ---------------------------------------------------------------------
  // What the emitter does not look at

  /** The can-send-now branch neither reads nor writes `app_state`: with
      any other application state it sends the same report and leaves the
      same globals. */
  lemma CanSendNowIgnoresAppState(s: Emitter, a: AppState)
    ensures CanSendNowStep(s.(link := s.link.(appState := a)))
            == Outcome(CanSendNowStep(s).state.(link := s.link.(appState := a)), CanSendNowStep(s).trace)
  {
  }

  /** In particular a report goes out while no HID connection is open. */
  lemma CanSendNowWhileNotConnected(s: Emitter)
    requires s.link.appState == NotConnected
    ensures |CanSendNowStep(s).trace| == 1 && CanSendNowStep(s).trace[0].SendInterruptMessage?
  {
  }

  /** Busy with a character while neither a timer nor a can-send-now
      request will wake the emitter again. */
  predicate Stalled(s: Emitter)
  {
    s.active && !s.timer.armed && !s.canSendNowRequested
  }

  lemma StepStalled(s: Emitter, e: Event)
    requires Stalled(s) && Enabled(s, e)
    ensures Stalled(Step(s, e).state)
    ensures Silent(Step(s, e).trace) && Reads(Step(s, e).trace) == []
  {
    var o := Step(s, e);
    UnfoldProject(o.trace, ReadOf);
  }

  /** A closed connection does not reset `send_active`: once stalled, the
      emitter stays stalled whatever arrives, sends nothing and reads
      nothing more from the ring buffer. */
  lemma {:induction false} StalledForever(s: Emitter, es: seq<Event>)
    requires Stalled(s)
    ensures Stalled(Run(s, es).state)
    ensures KeysSent(Run(s, es).trace) == [] && Reads(Run(s, es).trace) == []
    decreases |es|
  {
    if es == [] {
      SilentSendsNothing([]);
      UnfoldProject([], ReadOf);
    } else {
      var o1 := StepOrSkip(s, es[0]);
      if Enabled(s, es[0]) {
        StepStalled(s, es[0]);
        SilentSendsNothing(o1.trace);
      } else {
        SilentSendsNothing([]);
        UnfoldProject([], ReadOf);
      }
      var o2 := Run(o1.state, es[1..]);
      StalledForever(o1.state, es[1..]);
      ProjectAppend(o1.trace, o2.trace, KeyOf);
      ProjectAppend(o1.trace, o2.trace, ReadOf);
      assert Run(s, es) == Outcome(o2.state, o1.trace + o2.trace);
    }
  }

  /** A close that arrives at any point of typing a character stalls the
      emitter: while a request, a key-up or a delay is outstanding, as much
      as while a key is held. */
  lemma CloseWhileActiveStalls(s: Emitter)
    requires Inv(s) && s.active
    ensures Stalled(HidStep(s, EventPacket(HidConnectionClosed)).state)
    ensures HidStep(s, EventPacket(HidConnectionClosed)).trace == []
  {
  }

  /** A close that arrives while a key is held stalls the emitter: queue a
      resolvable character, let its key-down go out, then close. */
  lemma CloseWhileHeldStalls(layout: ValidLayout, c: char)
    requires Resolve(layout, c).Some? && Resolve(layout, c).value.keycode != 0
    ensures Stalled(Run(InitFor(layout),
                        [Queue(c), Hid(EventPacket(HidCanSendNow)), Hid(EventPacket(HidConnectionClosed))]).state)
  {
    var es := [Queue(c), Hid(EventPacket(HidCanSendNow)), Hid(EventPacket(HidConnectionClosed))];
    var s0 := InitFor(layout);
    DemoText.TextCyclable();
    var s1 := Step(s0, es[0]).state;
    assert s1.canSendNowRequested && s1.active;
    var s2 := Step(s1, es[1]).state;
    assert s2.active && s2.timer.armed;
    var s3 := Step(s2, es[2]).state;
    assert Stalled(s3);
    assert es[1..] == es[1..2] + [es[2]];
    assert es[2..] == [es[2]] && es[2..][1..] == [];
    assert Run(s2, es[2..]).state == s3;
    assert es[1..][1..] == es[2..];
    assert Run(s1, es[1..]).state == s3;
    assert Run(s0, es).state == s3;
  }

  /** With the firmware's US layout: typing 'q' and closing the connection
      during its key-down stalls the emitter for good. */
  lemma TypingQThenCloseStalls()
    ensures Stalled(Run(InitEmitter,
                        [Queue('q'), Hid(EventPacket(HidCanSendNow)), Hid(EventPacket(HidConnectionClosed))]).state)
  {
    ResolveLowerQ();
    CloseWhileHeldStalls(UsLayout, 'q');
  }

  /** Unfolds `Project` over a trace of at most three actions. */
  lemma UnfoldProject<T>(t: seq<Action>, f: Action -> seq<T>)
    requires |t| <= 3
    ensures t == [] ==> Project(t, f) == []
    ensures |t| == 1 ==> Project(t, f) == f(t[0])
    ensures |t| == 2 ==> Project(t, f) == f(t[0]) + f(t[1])
    ensures |t| == 3 ==> Project(t, f) == f(t[0]) + f(t[1]) + f(t[2])
  {
    if |t| > 0 {
      assert Project(t, f) == f(t[0]) + Project(t[1..], f);
      if |t| > 1 {
        assert Project(t[1..], f) == f(t[1]) + Project(t[2..], f);
        if |t| > 2 {
          assert Project(t[2..], f) == f(t[2]) + Project(t[3..], f);
        }
      }
    }
  }
}
