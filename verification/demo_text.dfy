/**
 The demo-text cycler of the typing demo: a timer handler that feeds one
 character of a fixed text to the emitter per period and starts over at the
 end of the text.
 */
module DemoText {

  /** `demo_text`, without its C string terminator. */
  const Text: string :=
    "\n\nHello World!\n\n"
    + "This is the BTstack "
    + "HID Keyboard Demo "
    + "running on an "
    + "Embedded Device.\n\n"

  /** `TYPING_DEMO_PERIOD_MS`: the handler re-arms its timer with this period. */
  const TypingDemoPeriodMs: nat := 100

  /** A text the cycler can walk: non-empty and free of the NUL byte that
      ends the C string. */
  predicate Cyclable(text: string)
  {
    |text| > 0 && '\0' !in text
  }

  /** Length of `Text`. */
  const TextLength: nat := 86

  lemma TextCyclable()
    ensures |Text| == TextLength
    ensures Cyclable(Text)
  {
  }

  /** One run of `demo_text_timer_handler` over `text` (the demo uses
      `Text`): the character at the current position is the one queued, then
      the position advances and wraps to 0 when the byte there is the C
      string's terminator. */
  function Tick(text: string, pos: nat): (r: (char, nat))
    requires Cyclable(text) && pos < |text|
    ensures r.0 == text[pos]
    ensures r.1 < |text| && r.1 == (pos + 1) % |text|
  {
    var cString := text + ['\0'];
    var next := pos + 1;
    if cString[next] == '\0' then
      ModUnique(next, |text|, 1, 0);
      (cString[pos], 0)
    else
      ModUnique(next, |text|, 0, next);
      (cString[pos], next)
  }

  /** The characters `n` handler runs queue, starting at `pos`, and the
      position they leave. */
  function Ticks(text: string, pos: nat, n: nat): (r: (string, nat))
    requires Cyclable(text) && pos < |text|
    ensures r.1 < |text|
    decreases n
  {
    if n == 0 then ("", pos)
    else
      var (c, next) := Tick(text, pos);
      var (rest, last) := Ticks(text, next, n - 1);
      ([c] + rest, last)
  }

  /** The queued characters cycle through the text: the i-th of them is the
      character at (pos + i) modulo the text length, and the position ends
      at (pos + n) modulo the length. */
  lemma {:induction false} TicksCycle(text: string, pos: nat, n: nat)
    requires Cyclable(text) && pos < |text|
    ensures |Ticks(text, pos, n).0| == n
    ensures forall i | 0 <= i < n :: Ticks(text, pos, n).0[i] == text[(pos + i) % |text|]
    ensures Ticks(text, pos, n).1 == (pos + n) % |text|
    decreases n
  {
    if n == 0 {
      ModUnique(pos, |text|, 0, pos);
    } else {
      var next := Tick(text, pos).1;
      TicksCycle(text, next, n - 1);
      var r := Ticks(text, pos, n).0;
      forall i | 0 <= i < n
        ensures r[i] == text[(pos + i) % |text|]
      {
        if i == 0 {
          ModUnique(pos, |text|, 0, pos);
        } else {
          assert r[i] == Ticks(text, next, n - 1).0[i - 1];
          ModAddOne(pos, i - 1, |text|);
        }
      }
      ModAddOne(pos, n - 1, |text|);
    }
  }

  /** Starting from position 0, the k-th character the demo queues is the
      text's character k modulo its length. */
  lemma DemoCycle(n: nat)
    ensures |Text| == TextLength && |Ticks(Text, 0, n).0| == n
    ensures forall i | 0 <= i < n :: Ticks(Text, 0, n).0[i] == Text[i % TextLength]
  {
    TextCyclable();
    TicksCycle(Text, 0, n);
  }

  lemma ModUnique(a: int, m: int, q: int, r: int)
    requires 0 < m && 0 <= r < m && a == m * q + r
    ensures a % m == r
  {
    var q', r' := a / m, a % m;
    assert a == m * q' + r';
    if q' > q {
      MulMono(m, q + 1, q');
    } else if q' < q {
      MulMono(m, q' + 1, q);
    }
  }

  lemma MulMono(m: int, a: int, b: int)
    requires 0 < m && a <= b
    ensures m * a <= m * b
  {
    assert m * b == m * a + m * (b - a);
  }

  /** Advancing a position by one and wrapping it, then by `k`, is
      advancing it by `k + 1`, modulo `m`. */
  lemma ModAddOne(pos: nat, k: nat, m: nat)
    requires 0 < m && pos < m
    ensures ((pos + 1) % m + k) % m == (pos + k + 1) % m
  {
    if pos + 1 == m {
      ModUnique(pos + 1, m, 1, 0);
      ModUnique(m + k, m, k / m + 1, k % m);
    } else {
      ModUnique(pos + 1, m, 0, pos + 1);
    }
  }
}
