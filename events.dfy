/**
 * The event text every watcher emits: `fmt(prefix, msg)` puts the clock
 * reading `ts()` in brackets, then the direction marker, then the message.
 * The clock is a parameter here (`now`), so every event is a concrete string.
 * `Notice` has one constructor per distinct event text of the monitor: the
 * six watcher events and the three lifecycle messages of the Start and Stop
 * buttons. (The move handler emits the deletion and creation texts again.)
 */
module Events {
  import opened Text

  type Year = y: int | 1 <= y <= 9999 witness 1
  type Month = m: int | 1 <= m <= 12 witness 1
  type Day = d: int | 1 <= d <= 31 witness 1
  type Hour = h: int | 0 <= h < 24
  type Minute = m: int | 0 <= m < 60
  type Second = s: int | 0 <= s < 60

  /** A reading of the local wall clock, as `datetime.now()` returns it. */
  datatype DateTime = DateTime(year: Year, month: Month, day: Day, hour: Hour, minute: Minute, second: Second)

  function Pad2(n: nat): string
    requires n < 100
  {
    [DigitChar(n / 10), DigitChar(n % 10)]
  }

  function Pad4(n: nat): string
    requires n < 10000
  {
    [DigitChar(n / 1000), DigitChar(n / 100 % 10), DigitChar(n / 10 % 10), DigitChar(n % 10)]
  }

  /** `ts()`: the clock reading formatted as `%Y-%m-%d %H:%M:%S`. */
  function Ts(now: DateTime): string {
    Pad4(now.year) + "-" + Pad2(now.month) + "-" + Pad2(now.day) + " "
      + Pad2(now.hour) + ":" + Pad2(now.minute) + ":" + Pad2(now.second)
  }

  /** The value of a run of decimal digits. */
  function DigitsValue(s: string): int {
    if s == [] then 0 else DigitsValue(s[..|s| - 1]) * 10 + (s[|s| - 1] as int - '0' as int)
  }

  /** The stamp is 19 characters: digits, with `-` `-` ` ` `:` `:` at the separator positions. */
  lemma TsLayout(now: DateTime)
    ensures |Ts(now)| == 19
    ensures Ts(now)[4] == '-' && Ts(now)[7] == '-' && Ts(now)[10] == ' '
    ensures Ts(now)[13] == ':' && Ts(now)[16] == ':'
    ensures forall i | 0 <= i < 19 && i !in {4, 7, 10, 13, 16} :: IsDigit(Ts(now)[i])
  {
  }

  /** Each field of the stamp reads back as the clock value it came from. */
  lemma TsRoundTrip(now: DateTime)
    ensures |Ts(now)| == 19
    ensures DigitsValue(Ts(now)[0..4]) == now.year
    ensures DigitsValue(Ts(now)[5..7]) == now.month
    ensures DigitsValue(Ts(now)[8..10]) == now.day
    ensures DigitsValue(Ts(now)[11..13]) == now.hour
    ensures DigitsValue(Ts(now)[14..16]) == now.minute
    ensures DigitsValue(Ts(now)[17..19]) == now.second
  {
    var t := Ts(now);
    Pad4Value(now.year);
    Pad2Value(now.month);
    Pad2Value(now.day);
    Pad2Value(now.hour);
    Pad2Value(now.minute);
    Pad2Value(now.second);
    assert t[0..4] == Pad4(now.year);
    assert t[5..7] == Pad2(now.month);
    assert t[8..10] == Pad2(now.day);
    assert t[11..13] == Pad2(now.hour);
    assert t[14..16] == Pad2(now.minute);
    assert t[17..19] == Pad2(now.second);
  }

  lemma Pad2Value(n: nat)
    requires n < 100
    ensures DigitsValue(Pad2(n)) == n
  {
    var s := Pad2(n);
    assert s[..1][..0] == [];
    assert DigitsValue(s[..1]) == n / 10;
  }

  lemma Pad4Value(n: nat)
    requires n < 10000
    ensures DigitsValue(Pad4(n)) == n
  {
    var s := Pad4(n);
    assert s[..1][..0] == [];
    assert s[..2][..1] == s[..1];
    assert s[..3][..2] == s[..2];
    assert DigitsValue(s[..1]) == n / 1000;
    assert DigitsValue(s[..2]) == n / 100;
    assert DigitsValue(s[..3]) == n / 10;
  }

  /** `fmt(prefix, msg)` with the clock read as `now`. */
  function Fmt(now: DateTime, prefix: string, msg: string): string {
    Frame(now, prefix) + msg
  }

  /** Everything `fmt` puts before the message. */
  function Frame(now: DateTime, prefix: string): string {
    "[" + Ts(now) + "] " + prefix + " "
  }

  const PLUS := "[+]"
  const MINUS := "[-]"
  const INFO := "[i]"

  /** One `fmt` call site of the monitor. */
  datatype Notice =
    | WindowMinimized(title: string)
    | WindowRestored(title: string)
    | ProcessStarted(name: string, pid: nat)
    | ProcessEnded(pid: nat)
    | FileCreated(path: string)
    | FileDeleted(path: string)
    | MonitorStarted
    | MonitorStopping
    | MonitorStopped

  function Marker(n: Notice): string {
    match n
    case WindowMinimized(_) => MINUS
    case WindowRestored(_) => PLUS
    case ProcessStarted(_, _) => PLUS
    case ProcessEnded(_) => MINUS
    case FileCreated(_) => PLUS
    case FileDeleted(_) => MINUS
    case MonitorStarted => INFO
    case MonitorStopping => INFO
    case MonitorStopped => INFO
  }

  function Body(n: Notice): string {
    match n
    case WindowMinimized(title) => "Window Minimized: " + title
    case WindowRestored(title) => "Window Restored: " + title
    case ProcessStarted(name, pid) => "Process Started: " + name + " (PID " + NatToString(pid) + ")"
    case ProcessEnded(pid) => "Process Ended: PID " + NatToString(pid)
    case FileCreated(path) => "File Created: " + path
    case FileDeleted(path) => "File Deleted: " + path
    case MonitorStarted => "Monitor started"
    case MonitorStopping => "Stopping monitor\U{2026}"
    case MonitorStopped => "Monitor stopped"
  }

  /** The text that the call site emits when the clock reads `now`. */
  function Render(n: Notice, now: DateTime): string {
    Fmt(now, Marker(n), Body(n))
  }

  /** The texts of a sequence of notices emitted while the clock reads `now`. */
  function RenderAll(ns: seq<Notice>, now: DateTime): seq<string> {
    seq(|ns|, i requires 0 <= i < |ns| => Render(ns[i], now))
  }

  lemma RenderAllConcat(a: seq<Notice>, b: seq<Notice>, now: DateTime)
    ensures RenderAll(a + b, now) == RenderAll(a, now) + RenderAll(b, now)
  {
  }

  lemma FrameQuiet(now: DateTime, prefix: string)
    requires prefix in {PLUS, MINUS, INFO}
    ensures Quiet(Frame(now, prefix))
  {
    TsLayout(now);
  }

  /** The stamp and the marker add no occurrence of a word that starts with a capital:
      such a word occurs in the emitted text exactly when it occurs in the message. */
  lemma {:induction false} FrameTransparent(n: Notice, now: DateTime, w: string)
    requires w != [] && IsUpper(w[0])
    ensures Contains(Render(n, now), w) <==> Contains(Body(n), w)
  {
    var f := Frame(now, Marker(n));
    FrameQuiet(now, Marker(n));
    assert Guarded(f, w);
    ContainsAfter(f, Body(n), w);
  }

  /** Two `Process Ended` events at the same clock reading name the same PID only if
      they are the same event. */
  lemma EndedRenderInjective(p: nat, q: nat, now: DateTime)
    requires Render(ProcessEnded(p), now) == Render(ProcessEnded(q), now)
    ensures p == q
  {
    var f, l := Frame(now, MINUS), "Process Ended: PID ";
    var sp, sq := NatToString(p), NatToString(q);
    assert Render(ProcessEnded(p), now) == f + (l + sp);
    assert Render(ProcessEnded(q), now) == f + (l + sq);
    CancelPrefix(f, l + sp, l + sq);
    CancelPrefix(l, sp, sq);
    NatToStringInjective(p, q);
  }

  lemma CancelPrefix(a: string, x: string, y: string)
    requires a + x == a + y
    ensures x == y
  {
    assert x == (a + x)[|a|..];
    assert y == (a + y)[|a|..];
  }
}
