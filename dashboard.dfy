/**
 * The dashboard's computed text: `formatDuration`, the guard that shows
 * 'N/A' instead of a missing duration, and the active-sessions card.
 *
 * `formatDuration` takes a whole number of milliseconds, modelled for safe
 * integers (magnitude at most 2^53 - 1), where JavaScript's arithmetic on
 * doubles is exact.  There `Math.floor(a / b)` for a positive divisor is
 * Dafny's `/` on `int` (both round towards minus infinity), and JavaScript's
 * `%`, which takes the sign of the dividend, is written out as `JsRem`.
 */
module Dashboard {
  import opened Wrappers
  import opened Decimal
  import opened Text
  import Auth

  /** `Math.floor(a / b)`. */
  function FloorDiv(a: int, b: int): (q: int)
    requires b > 0
    ensures q * b <= a < q * b + b
  {
    a / b
  }

  /** JavaScript's `a % b`: the remainder has the sign of `a`. */
  function JsRem(a: int, b: int): (r: int)
    requires b > 0
    ensures a >= 0 ==> r == a % b
    ensures a < 0 ==> -b < r <= 0
  {
    if a >= 0 then a % b else -((-a) % b)
  }

  /** The three forms `formatDuration` chooses between, with the numbers it writes. */
  datatype Shape =
    | HoursMinutes(hours: int, minutes: int)
    | MinutesSeconds(minutes: int, seconds: int)
    | SecondsOnly(seconds: int)

  /** The computation of `formatDuration`, before the numbers are written out. */
  function ShapeOf(ms: int): Shape {
    var seconds := FloorDiv(ms, 1000);
    var minutes := FloorDiv(seconds, 60);
    var hours := FloorDiv(minutes, 60);
    if hours > 0 then HoursMinutes(hours, JsRem(minutes, 60))
    else if minutes > 0 then MinutesSeconds(minutes, JsRem(seconds, 60))
    else SecondsOnly(seconds)
  }

  /** The template literals of `formatDuration`. */
  function Render(shape: Shape): string {
    match shape
    case HoursMinutes(h, m) => IntToString(h) + "h " + IntToString(m) + "m"
    case MinutesSeconds(m, s) => IntToString(m) + "m " + IntToString(s) + "s"
    case SecondsOnly(s) => IntToString(s) + "s"
  }

  /** `formatDuration(ms)`: a text that reads back as the breakdown of `ms`. */
  function FormatDuration(ms: int): (text: string)
    ensures ParseDuration(text) == Some(ShapeOf(ms))
  {
    ParseRender(ShapeOf(ms));
    Render(ShapeOf(ms))
  }

  /**
   * Reference definition: `shape` is the whole hours and the minutes beyond
   * them (from an hour up), or the whole minutes and the seconds beyond them
   * (from a minute up), or the whole seconds (below a minute), of `ms`.
   */
  ghost predicate Describes(shape: Shape, ms: int) {
    match shape
    case HoursMinutes(h, m) =>
      h >= 1 && 0 <= m < 60 && h * 3600000 + m * 60000 <= ms < h * 3600000 + m * 60000 + 60000
    case MinutesSeconds(m, s) =>
      1 <= m < 60 && 0 <= s < 60 && m * 60000 + s * 1000 <= ms < m * 60000 + s * 1000 + 1000
    case SecondsOnly(s) =>
      s < 60 && s * 1000 <= ms < s * 1000 + 1000
  }

  /** `formatDuration` computes the reference breakdown, with the form chosen by thresholds alone. */
  lemma ShapeOfDescribes(ms: int)
    ensures Describes(ShapeOf(ms), ms)
    ensures ShapeOf(ms).HoursMinutes? <==> ms >= 3600000
    ensures ShapeOf(ms).MinutesSeconds? <==> 60000 <= ms < 3600000
    ensures ShapeOf(ms).SecondsOnly? <==> ms < 60000
  {
    var seconds := FloorDiv(ms, 1000);
    var minutes := FloorDiv(seconds, 60);
    var hours := FloorDiv(minutes, 60);
    assert seconds * 1000 <= ms < seconds * 1000 + 1000;
    assert minutes * 60 <= seconds < minutes * 60 + 60;
    assert hours * 60 <= minutes < hours * 60 + 60;
    if hours > 0 {
      var m := JsRem(minutes, 60);
      assert minutes == hours * 60 + m;
    } else if minutes > 0 {
      var s := JsRem(seconds, 60);
      assert seconds == minutes * 60 + s;
    }
  }

  /** The reference breakdown admits one shape only, so it is the one `formatDuration` computes. */
  lemma DescribesUnique(shape: Shape, ms: int)
    requires Describes(shape, ms)
    ensures shape == ShapeOf(ms)
  {
    ShapeOfDescribes(ms);
    var other := ShapeOf(ms);
    match shape
    case HoursMinutes(h, m) =>
      assert h * 60 + m == other.hours * 60 + other.minutes;
    case MinutesSeconds(m, s) =>
      assert m * 60 + s == other.minutes * 60 + other.seconds;
    case SecondsOnly(s) =>
  }

  /** Below one second `formatDuration` writes "0s". */
  lemma BelowOneSecond(ms: int)
    requires 0 <= ms < 1000
    ensures FormatDuration(ms) == "0s"
  {
    assert ShapeOf(ms) == SecondsOnly(0);
  }

  // ---------------------------------------------------------------------
  // Reading a duration back: the written forms are unambiguous

  /** The last character of a field: its unit letter. */
  function Unit(field: string): char
    requires |field| >= 1
  {
    field[|field| - 1]
  }

  /** The text before the last character of a field, read as an integer. */
  function Number(field: string): Option<int>
    requires |field| >= 1
  {
    ParseInt(field[..|field| - 1])
  }

  /** Reads back a text `formatDuration` writes. */
  function ParseDuration(text: string): Option<Shape> {
    var fields := Split(text);
    if |fields| == 1 && |fields[0]| >= 1 && Unit(fields[0]) == 's' && Number(fields[0]).Some? then
      Some(SecondsOnly(Number(fields[0]).value))
    else if |fields| == 2 && |fields[0]| >= 1 && |fields[1]| >= 1 &&
            Number(fields[0]).Some? && Number(fields[1]).Some? then
      var a, b := Number(fields[0]).value, Number(fields[1]).value;
      if Unit(fields[0]) == 'h' && Unit(fields[1]) == 'm' then Some(HoursMinutes(a, b))
      else if Unit(fields[0]) == 'm' && Unit(fields[1]) == 's' then Some(MinutesSeconds(a, b))
      else None
    else None
  }

  /** A number followed by its unit letter reads back as that number. */
  lemma NumberWithUnit(n: int, u: char)
    ensures |IntToString(n) + [u]| >= 1
    ensures Unit(IntToString(n) + [u]) == u
    ensures Number(IntToString(n) + [u]) == Some(n)
  {
    var f := IntToString(n) + [u];
    assert f[..|f| - 1] == IntToString(n);
    ParseIntToString(n);
  }

  /** Every shape is read back from its text. */
  lemma ParseRender(shape: Shape)
    ensures ParseDuration(Render(shape)) == Some(shape)
  {
    match shape
    case HoursMinutes(h, m) =>
      var a, b := IntToString(h) + "h", IntToString(m) + "m";
      assert Render(shape) == a + " " + b;
      TwoFields(a, b, h, 'h', m, 'm');
    case MinutesSeconds(m, s) =>
      var a, b := IntToString(m) + "m", IntToString(s) + "s";
      assert Render(shape) == a + " " + b;
      TwoFields(a, b, m, 'm', s, 's');
    case SecondsOnly(s) =>
      var a := IntToString(s) + "s";
      SplitNoSpace(a);
      NumberWithUnit(s, 's');
  }

  lemma TwoFields(a: string, b: string, x: int, u: char, y: int, v: char)
    requires a == IntToString(x) + [u] && b == IntToString(y) + [v]
    requires u != ' ' && v != ' '
    ensures Split(a + " " + b) == [a, b]
    ensures Unit(a) == u && Number(a) == Some(x)
    ensures Unit(b) == v && Number(b) == Some(y)
  {
    SplitNoSpace(a);
    SplitNoSpace(b);
    SplitAppend(a, b);
    NumberWithUnit(x, u);
    NumberWithUnit(y, v);
  }

  /** The text `formatDuration` writes determines the breakdown, and so the window `ms` lies in. */
  lemma FormatDurationReadsBack(ms: int)
    ensures Describes(ParseDuration(FormatDuration(ms)).value, ms)
  {
    ShapeOfDescribes(ms);
  }

  // ---------------------------------------------------------------------
  // What the dashboard shows

  /** The written forms end in a unit letter. */
  lemma RenderEndsInUnit(shape: Shape)
    ensures |Render(shape)| >= 1
    ensures Render(shape)[|Render(shape)| - 1] in {'m', 's'}
  {
  }

  /** The session-duration cell: `session?.sessionDuration ? formatDuration(...) : 'N/A'`. */
  function DurationCell(sessionDuration: Option<int>): (cell: string)
    ensures cell == "N/A" <==> sessionDuration.None? || sessionDuration.value == 0
    ensures sessionDuration.Some? && sessionDuration.value != 0 ==> cell == FormatDuration(sessionDuration.value)
  {
    if sessionDuration.Some? && sessionDuration.value != 0 then
      var cell := FormatDuration(sessionDuration.value);
      RenderEndsInUnit(ShapeOf(sessionDuration.value));
      assert cell[|cell| - 1] != "N/A"[2];
      cell
    else "N/A"
  }

  /** One line of the active-sessions card: the name and the time since login. */
  datatype CardRow = CardRow(name: string, elapsed: string)

  /** The line for one session: `session.name` and `formatDuration(Date.now() - loginTime)`. */
  function Row(session: Auth.Session, now: int): CardRow {
    CardRow(session.name, FormatDuration(now - session.loginTime))
  }

  /** The active-sessions card: the number of sessions and the lines it lists. */
  datatype SessionsCard = SessionsCard(total: nat, rows: seq<CardRow>)

  const CardLimit := 3

  /** The card for the listing's sessions, drawn at time `now`. */
  function ActiveSessionsCard(sessions: seq<Auth.Session>, now: int): (card: SessionsCard)
    ensures card.total == |sessions|
    ensures |card.rows| == if |sessions| < CardLimit then |sessions| else CardLimit
    ensures forall i :: 0 <= i < |card.rows| ==> card.rows[i] == Row(sessions[i], now)
  {
    var shown := sessions[..if |sessions| < CardLimit then |sessions| else CardLimit];
    SessionsCard(|sessions|, seq(|shown|, i requires 0 <= i < |shown| => Row(shown[i], now)))
  }

  /**
   * Drawn from the sessions listing, the card counts every registry entry
   * and lists the first three in the registry's order.
   */
  lemma CardOfListing(sessions: map<string, Auth.Session>, order: seq<string>, now: int)
    requires Auth.OrderValid(sessions, order)
    ensures ActiveSessionsCard(Auth.ListSessions(sessions, order).body.activeSessions, now).total == |sessions|
    ensures |ActiveSessionsCard(Auth.ListSessions(sessions, order).body.activeSessions, now).rows| ==
      if |order| < CardLimit then |order| else CardLimit
    ensures forall i :: 0 <= i < CardLimit && i < |order| ==>
      ActiveSessionsCard(Auth.ListSessions(sessions, order).body.activeSessions, now).rows[i] ==
      Row(sessions[order[i]], now)
  {
    var items := Auth.ListSessions(sessions, order).body.activeSessions;
    assert |items| == |sessions| == |order|;
    var card := ActiveSessionsCard(items, now);
    forall i | 0 <= i < CardLimit && i < |order|
      ensures card.rows[i] == Row(sessions[order[i]], now)
    {
      assert items[i] == sessions[order[i]];
    }
  }
}
