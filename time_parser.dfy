/**
  `parse_time`: turns the Russian time expression of a reminder request into
  a moment. Moments are whole seconds on a line with fixed 86400-second days;
  the current moment `now` is a parameter.

  The text is lower-cased and stripped, then four families are tried in a
  fixed order. Each family either does not apply (`Skip`, the next family is
  tried), produces a moment (`Found`), or raises ValueError / IndexError
  (`Raised`), which ends the whole call with `None` without trying the
  families after it.
 */
module TimeParser {
  import opened Wrappers
  import opened Text

  const Minute: int := 60
  const Hour: int := 3600
  const Day: int := 86400

  /** The outcome of one family of the parser. */
  datatype Step = Skip | Found(moment: int) | Raised

  /** Midnight of the day that holds `t`. */
  function DayStart(t: int): int {
    t - t % Day
  }

  lemma DayStartSpec(t: int)
    ensures DayStart(t) <= t < DayStart(t) + Day
    ensures DayStart(t) % Day == 0
  {
  }

  /** The moment `x` seconds after midnight `d` lies on the day of `d`. */
  lemma WallClock(d: int, x: int)
    requires d % Day == 0 && 0 <= x < Day
    ensures DayStart(d + x) == d && (d + x) % Day == x
  {
  }

  lemma NextDay(t: int)
    ensures DayStart(t + Day) == DayStart(t) + Day
  {
  }

  /** `t.replace(hour=h, minute=m, second=0, microsecond=0)`: the moment on
      the day of `t` whose wall clock reads `h:m`; ValueError when the hour
      is outside 0..23 or the minute outside 0..59. */
  function ReplaceClock(t: int, h: int, m: int): (r: Step)
    ensures r.Found? <==> 0 <= h < 24 && 0 <= m < 60
  {
    if 0 <= h < 24 && 0 <= m < 60 then Found(DayStart(t) + h * Hour + m * Minute) else Raised
  }

  /** The moment `replace` gives lies on the day of `t` and its wall clock
      reads `h:m`. */
  lemma ReplaceClockSpec(t: int, h: int, m: int)
    requires 0 <= h < 24 && 0 <= m < 60
    ensures DayStart(ReplaceClock(t, h, m).moment) == DayStart(t)
    ensures ReplaceClock(t, h, m).moment % Day == h * Hour + m * Minute
  {
    DayStartSpec(t);
    WallClock(DayStart(t), h * Hour + m * Minute);
  }

  /** `hours, minutes = map(int, ts.split(':'))` followed by `replace` on
      `base`: exactly two pieces, both numbers, or ValueError. */
  function Clock(ts: string, base: int): (r: Step)
    ensures r != Skip
  {
    var parts := Split(ts, ":");
    if |parts| != 2 then Raised
    else
      match (IntOf(parts[0]), IntOf(parts[1]))
      case (Some(h), Some(m)) => ReplaceClock(base, h, m)
      case _ => Raised
  }

  /** The characters kept by the two clock families: digits and `:`. */
  predicate IsClockChar(c: char) {
    IsDigit(c) || c == ':'
  }

  /** `int(''.join(filter(str.isdigit, t.split(unit)[0].split()[-1])))`:
      the number written in the last word before the first `unit`;
      `None` where Python raises (no word there, or no digit in it). */
  function Amount(t: string, unit: string): Option<nat>
    requires unit != []
  {
    match LastWord(Split(t, unit)[0])
    case None => None
    case Some(w) => IntOf(Filter(IsDigit, w))
  }

  /** `now + timedelta(...)` for the amount in front of `unit`. */
  function Later(t: string, unit: string, scale: nat, now: int): (r: Step)
    requires unit != []
    ensures r != Skip
    ensures r.Found? ==> r.moment >= now
  {
    match Amount(t, unit)
    case None => Raised
    case Some(n) => Found(now + n * scale)
  }

  /** The "через" family does not apply: there is no "через", or none of
      its unit words occurs anywhere in the text. */
  predicate ThroughSkips(t: string) {
    !Contains(t, "через") || (!Contains(t, "минут") && !Contains(t, "час") && !Contains(t, "день"))
  }

  /** The "через" family: a number of minutes, hours or days from now. The
      unit words are looked for in the whole text, minutes first; when none
      is there the family does not apply. */
  function Through(t: string, now: int): (r: Step)
    ensures r.Skip? <==> ThroughSkips(t)
    ensures r.Found? ==> r.moment >= now
  {
    if !Contains(t, "через") then Skip
    else if Contains(t, "минут") then Later(t, "минут", Minute, now)
    else if Contains(t, "час") then Later(t, "час", Hour, now)
    else if Contains(t, "день") then Later(t, "день", Day, now)
    else Skip
  }

  /** The clock text of the "завтра" family: the digits and colons of what
      follows the last "в ", or of the whole text when there is no "в ". */
  function TomorrowClock(t: string): string {
    var parts := Split(t, "в ");
    var part := if Contains(t, "в ") then parts[|parts| - 1] else t;
    Filter(IsClockChar, part)
  }

  /** The "завтра" family does not apply: there is no "завтра", or its
      clock text has no colon. */
  predicate TomorrowSkips(t: string) {
    !Contains(t, "завтра") || !Contains(TomorrowClock(t), ":")
  }

  /** The "завтра" family: a wall-clock time on the day after `now`. */
  function Tomorrow(t: string, now: int): (r: Step)
    ensures r.Skip? <==> TomorrowSkips(t)
    ensures r.Found? ==> r.moment >= DayStart(now) + Day
  {
    if !Contains(t, "завтра") then Skip else TomorrowAt(TomorrowClock(t), now)
  }

  /** The clock text `ts` of the "завтра" family read on the day after
      `now`; it does not apply when there is no colon. */
  function TomorrowAt(ts: string, now: int): (r: Step)
    ensures r.Found? ==> r.moment >= DayStart(now) + Day
  {
    if !Contains(ts, ":") then Skip
    else
      NextDay(now);
      Clock(ts, now + Day)
  }

  /** The "в HH:MM" family does not apply: the text neither starts with
      "в " nor holds " в ", or its digits and colons have no colon. */
  predicate AtSkips(t: string) {
    !(StartsWith(t, "в ") || Contains(t, " в ")) || !Contains(Filter(IsClockChar, t), ":")
  }

  /** The "в HH:MM" family: the digits and colons of the whole text read as
      a wall-clock time today, moved to tomorrow when it is already past. */
  function At(t: string, now: int): (r: Step)
    ensures r.Skip? <==> AtSkips(t)
    ensures r.Found? ==> now <= r.moment < now + Day
  {
    if !(StartsWith(t, "в ") || Contains(t, " в ")) then Skip
    else AtClock(Filter(IsClockChar, t), now)
  }

  /** The clock text `ts` of the "в HH:MM" family; it does not apply when
      there is no colon. */
  function AtClock(ts: string, now: int): (r: Step)
    ensures r.Found? ==> now <= r.moment < now + Day
  {
    if !Contains(ts, ":") then Skip
    else
      DayStartSpec(now);
      match Clock(ts, now)
      case Found(r) => if r < now then Found(r + Day) else Found(r)
      case _ => Raised
  }

  /** Bare digits: that many minutes from now. */
  function Bare(t: string, now: int): (r: Step)
    ensures r.Found? ==> r.moment >= now
  {
    if t != [] && AllDigits(t) then Found(now + Minute * Value(t)) else Skip
  }

  /** `parse_time(text)` at the moment `now`: the first family that applies
      decides, an error ends the call with `None`, and so does running out of
      families. The moment it returns is never before `now`. */
  function Parse(text: string, now: int): (r: Option<int>)
    ensures r.Some? ==> r.value >= now
  {
    FromThrough(Normalize(text), now)
  }

  /** The normalized text `t` from the "через" family on. */
  function FromThrough(t: string, now: int): (r: Option<int>)
    ensures r.Some? ==> r.value >= now
  {
    match Through(t, now)
    case Found(r) => Some(r)
    case Raised => None
    case Skip => FromTomorrow(t, now)
  }

  /** From the "завтра" family on. */
  function FromTomorrow(t: string, now: int): (r: Option<int>)
    ensures r.Some? ==> r.value >= now
  {
    DayStartSpec(now);
    match Tomorrow(t, now)
    case Found(r) => Some(r)
    case Raised => None
    case Skip => FromAt(t, now)
  }

  /** From the "в HH:MM" family on. */
  function FromAt(t: string, now: int): (r: Option<int>)
    ensures r.Some? ==> r.value >= now
  {
    match At(t, now)
    case Found(r) => Some(r)
    case Raised => None
    case Skip => FromBare(t, now)
  }

  /** The last family, bare digits; nothing is left to try after it. */
  function FromBare(t: string, now: int): (r: Option<int>)
    ensures r.Some? ==> r.value >= now
  {
    match Bare(t, now)
    case Found(r) => Some(r)
    case _ => None
  }

  /** `text.lower().strip()`. */
  function Normalize(text: string): string {
    Strip(LowerStr(text))
  }
}
