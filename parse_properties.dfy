/**
  What `parse_time` promises about each family, stated on the text a user
  types and proved from the definitions in `TimeParser`.
 */
module ParseProperties {
  import opened Wrappers
  import opened Text
  import opened TimeParser

  /** The seconds in one unit word of the "через" family. */
  function Scale(unit: string): int {
    if unit == "минут" then Minute else if unit == "час" then Hour else Day
  }

  predicate IsUnit(unit: string) {
    unit == "минут" || unit == "час" || unit == "день"
  }

  lemma DigitsPlain(d: string)
    requires AllDigits(d)
    ensures AllLowered(d) && NoSpace(d)
  {
  }

  lemma LoweredAppend(a: string, b: string)
    requires AllLowered(a) && AllLowered(b)
    ensures AllLowered(a + b)
  {
  }

  /** Text that is lower case and has no whitespace at its ends is what
      the parser works on. */
  lemma NormalizeKeeps(t: string)
    requires AllLowered(t) && Trimmed(t)
    ensures Normalize(t) == t
  {
    LowerStrKeeps(t);
    StripTrimmed(t);
  }

  lemma UnitLetters(unit: string)
    requires IsUnit(unit)
    ensures unit != [] && forall k :: 0 <= k < |unit| ==> unit[k] != ' '
  {
  }

  /* The "через" family */

  /** The unit word the "через" family settles on in normalized text that
      holds "через" and that unit word but no unit word tried earlier. */
  lemma ThroughPicks(t: string, unit: string, now: int)
    requires IsUnit(unit)
    requires Contains(t, "через") && Contains(t, unit)
    requires unit != "минут" ==> !Contains(t, "минут")
    requires unit == "день" ==> !Contains(t, "час")
    ensures Through(t, now) == Later(t, unit, Scale(unit), now)
  {
  }

  /** Text whose normalized form holds "через" and a unit word, but no
      unit word tried earlier, yields the moment the amount in front of that
      unit word names, in units from now. */
  lemma ParseUnitFound(text: string, unit: string, n: nat, now: int)
    requires var t := Normalize(text);
      && IsUnit(unit) && Contains(t, "через") && Contains(t, unit)
      && (unit != "минут" ==> !Contains(t, "минут"))
      && (unit == "день" ==> !Contains(t, "час"))
      && Amount(t, unit) == Some(n)
    ensures Parse(text, now) == Some(now + n * Scale(unit))
  {
    var t := Normalize(text);
    ThroughPicks(t, unit, now);
    assert Through(t, now) == Found(now + n * Scale(unit));
  }

  /** When there is no amount (no word in front of the unit word, or no
      digit in that word) the call fails, and no later family is tried. */
  lemma ParseUnitFails(text: string, unit: string, now: int)
    requires var t := Normalize(text);
      && IsUnit(unit) && Contains(t, "через") && Contains(t, unit)
      && (unit != "минут" ==> !Contains(t, "минут"))
      && (unit == "день" ==> !Contains(t, "час"))
      && Amount(t, unit) == None
    ensures Parse(text, now) == None
  {
    var t := Normalize(text);
    ThroughPicks(t, unit, now);
    assert Through(t, now) == Raised;
  }

  /** The text of a "через" request is already normalized. */
  lemma ThroughNormal(w: string, pre: string, mid: string, unit: string, z: string)
    requires w == pre + "через "
    requires IsUnit(unit)
    requires AllLowered(pre) && AllLowered(mid) && AllLowered(z)
    requires pre == [] || !IsSpace(pre[0])
    requires z == [] || !IsSpace(z[|z| - 1])
    ensures Normalize(w + mid + unit + z) == w + mid + unit + z
  {
    var a := w + mid;
    var t := a + unit + z;
    LoweredAppend(pre, "через ");
    LoweredAppend(w, mid);
    LoweredAppend(a, unit);
    LoweredAppend(a + unit, z);
    assert t[0] == if pre == [] then 'ч' else pre[0];
    assert t[|t| - 1] == if z == [] then unit[|unit| - 1] else z[|z| - 1];
    NormalizeKeeps(t);
  }

  /** The text of a "через" request holds "через" and its unit word. */
  lemma ThroughHas(w: string, pre: string, mid: string, unit: string, z: string)
    requires w == pre + "через "
    ensures Contains(w + mid + unit + z, "через")
    ensures Contains(w + mid + unit + z, unit)
  {
    var a := w + mid;
    var t := a + unit + z;
    OccursAtJoin(pre, "через ");
    OccursAtShorter(w, "через ", 5, |pre|);
    assert "через "[..5] == "через";
    OccursAtExtend(w, mid, "через", |pre|);
    OccursAtExtend(a, unit, "через", |pre|);
    OccursAtExtend(a + unit, z, "через", |pre|);
    ContainsAt(t, "через", |pre|);
    OccursAtJoin(a, unit);
    OccursAtExtend(a + unit, z, unit, |a|);
    ContainsAt(t, unit, |a|);
  }

  /** The first piece of the text split at its unit word is the text in
      front of it, when the unit word does not occur there already. */
  lemma UnitPrefix(a: string, unit: string, z: string)
    requires IsUnit(unit) && !Contains(a, unit)
    requires a != [] && a[|a| - 1] == ' '
    ensures Split(a + unit + z, unit)[0] == a
  {
    UnitLetters(unit);
    IndexOfAfter(a, unit, z);
    assert (a + unit + z)[..|a|] == a;
  }

  /** The number in front of the unit word is `N`. */
  lemma ThroughAmount(w: string, n: nat, unit: string, z: string)
    requires IsUnit(unit)
    requires w != [] && w[|w| - 1] == ' '
    requires !Contains(w + (Show(n) + " "), unit)
    ensures Amount(w + (Show(n) + " ") + unit + z, unit) == Some(n)
  {
    var d := Show(n);
    var a := w + (d + " ");
    DigitsPlain(d);
    assert a == w + d + " ";
    UnitPrefix(a, unit, z);
    LastWordOf(w, d, " ");
    FilterAll(IsDigit, d);
    IntOfShow(n);
  }

  /** "… через N <unit>…": the moment `N` units from now, with minutes
      tried before hours and hours before days. The number is the last word
      in front of the unit word; the text before "через" and after the unit
      word is arbitrary lower-case text, as long as the unit word does not
      occur earlier and no unit word tried earlier occurs anywhere. */
  lemma ParseThrough(pre: string, n: nat, unit: string, z: string, now: int)
    requires IsUnit(unit)
    requires AllLowered(pre) && AllLowered(z)
    requires pre == [] || !IsSpace(pre[0])
    requires z == [] || !IsSpace(z[|z| - 1])
    requires !Contains(pre + "через " + Show(n) + " ", unit)
    requires unit != "минут" ==> !Contains(pre + "через " + Show(n) + " " + unit + z, "минут")
    requires unit == "день" ==> !Contains(pre + "через " + Show(n) + " " + unit + z, "час")
    ensures Parse(pre + "через " + Show(n) + " " + unit + z, now) == Some(now + n * Scale(unit))
  {
    var w := pre + "через ";
    var mid := Show(n) + " ";
    DigitsPlain(Show(n));
    LoweredAppend(Show(n), " ");
    assert w + mid == pre + "через " + Show(n) + " ";
    var t := w + mid + unit + z;
    ThroughNormal(w, pre, mid, unit, z);
    ThroughHas(w, pre, mid, unit, z);
    ThroughAmount(w, n, unit, z);
    ParseUnitFound(t, unit, n, now);
  }

  /** With nothing between "через" and the unit word, the word in front
      of the unit word is "через" itself, which has no digits. */
  lemma NoNumberAmount(pre: string, unit: string, z: string)
    requires IsUnit(unit)
    requires pre == [] || IsSpace(pre[|pre| - 1])
    requires !Contains(pre + "через ", unit)
    ensures Amount(pre + "через " + unit + z, unit) == None
  {
    var w := pre + "через ";
    UnitPrefix(w, unit, z);
    assert w == pre + "через" + " ";
    LastWordOf(pre, "через", " ");
    ThroughNoDigits();
  }

  lemma ThroughNoDigits()
    ensures Filter(IsDigit, "через") == []
  {
    FilterNone(IsDigit, "через");
  }

  /** "… через <unit>…" with no number: the call fails with `None`, even
      where a later family would have produced a moment. */
  lemma ParseThroughNoNumber(pre: string, unit: string, z: string, now: int)
    requires IsUnit(unit)
    requires AllLowered(pre) && AllLowered(z)
    requires pre == [] || (!IsSpace(pre[0]) && IsSpace(pre[|pre| - 1]))
    requires z == [] || !IsSpace(z[|z| - 1])
    requires !Contains(pre + "через ", unit)
    requires unit != "минут" ==> !Contains(pre + "через " + unit + z, "минут")
    requires unit == "день" ==> !Contains(pre + "через " + unit + z, "час")
    ensures Parse(pre + "через " + unit + z, now) == None
  {
    var w := pre + "через ";
    assert w + [] == w;
    ThroughNormal(w, pre, [], unit, z);
    ThroughHas(w, pre, [], unit, z);
    NoNumberAmount(pre, unit, z);
    ParseUnitFails(w + unit + z, unit, now);
  }

  lemma NoFallThroughText()
    ensures "через час в 10:00" == [] + "через " + "час" + " в 10:00"
  {
  }

  lemma NoFallThroughAbsent()
    ensures !Contains([] + "через ", "час")
    ensures !Contains([] + "через " + "час" + " в 10:00", "минут")
  {
    NoHourInThrough();
    NoFallThroughText();
    NoMinutes("через час в 10:00");
  }

  lemma NoHourInThrough()
    ensures !Contains([] + "через ", "час")
  {
    assert [] + "через " == "через ";
    NotContainsChar("через ", "час", 1);
  }

  lemma NoMinutes(s: string)
    requires s == "через час в 10:00"
    ensures !Contains(s, "минут")
  {
    NotContainsChar(s, "минут", 0);
  }

  /** "через час в 10:00": the hour has no number, so the call fails; the
      "в 10:00" that follows is never looked at. */
  lemma NoFallThroughExample(now: int)
    ensures Parse("через час в 10:00", now) == None
  {
    NoFallThroughAbsent();
    ParseThroughNoNumber([], "час", " в 10:00", now);
    NoFallThroughText();
  }

  /* The clock text shared by the "завтра" and "в" families */

  /** The clock text `a:b` of two digit runs is the time `a:b` on the day of
      `base`, or an error when either run is empty or out of range. */
  lemma ClockOf(a: string, b: string, base: int)
    requires AllDigits(a) && AllDigits(b)
    ensures Clock(a + ":" + b, base) ==
      if a != [] && b != [] then ReplaceClock(base, Value(a), Value(b)) else Raised
  {
    NotContains(a, ":", 0);
    NotContains(b, ":", 0);
    SplitOnce(a, ":", b);
  }

  /** Three digit runs joined by colons split into the three runs. */
  lemma SplitThree(a: string, b: string, c: string)
    requires AllDigits(a) && AllDigits(b) && AllDigits(c)
    ensures |Split(a + ":" + b + ":" + c, ":")| == 3
  {
    var rest := b + ":" + c;
    assert a + ":" + b + ":" + c == a + ":" + rest;
    NotContains(b, ":", 0);
    NotContains(c, ":", 0);
    SplitOnce(b, ":", c);
    SplitAtDigits(a, rest);
  }

  /** Splitting at the colon after a digit run. */
  lemma SplitAtDigits(a: string, rest: string)
    requires AllDigits(a)
    ensures Split(a + ":" + rest, ":") == [a] + Split(rest, ":")
  {
    var s := a + ":" + rest;
    NotContains(a, ":", 0);
    IndexOfAfter(a, ":", rest);
    assert s[..|a|] == a;
    assert s[|a| + 1..] == rest;
  }

  lemma ClockHasColon(a: string, b: string)
    ensures Contains(a + ":" + b, ":")
  {
    OccursAtJoin(a, ":");
    OccursAtExtend(a + ":", b, ":", |a|);
    ContainsAt(a + ":" + b, ":", |a|);
  }

  /* The "завтра" family */

  /** Clock text that splits at its colon into `a` and `b`, read on the
      day after `now`. */
  lemma TomorrowAtStep(ts: string, a: string, b: string, now: int)
    requires Split(ts, ":") == [a, b]
    requires AllDigits(a) && AllDigits(b)
    ensures TomorrowAt(ts, now) ==
      if a != [] && b != [] && Value(a) < 24 && Value(b) < 60
      then Found(DayStart(now) + Day + Value(a) * Hour + Value(b) * Minute)
      else Raised
  {
    SplitFirst(ts, ":");
    NextDay(now);
  }

  /** Text whose normalized form has "завтра" (where the "через" family
      does not apply: no "через", or none of its unit words), with the
      digits and colons after its last "в " splitting at the colon into `a`
      and `b`, names the time `a:b` on the day after `now`; an empty or
      out-of-range part fails. */
  lemma ParseTomorrow(text: string, a: string, b: string, now: int)
    requires var t := Normalize(text);
      && ThroughSkips(t) && Contains(t, "завтра")
      && Split(TomorrowClock(t), ":") == [a, b]
    requires AllDigits(a) && AllDigits(b)
    ensures Parse(text, now) ==
      if a != [] && b != [] && Value(a) < 24 && Value(b) < 60
      then Some(DayStart(now) + Day + Value(a) * Hour + Value(b) * Minute)
      else None
  {
    TomorrowAtStep(TomorrowClock(Normalize(text)), a, b, now);
  }

  /** A "завтра" clock text with a colon that does not split into exactly
      two pieces fails: `map(int, ...)` does not unpack into two names. */
  lemma ParseTomorrowColons(text: string, now: int)
    requires var t := Normalize(text);
      && ThroughSkips(t) && Contains(t, "завтра")
      && Contains(TomorrowClock(t), ":") && |Split(TomorrowClock(t), ":")| != 2
    ensures Parse(text, now) == None
  {
  }

  /** So two colons fail. */
  lemma ParseTomorrowTwoColons(text: string, a: string, b: string, c: string, now: int)
    requires var t := Normalize(text);
      && ThroughSkips(t) && Contains(t, "завтра")
      && TomorrowClock(t) == a + ":" + b + ":" + c
    requires AllDigits(a) && AllDigits(b) && AllDigits(c)
    ensures Parse(text, now) == None
  {
    ClockHasColon(a, b + ":" + c);
    assert a + ":" + (b + ":" + c) == a + ":" + b + ":" + c;
    SplitThree(a, b, c);
    ParseTomorrowColons(text, now);
  }

  /** The clock of the "завтра" family depends only on the date of `now`,
      not on its time of day. */
  lemma TomorrowSameDay(text: string, now1: int, now2: int)
    requires var t := Normalize(text);
      ThroughSkips(t) && Contains(t, "завтра") && Contains(TomorrowClock(t), ":")
    requires DayStart(now1) == DayStart(now2)
    ensures Parse(text, now1) == Parse(text, now2)
  {
    var ts := TomorrowClock(Normalize(text));
    NextDay(now1);
    NextDay(now2);
    ClockSameDay(ts, now1 + Day, now2 + Day);
  }

  lemma ClockSameDay(ts: string, base1: int, base2: int)
    requires DayStart(base1) == DayStart(base2)
    ensures Clock(ts, base1) == Clock(ts, base2)
  {
  }

  /** The pieces of "… завтра в a:b" around its one "в ". */
  lemma TomorrowShape(pre: string, a: string, b: string)
    ensures pre + "завтра в " + a + ":" + b == (pre + "завтра ") + "в " + (a + ":" + b)
  {
  }

  lemma TomorrowSplit(pre: string, a: string, b: string)
    requires AllDigits(a) && AllDigits(b)
    requires !Contains(pre + "завтра ", "в ")
    ensures TomorrowClock(pre + "завтра в " + a + ":" + b) == a + ":" + b
  {
    var w := pre + "завтра ";
    var c := a + ":" + b;
    TomorrowShape(pre, a, b);
    NotContains(c, "в ", 0);
    assert w[|w| - 1] == ' ';
    SplitOnce(w, "в ", c);
    OccursAtJoin(w, "в ");
    OccursAtExtend(w + "в ", c, "в ", |w|);
    ContainsAt(w + "в " + c, "в ", |w|);
    FilterAll(IsClockChar, c);
  }

  lemma TomorrowText(pre: string, a: string, b: string)
    requires AllLowered(pre) && (pre == [] || !IsSpace(pre[0]))
    requires AllDigits(a) && AllDigits(b)
    ensures var t := pre + "завтра в " + a + ":" + b;
      Normalize(t) == t && Contains(t, "завтра")
  {
    var w := pre + "завтра в ";
    var t := w + a + ":" + b;
    DigitsPlain(a);
    DigitsPlain(b);
    LoweredAppend(pre, "завтра в ");
    LoweredAppend(w, a);
    LoweredAppend(w + a, ":");
    LoweredAppend(w + a + ":", b);
    assert t[0] == if pre == [] then 'з' else pre[0];
    assert t[|t| - 1] == if b == [] then ':' else b[|b| - 1];
    NormalizeKeeps(t);
    OccursAtJoin(pre, "завтра в ");
    OccursAtShorter(w, "завтра в ", 6, |pre|);
    assert "завтра в "[..6] == "завтра";
    OccursAtExtend(w, a, "завтра", |pre|);
    OccursAtExtend(w + a, ":", "завтра", |pre|);
    OccursAtExtend(w + a + ":", b, "завтра", |pre|);
    ContainsAt(t, "завтра", |pre|);
  }

  /** "… завтра в H:M": the time H:M on the day after `now`, for any
      lower-case text in front that has no "в " of its own. */
  lemma ParseTomorrowAt(pre: string, a: string, b: string, now: int)
    requires AllLowered(pre) && (pre == [] || !IsSpace(pre[0]))
    requires AllDigits(a) && AllDigits(b)
    requires !Contains(pre + "завтра ", "в ")
    requires ThroughSkips(pre + "завтра в " + a + ":" + b)
    ensures Parse(pre + "завтра в " + a + ":" + b, now) ==
      if a != [] && b != [] && Value(a) < 24 && Value(b) < 60
      then Some(DayStart(now) + Day + Value(a) * Hour + Value(b) * Minute)
      else None
  {
    TomorrowText(pre, a, b);
    TomorrowSplit(pre, a, b);
    ClockSplit(a, b);
    ParseTomorrow(pre + "завтра в " + a + ":" + b, a, b, now);
  }

  /* The "в HH:MM" family */

  /** The first moment at or after `now` whose wall clock reads `x` seconds
      past midnight. */
  function NextAt(now: int, x: int): int {
    now + (x - now % Day) % Day
  }

  /** That moment is less than a day away and reads `x`. */
  lemma NextAtSpec(now: int, x: int)
    requires 0 <= x < Day
    ensures now <= NextAt(now, x) < now + Day
    ensures NextAt(now, x) % Day == x
  {
  }

  /** Only one moment in the day from `now` on reads `x`. */
  lemma NextAtUnique(now: int, x: int, r: int)
    requires 0 <= x < Day
    requires now <= r < now + Day && r % Day == x
    ensures r == NextAt(now, x)
  {
    NextAtSpec(now, x);
  }

  /** Today at `x`, or tomorrow at `x` when that is already past, is the
      next moment reading `x`. */
  lemma RollOver(now: int, x: int)
    requires 0 <= x < Day
    ensures var r := DayStart(now) + x;
      (if r < now then r + Day else r) == NextAt(now, x)
  {
    DayStartSpec(now);
  }

  /** The "в" family on text that has the guard and whose digits and
      colons split at the colon into `a` and `b`. */
  lemma AtStep(t: string, a: string, b: string, now: int)
    requires StartsWith(t, "в ") || Contains(t, " в ")
    requires Split(Filter(IsClockChar, t), ":") == [a, b]
    requires AllDigits(a) && AllDigits(b)
    ensures At(t, now) ==
      if a != [] && b != [] && Value(a) < 24 && Value(b) < 60
      then Found(NextAt(now, Value(a) * Hour + Value(b) * Minute))
      else Raised
  {
    AtClockStep(Filter(IsClockChar, t), a, b, now);
  }

  /** Clock text that splits at its colon into `a` and `b`. */
  lemma AtClockStep(ts: string, a: string, b: string, now: int)
    requires Split(ts, ":") == [a, b]
    requires AllDigits(a) && AllDigits(b)
    ensures AtClock(ts, now) ==
      if a != [] && b != [] && Value(a) < 24 && Value(b) < 60
      then Found(NextAt(now, Value(a) * Hour + Value(b) * Minute))
      else Raised
  {
    SplitFirst(ts, ":");
    if a != [] && b != [] && Value(a) < 24 && Value(b) < 60 {
      var x := Value(a) * Hour + Value(b) * Minute;
      assert Clock(ts, now) == Found(DayStart(now) + x);
      AtClockFound(ts, now, x);
    }
  }

  lemma AtClockFound(ts: string, now: int, x: int)
    requires Contains(ts, ":") && 0 <= x < Day
    requires Clock(ts, now) == Found(DayStart(now) + x)
    ensures AtClock(ts, now) == Found(NextAt(now, x))
  {
    RollOver(now, x);
  }

  /** When neither the "через" nor the "завтра" family applies, the "в"
      family decides. */
  lemma ParseByAt(text: string, now: int)
    requires var t := Normalize(text);
      ThroughSkips(t) && TomorrowSkips(t) && At(t, now) != Skip
    ensures var s := At(Normalize(text), now);
      Parse(text, now) == if s.Found? then Some(s.moment) else None
  {
    ThroughFallsThrough(text, now);
    TomorrowFallsThrough(Normalize(text), now);
  }

  /** Text whose normalized form starts with "в " or holds " в " (where
      neither the "через" nor the "завтра" family applies), with all its
      digits and colons reading
      `a:b`, names the next moment at `a:b`: today, or tomorrow when today's
      is already past. An empty or out-of-range part fails. */
  lemma ParseAt(text: string, a: string, b: string, now: int)
    requires var t := Normalize(text);
      && ThroughSkips(t) && TomorrowSkips(t)
      && (StartsWith(t, "в ") || Contains(t, " в "))
      && Split(Filter(IsClockChar, t), ":") == [a, b]
    requires AllDigits(a) && AllDigits(b)
    ensures Parse(text, now) ==
      if a != [] && b != [] && Value(a) < 24 && Value(b) < 60
      then Some(NextAt(now, Value(a) * Hour + Value(b) * Minute))
      else None
  {
    AtStep(Normalize(text), a, b, now);
    ParseByAt(text, now);
  }

  lemma AtShape(pre: string, a: string, b: string)
    ensures pre + " в " + a + ":" + b == pre + " в " + (a + ":" + b)
  {
  }

  /** The clock text of "… в a:b" is every digit of the text in front,
      followed by `a:b`. */
  lemma AtFilter(pre: string, a: string, b: string)
    requires AllDigits(a) && AllDigits(b)
    ensures Filter(IsClockChar, pre + " в " + a + ":" + b) == Filter(IsClockChar, pre) + (a + ":" + b)
  {
    var c := a + ":" + b;
    AtShape(pre, a, b);
    FilterAppend(IsClockChar, pre + " в ", c);
    FilterAppend(IsClockChar, pre, " в ");
    FilterNone(IsClockChar, " в ");
    FilterAll(IsClockChar, c);
    assert Filter(IsClockChar, pre) + [] == Filter(IsClockChar, pre);
  }

  lemma AtText(pre: string, a: string, b: string)
    requires AllLowered(pre) && pre != [] && !IsSpace(pre[0])
    requires AllDigits(a) && AllDigits(b)
    ensures var t := pre + " в " + a + ":" + b;
      Normalize(t) == t && Contains(t, " в ")
  {
    var w := pre + " в ";
    var t := w + a + ":" + b;
    DigitsPlain(a);
    DigitsPlain(b);
    LoweredAppend(pre, " в ");
    LoweredAppend(w, a);
    LoweredAppend(w + a, ":");
    LoweredAppend(w + a + ":", b);
    assert t[0] == pre[0];
    assert t[|t| - 1] == if b == [] then ':' else b[|b| - 1];
    NormalizeKeeps(t);
    OccursAtJoin(pre, " в ");
    OccursAtExtend(w, a, " в ", |pre|);
    OccursAtExtend(w + a, ":", " в ", |pre|);
    OccursAtExtend(w + a + ":", b, " в ", |pre|);
    ContainsAt(t, " в ", |pre|);
  }

  /** "… в a:b": the clock reads the digits of the text in front of " в "
      glued to `a` as the hour, followed by `b` as the minute. */
  lemma ParseAtClock(text: string, pre: string, h: string, a: string, b: string, now: int)
    requires text == pre + " в " + a + ":" + b
    requires h == Filter(IsClockChar, pre) + a
    requires AllLowered(pre) && pre != [] && !IsSpace(pre[0])
    requires AllDigits(Filter(IsClockChar, pre))
    requires AllDigits(a) && AllDigits(b)
    requires ThroughSkips(text) && TomorrowSkips(text)
    ensures AllDigits(h)
    ensures Parse(text, now) ==
      if h != [] && b != [] && Value(h) < 24 && Value(b) < 60
      then Some(NextAt(now, Value(h) * Hour + Value(b) * Minute))
      else None
  {
    AtText(pre, a, b);
    AtFilter(pre, a, b);
    assert Filter(IsClockChar, pre) + (a + ":" + b) == h + ":" + b;
    DigitsJoin(Filter(IsClockChar, pre), a);
    ClockSplit(h, b);
    ParseAtNormal(text, h, b, now);
  }

  /** Two digit runs joined by a colon split back into the two runs. */
  lemma ClockSplit(a: string, b: string)
    requires AllDigits(a) && AllDigits(b)
    ensures Split(a + ":" + b, ":") == [a, b]
  {
    NotContains(a, ":", 0);
    NotContains(b, ":", 0);
    SplitOnce(a, ":", b);
  }

  lemma DigitsJoin(a: string, b: string)
    requires AllDigits(a) && AllDigits(b)
    ensures AllDigits(a + b)
  {
  }

  /** `ParseAt` for text that normalization leaves alone. */
  lemma ParseAtNormal(t: string, a: string, b: string, now: int)
    requires Normalize(t) == t
    requires ThroughSkips(t) && TomorrowSkips(t) && Contains(t, " в ")
    requires Split(Filter(IsClockChar, t), ":") == [a, b]
    requires AllDigits(a) && AllDigits(b)
    ensures Parse(t, now) ==
      if a != [] && b != [] && Value(a) < 24 && Value(b) < 60
      then Some(NextAt(now, Value(a) * Hour + Value(b) * Minute))
      else None
  {
    ParseAt(t, a, b, now);
  }

  lemma BreadSplit(x: string, y: string, a: string, b: string)
    requires x == "купить " && y == " хлеба" && a == "10" && b == "00"
    ensures x + "2" + y + " в " + a + ":" + b == "купить 2 хлеба в 10:00"
  {
  }

  /** Neither piece of the task text has a "ч" or a "з". */
  lemma BreadLetters(x: string, y: string)
    requires x == "купить " && y == " хлеба"
    ensures 'ч' !in x && 'ч' !in y && 'з' !in x && 'з' !in y
  {
  }

  /** Both pieces are lower case, and the first starts with a letter. */
  lemma BreadLowered(x: string, y: string)
    requires x == "купить " && y == " хлеба"
    ensures AllLowered(x + "2" + y) && !IsSpace((x + "2" + y)[0])
  {
    LoweredAppend(x, "2");
    LoweredAppend(x + "2", y);
  }

  /** Neither piece has a digit or a colon. */
  lemma BreadNoClock(x: string, y: string)
    requires x == "купить " && y == " хлеба"
    ensures Filter(IsClockChar, x) == [] && Filter(IsClockChar, y) == []
  {
    NoClockChars(x);
    NoClockChars(y);
  }

  /** The whole request has neither "через" nor "завтра". */
  lemma BreadAbsent(x: string, y: string, a: string, b: string)
    requires 'ч' !in x && 'ч' !in y && 'з' !in x && 'з' !in y
    requires a == "10" && b == "00"
    ensures var text := x + "2" + y + " в " + a + ":" + b;
      !Contains(text, "через") && !Contains(text, "завтра")
  {
    var text := x + "2" + y + " в " + a + ":" + b;
    assert 'ч' !in text;
    NotContainsChar(text, "через", 0);
    assert 'з' !in text;
    NotContainsChar(text, "завтра", 0);
  }

  /** Text none of whose characters is a digit or a colon keeps none. */
  lemma NoClockChars(s: string)
    requires forall c :: c in "0123456789:" ==> c !in s
    ensures Filter(IsClockChar, s) == []
  {
    forall i | 0 <= i < |s| ensures !IsClockChar(s[i]) {
      assert s[i] in s;
    }
    FilterNone(IsClockChar, s);
  }

  lemma BreadDigits(x: string, y: string)
    requires Filter(IsClockChar, x) == [] && Filter(IsClockChar, y) == []
    ensures Filter(IsClockChar, x + "2" + y) == "2"
  {
    FilterAppend(IsClockChar, x + "2", y);
    FilterAppend(IsClockChar, x, "2");
    FilterAll(IsClockChar, "2");
  }

  lemma BreadHour()
    ensures Value("2" + "10") == 210
  {
    assert "2" + "10" == "210";
    assert "210"[..2] == "21";
    assert "21"[..1] == "2";
    assert "2"[..0] == "";
  }

  /** "купить 2 хлеба в 10:00": the "2" of the task joins the hour, "210"
      is no hour, and the call fails. */
  lemma BreadExample(now: int)
    ensures Parse("купить 2 хлеба в 10:00", now) == None
  {
    var x, y, a, b := "купить ", " хлеба", "10", "00";
    BreadSplit(x, y, a, b);
    BreadLetters(x, y);
    BreadLowered(x, y);
    BreadNoClock(x, y);
    BreadDigits(x, y);
    BreadAbsent(x, y, a, b);
    BreadHour();
    BreadParse(x + "2" + y + " в " + a + ":" + b, x + "2" + y, a, b, now);
  }

  lemma BreadParse(text: string, pre: string, a: string, b: string, now: int)
    requires text == pre + " в " + a + ":" + b && a == "10" && b == "00"
    requires AllLowered(pre) && pre != [] && !IsSpace(pre[0])
    requires Filter(IsClockChar, pre) == "2" && Value("2" + "10") == 210
    requires !Contains(text, "через") && !Contains(text, "завтра")
    ensures Parse(text, now) == None
  {
    assert ThroughSkips(text) && TomorrowSkips(text);
    ParseAtClock(text, pre, "2" + "10", a, b, now);
  }

  /* Falling through: a family whose guard fails hands the text on */

  /** When the "через" family does not apply (no "через", or "через"
      with none of "минут", "час", "день") the text is parsed as if that
      family were not there. */
  lemma ThroughFallsThrough(text: string, now: int)
    requires ThroughSkips(Normalize(text))
    ensures Parse(text, now) == FromTomorrow(Normalize(text), now)
  {
  }

  /** When the "завтра" family does not apply (no "завтра", or no colon
      in its clock text) the "в" family is tried next. */
  lemma TomorrowFallsThrough(t: string, now: int)
    requires TomorrowSkips(t)
    ensures FromTomorrow(t, now) == FromAt(t, now)
  {
  }

  /** When the "в" family does not apply the bare-digit family decides. */
  lemma AtFallsThrough(t: string, now: int)
    requires AtSkips(t)
    ensures FromAt(t, now) == FromBare(t, now)
  {
  }

  /** "неделю" is none of the unit words: "через неделю" has none of the
      letters "м", "а", "ь" that "минут", "час" and "день" need. */
  lemma WeekLetters(pre: string)
    requires pre == "через неделю"
    ensures 'м' !in pre && 'а' !in pre && 'ь' !in pre
  {
  }

  /** "через неделю" is lower case and starts with a letter. */
  lemma WeekLowered(pre: string)
    requires pre == "через неделю"
    ensures AllLowered(pre) && pre != [] && !IsSpace(pre[0])
  {
  }

  /** "через неделю" has no digit or colon. */
  lemma WeekNoClock(pre: string)
    requires pre == "через неделю"
    ensures Filter(IsClockChar, pre) == []
  {
    NoClockChars(pre);
  }

  /** With none of those letters before " в 10:00", neither the "через"
      family nor the "завтра" family applies. */
  lemma WeekAbsent(pre: string, a: string, b: string)
    requires 'м' !in pre && 'а' !in pre && 'ь' !in pre
    requires a == "10" && b == "00"
    ensures var text := pre + " в " + a + ":" + b;
      ThroughSkips(text) && TomorrowSkips(text)
  {
    var text := pre + " в " + a + ":" + b;
    assert 'м' !in text && 'а' !in text && 'ь' !in text;
    NotContainsChar(text, "минут", 0);
    NotContainsChar(text, "час", 1);
    NotContainsChar(text, "день", 3);
    NotContainsChar(text, "завтра", 1);
  }

  lemma WeekText(pre: string, a: string, b: string)
    requires pre == "через неделю" && a == "10" && b == "00"
    ensures pre + " в " + a + ":" + b == "через неделю в 10:00"
  {
  }

  /** The digit runs "10" and "00". */
  lemma TenOClock(a: string, b: string)
    requires a == "10" && b == "00"
    ensures AllDigits(a) && AllDigits(b) && Value(a) == 10 && Value(b) == 0
  {
    assert a[..1] == "1" && "1"[..0] == "";
    assert b[..1] == "0" && "0"[..0] == "";
  }

  lemma WeekParse(text: string, pre: string, a: string, b: string, now: int)
    requires text == pre + " в " + a + ":" + b
    requires AllLowered(pre) && pre != [] && !IsSpace(pre[0]) && Filter(IsClockChar, pre) == []
    requires AllDigits(a) && AllDigits(b) && a != [] && b != [] && Value(a) == 10 && Value(b) == 0
    requires ThroughSkips(text) && TomorrowSkips(text)
    ensures Parse(text, now) == Some(NextAt(now, 10 * Hour))
  {
    assert Filter(IsClockChar, pre) + a == a;
    ParseAtClock(text, pre, a, a, b, now);
  }

  /** "через неделю в 10:00": "неделю" is none of the unit words, so the
      "через" family hands the text on, and the "в" family reads the next
      10:00. */
  lemma UnknownUnitExample(now: int)
    ensures Parse("через неделю в 10:00", now) == Some(NextAt(now, 10 * Hour))
  {
    var pre, a, b := "через неделю", "10", "00";
    WeekText(pre, a, b);
    WeekLetters(pre);
    WeekLowered(pre);
    WeekNoClock(pre);
    WeekAbsent(pre, a, b);
    TenOClock(a, b);
    WeekParse(pre + " в " + a + ":" + b, pre, a, b, now);
  }

  /** "через 5 дней" has none of the letters "ь", "м", "а", "в". */
  lemma DaysLetters(t: string)
    requires t == "через 5 дней"
    ensures 'ь' !in t && 'м' !in t && 'а' !in t && 'в' !in t
  {
  }

  /** Without those letters the "через" and "завтра" families do not apply
      ("дней" does not hold "день"), and there is no "в ". */
  lemma DaysAbsent(t: string)
    requires 'ь' !in t && 'м' !in t && 'а' !in t && 'в' !in t
    ensures ThroughSkips(t) && TomorrowSkips(t) && !Contains(t, "в ")
  {
    NotContainsChar(t, "минут", 0);
    NotContainsChar(t, "час", 1);
    NotContainsChar(t, "день", 3);
    NotContainsChar(t, "завтра", 1);
    NotContainsChar(t, "в ", 0);
  }

  /** "через 5 дней" is normalized and is not a number. */
  lemma DaysWords(t: string)
    requires t == "через 5 дней"
    ensures Normalize(t) == t && !(t != [] && AllDigits(t))
  {
    assert !IsDigit(t[0]);
    assert AllLowered(t) && Trimmed(t);
    NormalizeKeeps(t);
  }

  /** "через 5 дней": no family applies, and the call gives `None`. */
  lemma DaysExample(now: int)
    ensures Parse("через 5 дней", now) == None
  {
    DaysLetters("через 5 дней");
    DaysAbsent("через 5 дней");
    DaysWords("через 5 дней");
    NoAtGuard("через 5 дней");
    ParseNoMatch("через 5 дней", now);
  }

  /** When `o` follows the only "в " of the text and has no colon, the
      "завтра" family does not apply. */
  lemma ClockAfterLast(w: string, o: string)
    requires w != [] && w[|w| - 1] != 'в'
    requires !Contains(w, "в ") && !Contains(o, "в ") && Filter(IsClockChar, o) == []
    ensures TomorrowSkips(w + "в " + o)
  {
    SplitOnce(w, "в ", o);
    SplitFirst(w + "в " + o, "в ");
    assert TomorrowClock(w + "в " + o) == [];
  }

  /** "x c " has no "в " when `x` has none, does not end in "в" and `c`
      has no "в". */
  lemma NoAtBefore(x: string, c: string)
    requires x != [] && x[|x| - 1] != 'в' && 'в' !in c
    requires !Contains(x, "в ")
    ensures !Contains(x + " " + c + " ", "в ")
  {
    var m := " " + c + " ";
    assert 'в' !in m;
    NotContainsChar(m, "в ", 0);
    NotContainsJoin(x, m, "в ");
    assert x + m == x + " " + c + " ";
  }

  /** In "x c в o" with no "в " inside `x` or `o` and none across the
      seams, the last "в " is the one before `o`; when `o` has no colon
      the "завтра" family does not apply. */
  lemma TrailingSkip(x: string, c: string, o: string)
    requires x != [] && x[|x| - 1] != 'в' && 'в' !in c
    requires !Contains(x, "в ") && !Contains(o, "в ") && Filter(IsClockChar, o) == []
    ensures TomorrowSkips(x + " " + c + " в " + o)
  {
    NoAtBefore(x, c);
    ClockAfterLast(x + " " + c + " ", o);
    assert x + " " + c + " в " + o == (x + " " + c + " ") + "в " + o;
  }

  /** "x c в o" holds " в ". */
  lemma TrailingAt(x: string, c: string, o: string)
    ensures Contains(x + " " + c + " в " + o, " в ")
  {
    OccursAtJoin(x + " " + c, " в ");
    OccursAtExtend(x + " " + c + " в ", o, " в ", |x + " " + c|);
    ContainsAt(x + " " + c + " в " + o, " в ", |x + " " + c|);
  }

  /** The digits and colons of "x c в o" are those of `c` when `x` and `o`
      have none. */
  lemma TrailingClock(x: string, c: string, o: string)
    requires Filter(IsClockChar, x) == [] && Filter(IsClockChar, o) == []
    requires forall i :: 0 <= i < |c| ==> IsClockChar(c[i])
    ensures Filter(IsClockChar, x + " " + c + " в " + o) == c
  {
    FilterAppend(IsClockChar, x + " " + c + " в ", o);
    FilterAppend(IsClockChar, x + " " + c, " в ");
    FilterAppend(IsClockChar, x + " ", c);
    FilterAppend(IsClockChar, x, " ");
    FilterNone(IsClockChar, " ");
    FilterNone(IsClockChar, " в ");
    FilterAll(IsClockChar, c);
  }

  /** "x c в o" is left as it is by normalization when its pieces are lower
      case and its ends are not whitespace. */
  lemma TrailingNormal(x: string, c: string, o: string)
    requires AllLowered(x) && x != [] && !IsSpace(x[0])
    requires AllLowered(o) && o != [] && !IsSpace(o[|o| - 1])
    requires AllLowered(c)
    ensures Normalize(x + " " + c + " в " + o) == x + " " + c + " в " + o
  {
    var t := x + " " + c + " в " + o;
    LoweredAppend(x, " ");
    LoweredAppend(x + " ", c);
    LoweredAppend(x + " " + c, " в ");
    LoweredAppend(x + " " + c + " в ", o);
    assert t[0] == x[0] && t[|t| - 1] == o[|o| - 1];
    NormalizeKeeps(t);
  }

  /** "x a:b в o", where the place `o` after the last "в " has no digit or
      colon: the "завтра" family finds no colon after the last "в " and
      hands the text on, so even with "завтра" in front the "в" family
      reads the next `a:b`, today's when it is still ahead. */
  lemma ParseTrailingPlace(x: string, a: string, b: string, o: string, now: int)
    requires AllLowered(x) && x != [] && !IsSpace(x[0]) && x[|x| - 1] != 'в'
    requires AllLowered(o) && o != [] && !IsSpace(o[|o| - 1])
    requires Filter(IsClockChar, x) == [] && Filter(IsClockChar, o) == []
    requires !Contains(x, "в ") && !Contains(o, "в ")
    requires AllDigits(a) && AllDigits(b)
    requires ThroughSkips(x + " " + (a + ":" + b) + " в " + o)
    ensures Parse(x + " " + (a + ":" + b) + " в " + o, now) ==
      if a != [] && b != [] && Value(a) < 24 && Value(b) < 60
      then Some(NextAt(now, Value(a) * Hour + Value(b) * Minute))
      else None
  {
    var c := a + ":" + b;
    assert 'в' !in c && AllLowered(c) by {
      DigitsPlain(a);
      DigitsPlain(b);
      LoweredAppend(a, ":");
      LoweredAppend(a + ":", b);
    }
    TrailingSkip(x, c, o);
    TrailingAt(x, c, o);
    TrailingClock(x, c, o);
    TrailingNormal(x, c, o);
    ClockSplit(a, b);
    ParseAtNormal(x + " " + c + " в " + o, a, b, now);
  }

  /** The pieces "завтра" and "офисе" are lower case and start and end
      with letters. */
  lemma OfficeLowered(x: string, o: string)
    requires x == "завтра" && o == "офисе"
    ensures AllLowered(x) && x != [] && !IsSpace(x[0]) && x[|x| - 1] != 'в'
    ensures AllLowered(o) && o != [] && !IsSpace(o[|o| - 1])
  {
  }

  /** Neither piece has a digit or a colon. */
  lemma OfficeNoClock(x: string, o: string)
    requires x == "завтра" && o == "офисе"
    ensures Filter(IsClockChar, x) == [] && Filter(IsClockChar, o) == []
  {
    NoClockChars(x);
    NoClockChars(o);
  }

  /** Neither piece has "в " or a "ч". */
  lemma OfficeLetters(x: string, o: string)
    requires x == "завтра" && o == "офисе"
    ensures !Contains(x, "в ") && !Contains(o, "в ") && 'ч' !in x && 'ч' !in o
  {
    assert ' ' !in x && 'в' !in o;
    NotContainsChar(x, "в ", 1);
    NotContainsChar(o, "в ", 0);
  }

  lemma OfficeText(x: string, a: string, b: string, o: string)
    requires x == "завтра" && a == "10" && b == "00" && o == "офисе"
    ensures x + " " + (a + ":" + b) + " в " + o == "завтра 10:00 в офисе"
  {
  }

  /** Text without "ч" has no "через". */
  lemma NoThrough(x: string, a: string, b: string, o: string)
    requires 'ч' !in x && 'ч' !in o && AllDigits(a) && AllDigits(b)
    ensures ThroughSkips(x + " " + (a + ":" + b) + " в " + o)
  {
    var t := x + " " + (a + ":" + b) + " в " + o;
    assert 'ч' !in t;
    NotContainsChar(t, "через", 0);
  }

  /** "завтра 10:00 в офисе": the next 10:00, not tomorrow's. */
  lemma TomorrowNoClockExample(now: int)
    ensures Parse("завтра 10:00 в офисе", now) == Some(NextAt(now, 10 * Hour))
  {
    var x, a, b, o := "завтра", "10", "00", "офисе";
    OfficeText(x, a, b, o);
    OfficeLowered(x, o);
    OfficeNoClock(x, o);
    OfficeLetters(x, o);
    TenOClock(a, b);
    NoThrough(x, a, b, o);
    ParseTrailingPlace(x, a, b, o, now);
  }

  /* Bare digits and text that no family takes */

  /** Text that is a number once stripped is that many minutes from now. */
  lemma ParseBare(text: string, now: int)
    requires var t := Normalize(text); t != [] && AllDigits(t)
    ensures Parse(text, now) == Some(now + Minute * Value(Normalize(text)))
  {
    var t := Normalize(text);
    NotContains(t, "через", 0);
    NotContains(t, "завтра", 0);
    NotContains(t, " в ", 0);
    NotContains(t, "в ", 0);
    NotStartsWith(t, "в ");
  }

  /** Text without "в " has no "в" guard. */
  lemma NoAtGuard(t: string)
    requires !Contains(t, "в ")
    ensures AtSkips(t)
  {
    NotStartsWith(t, "в ");
    assert " в "[1..] == "в ";
    NotContainsWider(t, " в ", 1);
  }

  /** Text to which no family applies and that is not a number gives
      `None`. */
  lemma ParseNoMatch(text: string, now: int)
    requires var t := Normalize(text);
      && ThroughSkips(t) && TomorrowSkips(t) && AtSkips(t)
      && !(t != [] && AllDigits(t))
    ensures Parse(text, now) == None
  {
  }

  /** "обед в офисе" has the "в" guard but no colon: no family applies,
      and the call gives `None`. */
  lemma NoClockExample(now: int)
    ensures Parse("обед в офисе", now) == None
  {
    LunchLetters("обед в офисе");
    LunchNoClock("обед в офисе");
    LunchAbsent("обед в офисе");
    LunchNormal("обед в офисе");
    ParseNoMatch("обед в офисе", now);
  }

  /** "обед в офисе" has no "ч" or "з". */
  lemma LunchLetters(t: string)
    requires t == "обед в офисе"
    ensures 'ч' !in t && 'з' !in t
  {
  }

  /** "обед в офисе" has no digit or colon. */
  lemma LunchNoClock(t: string)
    requires t == "обед в офисе"
    ensures Filter(IsClockChar, t) == []
  {
    NoClockChars(t);
  }

  /** Without "ч" and "з" neither the "через" nor the "завтра" family
      applies, and without a colon the "в" family does not either. */
  lemma LunchAbsent(t: string)
    requires 'ч' !in t && 'з' !in t && Filter(IsClockChar, t) == []
    ensures ThroughSkips(t) && TomorrowSkips(t) && AtSkips(t)
  {
    NotContainsChar(t, "через", 0);
    NotContainsChar(t, "завтра", 0);
    assert !Contains(Filter(IsClockChar, t), ":");
  }

  /** "обед в офисе" is normalized and is not a number. */
  lemma LunchNormal(t: string)
    requires t == "обед в офисе"
    ensures Normalize(t) == t && !(t != [] && AllDigits(t))
  {
    assert !IsDigit(t[0]);
    assert AllLowered(t) && Trimmed(t);
    NormalizeKeeps(t);
  }

  /** The empty text gives `None`. */
  lemma ParseEmpty(now: int)
    ensures Parse("", now) == None
  {
    assert Normalize("") == "";
    NoAtGuard("");
    ParseNoMatch("", now);
  }
}
