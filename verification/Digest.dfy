/**
 * When a scheduled digest is due, and what that means over a run of sweeps. The local clock
 * is read by the time-zone library; here its readings are inputs.
 */
module Digest {
  import opened Basics
  import opened Decimals
  import opened Text

  // ---- Times ----

  function DigitOf(c: char): nat
    requires IsDigit(c)
  {
    c as int - '0' as int
  }

  /** One or two digits. */
  function ReadHour(s: string): Option<nat> {
    if |s| == 1 && IsDigit(s[0]) then Some(DigitOf(s[0]))
    else if |s| == 2 && IsDigit(s[0]) && IsDigit(s[1]) then Some(10 * DigitOf(s[0]) + DigitOf(s[1]))
    else None
  }

  /** `HH:MM` as minutes past midnight; `None` for anything malformed. */
  function ParseTime(value: string): (r: Option<nat>)
    ensures r.Some? ==> r.value < 1440
  {
    var s := Trim(value);
    if |s| < 4 || s[|s| - 3] != ':' then None
    else
      match (ReadHour(s[..|s| - 3]), ReadHour(s[|s| - 2..]))
      case (Some(hour), Some(minute)) => if hour > 23 || minute > 59 then None else Some(hour * 60 + minute)
      case _ => None
  }

  function TwoDigits(n: nat): string
    requires n < 100
  {
    [('0' as int + n / 10) as char, ('0' as int + n % 10) as char]
  }

  lemma {:induction false} TwoDigitsRead(n: nat)
    requires n < 100
    ensures |TwoDigits(n)| == 2 && ReadHour(TwoDigits(n)) == Some(n)
  {
  }

  /** Every minute of the day can be asked for. */
  lemma {:induction false} EveryTimeParses(hour: nat, minute: nat)
    requires hour < 24 && minute < 60
    ensures ParseTime(TwoDigits(hour) + ":" + TwoDigits(minute)) == Some(hour * 60 + minute)
  {
    TwoDigitsRead(hour);
    TwoDigitsRead(minute);
    var s := TwoDigits(hour) + ":" + TwoDigits(minute);
    assert Trim(s) == s by {
      assert !IsSpace(s[0]) && !IsSpace(s[4]);
    }
    assert s[..2] == TwoDigits(hour) && s[3..] == TwoDigits(minute);
  }

  /** An hour of one digit or two. */
  predicate SpellsHour(s: string, hour: nat) {
    hour < 24 && (s == TwoDigits(hour) || (hour < 10 && s == [('0' as int + hour) as char]))
  }

  ghost predicate SpellsTime(s: string, hour: nat, minute: nat) {
    minute < 60 && exists h :: SpellsHour(h, hour) && s == h + ":" + TwoDigits(minute)
  }

  lemma {:induction false} HourReadsExactly(s: string, n: nat)
    requires n < 100
    ensures ReadHour(s) == Some(n) <==> s == TwoDigits(n) || (n < 10 && s == [('0' as int + n) as char])
  {
    if |s| == 2 && IsDigit(s[0]) && IsDigit(s[1]) {
      DigitsAre(s[0], s[1]);
    }
  }

  lemma DigitsAre(c: char, d: char)
    requires IsDigit(c) && IsDigit(d)
    ensures TwoDigits(10 * DigitOf(c) + DigitOf(d)) == [c, d]
  {
  }

  lemma {:induction false} ReadIsSpelt(value: string, hour: nat, minute: nat)
    requires minute < 60 && ParseTime(value) == Some(hour * 60 + minute)
    ensures SpellsTime(Trim(value), hour, minute)
  {
    var s := Trim(value);
    hide Trim;
    assert s == s[..|s| - 3] + ":" + s[|s| - 2..];
    HourReadsExactly(s[..|s| - 3], hour);
    HourReadsExactly(s[|s| - 2..], minute);
    assert SpellsHour(s[..|s| - 3], hour);
  }

  lemma {:induction false} SpeltIsRead(value: string, hour: nat, minute: nat)
    requires SpellsTime(Trim(value), hour, minute)
    ensures ParseTime(value) == Some(hour * 60 + minute)
  {
    var s := Trim(value);
    hide Trim;
    var h :| SpellsHour(h, hour) && s == h + ":" + TwoDigits(minute);
    assert s[..|s| - 3] == h && s[|s| - 2..] == TwoDigits(minute);
    HourReadsExactly(h, hour);
    HourReadsExactly(TwoDigits(minute), minute);
  }

  /**
   * A time is read exactly if, trimmed, it is an hour below 24 of one or two digits, a colon and a
   * minute below 60 of two digits; nothing else is.
   */
  lemma {:induction false} TimeReadsExactly(value: string)
    ensures forall hour, minute | minute < 60 ::
              ParseTime(value) == Some(hour * 60 + minute) <==> SpellsTime(Trim(value), hour, minute)
    ensures ParseTime(value).Some? <==> exists hour, minute :: SpellsTime(Trim(value), hour, minute)
  {
    hide ParseTime, SpellsTime, Trim;
    forall hour, minute | minute < 60
      ensures ParseTime(value) == Some(hour * 60 + minute) <==> SpellsTime(Trim(value), hour, minute)
    {
      if SpellsTime(Trim(value), hour, minute) {
        SpeltIsRead(value, hour, minute);
      }
      if ParseTime(value) == Some(hour * 60 + minute) {
        ReadIsSpelt(value, hour, minute);
      }
    }
    if ParseTime(value).Some? {
      var t := ParseTime(value).value;
      assert t == t / 60 * 60 + t % 60;
      ReadIsSpelt(value, t / 60, t % 60);
    }
    if hour, minute :| SpellsTime(Trim(value), hour, minute) {
      SpeltIsRead(value, hour, minute);
    }
  }

  // ---- Due ----

  /** A local date and minutes past its midnight. */
  datatype Reading = Reading(day: int, minute: nat)

  /** The last digest, read on the user's clock: `None` when there was none or the zone is unknown. */
  predicate IsCovered(scheduled: nat, now: Reading, last: Option<Reading>) {
    last.Some? && last.value.day == now.day && last.value.minute >= scheduled
  }

  predicate FiresFor(time: string, now: Reading, last: Option<Reading>) {
    var scheduled := ParseTime(time);
    scheduled.Some? && scheduled.value <= now.minute && !IsCovered(scheduled.value, now, last)
  }

  predicate IsDue(times: seq<string>, now: Option<Reading>, last: Option<Reading>) {
    now.Some? && exists i :: 0 <= i < |times| && FiresFor(times[i], now.value, last)
  }

  method IsDigestDue(times: seq<string>, now: Option<Reading>, last: Option<Reading>) returns (due: bool)
    ensures due <==> IsDue(times, now, last)
  {
    hide ParseTime;
    if now.None? {
      return false;
    }
    var local := now.value.minute;
    var sameDay := last.Some? && last.value.day == now.value.day;
    for i := 0 to |times|
      invariant forall j :: 0 <= j < i ==> !FiresFor(times[j], now.value, last)
    {
      var scheduled := ParseTime(times[i]);
      if scheduled.None? {
        continue;
      }
      if local < scheduled.value {
        continue;
      }
      if sameDay && last.value.minute >= scheduled.value {
        continue;
      }
      assert FiresFor(times[i], now.value, last);
      return true;
    }
    due := false;
  }

  // ---- Runs ----

  /** A sweep at `now`; if it finds a digest due, one goes out and is noted at `noted`. */
  datatype Tick = Tick(now: Reading, noted: Reading)

  function Next(times: seq<string>, last: Option<Reading>, t: Tick): Option<Reading> {
    if IsDue(times, Some(t.now), last) then Some(t.noted) else last
  }

  function Run(times: seq<string>, last: Option<Reading>, ticks: seq<Tick>): Option<Reading>
    decreases |ticks|
  {
    if ticks == [] then last
    else Next(times, Run(times, last, ticks[..|ticks| - 1]), ticks[|ticks| - 1])
  }

  /** Digests that went out from sweeps on a local day. */
  function SentOn(times: seq<string>, last: Option<Reading>, ticks: seq<Tick>, day: int): nat
    decreases |ticks|
  {
    if ticks == [] then 0
    else
      var before, t := ticks[..|ticks| - 1], ticks[|ticks| - 1];
      SentOn(times, last, before, day)
      + if t.now.day == day && IsDue(times, Some(t.now), Run(times, last, before)) then 1 else 0
  }

  /** The local date never goes back, though the minute may. */
  predicate DatesGoOn(last: Option<Reading>, ticks: seq<Tick>) {
    && (last.Some? && ticks != [] ==> last.value.day <= ticks[0].now.day)
    && (forall i :: 0 <= i < |ticks| ==> ticks[i].now.day <= ticks[i].noted.day)
    && (forall i, j :: 0 <= i < j < |ticks| ==> ticks[i].noted.day <= ticks[j].now.day)
  }

  /** The distinct well-formed times. */
  function Minutes(times: seq<string>): set<nat> {
    if times == [] then {}
    else
      var rest, t := Minutes(times[..|times| - 1]), ParseTime(times[|times| - 1]);
      if t.Some? then rest + {t.value} else rest
  }

  /** A digest found due is not noted before a scheduled time that had passed by then. */
  predicate IsNotedInTime(times: seq<string>, t: Tick) {
    t.noted.day == t.now.day ==> forall s <- Minutes(times) :: s <= t.now.minute ==> s <= t.noted.minute
  }

  predicate NotedInTime(times: seq<string>, ticks: seq<Tick>) {
    forall i :: 0 <= i < |ticks| ==> IsNotedInTime(times, ticks[i])
  }

  lemma {:induction false} TimeIsAmongMinutes(times: seq<string>, i: nat)
    requires i < |times| && ParseTime(times[i]).Some?
    ensures ParseTime(times[i]).value in Minutes(times)
  {
    hide ParseTime;
    if i < |times| - 1 {
      assert times[..|times| - 1][i] == times[i];
      TimeIsAmongMinutes(times[..|times| - 1], i);
    }
  }

  lemma {:induction false} MinuteHasTime(times: seq<string>, s: nat) returns (i: nat)
    requires s in Minutes(times)
    ensures i < |times| && ParseTime(times[i]) == Some(s)
  {
    hide ParseTime;
    i := |times| - 1;
    if ParseTime(times[i]) != Some(s) {
      i := MinuteHasTime(times[..|times| - 1], s);
    }
  }

  function UpTo(minutes: set<nat>, m: nat): set<nat> {
    set s | s in minutes && s <= m
  }

  lemma {:induction false} UpToGrows(minutes: set<nat>, lower: nat, s: nat, upper: nat)
    requires s in minutes && lower < s <= upper
    ensures |UpTo(minutes, upper)| >= |UpTo(minutes, lower)| + 1
  {
    var small, big := UpTo(minutes, lower), UpTo(minutes, upper);
    assert small + {s} <= big;
    SubsetIsSmaller(small + {s}, big);
  }

  lemma {:induction false} UpToIsSome(minutes: set<nat>, s: nat, upper: nat)
    requires s in minutes && s <= upper
    ensures |UpTo(minutes, upper)| >= 1
  {
    assert {s} <= UpTo(minutes, upper);
    SubsetIsSmaller({s}, UpTo(minutes, upper));
  }

  lemma {:induction false} PrefixGoesOn(times: seq<string>, last: Option<Reading>, before: seq<Tick>, t: Tick)
    requires DatesGoOn(last, before + [t]) && NotedInTime(times, before + [t])
    ensures DatesGoOn(last, before) && NotedInTime(times, before)
    ensures t.now.day <= t.noted.day && IsNotedInTime(times, t)
    ensures before != [] ==> before[|before| - 1].noted.day <= t.now.day
    ensures last.Some? ==> last.value.day <= t.now.day
  {
    var all := before + [t];
    assert all[|before|] == t && forall i :: 0 <= i < |before| ==> all[i] == before[i];
    if before != [] {
      assert all[0].noted.day <= all[|before|].now.day;
      assert all[|before| - 1].noted.day <= all[|before|].now.day;
    }
  }

  /** The last digest was noted no later than the latest sweep's note. */
  lemma {:induction false} LastIsNotAhead(times: seq<string>, last: Option<Reading>, ticks: seq<Tick>, day: int)
    requires DatesGoOn(last, ticks) && NotedInTime(times, ticks)
    requires ticks != [] ==> ticks[|ticks| - 1].noted.day <= day
    requires last.Some? ==> last.value.day <= day
    ensures Run(times, last, ticks).Some? ==> Run(times, last, ticks).value.day <= day
    decreases |ticks|
  {
    hide IsDue, DatesGoOn, NotedInTime;
    if ticks != [] {
      var before, t := ticks[..|ticks| - 1], ticks[|ticks| - 1];
      assert ticks == before + [t];
      PrefixGoesOn(times, last, before, t);
      LastIsNotAhead(times, last, before, day);
    }
  }

  /** What holds on a day between sweeps: each digest sent accounts for another time passed. */
  predicate DayHolds(times: seq<string>, last: Option<Reading>, sent: nat, day: int) {
    && sent <= |Minutes(times)|
    && (sent > 0 ==> last.Some? && last.value.day >= day)
    && (sent > 0 && last.value.day == day ==> sent <= |UpTo(Minutes(times), last.value.minute)|)
  }

  lemma {:induction false} TickKeepsTheDay(times: seq<string>, last: Option<Reading>, sent: nat, t: Tick, day: int)
    requires DayHolds(times, last, sent, day)
    requires last.Some? ==> last.value.day <= t.now.day
    requires t.now.day <= t.noted.day && IsNotedInTime(times, t)
    ensures var due := IsDue(times, Some(t.now), last);
            DayHolds(times, Next(times, last, t), sent + (if t.now.day == day && due then 1 else 0), day)
  {
    hide ParseTime, Minutes, UpTo;
    if IsDue(times, Some(t.now), last) && t.now.day == day {
      var i :| 0 <= i < |times| && FiresFor(times[i], t.now, last);
      TimeIsAmongMinutes(times, i);
      var s, all := ParseTime(times[i]).value, Minutes(times);
      var upper := if t.noted.day == day then t.noted.minute else t.now.minute;
      if sent > 0 {
        UpToGrows(all, last.value.minute, s, upper);
      } else {
        UpToIsSome(all, s, upper);
      }
      UpToIsPart(all, upper);
    }
  }

  lemma {:induction false} UpToIsPart(minutes: set<nat>, m: nat)
    ensures |UpTo(minutes, m)| <= |minutes|
  {
    SubsetIsSmaller(UpTo(minutes, m), minutes);
  }

  /**
   * On one local day at most one digest goes out for each distinct well-formed time, however
   * often the sweep runs and wherever the minute jumps between sweeps.
   */
  lemma {:induction false} OneDigestForEachTime(times: seq<string>, last: Option<Reading>, ticks: seq<Tick>, day: int)
    requires DatesGoOn(last, ticks) && NotedInTime(times, ticks)
    ensures SentOn(times, last, ticks, day) <= |Minutes(times)|
    ensures DayHolds(times, Run(times, last, ticks), SentOn(times, last, ticks, day), day)
    decreases |ticks|
  {
    hide IsDue, Minutes, DatesGoOn, NotedInTime, DayHolds;
    if ticks == [] {
      DayStarts(times, last, day);
    } else {
      var before, t := ticks[..|ticks| - 1], ticks[|ticks| - 1];
      assert ticks == before + [t];
      PrefixGoesOn(times, last, before, t);
      OneDigestForEachTime(times, last, before, day);
      LastIsNotAhead(times, last, before, t.now.day);
      TickKeepsTheDay(times, Run(times, last, before), SentOn(times, last, before, day), t, day);
    }
    DayBounds(times, Run(times, last, ticks), SentOn(times, last, ticks, day), day);
  }

  lemma {:induction false} DayStarts(times: seq<string>, last: Option<Reading>, day: int)
    ensures DayHolds(times, last, 0, day)
  {
  }

  lemma {:induction false} DayBounds(times: seq<string>, last: Option<Reading>, sent: nat, day: int)
    requires DayHolds(times, last, sent, day)
    ensures sent <= |Minutes(times)|
  {
  }

  /**
   * After a sweep, a time already passed that day is covered, by a digest noted that day or
   * on a later one, unless the sweep was due and its digest noted before that time.
   */
  lemma {:induction false} PassedTimesAreCovered(times: seq<string>, last: Option<Reading>, t: Tick, i: nat)
    requires i < |times| && ParseTime(times[i]).Some? && ParseTime(times[i]).value <= t.now.minute
    requires t.now.day <= t.noted.day
    ensures var s, after := ParseTime(times[i]).value, Next(times, last, t);
            IsCovered(s, t.now, after) || (after.Some? && after.value.day > t.now.day)
            <==> !(IsDue(times, Some(t.now), last) && t.noted.day == t.now.day && t.noted.minute < s)
  {
    if !IsDue(times, Some(t.now), last) {
      assert !FiresFor(times[i], t.now, last);
    }
  }

  /** A second sweep at the same reading is due again exactly when the first was not noted in time. */
  lemma {:induction false} DueAgainExactly(times: seq<string>, last: Option<Reading>, t: Tick)
    requires IsDue(times, Some(t.now), last) && t.noted.day == t.now.day
    ensures IsDue(times, Some(t.now), Next(times, last, t)) <==> !IsNotedInTime(times, t)
  {
    hide ParseTime;
    var all := Minutes(times);
    if IsDue(times, Some(t.now), Some(t.noted)) {
      var i :| 0 <= i < |times| && FiresFor(times[i], t.now, Some(t.noted));
      TimeIsAmongMinutes(times, i);
      assert ParseTime(times[i]).value in all;
    }
    if s :| s in all && s <= t.now.minute && t.noted.minute < s {
      var i := MinuteHasTime(times, s);
      assert FiresFor(times[i], t.now, Some(t.noted));
    }
  }

  /** If the clock is set back between the two, one time can send two digests on one day. */
  lemma {:induction false} SetBackSendsTwice(time: string, scheduled: nat, day: int)
    requires ParseTime(time) == Some(scheduled) && scheduled > 0
    ensures var first := Tick(Reading(day, scheduled), Reading(day, scheduled - 1));
            var second := Tick(Reading(day, scheduled), Reading(day, scheduled));
            && DatesGoOn(None, [first, second]) && |Minutes([time])| == 1
            && SentOn([time], None, [first, second], day) == 2
  {
    hide ParseTime;
    var first := Tick(Reading(day, scheduled), Reading(day, scheduled - 1));
    var second := Tick(Reading(day, scheduled), Reading(day, scheduled));
    assert [time][..0] == [];
    assert Minutes([time]) == Minutes([]) + {scheduled};
    assert FiresFor([time][0], first.now, None);
    assert FiresFor([time][0], second.now, Some(first.noted));
    assert [first, second][..1] == [first] && [first][..0] == [];
    assert Run([time], None, [first]) == Some(first.noted);
    assert SentOn([time], None, [first], day) == 1;
  }
}
