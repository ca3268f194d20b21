/**
  The event card: the day ordinal, the 12-hour clock, the date-and-time line,
  the RSVP counts, the active RSVP button and the avatar row.
  Weekday and month names come from the browser locale and enter as text.
*/
module EventCard {
  import opened Wrappers
  import opened Strings
  import opened JsMath

  /** `getOrdinal`: "th" for 4 to 20, otherwise by the last digit. */
  function Ordinal(n: int): (r: string)
    ensures r in ["st", "nd", "rd", "th"]
    ensures 3 < n < 21 ==> r == "th"
  {
    if n > 3 && n < 21 then "th"
    else
      var d := JsRem(n, 10);
      if d == 1 then "st" else if d == 2 then "nd" else if d == 3 then "rd" else "th"
  }

  /** The suffixes of the English calendar, day by day. */
  function CalendarSuffix(day: int): string {
    if day == 1 || day == 21 || day == 31 then "st"
    else if day == 2 || day == 22 then "nd"
    else if day == 3 || day == 23 then "rd"
    else "th"
  }

  /** For every day of a month the ordinal is the calendar's. */
  lemma OrdinalMatchesCalendar(day: int)
    requires 1 <= day <= 31
    ensures Ordinal(day) == CalendarSuffix(day)
  {
  }

  /** A negative number never reads "st", "nd" or "rd": JavaScript's remainder is negative there. */
  lemma NegativeIsTh(n: int)
    requires n < 0
    ensures Ordinal(n) == "th"
  {
  }

  /** The hour on a 12-hour dial. */
  function Hour12(h: nat): (r: nat)
    ensures 1 <= r <= 12
    ensures r % 12 == h % 12
  {
    if h % 12 == 0 then 12 else h % 12
  }

  /** A time of day as read from `"HH:MM[:SS]"`; seconds are absent for `"HH:MM"`. */
  datatype Clock = Clock(h: nat, m: nat, s: Option<nat>)

  /** `h < 12 ? "AM" : "PM"`. */
  function Meridiem(h: nat): (r: string)
    ensures |r| == 2
    ensures r == "AM" <==> h < 12
  {
    if h < 12 then "AM" else "PM"
  }

  /** Everything after the hour's `:`. */
  function ClockTail(c: Clock): (t: string)
    ensures |t| >= 5
    ensures t[|t| - 2..] == Meridiem(c.h)
  {
    Pad2(c.m) + (if c.s.Some? && c.s.value != 0 then ":" + Pad2(c.s.value) else "") + " " + Meridiem(c.h)
  }

  /** The `startStr`/`endStr` template: seconds show only when present and non-zero. */
  function FormatClock(c: Clock): (r: string)
    ensures |r| >= 2 && (r[|r| - 2..] == "AM" <==> c.h < 12)
  {
    var t := ClockTail(c);
    assert (NatToString(Hour12(c.h)) + ":" + t)[|NatToString(Hour12(c.h)) + ":" + t| - 2..] == t[|t| - 2..];
    NatToString(Hour12(c.h)) + ":" + t
  }

  lemma Pad2Exact(n: nat)
    requires n < 100
    ensures |Pad2(n)| == 2 && AllDigits(Pad2(n)) && DigitsValue(Pad2(n)) == n
  {
    if n < 10 {
      DigitsValueOfNat(n);
      assert Pad2(n)[..1] == "0";
    } else {
      DigitsValueOfNat(n);
      DigitsValueOfNat(n / 10);
      assert NatToString(n)[..1] == NatToString(n / 10);
    }
  }

  /** Read a 12-hour time back into 24-hour hour and minutes: the hour before the first `:`, two minute digits, the meridiem at the end. */
  function ReadClock(r: string): (hm: Option<(nat, nat)>) {
    var hour := Before(r, ':');
    if |hour| + 3 > |r| || !AllDigits(hour) || !AllDigits(r[|hour| + 1..|hour| + 3]) || |r| < 2 then None
    else
      var h12 := DigitsValue(hour) % 12;
      var m := DigitsValue(r[|hour| + 1..|hour| + 3]);
      if r[|r| - 2..] == "AM" then Some((h12, m))
      else if r[|r| - 2..] == "PM" then Some((h12 + 12, m))
      else None
  }

  lemma TailMinutes(c: Clock)
    requires c.m < 60
    ensures ClockTail(c)[..2] == Pad2(c.m)
  {
    Pad2Exact(c.m);
  }

  lemma HourDigits(n: nat)
    ensures ':' !in NatToString(n)
  {
    var hour := NatToString(n);
    forall i | 0 <= i < |hour| ensures hour[i] != ':' {
      assert IsDigit(hour[i]);
    }
  }

  /** Reading a string shaped like a displayed time. */
  lemma ReadClockOf(hour: string, tail: string)
    requires AllDigits(hour) && ':' !in hour
    requires |tail| >= 2 && AllDigits(tail[..2])
    requires tail[|tail| - 2..] == "AM" || tail[|tail| - 2..] == "PM"
    ensures ReadClock(hour + [':'] + tail)
         == Some((DigitsValue(hour) % 12 + (if tail[|tail| - 2..] == "AM" then 0 else 12), DigitsValue(tail[..2])))
  {
    var r := hour + [':'] + tail;
    BeforeSplit(hour, ':', tail);
    assert r[|hour| + 1..|hour| + 3] == tail[..2];
    assert r[|r| - 2..] == tail[|tail| - 2..];
  }

  /** The 12-hour dial and the meridiem give back the 24-hour hour. */
  lemma HourBack(h: nat)
    requires h < 24
    ensures Hour12(h) % 12 + (if h < 12 then 0 else 12) == h
  {
  }

  /** The displayed time determines the hour and minute it came from. */
  lemma ReadFormatClock(c: Clock)
    requires c.h < 24 && c.m < 60
    ensures ReadClock(FormatClock(c)) == Some((c.h, c.m))
  {
    var hour := NatToString(Hour12(c.h));
    var tail := ClockTail(c);
    assert FormatClock(c) == hour + [':'] + tail;
    HourDigits(Hour12(c.h));
    TailMinutes(c);
    Pad2Exact(c.m);
    ReadClockOf(hour, tail);
    DigitsValueOfNat(Hour12(c.h));
    HourBack(c.h);
  }

  /** Two different times of day never display the same. */
  lemma ClockInjective(a: Clock, b: Clock)
    requires a.h < 24 && a.m < 60
    requires b.h < 24 && b.m < 60
    ensures FormatClock(a) == FormatClock(b) ==> a.h == b.h && a.m == b.m
  {
    ReadFormatClock(a);
    ReadFormatClock(b);
  }

  /** Midnight is 12 AM and noon is 12 PM. */
  lemma MidnightAndNoon()
    ensures FormatClock(Clock(0, 0, None)) == "12:00 AM"
    ensures FormatClock(Clock(12, 30, Some(0))) == "12:30 PM"
  {
    assert NatToString(12) == "12";
    assert Pad2(30) == "30";
  }

  /**
    The time part: a truthy `time_label` wins; otherwise the start time,
    with `" - end"` only when an end time is present.
  */
  function TimeString(timeLabel: Option<string>, start: Option<Clock>, end: Option<Clock>): (t: string)
    ensures timeLabel.Some? && timeLabel.value != "" ==> t == timeLabel.value
    ensures (timeLabel.None? || timeLabel.value == "") && start.None? ==> t == ""
    ensures (timeLabel.None? || timeLabel.value == "") && start.Some? ==>
      FormatClock(start.value) <= t
      && (end.None? <==> t == FormatClock(start.value))
  {
    if timeLabel.Some? && timeLabel.value != "" then timeLabel.value
    else if start.Some? then
      if end.Some? then FormatClock(start.value) + " - " + FormatClock(end.value) else FormatClock(start.value)
    else ""
  }

  /** The date line: `"weekday, month dayNth"` and, when there is a time, `" • time"`. */
  function DateTimeLine(weekday: string, month: string, day: int, time: string): (line: string)
    ensures var date := weekday + ", " + month + " " + IntToString(day) + Ordinal(day);
      date <= line && (time == "" <==> line == date)
  {
    var date := weekday + ", " + month + " " + IntToString(day) + Ordinal(day);
    if time != "" then date + " • " + time else date
  }

  /** The counted RSVP statuses, in display order. */
  const CountedStatuses := ["going", "interested"]

  /** The count spans: going then interested, each only with a positive count. */
  function CountSpans(counts: map<string, int>): (spans: seq<string>)
    ensures |spans| <= 2
    ensures (|spans| == 0) <==> forall st :: st in CountedStatuses && st in counts ==> counts[st] <= 0
    ensures "going" in counts && counts["going"] > 0 ==> spans[0] == IntToString(counts["going"]) + " going"
  {
    (if "going" in counts && counts["going"] > 0 then [IntToString(counts["going"]) + " going"] else [])
    + (if "interested" in counts && counts["interested"] > 0 then [IntToString(counts["interested"]) + " interested"] else [])
  }

  /** `create` adds the counts block only for a non-empty counts object. */
  function CreatedCounts(counts: map<string, int>): (block: Option<seq<string>>)
    ensures block.Some? <==> |counts| > 0
    ensures block.Some? ==> block.value == CountSpans(counts)
  {
    if |counts| > 0 then Some(CountSpans(counts)) else None
  }

  /** A status that is not counted never shows, however large. */
  lemma NotGoingNeverCounted(counts: map<string, int>, n: int)
    requires "not_going" !in counts
    ensures CountSpans(counts["not_going" := n]) == CountSpans(counts)
  {
    assert counts["not_going" := n]["going" := 0] == counts["going" := 0]["not_going" := n];
  }

  /** The three RSVP buttons, in display order. */
  const ButtonStatuses := ["going", "interested", "not_going"]

  /** Which buttons carry `active` for a given status. */
  function ActiveButtons(status: Option<string>): (active: seq<bool>)
    ensures |active| == |ButtonStatuses|
    ensures forall i :: 0 <= i < |active| ==> (active[i] <==> status == Some(ButtonStatuses[i]))
  {
    seq(|ButtonStatuses|, i requires 0 <= i < |ButtonStatuses| => status == Some(ButtonStatuses[i]))
  }

  /** At most one button is active, and one is exactly when the status is a button's. */
  lemma OneActiveAtMost(status: Option<string>)
    ensures forall i, j :: 0 <= i < j < 3 ==> !(ActiveButtons(status)[i] && ActiveButtons(status)[j])
    ensures (exists i :: 0 <= i < 3 && ActiveButtons(status)[i]) <==> status.Some? && status.value in ButtonStatuses
  {
    if status.Some? && status.value in ButtonStatuses {
      var i :| 0 <= i < 3 && ButtonStatuses[i] == status.value;
      assert ActiveButtons(status)[i];
    }
  }

  /** An RSVP row as the card shows it. */
  datatype RsvpUser = RsvpUser(status: string, headshotUrl: Option<string>, displayName: string, userId: Option<string>)

  /** An avatar image: its `src` and its `data-headshot`, which `updateRSVPState` may leave unset. */
  datatype Avatar = Avatar(src: string, headshot: Option<string>)

  const DefaultHeadshot := "images/headshot.jpg"

  predicate Truthy(s: Option<string>) {
    s.Some? && s.value != ""
  }

  /** The avatar `create` draws for one going user. */
  function CreatedAvatar(u: RsvpUser): (a: Avatar)
    ensures a.headshot.Some?
  {
    Avatar(if Truthy(u.headshotUrl) then u.headshotUrl.value else DefaultHeadshot,
           Some(if Truthy(u.userId) then "user-" + u.userId.value else "user-default"))
  }

  /** The avatar `updateRSVPState` draws for one going user. */
  function UpdatedAvatar(u: RsvpUser): (a: Avatar)
    ensures a.headshot.Some? <==> Truthy(u.userId)
  {
    Avatar(if Truthy(u.headshotUrl) then "images/" + u.headshotUrl.value else DefaultHeadshot,
           if Truthy(u.userId) then Some("user-" + u.userId.value) else None)
  }

  /** The avatars of the going users, in row order. */
  function Avatars(users: seq<RsvpUser>, updated: bool): (r: seq<Avatar>)
    ensures |r| <= |users|
    ensures (forall i :: 0 <= i < |users| ==> users[i].status != "going") ==> r == []
  {
    if |users| == 0 then []
    else
      (if users[0].status == "going" then [if updated then UpdatedAvatar(users[0]) else CreatedAvatar(users[0])] else [])
      + Avatars(users[1..], updated)
  }

  /** A user with a headshot gets a different image after an RSVP update than on the first draw. */
  lemma UpdateMovesHeadshot(u: RsvpUser)
    requires u.status == "going" && Truthy(u.headshotUrl)
    ensures Avatars([u], true)[0].src != Avatars([u], false)[0].src
  {
    assert |"images/" + u.headshotUrl.value| > |u.headshotUrl.value|;
  }

  /** The card state `updateRSVPState` leaves: active buttons, avatars and counts follow the new values only. */
  datatype CardView = CardView(active: seq<bool>, avatars: seq<Avatar>, counts: seq<string>)

  function UpdateRsvpState(status: Option<string>, counts: map<string, int>, users: seq<RsvpUser>): (v: CardView)
    ensures v.active == ActiveButtons(status)
    ensures |v.avatars| <= |users|
    ensures |v.counts| <= 2
  {
    CardView(ActiveButtons(status), Avatars(users, true), CountSpans(counts))
  }

  /** The active buttons tell which of the three statuses was chosen. */
  lemma ActiveIdentifiesStatus(s1: string, s2: string)
    requires s1 in ButtonStatuses && s2 in ButtonStatuses
    requires ActiveButtons(Some(s1)) == ActiveButtons(Some(s2))
    ensures s1 == s2
  {
    var i :| 0 <= i < 3 && ButtonStatuses[i] == s1;
    assert ActiveButtons(Some(s1))[i];
  }
}
