/** Reminders (src/modules/reminders/reminders.service.ts): the reminder
    table with its create, list, delete and due-marking rules, and the parser
    of Russian time phrases ("через N минут", "через N час…", "завтра",
    "завтра в HH:MM"). Times are milliseconds since the epoch, in a zone
    without daylight-saving shifts. */
module Reminders {
  import opened Base

  /** A row of `reminders`; `sent` defaults to false. */
  datatype Reminder = Reminder(id: nat, userId: nat, message: string, remindAt: int, sent: bool)

  /** The table and the next serial id (deleted ids are not reused). */
  datatype Book = Book(reminders: seq<Reminder>, nextId: nat)

  const EmptyBook: Book := Book([], 1)

  const MinuteMs: int := 60000
  const HourMs: int := 3600000
  const DayMs: int := 86400000

  const ThroughWord: string := "через"
  const MinutesWord: string := "минут"
  const HoursWord: string := "час"
  const TomorrowWord: string := "завтра"

  /** Ids are below the counter and strictly increasing along the table. */
  ghost predicate Valid(b: Book)
  {
    && 0 < b.nextId
    && (forall i :: 0 <= i < |b.reminders| ==> 0 < b.reminders[i].id < b.nextId)
    && (forall i, j :: 0 <= i < j < |b.reminders| ==> b.reminders[i].id < b.reminders[j].id)
  }

  // ---------------------------------------------------------------------------
  // The table
  // ---------------------------------------------------------------------------

  /** `createReminder(userId, message, remindAt)`: one new unsent reminder. */
  function CreateReminder(b: Book, userId: nat, message: string, remindAt: int): (r: (Book, Reminder))
    ensures r.0.reminders == b.reminders + [r.1]
    ensures r.1 == Reminder(b.nextId, userId, message, remindAt, false)
    ensures Valid(b) ==> Valid(r.0)
  {
    var rem := Reminder(b.nextId, userId, message, remindAt, false);
    (Book(b.reminders + [rem], b.nextId + 1), rem)
  }

  predicate IsOpenOf(x: Reminder, userId: nat)
  {
    x.userId == userId && !x.sent
  }

  /** `getUserReminders(userId)`: the user's unsent reminders, earliest first.
      The order among equal times is left open, as in SQL. */
  function GetUserReminders(b: Book, userId: nat): (r: seq<Reminder>)
    ensures SortedBy(r, (x: Reminder) => x.remindAt)
    ensures multiset(r) == multiset(Filter(b.reminders, (x: Reminder) => IsOpenOf(x, userId)))
    ensures forall x :: x in r <==> x in b.reminders && IsOpenOf(x, userId)
  {
    var mine := Filter(b.reminders, (x: Reminder) => IsOpenOf(x, userId));
    var r := SortBy(mine, (x: Reminder) => x.remindAt);
    forall x
      ensures x in r <==> x in b.reminders && IsOpenOf(x, userId)
    {
      assert x in r <==> x in multiset(r);
      assert x in mine <==> x in multiset(mine);
      FilterMembership(b.reminders, (x: Reminder) => IsOpenOf(x, userId), x);
    }
    r
  }

  predicate IsTarget(x: Reminder, userId: nat, reminderId: int)
  {
    x.id == reminderId && x.userId == userId
  }

  /** `deleteReminder(userId, reminderId)`: deletes the rows with that id and
      that owner; true when one was deleted. */
  function DeleteReminder(b: Book, userId: nat, reminderId: int): (r: (Book, bool))
    ensures r.1 <==> exists i :: 0 <= i < |b.reminders| && IsTarget(b.reminders[i], userId, reminderId)
    ensures forall x :: x in r.0.reminders <==> x in b.reminders && !IsTarget(x, userId, reminderId)
    ensures r.0.nextId == b.nextId
  {
    var kept := Filter(b.reminders, (x: Reminder) => !IsTarget(x, userId, reminderId));
    forall x
      ensures x in kept <==> x in b.reminders && !IsTarget(x, userId, reminderId)
    {
      FilterMembership(b.reminders, (x: Reminder) => !IsTarget(x, userId, reminderId), x);
    }
    var affected := |b.reminders| - |kept|;
    DeletedCount(b.reminders, userId, reminderId);
    (Book(kept, b.nextId), affected > 0)
  }

  /** Something is deleted exactly when some row is a target. */
  lemma {:induction false} DeletedCount(s: seq<Reminder>, userId: nat, reminderId: int)
    ensures |Filter(s, (x: Reminder) => !IsTarget(x, userId, reminderId))| < |s|
            <==> exists i :: 0 <= i < |s| && IsTarget(s[i], userId, reminderId)
  {
    if |s| > 0 {
      var init := s[..|s| - 1];
      DeletedCount(init, userId, reminderId);
      if exists i :: 0 <= i < |init| && IsTarget(init[i], userId, reminderId) {
        var i :| 0 <= i < |init| && IsTarget(init[i], userId, reminderId);
        assert s[i] == init[i];
      }
    }
  }

  /** Under serial ids exactly one row goes when the call reports success,
      none otherwise, and the table stays valid. */
  lemma DeleteReminderRemovesOne(b: Book, userId: nat, reminderId: int)
    requires Valid(b)
    ensures var (b1, deleted) := DeleteReminder(b, userId, reminderId);
      && Valid(b1)
      && |b1.reminders| == |b.reminders| - (if deleted then 1 else 0)
  {
    var p := (x: Reminder) => !IsTarget(x, userId, reminderId);
    var (b1, deleted) := DeleteReminder(b, userId, reminderId);
    FilterStrictlyIncreasing(b.reminders, p);
    if deleted {
      var i :| 0 <= i < |b.reminders| && IsTarget(b.reminders[i], userId, reminderId);
      FilterDropsOne(b.reminders, p, i);
    } else {
      FilterAll(b.reminders, p);
    }
  }

  /** Filtering keeps ids strictly increasing and below the counter. */
  lemma {:induction false} FilterStrictlyIncreasing(s: seq<Reminder>, p: Reminder -> bool)
    requires forall i, j :: 0 <= i < j < |s| ==> s[i].id < s[j].id
    ensures var f := Filter(s, p);
      forall i, j :: 0 <= i < j < |f| ==> f[i].id < f[j].id
  {
    if |s| > 0 {
      var init := s[..|s| - 1];
      var x := s[|s| - 1];
      FilterStrictlyIncreasing(init, p);
      var f := Filter(init, p);
      forall k | 0 <= k < |f|
        ensures f[k].id < x.id
      {
        FilterMembership(init, p, f[k]);
        var j :| 0 <= j < |init| && init[j] == f[k];
        assert s[j] == init[j];
      }
      if p(x) {
        assert Filter(s, p) == f + [x];
      } else {
        assert Filter(s, p) == f;
      }
    }
  }

  /** When only row `i` fails the predicate, the filter drops exactly one row. */
  lemma {:induction false} FilterDropsOne(s: seq<Reminder>, p: Reminder -> bool, i: nat)
    requires i < |s| && !p(s[i])
    requires forall j :: 0 <= j < |s| && j != i ==> p(s[j])
    ensures |Filter(s, p)| == |s| - 1
  {
    var init := s[..|s| - 1];
    if i == |s| - 1 {
      FilterAll(init, p);
    } else {
      FilterDropsOne(init, p, i);
    }
  }

  /** Under serial ids at most one row can match an (id, owner) target. */
  lemma OnlyOneTarget(b: Book, userId: nat, reminderId: int, i: nat)
    requires Valid(b) && i < |b.reminders| && IsTarget(b.reminders[i], userId, reminderId)
    ensures forall j :: 0 <= j < |b.reminders| && j != i ==> !IsTarget(b.reminders[j], userId, reminderId)
  {
  }

  predicate IsDue(x: Reminder, now: int)
  {
    x.remindAt < now && !x.sent
  }

  /** One run of `checkAndSendReminders` at time `now`: the reminders due
      (time strictly before now, not yet sent), which are the ones notified,
      and the table with exactly those marked sent. */
  function CheckAndSendReminders(b: Book, now: int): (r: (Book, seq<Reminder>))
    ensures r.1 == Filter(b.reminders, (x: Reminder) => IsDue(x, now))
    ensures r.0.nextId == b.nextId && |r.0.reminders| == |b.reminders|
    ensures forall i :: 0 <= i < |b.reminders| ==>
      r.0.reminders[i] == (if IsDue(b.reminders[i], now) then b.reminders[i].(sent := true) else b.reminders[i])
    // Nothing due is left behind.
    ensures forall i :: 0 <= i < |b.reminders| ==> !IsDue(r.0.reminders[i], now)
  {
    var marked := seq(|b.reminders|, i requires 0 <= i < |b.reminders| =>
      if IsDue(b.reminders[i], now) then b.reminders[i].(sent := true) else b.reminders[i]);
    (b.(reminders := marked), Filter(b.reminders, (x: Reminder) => IsDue(x, now)))
  }

  /** A second run at the same time notifies nothing and changes nothing. */
  lemma CheckAndSendRemindersIdempotent(b: Book, now: int)
    ensures var (b1, _) := CheckAndSendReminders(b, now);
            CheckAndSendReminders(b1, now) == (b1, [])
  {
    var (b1, _) := CheckAndSendReminders(b, now);
    FilterNone(b1.reminders, (x: Reminder) => IsDue(x, now));
    var (b2, _) := CheckAndSendReminders(b1, now);
    assert b2.reminders == b1.reminders;
  }

  /** After a run, a user's open reminders are the ones not yet due. */
  lemma OpenAfterCheckAreNotDue(b: Book, now: int, userId: nat)
    ensures var (b1, _) := CheckAndSendReminders(b, now);
      forall x :: x in GetUserReminders(b1, userId) <==>
        x in b.reminders && IsOpenOf(x, userId) && x.remindAt >= now
  {
    var (b1, _) := CheckAndSendReminders(b, now);
    forall x | x in b1.reminders && IsOpenOf(x, userId)
      ensures x in b.reminders && x.remindAt >= now
    {
      var i :| 0 <= i < |b1.reminders| && b1.reminders[i] == x;
    }
    forall x | x in b.reminders && IsOpenOf(x, userId) && x.remindAt >= now
      ensures x in b1.reminders
    {
      var i :| 0 <= i < |b.reminders| && b.reminders[i] == x;
      assert b1.reminders[i] == x;
    }
  }

  // ---------------------------------------------------------------------------
  // The time-phrase parser
  // ---------------------------------------------------------------------------

  /** The end of the run of `\s` characters starting at `k`. */
  function SkipSpaces(s: string, k: nat): (j: nat)
    requires k <= |s|
    ensures k <= j <= |s|
    ensures forall t :: k <= t < j ==> IsSpace(s[t])
    ensures j < |s| ==> !IsSpace(s[j])
    decreases |s| - k
  {
    if k < |s| && IsSpace(s[k]) then SkipSpaces(s, k + 1) else k
  }

  /** The match of `(\d+)\s*word` starting at `i`, as the number captured.
      Greedy `\d+` takes the whole digit run: a shorter run would leave a
      digit where `\s*word` must start. */
  function NumberBefore(s: string, word: string, i: nat): Option<nat>
  {
    if i < |s| && IsDigit(s[i]) then
      var ds := LeadingDigits(s[i..], 10);
      var k := SkipSpaces(s, i + |ds|);
      if OccursAt(s, word, k) then Some(DigitsValue(ds, 10)) else None
    else None
  }

  /** The first position at or after `from` where `(\d+)\s*word` matches:
      where the leftmost match starts. */
  function FirstNumber(s: string, word: string, from: nat): (r: Option<nat>)
    ensures r.Some? ==> from <= r.value < |s| && NumberBefore(s, word, r.value).Some?
    decreases |s| - from
  {
    if from >= |s| then None
    else if NumberBefore(s, word, from).Some? then Some(from)
    else FirstNumber(s, word, from + 1)
  }

  /** The position found is the leftmost match, and none is found exactly
      when no position matches. */
  lemma {:induction false} FirstNumberLeftmost(s: string, word: string, from: nat)
    ensures var r := FirstNumber(s, word, from);
      && (r.Some? ==> forall j :: from <= j < r.value ==> NumberBefore(s, word, j).None?)
      && (r.None? <==> forall j :: from <= j < |s| ==> NumberBefore(s, word, j).None?)
    decreases |s| - from
  {
    var r := FirstNumber(s, word, from);
    if from < |s| && NumberBefore(s, word, from).None? {
      var r' := FirstNumber(s, word, from + 1);
      assert r == r';
      FirstNumberLeftmost(s, word, from + 1);
      if r.Some? {
        forall j | from <= j < r.value ensures NumberBefore(s, word, j).None? {
          if j > from {
            assert from + 1 <= j < r'.value;
          }
        }
      } else {
        forall j | from <= j < |s| ensures NumberBefore(s, word, j).None? {
          if j > from {
            assert from + 1 <= j < |s|;
          }
        }
      }
    } else if from < |s| {
      assert r == Some(from);
    } else {
      assert r == None;
    }
  }

  /** `s.match(/(\d+)\s*word/)`: the number of the leftmost match. */
  function MatchNumber(s: string, word: string): (r: Option<nat>)
    // No number exactly when no position matches.
    ensures r.None? <==> forall i :: 0 <= i < |s| ==> NumberBefore(s, word, i).None?
    // Otherwise the number captured at the leftmost match.
    ensures r.Some? ==>
      exists i :: 0 <= i < |s| && NumberBefore(s, word, i) == r && (forall j :: 0 <= j < i ==> NumberBefore(s, word, j).None?)
  {
    FirstNumberLeftmost(s, word, 0);
    match FirstNumber(s, word, 0)
    case None => None
    case Some(i) => NumberBefore(s, word, i)
  }

  function Digit(c: char): nat
    requires IsDigit(c)
  {
    (c as int - '0' as int) as nat
  }

  /** The match of `(\d{1,2}):(\d{2})` starting at `i`, as (hours, minutes).
      Two hour digits are tried first, then one. */
  function ClockAt(s: string, i: nat): Option<(nat, nat)>
  {
    if i + 4 < |s| && IsDigit(s[i]) && IsDigit(s[i + 1]) && s[i + 2] == ':'
       && IsDigit(s[i + 3]) && IsDigit(s[i + 4]) then
      Some((10 * Digit(s[i]) + Digit(s[i + 1]), 10 * Digit(s[i + 3]) + Digit(s[i + 4])))
    else if i + 3 < |s| && IsDigit(s[i]) && s[i + 1] == ':' && IsDigit(s[i + 2]) && IsDigit(s[i + 3]) then
      Some((Digit(s[i]), 10 * Digit(s[i + 2]) + Digit(s[i + 3])))
    else None
  }

  /** The first position at or after `from` where `(\d{1,2}):(\d{2})` matches. */
  function FirstClock(s: string, from: nat): (r: Option<nat>)
    ensures r.Some? ==> from <= r.value < |s| && ClockAt(s, r.value).Some?
    ensures r.Some? ==> forall j :: from <= j < r.value ==> ClockAt(s, j).None?
    ensures r.None? <==> forall j :: from <= j < |s| ==> ClockAt(s, j).None?
    decreases |s| - from
  {
    if from >= |s| then None
    else if ClockAt(s, from).Some? then Some(from)
    else FirstClock(s, from + 1)
  }

  /** `s.match(/(\d{1,2}):(\d{2})/)`: hours and minutes of the leftmost match. */
  function MatchClock(s: string): (r: Option<(nat, nat)>)
    // No clock exactly when no position matches.
    ensures r.None? <==> forall i :: 0 <= i < |s| ==> ClockAt(s, i).None?
    // Otherwise the hours and minutes at the leftmost match, two digits each at most.
    ensures r.Some? ==>
      exists i :: 0 <= i < |s| && ClockAt(s, i) == r && (forall j :: 0 <= j < i ==> ClockAt(s, j).None?)
    ensures r.Some? ==> r.value.0 < 100 && r.value.1 < 100
  {
    match FirstClock(s, 0)
    case None => None
    case Some(i) => ClockAt(s, i)
  }

  /** Midnight of the day holding `t`. */
  function DayStart(t: int): (r: int)
    ensures r <= t < r + DayMs
    ensures r % DayMs == 0
  {
    t - t % DayMs
  }

  /** `parseReminderTime(timeString)` at time `now`. A phrase with "через"
      and a number of minutes, else of hours, is that long after now. Failing
      that, a phrase with "завтра" is the same time tomorrow, or tomorrow at
      the first HH:MM it holds (hours and minutes past midnight, seconds
      zeroed). Anything else is not understood. */
  function ParseReminderTime(s: string, now: int): (r: Option<int>)
    // Never a time in the past.
    ensures r.Some? ==> r.value >= now
    // Not understood exactly when no branch applies.
    ensures r.None? <==>
      !Contains(s, TomorrowWord)
      && (!Contains(s, ThroughWord) || (MatchNumber(s, MinutesWord).None? && MatchNumber(s, HoursWord).None?))
    // A "завтра" time lies on the next calendar day, or later if HH:MM overflows it.
    ensures r.Some? && (!Contains(s, ThroughWord) || (MatchNumber(s, MinutesWord).None? && MatchNumber(s, HoursWord).None?)) ==>
      r.value >= DayStart(now) + DayMs
  {
    var viaThrough := ThroughTime(s, now);
    if viaThrough.Some? then viaThrough
    else if Contains(s, TomorrowWord) then Some(TomorrowTime(s, now))
    else None
  }

  /** The "через" branches: a number of minutes, else of hours, after now. */
  function ThroughTime(s: string, now: int): (r: Option<int>)
    ensures r.Some? ==> r.value >= now
    ensures r.None? <==>
      !Contains(s, ThroughWord) || (MatchNumber(s, MinutesWord).None? && MatchNumber(s, HoursWord).None?)
  {
    if !Contains(s, ThroughWord) then None
    else match MatchNumber(s, MinutesWord)
      case Some(n) => Some(now + n * MinuteMs)
      case None =>
        match MatchNumber(s, HoursWord)
        case Some(n) => Some(now + n * HourMs)
        case None => None
  }

  /** The "завтра" branch: tomorrow at the first HH:MM, else this time tomorrow. */
  function TomorrowTime(s: string, now: int): (r: int)
    ensures r >= DayStart(now) + DayMs
    // With a clock time: midnight of the next day plus the hours and minutes,
    // seconds and milliseconds zeroed (`setHours` carries an overflow on).
    ensures MatchClock(s).Some? ==>
      r == DayStart(now) + DayMs + MatchClock(s).value.0 * HourMs + MatchClock(s).value.1 * MinuteMs
    ensures MatchClock(s).Some? && MatchClock(s).value.0 < 24 && MatchClock(s).value.1 < 60 ==>
      && DayStart(r) == DayStart(now) + DayMs
      && r - DayStart(r) == MatchClock(s).value.0 * HourMs + MatchClock(s).value.1 * MinuteMs
    // Without one: the same time of day, one day later.
    ensures MatchClock(s).None? ==>
      r == now + DayMs && DayStart(r) == DayStart(now) + DayMs && r - DayStart(r) == now - DayStart(now)
  {
    DayStartShift(now, 0);
    match MatchClock(s)
    case Some((h, m)) =>
      var clock := h * HourMs + m * MinuteMs;
      if h < 24 && m < 60 then
        DayStartShift(now, clock);
        DayStart(now + DayMs) + clock
      else
        DayStart(now + DayMs) + clock
    case None => now + DayMs
  }

  /** The next-day branch without a clock time keeps the time of day. */
  lemma TomorrowKeepsTimeOfDay(now: int)
    ensures ParseReminderTime(TomorrowWord, now) == Some(now + DayMs)
    ensures DayStart(now + DayMs) == DayStart(now) + DayMs
  {
    assert OccursAt(TomorrowWord, TomorrowWord, 0);
    assert !Contains(TomorrowWord, ThroughWord) by {
      assert TomorrowWord[0] != ThroughWord[0] && TomorrowWord[1] != ThroughWord[0];
    }
    assert forall i :: 0 <= i < |TomorrowWord| ==> !IsDigit(TomorrowWord[i]);
  }

  // Reading the patterns in phrases of known shape

  /** `\s*` run from `j` stops at `k` when the characters between are spaces
      and the one at `k` is not. */
  lemma {:induction false} SkipSpacesTo(s: string, j: nat, k: nat)
    requires j <= k < |s|
    requires forall t :: j <= t < k ==> IsSpace(s[t])
    requires !IsSpace(s[k])
    ensures SkipSpaces(s, j) == k
    decreases k - j
  {
    if j < k {
      SkipSpacesTo(s, j + 1, k);
    }
  }

  /** A match attempt at `i`, where digits run up to `j`, spaces up to `k`
      and `s[k]` is neither: it captures `s[i..j]` and succeeds exactly when
      `word` occurs at `k`. */
  lemma NumberBeforeAt(s: string, word: string, i: nat, j: nat, k: nat)
    requires i < j <= k < |s|
    requires forall t :: i <= t < j ==> IsDigit(s[t])
    requires forall t :: j <= t < k ==> IsSpace(s[t])
    requires !IsSpace(s[k]) && !IsDigit(s[k])
    ensures NumberBefore(s, word, i).Some? <==> OccursAt(s, word, k)
    ensures NumberBefore(s, word, i).Some? ==> NumberBefore(s, word, i).value == DigitsValue(s[i..j], 10)
  {
    var ds := LeadingDigits(s[i..], 10);
    assert ds == s[i..j] by { DigitRunAt(s, i, j); }
    assert SkipSpaces(s, i + |ds|) == k by { SkipSpacesTo(s, j, k); }
  }

  /** Greedy `\d+` at `i` takes exactly the digit run up to `j`. */
  lemma DigitRunAt(s: string, i: nat, j: nat)
    requires i < j < |s|
    requires forall t :: i <= t < j ==> IsDigit(s[t])
    requires !IsDigit(s[j])
    ensures LeadingDigits(s[i..], 10) == s[i..j]
  {
    var ds := s[i..j];
    var rest := s[j..];
    assert s[i..] == ds + rest;
    assert rest[0] == s[j];
    LeadingDigitsOfDigits(ds, rest);
  }

  /** A string none of whose characters is the first character of `sub`
      does not contain `sub`. */
  lemma NotContained(s: string, sub: string)
    requires |sub| > 0
    requires forall i :: 0 <= i < |s| ==> s[i] != sub[0]
    ensures !Contains(s, sub)
  {
    forall i | 0 <= i <= |s| - |sub|
      ensures !OccursAt(s, sub, i)
    {
      assert s[i..i + |sub|][0] == s[i];
    }
  }

  /** The leftmost match of `(\d+)\s*word` is the one at `k` when no
      earlier position matches. */
  lemma MatchNumberAt(s: string, word: string, k: nat)
    requires k < |s| && NumberBefore(s, word, k).Some?
    requires forall j :: 0 <= j < k ==> NumberBefore(s, word, j).None?
    ensures MatchNumber(s, word) == NumberBefore(s, word, k)
  {
    var r := FirstNumber(s, word, 0);
    FirstNumberLeftmost(s, word, 0);
    assert r.Some? by {
      assert 0 <= k < |s| && NumberBefore(s, word, k).Some?;
    }
    assert r.value <= k by {
      assert !(0 <= k < r.value && NumberBefore(s, word, k).Some?);
    }
    assert k <= r.value by {
      assert NumberBefore(s, word, r.value).Some?;
    }
  }

  /** The leftmost match of `(\d{1,2}):(\d{2})` is the one at `k` when no
      earlier position matches. */
  lemma MatchClockAt(s: string, k: nat)
    requires k < |s| && ClockAt(s, k).Some?
    requires forall j :: 0 <= j < k ==> ClockAt(s, j).None?
    ensures MatchClock(s) == ClockAt(s, k)
  {
    var r := FirstClock(s, 0);
    assert r.Some? by {
      assert 0 <= k < |s| && ClockAt(s, k).Some?;
    }
    assert r.value <= k by {
      assert !(0 <= k < r.value && ClockAt(s, k).Some?);
    }
    assert k <= r.value by {
      assert ClockAt(s, r.value).Some?;
    }
  }

  /** In `q + d + " " + w`, with `d` a decimal rendering and `w` starting
      with a letter, the match attempt at `d` reads its number. */
  lemma NumberAfterRun(q: string, n: nat, w: string, s: string)
    requires |w| > 0 && !IsSpace(w[0]) && !IsDigit(w[0])
    requires s == q + NatToString(n) + " " + w
    ensures NumberBefore(s, w, |q|) == Some(n)
  {
    var d := NatToString(n);
    var j := |q| + |d|;
    assert s[|q|..j] == d && s[j] == ' ' && s[j + 1] == w[0] by {
      assert forall t :: |q| <= t < j ==> s[t] == d[t - |q|];
    }
    assert OccursAt(s, w, j + 1) by { assert s[j + 1..j + 1 + |w|] == w; }
    NumberBeforeAt(s, w, |q|, j, j + 1);
    assert DigitsValue(d, 10) == n by { DigitsValueOfNatToString(n); }
  }

  /** In `p + d + " " + w`, with `p` also free of digits, the number at `d`
      is the first one read. */
  lemma NumberAfterPrefix(p: string, n: nat, w: string)
    requires forall t :: 0 <= t < |p| ==> !IsDigit(p[t])
    requires |w| > 0 && !IsSpace(w[0]) && !IsDigit(w[0])
    ensures var s := p + NatToString(n) + " " + w;
      && (forall i :: 0 <= i < |p| ==> NumberBefore(s, w, i).None?)
      && NumberBefore(s, w, |p|) == Some(n)
  {
    var s := p + NatToString(n) + " " + w;
    assert forall t :: 0 <= t < |p| ==> s[t] == p[t];
    NumberAfterRun(p, n, w, s);
  }

  /** The branches of the parser, one lemma each. */
  lemma MinutesBranch(s: string, n: nat, now: int)
    requires Contains(s, ThroughWord) && MatchNumber(s, MinutesWord) == Some(n)
    ensures var r := ParseReminderTime(s, now); r.Some? && r.value == now + n * MinuteMs
  {
  }

  lemma HoursBranch(s: string, n: nat, now: int)
    requires Contains(s, ThroughWord) && MatchNumber(s, MinutesWord).None? && MatchNumber(s, HoursWord) == Some(n)
    ensures var r := ParseReminderTime(s, now); r.Some? && r.value == now + n * HourMs
  {
  }

  /** The phrase "через N <word>". */
  function ThroughPhrase(n: nat, w: string): string
  {
    ThroughWord + " " + NatToString(n) + " " + w
  }

  /** It contains "через" and reads N before `word`. */
  lemma ReadThroughPhrase(n: nat, w: string)
    requires |w| > 0 && !IsSpace(w[0]) && !IsDigit(w[0])
    ensures Contains(ThroughPhrase(n, w), ThroughWord) && MatchNumber(ThroughPhrase(n, w), w) == Some(n)
  {
    var p := ThroughWord + " ";
    var s := p + NatToString(n) + " " + w;
    assert s[..|ThroughWord|] == ThroughWord;
    assert OccursAt(s, ThroughWord, 0);
    NumberAfterPrefix(p, n, w);
    MatchNumberAt(s, w, |p|);
  }

  /** "через N минут" is N minutes from now. */
  lemma InMinutes(n: nat, now: int)
    ensures var r := ParseReminderTime(ThroughPhrase(n, MinutesWord), now); r.Some? && r.value == now + n * MinuteMs
  {
    ReadThroughPhrase(n, MinutesWord);
    MinutesBranch(ThroughPhrase(n, MinutesWord), n, now);
  }

  /** `word` cannot occur where a different character stands. */
  lemma NotOccursAt(s: string, word: string, k: nat)
    requires k < |s| && |word| > 0 && s[k] != word[0]
    ensures !OccursAt(s, word, k)
  {
  }

  /** No match starts inside a digit run that a space and then a letter
      other than `word`'s first one follow. */
  lemma NoMatchInRun(s: string, word: string, i0: nat, j: nat)
    requires i0 <= j && j + 1 < |s| && |word| > 0
    requires forall t :: i0 <= t < j ==> IsDigit(s[t])
    requires s[j] == ' ' && !IsSpace(s[j + 1]) && !IsDigit(s[j + 1]) && s[j + 1] != word[0]
    ensures forall i :: i0 <= i < j ==> NumberBefore(s, word, i).None?
  {
    NotOccursAt(s, word, j + 1);
    forall i | i0 <= i < j
      ensures NumberBefore(s, word, i).None?
    {
      NumberBeforeAt(s, word, i, j, j + 1);
    }
  }

  /** "через N <w>" reads no number before `word` when `w` starts with
      another letter and holds no digit. */
  lemma NoOtherUnit(n: nat, w: string, word: string)
    requires |w| > 0 && |word| > 0 && !IsSpace(w[0]) && w[0] != word[0]
    requires forall t :: 0 <= t < |w| ==> !IsDigit(w[t])
    ensures MatchNumber(ThroughPhrase(n, w), word).None?
  {
    var p := ThroughWord + " ";
    var d := NatToString(n);
    var s := ThroughPhrase(n, w);
    var j := |p| + |d|;
    assert && (forall t :: 0 <= t < |p| ==> !IsDigit(s[t]))
           && (forall t :: |p| <= t < j ==> IsDigit(s[t]))
           && s[j] == ' ' && s[j + 1] == w[0]
           && (forall t :: j + 1 <= t < |s| ==> !IsDigit(s[t])) by {
      assert s == p + d + " " + w;
      assert forall t :: 0 <= t < |p| ==> s[t] == p[t];
      assert forall t :: |p| <= t < j ==> s[t] == d[t - |p|];
      assert forall t :: j + 1 <= t < |s| ==> s[t] == w[t - j - 1];
    }
    assert forall i :: 0 <= i < |s| ==> NumberBefore(s, word, i).None? by {
      NoMatchInRun(s, word, |p|, j);
    }
    FirstNumberLeftmost(s, word, 0);
  }

  /** "через N час" is N hours from now: no minute count is present. */
  lemma InHours(n: nat, now: int)
    ensures var r := ParseReminderTime(ThroughPhrase(n, HoursWord), now); r.Some? && r.value == now + n * HourMs
  {
    ReadThroughPhrase(n, HoursWord);
    NoMinutesInHours(n);
    HoursBranch(ThroughPhrase(n, HoursWord), n, now);
  }

  /** "через N час" holds no minute count. */
  lemma NoMinutesInHours(n: nat)
    ensures MatchNumber(ThroughPhrase(n, HoursWord), MinutesWord).None?
  {
    assert HoursWord[0] == 'ч' && MinutesWord[0] == 'м';
    assert forall t :: 0 <= t < |HoursWord| ==> !IsDigit(HoursWord[t]);
    NoOtherUnit(n, HoursWord, MinutesWord);
  }

  /** "через A часа ", the text before the minute count. */
  function HoursPrefix(a: nat): string
  {
    ThroughWord + " " + NatToString(a) + " часа "
  }

  /** "через A часа B минут". */
  function HoursAndMinutesPhrase(a: nat, b: nat): string
  {
    HoursPrefix(a) + NatToString(b) + " " + MinutesWord
  }

  /** The layout of "через A часа ": letters and a space, the digits of A
      from `lo` to `j`, a space, then letters and a space. */
  lemma HoursPrefixShape(a: nat, lo: nat, j: nat)
    requires lo == |ThroughWord| + 1 && j == lo + |NatToString(a)|
    ensures var q := HoursPrefix(a);
      && j + 1 < |q|
      && (forall t :: 0 <= t < lo ==> !IsDigit(q[t]))
      && (forall t :: lo <= t < j ==> IsDigit(q[t]))
      && q[j] == ' ' && q[j + 1] == 'ч'
      && (forall t :: j + 1 <= t < |q| ==> !IsDigit(q[t]))
  {
    var p := ThroughWord + " ";
    var d := NatToString(a);
    var r := " часа ";
    var q := HoursPrefix(a);
    assert q == p + d + r;
    assert forall t :: 0 <= t < lo ==> q[t] == p[t];
    assert forall t :: lo <= t < j ==> q[t] == d[t - lo];
    assert forall t :: j <= t < |q| ==> q[t] == r[t - j];
  }

  /** No match of `(\d+)\s*word` starts before `m` when the digits before
      `m` form one run that a space and a letter other than `word`'s first
      one follow. */
  lemma NoMatchBefore(s: string, word: string, lo: nat, j: nat, m: nat)
    requires lo <= j && j + 1 < m <= |s| && |word| > 0
    requires forall t :: 0 <= t < lo ==> !IsDigit(s[t])
    requires forall t :: lo <= t < j ==> IsDigit(s[t])
    requires s[j] == ' ' && !IsSpace(s[j + 1]) && !IsDigit(s[j + 1]) && s[j + 1] != word[0]
    requires forall t :: j + 1 <= t < m ==> !IsDigit(s[t])
    ensures forall i :: 0 <= i < m ==> NumberBefore(s, word, i).None?
  {
    NoMatchInRun(s, word, lo, j);
  }

  /** In "через A часа B минут" the leftmost minute count is B. */
  lemma ReadHoursAndMinutes(a: nat, b: nat)
    ensures MatchNumber(HoursAndMinutesPhrase(a, b), MinutesWord) == Some(b)
  {
    var q := HoursPrefix(a);
    var s := HoursAndMinutesPhrase(a, b);
    var lo := |ThroughWord| + 1;
    var j := lo + |NatToString(a)|;
    HoursPrefixShape(a, lo, j);
    assert forall t :: 0 <= t < |q| ==> s[t] == q[t];
    assert MinutesWord[0] == 'м';
    NoMatchBefore(s, MinutesWord, lo, j, |q|);
    NumberAfterRun(q, b, MinutesWord, s);
    MatchNumberAt(s, MinutesWord, |q|);
  }

  /** Minutes take precedence: "через A часа B минут" is B minutes from now,
      the hours being ignored. */
  lemma MinutesWinOverHours(a: nat, b: nat, now: int)
    ensures var r := ParseReminderTime(HoursAndMinutesPhrase(a, b), now); r.Some? && r.value == now + b * MinuteMs
  {
    var s := HoursAndMinutesPhrase(a, b);
    assert s[..|ThroughWord|] == ThroughWord;
    assert OccursAt(s, ThroughWord, 0);
    ReadHoursAndMinutes(a, b);
    MinutesBranch(s, b, now);
  }

  /** "завтра в HH:MM" is tomorrow at HH:MM: on the next calendar day, that
      far past its midnight. */
  lemma TomorrowAt(h1: char, h2: char, m1: char, m2: char, now: int)
    requires IsDigit(h1) && IsDigit(h2) && IsDigit(m1) && IsDigit(m2)
    requires 10 * Digit(h1) + Digit(h2) < 24 && 10 * Digit(m1) + Digit(m2) < 60
    ensures var r := ParseReminderTime(TomorrowWord + " в " + [h1, h2, ':', m1, m2], now);
      var clock := (10 * Digit(h1) + Digit(h2)) * HourMs + (10 * Digit(m1) + Digit(m2)) * MinuteMs;
      && r == Some(DayStart(now + DayMs) + clock)
      && DayStart(r.value) == DayStart(now) + DayMs
      && r.value - DayStart(r.value) == clock
  {
    var p := TomorrowWord + " в ";
    var s := p + [h1, h2, ':', m1, m2];
    assert s[..|TomorrowWord|] == TomorrowWord;
    assert OccursAt(s, TomorrowWord, 0);
    assert forall t :: 0 <= t < |p| ==> s[t] == p[t] && !IsDigit(s[t]) && s[t] != ThroughWord[0];
    assert s[|p|] == h1 && s[|p| + 1] == h2 && s[|p| + 2] == ':' && s[|p| + 3] == m1 && s[|p| + 4] == m2;
    NotContained(s, ThroughWord);
    MatchClockAt(s, |p|);
    var clock := (10 * Digit(h1) + Digit(h2)) * HourMs + (10 * Digit(m1) + Digit(m2)) * MinuteMs;
    DayStartShift(now, clock);
  }

  /** Midnight arithmetic: the day after `now` starts one day after its day,
      and a time of day below one day stays within its day. */
  lemma DayStartShift(now: int, clock: int)
    requires 0 <= clock < DayMs
    ensures DayStart(now + DayMs) == DayStart(now) + DayMs
    ensures DayStart(DayStart(now + DayMs) + clock) == DayStart(now) + DayMs
  {
    var d := DayStart(now) + DayMs;
    assert d % DayMs == 0;
    assert (d + clock) % DayMs == clock;
  }
}
