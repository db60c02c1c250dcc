/** `CommonUtilities.timeAgoSinceDate(_:currentDate:numericDates:)`. The
    calendar arithmetic that splits the interval into years, months, weeks,
    days, hours, minutes and seconds is the platform's; here it is the
    `components` parameter, and dates are instants on an integer time line. */
module TimeAgo {
  import opened Decimal

  /** The calendar components of the interval from the earlier date to the later one. */
  datatype DateDiff = DateDiff(year: nat, month: nat, weekOfYear: nat, day: nat, hour: nat, minute: nat, second: nat)

  /** The phrase ladder, largest unit first. */
  function Phrase(c: DateDiff, numericDates: bool): string
  {
    if c.year >= 2 then NatToString(c.year) + " years ago"
    else if c.year >= 1 then (if numericDates then "1 year ago" else "Last year")
    else if c.month >= 2 then NatToString(c.month) + " months ago"
    else if c.month >= 1 then (if numericDates then "1 month ago" else "Last month")
    else if c.weekOfYear >= 2 then NatToString(c.weekOfYear) + " weeks ago"
    else if c.weekOfYear >= 1 then (if numericDates then "1 week ago" else "Last week")
    else if c.day >= 2 then NatToString(c.day) + " days ago"
    else if c.day >= 1 then (if numericDates then "1 day ago" else "Yesterday")
    else if c.hour >= 2 then NatToString(c.hour) + " hours ago"
    else if c.hour >= 1 then (if numericDates then "1 hour ago" else "An hour ago")
    else if c.minute >= 2 then NatToString(c.minute) + " minutes ago"
    else if c.minute >= 1 then (if numericDates then "1 minute ago" else "A minute ago")
    else if c.second >= 3 then NatToString(c.second) + " seconds ago"
    else "Just now"
  }

  /** The whole operation: measure from the earlier of the two dates to the
      later one (`NSDate.earlierDate` keeps the receiver, `currentDate`, on a
      tie) and phrase the result. */
  function TimeAgoSinceDate(date: int, currentDate: int, numericDates: bool, components: (int, int) -> DateDiff): string
  {
    var now := currentDate;
    var earliest := if now <= date then now else date;
    var latest := if earliest == now then date else now;
    Phrase(components(earliest, latest), numericDates)
  }

  /** Which date is "now" does not matter: the interval is always measured
      forwards. */
  lemma TimeAgoSymmetric(date: int, currentDate: int, numericDates: bool, components: (int, int) -> DateDiff)
    ensures TimeAgoSinceDate(date, currentDate, numericDates, components)
         == TimeAgoSinceDate(currentDate, date, numericDates, components)
  {
  }

  // An independent description of the ladder: the largest unit whose count
  // reaches its threshold decides the phrase.

  datatype Unit = Year | Month | Week | Day | Hour | Minute | Second

  function Rank(u: Unit): nat
  {
    match u
    case Year => 0
    case Month => 1
    case Week => 2
    case Day => 3
    case Hour => 4
    case Minute => 5
    case Second => 6
  }

  function Count(c: DateDiff, u: Unit): nat
  {
    match u
    case Year => c.year
    case Month => c.month
    case Week => c.weekOfYear
    case Day => c.day
    case Hour => c.hour
    case Minute => c.minute
    case Second => c.second
  }

  /** The suffix after a count of two or more. */
  function Plural(u: Unit): string
  {
    match u
    case Year => " years ago"
    case Month => " months ago"
    case Week => " weeks ago"
    case Day => " days ago"
    case Hour => " hours ago"
    case Minute => " minutes ago"
    case Second => " seconds ago"
  }

  /** The phrase for a count of exactly one when dates are numeric. The
      entry for `Second` is never produced: seconds lead only from 3 on
      (see `Threshold`), so it only completes the table. */
  function Singular(u: Unit): string
  {
    match u
    case Year => "1 year ago"
    case Month => "1 month ago"
    case Week => "1 week ago"
    case Day => "1 day ago"
    case Hour => "1 hour ago"
    case Minute => "1 minute ago"
    case Second => "1 second ago"
  }

  /** The words used for a count of exactly one when dates are not numeric.
      As in `Singular`, the entry for `Second` is never produced. */
  function Idiom(u: Unit): string
  {
    match u
    case Year => "Last year"
    case Month => "Last month"
    case Week => "Last week"
    case Day => "Yesterday"
    case Hour => "An hour ago"
    case Minute => "A minute ago"
    case Second => "A second ago"
  }

  /** Seconds are only reported from 3 on; every other unit from 1 on. */
  function Threshold(u: Unit): nat
  {
    if u == Second then 3 else 1
  }

  /** `u` is the largest unit that reaches its threshold: every larger unit is 0. */
  predicate Leads(c: DateDiff, u: Unit)
  {
    && Count(c, u) >= Threshold(u)
    && forall v: Unit :: Rank(v) < Rank(u) ==> Count(c, v) == 0
  }

  function UnitPhrase(u: Unit, n: nat, numericDates: bool): string
  {
    if n >= 2 then NatToString(n) + Plural(u)
    else if numericDates then Singular(u)
    else Idiom(u)
  }

  /** The ladder says what the leading unit and its count say. */
  lemma PhraseFollowsLeadingUnit(c: DateDiff, u: Unit, numericDates: bool)
    requires Leads(c, u)
    ensures Phrase(c, numericDates) == UnitPhrase(u, Count(c, u), numericDates)
  {
    assert Rank(Year) == 0 && Count(c, Year) == c.year;
    match u
    case Year =>
    case Month =>
    case Week =>
      assert Rank(Month) < Rank(u) && Count(c, Month) == c.month;
    case Day =>
      assert Rank(Month) < Rank(u) && Count(c, Month) == c.month;
      assert Rank(Week) < Rank(u) && Count(c, Week) == c.weekOfYear;
    case Hour =>
      assert Rank(Month) < Rank(u) && Count(c, Month) == c.month;
      assert Rank(Week) < Rank(u) && Count(c, Week) == c.weekOfYear;
      assert Rank(Day) < Rank(u) && Count(c, Day) == c.day;
    case Minute =>
      assert Rank(Month) < Rank(u) && Count(c, Month) == c.month;
      assert Rank(Week) < Rank(u) && Count(c, Week) == c.weekOfYear;
      assert Rank(Day) < Rank(u) && Count(c, Day) == c.day;
      assert Rank(Hour) < Rank(u) && Count(c, Hour) == c.hour;
    case Second =>
      assert Rank(Month) < Rank(u) && Count(c, Month) == c.month;
      assert Rank(Week) < Rank(u) && Count(c, Week) == c.weekOfYear;
      assert Rank(Day) < Rank(u) && Count(c, Day) == c.day;
      assert Rank(Hour) < Rank(u) && Count(c, Hour) == c.hour;
      assert Rank(Minute) < Rank(u) && Count(c, Minute) == c.minute;
  }

  /** "Just now" exactly when no unit leads: everything above seconds is 0
      and fewer than 3 seconds passed. */
  lemma JustNowExactly(c: DateDiff, numericDates: bool)
    ensures Phrase(c, numericDates) == "Just now"
        <==> c.year == 0 && c.month == 0 && c.weekOfYear == 0 && c.day == 0 && c.hour == 0 && c.minute == 0 && c.second < 3
  {
    var p := Phrase(c, numericDates);
    var n := if c.year >= 2 then c.year else if c.month >= 2 then c.month else if c.weekOfYear >= 2 then c.weekOfYear
      else if c.day >= 2 then c.day else if c.hour >= 2 then c.hour else if c.minute >= 2 then c.minute else c.second;
    if (c.year >= 2) || (c.year == 0 && c.month >= 2) || (c.year == 0 && c.month == 0 && c.weekOfYear >= 2)
      || (c.year == 0 && c.month == 0 && c.weekOfYear == 0 && c.day >= 2)
      || (c.year == 0 && c.month == 0 && c.weekOfYear == 0 && c.day == 0 && c.hour >= 2)
      || (c.year == 0 && c.month == 0 && c.weekOfYear == 0 && c.day == 0 && c.hour == 0 && c.minute >= 2)
      || (c.year == 0 && c.month == 0 && c.weekOfYear == 0 && c.day == 0 && c.hour == 0 && c.minute == 0 && c.second >= 3)
    {
      assert p[0] == NatToString(n)[0];
      assert IsDigit(p[0]);
      assert p[0] != "Just now"[0];
    }
  }

  /** When no unit leads, both forms say "Just now". */
  lemma NoLeaderIsJustNow(c: DateDiff)
    requires forall u: Unit :: !Leads(c, u)
    ensures Phrase(c, true) == "Just now" && Phrase(c, false) == "Just now"
  {
    assert !Leads(c, Year) && !Leads(c, Month) && !Leads(c, Week) && !Leads(c, Day);
    assert !Leads(c, Hour) && !Leads(c, Minute) && !Leads(c, Second);
    assert Count(c, Year) == c.year && Count(c, Month) == c.month && Count(c, Week) == c.weekOfYear;
    assert Count(c, Day) == c.day && Count(c, Hour) == c.hour && Count(c, Minute) == c.minute;
  }

  /** `numericDates` changes the phrase exactly when the leading unit counts one. */
  lemma NumericDatesOnlyChangesSingulars(c: DateDiff)
    ensures Phrase(c, true) != Phrase(c, false) <==> exists u: Unit :: Leads(c, u) && Count(c, u) == 1
  {
    if exists u: Unit :: Leads(c, u) && Count(c, u) == 1 {
      var u: Unit :| Leads(c, u) && Count(c, u) == 1;
      PhraseFollowsLeadingUnit(c, u, true);
      PhraseFollowsLeadingUnit(c, u, false);
      assert Phrase(c, true)[0] == '1';
      assert Idiom(u)[0] != '1';
    } else if exists u: Unit :: Leads(c, u) {
      var u: Unit :| Leads(c, u);
      PhraseFollowsLeadingUnit(c, u, true);
      PhraseFollowsLeadingUnit(c, u, false);
    } else {
      NoLeaderIsJustNow(c);
    }
  }
}
