/**
 * `RecordedTime`: an immutable minutes-and-seconds value, ordered
 * lexicographically and parsed from `"M:S"` text. Neither component is
 * range-checked: `"1:75"` is a valid time of one minute and 75 seconds.
 */
module RecordedTimes {
  import opened Errors
  import opened Text

  datatype RecordedTime = RecordedTime(minutes: int, seconds: int)

  /** `<` of `Comparable`: minutes first, then seconds. */
  predicate Less(a: RecordedTime, b: RecordedTime): (r: bool)
    ensures r <==> a.minutes < b.minutes || (a.minutes == b.minutes && a.seconds < b.seconds)
    ensures r ==> a != b && a.minutes <= b.minutes
  {
    if a.minutes < b.minutes then true
    else if a.minutes == b.minutes && a.seconds < b.seconds then true
    else false
  }

  /** `<` is irreflexive and transitive. */
  lemma LessIsStrictOrder(a: RecordedTime, b: RecordedTime, c: RecordedTime)
    ensures !Less(a, a)
    ensures Less(a, b) && Less(b, c) ==> Less(a, c)
  {
  }

  /**
   * Together with the synthesised memberwise `==`, exactly one of
   * `a < b`, `a == b` and `b < a` holds.
   */
  lemma LessTrichotomy(a: RecordedTime, b: RecordedTime)
    ensures Less(a, b) || a == b || Less(b, a)
    ensures !(Less(a, b) && a == b) && !(Less(a, b) && Less(b, a)) && !(a == b && Less(b, a))
  {
  }

  /**
   * The comparisons the `Comparable` conformance is checked against: 1:30
   * before 10:30 (minutes differ), 10:29 before 10:30 (seconds differ), and
   * 1:30 equal to itself and ordered neither way.
   */
  lemma ComparableExamples()
    ensures Less(RecordedTime(1, 30), RecordedTime(10, 30))
    ensures Less(RecordedTime(10, 29), RecordedTime(10, 30))
    ensures RecordedTime(1, 30) == RecordedTime(1, 30)
    ensures !Less(RecordedTime(1, 30), RecordedTime(1, 30))
  {
  }

  /** The elapsed time in seconds. */
  function TotalSeconds(t: RecordedTime): int
  {
    t.minutes * 60 + t.seconds
  }

  /** A time whose seconds lie in 0..59. */
  predicate IsNormalized(t: RecordedTime)
  {
    0 <= t.seconds < 60
  }

  /** On normalised times, `<` orders by elapsed seconds. */
  lemma LessMatchesElapsedTime(a: RecordedTime, b: RecordedTime)
    requires IsNormalized(a) && IsNormalized(b)
    ensures Less(a, b) <==> TotalSeconds(a) < TotalSeconds(b)
  {
    if a.minutes < b.minutes {
      assert a.minutes * 60 + 60 <= b.minutes * 60;
    } else if b.minutes < a.minutes {
      assert b.minutes * 60 + 60 <= a.minutes * 60;
    }
  }

  /**
   * Without the seconds range, `<` and elapsed time can disagree:
   * 1:75 is 135 seconds, yet it orders before 2:10, which is 130 seconds.
   */
  lemma LessIgnoresSecondsOverflow()
    ensures Less(RecordedTime(1, 75), RecordedTime(2, 10))
    ensures TotalSeconds(RecordedTime(2, 10)) < TotalSeconds(RecordedTime(1, 75))
  {
  }

  /**
   * `init?(string:)`: split on `:`; there must be exactly two components
   * and both must be integers.
   */
  function Parse(s: string): (r: Option<RecordedTime>)
    ensures r.Some? ==> Count(':', s) == 1
    ensures r.Some? ==>
              && |Split(s, ':')| == 2
              && ParseInt(Split(s, ':')[0]) == Some(r.value.minutes)
              && ParseInt(Split(s, ':')[1]) == Some(r.value.seconds)
  {
    var components := Split(s, ':');
    SplitCount(s, ':');
    if |components| != 2 then None
    else match (ParseInt(components[0]), ParseInt(components[1]))
      case (Some(minutes), Some(seconds)) => Some(RecordedTime(minutes, seconds))
      case _ => None
  }

  /** Text with no colon, or with more than one, never parses. */
  lemma ParseNeedsOneColon(s: string)
    requires Count(':', s) != 1
    ensures Parse(s) == None
  {
  }

  /** `"M:S"` with integer components parses to minutes `M`, seconds `S`. */
  lemma ParseComponents(m: string, sec: string)
    requires ':' !in m && ':' !in sec
    ensures Parse(m + ":" + sec) ==
      match (ParseInt(m), ParseInt(sec))
      case (Some(minutes), Some(seconds)) => Some(RecordedTime(minutes, seconds))
      case _ => None
  {
    SplitJoin([m, sec], ':');
    assert Join([m, sec], ':') == m + ":" + sec;
  }

  /** The `"M:S"` rendering of a time, with Swift's decimal integers. */
  function Format(t: RecordedTime): string
  {
    IntToString(t.minutes) + ":" + IntToString(t.seconds)
  }

  /** Every time whose components fit in `Int` survives rendering and parsing. */
  lemma ParseFormat(t: RecordedTime)
    requires MinInt <= t.minutes <= MaxInt && MinInt <= t.seconds <= MaxInt
    ensures Parse(Format(t)) == Some(t)
  {
    IntToStringExcludes(t.minutes, ':');
    IntToStringExcludes(t.seconds, ':');
    ParseComponents(IntToString(t.minutes), IntToString(t.seconds));
    ParseIntToString(t.minutes);
    ParseIntToString(t.seconds);
  }

  /** `"3:05"` is three minutes and five seconds. */
  lemma ParseLeadingZeroSeconds()
    ensures Parse("3:05") == Some(RecordedTime(3, 5))
  {
    ParseComponents("3", "05");
    assert "3" + ":" + "05" == "3:05";
    assert DigitsValue("05") == 5 by { assert "05"[..1] == "0"; }
  }

  /** No seconds range check: `"1:75"` is one minute and 75 seconds. */
  lemma ParseSecondsOutOfRange()
    ensures Parse("1:75") == Some(RecordedTime(1, 75))
  {
    ParseComponents("1", "75");
    assert "1" + ":" + "75" == "1:75";
    assert DigitsValue("75") == 75 by { assert "75"[..1] == "7"; }
  }

  /** Three components, or one, do not make a time. */
  lemma ParseWrongComponentCount()
    ensures Parse("3:5:2") == None
    ensures Parse("305") == None
  {
    assert Count(':', "3:5:2") == 2 by {
      assert "3:5:2"[1..] == ":5:2" && ":5:2"[1..] == "5:2";
      assert "5:2"[1..] == ":2" && ":2"[1..] == "2" && "2"[1..] == "";
    }
    assert Count(':', "305") == 0 by {
      assert "305"[1..] == "05" && "05"[1..] == "5" && "5"[1..] == "";
    }
    ParseNeedsOneColon("3:5:2");
    ParseNeedsOneColon("305");
  }

  /** A non-numeric component makes the whole text fail. */
  lemma ParseNonNumericMinutes()
    ensures Parse("abc:12") == None
  {
    ParseComponents("abc", "12");
    assert "abc" + ":" + "12" == "abc:12";
    assert !IsDigit("abc"[0]);
  }
}
