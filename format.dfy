/** Hours-and-minutes rendering of a number of seconds (src/utils/format.ts). */
module Format {
  import opened Wrappers
  import opened Decimal
  import Duration

  /** `formatHoursMinutes`: never shows seconds; the hour part appears exactly
      when there are hours, the minute part when there are minutes or nothing
      else, and anything under a minute reads `"0m"`. */
  function FormatHoursMinutes(n: nat): (r: string)
    ensures 's' !in r
    ensures n < 60 ==> r == "0m"
    ensures ('h' in r) == (Duration.Hours(n) > 0)
    ensures ('m' in r) == (Duration.Minutes(n) > 0 || Duration.Hours(n) == 0)
  {
    HoursMinutes(Duration.Hours(n), Duration.Minutes(n))
  }

  /** The choice of words `formatHoursMinutes` makes from the components. */
  function HoursMinutes(hours: nat, minutes: nat): (r: string)
    ensures 's' !in r
    ensures hours == 0 && minutes == 0 ==> r == "0m"
    ensures ('h' in r) == (hours > 0)
    ensures ('m' in r) == (minutes > 0 || hours == 0)
  {
    Duration.NotInDigits(FromNat(hours), 'h'); Duration.NotInDigits(FromNat(hours), 'm');
    Duration.NotInDigits(FromNat(hours), 's');
    Duration.NotInDigits(FromNat(minutes), 'h'); Duration.NotInDigits(FromNat(minutes), 'm');
    Duration.NotInDigits(FromNat(minutes), 's');
    if hours > 0 && minutes > 0 then Duration.Word(hours, 'h') + " " + Duration.Word(minutes, 'm')
    else if hours > 0 then Duration.Word(hours, 'h')
    else if minutes > 0 then Duration.Word(minutes, 'm')
    else "0m"
  }

  /** Reading the text back gives the whole minutes of the duration. */
  lemma HoursMinutesReadsBack(n: nat)
    ensures Duration.ReadLabel(FormatHoursMinutes(n)) == Some(n - Duration.Secs(n))
  {
    var hours, minutes := Duration.Hours(n), Duration.Minutes(n);
    assert hours * 3600 + minutes * 60 == n - Duration.Secs(n) by {
      Duration.Decompose(n);
    }
    assert Duration.ReadLabel(HoursMinutes(hours, minutes)) == Some(hours * 3600 + minutes * 60) by {
      HoursMinutesOfReadsBack(hours, minutes);
    }
    assert FormatHoursMinutes(n) == HoursMinutes(hours, minutes);
  }

  lemma HoursMinutesOfReadsBack(hours: nat, minutes: nat)
    requires minutes < 60
    ensures Duration.ReadLabel(HoursMinutes(hours, minutes)) == Some(hours * 3600 + minutes * 60)
  {
    if hours > 0 && minutes > 0 {
      BothParts(hours, minutes);
    } else if hours > 0 {
      var w := Duration.Word(hours, 'h');
      assert Duration.ReadLabel(w) == Some(hours * 3600) by { Duration.ReadSingle(hours, 'h'); }
      assert HoursMinutes(hours, minutes) == w;
    } else {
      OneWord(hours, minutes);
    }
  }

  lemma OneWord(hours: nat, minutes: nat)
    requires hours == 0
    ensures Duration.ReadLabel(HoursMinutes(hours, minutes)) == Some(minutes * 60)
  {
    var w := Duration.Word(minutes, 'm');
    assert Duration.ReadLabel(w) == Some(minutes * 60) by { Duration.ReadSingle(minutes, 'm'); }
    assert HoursMinutes(hours, minutes) == w;
  }

  lemma BothParts(hours: nat, minutes: nat)
    requires hours > 0 && 0 < minutes < 60
    ensures Duration.ReadLabel(HoursMinutes(hours, minutes)) == Some(hours * 3600 + minutes * 60)
  {
    var w := Duration.Word(hours, 'h') + " " + Duration.Word(minutes, 'm');
    assert Duration.ReadLabel(w) == Some(hours * 3600 + minutes * 60) by {
      Duration.ReadHoursMinutes(hours, minutes);
    }
    assert HoursMinutes(hours, minutes) == w;
  }

  /** The two formatters agree whenever the duration label would show no
      seconds: from one hour up, and on positive whole minutes. */
  lemma AgreesWithDurationLabel(n: nat)
    requires n >= 3600 || (n > 0 && n % 60 == 0)
    ensures FormatHoursMinutes(n) == Duration.FormatDurationLabel(n)
  {
    if n < 3600 {
      assert Duration.Hours(n) == 0 && Duration.Secs(n) == 0;
      assert Duration.Minutes(n) > 0;
    }
  }
}
