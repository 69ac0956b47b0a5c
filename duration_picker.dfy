/** The hours/minutes/seconds picker (src/components/timer/DurationPicker.tsx):
    each field keeps only digits and is clamped to its maximum, and the
    picker reports the total whenever a field changes and the total is positive. */
module DurationPicker {
  import Decimal
  import Duration

  /** `value.replace(/[^0-9]/g, '')`. */
  function DigitsOnly(s: string): (r: string)
    ensures Decimal.AllDigits(r) && |r| <= |s|
    ensures forall c :: c in r <==> c in s && Decimal.IsDigit(c)
    ensures Decimal.AllDigits(s) ==> r == s
  {
    if s == [] then []
    else if Decimal.IsDigit(s[0]) then [s[0]] + DigitsOnly(s[1..])
    else DigitsOnly(s[1..])
  }

  /** The digits keep their order: `DigitsOnly` distributes over
      concatenation, and keeps one character exactly when it is a digit. */
  lemma {:induction false} DigitsOnlyAppend(a: string, b: string)
    ensures DigitsOnly(a + b) == DigitsOnly(a) + DigitsOnly(b)
  {
    if a == [] {
      assert a + b == b;
    } else {
      assert (a + b)[0] == a[0] && (a + b)[1..] == a[1..] + b;
      DigitsOnlyAppend(a[1..], b);
    }
  }

  lemma DigitsOnlyOne(c: char)
    ensures DigitsOnly([c]) == (if Decimal.IsDigit(c) then [c] else [])
  {
  }

  /** What a field may hold once sanitised: empty, or a number without
      leading zeros that does not exceed the maximum. */
  predicate Sanitized(f: string, max: nat) {
    f == "" || (Decimal.Canonical(f) && Decimal.Value(f) <= max)
  }

  /** `handleNumberInput`'s new field value: empty when no digit remains,
      otherwise the number the digits spell, clamped to `max`, written
      without leading zeros. */
  function Sanitize(value: string, max: nat): (r: string)
    ensures DigitsOnly(value) == [] <==> r == ""
    ensures Sanitized(r, max)
    ensures r != "" ==> Decimal.Value(r) == (if Decimal.Value(DigitsOnly(value)) > max then max
                                             else Decimal.Value(DigitsOnly(value)))
  {
    var num := DigitsOnly(value);
    if num == [] then ""
    else
      var parsed := Decimal.Value(num);
      var n := if parsed > max then max else parsed;
      Decimal.FromNatCanonical(n);
      Decimal.ValueOfFromNat(n);
      Decimal.FromNat(n)
  }

  /** Typing a field's own sanitised text back leaves it as it is. */
  lemma SanitizeIdempotent(value: string, max: nat)
    ensures Sanitize(Sanitize(value, max), max) == Sanitize(value, max)
  {
    var r := Sanitize(value, max);
    if r != "" {
      Decimal.FromNatOfValue(r);
    }
  }

  /** `parseInt(field) || 0` for a sanitised field: the empty field reads as 0. */
  function FieldValue(f: string): (n: nat)
    requires Decimal.AllDigits(f)
    ensures f == "" ==> n == 0
  {
    Decimal.Value(f)
  }

  /** The picked duration in seconds; the field maximums keep it within a day. */
  function Total(h: string, m: string, s: string): (t: nat)
    requires Decimal.AllDigits(h) && Decimal.AllDigits(m) && Decimal.AllDigits(s)
    ensures Sanitized(h, 23) && Sanitized(m, 59) && Sanitized(s, 59) ==> t <= 86399
    ensures t == 0 <==> FieldValue(h) == 0 && FieldValue(m) == 0 && FieldValue(s) == 0
  {
    FieldValue(h) * 3600 + FieldValue(m) * 60 + FieldValue(s)
  }

  /** Every duration the picker can show is picked by writing its hours,
      minutes and seconds into the fields: the total of that reading is the
      duration itself, so the fields weigh 3600, 60 and 1 seconds. */
  lemma TotalOfDecompose(n: nat)
    requires n <= 86399
    ensures var h, m, s := Decimal.FromNat(Duration.Hours(n)), Decimal.FromNat(Duration.Minutes(n)),
                           Decimal.FromNat(Duration.Secs(n));
      Sanitized(h, 23) && Sanitized(m, 59) && Sanitized(s, 59) && Total(h, m, s) == n
  {
    Duration.Decompose(n);
    Decimal.FromNatCanonical(Duration.Hours(n));
    Decimal.FromNatCanonical(Duration.Minutes(n));
    Decimal.FromNatCanonical(Duration.Secs(n));
    Decimal.ValueOfFromNat(Duration.Hours(n));
    Decimal.ValueOfFromNat(Duration.Minutes(n));
    Decimal.ValueOfFromNat(Duration.Secs(n));
  }

  /** An empty field counts as a field reading `0`. */
  function Filled(f: string): string {
    if f == "" then "0" else f
  }

  lemma TotalReadsBlankAsZero(h: string, m: string, s: string)
    requires Decimal.AllDigits(h) && Decimal.AllDigits(m) && Decimal.AllDigits(s)
    ensures Decimal.AllDigits(Filled(h)) && Decimal.AllDigits(Filled(m)) && Decimal.AllDigits(Filled(s))
    ensures Total(h, m, s) == Total(Filled(h), Filled(m), Filled(s))
  {
    Decimal.ValueOfFromNat(0);
  }

  datatype Field = Hours | Minutes | Seconds

  function MaxOf(f: Field): nat {
    match f
    case Hours => 23
    case Minutes => 59
    case Seconds => 59
  }

  class Picker {
    var hours: string
    var minutes: string
    var seconds: string
    /** The values passed to `onDurationSelect`, oldest first. */
    var selected: seq<nat>

    ghost predicate Valid()
      reads this
    {
      Sanitized(hours, 23) && Sanitized(minutes, 59) && Sanitized(seconds, 59) &&
      forall d :: d in selected ==> 0 < d <= 86399
    }

    function CurrentTotal(): (t: nat)
      reads this
      requires Valid()
      ensures t <= 86399
    {
      Total(hours, minutes, seconds)
    }

    /** All fields start empty; the effect on mount sees a total of 0 and reports nothing. */
    constructor ()
      ensures Valid()
      ensures hours == "" && minutes == "" && seconds == "" && selected == []
    {
      hours, minutes, seconds := "", "", "";
      selected := [];
    }

    /** An edit of one field; the effect runs when the field's text changed,
        and reports the total only when it is positive. */
    method HandleNumberInput(field: Field, value: string)
      requires Valid()
      modifies this
      ensures Valid()
      ensures field == Hours ==> hours == Sanitize(value, 23) && minutes == old(minutes) && seconds == old(seconds)
      ensures field == Minutes ==> minutes == Sanitize(value, 59) && hours == old(hours) && seconds == old(seconds)
      ensures field == Seconds ==> seconds == Sanitize(value, 59) && hours == old(hours) && minutes == old(minutes)
      ensures var changed := hours != old(hours) || minutes != old(minutes) || seconds != old(seconds);
        selected == old(selected) + (if changed && CurrentTotal() > 0 then [CurrentTotal()] else [])
    {
      var v := Sanitize(value, MaxOf(field));
      var h, m, sec := hours, minutes, seconds;
      match field {
        case Hours => h := v;
        case Minutes => m := v;
        case Seconds => sec := v;
      }
      var changed := h != hours || m != minutes || sec != seconds;
      var total := Total(h, m, sec);
      hours, minutes, seconds := h, m, sec;
      if changed && total > 0 {
        selected := selected + [total];
      }
    }
  }
}
