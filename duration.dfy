/** Parsing and formatting of durations in seconds (src/utils/duration.ts). */
module Duration {
  import opened Wrappers
  import opened Decimal
  import Arith

  /** The characters `String.prototype.trim` and `Number` strip: ECMAScript's
      WhiteSpace (tab, vertical tab, form feed, BOM and the space separators
      of Unicode) and LineTerminator (LF, CR, U+2028 and U+2029). */
  predicate IsSpace(c: char) {
    c == '\t' || c == '\U{000B}' || c == '\U{000C}' || c == '\U{FEFF}' ||
    c == ' ' || c == '\U{00A0}' || c == '\U{1680}' || '\U{2000}' <= c <= '\U{200A}' ||
    c == '\U{202F}' || c == '\U{205F}' || c == '\U{3000}' ||
    c == '\n' || c == '\r' || c == '\U{2028}' || c == '\U{2029}'
  }

  function TrimStart(s: string): (r: string)
    ensures |r| <= |s| && r == s[|s| - |r|..]
    ensures r == [] || !IsSpace(r[0])
    ensures forall i :: 0 <= i < |s| - |r| ==> IsSpace(s[i])
  {
    if s != [] && IsSpace(s[0]) then
      var r := TrimStart(s[1..]);
      var k := |s| - |r|;
      assert s[1..][k - 1..] == s[k..];
      assert forall i :: 1 <= i < k ==> s[i] == s[1..][i - 1];
      r
    else s
  }

  function TrimEnd(s: string): (r: string)
    ensures |r| <= |s| && r == s[..|r|]
    ensures r == [] || !IsSpace(r[|r| - 1])
    ensures forall i :: |r| <= i < |s| ==> IsSpace(s[i])
  {
    if s != [] && IsSpace(s[|s| - 1]) then TrimEnd(s[..|s| - 1]) else s
  }

  /** `input.trim()`: empty exactly when the input is all white space. */
  function Trim(s: string): (r: string)
    ensures r == [] <==> forall i :: 0 <= i < |s| ==> IsSpace(s[i])
  {
    var t := TrimStart(s);
    assert t == [] <== forall i :: 0 <= i < |s| ==> IsSpace(s[i]);
    TrimEnd(t)
  }

  /** `s.split(sep)`: the pieces between separators, `[""]` for the empty string. */
  function Split(s: string, sep: char): (parts: seq<string>)
    ensures |parts| >= 1
    ensures forall i :: 0 <= i < |parts| ==> sep !in parts[i]
    ensures sep !in s ==> parts == [s]
  {
    if s == [] then [""]
    else
      var rest := Split(s[1..], sep);
      assert sep !in s ==> rest == [s[1..]] && s == [s[0]] + s[1..];
      if s[0] == sep then [""] + rest
      else [[s[0]] + rest[0]] + rest[1..]
  }

  lemma {:induction false} SplitJoin(a: string, b: string, sep: char)
    requires sep !in a
    ensures Split(a + [sep] + b, sep) == [a] + Split(b, sep)
  {
    if a != [] {
      assert (a + [sep] + b)[1..] == a[1..] + [sep] + b;
      SplitJoin(a[1..], b, sep);
      assert a == [a[0]] + a[1..];
    }
  }

  /** `Number(field)` accepts a field whose trimmed text is digits; a blank
      field reads as 0. */
  predicate Numeric(field: string) {
    AllDigits(Trim(field))
  }

  function FieldNumber(field: string): nat
    requires Numeric(field)
  {
    Value(Trim(field))
  }

  /** Each colon field must be read as a number. */
  predicate AllNumeric(parts: seq<string>) {
    forall i :: 0 <= i < |parts| ==> Numeric(parts[i])
  }

  /** `[[h:]m:]s`: the seconds denoted by one to three numeric fields. */
  function FieldsTotal(parts: seq<string>): nat
    requires 1 <= |parts| <= 3 && AllNumeric(parts)
  {
    if |parts| == 3 then FieldNumber(parts[0]) * 3600 + FieldNumber(parts[1]) * 60 + FieldNumber(parts[2])
    else if |parts| == 2 then FieldNumber(parts[0]) * 60 + FieldNumber(parts[1])
    else FieldNumber(parts[0])
  }

  /** A digit string is its own trim, so it reads as its value. */
  lemma DigitsNumeric(s: string)
    requires AllDigits(s)
    ensures Trim(s) == s && Numeric(s) && FieldNumber(s) == Value(s)
  {
    if s != [] {
      TrimUnchanged(s);
    }
  }

  /** `parseDuration`: null for blank input, more than three fields, a
      non-numeric field or a total of zero; otherwise the total in seconds. */
  function ParseDuration(input: string): (r: Option<nat>)
    ensures (forall i :: 0 <= i < |input| ==> IsSpace(input[i])) ==> r == None
    ensures |Split(Trim(input), ':')| > 3 ==> r == None
    ensures !AllNumeric(Split(Trim(input), ':')) ==> r == None
    ensures r.Some? ==> r.value > 0
    ensures r.Some? <==>
      var parts := Split(Trim(input), ':');
      Trim(input) != [] && |parts| <= 3 && AllNumeric(parts) && FieldsTotal(parts) > 0
    ensures r.Some? ==> r.value == FieldsTotal(Split(Trim(input), ':'))
  {
    var trimmed := Trim(input);
    if trimmed == [] then None
    else
      var parts := Split(trimmed, ':');
      if !AllNumeric(parts) || |parts| > 3 then None
      else
        var total := FieldsTotal(parts);
        if total > 0 then Some(total) else None
  }

  /** The hour, minute and second components both formatters display. */
  function Hours(n: nat): nat { n / 3600 }

  function Minutes(n: nat): (m: nat)
    ensures m < 60
  {
    (n % 3600) / 60
  }

  function Secs(n: nat): (s: nat)
    ensures s < 60
  {
    n % 60
  }

  lemma Decompose(n: nat)
    ensures n == Hours(n) * 3600 + Minutes(n) * 60 + Secs(n)
  {
    var q, r := n / 3600, n % 3600;
    var m, t := r / 60, r % 60;
    Arith.DivModUnique(n, 60, 60 * q + m, t);
  }

  /** No non-digit character occurs in a digit string. */
  lemma NotInDigits(s: string, c: char)
    requires AllDigits(s) && !IsDigit(c)
    ensures c !in s
  {
    assert forall i :: 0 <= i < |s| ==> s[i] != c;
  }

  /** `n.toString().padStart(2, '0')`. */
  function Pad2(k: nat): (r: string)
    ensures |r| >= 2 && AllDigits(r) && Value(r) == k
    ensures k < 100 ==> |r| == 2
    ensures k >= 10 ==> Canonical(r)
  {
    var s := FromNat(k);
    ValueOfFromNat(k);
    FromNatCanonical(k);
    if |s| < 2 then LeadingZero(s); "0" + s else s
  }

  /** `formatDurationLabel`: the hour part appears exactly when there are
      hours, the minute part exactly when there are minutes, and the seconds
      part only without hours and when there are seconds or nothing else. */
  function FormatDurationLabel(n: nat): (r: string)
    ensures n == 0 ==> r == "0s"
    ensures ('h' in r) == (Hours(n) > 0)
    ensures ('m' in r) == (Minutes(n) > 0)
    ensures ('s' in r) == (Hours(n) == 0 && (Secs(n) > 0 || Minutes(n) == 0))
  {
    Label(Hours(n), Minutes(n), Secs(n))
  }

  /** The choice of words `formatDurationLabel` makes from the components. */
  function Label(h: nat, m: nat, s: nat): (r: string)
    ensures h == 0 && m == 0 && s == 0 ==> r == "0s"
    ensures ('h' in r) == (h > 0)
    ensures ('m' in r) == (m > 0)
    ensures ('s' in r) == (h == 0 && (s > 0 || m == 0))
  {
    NotInDigits(FromNat(h), 'h'); NotInDigits(FromNat(h), 'm'); NotInDigits(FromNat(h), 's');
    NotInDigits(FromNat(m), 'h'); NotInDigits(FromNat(m), 'm'); NotInDigits(FromNat(m), 's');
    NotInDigits(FromNat(s), 'h'); NotInDigits(FromNat(s), 'm'); NotInDigits(FromNat(s), 's');
    if h > 0 && m > 0 then Word(h, 'h') + " " + Word(m, 'm')
    else if h > 0 then Word(h, 'h')
    else if m > 0 && s > 0 then Word(m, 'm') + " " + Word(s, 's')
    else if m > 0 then Word(m, 'm')
    else Word(s, 's')
  }

  /** `${v}` followed by a unit letter. */
  function Word(v: nat, u: char): string {
    FromNat(v) + [u]
  }

  /** The seconds a unit letter of a label stands for; 0 for any other character. */
  function UnitSeconds(u: char): nat {
    if u == 'h' then 3600 else if u == 'm' then 60 else if u == 's' then 1 else 0
  }

  /** One word of a label: a number without leading zeros, then a unit letter. */
  predicate IsWord(w: string) {
    |w| >= 2 && UnitSeconds(w[|w| - 1]) > 0 && Canonical(w[..|w| - 1])
  }

  function WordUnit(w: string): nat
    requires IsWord(w)
  {
    UnitSeconds(w[|w| - 1])
  }

  function WordSeconds(w: string): nat
    requires IsWord(w)
  {
    Value(w[..|w| - 1]) * WordUnit(w)
  }

  /** Reads the words of a label: each unit smaller than the one before and
      each amount less than one of the previous unit (so minutes and seconds
      stay below 60); the result is the seconds they add up to. `above` is the
      previous word's unit, 0 before the first word. */
  function ReadWords(ws: seq<string>, above: nat): Option<nat> {
    if ws == [] then Some(0)
    else if !IsWord(ws[0]) then None
    else if above > 0 && (WordUnit(ws[0]) >= above || WordSeconds(ws[0]) >= above) then None
    else
      match ReadWords(ws[1..], WordUnit(ws[0]))
      case None => None
      case Some(rest) => Some(WordSeconds(ws[0]) + rest)
  }

  /** The seconds a non-empty label of space-separated words denotes. */
  function ReadLabel(r: string): Option<nat> {
    if r == [] then None else ReadWords(Split(r, ' '), 0)
  }

  /** `${v}` followed by a unit letter is one word worth `v` units. */
  lemma WordOf(v: nat, u: char)
    requires UnitSeconds(u) > 0
    ensures var w := Word(v, u);
      IsWord(w) && WordUnit(w) == UnitSeconds(u) && WordSeconds(w) == v * UnitSeconds(u) && ' ' !in w
  {
    var w := Word(v, u);
    assert w[..|w| - 1] == FromNat(v);
    FromNatCanonical(v);
    ValueOfFromNat(v);
    NotInDigits(FromNat(v), ' ');
  }

  /** A label of one word reads as that word. */
  lemma ReadOne(w: string)
    requires IsWord(w) && ' ' !in w
    ensures ReadLabel(w) == Some(WordSeconds(w))
  {
    assert ReadWords([w][1..], WordUnit(w)) == Some(0);
  }

  /** A label of two words with descending units reads as their sum. */
  lemma ReadTwo(w1: string, w2: string)
    requires IsWord(w1) && IsWord(w2) && ' ' !in w1 && ' ' !in w2
    requires WordUnit(w2) < WordUnit(w1) && WordSeconds(w2) < WordUnit(w1)
    ensures ReadLabel(w1 + " " + w2) == Some(WordSeconds(w1) + WordSeconds(w2))
  {
    assert Split(w1 + " " + w2, ' ') == [w1, w2] by {
      assert w1 + " " + w2 == w1 + [' '] + w2;
      SplitJoin(w1, w2, ' ');
    }
    assert ReadWords([w2], WordUnit(w1)) == Some(WordSeconds(w2)) by {
      assert [w2][1..] == [];
    }
    assert [w1, w2][1..] == [w2];
  }

  /** Reading the duration label back gives the duration it shows: all of
      it below an hour, and the whole minutes from an hour up. */
  lemma LabelReadsBack(n: nat)
    ensures ReadLabel(FormatDurationLabel(n)) == Some(if Hours(n) > 0 then n - Secs(n) else n)
  {
    var h, m, s := Hours(n), Minutes(n), Secs(n);
    var shown := if h > 0 then h * 3600 + m * 60 else m * 60 + s;
    assert shown == (if h > 0 then n - s else n) by {
      Decompose(n);
    }
    assert ReadLabel(Label(h, m, s)) == Some(shown) by {
      LabelOfReadsBack(h, m, s);
    }
    assert FormatDurationLabel(n) == Label(h, m, s);
  }

  lemma LabelOfReadsBack(h: nat, m: nat, s: nat)
    requires m < 60 && s < 60
    ensures ReadLabel(Label(h, m, s)) == Some(if h > 0 then h * 3600 + m * 60 else m * 60 + s)
  {
    if h > 0 {
      LabelWithHoursOf(h, m, s);
    } else {
      LabelWithoutHoursOf(h, m, s);
    }
  }

  lemma LabelWithHoursOf(h: nat, m: nat, s: nat)
    requires h > 0 && m < 60
    ensures ReadLabel(Label(h, m, s)) == Some(h * 3600 + m * 60)
  {
    if m > 0 {
      var w := Word(h, 'h') + " " + Word(m, 'm');
      assert ReadLabel(w) == Some(h * 3600 + m * 60) by { ReadHoursMinutes(h, m); }
      assert Label(h, m, s) == w;
    } else {
      var w := Word(h, 'h');
      assert ReadLabel(w) == Some(h * 3600) by { ReadSingle(h, 'h'); }
      assert Label(h, m, s) == w;
    }
  }

  lemma LabelWithoutHoursOf(h: nat, m: nat, s: nat)
    requires h == 0 && s < 60
    ensures ReadLabel(Label(h, m, s)) == Some(m * 60 + s)
  {
    if m > 0 && s > 0 {
      var w := Word(m, 'm') + " " + Word(s, 's');
      assert ReadLabel(w) == Some(m * 60 + s) by { ReadMinutesSeconds(m, s); }
      assert Label(h, m, s) == w;
    } else if m > 0 {
      var w := Word(m, 'm');
      assert ReadLabel(w) == Some(m * 60) by { ReadSingle(m, 'm'); }
      assert Label(h, m, s) == w;
    } else {
      var w := Word(s, 's');
      assert ReadLabel(w) == Some(s) by { ReadSingle(s, 's'); }
      assert Label(h, m, s) == w;
    }
  }

  /** One word reads as its amount in units. */
  lemma ReadSingle(v: nat, u: char)
    requires UnitSeconds(u) > 0
    ensures ReadLabel(Word(v, u)) == Some(v * UnitSeconds(u))
  {
    WordOf(v, u);
    ReadOne(Word(v, u));
  }

  lemma ReadHoursMinutes(h: nat, m: nat)
    requires m < 60
    ensures ReadLabel(Word(h, 'h') + " " + Word(m, 'm')) == Some(h * 3600 + m * 60)
  {
    var wh, wm := Word(h, 'h'), Word(m, 'm');
    assert IsWord(wh) && ' ' !in wh && WordUnit(wh) == 3600 && WordSeconds(wh) == h * 3600 by {
      WordOf(h, 'h');
    }
    assert IsWord(wm) && ' ' !in wm && WordUnit(wm) == 60 && WordSeconds(wm) == m * 60 by {
      WordOf(m, 'm');
    }
    ReadTwo(wh, wm);
  }

  lemma ReadMinutesSeconds(m: nat, s: nat)
    requires s < 60
    ensures ReadLabel(Word(m, 'm') + " " + Word(s, 's')) == Some(m * 60 + s)
  {
    var wm, ws := Word(m, 'm'), Word(s, 's');
    assert IsWord(wm) && ' ' !in wm && WordUnit(wm) == 60 && WordSeconds(wm) == m * 60 by {
      WordOf(m, 'm');
    }
    assert IsWord(ws) && ' ' !in ws && WordUnit(ws) == 1 && WordSeconds(ws) == s by {
      WordOf(s, 's');
    }
    ReadTwo(wm, ws);
  }

  /** `formatCountdown`: `HH:MM:SS` with hours, `MM:SS` without; the minute and
      second fields are two digits that read back as the components, and the
      hour field is padded to two digits and otherwise has no leading zero. */
  function FormatCountdown(n: nat): (r: string)
    ensures Hours(n) == 0 ==> |r| == 5 && r[2] == ':'
    ensures Hours(n) > 0 ==>
      |r| >= 8 && r[|r| - 6] == ':' && r[|r| - 3] == ':' &&
      AllDigits(r[..|r| - 6]) && Value(r[..|r| - 6]) == Hours(n)
    ensures 0 < Hours(n) < 100 ==> |r| == 8
    ensures Hours(n) >= 10 ==> Canonical(r[..|r| - 6])
    ensures AllDigits(r[|r| - 5..|r| - 3]) && Value(r[|r| - 5..|r| - 3]) == Minutes(n)
    ensures AllDigits(r[|r| - 2..]) && Value(r[|r| - 2..]) == Secs(n)
  {
    var h, m, s := Hours(n), Minutes(n), Secs(n);
    var pm, ps := Pad2(m), Pad2(s);
    if h > 0 then
      var ph := Pad2(h);
      ThreeFields(ph, pm, ps);
      ph + ":" + pm + ":" + ps
    else
      TwoFields(pm, ps);
      pm + ":" + ps
  }

  /** Where the fields of `a:b:c` sit when `b` and `c` have two characters. */
  lemma ThreeFields(a: string, b: string, c: string)
    requires |a| >= 2 && |b| == 2 && |c| == 2
    ensures var r := a + ":" + b + ":" + c;
      |r| == |a| + 6 && r[..|r| - 6] == a && r[|r| - 6] == ':' &&
      r[|r| - 5..|r| - 3] == b && r[|r| - 3] == ':' && r[|r| - 2..] == c
  {
  }

  /** Where the fields of `b:c` sit when both have two characters. */
  lemma TwoFields(b: string, c: string)
    requires |b| == 2 && |c| == 2
    ensures var r := b + ":" + c;
      |r| == 5 && r[2] == ':' && r[..2] == b && r[3..] == c
  {
  }

  /** A string without leading or trailing white space is its own trim. */
  lemma TrimUnchanged(s: string)
    requires s != [] && !IsSpace(s[0]) && !IsSpace(s[|s| - 1])
    ensures Trim(s) == s
  {
  }

  /** Three colon-free fields joined by colons split back into themselves. */
  lemma SplitThree(a: string, b: string, c: string)
    requires ':' !in a && ':' !in b && ':' !in c
    ensures Split(a + ":" + b + ":" + c, ':') == [a, b, c]
  {
    assert a + ":" + b + ":" + c == a + [':'] + (b + [':'] + c);
    SplitJoin(b, c, ':');
    SplitJoin(a, b + [':'] + c, ':');
  }

  lemma SplitTwo(a: string, b: string)
    requires ':' !in a && ':' !in b
    ensures Split(a + ":" + b, ':') == [a, b]
  {
    assert a + ":" + b == a + [':'] + b;
    SplitJoin(a, b, ':');
  }

  /** Round trip: every positive countdown parses back to its seconds. */
  lemma FormatCountdownRoundTrip(n: nat)
    requires n > 0
    ensures ParseDuration(FormatCountdown(n)) == Some(n)
  {
    if Hours(n) > 0 {
      RoundTripWithHours(n);
    } else {
      RoundTripWithoutHours(n);
    }
  }

  /** An input without surrounding white space whose fields are numeric and
      total a positive number parses to that total. */
  lemma ParseFields(r: string, parts: seq<string>)
    requires r != [] && !IsSpace(r[0]) && !IsSpace(r[|r| - 1])
    requires Split(r, ':') == parts && 1 <= |parts| <= 3 && AllNumeric(parts)
    requires FieldsTotal(parts) > 0
    ensures ParseDuration(r) == Some(FieldsTotal(parts))
  {
    TrimUnchanged(r);
  }

  /** Three digit fields joined by colons parse to their weighted sum. */
  lemma ParseThreeFields(a: string, b: string, c: string, total: nat)
    requires |a| >= 1 && |b| >= 1 && |c| >= 1 && AllDigits(a) && AllDigits(b) && AllDigits(c)
    requires Value(a) * 3600 + Value(b) * 60 + Value(c) == total && total > 0
    ensures ParseDuration(a + ":" + b + ":" + c) == Some(total)
  {
    var r := a + ":" + b + ":" + c;
    assert r != [] && !IsSpace(r[0]) && !IsSpace(r[|r| - 1]) by {
      assert r[0] == a[0] && r[|r| - 1] == c[|c| - 1];
    }
    ThreeDigitFields(a, b, c);
    ParseFields(r, [a, b, c]);
  }

  /** The fields of `a:b:c` for digit strings, and what they total. */
  lemma ThreeDigitFields(a: string, b: string, c: string)
    requires AllDigits(a) && AllDigits(b) && AllDigits(c)
    ensures Split(a + ":" + b + ":" + c, ':') == [a, b, c]
    ensures AllNumeric([a, b, c]) && FieldsTotal([a, b, c]) == Value(a) * 3600 + Value(b) * 60 + Value(c)
  {
    NotInDigits(a, ':'); NotInDigits(b, ':'); NotInDigits(c, ':');
    SplitThree(a, b, c);
    ThreeNumeric(a, b, c);
  }

  lemma ThreeNumeric(a: string, b: string, c: string)
    requires AllDigits(a) && AllDigits(b) && AllDigits(c)
    ensures AllNumeric([a, b, c]) && FieldsTotal([a, b, c]) == Value(a) * 3600 + Value(b) * 60 + Value(c)
  {
    var parts := [a, b, c];
    assert parts[0] == a && parts[1] == b && parts[2] == c;
    assert Numeric(a) && FieldNumber(a) == Value(a) by {
      DigitsNumeric(a);
    }
    assert Numeric(b) && FieldNumber(b) == Value(b) by {
      DigitsNumeric(b);
    }
    assert Numeric(c) && FieldNumber(c) == Value(c) by {
      DigitsNumeric(c);
    }
    assert AllNumeric(parts) by {
      forall i | 0 <= i < 3
        ensures Numeric(parts[i])
      {
        if i == 0 {
          assert parts[i] == a;
        } else if i == 1 {
          assert parts[i] == b;
        } else {
          assert parts[i] == c;
        }
      }
    }
  }

  /** Two digit fields joined by a colon parse to their weighted sum. */
  lemma ParseTwoFields(b: string, c: string, total: nat)
    requires |b| >= 1 && |c| >= 1 && AllDigits(b) && AllDigits(c)
    requires Value(b) * 60 + Value(c) == total && total > 0
    ensures ParseDuration(b + ":" + c) == Some(total)
  {
    var r := b + ":" + c;
    NotInDigits(b, ':'); NotInDigits(c, ':');
    DigitsNumeric(b); DigitsNumeric(c);
    assert AllNumeric([b, c]) && FieldsTotal([b, c]) == Value(b) * 60 + Value(c);
    assert r[0] == b[0] && r[|r| - 1] == c[|c| - 1];
    SplitTwo(b, c);
    ParseFields(r, [b, c]);
  }

  lemma RoundTripWithHours(n: nat)
    requires Hours(n) > 0
    ensures ParseDuration(FormatCountdown(n)) == Some(n)
  {
    var h, m, sec := Hours(n), Minutes(n), Secs(n);
    var ph, pm, ps := Pad2(h), Pad2(m), Pad2(sec);
    assert Value(ph) * 3600 + Value(pm) * 60 + Value(ps) == n by {
      Decompose(n);
    }
    ParseThreeFields(ph, pm, ps, n);
    assert FormatCountdown(n) == ph + ":" + pm + ":" + ps;
  }

  lemma RoundTripWithoutHours(n: nat)
    requires n > 0 && Hours(n) == 0
    ensures ParseDuration(FormatCountdown(n)) == Some(n)
  {
    var m, sec := Minutes(n), Secs(n);
    var pm, ps := Pad2(m), Pad2(sec);
    assert Value(pm) * 60 + Value(ps) == n by {
      Decompose(n);
    }
    ParseTwoFields(pm, ps, n);
    assert FormatCountdown(n) == pm + ":" + ps;
  }
}
