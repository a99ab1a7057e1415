/** Day keys: the calendar-day part of a record's timestamp, and the order in
    which the rows keyed by them are sorted. */
module DayKeys {
  import Labels

  /** `date.split("T")[0]`: the part of the timestamp before the first "T"
      (the date/time separator of RFC 3339, section 5.6), or the whole
      string when it has no "T". */
  function DayKey(date: string): (key: string)
    ensures key <= date
    ensures 'T' !in key
    ensures |key| == |date| || date[|key|] == 'T'
  {
    if date == [] || date[0] == 'T' then [] else [date[0]] + DayKey(date[1..])
  }

  /** The three properties in DayKey's contract determine the key. */
  lemma DayKeyUnique(date: string, key: string)
    requires key <= date && 'T' !in key
    requires |key| == |date| || date[|key|] == 'T'
    ensures key == DayKey(date)
  {
  }

  /** A timestamp "day" + "T" + "time" is keyed by "day". */
  lemma DayKeyOfTimestamp(day: string, time: string)
    requires 'T' !in day
    ensures DayKey(day + "T" + time) == day
  {
    DayKeyUnique(day + "T" + time, day);
  }

  /** Taking the day key of a day key changes nothing. */
  lemma DayKeyIdempotent(date: string)
    ensures DayKey(DayKey(date)) == DayKey(date)
  {
    DayKeyUnique(DayKey(date), DayKey(date));
  }

  // ---------------------------------------------------------------------
  // Order of day keys

  /** Lexicographic order of strings by code point. */
  predicate LexLess(a: string, b: string) {
    if a == [] then b != []
    else if b == [] then false
    else if a[0] != b[0] then a[0] < b[0]
    else LexLess(a[1..], b[1..])
  }

  lemma {:induction false} LexIrreflexive(a: string)
    ensures !LexLess(a, a)
  {
    if a != [] {
      LexIrreflexive(a[1..]);
    }
  }

  lemma {:induction false} LexTransitive(a: string, b: string, c: string)
    requires LexLess(a, b) && LexLess(b, c)
    ensures LexLess(a, c)
  {
    if a != [] && b != [] && c != [] && a[0] == b[0] && b[0] == c[0] {
      LexTransitive(a[1..], b[1..], c[1..]);
    }
  }

  /** Two different strings are ordered one way or the other. */
  lemma {:induction false} LexTotal(a: string, b: string)
    requires a != b
    ensures LexLess(a, b) || LexLess(b, a)
  {
    if a != [] && b != [] && a[0] == b[0] {
      assert a == [a[0]] + a[1..] && b == [b[0]] + b[1..];
      LexTotal(a[1..], b[1..]);
    }
  }

  lemma {:induction false} LexAsymmetric(a: string, b: string)
    requires LexLess(a, b)
    ensures !LexLess(b, a)
  {
    if a != [] && b != [] && a[0] == b[0] {
      LexAsymmetric(a[1..], b[1..]);
    }
  }

  /** Comparing two strings whose first parts have equal length compares the
      first parts, and on a tie the rest. */
  lemma {:induction false} LexConcat(a1: string, a2: string, b1: string, b2: string)
    requires |a1| == |b1|
    ensures LexLess(a1 + a2, b1 + b2) <==> LexLess(a1, b1) || (a1 == b1 && LexLess(a2, b2))
  {
    if a1 == [] {
      assert a1 + a2 == a2 && b1 + b2 == b2;
    } else {
      assert (a1 + a2)[1..] == a1[1..] + a2 && (b1 + b2)[1..] == b1[1..] + b2;
      LexConcat(a1[1..], a2, b1[1..], b2);
      if a1[0] == b1[0] {
        assert a1 == b1 <==> a1[1..] == b1[1..] by {
          assert a1 == [a1[0]] + a1[1..] && b1 == [b1[0]] + b1[1..];
        }
      }
    }
  }

  // ---------------------------------------------------------------------
  // Well-formed YYYY-MM-DD keys and their calendar order

  predicate IsDigitString(s: string) {
    forall i :: 0 <= i < |s| ==> Labels.IsAsciiDigit(s[i])
  }

  /** A key of the form YYYY-MM-DD. */
  predicate WellFormedDay(key: string) {
    && |key| == 10 && key[4] == '-' && key[7] == '-'
    && IsDigitString(key[..4]) && IsDigitString(key[5..7]) && IsDigitString(key[8..])
  }

  function Pow10(n: nat): (p: nat)
    ensures p >= 1
  {
    if n == 0 then 1 else 10 * Pow10(n - 1)
  }

  /** Multiplying by a non-negative factor keeps the order. */
  lemma MulMonotone(x: int, y: int, p: nat)
    requires x <= y
    ensures x * p <= y * p
  {
    assert y * p - x * p == (y - x) * p;
  }

  /** The decimal number a digit string spells. */
  function DigitsValue(s: string): (v: nat)
    requires IsDigitString(s)
    ensures v < Pow10(|s|)
  {
    if s == [] then 0
    else
      var d := s[0] as int - '0' as int;
      var rest := DigitsValue(s[1..]);
      var p := Pow10(|s| - 1);
      assert (d + 1) * p == d * p + p;
      MulMonotone(d + 1, 10, p);
      d * p + rest
  }

  function Year(key: string): nat requires WellFormedDay(key) { DigitsValue(key[..4]) }
  function Month(key: string): nat requires WellFormedDay(key) { DigitsValue(key[5..7]) }
  function Day(key: string): nat requires WellFormedDay(key) { DigitsValue(key[8..]) }

  /** Calendar order: by year, then month, then day. */
  predicate ChronoLess(a: string, b: string)
    requires WellFormedDay(a) && WellFormedDay(b)
  {
    || Year(a) < Year(b)
    || (Year(a) == Year(b) && Month(a) < Month(b))
    || (Year(a) == Year(b) && Month(a) == Month(b) && Day(a) < Day(b))
  }

  /** A smaller leading digit makes a smaller number, whatever the lower digits. */
  lemma LeadingDigitDecides(da: int, db: int, ra: int, rb: int, p: nat)
    requires da < db && 0 <= ra < p && 0 <= rb < p
    ensures da * p + ra < db * p + rb
  {
    MulMonotone(da + 1, db, p);
    assert (da + 1) * p == da * p + p;
  }

  /** For digit strings of one length, lexicographic order is numeric order. */
  lemma {:induction false} DigitsLexIsNumeric(a: string, b: string)
    requires IsDigitString(a) && IsDigitString(b) && |a| == |b|
    ensures LexLess(a, b) <==> DigitsValue(a) < DigitsValue(b)
    ensures a == b <==> DigitsValue(a) == DigitsValue(b)
  {
    if a != [] {
      var p := Pow10(|a| - 1);
      var da, db := a[0] as int - '0' as int, b[0] as int - '0' as int;
      var ra, rb := DigitsValue(a[1..]), DigitsValue(b[1..]);
      DigitsLexIsNumeric(a[1..], b[1..]);
      assert DigitsValue(a) == da * p + ra;
      assert DigitsValue(b) == db * p + rb;
      assert a == [a[0]] + a[1..] && b == [b[0]] + b[1..];
      if da < db {
        LeadingDigitDecides(da, db, ra, rb, p);
      } else if db < da {
        LeadingDigitDecides(db, da, rb, ra, p);
      }
    }
  }

  /** Comparing two strings that agree at position n (a separator) compares
      the parts before it, and on a tie the parts after it. */
  lemma LexAroundSeparator(a: string, b: string, n: nat)
    requires n < |a| && n < |b| && a[n] == b[n]
    ensures LexLess(a, b) <==>
              LexLess(a[..n], b[..n]) || (a[..n] == b[..n] && LexLess(a[n + 1..], b[n + 1..]))
  {
    assert a == a[..n] + a[n..] && b == b[..n] + b[n..];
    LexConcat(a[..n], a[n..], b[..n], b[n..]);
    assert a[n..] == a[n..n + 1] + a[n + 1..] && b[n..] == b[n..n + 1] + b[n + 1..];
    LexConcat(a[n..n + 1], a[n + 1..], b[n..n + 1], b[n + 1..]);
    LexIrreflexive(a[n..n + 1]);
  }

  /** For well-formed YYYY-MM-DD keys, comparing the strings orders them
      by calendar date. */
  lemma WellFormedLexIsChronological(a: string, b: string)
    requires WellFormedDay(a) && WellFormedDay(b)
    ensures LexLess(a, b) <==> ChronoLess(a, b)
  {
    DigitsLexIsNumeric(a[..4], b[..4]);
    DigitsLexIsNumeric(a[5..7], b[5..7]);
    DigitsLexIsNumeric(a[8..], b[8..]);
    LexAroundSeparator(a, b, 4);
    var ma, mb := a[5..], b[5..];
    assert ma[..2] == a[5..7] && mb[..2] == b[5..7] && ma[3..] == a[8..] && mb[3..] == b[8..];
    LexAroundSeparator(ma, mb, 2);
  }
}
