/** Display labels for parameter identifiers: every ASCII digit of a
    parameter name ("NO2", "PM2.5") is shown as its Unicode subscript glyph. */
module Labels {

  predicate IsAsciiDigit(c: char) {
    '0' <= c <= '9'
  }

  predicate NoAsciiDigit(s: string) {
    forall i :: 0 <= i < |s| ==> !IsAsciiDigit(s[i])
  }

  /** The lookup table of the formatter: ASCII digit to subscript glyph. */
  const SubscriptDigits: map<char, char> := map[
    '0' := '\U{2080}', '1' := '\U{2081}', '2' := '\U{2082}', '3' := '\U{2083}', '4' := '\U{2084}',
    '5' := '\U{2085}', '6' := '\U{2086}', '7' := '\U{2087}', '8' := '\U{2088}', '9' := '\U{2089}'
  ]

  /** The replacement callback: a digit matched by the pattern is looked up in the table;
      a character the table lacks is kept (the `|| digit` fallback). */
  function FormatChar(c: char): (g: char)
    ensures IsAsciiDigit(c) ==> g as int == 0x2080 + (c as int - '0' as int)
    ensures !IsAsciiDigit(c) ==> g == c
    ensures !IsAsciiDigit(g)
  {
    if IsAsciiDigit(c) && c in SubscriptDigits then SubscriptDigits[c] else c
  }

  /** formatParameter: replace every ASCII digit by U+2080 + digit, keep everything else. */
  function FormatParameter(param: string): (shown: string)
    ensures |shown| == |param|
    ensures forall i :: 0 <= i < |param| && IsAsciiDigit(param[i]) ==>
              shown[i] as int == 0x2080 + (param[i] as int - '0' as int)
    ensures forall i :: 0 <= i < |param| && !IsAsciiDigit(param[i]) ==> shown[i] == param[i]
    ensures NoAsciiDigit(shown)
  {
    if param == [] then [] else [FormatChar(param[0])] + FormatParameter(param[1..])
  }

  /** A name is left unchanged exactly when it has no ASCII digit. */
  lemma FormatFixpointIff(param: string)
    ensures FormatParameter(param) == param <==> NoAsciiDigit(param)
  {
    var shown := FormatParameter(param);
    if NoAsciiDigit(param) {
      assert forall i :: 0 <= i < |param| ==> shown[i] == param[i];
    } else {
      var i :| 0 <= i < |param| && IsAsciiDigit(param[i]);
      assert shown[i] != param[i];
    }
  }

  /** Formatting twice is formatting once. */
  lemma FormatIdempotent(param: string)
    ensures FormatParameter(FormatParameter(param)) == FormatParameter(param)
  {
    FormatFixpointIff(FormatParameter(param));
  }

  /** Each position of the label is the formatted character at that position. */
  lemma FormatAt(param: string, i: nat)
    requires i < |param|
    ensures i < |FormatParameter(param)| && FormatParameter(param)[i] == FormatChar(param[i])
  {
  }

  /** The formatter works character by character, so it distributes over concatenation. */
  lemma {:induction false} FormatConcat(a: string, b: string)
    ensures FormatParameter(a + b) == FormatParameter(a) + FormatParameter(b)
  {
    var ab := a + b;
    var whole, left, right := FormatParameter(ab), FormatParameter(a), FormatParameter(b);
    forall i | 0 <= i < |whole| ensures whole[i] == (left + right)[i] {
      FormatAt(ab, i);
      if i < |a| {
        FormatAt(a, i);
      } else {
        FormatAt(b, i - |a|);
      }
    }
  }

  /** The labels the dashboard shows for common pollutants. */
  lemma FormatExamples()
    ensures FormatParameter("NO2") == "NO\U{2082}"
    ensures FormatParameter("PM2.5") == "PM\U{2082}.\U{2085}"
    ensures FormatParameter("O3") == "O\U{2083}"
    ensures FormatParameter("ABC") == "ABC"
    ensures FormatParameter("") == ""
  {
    assert FormatParameter("NO2")[2] == '\U{2082}';
    assert FormatParameter("PM2.5")[2] == '\U{2082}';
    assert FormatParameter("PM2.5")[4] == '\U{2085}';
    assert FormatParameter("O3")[1] == '\U{2083}';
    FormatFixpointIff("ABC");
  }
}
