/**
 The string helpers the classifiers lean on: Python's `str()` of an integer
 (as used inside f-strings), its inverse, ASCII approximations of the Unicode
 character predicates, `str.lower()` and `str.split(sep)` for a one-character
 separator.
 */
module Text {

  datatype Option<+T> = None | Some(value: T)

  /** The ASCII approximation of `str.isupper()` on one character. */
  predicate IsUpper(c: char) {
    'A' <= c <= 'Z'
  }

  /** The ASCII approximation of `str.islower()` on one character. */
  predicate IsLower(c: char) {
    'a' <= c <= 'z'
  }

  /** The ASCII approximation of `str.isdigit()` on one character. */
  predicate IsDigit(c: char) {
    '0' <= c <= '9'
  }

  predicate AllDigits(s: string) {
    forall i :: 0 <= i < |s| ==> IsDigit(s[i])
  }

  function DigitChar(d: int): (c: char)
    requires 0 <= d < 10
    ensures IsDigit(c)
    ensures c as int - '0' as int == d
  {
    (d + '0' as int) as char
  }

  /** The decimal digits of `n`, most significant first, with no leading zero. */
  function NatToString(n: nat): (s: string)
    ensures |s| >= 1
    ensures AllDigits(s)
    ensures |s| > 1 ==> s[0] != '0'
    ensures n < 10 <==> |s| == 1
    decreases n
  {
    if n < 10 then [DigitChar(n)] else NatToString(n / 10) + [DigitChar(n % 10)]
  }

  /**
   Python's `str(n)` for an integer: a minus sign for negatives, then the
   digits in canonical form (no leading zero unless the number is 0).
   */
  function IntToString(n: int): (s: string)
    ensures |s| >= 1
    ensures n < 0 <==> s[0] == '-'
    ensures n >= 0 ==> AllDigits(s)
    ensures n >= 0 && |s| > 1 ==> s[0] != '0'
    ensures n < 0 ==> |s| >= 2 && AllDigits(s[1..]) && s[1] != '0'
  {
    if n < 0 then "-" + NatToString(-n) else NatToString(n)
  }

  /** The value of a string of decimal digits. */
  function DigitsValue(s: string): nat
    requires AllDigits(s)
  {
    if |s| == 0 then 0
    else DigitsValue(s[..|s| - 1]) * 10 + (s[|s| - 1] as int - '0' as int)
  }

  /** Reads back what `IntToString` writes: an optional minus sign and at least one digit. */
  function ParseInt(s: string): (r: Option<int>)
    ensures r.Some? ==> |s| >= 1
    ensures AllDigits(s) && |s| >= 1 ==> r.Some? && r.value >= 0
  {
    if |s| >= 2 && s[0] == '-' && AllDigits(s[1..]) then
      var magnitude: int := DigitsValue(s[1..]);
      Some(-magnitude)
    else if |s| >= 1 && AllDigits(s) then Some(DigitsValue(s))
    else None
  }

  lemma {:induction false} NatToStringRoundTrip(n: nat)
    ensures DigitsValue(NatToString(n)) == n
    decreases n
  {
    if n >= 10 {
      var prefix := NatToString(n / 10);
      var s := prefix + [DigitChar(n % 10)];
      assert s[..|s| - 1] == prefix;
      NatToStringRoundTrip(n / 10);
    }
  }

  /** Parsing inverts printing, for every integer. */
  lemma IntToStringRoundTrip(n: int)
    ensures ParseInt(IntToString(n)) == Some(n)
  {
    var s := IntToString(n);
    if n < 0 {
      var digits := NatToString(-n);
      assert s == "-" + digits;
      assert s[1..] == digits;
      NatToStringRoundTrip(-n);
      assert |s| >= 2 && s[0] == '-' && AllDigits(s[1..]);
      assert DigitsValue(s[1..]) == -n;
    } else {
      NatToStringRoundTrip(n);
      assert s[0] != '-' by { assert IsDigit(s[0]); }
      assert |s| >= 1 && AllDigits(s);
      assert DigitsValue(s) == n;
    }
  }

  /** Different integers print differently. */
  lemma IntToStringInjective(a: int, b: int)
    ensures IntToString(a) == IntToString(b) <==> a == b
  {
    IntToStringRoundTrip(a);
    IntToStringRoundTrip(b);
  }

  /** The ASCII approximation of `str.lower()` on one character. */
  function LowerChar(c: char): (d: char)
    ensures IsUpper(c) ==> IsLower(d) && d as int - c as int == 'a' as int - 'A' as int
    ensures !IsUpper(c) ==> d == c
    ensures !IsUpper(d)
  {
    if IsUpper(c) then (c as int - 'A' as int + 'a' as int) as char else c
  }

  /** The ASCII approximation of `str.lower()`: every upper-case letter replaced, nothing else touched. */
  function ToLower(s: string): (r: string)
    ensures |r| == |s|
    ensures forall i :: 0 <= i < |s| ==> r[i] == LowerChar(s[i])
    ensures forall i :: 0 <= i < |s| ==> !IsUpper(r[i])
  {
    seq(|s|, i requires 0 <= i < |s| => LowerChar(s[i]))
  }

  /** Lower-casing twice is lower-casing once. */
  lemma ToLowerIdempotent(s: string)
    ensures ToLower(ToLower(s)) == ToLower(s)
  {
  }

  /** `parts` glued back together with `sep` between neighbours. */
  function Join(parts: seq<string>, sep: char): string
    requires |parts| >= 1
  {
    if |parts| == 1 then parts[0] else parts[0] + [sep] + Join(parts[1..], sep)
  }

  /**
   Python's `s.split(sep)` for a one-character separator: the maximal runs
   between separators, including empty ones, so `"".split("@") == [""]`.
   */
  function Split(s: string, sep: char): (parts: seq<string>)
    ensures |parts| >= 1
    ensures forall k :: 0 <= k < |parts| ==> sep !in parts[k]
    ensures |parts| > 1 <==> sep in s
    decreases |s|
  {
    if |s| == 0 then [""]
    else
      var rest := Split(s[1..], sep);
      assert s == [s[0]] + s[1..];
      if s[0] == sep then [""] + rest
      else [[s[0]] + rest[0]] + rest[1..]
  }

  /** Splitting and joining with the same separator gives back the string. */
  lemma {:induction false} SplitJoinRoundTrip(s: string, sep: char)
    ensures Join(Split(s, sep), sep) == s
    decreases |s|
  {
    if |s| > 0 {
      SplitJoinRoundTrip(s[1..], sep);
      JoinSplitStep(s, sep);
    }
  }

  /** One step of the round trip: the first character joins onto the split of the rest. */
  lemma JoinSplitStep(s: string, sep: char)
    requires |s| > 0
    requires Join(Split(s[1..], sep), sep) == s[1..]
    ensures Join(Split(s, sep), sep) == s
  {
  }

  /**
   The last piece of `Split(s, sep)` is the text after the last separator:
   all of `s` when there is none, otherwise the suffix that follows it.
   */
  lemma {:induction false} SplitLastPart(s: string, sep: char)
    ensures IsTextAfterLast(LastPart(s, sep), s, sep)
    decreases |s|
  {
    if |s| > 0 {
      SplitLastPart(s[1..], sep);
      LastPartStep(s, sep);
    }
  }

  /**
   `last` is what follows the last `sep` in `s`: a suffix of `s`, the whole of
   `s` exactly when `s` has no separator, and otherwise preceded by one.
   */
  ghost predicate IsTextAfterLast(last: string, s: string, sep: char) {
    && |last| <= |s|
    && last == s[|s| - |last|..]
    && (sep !in s <==> |last| == |s|)
    && (|last| < |s| ==> s[|s| - |last| - 1] == sep)
  }

  /** One step of the induction: the first character is either a separator or joins the first piece. */
  lemma LastPartStep(s: string, sep: char)
    requires |s| > 0
    requires IsTextAfterLast(LastPart(s[1..], sep), s[1..], sep)
    ensures IsTextAfterLast(LastPart(s, sep), s, sep)
  {
  }

  /** The piece after the last separator, Python's `s.split(sep)[-1]`. */
  function LastPart(s: string, sep: char): string {
    var parts := Split(s, sep);
    parts[|parts| - 1]
  }
}
