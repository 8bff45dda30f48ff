/** The string operations the bot applies to message text and button
    payloads: JavaScript's `trim`, `startsWith`, `toLowerCase` (as far as the
    comparison with "cancel" needs it), `split("_")[1]` and `parseInt(_, 10)`. */
module Text {
  import opened Options

  /** JavaScript's WhiteSpace and LineTerminator characters: what `trim` removes
      and what `parseInt` skips before the number. */
  predicate IsSpace(c: char) {
    || c == '\t' || c == '\n' || c == '\U{B}' || c == '\U{C}' || c == '\r' || c == ' '
    || c == '\U{A0}' || c == '\U{1680}' || ('\U{2000}' <= c <= '\U{200A}')
    || c == '\U{2028}' || c == '\U{2029}' || c == '\U{202F}' || c == '\U{205F}'
    || c == '\U{3000}' || c == '\U{FEFF}'
  }

  predicate AllSpace(s: string) {
    forall i :: 0 <= i < |s| ==> IsSpace(s[i])
  }

  /** Drops the leading white space: the result is the suffix of `s` that
      starts at its first non-space character. */
  function TrimStart(s: string): (r: string)
    ensures |r| <= |s| && r == s[|s| - |r|..]
    ensures r == [] || !IsSpace(r[0])
    ensures AllSpace(s[..|s| - |r|])
  {
    if s != [] && IsSpace(s[0]) then TrimStart(s[1..]) else s
  }

  /** Drops the trailing white space: the result is the prefix of `s` that
      ends at its last non-space character. */
  function TrimEnd(s: string): (r: string)
    ensures |r| <= |s| && r == s[..|r|]
    ensures r == [] || !IsSpace(r[|r| - 1])
    ensures AllSpace(s[|r|..])
  {
    if s != [] && IsSpace(s[|s| - 1]) then TrimEnd(s[..|s| - 1]) else s
  }

  /** `String.prototype.trim`: the result neither starts nor ends with white
      space; `TrimSpan` says where in `s` it comes from. */
  function Trim(s: string): (r: string)
    ensures |r| <= |s|
    ensures r == [] || (!IsSpace(r[0]) && !IsSpace(r[|r| - 1]))
  {
    var t := TrimStart(s);
    var r := TrimEnd(t);
    assert r != [] ==> r[0] == t[0];
    r
  }

  /** Text with no white space at either end is left as it is. */
  lemma UnpaddedTrim(s: string)
    requires s != [] && !IsSpace(s[0]) && !IsSpace(s[|s| - 1])
    ensures Trim(s) == s
  {
    assert TrimStart(s) == s;
    assert TrimEnd(s) == s;
  }

  /** `r` sits in `s` between white space on both sides. */
  ghost predicate Padded(s: string, r: string) {
    exists i {:trigger s[i..]} :: 0 <= i <= |s| - |r| && s[i..][..|r|] == r
      && AllSpace(s[..i]) && AllSpace(s[i + |r|..])
  }

  lemma PaddedSuffixPrefix(s: string, t: string, r: string)
    requires |t| <= |s| && t == s[|s| - |t|..] && AllSpace(s[..|s| - |t|])
    requires |r| <= |t| && r == t[..|r|] && AllSpace(t[|r|..])
    ensures Padded(s, r)
  {
    var i := |s| - |t|;
    assert s[i..] == t;
    assert s[i + |r|..] == t[|r|..];
  }

  /** What `trim` drops is white space: `s` is white space, then the result,
      then white space. */
  lemma TrimSpan(s: string)
    ensures Padded(s, Trim(s))
  {
    PaddedSuffixPrefix(s, TrimStart(s), TrimEnd(TrimStart(s)));
  }

  /** Trimming twice is trimming once (`parseCustomDate` trims text that the
      message handler has already trimmed). */
  lemma TrimIdempotent(s: string)
    ensures Trim(Trim(s)) == Trim(s)
  {
    var r := Trim(s);
    assert TrimStart(r) == r;
    assert TrimEnd(r) == r;
  }

  predicate StartsWith(s: string, prefix: string) {
    |prefix| <= |s| && s[..|prefix|] == prefix
  }

  /** `toLowerCase` on the letters A to Z. */
  function LowerChar(c: char): char {
    if 'A' <= c <= 'Z' then (c as int - 'A' as int + 'a' as int) as char else c
  }

  /** `text.toLowerCase() === "cancel"`. */
  predicate IsCancelWord(t: string) {
    |t| == 6 && forall i :: 0 <= i < 6 ==> LowerChar(t[i]) == "cancel"[i]
  }

  /** The words that match are exactly the six letters of "cancel", each in
      lower or upper case. */
  lemma CancelWordLetters(t: string)
    ensures IsCancelWord(t) <==> |t| == 6 && forall i :: 0 <= i < 6 ==> t[i] == "cancel"[i] || t[i] == "CANCEL"[i]
  {
  }

  predicate IsDigit(c: char) {
    '0' <= c <= '9'
  }

  predicate AllDigits(s: string) {
    forall i :: 0 <= i < |s| ==> IsDigit(s[i])
  }

  function DigitValue(c: char): nat
    requires IsDigit(c)
  {
    c as int - '0' as int
  }

  function DigitChar(d: nat): (c: char)
    requires d < 10
    ensures IsDigit(c) && DigitValue(c) == d
  {
    ('0' as int + d) as char
  }

  function Pow10(k: nat): (p: nat)
    ensures p >= 1
  {
    if k == 0 then 1 else 10 * Pow10(k - 1)
  }

  /** The number a run of decimal digits denotes (`parseInt(s, 10)` on digits
      only); it is below 10 to the power of the number of digits. */
  function DigitsValue(s: string): (n: nat)
    requires AllDigits(s)
    ensures n < Pow10(|s|)
  {
    if s == [] then 0
    else
      var m := DigitsValue(s[..|s| - 1]);
      var d := DigitValue(s[|s| - 1]);
      assert m * 10 + d < Pow10(|s| - 1) * 10 by {
        assert m + 1 <= Pow10(|s| - 1);
        assert (m + 1) * 10 <= Pow10(|s| - 1) * 10;
      }
      m * 10 + d
  }

  /** The decimal numeral JavaScript writes for a non-negative integer, as in
      the template `delete_${idx}`: digits only, and no leading zero. */
  function NatToString(n: nat): (s: string)
    ensures |s| >= 1 && AllDigits(s)
    ensures |s| > 1 ==> s[0] != '0'
  {
    if n < 10 then [DigitChar(n)] else NatToString(n / 10) + [DigitChar(n % 10)]
  }

  lemma {:induction false} NatToStringValue(n: nat)
    ensures DigitsValue(NatToString(n)) == n
  {
    if n >= 10 {
      NatToStringValue(n / 10);
      var s := NatToString(n);
      assert s[..|s| - 1] == NatToString(n / 10);
    }
  }

  /** The longest prefix of decimal digits. */
  function LeadingDigits(s: string): (r: string)
    ensures |r| <= |s| && r == s[..|r|] && AllDigits(r)
    ensures |r| < |s| ==> !IsDigit(s[|r|])
  {
    if s != [] && IsDigit(s[0]) then [s[0]] + LeadingDigits(s[1..]) else []
  }

  lemma {:induction false} LeadingDigitsOfDigits(s: string)
    requires AllDigits(s)
    ensures LeadingDigits(s) == s
  {
    if s != [] {
      LeadingDigitsOfDigits(s[1..]);
    }
  }

  /** `parseInt(s, 10)`: skip white space, take an optional sign and the
      longest run of digits after it; `None` is `NaN` (no digit at all). */
  function ParseDecimal(s: string): Option<int> {
    ParseSigned(TrimStart(s))
  }

  /** `parseInt` past the white space: an optional sign, then the digits. */
  function ParseSigned(t: string): Option<int> {
    var ds := LeadingDigits(SignStripped(t));
    if ds == [] then None
    else
      var v: int := DigitsValue(ds);
      Some(if t[0] == '-' then -v else v)
  }

  function SignStripped(t: string): string {
    if t != [] && (t[0] == '-' || t[0] == '+') then t[1..] else t
  }

  lemma DigitNotSpace(c: char)
    requires IsDigit(c)
    ensures !IsSpace(c) && c != '-' && c != '+'
  {
  }

  /** A numeral written by `NatToString` reads back as the same number. */
  lemma ParseDecimalOfNat(n: nat)
    ensures ParseDecimal(NatToString(n)) == Some(n)
  {
    var s := NatToString(n);
    DigitNotSpace(s[0]);
    assert TrimStart(s) == s;
    assert SignStripped(s) == s;
    LeadingDigitsOfDigits(s);
    NatToStringValue(n);
  }

  /** `parseInt` is `NaN` exactly when no digit follows the white space and
      the optional sign. */
  lemma ParseDecimalNaN(s: string)
    ensures ParseDecimal(s).None? <==> var u := SignStripped(TrimStart(s)); u == [] || !IsDigit(u[0])
  {
  }

  /** `parseInt` skips leading white space. */
  lemma ParseDecimalSkipsSpace(c: char, s: string)
    requires IsSpace(c)
    ensures ParseDecimal([c] + s) == ParseDecimal(s)
  {
    assert ([c] + s)[1..] == s;
    assert TrimStart([c] + s) == TrimStart(s);
  }

  /** A `+` before the digits changes nothing, and a `-` negates the value. */
  lemma ParseDecimalSign(s: string, v: int)
    requires s != [] && IsDigit(s[0]) && ParseDecimal(s) == Some(v)
    ensures ParseDecimal("+" + s) == Some(v)
    ensures ParseDecimal("-" + s) == Some(-v)
  {
    DigitNotSpace(s[0]);
    assert TrimStart(s) == s;
    SignedDigits(s, v);
    assert TrimStart("+" + s) == "+" + s && TrimStart("-" + s) == "-" + s;
  }

  lemma SignedDigits(s: string, v: int)
    requires s != [] && IsDigit(s[0]) && ParseSigned(s) == Some(v)
    ensures ParseSigned("+" + s) == Some(v) && ParseSigned("-" + s) == Some(-v)
  {
    DigitNotSpace(s[0]);
    assert ("+" + s)[1..] == s && ("-" + s)[1..] == s;
  }

  /** `s.split("_")[1]` when `s` begins with a field and an underscore: the
      text after the first underscore, up to the next underscore. */
  function FirstField(s: string): (r: string)
    ensures |r| <= |s| && r == s[..|r|] && '_' !in r
    ensures |r| < |s| ==> s[|r|] == '_'
  {
    if s == [] || s[0] == '_' then [] else [s[0]] + FirstField(s[1..])
  }

  lemma {:induction false} FirstFieldOfNumeral(n: nat)
    ensures FirstField(NatToString(n)) == NatToString(n)
  {
    var s := NatToString(n);
    assert forall i :: 0 <= i < |s| ==> s[i] != '_';
  }

  /** The split keeps everything up to the first underscore and nothing after. */
  lemma FirstFieldUpTo(a: string, b: string)
    requires '_' !in a
    ensures FirstField(a) == a
    ensures FirstField(a + "_" + b) == a
  {
    var s := a + "_" + b;
    assert s[|a|] == '_' && s[..|a|] == a;
  }
}
