/** The JavaScript built-ins on strings and numbers that the application's code relies on,
    stated on `seq<char>` and unbounded integers: `parseInt`, `Number.prototype.toString`,
    `padStart`, `join`, `split`, `trim`, `toLowerCase`, `includes`, `String.fromCharCode`
    and the ordering of strings. */
module JsText {
  import opened Options

  // ---------------------------------------------------------------------------
  // Characters

  /** The white space and line terminators that `trim` removes and `parseInt` skips. */
  predicate IsSpace(c: char) {
    c == ' ' || c == '\t' || c == '\n' || c == '\r' || c == '\U{B}' || c == '\U{C}'
    || c == '\U{A0}' || c == '\U{FEFF}' || c == '\U{2028}' || c == '\U{2029}'
  }

  predicate IsDigit(c: char) {
    '0' <= c <= '9'
  }

  predicate AllDigits(s: string) {
    forall i :: 0 <= i < |s| ==> IsDigit(s[i])
  }

  /** The value of `c` as a digit of base-36 notation (as `parseInt` reads digits), or -1. */
  function DigitValue(c: char): (d: int)
    ensures -1 <= d < 36
    ensures IsDigit(c) <==> 0 <= d < 10
  {
    if '0' <= c <= '9' then c as int - '0' as int
    else if 'a' <= c <= 'z' then c as int - 'a' as int + 10
    else if 'A' <= c <= 'Z' then c as int - 'A' as int + 10
    else -1
  }

  function DigitChar(d: nat): (c: char)
    requires d < 10
    ensures IsDigit(c) && DigitValue(c) == d
  {
    ('0' as int + d) as char
  }

  /** `String.fromCharCode(code)`: the code is taken modulo 2^16 (ToUint16); a lone UTF-16
      surrogate, which `char` cannot hold, is represented by U+FFFD. */
  function FromCharCode(code: int): (c: char)
    ensures 0 <= code < 0xD800 ==> c as int == code
  {
    var u := code % 0x1_0000;
    if u < 0xD800 || 0xE000 <= u then u as char else '\U{FFFD}'
  }

  // ---------------------------------------------------------------------------
  // Numbers to and from digit strings

  /** The value of a digit string in base `radix`, most significant digit first. */
  function ValueIn(digits: string, radix: nat): int {
    if digits == [] then 0
    else ValueIn(digits[..|digits| - 1], radix) * radix + DigitValue(digits[|digits| - 1])
  }

  function DecValue(digits: string): int {
    ValueIn(digits, 10)
  }

  /** `n.toString()` for a non-negative integer: the shortest decimal numeral of `n`. */
  function NatToString(n: nat): (r: string)
    ensures |r| >= 1 && AllDigits(r)
    ensures |r| > 1 ==> r[0] != '0'
    ensures DecValue(r) == n
  {
    if n < 10 then
      var r := [DigitChar(n)];
      assert r[..0] == [] && ValueIn(r, 10) == ValueIn([], 10) * 10 + DigitValue(r[0]);
      r
    else
      var r := NatToString(n / 10) + [DigitChar(n % 10)];
      assert r[..|r| - 1] == NatToString(n / 10);
      r
  }

  /** `n.toString()` for any integer. */
  function IntToString(n: int): string {
    if n < 0 then "-" + NatToString(-n) else NatToString(n)
  }

  /** The longest prefix of `s` made of digits of base `radix`. */
  function DigitPrefix(s: string, radix: nat): (r: string)
    ensures |r| <= |s| && r == s[..|r|]
    ensures forall i :: 0 <= i < |r| ==> 0 <= DigitValue(r[i]) < radix
    ensures |r| < |s| ==> !(0 <= DigitValue(s[|r|]) < radix)
  {
    if s == [] || !(0 <= DigitValue(s[0]) < radix) then []
    else [s[0]] + DigitPrefix(s[1..], radix)
  }

  /** `parseInt(s)` with no radix: leading white space is skipped, then an optional sign,
      then a `0x`/`0X` prefix selects base 16; the longest run of digits that follows is
      the value. `None` stands for `NaN` (no digit at all). */
  function ParseInt(s: string): (r: Option<int>)
    ensures r.None? <==> DigitPrefix(ParseBody(s).1, ParseBody(s).0) == []
  {
    var (radix, body) := ParseBody(s);
    var sign := ParseSign(TrimStart(s));
    var digits := DigitPrefix(body, radix);
    if digits == [] then None else Some(sign * ValueIn(digits, radix))
  }

  /** The sign `parseInt` reads at the front of `t`. */
  function ParseSign(t: string): int {
    if |t| > 0 && t[0] == '-' then -1 else 1
  }

  /** The base `parseInt` uses for `s` and the text in which it looks for digits. */
  function ParseBody(s: string): (nat, string) {
    var t := TrimStart(s);
    var u := if |t| > 0 && (t[0] == '-' || t[0] == '+') then t[1..] else t;
    if |u| >= 2 && u[0] == '0' && (u[1] == 'x' || u[1] == 'X') then (16, u[2..]) else (10, u)
  }

  // ---------------------------------------------------------------------------
  // Strings

  /** `s.padStart(width, [c])`. */
  function PadStart(s: string, width: nat, c: char): (r: string)
    ensures |r| == if |s| >= width then |s| else width
    ensures r[|r| - |s|..] == s
    ensures forall i :: 0 <= i < |r| - |s| ==> r[i] == c
  {
    if |s| >= width then s else seq(width - |s|, _ => c) + s
  }

  /** `parts.join(sep)`. */
  function Join(parts: seq<string>, sep: string): string {
    if |parts| == 0 then ""
    else if |parts| == 1 then parts[0]
    else parts[0] + sep + Join(parts[1..], sep)
  }

  /** `s.split(sep)` for a one-character separator. */
  function Split(s: string, sep: char): (r: seq<string>)
    ensures |r| >= 1
  {
    if s == [] then [""]
    else
      var rest := Split(s[1..], sep);
      if s[0] == sep then [""] + rest else [[s[0]] + rest[0]] + rest[1..]
  }

  /** `s.includes(sub)`. */
  predicate Contains(s: string, sub: string) {
    sub <= s || (s != [] && Contains(s[1..], sub))
  }

  /** `s.trimStart()`. */
  function TrimStart(s: string): (r: string)
    ensures |r| <= |s| && r == s[|s| - |r|..]
    ensures r == [] || !IsSpace(r[0])
    ensures forall i :: 0 <= i < |s| - |r| ==> IsSpace(s[i])
  {
    if s != [] && IsSpace(s[0]) then TrimStart(s[1..]) else s
  }

  /** `s.trimEnd()`. */
  function TrimEnd(s: string): (r: string)
    ensures |r| <= |s| && r == s[..|r|]
    ensures r == [] || !IsSpace(r[|r| - 1])
    ensures forall i :: |r| <= i < |s| ==> IsSpace(s[i])
  {
    if s != [] && IsSpace(s[|s| - 1]) then TrimEnd(s[..|s| - 1]) else s
  }

  /** `s.trim()`. */
  function Trim(s: string): string {
    TrimEnd(TrimStart(s))
  }

  predicate IsUpper(c: char) {
    'A' <= c <= 'Z'
  }

  function LowerChar(c: char): char {
    if IsUpper(c) then (c as int - 'A' as int + 'a' as int) as char else c
  }

  /** `s.toLowerCase()`, on the ASCII letters. */
  function ToLower(s: string): (r: string)
    ensures |r| == |s|
    ensures forall i :: 0 <= i < |s| ==> r[i] == LowerChar(s[i])
  {
    seq(|s|, i requires 0 <= i < |s| => LowerChar(s[i]))
  }

  /** The order in which MongoDB's default (binary) collation sorts strings: character by
      character by code point, which is the order of their UTF-8 bytes, a proper prefix
      first. (JavaScript's `<` compares UTF-16 code units instead and differs from this on
      characters beyond U+FFFF; the code never compares strings with `<`.) */
  predicate LexLess(a: string, b: string) {
    if a == [] then b != []
    else if b == [] then false
    else if a[0] != b[0] then a[0] < b[0]
    else LexLess(a[1..], b[1..])
  }

  // ---------------------------------------------------------------------------
  // Lemmas: numerals

  lemma {:induction false} DigitPrefixOfDigits(s: string)
    requires AllDigits(s)
    ensures DigitPrefix(s, 10) == s
  {
    if s != [] {
      DigitPrefixOfDigits(s[1..]);
    }
  }

  /** `parseInt` reads a non-empty digit string as its decimal value. */
  lemma ParseIntOfDigits(s: string)
    requires s != [] && AllDigits(s)
    ensures ParseInt(s) == Some(DecValue(s))
  {
    assert TrimStart(s) == s;
    assert ParseBody(s) == (10, s);
    DigitPrefixOfDigits(s);
  }

  lemma ParseIntOfNegative(d: string)
    requires d != [] && AllDigits(d)
    ensures ParseInt("-" + d) == Some(-DecValue(d))
  {
    var t := "-" + d;
    assert t[0] == '-' && t[1..] == d;
    assert TrimStart(t) == t;
    assert ParseSign(t) == -1;
    assert ParseBody(t) == (10, d);
    DigitPrefixOfDigits(d);
  }

  lemma ParseIntOfNatToString(n: nat)
    ensures ParseInt(IntToString(n)) == Some(n)
  {
    ParseIntOfDigits(NatToString(n));
  }

  lemma ParseIntOfNegativeToString(n: int)
    requires n < 0
    ensures ParseInt(IntToString(n)) == Some(n)
  {
    ParseIntOfNegative(NatToString(-n));
  }

  /** `parseInt(n.toString())` is `n` for every integer `n`. */
  lemma ParseIntOfIntToString(n: int)
    ensures ParseInt(IntToString(n)) == Some(n)
  {
    if n >= 0 {
      ParseIntOfNatToString(n);
    } else {
      ParseIntOfNegativeToString(n);
    }
  }

  lemma {:induction false} ValueOfZeros(k: nat)
    ensures DecValue(seq(k, _ => '0')) == 0
  {
    if k > 0 {
      var z := seq(k, _ => '0');
      assert z[..k - 1] == seq(k - 1, _ => '0');
      ValueOfZeros(k - 1);
    }
  }

  lemma {:induction false} ZerosInFront(k: nat, s: string)
    ensures DecValue(seq(k, _ => '0') + s) == DecValue(s)
  {
    var z := seq(k, _ => '0');
    if s == [] {
      assert z + s == z;
      ValueOfZeros(k);
    } else {
      var s' := s[..|s| - 1];
      assert (z + s)[..|z + s| - 1] == z + s';
      assert (z + s)[|z + s| - 1] == s[|s| - 1];
      ZerosInFront(k, s');
    }
  }

  /** Zeros in front of a numeral do not change its value. */
  lemma LeadingZeros(s: string, width: nat)
    ensures DecValue(PadStart(s, width, '0')) == DecValue(s)
  {
    if |s| < width {
      ZerosInFront(width - |s|, s);
    }
  }

  /** A numeral padded with zeros is still a numeral, of the same value. */
  lemma PaddedNumeral(s: string, width: nat)
    requires AllDigits(s)
    ensures AllDigits(PadStart(s, width, '0')) && DecValue(PadStart(s, width, '0')) == DecValue(s)
  {
    var r := PadStart(s, width, '0');
    LeadingZeros(s, width);
    forall i | 0 <= i < |r|
      ensures IsDigit(r[i])
    {
      if i >= |r| - |s| {
        assert r[i] == r[|r| - |s|..][i - (|r| - |s|)];
      }
    }
  }

  function Pow10(k: nat): nat {
    if k == 0 then 1 else 10 * Pow10(k - 1)
  }

  /** Below 10^k, `n.toString()` has at most k digits. */
  lemma {:induction false} NumeralFits(n: nat, k: nat)
    requires 1 <= k && n < Pow10(k)
    ensures |NatToString(n)| <= k
  {
    if n >= 10 {
      assert k >= 2;
      assert n / 10 < Pow10(k - 1);
      NumeralFits(n / 10, k - 1);
    }
  }

  /** Two strings of one width that differ before their last characters are ordered by
      that earlier difference. */
  lemma {:induction false} LexDropLast(a: string, b: string, x: char, y: char)
    requires |a| == |b| && a != b
    ensures LexLess(a + [x], b + [y]) == LexLess(a, b)
  {
    assert a != [] && b != [];
    if a[0] == b[0] {
      assert a[1..] != b[1..] by {
        assert a == [a[0]] + a[1..] && b == [b[0]] + b[1..];
      }
      assert (a + [x])[1..] == a[1..] + [x] && (b + [y])[1..] == b[1..] + [y];
      LexDropLast(a[1..], b[1..], x, y);
    }
  }

  /** Numerals of the same width are ordered as strings exactly as their values are. */
  lemma {:induction false} SameWidthOrder(a: string, b: string)
    requires AllDigits(a) && AllDigits(b) && |a| == |b|
    ensures LexLess(a, b) <==> DecValue(a) < DecValue(b)
    decreases |a|
  {
    if a == [] {
      assert DecValue(a) == 0 == DecValue(b);
    } else {
      var a', b' := a[..|a| - 1], b[..|b| - 1];
      var x, y := a[|a| - 1], b[|b| - 1];
      assert a == a' + [x] && b == b' + [y];
      assert DecValue(a) == DecValue(a') * 10 + DigitValue(x);
      assert DecValue(b) == DecValue(b') * 10 + DigitValue(y);
      assert IsDigit(x) && IsDigit(y);
      assert AllDigits(a') && AllDigits(b');
      assert 0 <= DigitValue(x) < 10 && 0 <= DigitValue(y) < 10;
      if a' == b' {
        LexCommonPrefix(a', [x], [y]);
        assert LexLess([x], [y]) <==> x < y;
      } else {
        LexDropLast(a', b', x, y);
        SameWidthOrder(a', b');
        SameWidthOrder(b', a');
        LexTotal(a', b');
        if LexLess(a', b') {
          assert DecValue(a') + 1 <= DecValue(b');
          assert DecValue(a) < DecValue(b);
        } else {
          assert DecValue(b') + 1 <= DecValue(a');
          assert DecValue(b) < DecValue(a);
        }
      }
    }
  }

  // ---------------------------------------------------------------------------
  // Lemmas: the string order

  lemma {:induction false} LexAsymmetric(a: string, b: string)
    requires LexLess(a, b)
    ensures !LexLess(b, a)
  {
    if a != [] && b != [] && a[0] == b[0] {
      LexAsymmetric(a[1..], b[1..]);
    }
  }

  lemma {:induction false} LexTotal(a: string, b: string)
    requires a != b
    ensures LexLess(a, b) || LexLess(b, a)
  {
    if a != [] && b != [] && a[0] == b[0] {
      assert a == [a[0]] + a[1..] && b == [b[0]] + b[1..];
      LexTotal(a[1..], b[1..]);
    }
  }

  lemma {:induction false} LexTransitive(a: string, b: string, c: string)
    requires LexLess(a, b) && LexLess(b, c)
    ensures LexLess(a, c)
  {
    if a != [] && a[0] == b[0] && b[0] == c[0] {
      LexTransitive(a[1..], b[1..], c[1..]);
    }
  }

  /** A common prefix does not decide the order. */
  lemma {:induction false} LexCommonPrefix(p: string, a: string, b: string)
    ensures LexLess(p + a, p + b) == LexLess(a, b)
  {
    if p != [] {
      assert (p + a)[1..] == p[1..] + a && (p + b)[1..] == p[1..] + b;
      LexCommonPrefix(p[1..], a, b);
    } else {
      assert p + a == a && p + b == b;
    }
  }

  // ---------------------------------------------------------------------------
  // Lemmas: split

  lemma {:induction false} SplitWithoutSeparator(a: string, sep: char)
    requires sep !in a
    ensures Split(a, sep) == [a]
  {
    if a != [] {
      assert sep !in a[1..] && a == [a[0]] + a[1..];
      SplitWithoutSeparator(a[1..], sep);
    }
  }

  /** Splitting at the first separator yields the text before it, then the rest split. */
  lemma {:induction false} SplitAtFirst(a: string, b: string, sep: char)
    requires sep !in a
    ensures Split(a + [sep] + b, sep) == [a] + Split(b, sep)
  {
    var t := a + [sep] + b;
    if a == [] {
      assert t[0] == sep && t[1..] == b;
    } else {
      assert t[0] == a[0] != sep && t[1..] == a[1..] + [sep] + b;
      assert sep !in a[1..] && a == [a[0]] + a[1..];
      SplitAtFirst(a[1..], b, sep);
    }
  }

  // ---------------------------------------------------------------------------
  // Lemmas: trim and case

  /** Nothing but white space (the empty string included). */
  predicate Blank(s: string) {
    forall i :: 0 <= i < |s| ==> IsSpace(s[i])
  }

  /** Trimming leaves nothing exactly when there was nothing but white space. */
  lemma TrimEmptyIffBlank(s: string)
    ensures Trim(s) == [] <==> Blank(s)
  {
    var u := TrimStart(s);
    if Trim(s) == [] {
      assert Blank(u);
      assert u == [];
    } else if Blank(s) {
      assert false;
    }
  }

  /** Trimming what is already trimmed changes nothing. */
  lemma TrimIdempotent(s: string)
    ensures Trim(Trim(s)) == Trim(s)
  {
    var t := Trim(s);
    var u := TrimStart(s);
    assert t == TrimEnd(u);
    if t != [] {
      assert t[0] == u[0];
      assert TrimStart(t) == t;
    }
  }

  /** A trimmed string starts and ends with something other than white space. */
  lemma TrimmedEnds(s: string)
    ensures var t := Trim(s); t == [] || (!IsSpace(t[0]) && !IsSpace(t[|t| - 1]))
  {
    var u := TrimStart(s);
    var t := TrimEnd(u);
    if t != [] {
      assert t[0] == u[0];
    }
  }

  lemma LowerIsNotUpper(c: char)
    ensures !IsUpper(LowerChar(c))
  {
  }

  /** Lower-casing never makes white space of a character or takes it away. */
  lemma LowerKeepsSpaces(c: char)
    ensures IsSpace(LowerChar(c)) <==> IsSpace(c)
  {
  }

  /** Lower-casing a trimmed string leaves it trimmed. */
  lemma TrimOfLowered(t: string)
    requires Trim(t) == t
    ensures Trim(ToLower(t)) == ToLower(t)
  {
    var l := ToLower(t);
    if t != [] {
      assert !IsSpace(t[0]) by {
        assert TrimEnd(TrimStart(t)) == t;
      }
      LowerKeepsSpaces(t[0]);
      LowerKeepsSpaces(t[|t| - 1]);
      assert TrimStart(l) == l;
      assert !IsSpace(t[|t| - 1]);
    }
  }

  lemma ToLowerIdempotent(s: string)
    ensures ToLower(ToLower(s)) == ToLower(s)
  {
  }
}
