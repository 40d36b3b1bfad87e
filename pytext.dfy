/**
 * The three Python built-ins the card parser relies on, written out over
 * `seq<char>`: `str.split('\n')`, `str.split()` with no argument, and
 * `float()` restricted to plain decimal literals.
 */
module PyText {
  import opened Wrappers

  // ---------------------------------------------------------------------
  // str.split('\n')
  // ---------------------------------------------------------------------

  /** Position of the first newline of `s`, or `|s|` when there is none. */
  function NewlineIndex(s: string): (i: nat)
    ensures i <= |s|
    ensures forall k :: 0 <= k < i ==> s[k] != '\n'
    ensures i < |s| ==> s[i] == '\n'
  {
    if s == [] || s[0] == '\n' then 0 else 1 + NewlineIndex(s[1..])
  }

  /** Python's `s.split('\n')`: never empty; `""` gives `[""]`. */
  function SplitLines(s: string): (lines: seq<string>)
    ensures |lines| >= 1
    ensures forall i :: 0 <= i < |lines| ==> '\n' !in lines[i]
    decreases |s|
  {
    var i := NewlineIndex(s);
    if i == |s| then [s] else [s[..i]] + SplitLines(s[i + 1..])
  }

  /** `'\n'.join(lines)`. */
  function JoinLines(lines: seq<string>): string
    requires |lines| >= 1
  {
    if |lines| == 1 then lines[0] else lines[0] + "\n" + JoinLines(lines[1..])
  }

  /** Splitting loses nothing: joining the pieces back gives the text. */
  lemma {:induction false} JoinSplitLines(s: string)
    ensures JoinLines(SplitLines(s)) == s
    decreases |s|
  {
    var i := NewlineIndex(s);
    if i < |s| {
      var tail := s[i + 1..];
      JoinSplitLines(tail);
      JoinCons(s[..i], SplitLines(tail));
      CutAtNewline(s, i);
    }
  }

  /** Joining a head line in front of at least one more line. */
  lemma JoinCons(head: string, rest: seq<string>)
    requires |rest| >= 1
    ensures JoinLines([head] + rest) == head + "\n" + JoinLines(rest)
  {
    assert ([head] + rest)[1..] == rest;
  }

  /** A text is its part before position `i`, the newline at `i`, and the rest. */
  lemma CutAtNewline(s: string, i: nat)
    requires i < |s| && s[i] == '\n'
    ensures s == s[..i] + "\n" + s[i + 1..]
  {
  }

  /** Joining lines that hold no newline and splitting again gives the lines back. */
  lemma {:induction false} SplitJoinLines(lines: seq<string>)
    requires |lines| >= 1
    requires forall i :: 0 <= i < |lines| ==> '\n' !in lines[i]
    ensures SplitLines(JoinLines(lines)) == lines
    decreases |lines|
  {
    var s := JoinLines(lines);
    if |lines| == 1 {
      NewlineIndexOfLine(lines[0], "");
      assert lines[0] + "" == lines[0];
    } else {
      var rest := JoinLines(lines[1..]);
      assert s == lines[0] + ("\n" + rest);
      NewlineIndexOfLine(lines[0], "\n" + rest);
      assert s[..|lines[0]|] == lines[0];
      assert s[|lines[0]| + 1..] == rest;
      SplitJoinLines(lines[1..]);
    }
  }

  /** The first newline of `line + rest` is the one `rest` starts with. */
  lemma {:induction false} NewlineIndexOfLine(line: string, rest: string)
    requires '\n' !in line
    requires rest == [] || rest[0] == '\n'
    ensures NewlineIndex(line + rest) == |line|
    decreases |line|
  {
    if line == [] {
      assert line + rest == rest;
    } else {
      assert line[0] in line;
      assert (line + rest)[1..] == line[1..] + rest;
      NewlineIndexOfLine(line[1..], rest);
    }
  }

  // ---------------------------------------------------------------------
  // str.split() with no argument
  // ---------------------------------------------------------------------

  /** Python's `str.isspace()` for one character: the separators of `split()`. */
  predicate IsSpace(c: char)
  {
    || ('\t' <= c <= '\r')
    || ('\U{1C}' <= c <= '\U{1F}')
    || c == ' '
    || c == '\U{85}'
    || c == '\U{A0}'
    || c == '\U{1680}'
    || ('\U{2000}' <= c <= '\U{200A}')
    || c == '\U{2028}'
    || c == '\U{2029}'
    || c == '\U{202F}'
    || c == '\U{205F}'
    || c == '\U{3000}'
  }

  /** A token `split()` can produce: non-empty, no whitespace in it. */
  predicate IsWord(w: string)
  {
    w != [] && forall k :: 0 <= k < |w| ==> !IsSpace(w[k])
  }

  /** Length of the longest whitespace-free prefix of `s`. */
  function TokenLength(s: string): (n: nat)
    ensures n <= |s|
    ensures forall k :: 0 <= k < n ==> !IsSpace(s[k])
    ensures n < |s| ==> IsSpace(s[n])
  {
    if s == [] || IsSpace(s[0]) then 0 else 1 + TokenLength(s[1..])
  }

  /** Python's `s.split()`: the maximal runs of non-whitespace, in order. */
  function Words(s: string): (ws: seq<string>)
    ensures forall i :: 0 <= i < |ws| ==> IsWord(ws[i])
    decreases |s|
  {
    if s == [] then []
    else if IsSpace(s[0]) then Words(s[1..])
    else
      var n := TokenLength(s);
      [s[..n]] + Words(s[n..])
  }

  /** One separator between two texts splits them independently. */
  lemma {:induction false} WordsAroundSpace(a: string, c: char, b: string)
    requires IsSpace(c)
    ensures Words(a + [c] + b) == Words(a) + Words(b)
    decreases |a|
  {
    var s := a + [c] + b;
    if a == [] {
      assert s[1..] == b;
    } else if IsSpace(a[0]) {
      assert s[1..] == a[1..] + [c] + b;
      WordsAroundSpace(a[1..], c, b);
    } else {
      var n := TokenLength(a);
      TokenLengthOfPrefix(a, [c] + b);
      assert s == a + ([c] + b);
      assert s[..n] == a[..n];
      assert s[n..] == a[n..] + [c] + b;
      WordsAroundSpace(a[n..], c, b);
    }
  }

  /** A token never reaches past a whitespace character. */
  lemma {:induction false} TokenLengthOfPrefix(a: string, b: string)
    requires b == [] || IsSpace(b[0]) || TokenLength(a) < |a|
    ensures TokenLength(a + b) == TokenLength(a)
    decreases |a|
  {
    if a == [] {
      assert a + b == b;
    } else if !IsSpace(a[0]) {
      assert (a + b)[1..] == a[1..] + b;
      TokenLengthOfPrefix(a[1..], b);
    }
  }

  /** A single word splits into itself. */
  lemma WordsOfWord(w: string)
    requires IsWord(w)
    ensures Words(w) == [w]
  {
    TokenLengthOfPrefix(w, []);
    assert w + [] == w;
    assert w[..|w|] == w && w[|w|..] == [];
  }

  // ---------------------------------------------------------------------
  // float(), decimal literals only
  // ---------------------------------------------------------------------

  predicate IsDigit(c: char)
  {
    '0' <= c <= '9'
  }

  predicate AllDigits(s: string)
  {
    forall k :: 0 <= k < |s| ==> IsDigit(s[k])
  }

  /** The characters a decimal literal is made of. */
  predicate IsNumberChar(c: char)
  {
    IsDigit(c) || c == '+' || c == '-' || c == '.' || c == 'e' || c == 'E'
  }

  /** Value of a string of decimal digits, most significant first. */
  function DigitsValue(ds: string): nat
    requires AllDigits(ds)
    decreases |ds|
  {
    if ds == [] then 0
    else DigitsValue(ds[..|ds| - 1]) * 10 + (ds[|ds| - 1] as int - '0' as int)
  }

  function Pow10(n: nat): (p: nat)
    ensures p >= 1
  {
    if n == 0 then 1 else 10 * Pow10(n - 1)
  }

  /** Position of the first `c` in `s`, or `|s|`. */
  function IndexOfChar(s: string, c: char): (i: nat)
    ensures i <= |s|
    ensures forall k :: 0 <= k < i ==> s[k] != c
    ensures i < |s| ==> s[i] == c
  {
    if s == [] || s[0] == c then 0 else 1 + IndexOfChar(s[1..], c)
  }

  /** First exponent marker (`e` or `E`) of `s`, or `|s|`. */
  function ExponentIndex(s: string): (i: nat)
    ensures i <= |s|
    ensures forall k :: 0 <= k < i ==> s[k] != 'e' && s[k] != 'E'
    ensures i < |s| ==> s[i] == 'e' || s[i] == 'E'
  {
    if s == [] || s[0] == 'e' || s[0] == 'E' then 0 else 1 + ExponentIndex(s[1..])
  }

  /** `digits`, `digits.`, `.digits` or `digits.digits`, as a non-negative value. */
  function ParseMantissa(m: string): (r: Option<real>)
    ensures r.Some? ==> m != [] && NumberText(m)
  {
    var dot := IndexOfChar(m, '.');
    var whole := m[..dot];
    var frac := if dot < |m| then m[dot + 1..] else "";
    if AllDigits(whole) && AllDigits(frac) && |whole| + |frac| >= 1 then
      assert m == if dot < |m| then whole + [m[dot]] + frac else whole;
      NumberTextConcat(whole, if dot < |m| then [m[dot]] + frac else []);
      Some(DigitsValue(whole + frac) as real / Pow10(|frac|) as real)
    else None
  }

  /** An exponent: an optional sign and at least one digit. */
  function ParseExponent(x: string): (r: Option<int>)
    ensures r.Some? ==> NumberText(x)
  {
    var signed := |x| > 0 && (x[0] == '+' || x[0] == '-');
    var digits := if signed then x[1..] else x;
    if digits != [] && AllDigits(digits) then
      assert x == if signed then [x[0]] + digits else digits;
      NumberTextConcat(if signed then [x[0]] else [], digits);
      var v: int := DigitsValue(digits);
      Some(if signed && x[0] == '-' then -v else v)
    else None
  }

  function Scale(v: real, e: int): real
  {
    if e >= 0 then v * Pow10(e) as real else v / Pow10(-e) as real
  }

  /** An unsigned literal: a mantissa, then optionally `e` or `E` and an exponent. */
  function ParseUnsigned(body: string): (r: Option<real>)
    ensures r.Some? ==> body != [] && NumberText(body)
  {
    var e := ExponentIndex(body);
    var mantissa := ParseMantissa(body[..e]);
    var exponent := if e < |body| then ParseExponent(body[e + 1..]) else Some(0);
    if mantissa.None? || exponent.None? then None
    else
      UnsignedChars(body, e);
      Some(Scale(mantissa.value, exponent.value))
  }

  lemma UnsignedChars(body: string, e: nat)
    requires e <= |body|
    requires body[..e] != [] && NumberText(body[..e])
    requires e < |body| ==> IsNumberChar(body[e]) && NumberText(body[e + 1..])
    ensures body != [] && NumberText(body)
  {
    if e < |body| {
      assert body == body[..e] + ([body[e]] + body[e + 1..]);
      NumberTextConcat(body[..e], [body[e]] + body[e + 1..]);
    } else {
      assert body == body[..e];
    }
  }

  /**
   * `float(s)` for a token `s`: an optional sign before an unsigned literal.
   * `None` stands for the `ValueError` Python raises.
   */
  function ParseNumber(s: string): (r: Option<real>)
    ensures r.Some? ==> s != [] && NumberText(s)
  {
    if |s| > 0 && (s[0] == '+' || s[0] == '-') then
      match ParseUnsigned(s[1..])
      case None => None
      case Some(v) =>
        assert s == [s[0]] + s[1..];
        NumberTextConcat([s[0]], s[1..]);
        Some(if s[0] == '-' then -v else v)
    else ParseUnsigned(s)
  }

  /** Text made only of the characters a decimal literal uses. */
  predicate NumberText(s: string)
  {
    forall k :: 0 <= k < |s| ==> IsNumberChar(s[k])
  }

  lemma NumberTextConcat(a: string, b: string)
    requires NumberText(a)
    requires forall k :: 0 <= k < |b| ==> IsNumberChar(b[k])
    ensures NumberText(a + b)
  {
    forall k | 0 <= k < |a + b| ensures IsNumberChar((a + b)[k]) {
      if k >= |a| {
        assert (a + b)[k] == b[k - |a|];
      }
    }
  }

  /** A literal `float()` accepts is a single `split()` token. */
  lemma NumberIsWord(s: string)
    requires ParseNumber(s).Some?
    ensures IsWord(s)
  {
  }

  /** A run of digits is read as the natural number it denotes. */
  lemma ParseDigits(ds: string)
    requires ds != [] && AllDigits(ds)
    ensures ParseNumber(ds) == Some(DigitsValue(ds) as real)
  {
    assert IsDigit(ds[0]);
    MantissaOfDigits(ds);
    assert forall k :: 0 <= k < |ds| ==> ds[k] != 'e' && ds[k] != 'E' by {
      forall k | 0 <= k < |ds| ensures ds[k] != 'e' && ds[k] != 'E' {
        assert IsDigit(ds[k]);
      }
    }
    UnsignedWithoutExponent(ds);
  }

  lemma MantissaOfDigits(ds: string)
    requires ds != [] && AllDigits(ds)
    ensures ParseMantissa(ds) == Some(DigitsValue(ds) as real)
  {
    var dot := IndexOfChar(ds, '.');
    assert dot == |ds|;
    assert ds[..dot] == ds;
    assert ds + "" == ds;
    assert Pow10(0) == 1;
  }

  /** Decimal digits of a natural number, as `str(n)` writes them. */
  function NatToDigits(n: nat): (ds: string)
    ensures AllDigits(ds) && ds != []
  {
    if n < 10 then [('0' as int + n) as char]
    else NatToDigits(n / 10) + [('0' as int + n % 10) as char]
  }

  lemma {:induction false} NatToDigitsValue(n: nat)
    ensures DigitsValue(NatToDigits(n)) == n
  {
    if n >= 10 {
      var ds := NatToDigits(n);
      assert ds[..|ds| - 1] == NatToDigits(n / 10);
      NatToDigitsValue(n / 10);
    }
  }

  /** `float(str(n)) == n` for every natural number `n`. */
  lemma NatRoundTrip(n: nat)
    ensures ParseNumber(NatToDigits(n)) == Some(n as real)
  {
    NatToDigitsValue(n);
    ParseDigits(NatToDigits(n));
  }

  /** A leading minus sign negates the value of an unsigned literal. */
  lemma NegateLiteral(s: string)
    requires s != [] && s[0] != '+' && s[0] != '-'
    requires ParseNumber(s).Some?
    ensures ParseNumber("-" + s) == Some(-ParseNumber(s).value)
  {
    assert ("-" + s)[1..] == s;
  }

  /** `whole.frac`, where either side may be empty but not both, reads as `whole` plus `frac` tenths, hundredths, ... */
  lemma DecimalValue(whole: string, frac: string)
    requires AllDigits(whole) && AllDigits(frac) && |whole| + |frac| >= 1
    ensures ParseNumber(whole + "." + frac)
      == Some(DigitsValue(whole + frac) as real / Pow10(|frac|) as real)
  {
    var s := whole + "." + frac;
    assert s[0] == if whole == [] then '.' else whole[0];
    MantissaWithPoint(whole, frac);
    DecimalHasNoExponent(whole, frac);
    UnsignedWithoutExponent(s);
  }

  lemma DecimalHasNoExponent(whole: string, frac: string)
    requires AllDigits(whole) && AllDigits(frac)
    ensures forall k :: 0 <= k < |whole + "." + frac| ==> (whole + "." + frac)[k] != 'e' && (whole + "." + frac)[k] != 'E'
  {
    var s := whole + "." + frac;
    forall k | 0 <= k < |s| ensures s[k] != 'e' && s[k] != 'E' {
      if k < |whole| {
        assert s[k] == whole[k];
      } else if k > |whole| {
        assert s[k] == frac[k - |whole| - 1];
      }
    }
  }

  lemma MantissaWithPoint(whole: string, frac: string)
    requires AllDigits(whole) && AllDigits(frac) && |whole| + |frac| >= 1
    ensures ParseMantissa(whole + "." + frac)
      == Some(DigitsValue(whole + frac) as real / Pow10(|frac|) as real)
  {
    var s := whole + "." + frac;
    var dot := IndexOfChar(s, '.');
    assert s[|whole|] == '.';
    assert dot == |whole|;
    assert s[..dot] == whole;
    assert s[dot + 1..] == frac;
  }

  lemma UnsignedWithoutExponent(s: string)
    requires forall k :: 0 <= k < |s| ==> s[k] != 'e' && s[k] != 'E'
    requires ParseMantissa(s).Some?
    ensures ParseUnsigned(s) == ParseMantissa(s)
  {
    assert ExponentIndex(s) == |s|;
    assert s[..|s|] == s;
    var v := ParseMantissa(s).value;
    assert Scale(v, 0) == v;
  }
}
