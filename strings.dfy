/** The few string operations of JavaScript's `String.prototype` and Node's `path` that the
    modelled code uses. A string is a sequence of Dafny `char`s, which are Unicode scalar values:
    JavaScript's UTF-16 code units differ from them only outside the Basic Multilingual Plane and
    for lone surrogates, and none of the modelled operations depends on either. */
module Strings {
  import opened Wrappers

  /** ASCII case folding: the only folding the `/i` regular-expression flag applies to the
      letters of `jpg`, `jpeg` and `png` (a non-ASCII character never folds to ASCII without the `u` flag). */
  function LowerChar(c: char): char {
    if 'A' <= c <= 'Z' then (c as int + 32) as char else c
  }

  /** `s` ends with the lower-case `suffix`, ignoring the case of ASCII letters */
  predicate EndsWithIgnoringCase(s: string, suffix: string) {
    |suffix| <= |s| && forall i :: 0 <= i < |suffix| ==> LowerChar(s[|s| - |suffix| + i]) == suffix[i]
  }

  /** `s.startsWith(prefix)` */
  predicate StartsWith(s: string, prefix: string) {
    |prefix| <= |s| && s[..|prefix|] == prefix
  }

  /** `s.endsWith(suffix)` */
  predicate EndsWith(s: string, suffix: string) {
    |suffix| <= |s| && s[|s| - |suffix|..] == suffix
  }

  /** `s.split(sep)` for a one-character separator: the maximal pieces between separators,
      empty pieces included; the empty string splits into one empty piece. */
  function Split(s: string, sep: char): (pieces: seq<string>)
    ensures |pieces| >= 1
  {
    if s == [] then [""]
    else
      var rest := Split(s[1..], sep);
      if s[0] == sep then [""] + rest else [[s[0]] + rest[0]] + rest[1..]
  }

  /** `pieces.join(sep)`, the reference definition that `Split` inverts */
  function Join(pieces: seq<string>, sep: char): string
    requires |pieces| >= 1
  {
    if |pieces| == 1 then pieces[0] else pieces[0] + [sep] + Join(pieces[1..], sep)
  }

  lemma {:induction false} SplitPiecesHaveNoSeparator(s: string, sep: char)
    ensures forall k :: 0 <= k < |Split(s, sep)| ==> sep !in Split(s, sep)[k]
  {
    if s != [] {
      SplitPiecesHaveNoSeparator(s[1..], sep);
    }
  }

  /** Joining the pieces back with the separator gives the original string. */
  lemma {:induction false} JoinSplit(s: string, sep: char)
    ensures Join(Split(s, sep), sep) == s
  {
    if s != [] {
      var rest := Split(s[1..], sep);
      JoinSplit(s[1..], sep);
      if s[0] == sep {
        assert Split(s, sep)[1..] == rest;
      } else if |rest| == 1 {
        assert Split(s, sep) == [[s[0]] + rest[0]];
      } else {
        var ps := Split(s, sep);
        assert ps[1..] == rest[1..];
        assert Join(rest, sep) == rest[0] + [sep] + Join(rest[1..], sep);
      }
    }
  }

  /** Splitting a join of separator-free pieces gives the pieces back. */
  lemma {:induction false} SplitJoin(pieces: seq<string>, sep: char)
    requires |pieces| >= 1
    requires forall k :: 0 <= k < |pieces| ==> sep !in pieces[k]
    ensures Split(Join(pieces, sep), sep) == pieces
  {
    if |pieces| == 1 {
      SplitWord(pieces[0], sep);
    } else {
      SplitJoin(pieces[1..], sep);
      SplitAfterWord(pieces[0], Join(pieces[1..], sep), sep);
      assert [pieces[0]] + pieces[1..] == pieces;
    }
  }

  lemma {:induction false} SplitWord(w: string, sep: char)
    requires sep !in w
    ensures Split(w, sep) == [w]
  {
    if w != [] {
      SplitWord(w[1..], sep);
      assert [w[0]] + w[1..] == w;
    }
  }

  lemma {:induction false} SplitAfterWord(w: string, t: string, sep: char)
    requires sep !in w
    ensures Split(w + [sep] + t, sep) == [w] + Split(t, sep)
  {
    if w == [] {
      assert w + [sep] + t == [sep] + t;
      assert ([sep] + t)[1..] == t;
    } else {
      SplitAfterWord(w[1..], t, sep);
      assert (w + [sep] + t)[1..] == w[1..] + [sep] + t;
      assert [w[0]] + w[1..] == w;
    }
  }

  // ---------------------------------------------------------------------------
  // parseInt

  /** The white space parseInt skips: tab, line feed, vertical tab, form feed, carriage return,
      space, no-break space, the two Unicode line terminators and the byte-order mark */
  predicate IsJsSpace(c: char) {
    c == ' ' || c == '\t' || c == '\n' || c == '\r' || c as int == 0x0B || c as int == 0x0C ||
    c as int == 0xA0 || c as int == 0x2028 || c as int == 0x2029 || c as int == 0xFEFF
  }

  /** The string without its leading white space */
  function TrimStart(s: string): (t: string)
    ensures |t| <= |s| && t == s[|s| - |t|..]
    ensures t == [] || !IsJsSpace(t[0])
    ensures forall i :: 0 <= i < |s| - |t| ==> IsJsSpace(s[i])
  {
    if s != [] && IsJsSpace(s[0]) then TrimStart(s[1..]) else s
  }

  /** The value of a digit in the given radix (10 or 16), or -1 for a non-digit */
  function DigitValue(c: char, radix: nat): (v: int)
    ensures -1 <= v < radix || (v == -1 && radix < 10)
  {
    if '0' <= c <= '9' && (c as int - '0' as int) < radix then c as int - '0' as int
    else if radix == 16 && 'a' <= c <= 'f' then c as int - 'a' as int + 10
    else if radix == 16 && 'A' <= c <= 'F' then c as int - 'A' as int + 10
    else -1
  }

  /** The longest prefix of digits of the radix */
  function LeadingDigits(s: string, radix: nat): (d: string)
    ensures |d| <= |s| && d == s[..|d|]
    ensures forall i :: 0 <= i < |d| ==> DigitValue(d[i], radix) >= 0
    ensures |d| < |s| ==> DigitValue(s[|d|], radix) < 0
  {
    if s != [] && DigitValue(s[0], radix) >= 0 then [s[0]] + LeadingDigits(s[1..], radix) else []
  }

  /** The number a string of digits denotes, most significant digit first */
  function DigitsValue(d: string, radix: nat): nat
    requires forall i :: 0 <= i < |d| ==> DigitValue(d[i], radix) >= 0
  {
    if d == [] then 0
    else DigitsValue(d[..|d| - 1], radix) * radix + DigitValue(d[|d| - 1], radix) as nat
  }

  /** The digits after the sign: `0x` or `0X` selects radix 16, then the longest run of digits
      of the radix is read; `None` when there is no digit */
  function ParseUnsigned(u: string): (n: Option<nat>) {
    var hex := |u| >= 2 && u[0] == '0' && (u[1] == 'x' || u[1] == 'X');
    var radix := if hex then 16 else 10;
    var digits := LeadingDigits(if hex then u[2..] else u, radix);
    if digits == [] then None else Some(DigitsValue(digits, radix))
  }

  /** `parseInt(s)` with no radix: leading white space, an optional sign, then the digits as
      ParseUnsigned reads them; `None` is NaN. */
  function ParseInt(s: string): (n: Option<int>)
    ensures TrimStart(s) == [] ==> n.None?
    ensures n.Some? && n.value < 0 ==> TrimStart(s)[0] == '-'
  {
    ParseTrimmed(TrimStart(s))
  }

  /** parseInt after the white space */
  function ParseTrimmed(t: string): (n: Option<int>)
    ensures n.None? <==> ParseUnsigned(Unsigned(t)).None?
  {
    match ParseUnsigned(Unsigned(t))
    case None => None
    case Some(m) => Some(if t != [] && t[0] == '-' then -(m as int) else m as int)
  }

  /** The string without one leading sign */
  function Unsigned(t: string): string {
    if t != [] && (t[0] == '-' || t[0] == '+') then t[1..] else t
  }

  /** The decimal numeral of a natural number, as `String(n)` writes it */
  function DecimalString(n: nat): (s: string)
    ensures s != [] && forall i :: 0 <= i < |s| ==> '0' <= s[i] <= '9'
  {
    if n < 10 then [('0' as int + n) as char]
    else DecimalString(n / 10) + [('0' as int + n % 10) as char]
  }

  lemma {:induction false} DecimalStringValue(n: nat)
    ensures forall i :: 0 <= i < |DecimalString(n)| ==> DigitValue(DecimalString(n)[i], 10) >= 0
    ensures DigitsValue(DecimalString(n), 10) == n
  {
    if n >= 10 {
      DecimalStringValue(n / 10);
      var s := DecimalString(n);
      assert s[..|s| - 1] == DecimalString(n / 10);
    }
  }

  /** A digit string is its own longest digit prefix. */
  lemma {:induction false} AllDigitsLead(d: string, radix: nat)
    requires forall i :: 0 <= i < |d| ==> DigitValue(d[i], radix) >= 0
    ensures LeadingDigits(d, radix) == d
  {
    if d != [] {
      AllDigitsLead(d[1..], radix);
    }
  }

  /** A decimal numeral is read whole, in radix 10. */
  lemma DecimalIsUnsigned(n: nat, tail: string)
    requires tail == [] || DigitValue(tail[0], 10) < 0
    requires n != 0 || tail == [] || (tail[0] != 'x' && tail[0] != 'X')
    ensures ParseUnsigned(DecimalString(n) + tail) == Some(n)
  {
    var d := DecimalString(n);
    var u := d + tail;
    DecimalStringValue(n);
    assert LeadingDigits(u, 10) == d by {
      if tail == [] {
        assert u == d;
        AllDigitsLead(d, 10);
      } else {
        LeadingDigitsOfPrefix(d, tail, 10);
      }
    }
    assert !(|u| >= 2 && u[0] == '0' && (u[1] == 'x' || u[1] == 'X')) by {
      if |u| >= 2 && u[0] == '0' {
        if |d| >= 2 {
          assert u[1] == d[1];
        } else {
          SingleZeroDigit(n);
          assert u[1] == tail[0];
        }
      }
    }
  }

  /** A one-character numeral that is "0" is the numeral of zero. */
  lemma SingleZeroDigit(n: nat)
    requires |DecimalString(n)| < 2 && DecimalString(n)[0] == '0'
    ensures n == 0
  {
  }

  /** What parseInt does with a sign-free string that starts with a digit */
  lemma ParseIntOfDigitFirst(u: string)
    requires u != [] && '0' <= u[0] <= '9'
    ensures ParseInt(u) == ParseUnsigned(u)
  {
    assert !IsJsSpace(u[0]);
    assert TrimStart(u) == u;
    assert Unsigned(u) == u;
    assert ParseInt(u) == ParseTrimmed(u);
  }

  /** What parseInt does with a minus sign followed by a digit */
  lemma ParseIntOfMinus(u: string, m: nat)
    requires ParseUnsigned(u) == Some(m)
    ensures ParseInt("-" + u) == Some(-(m as int))
  {
    var s := "-" + u;
    assert s[0] == '-' && s[1..] == u;
    assert !IsJsSpace(s[0]);
    assert TrimStart(s) == s;
    assert Unsigned(s) == u;
    assert ParseInt(s) == ParseTrimmed(s);
  }

  /** parseInt reads back what `String(n)` writes ... */
  lemma ParseIntDecimal(n: nat)
    ensures ParseInt(DecimalString(n)) == Some(n)
  {
    var d := DecimalString(n);
    DecimalIsUnsigned(n, []);
    assert d + [] == d;
    ParseIntOfDigitFirst(d);
  }

  /** ... and what `String(-n)` writes. */
  lemma ParseIntNegativeDecimal(n: nat)
    ensures ParseInt("-" + DecimalString(n)) == Some(-(n as int))
  {
    var d := DecimalString(n);
    DecimalIsUnsigned(n, []);
    assert d + [] == d;
    ParseIntOfMinus(d, n);
  }

  /** parseInt stops at the first character that is not a digit: what follows is ignored. */
  lemma ParseIntIgnoresTail(n: nat, tail: string)
    requires tail != [] && !('0' <= tail[0] <= '9')
    requires n != 0 || (tail[0] != 'x' && tail[0] != 'X')
    ensures ParseInt(DecimalString(n) + tail) == Some(n)
  {
    var s := DecimalString(n) + tail;
    DecimalIsUnsigned(n, tail);
    assert s[0] == DecimalString(n)[0];
    ParseIntOfDigitFirst(s);
  }

  lemma {:induction false} LeadingDigitsOfPrefix(d: string, tail: string, radix: nat)
    requires forall i :: 0 <= i < |d| ==> DigitValue(d[i], radix) >= 0
    requires tail != [] && DigitValue(tail[0], radix) < 0
    ensures LeadingDigits(d + tail, radix) == d
  {
    if d != [] {
      assert (d + tail)[1..] == d[1..] + tail;
      LeadingDigitsOfPrefix(d[1..], tail, radix);
    } else {
      assert d + tail == tail;
    }
  }
}
