/** The string built-ins of JavaScript that the components rely on:
    `Number.parseInt` (no radix), number-to-string conversion for
    integers, `String.prototype.split` with a one-character separator,
    `indexOf` of a substring, and the ASCII class `\d` of regular
    expressions without the `u` flag. */
module JsText {
  import opened JsValues

  // ---------------------------------------------------------------
  // Characters
  // ---------------------------------------------------------------

  /** `\d` in a regular expression: the ASCII digits only. */
  predicate IsDecimalDigit(c: char) {
    '0' <= c <= '9'
  }

  /** The value of `c` as a digit in `radix` (10 or 16), if it is one. */
  function DigitValue(c: char, radix: nat): (r: Option<nat>)
    requires radix == 10 || radix == 16
    ensures r.Some? ==> r.value < radix
    ensures radix == 10 ==> (r.Some? <==> IsDecimalDigit(c))
  {
    if '0' <= c <= '9' then Some(c as nat - '0' as nat)
    else if radix == 16 && 'a' <= c <= 'f' then Some(c as nat - 'a' as nat + 10)
    else if radix == 16 && 'A' <= c <= 'F' then Some(c as nat - 'A' as nat + 10)
    else None
  }

  /** The characters that `parseInt` skips at the start: StrWhiteSpaceChar
      of ECMAScript, i.e. TAB, VT, FF, ZWNBSP, the Unicode category Zs and
      the line terminators LF, CR, LS and PS. */
  predicate IsStrWhiteSpace(c: char) {
    var n := c as int;
    n == 0x09 || n == 0x0A || n == 0x0B || n == 0x0C || n == 0x0D
    || n == 0x20 || n == 0xA0 || n == 0x1680
    || (0x2000 <= n <= 0x200A)
    || n == 0x2028 || n == 0x2029 || n == 0x202F || n == 0x205F
    || n == 0x3000 || n == 0xFEFF
  }

  /** `s` with its leading white space removed. */
  function TrimStart(s: string): string
  {
    if |s| > 0 && IsStrWhiteSpace(s[0]) then TrimStart(s[1..]) else s
  }

  // ---------------------------------------------------------------
  // Number.parseInt
  // ---------------------------------------------------------------

  /** The length of the longest prefix of `s` made of `radix` digits. */
  function DigitPrefixLength(s: string, radix: nat): (k: nat)
    requires radix == 10 || radix == 16
    ensures k <= |s|
    ensures forall i :: 0 <= i < k ==> DigitValue(s[i], radix).Some?
    ensures k < |s| ==> DigitValue(s[k], radix).None?
  {
    if |s| > 0 && DigitValue(s[0], radix).Some? then 1 + DigitPrefixLength(s[1..], radix) else 0
  }

  /** The value of a string of `radix` digits, most significant first. */
  function DigitsValue(ds: string, radix: nat): nat
    requires radix == 10 || radix == 16
    requires forall i :: 0 <= i < |ds| ==> DigitValue(ds[i], radix).Some?
  {
    if |ds| == 0 then 0
    else DigitsValue(ds[..|ds| - 1], radix) * radix + DigitValue(ds[|ds| - 1], radix).value
  }

  /** The digits at the start of `u` (after any sign), in radix 16 after
      a `0x` or `0X` prefix and in radix 10 otherwise; `None` when there
      is no digit. */
  function ParseUnsigned(u: string): Option<nat>
  {
    var hex := |u| >= 2 && u[0] == '0' && (u[1] == 'x' || u[1] == 'X');
    var radix := if hex then 16 else 10;
    var body := if hex then u[2..] else u;
    var k := DigitPrefixLength(body, radix);
    if k == 0 then None else Some(DigitsValue(body[..k], radix))
  }

  /** An optional sign followed by what `ParseUnsigned` reads. */
  function ParseSigned(t: string): Option<int>
  {
    if |t| > 0 && t[0] == '-' then
      match ParseUnsigned(t[1..])
      case None => None
      case Some(v) => Some(-(v as int))
    else if |t| > 0 && t[0] == '+' then
      match ParseUnsigned(t[1..])
      case None => None
      case Some(v) => Some(v)
    else
      match ParseUnsigned(t)
      case None => None
      case Some(v) => Some(v)
  }

  /** `Number.parseInt(s)` without a radix argument: skip leading white
      space, read an optional sign, switch to radix 16 after a `0x` or
      `0X` prefix, then read the longest run of digits; no digit at all
      gives `NaN` (here `None`). The result is modelled as an unbounded
      integer: the rounding of more than 2^53 to a double is not. */
  function ParseInt(s: string): (r: Option<int>)
  {
    ParseSigned(TrimStart(s))
  }

  // ---------------------------------------------------------------
  // Number to string
  // ---------------------------------------------------------------

  function DigitChar(d: nat): (c: char)
    requires d < 10
    ensures IsDecimalDigit(c) && DigitValue(c, 10) == Some(d)
  {
    ('0' as nat + d) as char
  }

  /** The decimal digits of `n`, without leading zeros. */
  function NatToDigits(n: nat): (r: string)
    ensures |r| > 0
    ensures forall i :: 0 <= i < |r| ==> IsDecimalDigit(r[i])
    ensures n > 0 ==> r[0] != '0'
  {
    if n < 10 then [DigitChar(n)] else NatToDigits(n / 10) + [DigitChar(n % 10)]
  }

  /** `String(n)` (and `${n}`) for an integer-valued number. */
  function IntToString(n: int): (r: string)
  {
    if n < 0 then "-" + NatToDigits(-n) else NatToDigits(n)
  }

  /** `String(x)` for the result of `parseInt`: `NaN` prints as "NaN". */
  function NumberToString(x: Option<int>): string {
    match x
    case None => "NaN"
    case Some(n) => IntToString(n)
  }

  lemma {:induction false} DigitsValueOfNatToDigits(n: nat)
    ensures forall i :: 0 <= i < |NatToDigits(n)| ==> DigitValue(NatToDigits(n)[i], 10).Some?
    ensures DigitsValue(NatToDigits(n), 10) == n
  {
    var ds := NatToDigits(n);
    if n >= 10 {
      DigitsValueOfNatToDigits(n / 10);
      assert ds[..|ds| - 1] == NatToDigits(n / 10);
    }
  }

  /** A run of decimal digits reads as its decimal value when what
      follows it, `t`, starts with a non-digit; an `x` or `X` there is
      excluded only after the single digit "0", where it would make "0x". */
  lemma ParseUnsignedOfDigits(ds: string, t: string)
    requires |ds| > 0 && forall i :: 0 <= i < |ds| ==> IsDecimalDigit(ds[i])
    requires |t| > 0 ==> !IsDecimalDigit(t[0]) && (ds == "0" ==> t[0] != 'x' && t[0] != 'X')
    ensures forall i :: 0 <= i < |ds| ==> DigitValue(ds[i], 10).Some?
    ensures ParseUnsigned(ds + t) == Some(DigitsValue(ds, 10))
  {
    var u := ds + t;
    assert u[0] == ds[0];
    assert |u| >= 2 && u[0] == '0' ==> u[1] != 'x' && u[1] != 'X' by {
      if |u| >= 2 && u[0] == '0' {
        if |ds| >= 2 {
          assert u[1] == ds[1];
        } else {
          assert ds == "0" && u[1] == t[0];
        }
      }
    }
    DigitPrefixOfDigits(ds, t);
    assert u[..|ds|] == ds;
  }

  /** Printing an integer and parsing it back gives the same integer. */
  lemma ParseIntOfIntToString(n: int)
    ensures ParseInt(IntToString(n)) == Some(n)
  {
    var m: nat := if n < 0 then -n else n;
    var ds := NatToDigits(m);
    DigitsValueOfNatToDigits(m);
    assert ds + "" == ds;
    if n < 0 {
      ParseUnsignedOfDigits(ds, "");
      ParseSignedOfMinus(ds);
      ParseIntWithoutLeadingSpace("-" + ds);
    } else {
      ParseIntOfDigits(ds, "");
    }
  }

  /** A leading minus sign negates what follows it. */
  lemma ParseSignedOfMinus(u: string)
    ensures ParseSigned("-" + u) == match ParseUnsigned(u) case None => None case Some(v) => Some(-(v as int))
  {
    assert ("-" + u)[0] == '-' && ("-" + u)[1..] == u;
  }

  /** With no white space in front, `parseInt` reads the sign and digits
      at once. */
  lemma ParseIntWithoutLeadingSpace(s: string)
    requires |s| > 0 && !IsStrWhiteSpace(s[0])
    ensures ParseInt(s) == ParseSigned(s)
  {
    assert TrimStart(s) == s;
  }

  /** A run of decimal digits followed by a non-digit parses as the
      run's decimal value, unless the run is "0" and an `x` follows it. */
  lemma ParseIntOfDigits(ds: string, t: string)
    requires |ds| > 0 && forall i :: 0 <= i < |ds| ==> IsDecimalDigit(ds[i])
    requires |t| > 0 ==> !IsDecimalDigit(t[0]) && (ds == "0" ==> t[0] != 'x' && t[0] != 'X')
    ensures forall i :: 0 <= i < |ds| ==> DigitValue(ds[i], 10).Some?
    ensures ParseInt(ds + t) == Some(DigitsValue(ds, 10))
  {
    var s := ds + t;
    assert s[0] == ds[0] && !IsStrWhiteSpace(s[0]) && s[0] != '-' && s[0] != '+';
    ParseIntWithoutLeadingSpace(s);
    ParseUnsignedOfDigits(ds, t);
  }

  /** A character that `parseInt` never reads past: it is not white
      space, not a sign, not the `x` of a "0x" prefix and not a digit in
      either radix. */
  predicate StopsParse(c: char) {
    !IsStrWhiteSpace(c) && c != '+' && c != '-' && c != 'x' && c != 'X' && DigitValue(c, 16).None?
  }

  /** White space is trimmed from the front of `a` only, when `t` does
      not start with white space. */
  lemma {:induction false} TrimStartAppend(a: string, t: string)
    requires |t| > 0 && !IsStrWhiteSpace(t[0])
    ensures TrimStart(a + t) == TrimStart(a) + t
  {
    if |a| == 0 {
      assert a + t == t;
    } else {
      assert (a + t)[0] == a[0];
      if IsStrWhiteSpace(a[0]) {
        TrimStartAppend(a[1..], t);
        assert (a + t)[1..] == a[1..] + t;
      }
    }
  }

  /** The digit run of `s + t` is that of `s` when `t` starts with a
      non-digit. */
  lemma {:induction false} DigitPrefixAppend(s: string, t: string, radix: nat)
    requires radix == 10 || radix == 16
    requires |t| > 0 ==> DigitValue(t[0], radix).None?
    ensures DigitPrefixLength(s + t, radix) == DigitPrefixLength(s, radix)
  {
    if |s| == 0 {
      assert s + t == t;
    } else {
      assert (s + t)[0] == s[0];
      if DigitValue(s[0], radix).Some? {
        DigitPrefixAppend(s[1..], t, radix);
        assert (s + t)[1..] == s[1..] + t;
      }
    }
  }

  lemma ParseUnsignedAppend(u: string, t: string)
    requires |t| > 0 && StopsParse(t[0])
    ensures ParseUnsigned(u + t) == ParseUnsigned(u)
  {
    var v := u + t;
    if |u| >= 2 {
      assert v[0] == u[0] && v[1] == u[1];
    } else if |u| == 1 {
      assert v[0] == u[0] && v[1] == t[0];
    } else {
      assert v == t;
    }
    var hex := |u| >= 2 && u[0] == '0' && (u[1] == 'x' || u[1] == 'X');
    var radix := if hex then 16 else 10;
    var body := if hex then u[2..] else u;
    assert (if hex then v[2..] else v) == body + t;
    assert DigitValue(t[0], radix).None?;
    DigitPrefixAppend(body, t, radix);
    var k := DigitPrefixLength(body, radix);
    assert (body + t)[..k] == body[..k];
  }

  lemma ParseSignedAppend(u: string, t: string)
    requires |t| > 0 && StopsParse(t[0])
    ensures ParseSigned(u + t) == ParseSigned(u)
  {
    if |u| > 0 && (u[0] == '-' || u[0] == '+') {
      SignedAppend(u, t);
    } else {
      UnsignedAppendWithoutSign(u, t);
    }
  }

  /** The signed case of `ParseSignedAppend`. */
  lemma SignedAppend(u: string, t: string)
    requires |t| > 0 && StopsParse(t[0])
    requires |u| > 0 && (u[0] == '-' || u[0] == '+')
    ensures ParseSigned(u + t) == ParseSigned(u)
  {
    var v := u + t;
    assert v[0] == u[0];
    assert v[1..] == u[1..] + t;
    ParseUnsignedAppend(u[1..], t);
  }

  /** The unsigned case of `ParseSignedAppend`. */
  lemma UnsignedAppendWithoutSign(u: string, t: string)
    requires |t| > 0 && StopsParse(t[0])
    requires !(|u| > 0 && (u[0] == '-' || u[0] == '+'))
    ensures ParseSigned(u + t) == ParseSigned(u)
  {
    var v := u + t;
    assert |u| > 0 ==> v[0] == u[0];
    assert |u| == 0 ==> v == t;
    assert !(v[0] == '-' || v[0] == '+');
    ParseUnsignedAppend(u, t);
  }

  /** Whatever comes after a character at which `parseInt` stops does
      not change what it reads. */
  lemma ParseIntStopsAt(a: string, t: string)
    requires |t| > 0 && StopsParse(t[0])
    ensures ParseInt(a + t) == ParseInt(a)
  {
    TrimStartAppend(a, t);
    ParseSignedAppend(TrimStart(a), t);
  }

  /** `parseInt` stops at a comma: `a + "," + rest` parses as `a` alone,
      as `"7,8"` (the string form of `["7", "8"]`) parses as 7. */
  lemma ParseIntStopsAtComma(a: string, rest: string)
    ensures ParseInt(a + "," + rest) == ParseInt(a)
  {
    assert a + "," + rest == a + ("," + rest);
    ParseIntStopsAt(a, "," + rest);
  }

  /** The digit prefix of `ds + t` is all of `ds` when `t` starts with a
      non-digit. */
  lemma {:induction false} DigitPrefixOfDigits(ds: string, t: string)
    requires forall i :: 0 <= i < |ds| ==> IsDecimalDigit(ds[i])
    requires |t| > 0 ==> !IsDecimalDigit(t[0])
    ensures DigitPrefixLength(ds + t, 10) == |ds|
  {
    if |ds| > 0 {
      DigitPrefixOfDigits(ds[1..], t);
      assert (ds + t)[1..] == ds[1..] + t;
    }
  }

  /** A string that does not start with white space, a sign or a digit
      parses as `NaN`. */
  lemma NoLeadingNumberIsNaN(s: string)
    requires |s| == 0 || (!IsStrWhiteSpace(s[0]) && !IsDecimalDigit(s[0]) && s[0] != '+' && s[0] != '-')
    ensures ParseInt(s).None?
  {
    if |s| > 0 {
      ParseIntWithoutLeadingSpace(s);
    }
  }

  /** Leading white space does not change what `parseInt` reads. */
  lemma ParseIntSkipsWhiteSpace(c: char, s: string)
    requires IsStrWhiteSpace(c)
    ensures ParseInt([c] + s) == ParseInt(s)
  {
    assert ([c] + s)[1..] == s;
  }

  // ---------------------------------------------------------------
  // split, join, indexOf
  // ---------------------------------------------------------------

  /** `s.split(sep)` for a one-character separator: the pieces between
      the separators, in order; there is always one more piece than
      there are separators, so `"".split(",")` is `[""]`. */
  function Split(s: string, sep: char): (r: seq<string>)
    ensures |r| >= 1
    decreases |s|
  {
    if |s| == 0 then [""]
    else if s[0] == sep then [""] + Split(s[1..], sep)
    else
      var rest := Split(s[1..], sep);
      [[s[0]] + rest[0]] + rest[1..]
  }

  /** `pieces.join(sep)`. */
  function Join(pieces: seq<string>, sep: char): string
    requires |pieces| >= 1
  {
    if |pieces| == 1 then pieces[0] else pieces[0] + [sep] + Join(pieces[1..], sep)
  }

  /** The number of occurrences of `c` in `s`. */
  function Count(s: string, c: char): nat {
    if |s| == 0 then 0 else (if s[0] == c then 1 else 0) + Count(s[1..], c)
  }

  /** Joining the pieces of a split with the same separator gives the
      original string back. */
  lemma {:induction false} JoinSplit(s: string, sep: char)
    ensures Join(Split(s, sep), sep) == s
    decreases |s|
  {
    if |s| > 0 {
      JoinSplit(s[1..], sep);
      var rest := Split(s[1..], sep);
      if s[0] != sep {
        var r := Split(s, sep);
        assert r[0] == [s[0]] + rest[0] && r[1..] == rest[1..];
        if |rest| > 1 {
          assert Join(rest, sep) == rest[0] + [sep] + Join(rest[1..], sep);
        }
      } else {
        assert Split(s, sep)[1..] == rest;
      }
    }
  }

  /** There is one piece more than there are separators, and no piece
      contains the separator. */
  lemma {:induction false} SplitShape(s: string, sep: char)
    ensures |Split(s, sep)| == Count(s, sep) + 1
    ensures forall i, j :: 0 <= i < |Split(s, sep)| && 0 <= j < |Split(s, sep)[i]| ==> Split(s, sep)[i][j] != sep
    decreases |s|
  {
    if |s| > 0 {
      SplitShape(s[1..], sep);
      var rest := Split(s[1..], sep);
      var r := Split(s, sep);
      if s[0] != sep {
        forall i, j | 0 <= i < |r| && 0 <= j < |r[i]| ensures r[i][j] != sep {
          if i == 0 {
            if j > 0 { assert r[0][j] == rest[0][j - 1]; }
          } else {
            assert r[i] == rest[i];
          }
        }
      } else {
        forall i, j | 0 <= i < |r| && 0 <= j < |r[i]| ensures r[i][j] != sep {
          assert i > 0 && r[i] == rest[i - 1];
        }
      }
    }
  }

  /** A piece without the separator, then the separator, splits off as
      one piece. */
  lemma {:induction false} SplitAfterPiece(x: string, sep: char, y: string)
    requires forall i :: 0 <= i < |x| ==> x[i] != sep
    ensures Split(x + [sep] + y, sep) == [x] + Split(y, sep)
    decreases |x|
  {
    var s := x + [sep] + y;
    if |x| == 0 {
      assert s == [sep] + y && s[1..] == y;
    } else {
      SplitAfterPiece(x[1..], sep, y);
      assert s[0] == x[0] && s[1..] == x[1..] + [sep] + y;
      var rest := Split(s[1..], sep);
      assert rest == [x[1..]] + Split(y, sep);
      assert [x[0]] + x[1..] == x;
    }
  }

  /** Splitting a join of pieces that do not contain the separator gives
      the pieces back. */
  lemma {:induction false} SplitJoin(pieces: seq<string>, sep: char)
    requires |pieces| >= 1
    requires forall i, j :: 0 <= i < |pieces| && 0 <= j < |pieces[i]| ==> pieces[i][j] != sep
    ensures Split(Join(pieces, sep), sep) == pieces
    decreases |pieces|
  {
    if |pieces| == 1 {
      NoSeparatorSplitsToItself(pieces[0], sep);
    } else {
      assert forall j :: 0 <= j < |pieces[0]| ==> pieces[0][j] != sep;
      SplitJoin(pieces[1..], sep);
      SplitAfterPiece(pieces[0], sep, Join(pieces[1..], sep));
      assert pieces == [pieces[0]] + pieces[1..];
    }
  }

  /** A string without the separator splits into itself alone. */
  lemma {:induction false} NoSeparatorSplitsToItself(x: string, sep: char)
    requires forall i :: 0 <= i < |x| ==> x[i] != sep
    ensures Split(x, sep) == [x]
    decreases |x|
  {
    if |x| > 0 {
      NoSeparatorSplitsToItself(x[1..], sep);
      assert [x[0]] + x[1..] == x;
    }
  }

  /** `sub` occurs in `s` at position `p`. */
  predicate OccursAt(s: string, sub: string, p: nat) {
    p + |sub| <= |s| && s[p..p + |sub|] == sub
  }

  /** `s.indexOf(sub, from)`: the first position at or after `from` where
      `sub` occurs, or `None` for -1. */
  function IndexOf(s: string, sub: string, from: nat): (r: Option<nat>)
    ensures r.Some? ==> from <= r.value && OccursAt(s, sub, r.value)
    ensures r.Some? ==> forall q :: from <= q < r.value ==> !OccursAt(s, sub, q)
    ensures r.None? ==> forall q :: from <= q ==> !OccursAt(s, sub, q)
    decreases |s| - from
  {
    if from + |sub| > |s| then None
    else if s[from..from + |sub|] == sub then Some(from)
    else IndexOf(s, sub, from + 1)
  }

  /** `s.includes(sub)`, which is also `/sub/.test(s)` for a pattern with
      no special characters. */
  predicate Contains(s: string, sub: string) {
    IndexOf(s, sub, 0).Some?
  }

  /** `s.split(sep)[0]` for a non-empty separator string: the part of `s`
      before the first occurrence of `sep`, or all of `s`. */
  function FirstSegment(s: string, sep: string): (r: string)
    requires |sep| > 0
    ensures r <= s
    ensures |r| < |s| ==> OccursAt(s, sep, |r|)
    ensures forall q: nat :: q < |r| ==> !OccursAt(s, sep, q)
    ensures (forall q: nat :: !OccursAt(s, sep, q)) ==> r == s
  {
    match IndexOf(s, sep, 0)
    case Some(p) => s[..p]
    case None => s
  }
}
