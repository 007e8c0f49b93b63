/** The JavaScript string built-ins that the handlers rely on: white space as `trim` and
    the regular-expression class `\s` see it, `trim`, `toLowerCase`, `includes`,
    `split` with a one-character separator, `join`, number-to-string and `parseInt`. */
module Text {
  import opened Wrappers
  import Seqs

  /** The WhiteSpace and LineTerminator code points of ECMAScript: what `trim`, `parseInt`
      and `\s` skip. */
  predicate IsSpace(c: char) {
    c == '\t' || c == '\n' || c == '\U{000B}' || c == '\U{000C}' || c == '\r' || c == ' '
    || c == '\U{00A0}' || c == '\U{1680}' || ('\U{2000}' <= c <= '\U{200A}')
    || c == '\U{2028}' || c == '\U{2029}' || c == '\U{202F}' || c == '\U{205F}'
    || c == '\U{3000}' || c == '\U{FEFF}'
  }

  /** No white space at either end. */
  predicate IsTrimmed(s: string) {
    s == [] || (!IsSpace(s[0]) && !IsSpace(s[|s| - 1]))
  }

  /** `trimStart`: drops the leading white space and nothing else. */
  function TrimStart(s: string): (r: string)
    ensures |r| <= |s| && r == s[|s| - |r|..]
    ensures forall i | 0 <= i < |s| - |r| :: IsSpace(s[i])
    ensures r == [] || !IsSpace(r[0])
  {
    if s != [] && IsSpace(s[0]) then TrimStart(s[1..]) else s
  }

  /** `trimEnd`: drops the trailing white space and nothing else. */
  function TrimEnd(s: string): (r: string)
    ensures |r| <= |s| && r == s[..|r|]
    ensures forall i | |r| <= i < |s| :: IsSpace(s[i])
    ensures r == [] || !IsSpace(r[|r| - 1])
  {
    if s != [] && IsSpace(s[|s| - 1]) then TrimEnd(s[..|s| - 1]) else s
  }

  /** `trim`: no white space is left at either end. */
  function Trim(s: string): (r: string)
    ensures IsTrimmed(r)
    ensures |r| <= |s|
  {
    var t := TrimStart(s);
    var r := TrimEnd(t);
    assert r != [] ==> r[0] == t[0];
    r
  }

  /** `r` is the slice of `s` that starts at `i`, and everything of `s` before and after it is
      white space. */
  predicate FramedBySpace(s: string, i: int, r: string) {
    && 0 <= i && i + |r| <= |s|
    && r == s[i..i + |r|]
    && (forall k | 0 <= k < i :: IsSpace(s[k]))
    && (forall k | i + |r| <= k < |s| :: IsSpace(s[k]))
  }

  /** What `trim` returns is a slice of `s`, and all it cut off on either side is white space. */
  lemma TrimSlice(s: string)
    ensures FramedBySpace(s, |s| - |TrimStart(s)|, Trim(s))
  {
    var t := TrimStart(s);
    assert Trim(s) == TrimEnd(t);
    FramedTwice(s, |s| - |t|, t, TrimEnd(t));
  }

  /** White space cut from the front and then from the back leaves a slice framed by white space. */
  lemma FramedTwice(s: string, i: int, t: string, r: string)
    requires 0 <= i <= |s| && t == s[i..] && (forall k | 0 <= k < i :: IsSpace(s[k]))
    requires |r| <= |t| && r == t[..|r|] && (forall k | |r| <= k < |t| :: IsSpace(t[k]))
    ensures FramedBySpace(s, i, r)
  {
    assert r == s[i..i + |r|];
    forall k | i + |r| <= k < |s|
      ensures IsSpace(s[k])
    {
      assert s[k] == t[k - i];
    }
  }

  /** `trim` only removes white space: every other character of `s` is still there. */
  lemma TrimKeepsNonSpace(s: string)
    ensures forall c | c in s && !IsSpace(c) :: c in Trim(s)
    ensures forall c | c in Trim(s) :: c in s
  {
    TrimSlice(s);
    FramedKeepsNonSpace(s, |s| - |TrimStart(s)|, Trim(s));
  }

  /** A slice with only white space around it keeps every other character, and has no other. */
  lemma FramedKeepsNonSpace(s: string, i: int, r: string)
    requires FramedBySpace(s, i, r)
    ensures forall c | c in s && !IsSpace(c) :: c in r
    ensures forall c | c in r :: c in s
  {
    forall c | c in s && !IsSpace(c)
      ensures c in r
    {
      var k :| 0 <= k < |s| && s[k] == c;
      assert i <= k < i + |r|;
      assert r[k - i] == c;
    }
    forall c | c in r
      ensures c in s
    {
      var k :| 0 <= k < |r| && r[k] == c;
      assert s[i + k] == c;
    }
  }

  /** Trimming a string that has no white space at its ends returns it unchanged. */
  lemma TrimTrimmed(s: string)
    requires IsTrimmed(s)
    ensures Trim(s) == s
  {
  }

  /** `trim` is idempotent. */
  lemma TrimIdempotent(s: string)
    ensures Trim(Trim(s)) == Trim(s)
  {
    TrimTrimmed(Trim(s));
  }

  /** Leading white space is cut away: `Trim(w + s) == Trim(s)` for a white-space prefix `w`. */
  lemma {:induction false} TrimAfterSpaces(w: string, s: string)
    requires forall k | 0 <= k < |w| :: IsSpace(w[k])
    ensures TrimStart(w + s) == TrimStart(s)
    ensures Trim(w + s) == Trim(s)
  {
    if w == [] {
      assert w + s == s;
    } else {
      assert (w + s)[1..] == w[1..] + s;
      TrimAfterSpaces(w[1..], s);
    }
  }

  /** `toLowerCase` on one character, for ASCII and the Latin-1 letters (`À`..`Þ`, not `×`). */
  function LowerChar(c: char): (r: char)
    ensures ('A' <= c <= 'Z') ==> r as int == c as int + 32
    ensures !('A' <= c <= 'Z') && !('\U{00C0}' <= c <= '\U{00DE}') ==> r == c
  {
    if 'A' <= c <= 'Z' || ('\U{00C0}' <= c <= '\U{00DE}' && c != '\U{00D7}')
    then (c as int + 32) as char
    else c
  }

  /** `toLowerCase`. */
  function Lower(s: string): (r: string)
    ensures |r| == |s|
    ensures forall i | 0 <= i < |s| :: r[i] == LowerChar(s[i])
  {
    seq(|s|, i requires 0 <= i < |s| => LowerChar(s[i]))
  }

  /** Lower-casing twice is lower-casing once. */
  lemma LowerIdempotent(s: string)
    ensures Lower(Lower(s)) == Lower(s)
  {
  }

  /** `s.includes(sub)`: `sub` occurs in `s` as a contiguous slice. */
  predicate Contains(s: string, sub: string)
    decreases |s|
  {
    sub <= s || (s != [] && Contains(s[1..], sub))
  }

  /** `sub` occurs in `s` starting at index `i`. */
  ghost predicate OccursAt(s: string, sub: string, i: int) {
    0 <= i <= |s| - |sub| && s[i..i + |sub|] == sub
  }

  /** `Contains` holds exactly when `sub` occurs somewhere in `s`. */
  lemma {:induction false} ContainsSpec(s: string, sub: string)
    ensures Contains(s, sub) <==> exists i :: OccursAt(s, sub, i)
    decreases |s|
  {
    if sub <= s {
      assert OccursAt(s, sub, 0);
    } else if s != [] {
      ContainsSpec(s[1..], sub);
      if exists i :: OccursAt(s, sub, i) {
        var i :| OccursAt(s, sub, i);
        assert i != 0;
        assert s[1..][i - 1..i - 1 + |sub|] == s[i..i + |sub|];
        assert OccursAt(s[1..], sub, i - 1);
      }
      if Contains(s[1..], sub) {
        var i :| OccursAt(s[1..], sub, i);
        assert s[1..][i..i + |sub|] == s[i + 1..i + 1 + |sub|];
        assert OccursAt(s, sub, i + 1);
      }
    }
  }

  /** Every string contains the empty string, so an empty search term matches everything. */
  lemma ContainsEmpty(s: string)
    ensures Contains(s, "")
  {
  }

  /** `s.split(sep)` for a one-character separator: the pieces between separators, at least one. */
  function Split(s: string, sep: char): (r: seq<string>)
    ensures |r| >= 1
    ensures forall part | part in r :: sep !in part
    decreases |s|
  {
    if s == [] then [""]
    else
      var rest := Split(s[1..], sep);
      if s[0] == sep then [""] + rest
      else [[s[0]] + rest[0]] + rest[1..]
  }

  /** `parts.join(sep)`. */
  function Join(parts: seq<string>, sep: string): string
  {
    if |parts| == 0 then ""
    else if |parts| == 1 then parts[0]
    else parts[0] + sep + Join(parts[1..], sep)
  }

  /** Splitting and joining back with the same separator gives the original string. */
  lemma {:induction false} JoinSplit(s: string, sep: char)
    ensures Join(Split(s, sep), [sep]) == s
    decreases |s|
  {
    if s != [] {
      var rest := Split(s[1..], sep);
      JoinSplit(s[1..], sep);
      if s[0] == sep {
        assert Split(s, sep) == [""] + rest;
        assert ([""] + rest)[1..] == rest;
      } else {
        var parts := Split(s, sep);
        assert parts == [[s[0]] + rest[0]] + rest[1..];
        if |rest| == 1 {
          assert parts == [[s[0]] + rest[0]];
        } else {
          assert parts[1..] == rest[1..];
          assert Join(rest, [sep]) == rest[0] + [sep] + Join(rest[1..], [sep]);
        }
      }
    }
  }

  /** A separator-free piece followed by the separator splits off as the first part. */
  lemma {:induction false} SplitAfterPiece(p: string, sep: char, rest: string)
    requires sep !in p
    ensures Split(p + [sep] + rest, sep) == [p] + Split(rest, sep)
    decreases |p|
  {
    if p == [] {
      assert p + [sep] + rest == [sep] + rest;
      assert ([sep] + rest)[1..] == rest;
    } else {
      assert (p + [sep] + rest)[1..] == p[1..] + [sep] + rest;
      SplitAfterPiece(p[1..], sep, rest);
      assert [p[0]] + p[1..] == p;
    }
  }

  /** A string without the separator splits into itself. */
  lemma {:induction false} SplitWhole(p: string, sep: char)
    requires sep !in p
    ensures Split(p, sep) == [p]
    decreases |p|
  {
    if p != [] {
      SplitWhole(p[1..], sep);
      assert [p[0]] + p[1..] == p;
    }
  }

  /** Joining separator-free parts and splitting again gives the parts back. */
  lemma {:induction false} SplitJoin(parts: seq<string>, sep: char)
    requires |parts| >= 1
    requires forall part | part in parts :: sep !in part
    ensures Split(Join(parts, [sep]), sep) == parts
  {
    if |parts| == 1 {
      SplitWhole(parts[0], sep);
    } else {
      SplitJoin(parts[1..], sep);
      SplitAfterPiece(parts[0], sep, Join(parts[1..], [sep]));
    }
  }

  /** `s.split(sep)[k]`, or `None` where JavaScript yields `undefined`. */
  function SplitPart(s: string, sep: char, k: nat): (r: Option<string>)
    ensures r.Some? ==> sep !in r.value
  {
    var parts := Split(s, sep);
    if k < |parts| then Some(parts[k]) else None
  }

  /** The value of a digit character in radices up to 36 (`0`-`9`, `a`-`z`, `A`-`Z`), 36 otherwise. */
  function DigitValue(c: char): (d: nat)
    ensures d <= 36
    ensures d < 10 <==> '0' <= c <= '9'
  {
    if '0' <= c <= '9' then c as int - '0' as int
    else if 'a' <= c <= 'z' then c as int - 'a' as int + 10
    else if 'A' <= c <= 'Z' then c as int - 'A' as int + 10
    else 36
  }

  /** The longest prefix of `s` made of digits of the given radix. */
  function DigitPrefix(s: string, radix: nat): (r: string)
    ensures r <= s
    ensures forall i | 0 <= i < |r| :: DigitValue(r[i]) < radix
    ensures |r| < |s| ==> DigitValue(s[|r|]) >= radix
  {
    if s != [] && DigitValue(s[0]) < radix then [s[0]] + DigitPrefix(s[1..], radix) else []
  }

  /** A string made only of digits is its own digit prefix. */
  lemma {:induction false} DigitPrefixOfDigits(s: string, radix: nat)
    requires forall i | 0 <= i < |s| :: DigitValue(s[i]) < radix
    ensures DigitPrefix(s, radix) == s
  {
    if s != [] {
      DigitPrefixOfDigits(s[1..], radix);
    }
  }

  /** The number that a string of digits denotes, most significant digit first. */
  function DigitsValue(ds: string, radix: nat): nat
  {
    if ds == [] then 0
    else DigitsValue(ds[..|ds| - 1], radix) * radix + (DigitValue(ds[|ds| - 1]) % 36)
  }

  /** `parseInt(s)` with no radix: skips leading white space, reads an optional sign and an
      optional `0x`/`0X` prefix (which selects radix 16), then the longest run of digits;
      `None` stands for `NaN` (no digit at all). */
  function ParseInt(s: string): (r: Option<int>)
    ensures s == "" ==> r.None?
  {
    ParseSigned(TrimStart(s))
  }

  /** `parseInt` of the text after the leading white space. */
  function ParseSigned(t: string): Option<int>
  {
    var u := Unsigned(t);
    var ds := DigitPrefix(HexBody(u), Radix(u));
    if ds == [] then None
    else
      var v: int := DigitsValue(ds, Radix(u));
      var n: int := if Negative(t) then -v else v;
      Some(n)
  }

  predicate IsDecimalDigit(c: char) {
    '0' <= c <= '9'
  }

  /** A non-empty run of decimal digits. */
  predicate IsDecimal(s: string) {
    |s| >= 1 && forall i | 0 <= i < |s| :: IsDecimalDigit(s[i])
  }

  /** `parseInt` of a run of decimal digits is the number they denote, leading zeros included. */
  lemma ParseIntOfDigits(ds: string)
    requires IsDecimal(ds)
    ensures ParseInt(ds) == Some(DigitsValue(ds, 10))
  {
    PlainDecimal(ds);
    DigitPrefixOfDigits(ds, 10);
  }

  /** A run of decimal digits has no white space, sign or hexadecimal prefix to skip. */
  lemma PlainDecimal(ds: string)
    requires IsDecimal(ds)
    ensures TrimStart(ds) == ds && Unsigned(ds) == ds && !Negative(ds)
    ensures HexBody(ds) == ds && Radix(ds) == 10
  {
    assert !IsSpace(ds[0]);
  }

  /** A string without a decimal digit is `NaN`. */
  lemma ParseIntWithoutDigits(s: string)
    requires forall i | 0 <= i < |s| :: !IsDecimalDigit(s[i])
    ensures ParseInt(s).None?
  {
  }

  /** Leading white space is skipped. */
  lemma ParseIntSkipsSpace(s: string)
    requires s != [] && IsSpace(s[0])
    ensures ParseInt(s) == ParseInt(s[1..])
  {
    assert TrimStart(s) == TrimStart(s[1..]);
  }

  /** A minus sign before decimal digits negates their value. */
  lemma ParseIntNegative(ds: string, v: int)
    requires IsDecimal(ds) && v == DigitsValue(ds, 10)
    ensures ParseInt("-" + ds) == Some(-v)
  {
    var s := "-" + ds;
    assert s[0] == '-' && s[1..] == ds;
    assert TrimStart(s) == s;
    PlainDecimal(ds);
    DigitPrefixOfDigits(ds, 10);
    SignedDigits(s, ds, ds, 10, v);
  }

  /** Signed text whose unsigned part, after any `0x`, is a run of digits of its radix
      denoting `v`. */
  lemma SignedDigits(t: string, u: string, body: string, radix: nat, v: int)
    requires Unsigned(t) == u && HexBody(u) == body && Radix(u) == radix && body != []
    requires DigitPrefix(body, radix) == body && v == DigitsValue(body, radix)
    ensures ParseSigned(t) == Some(if Negative(t) then -v else v)
  {
  }

  /** A `0x` prefix reads the hexadecimal digits after it. */
  lemma ParseIntHex(hs: string, v: int)
    requires |hs| >= 1 && forall i | 0 <= i < |hs| :: DigitValue(hs[i]) < 16
    requires v == DigitsValue(hs, 16)
    ensures ParseInt("0x" + hs) == Some(v)
  {
    HexText(hs);
    DigitPrefixOfDigits(hs, 16);
    SignedDigits("0x" + hs, "0x" + hs, hs, 16, v);
  }

  /** `0x` text has no white space or sign to skip, and its body follows the prefix. */
  lemma HexText(hs: string)
    ensures var s := "0x" + hs;
      TrimStart(s) == s && Unsigned(s) == s && !Negative(s) && HexBody(s) == hs && Radix(s) == 16
  {
    var s := "0x" + hs;
    assert s[0] == '0' && s[1] == 'x' && s[2..] == hs;
  }

  /** Whether the text after the white space starts with a minus sign. */
  predicate Negative(t: string) {
    t != [] && t[0] == '-'
  }

  /** The text after an optional sign. */
  function Unsigned(t: string): string {
    if t != [] && (t[0] == '-' || t[0] == '+') then t[1..] else t
  }

  /** Whether the unsigned text carries a hexadecimal prefix. */
  predicate IsHex(u: string) {
    |u| >= 2 && u[0] == '0' && (u[1] == 'x' || u[1] == 'X')
  }

  function Radix(u: string): nat {
    if IsHex(u) then 16 else 10
  }

  function HexBody(u: string): string {
    if IsHex(u) then u[2..] else u
  }

  /** `String(n)` for a natural number: its decimal digits, without leading zeros. */
  function NatToString(n: nat): (r: string)
    ensures |r| >= 1
    ensures forall i | 0 <= i < |r| :: '0' <= r[i] <= '9'
  {
    var d := ['0' + (n % 10) as char];
    if n < 10 then d else NatToString(n / 10) + d
  }

  /** The decimal digits of `n` denote `n`. */
  lemma {:induction false} NatToStringValue(n: nat)
    ensures DigitsValue(NatToString(n), 10) == n
  {
    var s := NatToString(n);
    if n >= 10 {
      NatToStringValue(n / 10);
      assert s[..|s| - 1] == NatToString(n / 10);
    }
  }

  /** Different numbers are written differently. */
  lemma NatToStringInjective(m: nat, n: nat)
    requires NatToString(m) == NatToString(n)
    ensures m == n
  {
    NatToStringValue(m);
    NatToStringValue(n);
  }

  /** `parseInt(String(n)) === n`: the decimal rendering of a natural number reads back as it. */
  lemma ParseNatToString(n: nat)
    ensures ParseInt(NatToString(n)) == Some(n)
  {
    ParseIntOfDigits(NatToString(n));
    NatToStringValue(n);
  }

  /** `s.replace(/\s/g, '')`: every white-space character removed. */
  function RemoveSpaces(s: string): (r: string)
    ensures forall c | c in r :: !IsSpace(c)
    ensures forall c | c in s && !IsSpace(c) :: c in r
  {
    Seqs.Filter(s, c => !IsSpace(c))
  }
}
