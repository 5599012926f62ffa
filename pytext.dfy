/** The parts of Python's `str` behaviour the model relies on: slicing
    with clamped bounds, substring tests, `split`, `strip`, `int()` on a
    decimal string, zero-padded `'{:0Nd}'` formatting and code-point
    ordering. Strings are sequences of characters; non-ASCII whitespace
    and digit characters are not modelled. */
module PyText {
  import opened Common

  /** Normalises a slice bound `i` for a sequence of length `n`, as Python does. */
  function Bound(i: int, n: nat): (b: nat)
    ensures b <= n
    ensures 0 <= i <= n ==> b == i
    ensures i > n ==> b == n
    ensures i < 0 ==> b == if n + i < 0 then 0 else n + i
  {
    if i < 0 then (if n + i < 0 then 0 else n + i) else if i > n then n else i
  }

  /** `s[i:j]` */
  function Slice<T>(s: seq<T>, i: int, j: int): (r: seq<T>)
    ensures |r| <= |s|
  {
    var a, b := Bound(i, |s|), Bound(j, |s|);
    if a < b then s[a..b] else []
  }

  /** `s[i:]` */
  function From<T>(s: seq<T>, i: int): (r: seq<T>)
    ensures r == s[Bound(i, |s|)..]
  {
    Slice(s, i, |s|)
  }

  /** Comparing the first |p| characters with p is a prefix test. */
  lemma SlicePrefix(s: string, p: string)
    ensures (Slice(s, 0, |p|) == p) <==> p <= s
  {
    if |p| <= |s| {
      assert Slice(s, 0, |p|) == s[..|p|];
    } else {
      assert |Slice(s, 0, |p|)| <= |s| < |p|;
    }
  }

  /** Python's `sub in s` for strings. */
  predicate Contains(s: string, sub: string)
    decreases |s|
  {
    sub <= s || (|s| > 0 && Contains(s[1..], sub))
  }

  /** `sub` occurs in `s` starting at position `k`. */
  predicate OccursAt(s: string, sub: string, k: int)
  {
    0 <= k && k + |sub| <= |s| && s[k..k + |sub|] == sub
  }

  /** The substring test holds exactly when `sub` occurs at some position. */
  lemma {:induction false} ContainsAt(s: string, sub: string)
    ensures Contains(s, sub) <==> exists k :: OccursAt(s, sub, k)
    decreases |s|
  {
    if sub <= s {
      assert OccursAt(s, sub, 0);
    } else if |s| > 0 {
      ContainsAt(s[1..], sub);
      if Contains(s[1..], sub) {
        var k :| OccursAt(s[1..], sub, k);
        assert s[k + 1..k + 1 + |sub|] == s[1..][k..k + |sub|];
        assert OccursAt(s, sub, k + 1);
      }
      if exists k :: OccursAt(s, sub, k) {
        var k :| OccursAt(s, sub, k);
        if k != 0 {
          assert s[1..][k - 1..k - 1 + |sub|] == s[k..k + |sub|];
          assert OccursAt(s[1..], sub, k - 1);
        }
      }
    }
  }

  // ---------------------------------------------------------------- split

  /** Python's `s.split(c)` for a one-character separator. */
  function Split(s: string, c: char): (parts: seq<string>)
    ensures |parts| >= 1
    ensures forall k :: 0 <= k < |parts| ==> c !in parts[k]
    decreases |s|
  {
    if c !in s then [s]
    else
      var k := IndexOf(s, c);
      [s[..k]] + Split(s[k + 1..], c)
  }

  /** Index of the first occurrence of `c` in `s`. */
  function IndexOf(s: string, c: char): (k: nat)
    requires c in s
    ensures k < |s| && s[k] == c && c !in s[..k]
  {
    if s[0] == c then 0 else 1 + IndexOf(s[1..], c)
  }

  /** `c.join(parts)` */
  function Join(parts: seq<string>, c: char): string
  {
    if |parts| == 0 then []
    else if |parts| == 1 then parts[0]
    else parts[0] + [c] + Join(parts[1..], c)
  }

  /** Splitting at the first separator. */
  lemma SplitAt(a: string, b: string, c: char)
    requires c !in a
    ensures Split(a + [c] + b, c) == [a] + Split(b, c)
  {
    var s := a + [c] + b;
    var k := IndexOf(s, c);
    assert s[|a|] == c;
    assert forall j :: 0 <= j < |a| ==> s[j] == a[j];
    assert k == |a|;
    assert s[..k] == a && s[k + 1..] == b;
  }

  /** Splitting and joining again gives back the string. */
  lemma {:induction false} JoinSplit(s: string, c: char)
    ensures Join(Split(s, c), c) == s
    decreases |s|
  {
    if c in s {
      var k := IndexOf(s, c);
      var a, b := s[..k], s[k + 1..];
      assert s == a + [c] + b;
      SplitAt(a, b, c);
      var parts := [a] + Split(b, c);
      assert parts[0] == a && parts[1..] == Split(b, c);
      JoinSplit(b, c);
    }
  }

  /** Joining separator-free parts and splitting again gives back the parts. */
  lemma {:induction false} SplitJoin(parts: seq<string>, c: char)
    requires |parts| >= 1
    requires forall k :: 0 <= k < |parts| ==> c !in parts[k]
    ensures Split(Join(parts, c), c) == parts
    decreases |parts|
  {
    if |parts| > 1 {
      SplitAt(parts[0], Join(parts[1..], c), c);
      SplitJoin(parts[1..], c);
    }
  }

  // ---------------------------------------------------------------- strip

  /** The characters `str.strip()` removes (ASCII and Latin-1 ones). */
  predicate IsSpace(ch: char) {
    ch == ' ' || ch == '\t' || ch == '\n' || ch == '\r' || ch == '\U{000B}' || ch == '\U{000C}'
    || ch == '\U{001C}' || ch == '\U{001D}' || ch == '\U{001E}' || ch == '\U{001F}'
    || ch == '\U{0085}' || ch == '\U{00A0}'
  }

  function LStrip(s: string): (r: string)
    ensures |r| <= |s| && r == s[|s| - |r|..]
    ensures forall k :: 0 <= k < |s| - |r| ==> IsSpace(s[k])
    ensures |r| > 0 ==> !IsSpace(r[0])
  {
    if |s| > 0 && IsSpace(s[0]) then LStrip(s[1..]) else s
  }

  function RStrip(s: string): (r: string)
    ensures |r| <= |s| && r == s[..|r|]
    ensures forall k :: |r| <= k < |s| ==> IsSpace(s[k])
    ensures |r| > 0 ==> !IsSpace(r[|r| - 1])
  {
    if |s| > 0 && IsSpace(s[|s| - 1]) then RStrip(s[..|s| - 1]) else s
  }

  /** `s.strip()`: the infix left after removing surrounding whitespace. */
  function Strip(s: string): (r: string)
    ensures exists i :: OccursAt(s, r, i)
    ensures |r| > 0 ==> !IsSpace(r[0]) && !IsSpace(r[|r| - 1])
  {
    var l := LStrip(s);
    var r := RStrip(l);
    assert r == s[|s| - |l|..|s| - |l| + |r|];
    assert OccursAt(s, r, |s| - |l|);
    r
  }

  // ---------------------------------------------------------------- integers

  predicate IsDigit(ch: char) { '0' <= ch <= '9' }

  predicate AllDigits(s: string) { forall k :: 0 <= k < |s| ==> IsDigit(s[k]) }

  function DigitChar(d: nat): (ch: char)
    requires d < 10
    ensures IsDigit(ch)
  {
    (d + '0' as int) as char
  }

  function DigitValue(ch: char): (d: nat)
    requires IsDigit(ch)
    ensures d < 10 && DigitChar(d) == ch
  {
    (ch as int - '0' as int) as nat
  }

  /** The value of a string of decimal digits, most significant first. */
  function DigitsValue(s: string): nat
    requires forall k :: 0 <= k < |s| ==> IsDigit(s[k])
  {
    if |s| == 0 then 0 else 10 * DigitsValue(s[..|s| - 1]) + DigitValue(s[|s| - 1])
  }

  /** `str(n)` for a natural number. */
  function Decimal(n: nat): (s: string)
    ensures |s| >= 1
    ensures forall k :: 0 <= k < |s| ==> IsDigit(s[k])
  {
    if n < 10 then [DigitChar(n)] else Decimal(n / 10) + [DigitChar(n % 10)]
  }

  lemma {:induction false} DecimalValue(n: nat)
    ensures DigitsValue(Decimal(n)) == n
  {
    if n >= 10 {
      var s := Decimal(n);
      assert s[..|s| - 1] == Decimal(n / 10);
      DecimalValue(n / 10);
    }
  }

  /** Leading zeros do not change the value of a digit string. */
  lemma {:induction false} ZerosValue(z: nat, s: string)
    requires forall k :: 0 <= k < |s| ==> IsDigit(s[k])
    ensures forall k :: 0 <= k < |Zeros(z) + s| ==> IsDigit((Zeros(z) + s)[k])
    ensures DigitsValue(Zeros(z) + s) == DigitsValue(s)
    decreases |s|
  {
    var t := Zeros(z) + s;
    assert forall k :: 0 <= k < |t| ==> IsDigit(t[k]) by {
      forall k | 0 <= k < |t| ensures IsDigit(t[k]) {
        if k < z { assert t[k] == '0'; } else { assert t[k] == s[k - z]; }
      }
    }
    if |s| == 0 {
      ZerosOnly(z);
      assert t == Zeros(z);
    } else {
      assert t[..|t| - 1] == Zeros(z) + s[..|s| - 1];
      ZerosValue(z, s[..|s| - 1]);
    }
  }

  lemma {:induction false} ZerosOnly(z: nat)
    ensures forall k :: 0 <= k < |Zeros(z)| ==> IsDigit(Zeros(z)[k])
    ensures DigitsValue(Zeros(z)) == 0
  {
    if z > 0 {
      assert Zeros(z)[..z - 1] == Zeros(z - 1);
      ZerosOnly(z - 1);
    }
  }

  function Zeros(z: nat): (s: string)
    ensures |s| == z && forall k :: 0 <= k < z ==> s[k] == '0'
  {
    seq(z, _ => '0')
  }

  /** `'{:0Nd}'.format(n)`: at least `width` characters, zero-padded after the sign. */
  function FormatInt(n: int, width: nat): (s: string)
    ensures |s| >= width
  {
    if n < 0 then ['-'] + PaddedDigits(-n, width - 1)
    else PaddedDigits(n, width)
  }

  /** Python's `int(s)` for a decimal literal: surrounding whitespace, an
      optional sign, one or more digits. */
  function ParseInt(s: string): (r: Result<int>)
  {
    ParseSigned(Strip(s))
  }

  /** `int()` after whitespace has been stripped: an optional sign, then digits. */
  function ParseSigned(t: string): (r: Result<int>)
  {
    if |t| == 0 then Err("ValueError: invalid literal for int()")
    else if t[0] == '-' then
      match ParseUnsigned(t[1..])
      case Ok(v) => Ok(-v)
      case Err(e) => Err(e)
    else if t[0] == '+' then ParseUnsigned(t[1..])
    else ParseUnsigned(t)
  }

  function ParseUnsigned(b: string): (r: Result<int>)
    ensures r.Ok? ==> r.value >= 0
  {
    if |b| == 0 || !AllDigits(b) then Err("ValueError: invalid literal for int()")
    else Ok(DigitsValue(b))
  }

  /** A string without surrounding whitespace is its own strip. */
  lemma StripNoSpace(t: string)
    requires |t| > 0 && !IsSpace(t[0]) && !IsSpace(t[|t| - 1])
    ensures Strip(t) == t
  {
    assert LStrip(t) == t;
    assert RStrip(t) == t;
  }

  /** A digit string parses to its value. */
  lemma ParseDigits(body: string)
    requires |body| >= 1 && AllDigits(body)
    ensures ParseInt(body) == Ok(DigitsValue(body))
  {
    assert IsDigit(body[0]) && IsDigit(body[|body| - 1]);
    StripNoSpace(body);
    assert body[0] != '-' && body[0] != '+';
  }

  /** A digit string after a minus sign parses to the negated value. */
  lemma ParseNegDigits(body: string, m: string)
    requires |body| >= 1 && AllDigits(body) && m == ['-'] + body
    ensures ParseInt(m) == Ok(-(DigitsValue(body) as int))
  {
    assert m[|m| - 1] == body[|body| - 1];
    assert IsDigit(m[|m| - 1]);
    assert !IsSpace(m[0]);
    assert !IsSpace(m[|m| - 1]);
    StripNoSpace(m);
    assert m[1..] == body;
    assert ParseUnsigned(body) == Ok(DigitsValue(body) as int);
    assert ParseSigned(m) == Ok(-(DigitsValue(body) as int));
    assert ParseInt(m) == ParseSigned(Strip(m));
    assert ParseInt(m) == Ok(-(DigitsValue(body) as int));
  }

  /** Formatting with zero padding and parsing again gives the number back. */
  lemma FormatParse(n: int, width: nat)
    ensures ParseInt(FormatInt(n, width)) == Ok(n)
  {
    var s := FormatInt(n, width);
    var m: nat := if n < 0 then -n else n;
    var body := PaddedDigits(m, if n < 0 then width - 1 else width);
    if n < 0 {
      assert s == ['-'] + body;
      ParseNegDigits(body, s);
    } else {
      assert s == body;
      ParseDigits(body);
    }
  }

  /** The unsigned part of `FormatInt`: the decimal digits of `m`, zero-padded. */
  function PaddedDigits(m: nat, width: int): (body: string)
    ensures |body| >= 1 && |body| >= width && AllDigits(body) && DigitsValue(body) == m
  {
    var ds := Decimal(m);
    var z: nat := if width > |ds| then width - |ds| else 0;
    DecimalValue(m);
    ZerosValue(z, ds);
    Zeros(z) + ds
  }

  // ---------------------------------------------------------------- ordering

  /** Python's `a <= b` on strings: lexicographic by code point. */
  predicate StrLe(a: string, b: string)
  {
    if |a| == 0 then true
    else if |b| == 0 then false
    else if a[0] != b[0] then a[0] < b[0]
    else StrLe(a[1..], b[1..])
  }

  lemma {:induction false} StrLeTotal(a: string, b: string)
    ensures StrLe(a, b) || StrLe(b, a)
  {
    if |a| > 0 && |b| > 0 && a[0] == b[0] { StrLeTotal(a[1..], b[1..]); }
  }

  lemma {:induction false} StrLeAntisymmetric(a: string, b: string)
    requires StrLe(a, b) && StrLe(b, a)
    ensures a == b
  {
    if |a| > 0 && |b| > 0 {
      StrLeAntisymmetric(a[1..], b[1..]);
      assert a == [a[0]] + a[1..];
      assert b == [b[0]] + b[1..];
    }
  }

  lemma {:induction false} StrLeTransitive(a: string, b: string, c: string)
    requires StrLe(a, b) && StrLe(b, c)
    ensures StrLe(a, c)
  {
    if |a| > 0 && |b| > 0 && |c| > 0 && a[0] == b[0] && b[0] == c[0] {
      StrLeTransitive(a[1..], b[1..], c[1..]);
    }
  }

  /** `max(keys)` for a non-empty list of strings. */
  function MaxStr(keys: seq<string>): string
    requires |keys| > 0
  {
    if |keys| == 1 then keys[0]
    else
      var rest := MaxStr(keys[1..]);
      if StrLe(keys[0], rest) then rest else keys[0]
  }

  /** The maximum is one of the keys and no key sorts after it. */
  lemma {:induction false} MaxStrIsMax(keys: seq<string>)
    requires |keys| > 0
    ensures MaxStr(keys) in keys
    ensures forall k :: 0 <= k < |keys| ==> StrLe(keys[k], MaxStr(keys))
  {
    StrLeReflexive(keys[0]);
    if |keys| > 1 {
      var rest := MaxStr(keys[1..]);
      MaxStrIsMax(keys[1..]);
      StrLeTotal(keys[0], rest);
      forall k | 1 <= k < |keys| ensures StrLe(keys[k], MaxStr(keys)) {
        assert keys[k] == keys[1..][k - 1];
        if !StrLe(keys[0], rest) {
          StrLeTransitive(keys[k], rest, keys[0]);
        }
      }
    }
  }

  lemma {:induction false} StrLeReflexive(a: string)
    ensures StrLe(a, a)
  {
    if |a| > 0 { StrLeReflexive(a[1..]); }
  }
}
