/** C text and machine integers: NUL-terminated strings inside a block of memory,
    fixed-width integers, `atol`, and little-endian encodings. */
module CText {

  datatype Option<+T> = None | Some(value: T)

  const NUL: char := '\0'

  // ----- NUL-terminated strings -----

  /** The C string that starts at offset `o` of the block `m`. */
  function CString(m: string, o: nat): (s: string)
    ensures NUL !in s && (o <= |m| ==> o + |s| <= |m|)
    decreases |m| - o
  {
    if o >= |m| || m[o] == NUL then "" else [m[o]] + CString(m, o + 1)
  }

  /** A `char` of C is signed: bytes from 128 on count as negative. */
  function SignedByte(c: char): int {
    var b := c as int % 256;
    if b < 128 then b else b - 256
  }

  /** The terminator of the string at `o` lies inside the block. */
  ghost predicate Terminated(m: string, o: nat) {
    exists z :: o <= z < |m| && m[z] == NUL
  }

  /** A string followed by its terminator reads back as that string, wherever it lies. */
  lemma {:induction false} CStringReads(m: string, o: nat, s: string)
    requires NUL !in s
    requires o + |s| < |m| && m[o..o + |s|] == s && m[o + |s|] == NUL
    ensures CString(m, o) == s
    decreases |s|
  {
    if s == "" {
    } else {
      assert m[o] == m[o..o + |s|][0] == s[0];
      assert m[o + 1..o + |s|] == m[o..o + |s|][1..] == s[1..];
      CStringReads(m, o + 1, s[1..]);
    }
  }

  /** Bytes beyond the terminator never matter: a block that extends another reads the same. */
  lemma {:induction false} CStringPrefix(m: string, longer: string, o: nat)
    requires m <= longer && Terminated(m, o)
    ensures CString(longer, o) == CString(m, o)
    decreases |m| - o
  {
    assert longer[o] == m[o];
    if m[o] != NUL {
      CStringPrefix(m, longer, o + 1);
    }
  }

  /** A string with its terminator is a slice of the block. */
  lemma {:induction false} CStringSlice(m: string, o: nat)
    requires Terminated(m, o)
    ensures var s := CString(m, o);
            o + |s| < |m| && m[o..o + |s|] == s && m[o + |s|] == NUL
    decreases |m| - o
  {
    if m[o] != NUL {
      CStringSlice(m, o + 1);
      var s := CString(m, o + 1);
      assert m[o..o + 1 + |s|] == [m[o]] + m[o + 1..o + 1 + |s|];
    }
  }

  /** Byte-wise order, as `strcmp` has it: negative, zero or positive. */
  function Strcmp(a: string, b: string): (r: int)
    ensures r == 0 <==> a == b
  {
    if a == "" && b == "" then 0
    else if a == "" then -1
    else if b == "" then 1
    else if a[0] != b[0] then (a[0] as int) - (b[0] as int)
    else assert a == [a[0]] + a[1..] && b == [b[0]] + b[1..]; Strcmp(a[1..], b[1..])
  }

  lemma {:induction false} StrcmpFlips(a: string, b: string)
    ensures Strcmp(a, b) < 0 <==> Strcmp(b, a) > 0
  {
    if a != "" && b != "" && a[0] == b[0] {
      StrcmpFlips(a[1..], b[1..]);
    }
  }

  /** The first byte in which two texts differ decides. */
  lemma {:induction false} StrcmpDecides(a: string, b: string, k: nat)
    requires k < |a| && k < |b| && a[..k] == b[..k] && a[k] != b[k]
    ensures Strcmp(a, b) < 0 <==> a[k] < b[k]
    ensures Strcmp(a, b) > 0 <==> a[k] > b[k]
  {
    if k > 0 {
      assert a[0] == a[..k][0] == b[..k][0] == b[0];
      assert a[1..][..k - 1] == a[..k][1..] == b[..k][1..] == b[1..][..k - 1];
      StrcmpDecides(a[1..], b[1..], k - 1);
    }
  }

  /** A text comes before every longer one that starts with it. */
  lemma {:induction false} StrcmpPrefix(a: string, more: string)
    requires more != ""
    ensures Strcmp(a, a + more) < 0 && Strcmp(a + more, a) > 0
  {
    if a == "" {
      assert a + more == more;
    } else {
      assert (a + more)[0] == a[0] && (a + more)[1..] == a[1..] + more;
      StrcmpPrefix(a[1..], more);
    }
  }

  /** `a` comes first: it is the start of `b`, or has the smaller byte where they first differ. */
  ghost predicate Precedes(a: string, b: string) {
    exists k :: 0 <= k <= |a| && k < |b| && a[..k] == b[..k] && (k == |a| || a[k] < b[k])
  }

  /** How far two texts agree. */
  function CommonPrefix(s: string, w: string): (k: nat)
    ensures k <= |s| && k <= |w| && s[..k] == w[..k]
    ensures k < |s| && k < |w| ==> s[k] != w[k]
  {
    if s != "" && w != "" && s[0] == w[0] then
      var k := CommonPrefix(s[1..], w[1..]);
      assert s[..k + 1] == [s[0]] + s[1..][..k];
      assert w[..k + 1] == [w[0]] + w[1..][..k];
      k + 1
    else 0
  }

  /** `strcmp` orders texts byte by byte. */
  lemma StrcmpOrders(a: string, b: string)
    ensures Strcmp(a, b) < 0 <==> Precedes(a, b)
    ensures Strcmp(a, b) > 0 <==> Precedes(b, a)
    ensures Strcmp(a, b) == 0 <==> a == b
  {
    if a != b {
      var k := CommonPrefix(a, b);
      if k < |a| && k < |b| {
        StrcmpDecides(a, b, k);
      } else if k == |a| {
        assert b == a + b[k..];
        StrcmpPrefix(a, b[k..]);
      } else {
        assert a == b + a[k..];
        StrcmpPrefix(b, a[k..]);
      }
    }
    PrecedesSound(a, b);
    PrecedesSound(b, a);
    StrcmpFlips(a, b);
    StrcmpFlips(b, a);
  }

  lemma PrecedesSound(a: string, b: string)
    ensures Precedes(a, b) ==> Strcmp(a, b) < 0
  {
    if k :| 0 <= k <= |a| && k < |b| && a[..k] == b[..k] && (k == |a| || a[k] < b[k]) {
      if k < |a| {
        StrcmpDecides(a, b, k);
      } else {
        assert b == a + b[k..];
        StrcmpPrefix(a, b[k..]);
      }
    }
  }

  // ----- fixed-width integers -----

  const TWO31: int := 0x8000_0000
  const TWO32: int := 0x1_0000_0000
  const TWO63: int := 0x8000_0000_0000_0000
  const TWO64: int := 0x1_0000_0000_0000_0000
  const LONG_MAX: int := TWO63 - 1
  const LONG_MIN: int := -TWO63

  predicate IsLong(n: int) { LONG_MIN <= n <= LONG_MAX }

  /** Two's complement truncation to a signed 32-bit `int`. */
  function ToInt32(n: int): (r: int)
    ensures -TWO31 <= r < TWO31 && (r - n) % TWO32 == 0
  {
    var m := n % TWO32;
    if m < TWO31 then m else m - TWO32
  }

  /** Two's complement truncation to a signed 64-bit `long`. */
  function ToInt64(n: int): (r: int)
    ensures IsLong(r) && (r - n) % TWO64 == 0
  {
    var m := n % TWO64;
    if m < TWO63 then m else m - TWO64
  }

  // ----- atol -----

  predicate IsSpace(c: char) { c == ' ' || 9 <= c as int <= 13 }

  predicate IsDigit(c: char) { '0' <= c <= '9' }

  /** The number spelled by the leading digits of `s`, continuing from `acc`. */
  function DigitsValue(s: string, acc: nat): nat {
    if s == "" || !IsDigit(s[0]) then acc
    else DigitsValue(s[1..], acc * 10 + (s[0] as int - '0' as int))
  }

  function SkipSpace(s: string): string {
    if s != "" && IsSpace(s[0]) then SkipSpace(s[1..]) else s
  }

  /** `atol`: blanks, an optional sign, digits; saturating at the ends of `long`. */
  function Atol(s: string): (r: int)
    ensures IsLong(r)
  {
    var t := SkipSpace(s);
    var negative := t != "" && t[0] == '-';
    var d: int := DigitsValue(if t != "" && (t[0] == '-' || t[0] == '+') then t[1..] else t, 0);
    var v := if negative then -d else d;
    Clamp(v)
  }

  /** The decimal spelling of a number. */
  function Spell(n: nat): (s: string)
    ensures s != "" && forall i :: 0 <= i < |s| ==> IsDigit(s[i])
  {
    var last := ['0' + (n % 10) as char];
    if n < 10 then last else Spell(n / 10) + last
  }

  /** The blanks that `atol` passes over: tab, line feed, vertical tab, form feed, return, space. */
  lemma Blanks(c: char)
    ensures IsSpace(c) <==> c as int in {9, 10, 11, 12, 13, 32}
  {
  }

  /** The number that a numeral stands for: ten times what stands before its last digit, and that digit. */
  function Numeral(s: string): nat
    requires forall i :: 0 <= i < |s| ==> '0' <= s[i] <= '9'
  {
    if s == "" then 0 else 10 * Numeral(s[..|s| - 1]) + (s[|s| - 1] as int - 48)
  }

  lemma {:induction false} DigitsAreNumeral(s: string)
    requires forall i :: 0 <= i < |s| ==> '0' <= s[i] <= '9'
    ensures DigitsValue(s, 0) == Numeral(s)
  {
    if s != "" {
      var front, last := s[..|s| - 1], s[|s| - 1..];
      DigitsAreNumeral(front);
      DigitsAppend(front, last, 0);
      assert s == front + last && last[1..] == "";
    }
  }

  /** A numeral is read in decimal, up to the greatest `long`. */
  lemma AtolOfNumeral(s: string)
    requires s != "" && forall i :: 0 <= i < |s| ==> '0' <= s[i] <= '9'
    ensures Atol(s) == if Numeral(s) < 0x8000_0000_0000_0000 then Numeral(s) else 0x7FFF_FFFF_FFFF_FFFF
  {
    DigitsAreNumeral(s);
    assert SkipSpace(s) == s;
    hide DigitsValue, Numeral;
  }

  /** And down to the least one behind a minus. */
  lemma AtolOfNegative(s: string)
    requires s != "" && forall i :: 0 <= i < |s| ==> '0' <= s[i] <= '9'
    ensures Atol("-" + s) == if Numeral(s) < 0x8000_0000_0000_0000 then -1 * Numeral(s) else -0x8000_0000_0000_0000
  {
    DigitsAreNumeral(s);
    assert SkipSpace("-" + s) == "-" + s && ("-" + s)[1..] == s;
    hide DigitsValue, Numeral;
  }

  /** The nearest `long`. */
  function Clamp(n: int): int {
    if n > LONG_MAX then LONG_MAX else if n < LONG_MIN then LONG_MIN else n
  }

  lemma {:induction false} DigitsAppend(s: string, t: string, acc: nat)
    requires forall i :: 0 <= i < |s| ==> IsDigit(s[i])
    ensures DigitsValue(s + t, acc) == DigitsValue(t, DigitsValue(s, acc))
  {
    if s == "" {
      assert s + t == t;
    } else {
      assert (s + t)[1..] == s[1..] + t;
      DigitsAppend(s[1..], t, acc * 10 + (s[0] as int - '0' as int));
    }
  }

  lemma {:induction false} SpellReads(n: nat, rest: string)
    requires rest == "" || !IsDigit(rest[0])
    ensures DigitsValue(Spell(n) + rest, 0) == n
  {
    DigitsAppend(Spell(n), rest, 0);
    SpellValue(n);
  }

  lemma {:induction false} SpellValue(n: nat)
    ensures DigitsValue(Spell(n), 0) == n
  {
    var last := ['0' + (n % 10) as char];
    assert last[1..] == "" && DigitsValue(last, n / 10) == n / 10 * 10 + n % 10;
    if n >= 10 {
      SpellValue(n / 10);
      DigitsAppend(Spell(n / 10), last, 0);
    }
  }

  lemma {:induction false} SkipsBlanks(blanks: string, s: string)
    requires (forall i :: 0 <= i < |blanks| ==> IsSpace(blanks[i])) && s != "" && !IsSpace(s[0])
    ensures SkipSpace(blanks + s) == s
  {
    if blanks == "" {
      assert blanks + s == s;
    } else {
      assert (blanks + s)[1..] == blanks[1..] + s;
      SkipsBlanks(blanks[1..], s);
    }
  }

  /** A spelled number is read whatever stands before and behind it, and cut to the nearest `long`. */
  lemma AtolReads(blanks: string, sign: string, n: nat, rest: string)
    requires (forall i :: 0 <= i < |blanks| ==> IsSpace(blanks[i])) && sign in {"", "+", "-"}
    requires rest == "" || !IsDigit(rest[0])
    ensures Atol(blanks + (sign + (Spell(n) + rest))) == Clamp((if sign == "-" then -1 else 1) * n)
  {
    var digits := Spell(n) + rest;
    var t := sign + digits;
    SkipsBlanks(blanks, t);
    SpellReads(n, rest);
    assert digits[0] == Spell(n)[0];
    assert sign == "" ==> t == digits;
    assert sign != "" ==> t[0] == sign[0] && t[1..] == digits;
    hide DigitsValue, Spell, SkipSpace;
  }

  /** Without a digit behind blanks and sign the number is 0. */
  lemma AtolOfNoNumber(blanks: string, sign: string, rest: string)
    requires (forall i :: 0 <= i < |blanks| ==> IsSpace(blanks[i])) && sign in {"", "+", "-"}
    requires rest != "" && !IsDigit(rest[0]) && !IsSpace(rest[0]) && (sign == "" ==> rest[0] !in {'+', '-'})
    ensures Atol(blanks + (sign + rest)) == 0
  {
    var t := sign + rest;
    SkipsBlanks(blanks, t);
    assert sign == "" ==> t == rest;
    assert sign != "" ==> t[0] == sign[0] && t[1..] == rest;
  }

  // ----- little-endian encodings -----

  function Pow256(k: nat): (r: nat)
    ensures r > 0
  {
    if k == 0 then 1 else 256 * Pow256(k - 1)
  }

  /** The `k` low-order bytes of `n`, least significant first. */
  function LE(n: nat, k: nat): (s: string)
    ensures |s| == k
  {
    if k == 0 then "" else [(n % 256) as char] + LE(n / 256, k - 1)
  }

  function FromLE(s: string): nat {
    if s == "" then 0 else (s[0] as int) % 256 + 256 * FromLE(s[1..])
  }

  lemma {:induction false} LERoundTrip(n: nat, k: nat)
    requires n < Pow256(k)
    ensures FromLE(LE(n, k)) == n
  {
    if k > 0 {
      assert n / 256 < Pow256(k - 1);
      LERoundTrip(n / 256, k - 1);
    }
  }

  lemma Pow256Values()
    ensures Pow256(1) == 256 && Pow256(4) == TWO32 && Pow256(8) == TWO64
  {
    assert Pow256(2) == 0x1_0000;
    assert Pow256(3) == 0x100_0000;
    assert Pow256(4) == TWO32;
    assert Pow256(5) == 256 * TWO32;
    assert Pow256(6) == 0x1_0000 * TWO32;
    assert Pow256(7) == 0x100_0000 * TWO32;
  }

  function EncodeLong(n: int): (s: string)
    ensures |s| == 8
  {
    LE(n % TWO64, 8)
  }

  /** The `long` whose eight bytes start at offset `o`. */
  function DecodeLong(m: string, o: nat): (n: int)
    ensures IsLong(n)
  {
    if o + 8 <= |m| then ToInt64(FromLE(m[o..o + 8])) else 0
  }

  lemma Int64Wrap(n: int)
    requires IsLong(n)
    ensures ToInt64(n % TWO64) == n
  {
  }

  lemma EncodeLongReads(n: int)
    ensures FromLE(EncodeLong(n)) == n % TWO64
  {
    Pow256Values();
    LERoundTrip(n % TWO64, 8);
  }

  lemma {:induction false} NoBytes(k: nat)
    ensures LE(0, k) == seq(k, i => NUL)
  {
    if k > 0 {
      NoBytes(k - 1);
    }
  }

  /** The low byte of a long comes first. */
  lemma LowByteFirst()
    ensures EncodeLong(0x0201) == [1 as char, 2 as char, NUL, NUL, NUL, NUL, NUL, NUL]
  {
    NoBytes(6);
    assert LE(0x0201, 8) == [1 as char] + ([2 as char] + LE(0, 6));
  }

  lemma LongRoundTrip(n: int, m: string, o: nat)
    requires IsLong(n) && o + 8 <= |m| && m[o..o + 8] == EncodeLong(n)
    ensures DecodeLong(m, o) == n
  {
    EncodeLongReads(n);
    Int64Wrap(n);
  }
}
