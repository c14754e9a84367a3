/** Time-ordered identifiers (notify/twilio.go and its twins): version 7 of section 5.7 of RFC 9562,
    written into a 16-byte array in place and printed in hexadecimal. */
module Uuid {
  import opened TimeText

  const TWO48: nat := 0x1_0000_0000_0000

  type Byte = b: int | 0 <= b < 256

  /** Keep the low four bits and set the high four to 0111. */
  function VersionByte(b: Byte): (r: Byte)
    ensures r / 16 == 7 && r % 16 == b % 16
  {
    b % 16 + 0x70
  }

  /** Keep the low six bits and set the high two to 10. */
  function VariantByte(b: Byte): (r: Byte)
    ensures r / 64 == 2 && r % 64 == b % 64
  {
    b % 64 + 0x80
  }

  /** ms shifted right by k bytes. */
  function Shift(ms: nat, k: nat): nat {
    if k == 0 then ms else Shift(ms, k - 1) / 256
  }

  /** byte(ms >> 8k). */
  function TimeByte(ms: nat, k: nat): Byte {
    Shift(ms, k) % 256
  }

  /** The identifier's bytes as a function of the clock and the random bytes. */
  function Layout(random: seq<Byte>, ms: nat): (s: seq<Byte>)
    requires |random| == 16
    ensures |s| == 16
  {
    [TimeByte(ms, 5), TimeByte(ms, 4), TimeByte(ms, 3), TimeByte(ms, 2), TimeByte(ms, 1), TimeByte(ms, 0),
     VersionByte(random[6]), random[7], VariantByte(random[8])]
    + random[9..]
  }

  // ----- Hexadecimal -----

  function HexDigit(n: nat): (c: char)
    requires n < 16
  {
    if n < 10 then ('0' as int + n) as char else ('a' as int + (n - 10)) as char
  }

  /** n in hexadecimal on exactly w digits. */
  function Hex(n: nat, w: nat): (s: string)
    ensures |s| == w
  {
    if w == 0 then "" else Hex(n / 16, w - 1) + [HexDigit(n % 16)]
  }

  function HexBytes(s: seq<Byte>): (text: string)
    ensures |text| == 2 * |s|
  {
    if s == [] then "" else HexBytes(s[..|s| - 1]) + Hex(s[|s| - 1], 2)
  }

  function Text(s: seq<Byte>): (text: string)
    requires |s| == 16
    ensures |text| == 36
  {
    HexBytes(s[0..4]) + "-" + HexBytes(s[4..6]) + "-" + HexBytes(s[6..8]) + "-" + HexBytes(s[8..10]) + "-" + HexBytes(s[10..16])
  }

  /** Overwrite the clock, version and variant fields in place. */
  method StampFields(b: array<Byte>, ms: nat)
    requires b.Length == 16
    modifies b
    ensures b[..] == Layout(old(b[..]), ms)
  {
    ghost var random := b[..];
    StampTime(b, ms);
    b[6] := VersionByte(b[6]);
    b[8] := VariantByte(b[8]);
    forall i | 0 <= i < 16 ensures b[i] == Layout(random, ms)[i] {
    }
  }

  method StampTime(b: array<Byte>, ms: nat)
    requires b.Length == 16
    modifies b
    ensures forall i :: 0 <= i < 6 ==> b[i] == TimeByte(ms, 5 - i)
    ensures forall i :: 6 <= i < 16 ==> b[i] == old(b[i])
  {
    b[0] := TimeByte(ms, 5);
    b[1] := TimeByte(ms, 4);
    b[2] := TimeByte(ms, 3);
    b[3] := TimeByte(ms, 2);
    b[4] := TimeByte(ms, 1);
    b[5] := TimeByte(ms, 0);
  }

  method UuidV7(random: seq<Byte>, ms: nat) returns (text: string)
    requires |random| == 16
    ensures text == Text(Layout(random, ms))
  {
    var b := new Byte[16](i requires 0 <= i < 16 => random[i]);
    assert b[..] == random;
    StampFields(b, ms);
    text := Text(b[..]);
  }

  function Pow16(w: nat): nat {
    if w == 0 then 1 else 16 * Pow16(w - 1)
  }

  lemma HexDigitOrder(m: nat, n: nat)
    requires m < 16 && n < 16
    ensures HexDigit(m) < HexDigit(n) <==> m < n
    ensures HexDigit(m) == HexDigit(n) <==> m == n
  {
  }

  /** Equal-width hexadecimal compares like the numbers. */
  lemma {:induction false} HexOrder(m: nat, n: nat, w: nat)
    requires m < Pow16(w) && n < Pow16(w)
    ensures LexLess(Hex(m, w), Hex(n, w)) <==> m < n
    ensures Hex(m, w) == Hex(n, w) <==> m == n
  {
    if w > 0 {
      HexOrder(m / 16, n / 16, w - 1);
      HexDigitOrder(m % 16, n % 16);
      LexConcat(Hex(m / 16, w - 1), Hex(n / 16, w - 1), [HexDigit(m % 16)], [HexDigit(n % 16)]);
      HexSplit(m, n, w);
    }
  }

  lemma HexSplit(m: nat, n: nat, w: nat)
    requires w > 0
    ensures Hex(m, w) == Hex(n, w) <==> Hex(m / 16, w - 1) == Hex(n / 16, w - 1) && HexDigit(m % 16) == HexDigit(n % 16)
  {
    assert Hex(m, w)[..w - 1] == Hex(m / 16, w - 1) && Hex(n, w)[..w - 1] == Hex(n / 16, w - 1);
    assert Hex(m, w)[w - 1] == HexDigit(m % 16) && Hex(n, w)[w - 1] == HexDigit(n % 16);
  }

  function HexValue(c: char): (n: nat)
    ensures n < 16
  {
    if '0' <= c <= '9' then c as int - '0' as int else if 'a' <= c <= 'f' then c as int - 'a' as int + 10 else 0
  }

  function Val16(s: string): nat {
    if s == "" then 0 else Val16(s[..|s| - 1]) * 16 + HexValue(s[|s| - 1])
  }

  lemma {:induction false} ValHex(n: nat, w: nat)
    requires n < Pow16(w)
    ensures Val16(Hex(n, w)) == n
  {
    if w > 0 {
      ValHex(n / 16, w - 1);
      assert Hex(n, w)[..w - 1] == Hex(n / 16, w - 1);
    }
  }

  /** Appending a byte's two digits multiplies by 256. */
  lemma HexAppendByte(a: nat, b: nat, w: nat)
    requires b < 256
    ensures Hex(a, w) + Hex(b, 2) == Hex(a * 256 + b, w + 2)
  {
    var x := a * 256 + b;
    assert x / 16 == a * 16 + b / 16 && x % 16 == b % 16;
    assert x / 16 / 16 == a && x / 16 % 16 == b / 16;
    assert Hex(x, w + 2) == Hex(a, w) + [HexDigit(b / 16)] + [HexDigit(b % 16)];
    assert Hex(b, 2) == [HexDigit(b / 16)] + [HexDigit(b % 16)] by {
      assert Hex(b, 2) == Hex(b / 16, 1) + [HexDigit(b % 16)];
      assert Hex(b / 16, 1) == Hex(b / 16 / 16, 0) + [HexDigit(b / 16 % 16)];
    }
  }

  function BytesValue(s: seq<Byte>): nat {
    if s == [] then 0 else BytesValue(s[..|s| - 1]) * 256 + s[|s| - 1]
  }

  lemma {:induction false} HexBytesIsHex(s: seq<Byte>)
    ensures HexBytes(s) == Hex(BytesValue(s), 2 * |s|)
  {
    if s != [] {
      HexBytesIsHex(s[..|s| - 1]);
      HexAppendByte(BytesValue(s[..|s| - 1]), s[|s| - 1], 2 * (|s| - 1));
    }
  }

  // ----- The time fields -----

  /** The upper 32 and the lower 16 of the 48 time bits. */
  function High(ms: nat): (h: nat)
    ensures h < 0x1_0000_0000
  {
    Shift(ms, 2) % 0x1_0000_0000
  }

  function Low(ms: nat): (l: nat)
    ensures l < 0x1_0000
  {
    ms % 0x1_0000
  }

  lemma BytesValueAppend(s: seq<Byte>, b: Byte)
    ensures BytesValue(s + [b]) == BytesValue(s) * 256 + b
  {
    assert (s + [b])[..|s|] == s;
  }

  lemma JoinTwo(x: nat)
    ensures (x / 256 % 256) * 256 + x % 256 == x % 0x1_0000
  {
  }

  lemma JoinThree(x: nat)
    ensures (x / 256 % 0x1_0000) * 256 + x % 256 == x % 0x100_0000
  {
  }

  lemma JoinFour(x: nat)
    ensures (x / 256 % 0x100_0000) * 256 + x % 256 == x % 0x1_0000_0000
  {
  }

  lemma HighBytes(ms: nat)
    ensures BytesValue([TimeByte(ms, 5), TimeByte(ms, 4), TimeByte(ms, 3), TimeByte(ms, 2)]) == High(ms)
  {
    var a, b, c, d := TimeByte(ms, 5), TimeByte(ms, 4), TimeByte(ms, 3), TimeByte(ms, 2);
    BytesValueAppend([], a);
    BytesValueAppend([a], b);
    BytesValueAppend([a, b], c);
    BytesValueAppend([a, b, c], d);
    assert [] + [a] == [a] && [a] + [b] == [a, b] && [a, b] + [c] == [a, b, c] && [a, b, c] + [d] == [a, b, c, d];
    JoinTwo(Shift(ms, 4));
    JoinThree(Shift(ms, 3));
    JoinFour(Shift(ms, 2));
  }

  lemma LowBytes(ms: nat)
    ensures BytesValue([TimeByte(ms, 1), TimeByte(ms, 0)]) == Low(ms)
  {
    var a, b := TimeByte(ms, 1), TimeByte(ms, 0);
    BytesValueAppend([], a);
    BytesValueAppend([a], b);
    assert [] + [a] == [a] && [a] + [b] == [a, b];
    assert Shift(ms, 1) == ms / 256;
    JoinTwo(ms);
  }

  /** The text after the time fields. */
  function Tail(s: seq<Byte>): (t: string)
    requires |s| == 16
    ensures |t| == 22
  {
    HexBytes(s[6..8]) + "-" + HexBytes(s[8..10]) + "-" + HexBytes(s[10..16])
  }

  /** The printed identifier is the 48 time bits in hexadecimal, split 32 and 16, and a tail. */
  lemma TextByFields(random: seq<Byte>, ms: nat)
    requires |random| == 16
    ensures Text(Layout(random, ms)) == Hex(High(ms), 8) + ("-" + (Hex(Low(ms), 4) + ("-" + Tail(Layout(random, ms)))))
  {
    var s := Layout(random, ms);
    HighBytes(ms);
    LowBytes(ms);
    HexBytesIsHex(s[0..4]);
    HexBytesIsHex(s[4..6]);
    assert s[0..4] == [TimeByte(ms, 5), TimeByte(ms, 4), TimeByte(ms, 3), TimeByte(ms, 2)];
    assert s[4..6] == [TimeByte(ms, 1), TimeByte(ms, 0)];
  }

  lemma Pow16Small()
    ensures Pow16(4) == 0x1_0000 && Pow16(8) == 0x1_0000_0000
  {
    assert Pow16(2) == 256 && Pow16(6) == 0x100_0000;
  }

  lemma SplitTime(ms: nat)
    ensures High(ms) * 0x1_0000 + Low(ms) == ms % TWO48
    ensures ms < TWO48 ==> High(ms) * 0x1_0000 + Low(ms) == ms
  {
    assert Shift(ms, 1) == ms / 256;
    assert Shift(ms, 2) == ms / 0x1_0000;
  }

  /** An identifier's text by its time fields: 32 and 16 bits that make up the low 48 of the clock. */
  lemma TimeFields(random: seq<Byte>, ms: nat) returns (h: nat, l: nat, tail: string)
    requires |random| == 16
    ensures h < 0x1_0000_0000 && l < 0x1_0000 && |tail| == 22
    ensures h * 0x1_0000 + l == ms % TWO48 && (ms < TWO48 ==> h * 0x1_0000 + l == ms)
    ensures Text(Layout(random, ms)) == Hex(h, 8) + ("-" + (Hex(l, 4) + ("-" + tail)))
  {
    TextByFields(random, ms);
    SplitTime(ms);
    h, l, tail := High(ms), Low(ms), Tail(Layout(random, ms));
  }

  // ----- What identifiers promise -----

  /** The time read back from an identifier's text. */
  function TimeOf(text: string): nat
    requires |text| == 36
  {
    Val16(text[0..8]) * 0x1_0000 + Val16(text[9..13])
  }

  /** Reading the time back gives the low 48 bits of the clock, hence the clock itself exactly while
      it fits in 48 bits. */
  lemma TimeReadsBackIff(random: seq<Byte>, ms: nat)
    requires |random| == 16
    ensures TimeOf(Text(Layout(random, ms))) == ms % TWO48
    ensures TimeOf(Text(Layout(random, ms))) == ms <==> ms < TWO48
  {
    var h, l, tail := TimeFields(random, ms);
    TimeOfFields(h, l, tail);
  }

  lemma TimeOfFields(h: nat, l: nat, tail: string)
    requires h < 0x1_0000_0000 && l < 0x1_0000 && |tail| == 22
    ensures TimeOf(Hex(h, 8) + ("-" + (Hex(l, 4) + ("-" + tail)))) == h * 0x1_0000 + l
  {
    TimeSlices(Hex(h, 8), Hex(l, 4), tail);
    Pow16Small();
    ValHex(h, 8);
    ValHex(l, 4);
  }

  lemma TimeSlices(h: string, l: string, tail: string)
    requires |h| == 8 && |l| == 4
    ensures var t := h + ("-" + (l + ("-" + tail))); t[0..8] == h && t[9..13] == l
  {
  }

  /** A smaller time always gives a smaller text, whatever the random bytes. */
  lemma TimeOrdersText(r1: seq<Byte>, ms1: nat, r2: seq<Byte>, ms2: nat)
    requires |r1| == |r2| == 16 && ms1 < ms2 < TWO48
    ensures LexLess(Text(Layout(r1, ms1)), Text(Layout(r2, ms2)))
  {
    var h1, l1, t1 := TimeFields(r1, ms1);
    var h2, l2, t2 := TimeFields(r2, ms2);
    FieldsOrder(h1, l1, t1, h2, l2, t2);
  }

  lemma FieldsOrder(h1: nat, l1: nat, t1: string, h2: nat, l2: nat, t2: string)
    requires h1 < 0x1_0000_0000 && l1 < 0x1_0000 && h2 < 0x1_0000_0000 && l2 < 0x1_0000
    requires h1 < h2 || (h1 == h2 && l1 < l2)
    ensures LexLess(Hex(h1, 8) + ("-" + (Hex(l1, 4) + ("-" + t1))), Hex(h2, 8) + ("-" + (Hex(l2, 4) + ("-" + t2))))
  {
    Pow16Small();
    HexField(h1, h2, 8, Hex(l1, 4) + ("-" + t1), Hex(l2, 4) + ("-" + t2));
    HexField(l1, l2, 4, t1, t2);
  }

  lemma HexField(m: nat, n: nat, w: nat, x: string, y: string)
    requires m < Pow16(w) && n < Pow16(w)
    ensures LexLess(Hex(m, w) + ("-" + x), Hex(n, w) + ("-" + y)) <==> m < n || (m == n && LexLess(x, y))
  {
    LexConcat(Hex(m, w), Hex(n, w), "-" + x, "-" + y);
    LexAfterSeparator("-", x, y);
    HexOrder(m, n, w);
  }

  lemma {:induction false} HexHasNoHyphen(n: nat, w: nat)
    ensures '-' !in Hex(n, w)
  {
    if w > 0 {
      HexHasNoHyphen(n / 16, w - 1);
    }
  }

  lemma HexBytesHaveNoHyphen(s: seq<Byte>)
    ensures '-' !in HexBytes(s)
  {
    HexBytesIsHex(s);
    HexHasNoHyphen(BytesValue(s), 2 * |s|);
  }

  /** The canonical shape: 36 characters, hyphens exactly at 8, 13, 18 and 23, version 7 and the
      variant bits 10. */
  lemma Shape(random: seq<Byte>, ms: nat)
    requires |random| == 16
    ensures var text := Text(Layout(random, ms));
            && |text| == 36
            && (forall i :: 0 <= i < 36 ==> (text[i] == '-' <==> i == 8 || i == 13 || i == 18 || i == 23))
            && text[14] == '7'
            && HexValue(text[19]) / 4 == 2
  {
    var s := Layout(random, ms);
    HexBytesHaveNoHyphen(s[0..4]);
    HexBytesHaveNoHyphen(s[4..6]);
    HexBytesHaveNoHyphen(s[6..8]);
    HexBytesHaveNoHyphen(s[8..10]);
    HexBytesHaveNoHyphen(s[10..16]);
    HyphenPositions(HexBytes(s[0..4]), HexBytes(s[4..6]), HexBytes(s[6..8]), HexBytes(s[8..10]), HexBytes(s[10..16]));
    FirstHexDigit(s[6..8]);
    FirstHexDigit(s[8..10]);
  }

  lemma HyphenPositions(a: string, b: string, c: string, d: string, e: string)
    requires |a| == 8 && |b| == 4 && |c| == 4 && |d| == 4 && |e| == 12
    requires '-' !in a && '-' !in b && '-' !in c && '-' !in d && '-' !in e
    ensures var t := a + "-" + b + "-" + c + "-" + d + "-" + e;
            && |t| == 36
            && (forall i :: 0 <= i < 36 ==> (t[i] == '-' <==> i == 8 || i == 13 || i == 18 || i == 23))
            && t[14] == c[0] && t[19] == d[0]
  {
  }

  lemma FirstHexDigit(s: seq<Byte>)
    requires |s| == 2
    ensures HexBytes(s)[0] == HexDigit(s[0] / 16)
  {
    assert s[..1] == [s[0]] && [s[0]][..0] == [];
    assert HexBytes([s[0]]) == "" + Hex(s[0], 2);
    assert Hex(s[0], 2) == Hex(s[0] / 16, 1) + [HexDigit(s[0] % 16)];
    assert Hex(s[0] / 16, 1) == Hex(s[0] / 16 / 16, 0) + [HexDigit(s[0] / 16 % 16)];
  }

  // ----- How much of the random bytes survives -----

  /** The 74 bits of the random bytes outside version and variant. */
  predicate SameRandomBits(r1: seq<Byte>, r2: seq<Byte>)
    requires |r1| == |r2| == 16
  {
    && r1[6] % 16 == r2[6] % 16 && r1[7] == r2[7] && r1[8] % 64 == r2[8] % 64
    && forall i :: 9 <= i < 16 ==> r1[i] == r2[i]
  }

  /** Two identifiers are equal if and only if they were made in one millisecond (as far as 48 bits
      tell) and their 74 random bits agree. */
  lemma EqualIff(r1: seq<Byte>, ms1: nat, r2: seq<Byte>, ms2: nat)
    requires |r1| == |r2| == 16
    ensures Text(Layout(r1, ms1)) == Text(Layout(r2, ms2)) <==> ms1 % TWO48 == ms2 % TWO48 && SameRandomBits(r1, r2)
  {
    TextByFields(r1, ms1);
    TextByFields(r2, ms2);
    SplitTime(ms1);
    SplitTime(ms2);
    TailsEqualIff(r1, ms1, r2, ms2);
    FieldsEqualIff(High(ms1), Low(ms1), Tail(Layout(r1, ms1)), High(ms2), Low(ms2), Tail(Layout(r2, ms2)));
  }

  lemma FieldsEqualIff(h1: nat, l1: nat, t1: string, h2: nat, l2: nat, t2: string)
    requires h1 < 0x1_0000_0000 && l1 < 0x1_0000 && h2 < 0x1_0000_0000 && l2 < 0x1_0000
    ensures Hex(h1, 8) + ("-" + (Hex(l1, 4) + ("-" + t1))) == Hex(h2, 8) + ("-" + (Hex(l2, 4) + ("-" + t2)))
            <==> h1 == h2 && l1 == l2 && t1 == t2
  {
    Pow16Small();
    HexOrder(h1, h2, 8);
    HexOrder(l1, l2, 4);
    Joined(Hex(h1, 8), Hex(h2, 8), Hex(l1, 4) + ("-" + t1), Hex(l2, 4) + ("-" + t2));
    Joined(Hex(l1, 4), Hex(l2, 4), t1, t2);
  }

  lemma Joined(a: string, b: string, x: string, y: string)
    requires |a| == |b|
    ensures a + ("-" + x) == b + ("-" + y) <==> a == b && x == y
  {
    PairwiseEqual(a, b, "-" + x, "-" + y);
    PairwiseEqual("-", "-", x, y);
  }

  lemma {:induction false} HexBytesEqualIff(s: seq<Byte>, t: seq<Byte>)
    requires |s| == |t|
    ensures HexBytes(s) == HexBytes(t) <==> s == t
  {
    if s != [] {
      var n := |s| - 1;
      HexBytesEqualIff(s[..n], t[..n]);
      ByteDigits(s[n], t[n]);
      PairwiseEqual(HexBytes(s[..n]), HexBytes(t[..n]), Hex(s[n], 2), Hex(t[n], 2));
      LastApart(s, t);
    }
  }

  lemma ByteDigits(x: Byte, y: Byte)
    ensures Hex(x, 2) == Hex(y, 2) <==> x == y
  {
    assert Pow16(2) == 256;
    HexOrder(x, y, 2);
  }

  lemma LastApart<T>(s: seq<T>, t: seq<T>)
    requires |s| == |t| > 0
    ensures s == t <==> s[..|s| - 1] == t[..|t| - 1] && s[|s| - 1] == t[|t| - 1]
  {
    assert s == s[..|s| - 1] + [s[|s| - 1]] && t == t[..|t| - 1] + [t[|t| - 1]];
  }

  lemma PairwiseEqual(a: string, b: string, x: string, y: string)
    requires |a| == |b|
    ensures a + x == b + y <==> a == b && x == y
  {
    assert (a + x)[..|a|] == a && (b + y)[..|b|] == b;
    assert (a + x)[|a|..] == x && (b + y)[|b|..] == y;
  }

  lemma TailsEqualIff(r1: seq<Byte>, ms1: nat, r2: seq<Byte>, ms2: nat)
    requires |r1| == |r2| == 16
    ensures Tail(Layout(r1, ms1)) == Tail(Layout(r2, ms2)) <==> SameRandomBits(r1, r2)
  {
    var s, t := Layout(r1, ms1), Layout(r2, ms2);
    HexBytesEqualIff(s[6..8], t[6..8]);
    HexBytesEqualIff(s[8..10], t[8..10]);
    HexBytesEqualIff(s[10..16], t[10..16]);
    Joined(HexBytes(s[8..10]), HexBytes(t[8..10]), HexBytes(s[10..16]), HexBytes(t[10..16]));
    Joined(HexBytes(s[6..8]), HexBytes(t[6..8]),
           HexBytes(s[8..10]) + ("-" + HexBytes(s[10..16])), HexBytes(t[8..10]) + ("-" + HexBytes(t[10..16])));
    assert Tail(s) == HexBytes(s[6..8]) + ("-" + (HexBytes(s[8..10]) + ("-" + HexBytes(s[10..16]))));
    assert Tail(t) == HexBytes(t[6..8]) + ("-" + (HexBytes(t[8..10]) + ("-" + HexBytes(t[10..16]))));
    TailBytes(r1, ms1, r2, ms2);
  }

  lemma TailBytes(r1: seq<Byte>, ms1: nat, r2: seq<Byte>, ms2: nat)
    requires |r1| == |r2| == 16
    ensures var (s, t) := (Layout(r1, ms1), Layout(r2, ms2));
            s[6..8] == t[6..8] && s[8..10] == t[8..10] && s[10..16] == t[10..16] <==> SameRandomBits(r1, r2)
  {
    var s, t := Layout(r1, ms1), Layout(r2, ms2);
    assert s[6..8] == [VersionByte(r1[6]), r1[7]] && t[6..8] == [VersionByte(r2[6]), r2[7]];
    assert s[8..10] == [VariantByte(r1[8]), r1[9]] && t[8..10] == [VariantByte(r2[8]), r2[9]];
    assert s[10..16] == r1[10..16] && t[10..16] == r2[10..16];
    assert forall i :: 10 <= i < 16 ==> r1[10..16][i - 10] == r1[i] && r2[10..16][i - 10] == r2[i];
  }
}
