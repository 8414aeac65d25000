/**
 Kademlia keys and their XOR distance (internal/dht/xor_distance.go).

 A key is 32 bytes, written as 64 hexadecimal digits of either case (section 8 of RFC 4648).
 The distance of two keys is their byte-wise XOR read as one big-endian integer, which
 is the metric of section 2.1 of the Kademlia paper (Maymounkov and Mazieres, 2002).
 */
module XorDistance {
  import opened Wrappers

  type Byte = x: nat | x < 256
  type Key = seq<Byte>

  const KEY_BYTES := 32

  predicate IsHexDigit(c: char) {
    '0' <= c <= '9' || 'a' <= c <= 'f' || 'A' <= c <= 'F'
  }

  function HexValue(c: char): (v: nat)
    requires IsHexDigit(c)
    ensures v < 16
  {
    if c <= '9' then c as int - '0' as int
    else if c <= 'F' then c as int - 'A' as int + 10
    else c as int - 'a' as int + 10
  }

  function DecodeHex(s: string): (key: Key)
    requires |s| % 2 == 0
    requires forall c | c in s :: IsHexDigit(c)
    ensures 2 * |key| == |s|
  {
    if s == "" then [] else [16 * HexValue(s[0]) + HexValue(s[1])] + DecodeHex(s[2..])
  }

  /** The 32 bytes written as s, or None when s is not 64 hexadecimal digits. */
  function KeyFromHex(s: string): (key: Option<Key>)
    ensures key.Some? <==> |s| == 2 * KEY_BYTES && forall c | c in s :: IsHexDigit(c)
    ensures key.Some? ==> |key.value| == KEY_BYTES
  {
    if |s| == 2 * KEY_BYTES && forall c | c in s :: IsHexDigit(c) then Some(DecodeHex(s)) else None
  }

  function LowerDigit(c: char): char
    requires IsHexDigit(c)
  {
    if 'A' <= c <= 'F' then (c as int - 'A' as int + 'a' as int) as char else c
  }

  /** The same string with its letters in lower case. */
  function Lower(s: string): (t: string)
    requires forall c | c in s :: IsHexDigit(c)
    ensures |t| == |s|
  {
    seq(|s|, i requires 0 <= i < |s| => LowerDigit(s[i]))
  }

  /** The digits of the bytes, from this alphabet, the higher digit of a byte first. */
  function ToHex(digits: string, key: Key): (s: string)
    requires |digits| == 16
    ensures |s| == 2 * |key|
  {
    if key == [] then "" else [digits[key[0] / 16], digits[key[0] % 16]] + ToHex(digits, key[1..])
  }

  /** The places of the digits in either alphabet are their values. */
  lemma DigitAt(d: nat)
    requires d < 16
    ensures IsHexDigit("0123456789abcdef"[d]) && HexValue("0123456789abcdef"[d]) == d
    ensures IsHexDigit("0123456789ABCDEF"[d]) && HexValue("0123456789ABCDEF"[d]) == d
  {}

  lemma DigitOf(c: char)
    ensures IsHexDigit(c) ==> LowerDigit(c) == "0123456789abcdef"[HexValue(c)]
  {}

  lemma IsDigit(c: char)
    ensures IsHexDigit(c) <==> c in "0123456789abcdefABCDEF"
  {
    if c in "0123456789abcdefABCDEF" {
      var i :| 0 <= i < 22 && "0123456789abcdefABCDEF"[i] == c;
    }
  }

  ghost predicate Prints(digits: string) {
    |digits| == 16 && forall d: nat | d < 16 :: PrintsDigit(digits, d)
  }

  ghost predicate PrintsDigit(digits: string, d: nat)
    requires |digits| == 16 && d < 16
  {
    IsHexDigit(digits[d]) && HexValue(digits[d]) == d
  }

  lemma {:induction false} DecodeInvertsPrinting(digits: string, key: Key)
    requires Prints(digits)
    ensures forall c | c in ToHex(digits, key) :: IsHexDigit(c)
    ensures DecodeHex(ToHex(digits, key)) == key
  {
    if key != [] {
      DecodeInvertsPrinting(digits, key[1..]);
      assert PrintsDigit(digits, key[0] / 16) && PrintsDigit(digits, key[0] % 16);
      assert ToHex(digits, key)[2..] == ToHex(digits, key[1..]);
    }
  }

  /** Round trip: 32 bytes printed with either alphabet are decoded to themselves. */
  lemma PrintedKeyIsRead(key: Key)
    requires |key| == 32
    ensures KeyFromHex(ToHex("0123456789abcdef", key)) == Some(key)
    ensures KeyFromHex(ToHex("0123456789ABCDEF", key)) == Some(key)
  {
    forall d: nat | d < 16
      ensures PrintsDigit("0123456789abcdef", d) && PrintsDigit("0123456789ABCDEF", d)
    {
      DigitAt(d);
    }
    DecodeInvertsPrinting("0123456789abcdef", key);
    DecodeInvertsPrinting("0123456789ABCDEF", key);
  }

  ghost predicate PrintsLower(digits: string) {
    |digits| == 16 && forall c | IsHexDigit(c) :: digits[HexValue(c)] == LowerDigit(c)
  }

  lemma TwoDigits(digits: string, hi: char, lo: char, rest: Key)
    requires PrintsLower(digits) && IsHexDigit(hi) && IsHexDigit(lo)
    ensures ToHex(digits, [16 * HexValue(hi) + HexValue(lo)] + rest)
         == [LowerDigit(hi), LowerDigit(lo)] + ToHex(digits, rest)
  {
    var key: Key := [16 * HexValue(hi) + HexValue(lo)] + rest;
    assert key[1..] == rest && key[0] / 16 == HexValue(hi) && key[0] % 16 == HexValue(lo);
  }

  lemma LowerOfTwo(s: string)
    requires |s| >= 2 && forall c | c in s :: IsHexDigit(c)
    ensures Lower(s) == [LowerDigit(s[0]), LowerDigit(s[1])] + Lower(s[2..])
  {}

  lemma {:induction false} PrintingInvertsDecode(digits: string, s: string)
    requires PrintsLower(digits) && |s| % 2 == 0 && forall c | c in s :: IsHexDigit(c)
    ensures ToHex(digits, DecodeHex(s)) == Lower(s)
  {
    if s != "" {
      PrintingInvertsDecode(digits, s[2..]);
      TwoDigits(digits, s[0], s[1], DecodeHex(s[2..]));
      LowerOfTwo(s);
    }
  }

  lemma PrintedIsLower(s: string)
    requires |s| % 2 == 0 && forall c | c in s :: IsHexDigit(c)
    ensures ToHex("0123456789abcdef", DecodeHex(s)) == Lower(s)
  {
    forall c | IsHexDigit(c) ensures "0123456789abcdef"[HexValue(c)] == LowerDigit(c) {
      DigitOf(c);
    }
    PrintingInvertsDecode("0123456789abcdef", s);
  }

  /**
   A string is a key exactly when it is 64 hexadecimal digits, and then printing the key gives the
   string back, in lower case.
   */
  lemma KeyIsItsDigits(s: string)
    ensures KeyFromHex(s).Some? <==> |s| == 64 && forall c | c in s :: c in "0123456789abcdefABCDEF"
    ensures KeyFromHex(s).Some? ==> ToHex("0123456789abcdef", KeyFromHex(s).value) == Lower(s)
  {
    forall c ensures IsHexDigit(c) <==> c in "0123456789abcdefABCDEF" {
      IsDigit(c);
    }
    if KeyFromHex(s).Some? {
      PrintedIsLower(s);
    }
  }

  lemma LowerKeepsDigits(s: string)
    requires KeyFromHex(s).Some?
    ensures KeyFromHex(Lower(s)) == KeyFromHex(s)
  {
    PrintedIsLower(s);
    PrintedKeyIsRead(KeyFromHex(s).value);
  }

  /** Two strings of 64 digits stand for the same key exactly when they differ only in case. */
  lemma SameKeyIff(s: string, t: string)
    requires KeyFromHex(s).Some? && KeyFromHex(t).Some?
    ensures KeyFromHex(s) == KeyFromHex(t) <==> Lower(s) == Lower(t)
  {
    KeyIsItsDigits(s);
    KeyIsItsDigits(t);
    LowerKeepsDigits(s);
    LowerKeepsDigits(t);
  }

  /** Bitwise XOR of the low width bits of x and y. */
  function XorBits(x: nat, y: nat, width: nat): nat {
    if width == 0 then 0
    else 2 * XorBits(x / 2, y / 2, width - 1) + if x % 2 == y % 2 then 0 else 1
  }

  /** Bit i of n. */
  function Bit(n: nat, i: nat): nat {
    if i == 0 then n % 2 else Bit(n / 2, i - 1)
  }

  lemma LastBitAndRest(x: nat, y: nat, width: nat)
    requires width > 0
    ensures XorBits(x, y, width) / 2 == XorBits(x / 2, y / 2, width - 1)
    ensures XorBits(x, y, width) % 2 == if x % 2 == y % 2 then 0 else 1
  {}

  /** Each bit of the result is set exactly where the two numbers differ. */
  lemma {:induction false} XorBitsAreDifferences(x: nat, y: nat, width: nat, i: nat)
    requires i < width
    ensures Bit(XorBits(x, y, width), i) == 1 <==> Bit(x, i) != Bit(y, i)
  {
    LastBitAndRest(x, y, width);
    if i > 0 {
      XorBitsAreDifferences(x / 2, y / 2, width - 1, i - 1);
    }
  }

  function Pow2(width: nat): nat {
    if width == 0 then 1 else 2 * Pow2(width - 1)
  }

  lemma {:induction false} XorBitsBound(x: nat, y: nat, width: nat)
    ensures XorBits(x, y, width) < Pow2(width)
  {
    if width > 0 {
      XorBitsBound(x / 2, y / 2, width - 1);
    }
  }

  lemma {:induction false} XorBitsSymmetric(x: nat, y: nat, width: nat)
    ensures XorBits(x, y, width) == XorBits(y, x, width)
  {
    if width > 0 {
      XorBitsSymmetric(x / 2, y / 2, width - 1);
    }
  }

  lemma {:induction false} XorBitsSelf(x: nat, width: nat)
    ensures XorBits(x, x, width) == 0
  {
    if width > 0 {
      XorBitsSelf(x / 2, width - 1);
    }
  }

  lemma {:induction false} XorBitsCancel(x: nat, y: nat, width: nat)
    requires y < Pow2(width)
    ensures XorBits(x, XorBits(x, y, width), width) == y
  {
    if width > 0 {
      XorBitsCancel(x / 2, y / 2, width - 1);
      LastBitAndRest(x, y, width);
    }
  }

  lemma {:induction false} XorBitsTriangle(x: nat, y: nat, z: nat, width: nat)
    ensures XorBits(x, z, width) <= XorBits(x, y, width) + XorBits(y, z, width)
  {
    if width > 0 {
      XorBitsTriangle(x / 2, y / 2, z / 2, width - 1);
    }
  }

  function XorByte(x: Byte, y: Byte): Byte {
    XorBitsBound(x, y, 8);
    assert Pow2(8) == 256;
    XorBits(x, y, 8)
  }

  function Xor(a: Key, b: Key): (x: Key)
    requires |a| == |b|
    ensures |x| == |a|
    ensures forall i | 0 <= i < |a| :: x[i] == XorByte(a[i], b[i])
  {
    seq(|a|, i requires 0 <= i < |a| => XorByte(a[i], b[i]))
  }

  /** Each of the 8 bits of each byte is set exactly where the two keys differ. */
  lemma XorIsBitwise(a: Key, b: Key, i: nat, bit: nat)
    requires |a| == |b| && i < |a| && bit < 8
    ensures Bit(Xor(a, b)[i], bit) == 1 <==> Bit(a[i], bit) != Bit(b[i], bit)
  {
    XorBitsAreDifferences(a[i], b[i], 8, bit);
  }

  /** The loop that fills the XOR byte by byte. */
  method XorBytes(a: array<Byte>, b: array<Byte>) returns (out: array<Byte>)
    requires a.Length == b.Length
    ensures fresh(out) && out[..] == Xor(a[..], b[..])
  {
    out := new Byte[a.Length];
    for i := 0 to a.Length
      invariant forall j | 0 <= j < i :: out[j] == XorByte(a[j], b[j])
    {
      out[i] := XorByte(a[i], b[i]);
    }
  }

  /** The bytes of k read as a big-endian integer. */
  function ToNat(k: Key): nat {
    if k == [] then 0 else 256 * ToNat(k[..|k| - 1]) + k[|k| - 1]
  }

  function Distance(a: Key, b: Key): nat
    requires |a| == |b|
  {
    ToNat(Xor(a, b))
  }

  predicate Closer(target: Key, a: Key, b: Key)
    requires |target| == |a| == |b|
  {
    Distance(target, a) < Distance(target, b)
  }

  function Pow256(width: nat): nat {
    if width == 0 then 1 else 256 * Pow256(width - 1)
  }

  /** The big-endian bytes of n, width of them. */
  function FromNat(n: nat, width: nat): (k: Key)
    ensures |k| == width
  {
    if width == 0 then [] else FromNat(n / 256, width - 1) + [n % 256]
  }

  lemma {:induction false} ToNatFromNat(n: nat, width: nat)
    requires n < Pow256(width)
    ensures ToNat(FromNat(n, width)) == n
  {
    if width > 0 {
      ToNatFromNat(n / 256, width - 1);
      assert FromNat(n, width)[..width - 1] == FromNat(n / 256, width - 1);
    }
  }

  lemma {:induction false} ToNatInjective(a: Key, b: Key)
    requires |a| == |b| && ToNat(a) == ToNat(b)
    ensures a == b
  {
    if a != [] {
      var n := |a| - 1;
      ToNatInjective(a[..n], b[..n]);
      assert a == a[..n] + [a[n]] && b == b[..n] + [b[n]];
    }
  }

  /** a precedes b: at the first byte where they differ, a has the smaller one. */
  ghost predicate LexLess(a: Key, b: Key)
    requires |a| == |b|
  {
    exists i | 0 <= i < |a| :: a[..i] == b[..i] && a[i] < b[i]
  }

  /** Comparing equally long byte strings as integers is comparing them byte by byte. */
  lemma {:induction false} IntegerOrderIsLexicographic(a: Key, b: Key)
    requires |a| == |b|
    ensures ToNat(a) < ToNat(b) <==> LexLess(a, b)
  {
    if a != [] {
      var n := |a| - 1;
      var p, q := a[..n], b[..n];
      IntegerOrderIsLexicographic(p, q);
      if ToNat(p) == ToNat(q) {
        ToNatInjective(p, q);
      }
      if LexLess(p, q) {
        var i :| 0 <= i < n && p[..i] == q[..i] && p[i] < q[i];
        assert p[..i] == a[..i] && q[..i] == b[..i];
      }
      if LexLess(a, b) {
        var i :| 0 <= i < |a| && a[..i] == b[..i] && a[i] < b[i];
        if i < n {
          assert p[..i] == a[..i] && q[..i] == b[..i];
          assert LexLess(p, q);
        }
      }
    }
  }

  lemma {:induction false} ToNatOfSum(x: Key, a: Key, b: Key)
    requires |x| == |a| == |b|
    requires forall i | 0 <= i < |x| :: x[i] as int <= a[i] as int + b[i] as int
    ensures ToNat(x) <= ToNat(a) + ToNat(b)
  {
    if x != [] {
      var n := |x| - 1;
      ToNatOfSum(x[..n], a[..n], b[..n]);
    }
  }

  /** Identity: the distance is zero exactly between equal keys. */
  lemma DistanceIdentity(a: Key, b: Key)
    requires |a| == |b|
    ensures Distance(a, b) == 0 <==> a == b
  {
    SelfDistance(a);
    if Distance(a, b) == 0 {
      DistanceDeterminesPoint(a, a, b);
    }
  }

  lemma {:induction false} SelfDistance(a: Key)
    ensures Distance(a, a) == 0
  {
    if a != [] {
      var n := |a| - 1;
      SelfDistance(a[..n]);
      assert Xor(a, a)[..n] == Xor(a[..n], a[..n]);
      XorBitsSelf(a[n], 8);
    }
  }

  lemma DistanceSymmetry(a: Key, b: Key)
    requires |a| == |b|
    ensures Distance(a, b) == Distance(b, a)
  {
    forall i | 0 <= i < |a| ensures Xor(a, b)[i] == Xor(b, a)[i] {
      XorBitsSymmetric(a[i], b[i], 8);
    }
    assert Xor(a, b) == Xor(b, a);
  }

  lemma TriangleInequality(a: Key, b: Key, c: Key)
    requires |a| == |b| == |c|
    ensures Distance(a, c) <= Distance(a, b) + Distance(b, c)
  {
    forall i | 0 <= i < |a|
      ensures Xor(a, c)[i] as int <= Xor(a, b)[i] as int + Xor(b, c)[i] as int
    {
      XorBitsTriangle(a[i], b[i], c[i], 8);
    }
    ToNatOfSum(Xor(a, c), Xor(a, b), Xor(b, c));
  }

  lemma XorCancel(a: Key, b: Key)
    requires |a| == |b|
    ensures Xor(a, Xor(a, b)) == b
  {
    forall i | 0 <= i < |a| ensures Xor(a, Xor(a, b))[i] == b[i] {
      assert Pow2(8) == 256;
      XorBitsCancel(a[i], b[i], 8);
    }
  }

  /** No two keys are at the same distance from a third. */
  lemma DistanceDeterminesPoint(target: Key, a: Key, b: Key)
    requires |target| == |a| == |b|
    requires Distance(target, a) == Distance(target, b)
    ensures a == b
  {
    ToNatInjective(Xor(target, a), Xor(target, b));
    XorCancel(target, a);
    XorCancel(target, b);
  }

  /** Every distance that fits in the key's width is attained, and by one point only. */
  lemma UniquePointAtDistance(a: Key, d: nat) returns (b: Key)
    requires d < Pow256(|a|)
    ensures |b| == |a| && Distance(a, b) == d
    ensures forall c: Key | |c| == |a| && Distance(a, c) == d :: c == b
  {
    b := Xor(a, FromNat(d, |a|));
    XorCancel(a, FromNat(d, |a|));
    ToNatFromNat(d, |a|);
    forall c: Key | |c| == |a| && Distance(a, c) == d ensures c == b {
      DistanceDeterminesPoint(a, b, c);
    }
  }

  /** Closer is the order of the XOR byte strings, and of two distinct keys one is closer. */
  lemma CloserIsTotalOrder(target: Key, a: Key, b: Key)
    requires |target| == |a| == |b|
    ensures Closer(target, a, b) <==> LexLess(Xor(target, a), Xor(target, b))
    ensures !Closer(target, a, b) && !Closer(target, b, a) <==> a == b
  {
    IntegerOrderIsLexicographic(Xor(target, a), Xor(target, b));
    if Distance(target, a) == Distance(target, b) {
      DistanceDeterminesPoint(target, a, b);
    }
  }
}
