/**
 Integers in byte buffers, low byte first. The macros come in two forms: portable ones that
 move single bytes, and x86 ones that read or write a whole little-endian word.
 */
module ByteCodec {
  import opened Bits
  import opened Powers

  type Byte = x: int | 0 <= x < 256

  /** A cast to an unsigned type of n bytes. */
  function Unsigned(x: int, n: nat): nat {
    PowPositive(256, n);
    x % Pow(256, n)
  }

  /** A cast to int32. */
  function Int32(x: nat): int {
    var low := Unsigned(x, 4);
    if low < 0x8000_0000 then low else low - 0x1_0000_0000
  }

  function UChar(x: int): Byte {
    x % 256
  }

  /** The n low bytes of x, lowest first; negative numbers in two's complement. */
  function StoreLE(x: int, n: nat): (bytes: seq<Byte>)
    ensures |bytes| == n
    decreases n
  {
    if n == 0 then [] else [UChar(x)] + StoreLE(x / 256, n - 1)
  }

  /** What a little-endian machine loads from these bytes as an unsigned word. */
  function LoadLE(bytes: seq<Byte>): nat {
    if bytes == [] then 0 else bytes[0] + 256 * LoadLE(bytes[1..])
  }

  lemma {:induction false} LoadStore(x: int, n: nat)
    ensures LoadLE(StoreLE(x, n)) == Unsigned(x, n)
    decreases n
  {
    if n == 0 {
      DivMod(0, x, 1);
    } else {
      LoadStore(x / 256, n - 1);
      PowPositive(256, n - 1);
      DivModTwice(x, 256, Pow(256, n - 1));
      assert StoreLE(x, n)[1..] == StoreLE(x / 256, n - 1);
    }
  }

  lemma {:induction false} StoreLoad(bytes: seq<Byte>)
    ensures StoreLE(LoadLE(bytes), |bytes|) == bytes
  {
    if bytes != [] {
      StoreLoad(bytes[1..]);
      DivMod(bytes[0], LoadLE(bytes[1..]), 256);
    }
  }

  /** The bytes do not depend on what the cast removes. */
  lemma {:induction false} StoreUnsigned(x: int, n: nat)
    ensures StoreLE(Unsigned(x, n), n) == StoreLE(x, n)
  {
    LoadStore(x, n);
    StoreLoad(StoreLE(x, n));
  }

  // ----- portable stores: one cast and shift per byte -----

  lemma {:induction false} ByteAt(x: int, n: nat, k: nat)
    requires k < n
    ensures StoreLE(x, n)[k] == UChar(Shr(x, 8 * k))
    decreases n
  {
    if k == 0 {
      ShrZero(x);
    } else {
      ByteAt(x / 256, n - 1, k - 1);
      ShrByte(x, k);
    }
  }

  lemma ShrZero(x: int)
    ensures Shr(x, 0) == x
  {
    DivMod(0, x, 1);
  }

  /** Shifting whole bytes, one byte first. */
  lemma ShrByte(x: int, k: nat)
    requires k > 0
    ensures Shr(x, 8 * k) == Shr(x / 256, 8 * (k - 1))
  {
    PowEight(k);
    PowPositive(2, 8 * (k - 1));
    DivModTwice(x, 256, Pow(2, 8 * (k - 1)));
  }

  /** A low byte put in front of a split keeps it split. */
  lemma SplitStep(x: int, m: nat, n: nat, high: int)
    requires m > 0 && StoreLE(x / 256, m - 1 + n) == StoreLE(x / 256, m - 1) + StoreLE(high, n)
    ensures StoreLE(x, m + n) == StoreLE(x, m) + StoreLE(high, n)
  {
    assert StoreLE(x, m + n) == [UChar(x)] + StoreLE(x / 256, m - 1 + n);
  }

  /** The high bytes are those of the shifted number. */
  lemma {:induction false} StoreSplit(x: int, m: nat, n: nat)
    ensures StoreLE(x, m + n) == StoreLE(x, m) + StoreLE(Shr(x, 8 * m), n)
    decreases m
  {
    if m == 0 {
      ShrZero(x);
    } else {
      StoreSplit(x / 256, m - 1, n);
      ShrByte(x, m);
      SplitStep(x, m, n, Shr(x, 8 * m));
    }
  }

  lemma PowEight(k: nat)
    requires k > 0
    ensures Pow(2, 8 * k) == 256 * Pow(2, 8 * (k - 1))
  {
    var e := 8 * (k - 1);
    assert Pow(2, e + 2) == 4 * Pow(2, e);
    assert Pow(2, e + 4) == 4 * Pow(2, e + 2);
    assert Pow(2, e + 6) == 4 * Pow(2, e + 4);
    assert Pow(2, e + 8) == 4 * Pow(2, e + 6);
  }

  method Int2Store(t: array<Byte>, a: int)
    requires t.Length >= 2
    modifies t
    ensures t[..] == StoreLE(a, 2) + old(t[2..])
  {
    var temp := Unsigned(a, 4);
    t[0] := UChar(temp);
    t[1] := UChar(Shr(temp, 8));
    StoredBytes(t[..], temp, 2);
    CastFirst(a, 2);
  }

  method Int3Store(t: array<Byte>, a: int)
    requires t.Length >= 3
    modifies t
    ensures t[..] == StoreLE(a, 3) + old(t[3..])
  {
    t[0] := UChar(a);
    t[1] := UChar(Shr(a, 8));
    t[2] := UChar(Shr(a, 16));
    StoredBytes(t[..], a, 3);
  }

  method Int4Store(t: array<Byte>, at: nat, a: int)
    requires at + 4 <= t.Length
    modifies t
    ensures t[..] == old(t[..at]) + StoreLE(a, 4) + old(t[at + 4..])
  {
    t[at] := UChar(a);
    t[at + 1] := UChar(Shr(a, 8));
    t[at + 2] := UChar(Shr(a, 16));
    t[at + 3] := UChar(Shr(a, 24));
    StoredBytes(t[at..], a, 4);
  }

  method Int5Store(t: array<Byte>, a: int)
    requires t.Length >= 5
    modifies t
    ensures t[..] == StoreLE(a, 5) + old(t[5..])
  {
    t[0] := UChar(a);
    t[1] := UChar(Shr(a, 8));
    t[2] := UChar(Shr(a, 16));
    t[3] := UChar(Shr(a, 24));
    t[4] := UChar(Shr(a, 32));
    StoredBytes(t[..], a, 5);
  }

  method Int6Store(t: array<Byte>, a: int)
    requires t.Length >= 6
    modifies t
    ensures t[..] == StoreLE(a, 6) + old(t[6..])
  {
    t[0] := UChar(a);
    t[1] := UChar(Shr(a, 8));
    t[2] := UChar(Shr(a, 16));
    t[3] := UChar(Shr(a, 24));
    t[4] := UChar(Shr(a, 32));
    t[5] := UChar(Shr(a, 40));
    StoredBytes(t[..], a, 6);
  }

  /** Two four-byte stores of the halves. */
  method Int8Store(t: array<Byte>, a: int)
    requires t.Length >= 8
    modifies t
    ensures t[..] == StoreLE(a, 8) + old(t[8..])
  {
    var temp := Unsigned(a, 4);
    var temp2 := Unsigned(Shr(a, 32), 4);
    Int4Store(t, 0, temp);
    Int4Store(t, 4, temp2);
    StoreUnsigned(a, 4);
    StoreUnsigned(Shr(a, 32), 4);
    StoreSplit(a, 4, 4);
  }

  /** n bytes each holding its shifted part are the store. */
  lemma StoredBytes(bytes: seq<Byte>, x: int, n: nat)
    requires n <= |bytes| && forall k: nat | k < n :: bytes[k] == UChar(Shr(x, 8 * k))
    ensures bytes[..n] == StoreLE(x, n)
  {
    forall k: nat | k < n
      ensures bytes[k] == StoreLE(x, n)[k]
    {
      ByteAt(x, n, k);
    }
  }

  lemma CastFirst(x: int, n: nat)
    requires n <= 4
    ensures StoreLE(Unsigned(x, 4), n) == StoreLE(x, n)
  {
    StoreUnsigned(x, 4);
    StorePrefix(x, n, 4);
    StorePrefix(Unsigned(x, 4), n, 4);
  }

  lemma StorePrefix(x: int, m: nat, n: nat)
    requires m <= n
    ensures StoreLE(x, n)[..m] == StoreLE(x, m)
  {
    StoreSplit(x, m, n - m);
  }

  // ----- x86 stores: a cast, then one word -----

  /** What the x86 form of an n-byte store writes: *((uintN*) T) = (uintN) A. */
  function StoreWord(x: int, n: nat): seq<Byte> {
    StoreLE(Unsigned(x, n), n)
  }

  /** The x86 int3store, which casts to a 32-bit unsigned only before the middle shift. */
  function Int3StoreX86(x: int): seq<Byte> {
    [UChar(x), UChar(Shr(Unsigned(x, 4), 8)), UChar(Shr(x, 16))]
  }

  /** Both forms of every store write the same bytes. */
  lemma StoresAgree(x: int)
    ensures StoreWord(x, 2) == StoreLE(x, 2)
    ensures Int3StoreX86(x) == StoreLE(x, 3)
    ensures StoreWord(x, 4) == StoreLE(x, 4)
    ensures StoreWord(x, 8) == StoreLE(x, 8)
  {
    StoreUnsigned(x, 2);
    StoreUnsigned(x, 4);
    StoreUnsigned(x, 8);
    CastFirst(x, 2);
    ByteAt(x, 3, 0);
    ByteAt(x, 2, 1);
    ByteAt(x, 3, 1);
    ByteAt(Unsigned(x, 4), 2, 1);
    ByteAt(x, 3, 2);
    ShrZero(x);
  }

  // ----- portable loads: shifted bytes added, every cast wrapping at its width -----

  function Uint2Korr(a: seq<Byte>): nat
    requires |a| >= 2
  {
    Unsigned(Unsigned(a[0], 2) + Unsigned(Shl(a[1], 8), 2), 2)
  }

  function Uint3Korr(a: seq<Byte>): nat
    requires |a| >= 3
  {
    Unsigned(a[0] + Unsigned(Shl(a[1], 8), 4) + Unsigned(Shl(a[2], 16), 4), 4)
  }

  function Uint4Korr(a: seq<Byte>): nat
    requires |a| >= 4
  {
    Unsigned(a[0] + Unsigned(Shl(a[1], 8), 4) + Unsigned(Shl(a[2], 16), 4) + Unsigned(Shl(a[3], 24), 4), 4)
  }

  function Uint5Korr(a: seq<Byte>): nat
    requires |a| >= 5
  {
    Unsigned(Uint4Korr(a) + Unsigned(Shl(a[4], 32), 8), 8)
  }

  function Uint6Korr(a: seq<Byte>): nat
    requires |a| >= 6
  {
    Unsigned(Uint4Korr(a) + Unsigned(Shl(a[4], 32), 8) + Unsigned(Shl(a[5], 40), 8), 8)
  }

  function Uint8Korr(a: seq<Byte>): nat
    requires |a| >= 8
  {
    Unsigned(Uint4Korr(a) + Unsigned(Shl(Uint4Korr(a[4..]), 32), 8), 8)
  }

  // ----- x86 loads -----

  /** *((uintN*) A) */
  function LoadWord(a: seq<Byte>, n: nat): nat
    requires n <= |a|
  {
    LoadLE(a[..n])
  }

  /** The x86 uint3korr reads four bytes and masks the highest away. */
  function Uint3KorrX86(a: seq<Byte>): nat
    requires |a| >= 4
  {
    BitAnd(LoadWord(a, 4), 0xFFFFFF)
  }

  // ----- loads built from | -----

  /** The three bytes under a fourth one. */
  function FourBytes(top: Byte, a: seq<Byte>): nat
    requires |a| >= 3
  {
    BitOr(BitOr(BitOr(Shl(top, 24), Shl(a[2], 16)), Shl(a[1], 8)), a[0])
  }

  function ThreeBytes(a: seq<Byte>): nat
    requires |a| >= 3
  {
    BitOr(BitOr(Shl(a[2], 16), Shl(a[1], 8)), a[0])
  }

  /** The sign bit decides whether the fourth byte is 255. */
  function Sint3Korr(a: seq<Byte>): int
    requires |a| >= 3
  {
    Int32(if BitAnd(a[2], 128) != 0 then FourBytes(255, a) else ThreeBytes(a))
  }

  /** Network byte order: the first byte is the highest. */
  function Int4Net(a: seq<Byte>): int
    requires |a| >= 4
  {
    Int32(BitOr(BitOr(BitOr(a[3], Shl(a[2], 8)), Shl(a[1], 16)), Shl(a[0], 24)))
  }

  lemma PowerTable()
    ensures Pow(2, 7) == 0x80 && Pow(2, 8) == 0x100 && Pow(2, 16) == 0x1_0000 && Pow(2, 24) == 0x100_0000
    ensures Pow(2, 32) == 0x1_0000_0000 && Pow(2, 40) == 0x100_0000_0000
    ensures Pow(256, 2) == 0x1_0000 && Pow(256, 3) == 0x100_0000 && Pow(256, 4) == 0x1_0000_0000
    ensures Pow(256, 8) == 0x1_0000_0000_0000_0000
  {
    assert Pow(2, 4) == 0x10;
    PowEight(1);
    PowEight(2);
    PowEight(3);
    PowEight(4);
    PowEight(5);
    assert Pow(256, 2) == 0x1_0000;
    assert Pow(256, 4) == 0x1_0000_0000;
    assert Pow(256, 6) == 0x1_0000_0000_0000;
  }

  lemma {:induction false} LoadSplit(a: seq<Byte>, b: seq<Byte>)
    ensures LoadLE(a + b) == LoadLE(a) + Pow(256, |a|) * LoadLE(b)
  {
    if a == [] {
      assert a + b == b;
    } else {
      assert (a + b)[1..] == a[1..] + b;
      LoadSplit(a[1..], b);
      assert Pow(256, |a|) * LoadLE(b) == 256 * (Pow(256, |a| - 1) * LoadLE(b));
    }
  }

  lemma LoadNext(a: seq<Byte>, n: nat)
    requires n < |a|
    ensures LoadLE(a[..n + 1]) == LoadLE(a[..n]) + Pow(256, n) * a[n]
  {
    assert a[..n + 1] == a[..n] + [a[n]];
    LoadSplit(a[..n], [a[n]]);
    assert LoadLE([a[n]]) == a[n] + 256 * LoadLE([a[n]][1..]);
  }

  /** A cast changes nothing that fits. */
  lemma UnsignedFits(x: nat, n: nat)
    ensures x < Pow(256, n) ==> Unsigned(x, n) == x
  {
    if x < Pow(256, n) {
      DivMod(x, 0, Pow(256, n));
    }
  }

  lemma LoadTwo(a: seq<Byte>)
    requires |a| >= 2
    ensures LoadLE(a[..2]) == a[0] + Shl(a[1], 8)
  {
    PowerTable();
    LoadNext(a, 0);
    LoadNext(a, 1);
  }

  lemma LoadThree(a: seq<Byte>)
    requires |a| >= 3
    ensures LoadLE(a[..3]) == a[0] + Shl(a[1], 8) + Shl(a[2], 16)
  {
    PowerTable();
    LoadTwo(a);
    LoadNext(a, 2);
  }

  lemma LoadFour(a: seq<Byte>)
    requires |a| >= 4
    ensures LoadLE(a[..4]) == a[0] + Shl(a[1], 8) + Shl(a[2], 16) + Shl(a[3], 24)
  {
    PowerTable();
    LoadThree(a);
    LoadNext(a, 3);
  }

  // ----- every load reads its bytes as a little-endian number: no cast loses anything -----

  lemma Uint2Reads(a: seq<Byte>)
    requires |a| >= 2
    ensures Uint2Korr(a) == LoadLE(a[..2])
  {
    PowerTable();
    LoadTwo(a);
    UnsignedFits(a[0], 2);
    UnsignedFits(Shl(a[1], 8), 2);
    UnsignedFits(LoadLE(a[..2]), 2);
  }

  lemma Uint3Reads(a: seq<Byte>)
    requires |a| >= 3
    ensures Uint3Korr(a) == LoadLE(a[..3])
    ensures |a| >= 4 ==> Uint3KorrX86(a) == LoadLE(a[..3])
  {
    PowerTable();
    LoadThree(a);
    UnsignedFits(Shl(a[1], 8), 4);
    UnsignedFits(Shl(a[2], 16), 4);
    UnsignedFits(LoadLE(a[..3]), 4);
    if |a| >= 4 {
      LoadNext(a, 3);
      AndLow(LoadLE(a[..4]), 24);
      DivModIs(LoadLE(a[..4]), a[3], LoadLE(a[..3]), Pow(2, 24));
    }
  }

  lemma Uint4Reads(a: seq<Byte>)
    requires |a| >= 4
    ensures Uint4Korr(a) == LoadLE(a[..4])
    ensures LoadLE(a[..4]) < Pow(256, 4)
  {
    PowerTable();
    LoadFour(a);
    UnsignedFits(Shl(a[1], 8), 4);
    UnsignedFits(Shl(a[2], 16), 4);
    UnsignedFits(Shl(a[3], 24), 4);
    UnsignedFits(LoadLE(a[..4]), 4);
  }

  lemma Uint5Reads(a: seq<Byte>)
    requires |a| >= 5
    ensures Uint5Korr(a) == LoadLE(a[..5])
    ensures LoadLE(a[..5]) == LoadLE(a[..4]) + Shl(a[4], 32)
  {
    PowerTable();
    Uint4Reads(a);
    LoadNext(a, 4);
    UnsignedFits(Shl(a[4], 32), 8);
    UnsignedFits(LoadLE(a[..5]), 8);
  }

  lemma Uint6Reads(a: seq<Byte>)
    requires |a| >= 6
    ensures Uint6Korr(a) == LoadLE(a[..6])
  {
    PowerTable();
    Uint4Reads(a);
    Uint5Reads(a);
    LoadNext(a, 5);
    assert Pow(256, 5) == Pow(2, 40) by { assert Pow(256, 5) == 256 * Pow(256, 4); }
    UnsignedFits(Shl(a[4], 32), 8);
    UnsignedFits(Shl(a[5], 40), 8);
    UnsignedFits(LoadLE(a[..6]), 8);
  }

  lemma Uint8Reads(a: seq<Byte>)
    requires |a| >= 8
    ensures Uint8Korr(a) == LoadLE(a[..8])
  {
    PowerTable();
    Uint4Reads(a);
    Uint4Reads(a[4..]);
    var low, high := LoadLE(a[..4]), LoadLE(a[4..][..4]);
    assert a[..8] == a[..4] + a[4..][..4];
    LoadSplit(a[..4], a[4..][..4]);
    UnsignedFits(Shl(high, 32), 8);
    UnsignedFits(low + Shl(high, 32), 8);
  }

  /** Reading back what was stored gives the number modulo 2^(8N), for both forms and whatever follows in the buffer. */
  lemma StoredReadsBack(x: int, rest: seq<Byte>)
    ensures Uint2Korr(StoreLE(x, 2) + rest) == Unsigned(x, 2) == LoadWord(StoreLE(x, 2) + rest, 2)
    ensures Uint3Korr(StoreLE(x, 3) + rest) == Unsigned(x, 3)
    ensures |rest| >= 1 ==> Uint3KorrX86(StoreLE(x, 3) + rest) == Unsigned(x, 3)
    ensures Uint4Korr(StoreLE(x, 4) + rest) == Unsigned(x, 4) == LoadWord(StoreLE(x, 4) + rest, 4)
    ensures Uint5Korr(StoreLE(x, 5) + rest) == Unsigned(x, 5)
    ensures Uint6Korr(StoreLE(x, 6) + rest) == Unsigned(x, 6)
    ensures Uint8Korr(StoreLE(x, 8) + rest) == Unsigned(x, 8) == LoadWord(StoreLE(x, 8) + rest, 8)
  {
    WordReadsBack(x, 2, rest);
    Uint2Reads(StoreLE(x, 2) + rest);
    WordReadsBack(x, 3, rest);
    Uint3Reads(StoreLE(x, 3) + rest);
    WordReadsBack(x, 4, rest);
    Uint4Reads(StoreLE(x, 4) + rest);
    WordReadsBack(x, 5, rest);
    Uint5Reads(StoreLE(x, 5) + rest);
    WordReadsBack(x, 6, rest);
    Uint6Reads(StoreLE(x, 6) + rest);
    WordReadsBack(x, 8, rest);
    Uint8Reads(StoreLE(x, 8) + rest);
  }

  lemma WordReadsBack(x: int, n: nat, rest: seq<Byte>)
    ensures LoadLE((StoreLE(x, n) + rest)[..n]) == Unsigned(x, n)
  {
    assert (StoreLE(x, n) + rest)[..n] == StoreLE(x, n);
    LoadStore(x, n);
  }

  // ----- the signed three-byte load -----

  lemma OrThree(high: nat, mid: Byte, low: Byte)
    ensures BitOr(BitOr(Shl(high, 16), Shl(mid, 8)), low) == Shl(high, 16) + Shl(mid, 8) + low
  {
    PowerTable();
    OrDisjoint(high, Shl(mid, 8), 16);
    var upper := 256 * high + mid;
    assert Shl(high, 16) + Shl(mid, 8) == Shl(upper, 8);
    OrDisjoint(upper, low, 8);
  }

  lemma SignBit(b: Byte)
    ensures BitAnd(b, 128) != 0 <==> b >= 128
  {
    PowerTable();
    AndHigh(b, 8, 7);
    if b < 128 {
      DivModIs(b, 0, b, 128);
    } else {
      DivModIs(b, 1, b - 128, 128);
    }
  }

  lemma ThreeBytesReads(a: seq<Byte>)
    requires |a| >= 3
    ensures ThreeBytes(a) == LoadLE(a[..3])
  {
    LoadThree(a);
    OrThree(a[2], a[1], a[0]);
  }

  lemma FourBytesReads(top: Byte, a: seq<Byte>)
    requires |a| >= 3
    ensures FourBytes(top, a) == Shl(top, 24) + LoadLE(a[..3])
  {
    LoadThree(a);
    OrTop(top, a[2]);
    OrThree(Shl(top, 8) + a[2], a[1], a[0]);
  }

  lemma OrTop(top: Byte, next: Byte)
    ensures BitOr(Shl(top, 24), Shl(next, 16)) == Shl(top, 24) + Shl(next, 16) == Shl(Shl(top, 8) + next, 16)
  {
    PowerTable();
    OrDisjoint(top, Shl(next, 16), 24);
  }

  lemma Int32Of(x: nat)
    requires x < 0x1_0000_0000
    ensures Int32(x) == if x < 0x8000_0000 then x else x - 0x1_0000_0000
  {
    PowerTable();
    UnsignedFits(x, 4);
  }

  lemma ThreeByteRange(a: seq<Byte>)
    requires |a| >= 3
    ensures LoadLE(a[..3]) < 0x100_0000
    ensures LoadLE(a[..3]) >= 0x80_0000 <==> a[2] >= 128
    ensures Shl(255, 24) == 0xFF00_0000
  {
    PowerTable();
    LoadThree(a);
  }

  /** The three bytes as a signed number. */
  lemma Sint3Reads(a: seq<Byte>)
    requires |a| >= 3
    ensures Sint3Korr(a) == (if a[2] >= 128 then LoadLE(a[..3]) - 0x100_0000 else LoadLE(a[..3]))
  {
    SignBit(a[2]);
    ThreeBytesReads(a);
    FourBytesReads(255, a);
    ThreeByteRange(a);
    Int32Of(FourBytes(255, a));
    Int32Of(ThreeBytes(a));
  }

  /** sint3korr undoes int3store exactly on the 24-bit signed range. */
  lemma Sint3ReadsBack(x: int, rest: seq<Byte>)
    ensures Sint3Korr(StoreLE(x, 3) + rest) == x <==> -0x80_0000 <= x < 0x80_0000
  {
    var a := StoreLE(x, 3) + rest;
    PowerTable();
    WordReadsBack(x, 3, rest);
    LoadThree(a);
    Sint3Reads(a);
    if 0 <= x < 0x80_0000 {
      DivModIs(x, 0, x, 0x100_0000);
    } else if -0x80_0000 <= x < 0 {
      DivModIs(x, -1, x + 0x100_0000, 0x100_0000);
    }
  }

  // ----- network byte order -----

  lemma OrFour(a: Byte, b: Byte, c: Byte, d: Byte)
    ensures BitOr(BitOr(BitOr(d, Shl(c, 8)), Shl(b, 16)), Shl(a, 24)) == d + Shl(c, 8) + Shl(b, 16) + Shl(a, 24)
  {
    PowerTable();
    OrDisjoint(c, d, 8);
    var low: nat := d + Shl(c, 8);
    OrDisjoint(b, low, 16);
    OrDisjoint(a, low + Shl(b, 16), 24);
  }

  /** int4net reads the bytes in reverse. */
  lemma Int4NetReads(a: seq<Byte>)
    requires |a| >= 4
    ensures Int4Net(a) == Int32(LoadLE([a[3], a[2], a[1], a[0]]))
  {
    var b := [a[3], a[2], a[1], a[0]];
    LoadFour(b);
    assert b[..4] == b;
    OrFour(a[0], a[1], a[2], a[3]);
  }

  // ----- the same in numbers -----

  /** Byte k of a store is the one worth 256^k, in every store of every number. */
  lemma {:induction false} ByteValue(x: int, n: nat, k: nat)
    requires k < n
    ensures Pow(256, k) > 0 && StoreLE(x, n)[k] == x / Pow(256, k) % 256
    decreases n
  {
    PowPositive(256, k);
    if k == 0 {
      DivMod(0, x, 1);
    } else {
      ByteValue(x / 256, n - 1, k - 1);
      PowPositive(256, k - 1);
      DivModTwice(x, 256, Pow(256, k - 1));
    }
  }

  /** The casts, and a load of four bytes, the first worth one. */
  lemma CastValues(x: int)
    ensures Unsigned(x, 2) == x % 65536 && Unsigned(x, 3) == x % 16777216
    ensures Unsigned(x, 4) == x % 4294967296 && Unsigned(x, 8) == x % 18446744073709551616
  {
    PowerTable();
  }

  lemma LoadValue(a: seq<Byte>)
    requires |a| >= 4
    ensures var d0: int, d1: int, d2: int, d3: int := a[0], a[1], a[2], a[3];
            LoadLE(a[..4]) == d0 + 256 * d1 + 65536 * d2 + 16777216 * d3
  {
    PowerTable();
    LoadFour(a);
  }

  /** Network order: the first byte is worth the most, and the result is a signed 32-bit number. */
  lemma NetValue(a: seq<Byte>)
    requires |a| >= 4
    ensures var d0: int, d1: int, d2: int, d3: int := a[0], a[1], a[2], a[3];
            var v := 16777216 * d0 + 65536 * d1 + 256 * d2 + d3;
            Int4Net(a) == if v < 2147483648 then v else v - 4294967296
  {
    var b := [a[3], a[2], a[1], a[0]];
    Int4NetReads(a);
    LoadValue(b);
    assert b[..4] == b;
    Int32Of(LoadLE(b));
  }
}
