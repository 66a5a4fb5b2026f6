/** CRC-32 by table, against the bit at a time; the update loop is the reflected form. */
module Crc32 {

  type Byte = bv8

  const TABLE_SIZE: nat := 256

  function Xor(a: bv32, b: bv32): bv32
  {
    a ^ b
  }

  function Half(a: bv32): bv32
  {
    a >> 1
  }

  function High(a: bv32): bv32
  {
    a >> 8
  }

  function Low(a: bv32): bv32
  {
    a & 0xFF
  }

  predicate Odd(a: bv32)
  {
    a & 1 == 1
  }

  /** One bit through the register. */
  function Bit(poly: bv32, crc: bv32): bv32
  {
    if Odd(crc) then Xor(poly, Half(crc)) else Half(crc)
  }

  function Bits(poly: bv32, crc: bv32, n: nat): bv32
  {
    if n == 0 then crc else Bit(poly, Bits(poly, crc, n - 1))
  }

  /** The reference: each byte goes into the low end of the register and through it bit by bit. */
  function Plain(poly: bv32, crc: bv32, data: seq<Byte>): bv32
  {
    if data == [] then crc
    else Bits(poly, Xor(Plain(poly, crc, data[..|data| - 1]), data[|data| - 1] as bv32), 8)
  }

  lemma XorParts(a: bv32, b: bv32)
    ensures Half(Xor(a, b)) == Xor(Half(a), Half(b))
    ensures Odd(Xor(a, b)) <==> Odd(a) != Odd(b)
  {
  }

  lemma XorAssociates(p: bv32, s: bv32, t: bv32)
    ensures Xor(Xor(p, s), t) == Xor(p, Xor(s, t))
  {
  }

  lemma XorCommutes(p: bv32, s: bv32)
    ensures Xor(p, s) == Xor(s, p)
  {
  }

  lemma XorCancels(p: bv32, s: bv32)
    ensures Xor(p, Xor(p, s)) == s
  {
  }

  lemma XorMoves(p: bv32, s: bv32, t: bv32)
    ensures Xor(Xor(p, s), t) == Xor(p, Xor(s, t)) == Xor(s, Xor(p, t))
    ensures Xor(Xor(p, s), Xor(p, t)) == Xor(s, t)
  {
    hide Xor;
    XorAssociates(p, s, t);
    XorAssociates(s, p, t);
    XorCommutes(p, s);
    XorAssociates(s, p, Xor(p, t));
    XorCancels(p, t);
  }

  lemma BitLinear(poly: bv32, a: bv32, b: bv32)
    ensures Bit(poly, Xor(a, b)) == Xor(Bit(poly, a), Bit(poly, b))
  {
    hide Xor, Half, Odd;
    XorParts(a, b);
    XorMoves(poly, Half(a), Half(b));
  }

  lemma {:induction false} BitsLinear(poly: bv32, a: bv32, b: bv32, n: nat)
    ensures Bits(poly, Xor(a, b), n) == Xor(Bits(poly, a, n), Bits(poly, b, n))
  {
    hide Bit, Xor;
    if n > 0 {
      BitsLinear(poly, a, b, n - 1);
      BitLinear(poly, Bits(poly, a, n - 1), Bits(poly, b, n - 1));
    }
  }

  /** Bits above the first eight are only shifted by eight steps. */
  lemma HighBits(poly: bv32, x: bv32)
    requires Low(x) == 0
    ensures Bits(poly, x, 8) == High(x)
  {
    var x1, x2, x3, x4 := Half(x), Half(Half(x)), Half(Half(Half(x))), Half(Half(Half(Half(x))));
    Evens(x);
    hide Half, Odd, High, Low, Xor;
    var b0 := Bits(poly, x, 0);
    assert b0 == x;
    assert Bits(poly, x, 1) == x1;
    assert Bits(poly, x, 2) == x2;
    assert Bits(poly, x, 3) == x3;
    assert Bits(poly, x, 4) == x4;
    assert Bits(poly, x, 5) == Half(x4);
    assert Bits(poly, x, 6) == Half(Half(x4));
    assert Bits(poly, x, 7) == Half(Half(Half(x4)));
  }

  lemma Evens(x: bv32)
    requires Low(x) == 0
    ensures var x4 := Half(Half(Half(Half(x))));
            && !Odd(x) && !Odd(Half(x)) && !Odd(Half(Half(x))) && !Odd(Half(Half(Half(x))))
            && !Odd(x4) && !Odd(Half(x4)) && !Odd(Half(Half(x4))) && !Odd(Half(Half(Half(x4))))
            && Half(Half(Half(Half(x4)))) == High(x)
  {
    Even(x, 0xFF, 0x7F);
    Even(Half(x), 0x7F, 0x3F);
    Even(Half(Half(x)), 0x3F, 0x1F);
    Even(Half(Half(Half(x))), 0x1F, 0xF);
    var y := Half(Half(Half(Half(x))));
    Even(y, 0xF, 7);
    Even(Half(y), 7, 3);
    Even(Half(Half(y)), 3, 1);
    Even(Half(Half(Half(y))), 1, 0);
    EightHalves(x);
  }

  lemma Even(x: bv32, mask: bv32, rest: bv32)
    requires x & mask == 0 && mask & 1 == 1 && rest == mask >> 1
    ensures !Odd(x) && Half(x) & rest == 0
  {
  }

  lemma EightHalves(x: bv32)
    ensures Half(Half(Half(Half(Half(Half(Half(Half(x)))))))) == High(x)
  {
    FourHalves(x);
    FourHalves(x >> 4);
    hide Half;
  }

  lemma FourHalves(x: bv32)
    ensures Half(Half(Half(Half(x)))) == x >> 4
  {
    TwoHalves(x);
    TwoHalves(x >> 2);
    hide Half;
  }

  lemma TwoHalves(x: bv32)
    ensures Half(Half(x)) == x >> 2
  {
  }

  lemma Split(x: bv32)
    ensures x == Xor(Low(x), Xor(Low(x), x)) && Low(Xor(Low(x), x)) == 0 && High(Xor(Low(x), x)) == High(x)
  {
  }

  lemma ByteSplit(crc: bv32, b: bv32)
    requires b <= 0xFF
    ensures High(Xor(crc, b)) == High(crc)
  {
  }

  /** What makes a table of 256 entries enough. */
  lemma ByTable(poly: bv32, x: bv32)
    ensures Bits(poly, x, 8) == Xor(Bits(poly, Low(x), 8), High(x))
  {
    Split(x);
    hide Xor, Low, High, Bits;
    BitsLinear(poly, Low(x), Xor(Low(x), x), 8);
    HighBits(poly, Xor(Low(x), x));
  }

  function Not(a: bv32): bv32
  {
    !a
  }

  lemma NotNot(a: bv32)
    ensures Not(Not(a)) == a
  {
  }

  /** What an update with a table is meant to give. */
  function Crc(poly: bv32, ext: bv32, data: seq<Byte>): bv32
  {
    Not(Plain(poly, Not(ext), data))
  }

  class Table {
    const table: array<bv32>
    var initial: bv32
    ghost var poly: bv32

    ghost predicate Valid()
      reads this, table
    {
      table.Length == TABLE_SIZE && forall i | 0 <= i < TABLE_SIZE :: table[i] == Bits(poly, i as bv32, 8)
    }

    constructor InitReflected(poly: bv32, initial: bv32)
      ensures Valid() && this.poly == poly && this.initial == initial && fresh(table)
    {
      table := new bv32[TABLE_SIZE](_ => 0);
      this.initial, this.poly := initial, poly;
      new;
      hide Bit, Half, Odd, Xor;
      for i := 0 to TABLE_SIZE
        invariant forall k | 0 <= k < i :: table[k] == Bits(poly, k as bv32, 8)
        modifies table
      {
        var value := EightBits(poly, i as bv32);
        table[i] := value;
      }
    }

    static method EightBits(poly: bv32, start: bv32) returns (value: bv32)
      ensures value == Bits(poly, start, 8)
    {
      hide Half, Odd, Xor;
      value := start;
      for j := 0 to 8
        invariant value == Bits(poly, start, j)
      {
        if Odd(value) {
          value := Xor(poly, Half(value));
        } else {
          value := Half(value);
        }
      }
    }

    /** The table-driven update is the bit-by-bit one. */
    method Update(data: seq<Byte>, ext: bv32) returns (r: bv32)
      requires Valid()
      ensures r == Crc(poly, ext, data)
    {
      hide Bits, Xor, Low, High, Not;
      var crc := Not(ext);
      for i := 0 to |data|
        invariant crc == Plain(poly, Not(ext), data[..i])
      {
        var b := data[i] as bv32;
        var x := Xor(crc, b);
        ByTable(poly, x);
        ByteBits(data[i]);
        ByteSplit(crc, b);
        LowIndex(x);
        assert data[..i + 1][..i] == data[..i];
        crc := Xor(table[Low(x) as int], High(crc));
      }
      assert data[..|data|] == data;
      r := Not(crc);
    }

    method Compute(data: seq<Byte>) returns (r: bv32)
      requires Valid()
      ensures r == Not(Plain(poly, initial, data))
    {
      NotNot(initial);
      hide Not;
      r := Update(data, Not(initial));
    }
  }

  lemma ByteBits(b: Byte)
    ensures (b as bv32) <= 0xFF
  {
  }

  lemma LowIndex(x: bv32)
    ensures 0 <= Low(x) as int < TABLE_SIZE && (Low(x) as int) as bv32 == Low(x)
  {
  }

  // ---------------------------------------------------------------------------------------------
  // What it is good for

  lemma {:induction false} PlainConcat(poly: bv32, crc: bv32, a: seq<Byte>, b: seq<Byte>)
    ensures Plain(poly, crc, a + b) == Plain(poly, Plain(poly, crc, a), b)
    decreases |b|
  {
    hide Bits, Xor;
    if b == [] {
      assert a + b == a;
    } else {
      var init := b[..|b| - 1];
      assert (a + b)[..|a + b| - 1] == a + init;
      PlainConcat(poly, crc, a, init);
    }
  }

  /** Updating piece by piece is updating once with all of it. */
  lemma InPieces(poly: bv32, ext: bv32, a: seq<Byte>, b: seq<Byte>)
    ensures Crc(poly, Crc(poly, ext, a), b) == Crc(poly, ext, a + b)
  {
    hide Not, Plain;
    PlainConcat(poly, Not(ext), a, b);
    NotNot(Plain(poly, Not(ext), a));
  }

  /** The constant term of the polynomial, which is the highest bit in reflected form. */
  predicate Top(a: bv32)
  {
    a & 0x8000_0000 != 0
  }

  lemma TopOfHalf(poly: bv32, a: bv32)
    ensures !Top(Half(a)) && (Top(Xor(poly, Half(a))) <==> Top(poly))
  {
  }

  lemma HalfAndLowest(a: bv32, b: bv32)
    requires Half(a) == Half(b) && (Odd(a) <==> Odd(b))
    ensures a == b
  {
  }

  /** No two registers meet, exactly if the polynomial has its constant term. */
  lemma BitInjective(poly: bv32, a: bv32, b: bv32)
    requires Top(poly) && Bit(poly, a) == Bit(poly, b)
    ensures a == b
  {
    hide Xor, Half, Odd, Top;
    TopOfHalf(poly, a);
    TopOfHalf(poly, b);
    XorCancels(poly, Half(a));
    XorCancels(poly, Half(b));
    HalfAndLowest(a, b);
  }

  lemma WithoutTop(poly: bv32)
    requires !Top(poly)
    ensures poly << 1 != 1 && Bit(poly, poly << 1) == Bit(poly, 1)
  {
    Doubled(poly);
    OneHalved();
    XorZero(poly);
    hide Odd, Half, Xor, Top;
  }

  lemma Doubled(poly: bv32)
    requires !Top(poly)
    ensures poly << 1 != 1 && !Odd(poly << 1) && Half(poly << 1) == poly
  {
  }

  lemma OneHalved()
    ensures Odd(1) && Half(1) == 0
  {
  }

  lemma XorZero(a: bv32)
    ensures Xor(a, 0) == a
  {
  }

  lemma {:induction false} BitsInjective(poly: bv32, a: bv32, b: bv32, n: nat)
    requires Top(poly) && Bits(poly, a, n) == Bits(poly, b, n)
    ensures a == b
  {
    hide Bit, Top;
    if n > 0 {
      BitInjective(poly, Bits(poly, a, n - 1), Bits(poly, b, n - 1));
      BitsInjective(poly, a, b, n - 1);
    }
  }

  lemma XorInjective(a: bv32, b: bv32, c: bv32)
    ensures Xor(a, c) == Xor(b, c) ==> a == b
    ensures Xor(c, a) == Xor(c, b) ==> a == b
  {
    XorCancels(c, a);
    XorCancels(c, b);
    XorCommutes(a, c);
    XorCommutes(b, c);
    hide Xor;
  }

  lemma {:induction false} PlainInjective(poly: bv32, a: bv32, b: bv32, data: seq<Byte>)
    requires Top(poly) && Plain(poly, a, data) == Plain(poly, b, data)
    ensures a == b
  {
    hide Top, Xor, Bits;
    if data != [] {
      var init, last := data[..|data| - 1], data[|data| - 1] as bv32;
      BitsInjective(poly, Xor(Plain(poly, a, init), last), Xor(Plain(poly, b, init), last), 8);
      XorInjective(Plain(poly, a, init), Plain(poly, b, init), last);
      PlainInjective(poly, a, b, init);
    }
  }

  lemma BytesDiffer(x: Byte, y: Byte, p: bv32)
    requires x != y
    ensures Xor(p, x as bv32) != Xor(p, y as bv32)
  {
    assert (x as bv32) != (y as bv32);
    XorInjective(x as bv32, y as bv32, p);
    hide Xor;
  }

  lemma PlainNext(poly: bv32, crc: bv32, data: seq<Byte>, x: Byte)
    ensures Plain(poly, crc, data + [x]) == Bits(poly, Xor(Plain(poly, crc, data), x as bv32), 8)
  {
    hide Bits, Xor;
    assert (data + [x])[..|data|] == data;
  }

  /** Two messages that differ in one byte, whichever and however, have different checksums. */
  lemma OneByteShows(poly: bv32, ext: bv32, before: seq<Byte>, x: Byte, y: Byte, after: seq<Byte>)
    requires Top(poly) && x != y
    ensures Crc(poly, ext, before + [x] + after) != Crc(poly, ext, before + [y] + after)
  {
    hide Top, Xor, Bits, Not, Plain;
    var crc := Not(ext);
    var p := Plain(poly, crc, before);
    PlainConcat(poly, crc, before + [x], after);
    PlainConcat(poly, crc, before + [y], after);
    PlainNext(poly, crc, before, x);
    PlainNext(poly, crc, before, y);
    var a, b := Plain(poly, crc, before + [x]), Plain(poly, crc, before + [y]);
    NotNot(Plain(poly, a, after));
    NotNot(Plain(poly, b, after));
    BytesDiffer(x, y, p);
    StaysApart(poly, Xor(p, x as bv32), Xor(p, y as bv32), after);
  }

  lemma StaysApart(poly: bv32, a: bv32, b: bv32, after: seq<Byte>)
    requires Top(poly) && a != b
    ensures Plain(poly, Bits(poly, a, 8), after) != Plain(poly, Bits(poly, b, 8), after)
  {
    hide Top, Bits, Plain;
    if Bits(poly, a, 8) == Bits(poly, b, 8) {
      BitsInjective(poly, a, b, 8);
    } else if Plain(poly, Bits(poly, a, 8), after) == Plain(poly, Bits(poly, b, 8), after) {
      PlainInjective(poly, Bits(poly, a, 8), Bits(poly, b, 8), after);
    }
  }

  /** The polynomial of ISO 3309. */
  lemma IsoHasTop()
    ensures Top(0xEDB8_8320)
  {
  }
}
