/** The kernel log: a byte ring of variable-size records that refines an ever-growing list of them. */
module LogRing {
  import Arith

  type Byte = b: int | 0 <= b < 256

  const RECORD_ALIGN: nat := 8
  const HEADER_SIZE: nat := 24
  const PADDING_SIZE: nat := 0xFFFF
  const TWO_64: nat := 0x1_0000_0000_0000_0000

  /** The fields of a record's header, as wide as the structure has them. */
  datatype Header = Header(seqNo: nat, timeNs: nat, size: nat, subsystem: nat, level: nat, flags: nat)

  datatype Entry = Entry(header: Header, text: seq<Byte>)

  predicate Fits(h: Header)
  {
    && h.seqNo < TWO_64 && h.timeNs < TWO_64
    && h.size < 0x1_0000 && h.subsystem < 0x1_0000
    && h.level < 0x100 && h.flags < 0x100
  }

  // ---------------------------------------------------------------------------------------------
  // The header as bytes

  function Pow256(k: nat): nat { if k == 0 then 1 else 256 * Pow256(k - 1) }

  function LittleEndian(n: nat, k: nat): (b: seq<Byte>)
    ensures |b| == k
  {
    if k == 0 then [] else [n % 256] + LittleEndian(n / 256, k - 1)
  }

  function FromLittleEndian(b: seq<Byte>): nat
  {
    if b == [] then 0 else b[0] + 256 * FromLittleEndian(b[1..])
  }

  lemma {:induction false} LittleEndianInverse(n: nat, k: nat)
    requires n < Pow256(k)
    ensures FromLittleEndian(LittleEndian(n, k)) == n
  {
    if k > 0 {
      LittleEndianInverse(n / 256, k - 1);
      assert LittleEndian(n, k)[1..] == LittleEndian(n / 256, k - 1);
    }
  }

  function Encode(h: Header): (b: seq<Byte>)
    ensures |b| == HEADER_SIZE
  {
    LittleEndian(h.seqNo, 8) + LittleEndian(h.timeNs, 8) + LittleEndian(h.size, 2) + LittleEndian(h.subsystem, 2)
    + LittleEndian(h.level, 1) + LittleEndian(h.flags, 1) + [0, 0]
  }

  function Decode(b: seq<Byte>): Header
    requires |b| == HEADER_SIZE
  {
    Header(FromLittleEndian(b[..8]), FromLittleEndian(b[8..16]), FromLittleEndian(b[16..18]),
           FromLittleEndian(b[18..20]), FromLittleEndian(b[20..21]), FromLittleEndian(b[21..22]))
  }

  lemma DecodeEncode(h: Header)
    requires Fits(h)
    ensures Decode(Encode(h)) == h
  {
    var b := Encode(h);
    assert Pow256(8) == TWO_64 by {
      assert Pow256(4) == 0x1_0000_0000;
    }
    assert Pow256(2) == 0x1_0000 && Pow256(1) == 0x100;
    assert b[..8] == LittleEndian(h.seqNo, 8);
    assert b[8..16] == LittleEndian(h.timeNs, 8);
    assert b[16..18] == LittleEndian(h.size, 2);
    assert b[18..20] == LittleEndian(h.subsystem, 2);
    assert b[20..21] == LittleEndian(h.level, 1);
    assert b[21..22] == LittleEndian(h.flags, 1);
    LittleEndianInverse(h.seqNo, 8);
    LittleEndianInverse(h.timeNs, 8);
    LittleEndianInverse(h.size, 2);
    LittleEndianInverse(h.subsystem, 2);
    LittleEndianInverse(h.level, 1);
    LittleEndianInverse(h.flags, 1);
  }

  // ---------------------------------------------------------------------------------------------
  // The layout: where each record goes is a function of the sizes before it

  predicate Aligned(n: nat) { n % RECORD_ALIGN == 0 }

  /** The mask in the source, as a division. */
  function Footprint(textSize: nat): (f: nat)
    ensures HEADER_SIZE + textSize <= f < HEADER_SIZE + textSize + RECORD_ALIGN && Aligned(f)
  {
    (HEADER_SIZE + textSize + RECORD_ALIGN - 1) / RECORD_ALIGN * RECORD_ALIGN
  }

  /** The static assertions on the configuration. */
  predicate ValidSizes(bufSize: nat, lineMax: nat)
  {
    lineMax < PADDING_SIZE && Aligned(bufSize) && bufSize >= 2 * (HEADER_SIZE + lineMax)
  }

  function Offset(b: nat, p: nat): (o: nat)
    requires b > 0
    ensures o < b
  {
    p % b
  }

  function Padding(bufSize: nat, position: nat, footprint: nat): nat
    requires bufSize > 0
  {
    var remaining := bufSize - Offset(bufSize, position);
    if remaining < footprint then remaining else 0
  }

  /** The byte position a cursor on record k has, in front of any padding. */
  function Pos(bufSize: nat, log: seq<Entry>, k: nat): nat
    requires bufSize > 0 && k <= |log|
    decreases k, 0
  {
    if k == 0 then 0 else Start(bufSize, log, k - 1) + Footprint(|log[k - 1].text|)
  }

  /** The byte position record k starts at. */
  function Start(bufSize: nat, log: seq<Entry>, k: nat): nat
    requires bufSize > 0 && k < |log|
    decreases k, 1
  {
    var p := Pos(bufSize, log, k);
    p + Padding(bufSize, p, Footprint(|log[k].text|))
  }

  /** Twice the longest record is enough, rounded or not: the padding is at least one unit shorter than the record. */
  lemma RoundingBound(bufSize: nat, longest: nat, footprint: nat, padding: nat)
    requires Aligned(bufSize) && Aligned(footprint) && Aligned(padding)
    requires footprint < longest + RECORD_ALIGN && bufSize >= 2 * longest && padding < footprint
    ensures padding + footprint <= bufSize
  {
    Arith.DivideExact(bufSize, RECORD_ALIGN);
    Arith.DivideExact(footprint, RECORD_ALIGN);
    Arith.DivideExact(padding, RECORD_ALIGN);
    UnitsBound(bufSize / RECORD_ALIGN, longest, footprint / RECORD_ALIGN, padding / RECORD_ALIGN);
  }

  lemma UnitsBound(b: nat, longest: nat, f: nat, p: nat)
    requires f * RECORD_ALIGN < longest + RECORD_ALIGN && b * RECORD_ALIGN >= 2 * longest && p < f
    ensures p * RECORD_ALIGN + f * RECORD_ALIGN <= b * RECORD_ALIGN
  {
    assert 2 * f < b + 2 by { assert 2 * (f * RECORD_ALIGN) < b * RECORD_ALIGN + 2 * RECORD_ALIGN; }
    assert p + f <= b;
  }

  /** However the padding falls, a record and the padding in front of it fit in an empty ring. */
  lemma RoomForLongest(bufSize: nat, lineMax: nat, position: nat, size: nat)
    requires ValidSizes(bufSize, lineMax) && size <= lineMax && Aligned(position)
    ensures Footprint(size) <= bufSize
    ensures Padding(bufSize, position, Footprint(size)) + Footprint(size) <= bufSize
  {
    var f := Footprint(size);
    PaddingAligned(bufSize, position, f);
    RoundingBound(bufSize, HEADER_SIZE + lineMax, f, 0);
    if Padding(bufSize, position, f) != 0 {
      RoundingBound(bufSize, HEADER_SIZE + lineMax, f, Padding(bufSize, position, f));
    }
  }

  ghost predicate FitsAnywhere(bufSize: nat, footprint: nat)
    requires bufSize > 0
  {
    forall p: nat | Aligned(p) :: Padding(bufSize, p, footprint) + footprint <= bufSize
  }

  /** What the ring must hold for that, no more and no less. */
  lemma RoomExactly(bufSize: nat, size: nat)
    requires bufSize > 0 && Aligned(bufSize)
    ensures FitsAnywhere(bufSize, Footprint(size)) <==> bufSize >= 2 * Footprint(size) - RECORD_ALIGN
  {
    var f := Footprint(size);
    if bufSize >= 2 * f - RECORD_ALIGN {
      forall p: nat | Aligned(p) ensures Padding(bufSize, p, f) + f <= bufSize {
        PaddingAligned(bufSize, p, f);
        var padding := Padding(bufSize, p, f);
        assert padding < f ==> padding <= f - RECORD_ALIGN by { assert Aligned(padding) && Aligned(f); }
      }
    } else {
      var p := if bufSize < f then 0 else bufSize - (f - RECORD_ALIGN);
      assert Aligned(p) by { assert Aligned(bufSize) && Aligned(f); }
      assert Offset(bufSize, p) == p by { Arith.DivModUnique(p, 0, p, bufSize); }
      assert Padding(bufSize, p, f) + f > bufSize;
    }
  }

  /** The limits for which the static assertions are tight: their least ring will do, one unit less would not. */
  lemma AssertionTight(lineMax: nat)
    requires lineMax < PADDING_SIZE && 1 <= lineMax % RECORD_ALIGN <= 4
    ensures var least := 2 * Footprint(lineMax) - RECORD_ALIGN;
            ValidSizes(least, lineMax) && !ValidSizes(least - RECORD_ALIGN, lineMax)
            && FitsAnywhere(least, Footprint(lineMax)) && !FitsAnywhere(least - RECORD_ALIGN, Footprint(lineMax))
  {
    var f := Footprint(lineMax);
    RoundedUp(lineMax, lineMax / RECORD_ALIGN, lineMax % RECORD_ALIGN);
    hide Footprint, FitsAnywhere;
    RoomExactly(2 * f - RECORD_ALIGN, lineMax);
    RoomExactly(2 * f - 2 * RECORD_ALIGN, lineMax);
  }

  lemma RoundedUp(size: nat, units: nat, rest: nat)
    requires size == RECORD_ALIGN * units + rest && 1 <= rest <= 4
    ensures var f := Footprint(size);
            f == RECORD_ALIGN * (units + 4) && Aligned(2 * f - RECORD_ALIGN) && Aligned(2 * f - 2 * RECORD_ALIGN)
            && 2 * f - 2 * RECORD_ALIGN < 2 * (HEADER_SIZE + size) <= 2 * f - RECORD_ALIGN
  {
    var f := RECORD_ALIGN * (units + 4);
    Arith.DivModUnique(HEADER_SIZE + size + RECORD_ALIGN - 1, units + 4, rest - 1, RECORD_ALIGN);
    Arith.DivModUnique(2 * f - RECORD_ALIGN, 2 * units + 7, 0, RECORD_ALIGN);
    Arith.DivModUnique(2 * f - 2 * RECORD_ALIGN, 2 * units + 6, 0, RECORD_ALIGN);
  }

  lemma OffsetAligned(bufSize: nat, position: nat)
    requires bufSize > 0 && Aligned(bufSize) && Aligned(position)
    ensures Aligned(Offset(bufSize, position))
  {
    var q, m := position / bufSize, bufSize / RECORD_ALIGN;
    assert position % bufSize == position - q * bufSize;
    assert q * bufSize == RECORD_ALIGN * (q * m);
  }

  lemma {:induction false} PosStable(bufSize: nat, log: seq<Entry>, more: seq<Entry>, k: nat)
    requires bufSize > 0 && k <= |log|
    ensures Pos(bufSize, log + more, k) == Pos(bufSize, log, k)
    ensures k < |log| ==> Start(bufSize, log + more, k) == Start(bufSize, log, k)
  {
    hide Offset, Footprint;
    if k > 0 { PosStable(bufSize, log, more, k - 1); }
  }

  lemma {:induction false} PosMonotone(bufSize: nat, log: seq<Entry>, i: nat, k: nat)
    requires bufSize > 0 && i <= k <= |log|
    ensures Pos(bufSize, log, i) <= Pos(bufSize, log, k)
    ensures i < k ==> Start(bufSize, log, i) + Footprint(|log[i].text|) <= Pos(bufSize, log, k)
    decreases k - i
  {
    hide Offset, Footprint;
    if i < k { PosMonotone(bufSize, log, i + 1, k); }
  }

  lemma {:induction false} PosAligned(bufSize: nat, log: seq<Entry>, k: nat)
    requires bufSize > 0 && Aligned(bufSize) && k <= |log|
    ensures Aligned(Pos(bufSize, log, k))
  {
    hide Offset, Footprint, Padding, Aligned;
    if k > 0 {
      PosAligned(bufSize, log, k - 1);
      var p, f := Pos(bufSize, log, k - 1), Footprint(|log[k - 1].text|);
      PaddingAligned(bufSize, p, f);
      AlignedSum(p, Padding(bufSize, p, f), f);
    } else {
      assert Aligned(0) by { AlignedSum(0, 0, 0); }
    }
  }

  lemma AlignedSum(a: nat, b: nat, c: nat)
    ensures Aligned(a) && Aligned(b) && Aligned(c) ==> Aligned(a + b + c)
    ensures Aligned(0)
  {
    if Aligned(a) && Aligned(b) && Aligned(c) {
      var x, y, z := a / RECORD_ALIGN, b / RECORD_ALIGN, c / RECORD_ALIGN;
      Arith.DivModUnique(a + b + c, x + y + z, 0, RECORD_ALIGN);
    }
  }

  lemma OffsetShift(p: nat, d: nat, b: nat)
    requires b > 0 && d <= b
    ensures Offset(b, p + d) == if Offset(b, p) + d < b then Offset(b, p) + d else Offset(b, p) + d - b
  {
    var q, o := p / b, p % b;
    assert p == q * b + o;
    if o + d < b {
      Arith.DivModUnique(p + d, q, o + d, b);
    } else {
      assert (q + 1) * b == q * b + b;
      Arith.DivModUnique(p + d, q + 1, o + d - b, b);
    }
  }

  lemma PaddingAligned(bufSize: nat, p: nat, f: nat)
    requires bufSize > 0 && Aligned(bufSize) && Aligned(p)
    ensures Aligned(Padding(bufSize, p, f))
  {
    hide Offset;
    OffsetAligned(bufSize, p);
  }

  /** A record starts where it fits without wrapping around, with all of it and its padding within one turn. */
  lemma PlaceFits(bufSize: nat, lineMax: nat, p: nat, size: nat)
    requires bufSize > 0 && ValidSizes(bufSize, lineMax) && size <= lineMax && Aligned(p)
    ensures var padding := Padding(bufSize, p, Footprint(size));
            && padding + Footprint(size) <= bufSize
            && (padding == 0 || Offset(bufSize, p) + padding == bufSize)
            && Offset(bufSize, p + padding) + Footprint(size) <= bufSize
  {
    hide Offset, Footprint;
    RoomForLongest(bufSize, lineMax, p, size);
    OffsetShift(p, Padding(bufSize, p, Footprint(size)), bufSize);
  }

  lemma StartFits(bufSize: nat, lineMax: nat, log: seq<Entry>, k: nat)
    requires bufSize > 0 && ValidSizes(bufSize, lineMax) && k < |log| && |log[k].text| <= lineMax
    ensures Offset(bufSize, Start(bufSize, log, k)) + Footprint(|log[k].text|) <= bufSize
    ensures Start(bufSize, log, k) != Pos(bufSize, log, k) ==>
              Start(bufSize, log, k) == Pos(bufSize, log, k) + (bufSize - Offset(bufSize, Pos(bufSize, log, k)))
  {
    hide Offset, Footprint;
    PosAligned(bufSize, log, k);
    PlaceFits(bufSize, lineMax, Pos(bufSize, log, k), |log[k].text|);
  }

  /** Two stretches of positions within one turn of the ring share no byte. */
  lemma Disjoint(p: nat, n: nat, q: nat, m: nat, b: nat)
    requires b > 0 && p + n <= q && q + m <= p + b
    requires Offset(b, p) + n <= b && Offset(b, q) + m <= b
    ensures Offset(b, p) + n <= Offset(b, q) || Offset(b, q) + m <= Offset(b, p)
  {
    OffsetShift(p, q - p, b);
  }

  // ---------------------------------------------------------------------------------------------
  // The ring's contents

  /** The n bytes at a position, which do not wrap around. */
  ghost predicate Unbroken(bufSize: nat, position: nat, n: nat)
    requires bufSize > 0
  {
    Offset(bufSize, position) + n <= bufSize
  }

  ghost function Bytes(ring: seq<Byte>, position: nat, n: nat): (b: seq<Byte>)
    requires |ring| > 0 && Unbroken(|ring|, position, n)
    ensures |b| == n
  {
    ring[Offset(|ring|, position)..Offset(|ring|, position) + n]
  }

  ghost predicate Encodes(data: seq<Byte>, e: Entry)
  {
    |data| == HEADER_SIZE + |e.text| && Decode(data[..HEADER_SIZE]) == e.header && data[HEADER_SIZE..] == e.text
  }

  ghost predicate IsMarker(data: seq<Byte>) { |data| == HEADER_SIZE && Decode(data).size == PADDING_SIZE }

  ghost function Extent(e: Entry): nat { HEADER_SIZE + |e.text| }

  /** A record that starts at s, and the padding in front of it from p on, are in place. */
  ghost predicate InPlaceAt(ring: seq<Byte>, p: nat, s: nat, e: Entry)
    requires |ring| > 0
  {
    && Unbroken(|ring|, s, Extent(e))
    && Encodes(Bytes(ring, s, Extent(e)), e)
    && (s != p && Unbroken(|ring|, p, HEADER_SIZE) ==> IsMarker(Bytes(ring, p, HEADER_SIZE)))
  }

  ghost predicate InPlace(ring: seq<Byte>, log: seq<Entry>, k: nat)
    requires |ring| > 0 && k < |log|
  {
    InPlaceAt(ring, Pos(|ring|, log, k), Start(|ring|, log, k), log[k])
  }

  ghost predicate WellFormedLog(log: seq<Entry>, lineMax: nat)
  {
    forall k | 0 <= k < |log| ::
      log[k].header.seqNo == k && log[k].header.size == |log[k].text| <= lineMax && Fits(log[k].header)
  }

  function Put(ring: seq<Byte>, offset: nat, data: seq<Byte>): (r: seq<Byte>)
    requires offset + |data| <= |ring|
    ensures |r| == |ring|
  {
    ring[..offset] + data + ring[offset + |data|..]
  }

  lemma PutTwice(ring: seq<Byte>, offset: nat, a: seq<Byte>, b: seq<Byte>)
    requires offset + |a| + |b| <= |ring|
    ensures Put(Put(ring, offset, a), offset + |a|, b) == Put(ring, offset, a + b)
  {
  }

  ghost function PutAt(ring: seq<Byte>, q: nat, data: seq<Byte>): (r: seq<Byte>)
    requires |ring| > 0 && Unbroken(|ring|, q, |data|)
    ensures |r| == |ring|
  {
    Put(ring, Offset(|ring|, q), data)
  }

  lemma PutReads(ring: seq<Byte>, q: nat, data: seq<Byte>)
    requires |ring| > 0 && Unbroken(|ring|, q, |data|)
    ensures Bytes(PutAt(ring, q, data), q, |data|) == data
  {
    hide Offset;
  }

  /** A write further on, within one turn, leaves what lies before it. */
  lemma PutKeeps(ring: seq<Byte>, p: nat, n: nat, q: nat, data: seq<Byte>)
    requires |ring| > 0 && Unbroken(|ring|, p, n) && Unbroken(|ring|, q, |data|)
    requires p + n <= q && q + |data| <= p + |ring|
    ensures Bytes(PutAt(ring, q, data), p, n) == Bytes(ring, p, n)
  {
    hide Offset;
    Disjoint(p, n, q, |data|, |ring|);
  }

  /** Writing at q leaves a record before it in place, and its padding. */
  lemma PutKeepsRecord(ring: seq<Byte>, p: nat, s: nat, e: Entry, q: nat, data: seq<Byte>)
    requires |ring| > 0 && InPlaceAt(ring, p, s, e)
    requires s == p || s == p + (|ring| - Offset(|ring|, p))
    requires s + Extent(e) <= q && q + |data| <= p + |ring| && Unbroken(|ring|, q, |data|)
    ensures InPlaceAt(PutAt(ring, q, data), p, s, e)
  {
    hide Offset, Decode;
    PutKeeps(ring, s, Extent(e), q, data);
    if s != p && Unbroken(|ring|, p, HEADER_SIZE) {
      PutKeeps(ring, p, HEADER_SIZE, q, data);
    }
  }

  lemma InPlaceStable(ring: seq<Byte>, log: seq<Entry>, e: Entry, k: nat)
    requires |ring| > 0 && k < |log|
    ensures InPlace(ring, log + [e], k) == InPlace(ring, log, k)
  {
    hide Offset, Decode, Footprint, Padding;
    PosStable(|ring|, log, [e], k);
  }

  /** Where an append puts a record. */
  lemma StartOfNew(bufSize: nat, lineMax: nat, log: seq<Entry>, e: Entry, head: nat, padding: nat)
    requires bufSize > 0 && ValidSizes(bufSize, lineMax) && |e.text| <= lineMax
    requires head == Pos(bufSize, log, |log|) && padding == Padding(bufSize, head, Footprint(|e.text|))
    ensures Pos(bufSize, log + [e], |log|) == head
    ensures Start(bufSize, log + [e], |log|) == head + padding
    ensures Pos(bufSize, log + [e], |log| + 1) == head + padding + Footprint(|e.text|)
    ensures padding + Footprint(|e.text|) <= bufSize
    ensures padding == 0 || Offset(bufSize, head) + padding == bufSize
    ensures Unbroken(bufSize, head + padding, Extent(e))
  {
    hide Offset, Footprint;
    PosStable(bufSize, log, [e], |log|);
    PosAligned(bufSize, log, |log|);
    PlaceFits(bufSize, lineMax, head, |e.text|);
  }

  /** The ring after the marker, if there is room for one, and the record are written. */
  ghost function Extended(ring: seq<Byte>, head: nat, padding: nat, marker: seq<Byte>, data: seq<Byte>): (r: seq<Byte>)
    requires |ring| > 0 && (padding == 0 || Offset(|ring|, head) + padding == |ring|) && |marker| == HEADER_SIZE
    requires Unbroken(|ring|, head + padding, |data|)
    ensures |r| == |ring|
  {
    PutAt(if padding >= HEADER_SIZE then PutAt(ring, head, marker) else ring, head + padding, data)
  }

  /** A record that ended before the head is still in place. */
  lemma ExtendedKeeps(ring: seq<Byte>, p: nat, s: nat, e: Entry, head: nat, padding: nat, marker: seq<Byte>, data: seq<Byte>)
    requires |ring| > 0 && InPlaceAt(ring, p, s, e)
    requires s == p || s == p + (|ring| - Offset(|ring|, p))
    requires (padding == 0 || Offset(|ring|, head) + padding == |ring|) && |marker| == HEADER_SIZE
    requires Unbroken(|ring|, head + padding, |data|)
    requires s + Extent(e) <= head && head + padding + |data| <= p + |ring|
    ensures InPlaceAt(Extended(ring, head, padding, marker, data), p, s, e)
  {
    hide Offset, Decode;
    if padding >= HEADER_SIZE {
      PutKeepsRecord(ring, p, s, e, head, marker);
      PutKeepsRecord(PutAt(ring, head, marker), p, s, e, head + padding, data);
    } else {
      PutKeepsRecord(ring, p, s, e, head + padding, data);
    }
  }

  /** The new record is in place, behind its padding. */
  lemma ExtendedPlaces(ring: seq<Byte>, e: Entry, head: nat, padding: nat, marker: seq<Byte>, data: seq<Byte>)
    requires |ring| > 0 && (padding == 0 || Offset(|ring|, head) + padding == |ring|)
    requires IsMarker(marker) && Encodes(data, e)
    requires Unbroken(|ring|, head + padding, |data|) && padding + |data| <= |ring|
    ensures InPlaceAt(Extended(ring, head, padding, marker, data), head, head + padding, e)
  {
    hide Offset, Decode;
    if padding >= HEADER_SIZE {
      PutReads(ring, head, marker);
      PutReads(PutAt(ring, head, marker), head + padding, data);
      PutKeeps(PutAt(ring, head, marker), head, HEADER_SIZE, head + padding, data);
    } else {
      PutReads(ring, head + padding, data);
    }
  }

  /** No append writes a byte of a live record. */
  lemma AppendKeeps(ring: seq<Byte>, lineMax: nat, log: seq<Entry>, e: Entry, first: nat, head: nat, padding: nat,
                    marker: seq<Byte>, data: seq<Byte>, k: nat)
    requires |ring| > 0 && ValidSizes(|ring|, lineMax) && first <= k < |log|
    requires |log[k].text| <= lineMax && InPlace(ring, log, k)
    requires (padding == 0 || Offset(|ring|, head) + padding == |ring|) && |marker| == HEADER_SIZE
    requires head == Pos(|ring|, log, |log|) && Unbroken(|ring|, head + padding, |data|)
    requires head + padding + |data| <= Pos(|ring|, log, first) + |ring|
    ensures InPlace(Extended(ring, head, padding, marker, data), log + [e], k)
  {
    hide Offset, Decode, Footprint, Padding;
    PosMonotone(|ring|, log, first, k);
    PosMonotone(|ring|, log, k, |log|);
    StartFits(|ring|, lineMax, log, k);
    ExtendedKeeps(ring, Pos(|ring|, log, k), Start(|ring|, log, k), log[k], head, padding, marker, data);
    InPlaceStable(Extended(ring, head, padding, marker, data), log, e, k);
  }

  /** The new record reads back whole. */
  lemma AppendPlaces(ring: seq<Byte>, lineMax: nat, log: seq<Entry>, e: Entry, head: nat, padding: nat,
                     marker: seq<Byte>, data: seq<Byte>)
    requires |ring| > 0 && ValidSizes(|ring|, lineMax) && |e.text| <= lineMax && IsMarker(marker) && Encodes(data, e)
    requires head == Pos(|ring|, log, |log|) && padding == Padding(|ring|, head, Footprint(|e.text|))
    ensures padding == 0 || Offset(|ring|, head) + padding == |ring|
    ensures Unbroken(|ring|, head + padding, |data|)
    ensures InPlace(Extended(ring, head, padding, marker, data), log + [e], |log|)
  {
    hide Offset, Decode, Footprint, Padding, Pos, Start, Extended, ValidSizes, IsMarker;
    StartOfNew(|ring|, lineMax, log, e, head, padding);
    ExtendedPlaces(ring, e, head, padding, marker, data);
  }

  /** What the header at a cursor's position reads as, if there is one: padding exactly if the record starts further on. */
  lemma PeekSize(ring: seq<Byte>, p: nat, s: nat, e: Entry)
    requires |ring| > 0 && InPlaceAt(ring, p, s, e) && e.header.size != PADDING_SIZE
    requires Unbroken(|ring|, p, HEADER_SIZE)
    ensures Decode(Bytes(ring, p, HEADER_SIZE)).size == PADDING_SIZE <==> s != p
  {
    hide Offset, Decode;
    if s == p {
      HeaderReads(ring, p, s, e);
    }
  }

  lemma HeaderReads(ring: seq<Byte>, p: nat, s: nat, e: Entry)
    requires |ring| > 0 && InPlaceAt(ring, p, s, e)
    ensures var o := Offset(|ring|, s);
            && o + HEADER_SIZE + |e.text| <= |ring|
            && Decode(ring[o..o + HEADER_SIZE]) == e.header
            && ring[o + HEADER_SIZE..o + HEADER_SIZE + |e.text|] == e.text
  {
    hide Offset, Decode;
    var o := Offset(|ring|, s);
    var whole := ring[o..o + Extent(e)];
    assert ring[o..o + HEADER_SIZE] == whole[..HEADER_SIZE];
    assert ring[o + HEADER_SIZE..o + Extent(e)] == whole[HEADER_SIZE..];
  }

  lemma {:induction false} SeqBelowPos(bufSize: nat, log: seq<Entry>, k: nat)
    requires bufSize > 0 && k <= |log|
    ensures k <= Pos(bufSize, log, k)
  {
    hide Offset, Footprint;
    if k > 0 { SeqBelowPos(bufSize, log, k - 1); }
  }

  // ---------------------------------------------------------------------------------------------
  // The ring and its cursors

  /** A cursor's fields: on record seqNo, or on a record the ring has dropped. */
  ghost predicate Placed(bufSize: nat, log: seq<Entry>, first: nat, seqNo: nat, position: nat)
    requires bufSize > 0
  {
    seqNo <= |log| && (seqNo >= first ==> position == Pos(bufSize, log, seqNo))
  }

  /** Appends and drops never misplace a cursor. */
  lemma CursorSurvives(bufSize: nat, log: seq<Entry>, first: nat, log2: seq<Entry>, first2: nat, seqNo: nat, position: nat)
    requires bufSize > 0 && Placed(bufSize, log, first, seqNo, position) && log <= log2 && first <= first2
    ensures Placed(bufSize, log2, first2, seqNo, position)
  {
    assert log2 == log + log2[|log|..];
    PosStable(bufSize, log, log2[|log|..], seqNo);
  }

  class Cursor {
    var seqNo: nat
    var position: nat

    constructor ()
      ensures seqNo == 0 && position == 0
    {
      seqNo, position := 0, 0;
    }
  }

  ghost predicate AllInPlace(ring: seq<Byte>, log: seq<Entry>, first: nat)
    requires |ring| > 0
  {
    forall k | first <= k < |log| :: InPlace(ring, log, k)
  }

  class Ring {
    const lineMax: nat
    const ring: array<Byte>
    var head: nat
    var tail: nat
    var firstSeq: nat
    var nextSeq: nat
    ghost var log: seq<Entry>   // Every record ever appended

    /** What holds throughout, also while an append makes room. */
    ghost predicate Laid()
      reads this, ring
    {
      && ring.Length > 0 && ValidSizes(ring.Length, lineMax)
      && WellFormedLog(log, lineMax)
      && firstSeq <= nextSeq == |log|
      && tail == Pos(ring.Length, log, firstSeq)
      && head == Pos(ring.Length, log, nextSeq)
      && head - tail <= ring.Length && head < TWO_64
      && AllInPlace(ring[..], log, firstSeq)
    }

    /** The newest record is never dropped. */
    ghost predicate Valid()
      reads this, ring
    {
      Laid() && (log != [] ==> firstSeq < nextSeq)
    }

    constructor (bufSize: nat, lineMax: nat)
      requires ValidSizes(bufSize, lineMax)
      ensures Valid() && log == [] && head == 0 && this.lineMax == lineMax && ring.Length == bufSize && fresh(ring)
    {
      this.lineMax := lineMax;
      ring := new Byte[bufSize](_ => 0);
      head, tail, firstSeq, nextSeq := 0, 0, 0, 0;
      log := [];
    }

    /** memcpy into the ring. */
    method Write(offset: nat, data: seq<Byte>)
      requires offset + |data| <= ring.Length
      modifies ring
      ensures ring[..] == Put(old(ring[..]), offset, data)
    {
      for i := 0 to |data|
        invariant forall j | 0 <= j < i :: ring[offset + j] == data[j]
        invariant forall j | 0 <= j < ring.Length && !(offset <= j < offset + i) :: ring[j] == old(ring[j])
      {
        ring[offset + i] := data[i];
      }
    }

    method ReadHeader(offset: nat) returns (h: Header)
      requires Laid() && offset + HEADER_SIZE <= ring.Length
      ensures h == Decode(ring[..][offset..offset + HEADER_SIZE])
    {
      assert ring[offset..offset + HEADER_SIZE] == ring[..][offset..offset + HEADER_SIZE];
      h := Decode(ring[offset..offset + HEADER_SIZE]);
    }

    /** Where record k starts, from where a cursor on it stands. */
    method SkipPadding(position: nat, ghost k: nat) returns (start: nat)
      requires Laid() && firstSeq <= k < nextSeq && position == Pos(ring.Length, log, k)
      ensures start == Start(ring.Length, log, k)
    {
      hide Offset, Decode, Encode, Footprint;
      var offset := Offset(ring.Length, position);
      var remaining := ring.Length - offset;
      StartFits(ring.Length, lineMax, log, k);
      assert InPlace(ring[..], log, k);
      if remaining < HEADER_SIZE {
        return position + remaining;
      }
      PeekSize(ring[..], position, Start(ring.Length, log, k), log[k]);
      var h := ReadHeader(offset);
      if h.size == PADDING_SIZE {
        return position + remaining;
      }
      return position;
    }

    method DropOldest()
      requires Laid() && firstSeq < nextSeq
      modifies this`tail, this`firstSeq
      ensures Laid() && firstSeq == old(firstSeq) + 1
    {
      hide Offset, Decode, Encode, Footprint;
      var next := PastRecord(tail, firstSeq);
      PosMonotone(ring.Length, log, firstSeq, firstSeq + 1);
      PosMonotone(ring.Length, log, firstSeq + 1, nextSeq);
      tail := next;
      firstSeq := firstSeq + 1;
    }

    /** Drops from the tail until the ring has room, and no further; it never runs dry before that. */
    method MakeRoom(needed: nat)
      requires Laid() && needed <= ring.Length
      modifies this`tail, this`firstSeq
      ensures Laid() && firstSeq >= old(firstSeq) && needed <= ring.Length - (head - tail)
      ensures firstSeq > old(firstSeq) ==> ring.Length - (head - Pos(ring.Length, log, firstSeq - 1)) < needed
    {
      hide Offset, Decode, Encode, Footprint;
      while ring.Length - (head - tail) < needed
        invariant Laid() && firstSeq >= old(firstSeq)
        invariant firstSeq > old(firstSeq) ==> ring.Length - (head - Pos(ring.Length, log, firstSeq - 1)) < needed
        decreases nextSeq - firstSeq
      {
        DropOldest();
      }
    }

    /** The counters are 64 bits wide. */
    ghost predicate CountersFit()
      reads this
    {
      head + 2 * ring.Length < TWO_64
    }

    method HeaderBytes(h: Header) returns (b: seq<Byte>)
      requires Laid() && Fits(h)
      ensures |b| == HEADER_SIZE && Decode(b) == h
    {
      DecodeEncode(h);
      b := Encode(h);
    }

    /** A padding header at the head if the record does not follow there and the header fits, then the record. */
    method WriteRecord(padding: nat, marker: seq<Byte>, code: seq<Byte>, text: seq<Byte>)
      requires ring.Length > 0 && (padding == 0 || Offset(ring.Length, head) + padding == ring.Length)
      requires Unbroken(ring.Length, head + padding, HEADER_SIZE + |text|) && |marker| == |code| == HEADER_SIZE
      modifies ring
      ensures ring[..] == Extended(old(ring[..]), head, padding, marker, code + text)
    {
      hide Offset, Put;
      var offset := Offset(ring.Length, head);
      if padding >= HEADER_SIZE {
        Write(offset, marker);
      }
      ghost var marked := ring[..];
      offset := Offset(ring.Length, head + padding);
      Write(offset, code);
      Write(offset + HEADER_SIZE, text);
      PutTwice(marked, offset, code, text);
    }

    method Append(subsystem: nat, level: nat, flags: nat, timeNs: nat, text: seq<Byte>)
      requires Valid() && CountersFit() && |text| <= lineMax && timeNs < TWO_64
      modifies this, ring
      ensures Valid() && firstSeq >= old(firstSeq)
      ensures log == old(log) + [Entry(Header(old(nextSeq), timeNs, |text|, subsystem % 0x1_0000, level % 0x100, flags % 0x100), text)]
      ensures firstSeq > old(firstSeq) ==> head - Pos(ring.Length, log, firstSeq - 1) > ring.Length
    {
      hide Offset, Decode, Encode, Footprint, Pos, Start, AllInPlace, WellFormedLog, Aligned;
      var footprint := Footprint(|text|);
      var offset := Offset(ring.Length, head);
      var padding := 0;
      if ring.Length - offset < footprint {
        padding := ring.Length - offset;
      }
      var h := Header(nextSeq, timeNs, |text|, subsystem % 0x1_0000, level % 0x100, flags % 0x100);
      StartOfNew(ring.Length, lineMax, log, Entry(h, text), head, padding);
      SeqBelowPos(ring.Length, log, nextSeq);
      MakeRoom(padding + footprint);
      if firstSeq > old(firstSeq) { PosStable(ring.Length, log, [Entry(h, text)], firstSeq - 1); }
      Commit(padding, footprint, h, text);
    }

    /** Writes the record where there is room for it, and only then moves the head. */
    method Commit(padding: nat, footprint: nat, h: Header, text: seq<Byte>)
      requires Laid() && Fits(h) && h.seqNo == nextSeq && h.size == |text| <= lineMax
      requires footprint == Footprint(|text|) && padding == Padding(ring.Length, head, footprint)
      requires padding + footprint <= ring.Length - (head - tail) && head + padding + footprint < TWO_64
      modifies this`head, this`nextSeq, this`log, ring
      ensures Valid() && log == old(log) + [Entry(h, text)] && head == old(head) + padding + footprint
    {
      hide Offset, Decode, Encode, Footprint, Extended, AllInPlace, Pos, WellFormedLog, Aligned, Padding;
      var marker := HeaderBytes(Header(0, 0, PADDING_SIZE, 0, 0, 0));
      var code := HeaderBytes(h);
      AppendAll(ring[..], lineMax, log, Entry(h, text), firstSeq, head, padding, marker, code);
      WriteRecord(padding, marker, code, text);
      log := log + [Entry(h, text)];
      head := head + padding + footprint;
      nextSeq := nextSeq + 1;
    }

    // -------------------------------------------------------------------------------------------
    // Cursors

    ghost predicate OnRecord(c: Cursor)
      reads this, c
    {
      ring.Length > 0 && Placed(ring.Length, log, firstSeq, c.seqNo, c.position)
    }

    method SeekFirst(c: Cursor)
      requires Valid()
      modifies c
      ensures OnRecord(c) && c.seqNo == firstSeq
    {
      hide Offset, Decode, Encode, Footprint;
      c.seqNo := firstSeq;
      c.position := tail;
    }

    method SeekEnd(c: Cursor)
      requires Valid()
      modifies c
      ensures OnRecord(c) && c.seqNo == nextSeq
    {
      hide Offset, Decode, Encode, Footprint;
      c.seqNo := nextSeq;
      c.position := head;
    }

    /** Numbers below the oldest record are accepted as they are; only those above the next one are refused. */
    method SeekSeq(c: Cursor, target: nat) returns (valid: bool)
      requires Valid()
      modifies c
      ensures valid <==> target <= nextSeq
      ensures valid ==> OnRecord(c) && c.seqNo == target
      ensures !valid ==> c.seqNo == old(c.seqNo) && c.position == old(c.position)
    {
      hide Offset, Decode, Encode, Footprint;
      valid := target <= nextSeq;
      if valid {
        var position, skipped := tail, firstSeq;
        while skipped < target
          invariant firstSeq <= skipped && (firstSeq <= target ==> skipped <= target)
          invariant target < firstSeq ==> skipped == firstSeq
          invariant skipped <= nextSeq && position == Pos(ring.Length, log, skipped)
        {
          position := PastRecord(position, skipped);
          skipped := skipped + 1;
        }
        c.seqNo := target;
        c.position := position;
      }
    }

    /** The position behind record k. */
    method PastRecord(position: nat, ghost k: nat) returns (next: nat)
      requires Valid() && firstSeq <= k < nextSeq && position == Pos(ring.Length, log, k)
      ensures next == Pos(ring.Length, log, k + 1)
    {
      hide Offset, Decode, Encode, Footprint;
      var start := SkipPadding(position, k);
      var offset := Offset(ring.Length, start);
      assert InPlace(ring[..], log, k);
      HeaderReads(ring[..], position, start, log[k]);
      var h := ReadHeader(offset);
      var footprint := Footprint(h.size);
      next := start + footprint;
    }

    /**
     * Whatever happened since the cursor was placed, it yields exactly the record it is on or, if that one was
     * dropped, the oldest; the assertion that the record has the cursor's number always holds.
     */
    method Read(c: Cursor) returns (found: bool, h: Header, text: seq<Byte>)
      requires Valid() && OnRecord(c)
      modifies c
      ensures var k := if old(c.seqNo) < firstSeq then firstSeq else old(c.seqNo);
              && (found <==> k < nextSeq)
              && (found ==> Entry(h, text) == log[k])
              && OnRecord(c) && c.seqNo == if found then k + 1 else k
    {
      hide Offset, Decode, Encode, Footprint, InPlaceAt, Aligned;
      if c.seqNo < firstSeq {
        c.seqNo := firstSeq;
        c.position := tail;
      }
      found := c.seqNo < nextSeq;
      h, text := Header(0, 0, 0, 0, 0, 0), [];
      if found {
        var start := SkipPadding(c.position, c.seqNo);
        var offset := Offset(ring.Length, start);
        assert InPlace(ring[..], log, c.seqNo);
        HeaderReads(ring[..], c.position, start, log[c.seqNo]);
        h := ReadHeader(offset);
        text := ring[..][offset + HEADER_SIZE..offset + HEADER_SIZE + h.size];
        assert h.seqNo == c.seqNo; // The source's own assertion
        var footprint := Footprint(h.size);
        c.seqNo := h.seqNo + 1;
        c.position := start + footprint;
      }
    }
  }

  lemma AppendAll(ring: seq<Byte>, lineMax: nat, log: seq<Entry>, e: Entry, first: nat, head: nat, padding: nat,
                  marker: seq<Byte>, code: seq<Byte>)
    requires |ring| > 0 && ValidSizes(|ring|, lineMax) && WellFormedLog(log, lineMax) && first <= |log|
    requires Fits(e.header) && e.header.seqNo == |log| && e.header.size == |e.text| <= lineMax && AllInPlace(ring, log, first)
    requires IsMarker(marker) && |code| == HEADER_SIZE && Decode(code) == e.header
    requires head == Pos(|ring|, log, |log|) && padding == Padding(|ring|, head, Footprint(|e.text|))
    requires head + padding + Footprint(|e.text|) <= Pos(|ring|, log, first) + |ring|
    ensures padding == 0 || Offset(|ring|, head) + padding == |ring|
    ensures Unbroken(|ring|, head + padding, |code + e.text|)
    ensures AllInPlace(Extended(ring, head, padding, marker, code + e.text), log + [e], first)
    ensures WellFormedLog(log + [e], lineMax)
    ensures Pos(|ring|, log + [e], first) == Pos(|ring|, log, first)
    ensures Pos(|ring|, log + [e], |log| + 1) == head + padding + Footprint(|e.text|)
  {
    hide Offset, Decode, Encode, Footprint;
    var data := code + e.text;
    assert data[..HEADER_SIZE] == code;
    PosStable(|ring|, log, [e], first);
    StartOfNew(|ring|, lineMax, log, e, head, padding);
    AppendPlaces(ring, lineMax, log, e, head, padding, marker, data);
    forall k | first <= k < |log| ensures InPlace(Extended(ring, head, padding, marker, data), log + [e], k) {
      AppendKeeps(ring, lineMax, log, e, first, head, padding, marker, data, k);
    }
  }
}
