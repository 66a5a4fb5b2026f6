/** /dev/kplog: a file's cursor over the kernel log, the records it delivers and its account of those it missed. */
module KplogFeed {
  import Arith
  import opened Wrappers
  import opened LogRing

  const FEED_ALIGN: nat := 8
  const FEED_HEADER: nat := 24
  const RECORD_HEAD: nat := 32
  const LOST_SIZE: nat := 32
  const TYPE_LOST: nat := 0x0001
  const TYPE_KPLOG: nat := 0x0100

  /** What a read delivers: one log record, or how many were missed in front of the next one. */
  datatype Item =
    | Record(entry: Entry)
    | Lost(seqNo: nat, timeNs: nat, count: nat)

  function FeedFootprint(textSize: nat): (f: nat)
    ensures RECORD_HEAD + textSize <= f < RECORD_HEAD + textSize + FEED_ALIGN && f % FEED_ALIGN == 0
  {
    (RECORD_HEAD + textSize + FEED_ALIGN - 1) / FEED_ALIGN * FEED_ALIGN
  }

  function SizeOf(i: Item): (n: nat)
    ensures n >= RECORD_HEAD
  {
    match i
    case Record(e) => FeedFootprint(|e.text|)
    case Lost(_, _, _) => LOST_SIZE
  }

  predicate Sendable(i: Item)
  {
    match i
    case Record(e) => Fits(e.header) && e.header.size == |e.text| < PADDING_SIZE
    case Lost(s, t, n) => s < TWO_64 && t < TWO_64 && n < TWO_64
  }

  function Zeros(n: nat): (z: seq<Byte>)
    ensures |z| == n
  {
    seq(n, _ => 0)
  }

  function FeedHeader(size: nat, kind: nat, flags: nat, seqNo: nat, timeNs: nat): (b: seq<Byte>)
    ensures |b| == FEED_HEADER
  {
    LittleEndian(size, 4) + LittleEndian(kind, 2) + LittleEndian(flags, 2) + LittleEndian(seqNo, 8) + LittleEndian(timeNs, 8)
  }

  function Image(i: Item): (b: seq<Byte>)
    ensures |b| == SizeOf(i)
  {
    match i
    case Record(e) =>
      var h := e.header;
      FeedHeader(SizeOf(i), TYPE_KPLOG, h.flags, h.seqNo, h.timeNs)
      + (LittleEndian(h.subsystem, 2) + LittleEndian(h.level, 2) + LittleEndian(h.size, 4))
      + (e.text + Zeros(SizeOf(i) - RECORD_HEAD - |e.text|))
    case Lost(s, t, n) => FeedHeader(LOST_SIZE, TYPE_LOST, 0, s, t) + LittleEndian(n, 8)
  }

  function Images(items: seq<Item>): seq<Byte>
  {
    if items == [] then [] else Images(items[..|items| - 1]) + Image(items[|items| - 1])
  }

  // ---------------------------------------------------------------------------------------------
  // What a reader makes of it

  function U(b: seq<Byte>, offset: nat, width: nat): nat
    requires offset + width <= |b|
  {
    FromLittleEndian(b[offset..offset + width])
  }

  /** One record off the front, by its own size field. */
  function TakeItem(b: seq<Byte>): Item
    requires |b| >= RECORD_HEAD
  {
    if U(b, 4, 2) == TYPE_LOST then Lost(U(b, 8, 8), U(b, 16, 8), U(b, 24, 8))
    else
      var size := U(b, 28, 4);
      var text := if RECORD_HEAD + size <= |b| then b[RECORD_HEAD..RECORD_HEAD + size] else [];
      Record(Entry(Header(U(b, 8, 8), U(b, 16, 8), size, U(b, 24, 2), U(b, 26, 2), U(b, 6, 2)), text))
  }

  /** Walks from size field to size field; None if a step leaves the buffer. */
  function Parse(b: seq<Byte>): (r: Option<seq<Item>>)
    decreases |b|
  {
    if b == [] then Some([])
    else if |b| < RECORD_HEAD || !(RECORD_HEAD <= U(b, 0, 4) <= |b|) then None
    else
      var rest := Parse(b[U(b, 0, 4)..]);
      if rest.None? then None else Some([TakeItem(b[..U(b, 0, 4)])] + rest.value)
  }

  lemma FieldReads(b: seq<Byte>, offset: nat, n: nat, k: nat)
    requires n < Pow256(k) && offset + k <= |b| && b[offset..offset + k] == LittleEndian(n, k)
    ensures U(b, offset, k) == n
  {
    LittleEndianInverse(n, k);
  }

  lemma Powers()
    ensures Pow256(2) == 0x1_0000 && Pow256(4) == 0x1_0000_0000 && Pow256(8) == TWO_64
  {
  }

  lemma HeaderFields(b: seq<Byte>, size: nat, kind: nat, flags: nat, seqNo: nat, timeNs: nat)
    requires |b| >= FEED_HEADER && b[..FEED_HEADER] == FeedHeader(size, kind, flags, seqNo, timeNs)
    requires size < 0x1_0000_0000 && kind < 0x1_0000 && flags < 0x1_0000 && seqNo < TWO_64 && timeNs < TWO_64
    ensures U(b, 0, 4) == size && U(b, 4, 2) == kind && U(b, 6, 2) == flags && U(b, 8, 8) == seqNo && U(b, 16, 8) == timeNs
  {
    hide LittleEndian, FromLittleEndian;
    var h := b[..FEED_HEADER];
    Powers();
    assert b[0..4] == h[0..4] == LittleEndian(size, 4);
    assert b[4..6] == h[4..6] == LittleEndian(kind, 2);
    assert b[6..8] == h[6..8] == LittleEndian(flags, 2);
    assert b[8..16] == h[8..16] == LittleEndian(seqNo, 8);
    assert b[16..24] == h[16..24] == LittleEndian(timeNs, 8);
    FieldReads(b, 0, size, 4);
    FieldReads(b, 4, kind, 2);
    FieldReads(b, 6, flags, 2);
    FieldReads(b, 8, seqNo, 8);
    FieldReads(b, 16, timeNs, 8);
  }

  /** An item reads back from its image, which is as long as its size field says. */
  lemma TakeImage(i: Item)
    requires Sendable(i)
    ensures TakeItem(Image(i)) == i && U(Image(i), 0, 4) == |Image(i)|
  {
    hide LittleEndian, FromLittleEndian, FeedHeader;
    var b := Image(i);
    match i
    case Record(e) =>
      var h := e.header;
      HeaderFields(b, SizeOf(i), TYPE_KPLOG, h.flags, h.seqNo, h.timeNs);
      Powers();
      assert b[24..26] == LittleEndian(h.subsystem, 2);
      assert b[26..28] == LittleEndian(h.level, 2);
      assert b[28..32] == LittleEndian(h.size, 4);
      FieldReads(b, 24, h.subsystem, 2);
      FieldReads(b, 26, h.level, 2);
      FieldReads(b, 28, h.size, 4);
      assert b[RECORD_HEAD..RECORD_HEAD + h.size] == e.text;
    case Lost(s, t, n) =>
      HeaderFields(b, LOST_SIZE, TYPE_LOST, 0, s, t);
      Powers();
      assert b[24..32] == LittleEndian(n, 8);
      FieldReads(b, 24, n, 8);
  }

  lemma ParseOne(i: Item, rest: seq<Byte>)
    requires Sendable(i) && Parse(rest).Some?
    ensures Parse(Image(i) + rest) == Some([i] + Parse(rest).value)
  {
    var b := Image(i) + rest;
    TakeImage(i);
    hide Image, TakeItem;
    assert b[0..4] == Image(i)[0..4];
    assert b[..|Image(i)|] == Image(i) && b[|Image(i)|..] == rest;
  }

  /** The bytes a read returns walk, size by size, exactly to their end, and give back what was put in. */
  lemma {:induction false} ParseImages(items: seq<Item>, rest: seq<Byte>)
    requires (forall i | i in items :: Sendable(i)) && Parse(rest).Some?
    ensures Parse(Images(items) + rest) == Some(items + Parse(rest).value)
  {
    hide Parse, Image;
    if items == [] {
      assert Images(items) + rest == rest && items + Parse(rest).value == Parse(rest).value;
    } else {
      var init, last := items[..|items| - 1], items[|items| - 1];
      assert items == init + [last];
      ParseOne(last, rest);
      ParseImages(init, Image(last) + rest);
      assert Images(items) + rest == Images(init) + (Image(last) + rest);
      assert init + ([last] + Parse(rest).value) == items + Parse(rest).value;
    }
  }

  // ---------------------------------------------------------------------------------------------
  // Files

  /** The records among the items are records of the log, in order, numbered from lo to below hi. */
  ghost predicate InOrder(items: seq<Item>, log: seq<Entry>, lo: nat, hi: nat)
  {
    if items == [] then lo <= hi
    else
      var init, last := items[..|items| - 1], items[|items| - 1];
      match last
      case Record(e) => e.header.seqNo < |log| && e == log[e.header.seqNo] && e.header.seqNo < hi && InOrder(init, log, lo, e.header.seqNo)
      case Lost(s, _, _) => s <= hi && InOrder(init, log, lo, s)
  }

  function Delivered(items: seq<Item>): nat
  {
    if items == [] then 0 else Delivered(items[..|items| - 1]) + if items[|items| - 1].Record? then 1 else 0
  }

  function Reported(items: seq<Item>): nat
  {
    if items == [] then 0 else Reported(items[..|items| - 1]) + if items[|items| - 1].Lost? then items[|items| - 1].count else 0
  }

  lemma {:induction false} InOrderLater(items: seq<Item>, log: seq<Entry>, lo: nat, hi: nat, log2: seq<Entry>, hi2: nat)
    requires InOrder(items, log, lo, hi) && log <= log2 && hi <= hi2
    ensures InOrder(items, log2, lo, hi2)
    decreases |items|
  {
    if items != [] {
      var init := items[..|items| - 1];
      match items[|items| - 1]
      case Record(e) => InOrderLater(init, log, lo, e.header.seqNo, log2, e.header.seqNo);
      case Lost(s, _, _) => InOrderLater(init, log, lo, s, log2, s);
    }
  }

  /** Whether an item may come after a cursor at seqNo, which it leaves at next. */
  ghost predicate Follows(item: Item, log: seq<Entry>, seqNo: nat, next: nat)
  {
    match item
    case Record(e) => seqNo == e.header.seqNo < |log| && e == log[seqNo] && next == seqNo + 1
    case Lost(s, _, _) => s == seqNo == next
  }

  lemma Snoc(items: seq<Item>, item: Item, log: seq<Entry>, lo: nat, seqNo: nat, next: nat)
    requires InOrder(items, log, lo, seqNo) && Follows(item, log, seqNo, next)
    ensures Images(items + [item]) == Images(items) + Image(item)
    ensures Delivered(items + [item]) == Delivered(items) + if item.Record? then 1 else 0
    ensures Reported(items + [item]) == Reported(items) + if item.Lost? then item.count else 0
    ensures InOrder(items + [item], log, lo, next)
  {
    assert (items + [item])[..|items|] == items;
  }

  lemma ParseWhole(items: seq<Item>)
    requires forall i | i in items :: Sendable(i)
    ensures Parse(Images(items)) == Some(items)
  {
    ParseImages(items, []);
    assert Images(items) + [] == Images(items) && items + [] == items;
  }

  datatype Progress = Stop(empty: bool) | Moved | Put(item: Item)

  datatype Outcome = Data(bytes: seq<Byte>) | Invalid | Again

  /** What other harts do to the log in between: any number of appends. */
  method Others(ring: Ring)
    requires ring.Valid()
    modifies ring, ring.ring
    ensures ring.Valid() && old(ring.log) <= ring.log && old(ring.firstSeq) <= ring.firstSeq
  {
    var n: int := *;
    while n > 0
      invariant ring.Valid() && old(ring.log) <= ring.log && old(ring.firstSeq) <= ring.firstSeq
    {
      var text: seq<Byte> := *;
      var subsystem: nat, level: nat, flags: nat, timeNs: nat := *, *, *, *;
      if |text| <= ring.lineMax && timeNs < TWO_64 && ring.head + 2 * ring.ring.Length < TWO_64 {
        ring.Append(subsystem, level, flags, timeNs, text);
      }
      n := n - 1;
    }
  }

  class File {
    const ring: Ring
    const cursor: Cursor
    var lost: nat               // Missed and not reported so far

    // The account since the last seek
    ghost var origin: nat
    ghost var delivered: nat
    ghost var reported: nat
    ghost var slipped: nat      // Dropped between noticing a loss and moving the cursor

    ghost predicate Valid()
      reads this, ring, ring.ring, cursor
    {
      && ring.Valid()
      && ring.OnRecord(cursor)
      && cursor.seqNo == origin + delivered + reported + lost + slipped
    }

    /** Opening a file places its cursor on the oldest record. */
    constructor (ring: Ring)
      requires ring.Valid()
      ensures Valid() && this.ring == ring && fresh(cursor) && lost == delivered == reported == slipped == 0 && origin == ring.firstSeq
    {
      this.ring := ring;
      cursor := new Cursor();
      lost := 0;
      origin, delivered, reported, slipped := ring.firstSeq, 0, 0, 0;
      new;
      ring.SeekFirst(cursor);
    }

    ghost method Settle()
      modifies this`origin, this`delivered, this`reported, this`slipped
      ensures origin == cursor.seqNo && delivered == reported == slipped == 0
    {
      origin, delivered, reported, slipped := cursor.seqNo, 0, 0, 0;
    }

    method SeekFirst()
      requires Valid()
      modifies this, cursor
      ensures Valid() && lost == 0 && cursor.seqNo == origin == ring.firstSeq && delivered == reported == slipped == 0
    {
      ring.SeekFirst(cursor);
      lost := 0;
      Settle();
    }

    method SeekEnd()
      requires Valid()
      modifies this, cursor
      ensures Valid() && lost == 0 && cursor.seqNo == origin == ring.nextSeq && delivered == reported == slipped == 0
    {
      ring.SeekEnd(cursor);
      lost := 0;
      Settle();
    }

    /** A number the ring never reached is refused, and changes nothing. */
    method SeekSeq(seqNo: nat) returns (valid: bool)
      requires Valid()
      modifies this, cursor
      ensures Valid() && (valid <==> seqNo <= ring.nextSeq)
      ensures valid ==> lost == 0 && cursor.seqNo == origin == seqNo && delivered == reported == slipped == 0
      ensures !valid ==> unchanged(this) && cursor.seqNo == old(cursor.seqNo) && cursor.position == old(cursor.position)
    {
      valid := ring.SeekSeq(cursor, seqNo);
      if valid {
        lost := 0;
        Settle();
      }
    }

    /** Reports what was lost up to the cursor. */
    method PutLost() returns (item: Item)
      requires Valid() && lost > 0
      modifies this`lost, this`reported
      ensures Valid() && lost == 0 && reported == old(reported) + old(lost)
      ensures item.Lost? && item.seqNo == cursor.seqNo && item.count == old(lost) && Sendable(item)
    {
      var now :| 0 <= now < TWO_64;
      SeqBelowPos(ring.ring.Length, ring.log, ring.nextSeq);
      item := Lost(cursor.seqNo, now, lost);
      reported := reported + lost;
      lost := 0;
    }

    /** Reads the record under the cursor with a copy of it. */
    method Peek() returns (found: bool, next: Cursor, entry: Entry)
      requires Valid()
      ensures fresh(next) && ring.OnRecord(next)
      ensures var k := if cursor.seqNo < ring.firstSeq then ring.firstSeq else cursor.seqNo;
              (found <==> k < ring.nextSeq) && (found ==> entry == ring.log[k] && next.seqNo == k + 1)
    {
      next := new Cursor();
      next.seqNo, next.position := cursor.seqNo, cursor.position;
      var h, text;
      found, h, text := ring.Read(next);
      entry := Entry(h, text);
    }

    /** Counts the records dropped under the cursor, and moves it to the oldest there is by then. */
    method NoteLoss(seqNo: nat, gap: bool)
      requires Valid() && cursor.seqNo < seqNo <= ring.firstSeq
      modifies this`lost, this`slipped, cursor, ring, ring.ring
      ensures Valid() && lost == old(lost) + (seqNo - old(cursor.seqNo)) && cursor.seqNo == ring.firstSeq
      ensures old(ring.firstSeq) <= ring.firstSeq && slipped == old(slipped) + (ring.firstSeq - seqNo) && old(ring.log) <= ring.log
      ensures !gap ==> ring.firstSeq == old(ring.firstSeq)
    {
      lost := lost + (seqNo - cursor.seqNo);
      if gap {
        Others(ring);
      }
      ring.SeekFirst(cursor);
      slipped := slipped + (ring.firstSeq - seqNo);
    }

    /** Others append, which moves nothing of this file. */
    method Interfere(ghost items: seq<Item>, ghost lo: nat)
      requires Valid() && InOrder(items, ring.log, lo, cursor.seqNo)
      modifies ring, ring.ring
      ensures Valid() && old(ring.log) <= ring.log && InOrder(items, ring.log, lo, cursor.seqNo)
    {
      Others(ring);
      CursorSurvives(ring.ring.Length, old(ring.log), old(ring.firstSeq), ring.log, ring.firstSeq, cursor.seqNo, cursor.position);
      InOrderLater(items, old(ring.log), lo, cursor.seqNo, ring.log, cursor.seqNo);
    }

    /** What comes next does not fit in the whole buffer. */
    ghost predicate TooSmall(size: nat)
      reads this, ring, cursor
    {
      if lost > 0 then size < LOST_SIZE
      else cursor.seqNo < |ring.log| && size < FeedFootprint(|ring.log[cursor.seqNo].text|)
    }

    /** One turn of the read loop with so much room left in the buffer. */
    method Advance(room: nat, gap: bool) returns (p: Progress)
      requires Valid()
      modifies this`lost, this`delivered, this`reported, this`slipped, cursor, ring, ring.ring
      ensures Valid() && old(ring.log) <= ring.log && slipped >= old(slipped) && (!gap ==> slipped == old(slipped))
      ensures p.Stop? ==> lost == old(lost) && cursor.seqNo == old(cursor.seqNo) && ring.log == old(ring.log) && slipped == old(slipped)
      ensures p == Stop(true) <==> old(lost) == 0 && old(cursor.seqNo) == |old(ring.log)|
      ensures p.Stop? && !p.empty ==> TooSmall(room)
      ensures p.Stop? || p.Moved? ==> delivered == old(delivered) && reported == old(reported)
      ensures p.Moved? ==> old(lost) == 0 < lost && cursor.seqNo >= old(cursor.seqNo)
      ensures p.Put? ==> Sendable(p.item) && SizeOf(p.item) <= room && ring.log == old(ring.log) && slipped == old(slipped)
      ensures p.Put? ==> Follows(p.item, ring.log, old(cursor.seqNo), cursor.seqNo)
      ensures p.Put? && p.item.Lost? ==>
                delivered == old(delivered) && reported == old(reported) + p.item.count && old(lost) == p.item.count && lost == 0
      ensures p.Put? && p.item.Record? ==>
                delivered == old(delivered) + 1 && reported == old(reported) && lost == old(lost) == 0
    {
      hide Pos, Start, AllInPlace, FeedFootprint;
      if lost > 0 {
        if room < LOST_SIZE {
          return Stop(false);
        }
        var item := PutLost();
        return Put(item);
      }
      var found, next, entry := Peek();
      if !found {
        return Stop(true);
      }
      if entry.header.seqNo != cursor.seqNo {
        NoteLoss(entry.header.seqNo, gap);
        return Moved;
      }
      var footprint := FeedFootprint(entry.header.size);
      if room < footprint {
        return Stop(false);
      }
      cursor.seqNo, cursor.position := next.seqNo, next.position;
      delivered := delivered + 1;
      return Put(Record(entry));
    }

    /** The read loop under way: what it put in the buffer so far, and the account of it. */
    ghost predicate Filling(size: nat, out: seq<Byte>, items: seq<Item>, lo: nat, delivered0: nat, reported0: nat)
      reads this, ring, ring.ring, cursor
    {
      && Valid() && InOrder(items, ring.log, lo, cursor.seqNo)
      && delivered == delivered0 + Delivered(items) && reported == reported0 + Reported(items)
      && out == Images(items) && |out| <= size && (out == [] <==> items == [])
      && forall i | i in items :: Sendable(i)
    }

    lemma Filled(size: nat, out: seq<Byte>, items: seq<Item>, lo: nat, delivered0: nat, reported0: nat)
      requires Filling(size, out, items, lo, delivered0, reported0)
      ensures Valid() && InOrder(items, ring.log, lo, cursor.seqNo)
      ensures delivered == delivered0 + Delivered(items) && reported == reported0 + Reported(items)
      ensures out == Images(items) && (out == [] <==> items == []) && forall i | i in items :: Sendable(i)
    {
    }

    /** One turn of the read loop; others append before it. */
    method Turn(size: nat, gap: bool, out0: seq<Byte>, ghost items0: seq<Item>, ghost lo: nat, ghost delivered0: nat, ghost reported0: nat)
      returns (p: Progress, out: seq<Byte>, ghost items: seq<Item>)
      requires Filling(size, out0, items0, lo, delivered0, reported0) && |out0| <= size
      modifies this`lost, this`delivered, this`reported, this`slipped, cursor, ring, ring.ring
      ensures Filling(size, out, items, lo, delivered0, reported0) && |out0| <= |out| <= size
      ensures old(ring.log) <= ring.log && slipped >= old(slipped) && (!gap ==> slipped == old(slipped))
      ensures p.Stop? ==> if p.empty then lost == 0 && cursor.seqNo == |ring.log| else TooSmall(size - |out|)
      ensures p.Moved? ==> out == out0 && old(lost) == 0 < lost
      ensures p.Put? ==> |out0| < |out|
    {
      hide Image, Images, InOrder, Delivered, Reported, Follows, Sendable, Valid, TooSmall, Ring.Valid, Ring.Laid;
      Interfere(items0, lo);
      ghost var was, from := ring.log, cursor.seqNo;
      p := Advance(size - |out0|, gap);
      out, items := out0, items0;
      match p
      case Stop(_) =>
      case Moved =>
        InOrderLater(items, was, lo, from, ring.log, cursor.seqNo);
      case Put(item) =>
        Snoc(items, item, ring.log, lo, from, cursor.seqNo);
        out := out + Image(item);
        items := items + [item];
    }

    /** The read loop. Others append before every turn; between noticing a loss and moving the cursor only if gap is set. */
    method Fill(size: nat, gap: bool) returns (out: seq<Byte>, ghost items: seq<Item>, empty: bool)
      requires Valid()
      modifies this`lost, this`delivered, this`reported, this`slipped, cursor, ring, ring.ring
      ensures Valid() && old(ring.log) <= ring.log
      ensures delivered == old(delivered) + Delivered(items) && reported == old(reported) + Reported(items)
      ensures slipped >= old(slipped) && (!gap ==> slipped == old(slipped))
      ensures InOrder(items, ring.log, old(cursor.seqNo), cursor.seqNo)
      ensures out == Images(items) && |out| <= size && (out == [] <==> items == [])
      ensures forall i | i in items :: Sendable(i)
      ensures if empty then lost == 0 && cursor.seqNo == ring.nextSeq else TooSmall(size - |out|)
    {
      out, items := [], [];
      assert Filling(size, out, items, cursor.seqNo, delivered, reported);
      hide Filling, Images, InOrder, Delivered, Reported, Valid, TooSmall;
      while true
        invariant Filling(size, out, items, old(cursor.seqNo), old(delivered), old(reported)) && |out| <= size
        invariant old(ring.log) <= ring.log && slipped >= old(slipped) && (!gap ==> slipped == old(slipped))
        decreases size - |out|, if lost == 0 then 1 else 0
      {
        var p;
        p, out, items := Turn(size, gap, out, items, old(cursor.seqNo), old(delivered), old(reported));
        if p.Stop? {
          Filled(size, out, items, old(cursor.seqNo), old(delivered), old(reported));
          return out, items, p.empty;
        }
      }
    }

    /** What a read that put nothing in the buffer returns. */
    method Nothing() returns (r: Outcome)
      requires Valid()
      ensures r == if lost == 0 && cursor.seqNo == |ring.log| then Again else Invalid
    {
      r := if lost > 0 || ring.nextSeq != cursor.seqNo then Invalid else Again;
    }

    /** One read. empty says that the loop ended for want of a record, seen how many there were then. */
    method ReadLocked(size: nat, gap: bool) returns (r: Outcome, ghost items: seq<Item>, ghost empty: bool, ghost seen: nat)
      requires Valid()
      modifies this`lost, this`delivered, this`reported, this`slipped, cursor, ring, ring.ring
      ensures Valid() && old(ring.log) <= ring.log
      ensures delivered == old(delivered) + Delivered(items) && reported == old(reported) + Reported(items)
      ensures slipped >= old(slipped) && (!gap ==> slipped == old(slipped))
      ensures InOrder(items, ring.log, old(cursor.seqNo), cursor.seqNo)
      ensures r.Data? <==> items != []
      ensures r.Data? ==> r.bytes == Images(items) && Parse(r.bytes) == Some(items) && |r.bytes| <= size
      ensures |old(ring.log)| <= seen <= |ring.log| && (empty ==> lost == 0 && cursor.seqNo == seen)
      ensures !r.Data? && empty ==> (r.Invalid? <==> |ring.log| > seen)
      ensures !r.Data? && !empty ==> r.Invalid? && TooSmall(size)
    {
      hide Image, Images, Parse, InOrder, Delivered, Reported, Pos, Start, AllInPlace, FeedFootprint, ValidSizes, WellFormedLog, Sendable;
      var out, stopped;
      out, items, stopped := Fill(size, gap);
      empty, seen := stopped, |ring.log|;
      if out != [] {
        ParseWhole(items);
        return Data(out), items, empty, seen;
      }
      Interfere(items, old(cursor.seqNo));
      r := Nothing();
    }
  }

  lemma {:induction false} EmptyRecordsInTwo(log: seq<Entry>, k: nat)
    requires k <= |log| && forall i | 0 <= i < |log| :: log[i].text == []
    ensures Pos(2 * HEADER_SIZE, log, k) == k * HEADER_SIZE
  {
    if k > 0 {
      EmptyRecordsInTwo(log, k - 1);
      assert Footprint(0) == HEADER_SIZE;
      Arith.DivModUnique((k - 1) * HEADER_SIZE, (k - 1) / 2, (k - 1) % 2 * HEADER_SIZE, 2 * HEADER_SIZE);
    }
  }

  /** Appends an empty record to a ring that holds two of them. */
  method AppendEmpty(ring: Ring)
    requires ring.Valid() && ring.CountersFit() && ring.ring.Length == 2 * HEADER_SIZE
    requires forall i | 0 <= i < |ring.log| :: ring.log[i].text == []
    requires ring.firstSeq <= (if ring.nextSeq < 2 then 0 else ring.nextSeq - 2)
    modifies ring, ring.ring
    ensures ring.Valid() && forall i | 0 <= i < |ring.log| :: ring.log[i].text == []
    ensures old(ring.log) <= ring.log && ring.nextSeq == old(ring.nextSeq) + 1 && ring.head == ring.nextSeq * HEADER_SIZE
    ensures ring.firstSeq == if ring.nextSeq < 2 then 0 else ring.nextSeq - 2
  {
    ring.Append(0, 0, 0, 0, []);
    EmptyRecordsInTwo(ring.log, ring.nextSeq);
    EmptyRecordsInTwo(ring.log, ring.firstSeq);
    if ring.firstSeq > 0 {
      EmptyRecordsInTwo(ring.log, ring.firstSeq - 1);
    }
  }

  /** A record that comes between the read that found none and the comparison fits the buffer, and is refused. */
  method FitsYetInvalid() returns (file: File, room: nat, r: Outcome)
    ensures file.Valid() && file.cursor.seqNo < |file.ring.log|
    ensures FeedFootprint(|file.ring.log[file.cursor.seqNo].text|) <= room && !file.TooSmall(room) && r.Invalid?
  {
    hide Pos, Start, Offset, AllInPlace;
    var ring := new Ring(2 * HEADER_SIZE, 0);
    file := new File(ring);
    room := FeedFootprint(0);
    var p := file.Advance(room, false);
    assert p == Stop(true);
    AppendEmpty(ring);
    CursorSurvives(ring.ring.Length, [], 0, ring.log, ring.firstSeq, file.cursor.seqNo, file.cursor.position);
    r := file.Nothing();
  }

  /** A record dropped between the read that notices a loss and the seek behind it is in nobody's count. */
  method GapUndercounts() returns (counted: nat, dropped: nat)
    ensures counted == 1 && dropped == 2
  {
    hide Pos, Start, Offset, AllInPlace;
    var ring := new Ring(2 * HEADER_SIZE, 0);
    var file := new File(ring);
    var k := 0;
    while k < 3
      invariant k <= 3 && fresh(ring) && fresh(ring.ring) && ring.Valid()
      invariant ring.nextSeq == k && ring.head == k * HEADER_SIZE && ring.firstSeq == (if k < 2 then 0 else k - 2)
      invariant forall i | 0 <= i < |ring.log| :: ring.log[i].text == []
      modifies ring, ring.ring
    {
      AppendEmpty(ring);
      k := k + 1;
    }
    CursorSurvives(ring.ring.Length, [], 0, ring.log, ring.firstSeq, file.cursor.seqNo, file.cursor.position);
    var found, next, entry := file.Peek();
    file.lost := file.lost + (entry.header.seqNo - file.cursor.seqNo);
    AppendEmpty(ring);
    var from := file.cursor.seqNo;
    ring.SeekFirst(file.cursor);
    counted, dropped := file.lost, file.cursor.seqNo - from;
  }
}
