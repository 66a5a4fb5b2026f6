/** Block requests: their check, partitions on disks, and the segments of a buffer. */
module BlockRequest {
  import Arith

  type Byte = b: int | 0 <= b < 256

  const PAGE: nat := 4096
  const MAX_SEGMENTS: nat := 32
  const TWO_64: nat := 0x1_0000_0000_0000_0000

  datatype Op = Read | Write | Flush | Other

  datatype Segment = Segment(phys: nat, length: nat)

  datatype Request = Request(op: Op, lba: nat, length: nat, segments: seq<Segment>)

  datatype Route = Disk | Part(root: Interface, lbaStart: nat)

  /** dmaAlign is what addresses and lengths are a multiple of, one more than the mask. */
  datatype Interface = Interface(sectorCount: nat, sectorSize: nat, maxTransfer: nat, maxSegments: nat,
                                 dmaLimit: nat, dmaAlign: nat, present: bool, route: Route)

  datatype Status = Ok | NoDevice | Invalid | Io | NoMemory

  // ---------------------------------------------------------------------------------------------
  // Requests

  function Total(segments: seq<Segment>): nat
  {
    if segments == [] then 0 else Total(segments[..|segments| - 1]) + segments[|segments| - 1].length
  }

  function Range(start: nat, n: nat): (a: seq<nat>)
    ensures |a| == n && forall i | 0 <= i < n :: a[i] == start + i
  {
    seq<nat>(n, (i: nat) => start + i)
  }

  /** The physical addresses of a list of segments, in order. */
  function Addresses(segments: seq<Segment>): (a: seq<nat>)
    ensures |a| == Total(segments)
  {
    if segments == [] then []
    else
      var last := segments[|segments| - 1];
      Addresses(segments[..|segments| - 1]) + Range(last.phys, last.length)
  }

  predicate Aligned(i: Interface, phys: nat, length: nat)
    requires i.dmaAlign > 0
  {
    phys % i.dmaAlign == 0 && length % i.dmaAlign == 0
  }

  predicate Usable(i: Interface, s: Segment)
    requires i.dmaAlign > 0
  {
    s.length > 0 && Aligned(i, s.phys, s.length) && s.phys + s.length <= i.dmaLimit + 1
  }

  /** What a device takes. The lengths are added up in 64 bits. */
  predicate Acceptable(i: Interface, r: Request)
    requires i.sectorSize > 0 && i.dmaAlign > 0
  {
    if r.op == Flush then r.length == 0 && r.segments == []
    else
      && r.op != Other
      && 0 < r.length <= i.maxTransfer && r.length % i.sectorSize == 0
      && 0 < |r.segments| <= i.maxSegments
      && r.lba < i.sectorCount && r.lba + r.length / i.sectorSize <= i.sectorCount
      && (forall k | 0 <= k < |r.segments| :: Usable(i, r.segments[k]))
      && Wrap(Total(r.segments)) == r.length
  }

  function Wrap(n: nat): nat
  {
    n % TWO_64
  }

  /** The lengths of an accepted request are its length, if and only if their sum is below 2^64. */
  lemma LengthExactly(i: Interface, r: Request)
    requires i.sectorSize > 0 && i.dmaAlign > 0 && r.op != Flush && Acceptable(i, r)
    ensures Total(r.segments) == r.length <==> Total(r.segments) < TWO_64
    ensures r.length <= Total(r.segments)
  {
    hide Total, Usable;
    Wrapped(Total(r.segments));
  }

  lemma Wrapped(n: nat)
    ensures Wrap(n) < TWO_64 && Wrap(n) <= n && (n < TWO_64 ==> Wrap(n) == n)
  {
  }

  /** One sector, for which the segments name 2^64 bytes more. */
  function Overlong(i: Interface): Request
  {
    Request(Read, 0, i.sectorSize, [Segment(0, TWO_64 / 2), Segment(0, TWO_64 / 2), Segment(0, i.sectorSize)])
  }

  /** Such a request is accepted by any device that reaches the lower half of the address space. */
  lemma OverlongAccepted(i: Interface)
    requires 0 < i.sectorSize <= i.maxTransfer && i.sectorSize < TWO_64 / 2 && i.sectorCount > 0 && i.maxSegments >= 3
    requires i.dmaAlign > 0 && (TWO_64 / 2) % i.dmaAlign == 0 && i.sectorSize % i.dmaAlign == 0 && TWO_64 / 2 <= i.dmaLimit + 1
    ensures Acceptable(i, Overlong(i)) && Total(Overlong(i).segments) == Overlong(i).length + TWO_64
  {
    var segments := Overlong(i).segments;
    TotalNext(segments, 0);
    TotalNext(segments, 1);
    TotalNext(segments, 2);
    assert segments[..0] == [] && segments[..3] == segments;
    assert Total(segments) == TWO_64 + i.sectorSize;
    hide Total;
    assert Wrap(Total(segments)) == i.sectorSize;
    assert i.sectorSize % i.sectorSize == 0 && i.sectorSize / i.sectorSize == 1 && 0 % i.dmaAlign == 0;
    assert forall k | 0 <= k < |segments| :: Usable(i, segments[k]);
  }

  lemma WrapAdd(t: nat, n: nat)
    ensures Wrap(Wrap(t) + n) == Wrap(t + n)
  {
    var q := t / TWO_64;
    assert t == q * TWO_64 + Wrap(t);
    var m := Wrap(t) + n;
    assert t + n == m + q * TWO_64;
  }

  lemma TotalNext(segments: seq<Segment>, k: nat)
    requires k < |segments|
    ensures Total(segments[..k + 1]) == Total(segments[..k]) + segments[k].length
  {
    assert segments[..k + 1][..k] == segments[..k];
  }

  /** Checks the segments one by one; total counts only if none is refused. */
  method AddUp(i: Interface, segments: seq<Segment>) returns (usable: bool, total: nat)
    requires i.dmaAlign > 0
    ensures usable <==> forall k | 0 <= k < |segments| :: Usable(i, segments[k])
    ensures usable ==> total == Wrap(Total(segments))
  {
    total := 0;
    assert Wrap(Total(segments[..0])) == 0;
    hide Total, Wrap;
    for k := 0 to |segments|
      invariant forall j | 0 <= j < k :: Usable(i, segments[j])
      invariant total == Wrap(Total(segments[..k]))
    {
      var s := segments[k];
      if s.length == 0 || s.phys % i.dmaAlign != 0 || s.length % i.dmaAlign != 0 {
        assert !Usable(i, segments[k]);
        return false, 0;
      }
      if s.phys > i.dmaLimit || s.length - 1 > i.dmaLimit - s.phys {
        assert !Usable(i, segments[k]);
        return false, 0;
      }
      TotalNext(segments, k);
      WrapAdd(Total(segments[..k]), s.length);
      total := Wrap(total + s.length);
    }
    assert segments[..|segments|] == segments;
    usable := true;
  }

  /** A segment the device cannot use: empty, off its alignment, or with its last byte beyond the limit. */
  ghost predicate OutOfReach(i: Interface, s: Segment)
    requires i.dmaAlign > 0
  {
    s.length == 0 || !Aligned(i, s.phys, s.length) || s.phys + s.length - 1 > i.dmaLimit
  }

  lemma Whole(length: nat, size: nat)
    requires size > 0
    ensures length % size != 0 <==> exists n: nat :: n * size < length < (n + 1) * size
  {
    var q := length / size;
    assert length == q * size + length % size;
    if length % size != 0 {
      assert q * size < length < (q + 1) * size;
    }
    forall n: nat | n * size < length < (n + 1) * size ensures length % size != 0 {
      Arith.DivModUnique(length, n, length - n * size, size);
    }
  }

  lemma SectorsNeeded(length: nat, size: nat, q: nat)
    requires size > 0 && length > 0 && length % size == 0 && q == length / size
    ensures q * size >= length && (q - 1) * size < length
    ensures forall n: nat | n * size >= length && (n - 1) * size < length :: n == q
  {
    assert length == q * size;
    forall n: nat | n * size >= length && (n - 1) * size < length ensures n == q {
      if n < q { Arith.MulMonotone(n + 1, q, size); } else if n > q { Arith.MulMonotone(q, n - 1, size); }
    }
  }

  /** Of the flushes the empty ones are taken. Each limit of a device refuses by itself, one beyond it; else it takes. */
  lemma TakenExactly(i: Interface, r: Request)
    requires i.sectorSize > 0 && i.dmaAlign > 0
    ensures r.op == Flush ==> (r.length == 0 && |r.segments| == 0 <==> Acceptable(i, r))
    ensures r.op == Other ==> !Acceptable(i, r)
    ensures
      r.op == Read || r.op == Write ==>
        ((|| r.length == 0 || r.length > i.maxTransfer
          || (exists n: nat :: n * i.sectorSize < r.length < (n + 1) * i.sectorSize)
          || |r.segments| == 0 || |r.segments| > i.maxSegments
          || (exists n: nat :: n * i.sectorSize >= r.length > (n - 1) * i.sectorSize && r.lba + n > i.sectorCount)
          || (exists k | 0 <= k < |r.segments| :: OutOfReach(i, r.segments[k]))
          || Wrap(Total(r.segments)) != r.length)
         <==> !Acceptable(i, r))
  {
    hide Total, Wrap, Aligned;
    var n := r.length / i.sectorSize;
    Whole(r.length, i.sectorSize);
    assert forall k | 0 <= k < |r.segments| :: Usable(i, r.segments[k]) <==> !OutOfReach(i, r.segments[k]);
    if r.length > 0 && r.length % i.sectorSize == 0 {
      SectorsNeeded(r.length, i.sectorSize, n);
    }
  }

  method RequestValid(i: Interface, r: Request) returns (valid: bool)
    requires i.sectorSize > 0 && i.dmaAlign > 0
    ensures valid <==> Acceptable(i, r)
  {
    if r.op == Flush {
      return r.length == 0 && |r.segments| == 0;
    }
    if r.op != Read && r.op != Write {
      return false;
    }
    if r.length == 0 || r.length % i.sectorSize != 0 || r.length > i.maxTransfer {
      return false;
    }
    if |r.segments| == 0 || |r.segments| > i.maxSegments {
      return false;
    }
    var count := r.length / i.sectorSize;
    if r.lba >= i.sectorCount || count > i.sectorCount - r.lba {
      return false;
    }
    var total;
    valid, total := AddUp(i, r.segments);
    return valid && total == r.length;
  }

  // ---------------------------------------------------------------------------------------------
  // Partitions on disks

  /** What probing makes of the disk it finds a partition on. */
  predicate WithinRoot(i: Interface)
    requires i.route.Part?
  {
    var root := i.route.root;
    && i.route.lbaStart + i.sectorCount <= root.sectorCount
    && i.sectorSize == root.sectorSize && i.maxTransfer == root.maxTransfer && i.maxSegments == root.maxSegments
    && i.dmaLimit == root.dmaLimit && i.dmaAlign == root.dmaAlign
  }

  predicate WellFormed(i: Interface, diskSize: nat)
  {
    && i.sectorSize > 0 && i.dmaAlign > 0 && i.sectorCount < TWO_64 && i.maxTransfer < TWO_64
    && match i.route
       case Disk => i.sectorCount * i.sectorSize <= diskSize
       case Part(root, _) => WithinRoot(i) && WellFormed(root, diskSize)
  }

  /** Where an interface's first sector is on the disk. */
  function Base(i: Interface): nat
  {
    match i.route
    case Disk => 0
    case Part(root, start) => start + Base(root)
  }

  /** Where an interface's sector starts, in bytes of the disk. */
  function StartByte(i: Interface, lba: nat): nat
  {
    (Base(i) + lba) * i.sectorSize
  }

  predicate AllPresent(i: Interface)
  {
    i.present && (i.route.Part? ==> AllPresent(i.route.root))
  }

  function Below(i: Interface, r: Request): Request
    requires i.route.Part?
  {
    if r.op == Flush then r else r.(lba := (r.lba + i.route.lbaStart) % TWO_64)
  }

  /** What a partition takes, its disk takes as well, moved within the partition's range. */
  lemma AcceptedBelow(i: Interface, r: Request, diskSize: nat)
    requires WellFormed(i, diskSize) && i.route.Part? && Acceptable(i, r)
    ensures Acceptable(i.route.root, Below(i, r))
    ensures r.op != Flush ==>
              var s := Below(i, r);
              s.lba == i.route.lbaStart + r.lba && s.lba + r.length / i.sectorSize <= i.route.lbaStart + i.sectorCount
  {
    forall k | 0 <= k < |r.segments| && r.op != Flush ensures Usable(i.route.root, r.segments[k]) {
      assert Usable(i, r.segments[k]);
    }
  }

  /** Every sector of an interface is on the disk. */
  lemma {:induction false} OnDisk(i: Interface, lba: nat, n: nat, diskSize: nat)
    requires WellFormed(i, diskSize) && lba + n <= i.sectorCount
    ensures StartByte(i, lba) + n * i.sectorSize <= diskSize
  {
    match i.route
    case Disk =>
      assert (lba + n) * i.sectorSize <= i.sectorCount * i.sectorSize by { Arith.MulMonotone(lba + n, i.sectorCount, i.sectorSize); }
      assert (lba + n) * i.sectorSize == lba * i.sectorSize + n * i.sectorSize;
    case Part(root, start) =>
      OnDisk(root, start + lba, n, diskSize);
      assert Base(root) + (start + lba) == Base(i) + lba;
  }

  // ---------------------------------------------------------------------------------------------
  // Segments

  /** The kernel's page table: the frame behind each page, and whether looking it up yields it. */
  datatype Paging = Paging(frameOf: nat -> nat, known: nat -> bool)

  function Phys(pt: Paging, virt: nat): nat
  {
    pt.frameOf(virt / PAGE) * PAGE + virt % PAGE
  }

  function Resolve(pt: Paging, virt: nat): nat
  {
    if pt.known(virt / PAGE) then Phys(pt, virt) else 0
  }

  /** The physical addresses of a buffer, in order. */
  function BufferAddresses(pt: Paging, virt: nat, n: nat): (a: seq<nat>)
    ensures |a| == n && forall i | 0 <= i < n :: a[i] == Phys(pt, virt + i)
  {
    seq<nat>(n, (i: nat) => Phys(pt, virt + i))
  }

  datatype Piece = Piece(virt: nat, length: nat)

  function FirstPiece(virt: nat, n: nat): (p: nat)
    ensures p <= n && (n > 0 ==> p > 0)
  {
    if PAGE - virt % PAGE > n then n else PAGE - virt % PAGE
  }

  /** A buffer page by page. */
  function Pieces(virt: nat, n: nat): seq<Piece>
    decreases n
  {
    if n == 0 then []
    else
      var p := FirstPiece(virt, n);
      [Piece(virt, p)] + Pieces(virt + p, n - p)
  }

  predicate Reaches(i: Interface, pt: Paging, p: Piece)
    requires i.dmaAlign > 0
  {
    var phys := Resolve(pt, p.virt);
    phys != 0 && p.length > 0 && Aligned(i, phys, p.length) && phys + p.length <= i.dmaLimit + 1
  }

  /** One more stretch of memory: it extends the last segment if it follows it. */
  function Join(segments: seq<Segment>, phys: nat, length: nat): seq<Segment>
  {
    var n := |segments|;
    if n > 0 && segments[n - 1].phys + segments[n - 1].length == phys
    then segments[..n - 1] + [Segment(segments[n - 1].phys, segments[n - 1].length + length)]
    else segments + [Segment(phys, length)]
  }

  function Joined(pt: Paging, pieces: seq<Piece>): seq<Segment>
  {
    if pieces == [] then []
    else
      var last := pieces[|pieces| - 1];
      Join(Joined(pt, pieces[..|pieces| - 1]), Resolve(pt, last.virt), last.length)
  }

  function SegmentLimit(i: Interface): nat
  {
    if i.maxSegments < MAX_SEGMENTS then i.maxSegments else MAX_SEGMENTS
  }

  ghost predicate AllReach(i: Interface, pt: Paging, pieces: seq<Piece>)
    requires i.dmaAlign > 0
  {
    forall p | p in pieces :: Reaches(i, pt, p)
  }

  lemma JoinedNext(pt: Paging, pieces: seq<Piece>, p: Piece)
    ensures Joined(pt, pieces + [p]) == Join(Joined(pt, pieces), Resolve(pt, p.virt), p.length)
  {
    assert (pieces + [p])[..|pieces|] == pieces;
  }

  lemma {:induction false} JoinedGrows(pt: Paging, some: seq<Piece>, more: seq<Piece>)
    ensures |Joined(pt, some)| <= |Joined(pt, some + more)| <= |Joined(pt, some)| + |more|
    decreases |more|
  {
    if more == [] {
      assert some + more == some;
    } else {
      var init, last := more[..|more| - 1], more[|more| - 1];
      assert some + more == (some + init) + [last];
      JoinedNext(pt, some + init, last);
      JoinedGrows(pt, some, init);
    }
  }

  /** A buffer of whole pages less one touches at most that many pages and one more, wherever it starts. */
  lemma {:induction false} FewPieces(virt: nat, n: nat)
    ensures |Pieces(virt, n)| * PAGE < virt % PAGE + n + PAGE
    decreases n
  {
    if n > 0 {
      var p := FirstPiece(virt, n);
      FewPieces(virt + p, n - p);
      if p < n { PageEnd(virt); }
    }
  }

  lemma PageEnd(virt: nat)
    ensures (virt + (PAGE - virt % PAGE)) % PAGE == 0
  {
  }

  lemma NextPiece(all: seq<Piece>, seen: seq<Piece>, virt: nat, left: nat)
    requires all == seen + Pieces(virt, left) && left > 0
    ensures var p := FirstPiece(virt, left);
            Piece(virt, p) in all && all == (seen + [Piece(virt, p)]) + Pieces(virt + p, left - p)
  {
    var p := FirstPiece(virt, left);
    assert Pieces(virt, left) == [Piece(virt, p)] + Pieces(virt + p, left - p);
    assert all[|seen|] == Piece(virt, p);
  }

  /** Adds a stretch of memory to the segments, if they have room for it. */
  method AddSegment(i: Interface, segments: seq<Segment>, phys: nat, piece: nat) returns (fits: bool, longer: seq<Segment>)
    requires |segments| <= SegmentLimit(i)
    ensures longer == Join(segments, phys, piece) && (fits <==> |longer| <= SegmentLimit(i))
  {
    var n := |segments|;
    if n > 0 && segments[n - 1].phys + segments[n - 1].length == phys {
      return true, segments[..n - 1] + [Segment(segments[n - 1].phys, segments[n - 1].length + piece)];
    }
    return !(n >= i.maxSegments || n >= MAX_SEGMENTS), segments + [Segment(phys, piece)];
  }

  /** The pieces can all be reached, in no more segments than there may be. */
  ghost predicate Mappable(i: Interface, pt: Paging, pieces: seq<Piece>)
    requires i.dmaAlign > 0
  {
    AllReach(i, pt, pieces) && |Joined(pt, pieces)| <= SegmentLimit(i)
  }

  /** How far the mapping of a buffer has come. */
  ghost predicate Mapping(i: Interface, pt: Paging, all: seq<Piece>, seen: seq<Piece>, segments: seq<Segment>, virt: nat, left: nat)
    requires i.dmaAlign > 0
    ensures Mapping(i, pt, all, seen, segments, virt, left) ==> |segments| <= SegmentLimit(i)
  {
    all == seen + Pieces(virt, left) && segments == Joined(pt, seen) && Mappable(i, pt, seen)
  }

  lemma AllReachNext(i: Interface, pt: Paging, seen: seq<Piece>, p: Piece, rest: seq<Piece>)
    requires i.dmaAlign > 0 && AllReach(i, pt, seen)
    ensures Reaches(i, pt, p) ==> AllReach(i, pt, seen + [p])
    ensures AllReach(i, pt, (seen + [p]) + rest) ==> Reaches(i, pt, p)
  {
    assert p in (seen + [p]) + rest;
  }

  lemma MappingStep(i: Interface, pt: Paging, all: seq<Piece>, seen: seq<Piece>, segments: seq<Segment>, virt: nat, left: nat)
    requires i.dmaAlign > 0 && Mapping(i, pt, all, seen, segments, virt, left) && left > 0
    ensures var p := Piece(virt, FirstPiece(virt, left));
            var longer := Join(segments, Resolve(pt, virt), p.length);
            if Reaches(i, pt, p) && |longer| <= SegmentLimit(i)
            then Mapping(i, pt, all, seen + [p], longer, virt + p.length, left - p.length)
            else !Mappable(i, pt, all)
  {
    hide Joined, Join, Resolve, Pieces, Reaches, FirstPiece, SegmentLimit, AllReach;
    var p := Piece(virt, FirstPiece(virt, left));
    var rest := Pieces(virt + p.length, left - p.length);
    NextPiece(all, seen, virt, left);
    JoinedNext(pt, seen, p);
    JoinedGrows(pt, seen + [p], rest);
    AllReachNext(i, pt, seen, p, rest);
  }

  lemma MappingDone(i: Interface, pt: Paging, all: seq<Piece>, seen: seq<Piece>, segments: seq<Segment>, virt: nat)
    requires i.dmaAlign > 0 && Mapping(i, pt, all, seen, segments, virt, 0)
    ensures Mappable(i, pt, all) && segments == Joined(pt, all)
  {
    assert all == seen;
  }

  /** Fills in the segments for a buffer, page by page. */
  method MapSegments(i: Interface, pt: Paging, buffer: nat, length: nat) returns (direct: bool, segments: seq<Segment>)
    requires i.dmaAlign > 0
    ensures direct <==> Mappable(i, pt, Pieces(buffer, length))
    ensures direct ==> segments == Joined(pt, Pieces(buffer, length))
  {
    segments := [];
    var virt: nat, left: nat := buffer, length;
    ghost var all, seen: seq<Piece> := Pieces(buffer, length), [];
    assert Mapping(i, pt, all, seen, segments, virt, left);
    hide Joined, Join, Resolve, Pieces, FirstPiece, SegmentLimit, Mapping, Mappable, Aligned, AllReach;
    while left > 0
      invariant Mapping(i, pt, all, seen, segments, virt, left)
    {
      var phys := Resolve(pt, virt);
      var piece := FirstPiece(virt, left);
      MappingStep(i, pt, all, seen, segments, virt, left);
      if phys == 0 || !Aligned(i, phys, piece) || phys > i.dmaLimit || piece - 1 > i.dmaLimit - phys {
        assert !Reaches(i, pt, Piece(virt, piece));
        return false, [];
      }
      var fits;
      fits, segments := AddSegment(i, segments, phys, piece);
      if !fits {
        return false, [];
      }
      seen := seen + [Piece(virt, piece)];
      virt, left := virt + piece, left - piece;
    }
    MappingDone(i, pt, all, seen, segments, virt);
    direct := true;
  }

  lemma JoinAddresses(segments: seq<Segment>, phys: nat, length: nat)
    ensures Addresses(Join(segments, phys, length)) == Addresses(segments) + Range(phys, length)
  {
    var n := |segments|;
    var joined := Join(segments, phys, length);
    if n > 0 && segments[n - 1].phys + segments[n - 1].length == phys {
      var last := segments[n - 1];
      assert joined[..n - 1] == segments[..n - 1];
      assert Range(last.phys, last.length + length) == Range(last.phys, last.length) + Range(phys, length);
    } else {
      assert joined[..n] == segments;
    }
  }

  /** Within a page, physical addresses follow each other as virtual ones do. */
  lemma PieceAddresses(pt: Paging, virt: nat, n: nat)
    requires n <= PAGE - virt % PAGE && pt.known(virt / PAGE)
    ensures Range(Resolve(pt, virt), n) == BufferAddresses(pt, virt, n)
  {
    forall i | 0 <= i < n ensures Range(Resolve(pt, virt), n)[i] == BufferAddresses(pt, virt, n)[i] {
      assert (virt + i) / PAGE == virt / PAGE && (virt + i) % PAGE == virt % PAGE + i;
    }
  }

  lemma Regroup(a: seq<nat>, b: seq<nat>, c: seq<nat>)
    ensures (a + b) + c == a + (b + c)
  {
  }

  lemma BufferSplit(pt: Paging, virt: nat, p: nat, n: nat)
    requires p <= n
    ensures BufferAddresses(pt, virt, n) == BufferAddresses(pt, virt, p) + BufferAddresses(pt, virt + p, n - p)
  {
  }

  lemma FirstReached(i: Interface, pt: Paging, virt: nat, n: nat)
    requires i.dmaAlign > 0 && AllReach(i, pt, Pieces(virt, n)) && n > 0
    ensures var p := FirstPiece(virt, n);
            && pt.known(virt / PAGE) && p <= PAGE - virt % PAGE
            && Pieces(virt, n) == [Piece(virt, p)] + Pieces(virt + p, n - p)
            && AllReach(i, pt, Pieces(virt + p, n - p))
  {
    var p := FirstPiece(virt, n);
    var first, rest := Piece(virt, p), Pieces(virt + p, n - p);
    assert Pieces(virt, n) == [first] + rest;
    hide Aligned, Pieces;
    assert Reaches(i, pt, first) by { assert first in [first] + rest; }
    forall q | q in rest ensures Reaches(i, pt, q) {
      assert q in [first] + rest;
    }
  }

  lemma NoPieces(pt: Paging, virt: nat)
    ensures Pieces(virt, 0) == [] && BufferAddresses(pt, virt, 0) == []
  {
  }

  /** The segments are the buffer: the same bytes of memory in the same order. */
  lemma {:induction false} JoinedCovers(i: Interface, pt: Paging, seen: seq<Piece>, virt: nat, n: nat)
    requires i.dmaAlign > 0 && AllReach(i, pt, Pieces(virt, n))
    ensures Addresses(Joined(pt, seen + Pieces(virt, n))) == Addresses(Joined(pt, seen)) + BufferAddresses(pt, virt, n)
    decreases n
  {
    hide *;
    var before := Addresses(Joined(pt, seen));
    if n == 0 {
      NoPieces(pt, virt);
      assert seen + [] == seen && before + [] == before;
    } else {
      var p := FirstPiece(virt, n);
      var piece, rest := Piece(virt, p), Pieces(virt + p, n - p);
      var start, last := BufferAddresses(pt, virt, p), BufferAddresses(pt, virt + p, n - p);
      FirstReached(i, pt, virt, n);
      calc {
        Addresses(Joined(pt, seen + Pieces(virt, n)));
        { assert seen + Pieces(virt, n) == (seen + [piece]) + rest; }
        Addresses(Joined(pt, (seen + [piece]) + rest));
        { JoinedCovers(i, pt, seen + [piece], virt + p, n - p); }
        Addresses(Joined(pt, seen + [piece])) + last;
        { JoinedNext(pt, seen, piece); JoinAddresses(Joined(pt, seen), Resolve(pt, virt), p); PieceAddresses(pt, virt, p); }
        (before + start) + last;
        { Regroup(before, start, last); BufferSplit(pt, virt, p, n); }
        before + BufferAddresses(pt, virt, n);
      }
    }
  }

  lemma UsableLonger(i: Interface, s: Segment, more: nat)
    requires i.dmaAlign > 0 && Usable(i, s) && Aligned(i, s.phys + s.length, more)
    requires s.phys + s.length + more <= i.dmaLimit + 1
    ensures Usable(i, Segment(s.phys, s.length + more))
  {
    Arith.MultiplesAdd(s.length, more, i.dmaAlign);
  }

  lemma {:induction false} JoinedUsable(i: Interface, pt: Paging, pieces: seq<Piece>)
    requires i.dmaAlign > 0 && AllReach(i, pt, pieces)
    ensures forall s | s in Joined(pt, pieces) :: Usable(i, s)
    ensures pieces != [] ==> Joined(pt, pieces) != []
  {
    if pieces != [] {
      var init, p := pieces[..|pieces| - 1], pieces[|pieces| - 1];
      JoinedUsable(i, pt, init);
      var before, phys := Joined(pt, init), Resolve(pt, p.virt);
      assert Joined(pt, pieces) == Join(before, phys, p.length);
      hide Joined, Resolve, Aligned;
      assert Reaches(i, pt, p);
      if before != [] && before[|before| - 1].phys + before[|before| - 1].length == phys {
        UsableLonger(i, before[|before| - 1], p.length);
      }
    }
  }

  /** What the chunk size is for: only memory the device cannot reach makes a chunk go through the bounce buffer. */
  lemma NeverShort(i: Interface, pt: Paging, virt: nat, n: nat)
    requires i.dmaAlign > 0 && i.maxSegments >= 2 && n <= (SegmentLimit(i) - 1) * PAGE
    ensures Mappable(i, pt, Pieces(virt, n)) <==> AllReach(i, pt, Pieces(virt, n))
  {
    FewPieces(virt, n);
    JoinedGrows(pt, [], Pieces(virt, n));
    assert [] + Pieces(virt, n) == Pieces(virt, n);
    assert Joined(pt, []) == [];
  }

  /** None of the segments goes on where the one before it ends. */
  ghost predicate Parted(segments: seq<Segment>)
  {
    forall j, k | 0 <= j < k < |segments| && k == j + 1 :: segments[j].phys + segments[j].length != segments[k].phys
  }

  lemma JoinParts(segments: seq<Segment>, phys: nat, length: nat)
    requires Parted(segments)
    ensures Parted(Join(segments, phys, length))
  {
    var n, joined := |segments|, Join(segments, phys, length);
    forall j, k | 0 <= j < k < |joined| && k == j + 1 ensures joined[j].phys + joined[j].length != joined[k].phys {
      assert joined[j] == segments[j];
      assert k < n ==> joined[k].phys == segments[k].phys;
    }
  }

  /** Memory that is in one piece goes in one segment: there are as few of them as can be. */
  lemma {:induction false} JoinedParts(pt: Paging, pieces: seq<Piece>)
    ensures Parted(Joined(pt, pieces))
  {
    if pieces != [] {
      var init, last := pieces[..|pieces| - 1], pieces[|pieces| - 1];
      JoinedParts(pt, init);
      JoinParts(Joined(pt, init), Resolve(pt, last.virt), last.length);
    }
  }

  /** A byte of memory that the device can be pointed at. */
  ghost predicate Within(i: Interface, pt: Paging, virt: nat)
  {
    pt.known(virt / PAGE) && 0 < Phys(pt, virt) <= i.dmaLimit
  }

  ghost predicate AllWithin(i: Interface, pt: Paging, virt: nat, n: nat)
  {
    forall v: nat | virt <= v < virt + n :: Within(i, pt, v)
  }

  lemma AlignedAlike(pt: Paging, virt: nat, a: nat)
    requires a > 0 && PAGE % a == 0
    ensures Phys(pt, virt) % a == 0 <==> virt % a == 0
    ensures (PAGE - virt % PAGE) % a == 0 <==> virt % a == 0
    ensures (virt + (PAGE - virt % PAGE)) % a == 0
  {
    var o := virt % PAGE;
    Arith.DividesMultiple(pt.frameOf(virt / PAGE), PAGE, a);
    Arith.MultipleAside(pt.frameOf(virt / PAGE) * PAGE, o, a);
    Arith.DividesMultiple(virt / PAGE, PAGE, a);
    Arith.MultipleAside(virt / PAGE * PAGE, o, a);
    assert virt == virt / PAGE * PAGE + o;
    if o % a == 0 { Arith.MultipleAside(o, PAGE - o, a); }
    if (PAGE - o) % a == 0 { Arith.MultipleAside(PAGE - o, o, a); }
    assert virt + (PAGE - o) == virt / PAGE * PAGE + PAGE;
    Arith.MultipleAside(virt / PAGE * PAGE, PAGE, a);
  }

  lemma PieceWithin(i: Interface, pt: Paging, virt: nat, p: nat)
    requires 0 < p <= PAGE - virt % PAGE
    ensures AllWithin(i, pt, virt, p) <==> pt.known(virt / PAGE) && 0 < Phys(pt, virt) && Phys(pt, virt) + p <= i.dmaLimit + 1
  {
    forall v: nat | virt <= v < virt + p ensures v / PAGE == virt / PAGE && Phys(pt, v) == Phys(pt, virt) + (v - virt) {
      assert v / PAGE == virt / PAGE && v % PAGE == virt % PAGE + (v - virt);
    }
    hide Phys;
    if AllWithin(i, pt, virt, p) {
      assert Within(i, pt, virt) && Within(i, pt, virt + p - 1);
    }
  }

  lemma PieceReaches(i: Interface, pt: Paging, virt: nat, p: nat)
    requires i.dmaAlign > 0 && PAGE % i.dmaAlign == 0 && 0 < p <= PAGE - virt % PAGE
    ensures Reaches(i, pt, Piece(virt, p)) <==> virt % i.dmaAlign == 0 && p % i.dmaAlign == 0 && AllWithin(i, pt, virt, p)
  {
    hide Phys, AllWithin;
    AlignedAlike(pt, virt, i.dmaAlign);
    PieceWithin(i, pt, virt, p);
  }

  lemma AllReachFirst(i: Interface, pt: Paging, virt: nat, n: nat)
    requires i.dmaAlign > 0 && n > 0
    ensures var p := FirstPiece(virt, n);
            AllReach(i, pt, Pieces(virt, n)) <==> Reaches(i, pt, Piece(virt, p)) && AllReach(i, pt, Pieces(virt + p, n - p))
  {
    var p := FirstPiece(virt, n);
    var first, rest := Piece(virt, p), Pieces(virt + p, n - p);
    assert Pieces(virt, n) == [first] + rest;
    hide Reaches, Pieces;
    assert forall q :: q in [first] + rest <==> q == first || q in rest;
  }

  lemma AllWithinSplit(i: Interface, pt: Paging, virt: nat, p: nat, n: nat)
    requires p <= n
    ensures AllWithin(i, pt, virt, n) <==> AllWithin(i, pt, virt, p) && AllWithin(i, pt, virt + p, n - p)
  {
    hide Within;
  }

  /**
   * On a device whose alignment divides the page size, a buffer goes without the bounce buffer exactly if it starts and
   * ends on that alignment and each of its bytes is known and below the limit.
   */
  lemma {:induction false} ReachExactly(i: Interface, pt: Paging, virt: nat, n: nat)
    requires i.dmaAlign > 0 && PAGE % i.dmaAlign == 0
    ensures AllReach(i, pt, Pieces(virt, n)) <==>
              n == 0 || (virt % i.dmaAlign == 0 && n % i.dmaAlign == 0 && AllWithin(i, pt, virt, n))
    decreases n
  {
    hide Reaches, AllWithin, AllReach;
    if n == 0 {
      NoneToReach(i, pt, virt);
    } else {
      var p := FirstPiece(virt, n);
      AllReachFirst(i, pt, virt, n);
      PieceReaches(i, pt, virt, p);
      ReachExactly(i, pt, virt + p, n - p);
      AllWithinSplit(i, pt, virt, p, n);
      AlignedAlike(pt, virt, i.dmaAlign);
      if p % i.dmaAlign == 0 {
        Arith.MultipleAside(p, n - p, i.dmaAlign);
      }
    }
  }

  lemma NoneToReach(i: Interface, pt: Paging, virt: nat)
    requires i.dmaAlign > 0
    ensures AllReach(i, pt, Pieces(virt, 0)) && AllWithin(i, pt, virt, 0)
  {
  }
}
