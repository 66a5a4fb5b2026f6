/** Reading and writing sectors: chunks, the bounce buffer and what reaches the disk. */
module BlockTransfer {
  import opened BlockRequest
  import opened Wrappers
  import Arith

  function Frames(phys: nat, pages: nat): set<nat>
  {
    set f | f in Range(phys / PAGE, pages)
  }

  ghost predicate InMemory(addresses: seq<nat>, size: nat)
  {
    forall k | 0 <= k < |addresses| :: addresses[k] < size
  }

  ghost predicate Distinct(addresses: seq<nat>)
  {
    forall j, k | 0 <= j < k < |addresses| :: addresses[j] != addresses[k]
  }

  ghost predicate Owned(addresses: seq<nat>, frames: set<nat>)
  {
    forall k | 0 <= k < |addresses| :: addresses[k] / PAGE in frames
  }

  /** The addresses a request moves data to or from: as many bytes as it is long. */
  function Named(r: Request): (a: seq<nat>)
    ensures |a| <= r.length
    ensures Total(r.segments) == r.length ==> a == Addresses(r.segments)
  {
    var all := Addresses(r.segments);
    if r.length <= |all| then all[..r.length] else all
  }

  /** Memory and disk agree: what is at these addresses is what is on the disk from start on. */
  ghost predicate Carried(memory: seq<Byte>, disk: seq<Byte>, start: nat, addresses: seq<nat>)
  {
    && InMemory(addresses, |memory|) && start + |addresses| <= |disk|
    && forall k | 0 <= k < |addresses| :: memory[addresses[k]] == disk[start + k]
  }

  /** All that a request may change: the memory it names when it reads, the sectors it names when it writes. */
  ghost predicate Confined(op: Op, memory0: seq<Byte>, disk0: seq<Byte>, memory: seq<Byte>, disk: seq<Byte>,
                           start: nat, addresses: seq<nat>)
  {
    && |memory| == |memory0| && |disk| == |disk0|
    && (op != Read ==> memory == memory0)
    && (op != Write ==> disk == disk0)
    && (forall a | 0 <= a < |memory| && a !in addresses :: memory[a] == memory0[a])
    && (forall b | 0 <= b < |disk| && !(start <= b < start + |addresses|) :: disk[b] == disk0[b])
  }

  /** Nothing in frames that belong to somebody changes, but for the buffer that is read into. */
  ghost predicate Kept(op: Op, memory0: seq<Byte>, memory: seq<Byte>, was: set<nat>, addresses: seq<nat>)
  {
    && |memory| == |memory0|
    && forall a | 0 <= a < |memory| && a / PAGE in was && (op == Write || a !in addresses) :: memory[a] == memory0[a]
  }

  ghost predicate DiskKept(op: Op, disk0: seq<Byte>, disk: seq<Byte>, start: nat, n: nat)
  {
    && |disk| == |disk0| && (op == Read ==> disk == disk0)
    && forall b | 0 <= b < |disk| && !(start <= b < start + n) :: disk[b] == disk0[b]
  }

  /** A chunk after the ones before it: all of them are carried. */
  lemma CarriedOn(op: Op, memory0: seq<Byte>, disk0: seq<Byte>, memory: seq<Byte>, disk: seq<Byte>, was: set<nat>,
                  start: nat, before: seq<nat>, next: seq<nat>)
    requires op == Read || op == Write
    requires Carried(memory0, disk0, start, before) && Carried(memory, disk, start + |before|, next)
    requires Distinct(before + next) && Owned(before, was)
    requires Kept(op, memory0, memory, was, next) && DiskKept(op, disk0, disk, start + |before|, |next|)
    ensures Carried(memory, disk, start, before + next)
  {
    var all := before + next;
    forall k | 0 <= k < |all| ensures all[k] < |memory| && start + k < |disk| && memory[all[k]] == disk[start + k] {
      if k < |before| {
        forall j | 0 <= j < |next| ensures before[k] != next[j] {
          assert all[k] != all[|before| + j];
        }
      } else {
        assert all[k] == next[k - |before|];
      }
    }
  }

  lemma KeptOn(op: Op, memory0: seq<Byte>, memory1: seq<Byte>, memory: seq<Byte>, was: set<nat>, all: seq<nat>, next: seq<nat>)
    requires Kept(op, memory0, memory1, was, all) && Kept(op, memory1, memory, was, next)
    requires forall a | a in next :: a in all
    ensures Kept(op, memory0, memory, was, all)
  {
  }

  lemma Unmoved(op: Op, memory: seq<Byte>, disk: seq<Byte>, start: nat, addresses: seq<nat>)
    ensures Confined(op, memory, disk, memory, disk, start, addresses)
  {
  }

  lemma SectorsOfDisk(i: Interface, r: Request, diskSize: nat)
    requires WellFormed(i, diskSize) && i.route.Disk? && Acceptable(i, r)
    ensures r.op != Flush ==> StartByte(i, r.lba) + |Named(r)| <= diskSize
    ensures StartByte(i, r.lba) == r.lba * i.sectorSize && r.op != Other
  {
    if r.op != Flush {
      Arith.DivideExact(r.length, i.sectorSize);
      OnDisk(i, r.lba, r.length / i.sectorSize, diskSize);
    }
  }

  /** A partition's request and what it becomes below mean the same sectors of the disk. */
  lemma SameSectors(i: Interface, r: Request, memory0: seq<Byte>, disk0: seq<Byte>, memory: seq<Byte>, disk: seq<Byte>)
    requires i.sectorSize > 0 && i.dmaAlign > 0 && i.route.Part? && i.sectorSize == i.route.root.sectorSize && Acceptable(i, r)
    requires r.op != Flush ==> Below(i, r).lba == i.route.lbaStart + r.lba
    requires Confined(r.op, memory0, disk0, memory, disk, StartByte(i.route.root, Below(i, r).lba), Named(r))
    ensures Confined(r.op, memory0, disk0, memory, disk, StartByte(i, r.lba), Named(r)) && Named(Below(i, r)) == Named(r)
    ensures r.op != Flush ==>
              && StartByte(i.route.root, Below(i, r).lba) == StartByte(i, r.lba)
              && Base(i.route.root) + Below(i, r).lba == Base(i) + r.lba
  {
  }

  lemma NamedBelow(i: Interface, r: Request)
    requires i.route.Part?
    ensures Named(Below(i, r)) == Named(r)
  {
  }

  /** What a request gets that never reaches the driver. */
  function Refusal(i: Interface, r: Request): Status
    requires i.sectorSize > 0 && i.dmaAlign > 0
  {
    if i.present && !Acceptable(i, r) then Invalid else NoDevice
  }

  predicate FreeRun(inUse: set<nat>, page: nat, pages: nat)
  {
    forall f | page <= f < page + pages :: f !in inUse
  }

  /** Nowhere are there so many free frames in a row. */
  ghost predicate OutOfFrames(inUse: set<nat>, dmaFrames: nat, pages: nat)
  {
    forall p: nat | p + pages <= dmaFrames :: !FreeRun(inUse, p, pages)
  }

  lemma RunOfFrames(inUse: set<nat>, page: nat, pages: nat)
    requires FreeRun(inUse, page, pages)
    ensures Frames(page * PAGE, pages) !! inUse && page * PAGE / PAGE == page
  {
  }

  /** The machine a transfer runs on: its memory, its frames, one disk. */
  class Machine {
    const paging: Paging
    const dmaFrames: nat          // The allocator hands out frames below this one
    var memory: seq<Byte>
    var disk: seq<Byte>
    var inUse: set<nat>           // The frames that are not free
    var lastPage: nat             // Where the allocator looks first
    ghost var driven: seq<Request>     // What reached the disk's driver
    ghost var answers: seq<Status>     // What the driver said to that
    ghost var submitted: seq<Request>  // What transfers asked for

    ghost predicate Valid()
      reads this
    {
      dmaFrames * PAGE <= |memory| && 0 in inUse
    }

    /** Mapped kernel memory that somebody owns. */
    ghost predicate Buffer(virt: nat, n: nat, frames: set<nat>)
      reads this
    {
      var a := BufferAddresses(paging, virt, n);
      InMemory(a, |memory|) && Distinct(a) && Owned(a, frames)
    }

    /** Any driver: it finishes a request, or fails it somewhere on the way. */
    method Drive(op: Op, start: nat, addresses: seq<nat>) returns (status: Status)
      requires InMemory(addresses, |memory|)
      requires op == Read || op == Write ==> start + |addresses| <= |disk|
      modifies this`memory, this`disk
      ensures Confined(op, old(memory), old(disk), memory, disk, start, addresses)
      ensures status == Ok && (op == Write || (op == Read && Distinct(addresses))) ==> Carried(memory, disk, start, addresses)
    {
      var stop: int := *;
      var k := 0;
      while k < |addresses| && k != stop && (op == Read || op == Write)
        invariant k <= |addresses|
        invariant Confined(op, old(memory), old(disk), memory, disk, start, addresses)
        invariant op == Write || (op == Read && Distinct(addresses)) ==> Carried(memory, disk, start, addresses[..k])
      {
        if op == Read {
          memory := memory[addresses[k] := disk[start + k]];
        } else {
          disk := disk[start + k := memory[addresses[k]]];
        }
        k := k + 1;
      }
      if k < |addresses| && (op == Read || op == Write) {
        status := *;
        if status == Ok {
          status := Io;
        }
      } else {
        assert addresses[..k] == addresses || !(op == Read || op == Write);
        status := *;
      }
    }

    /** The first of so many free frames in a row, with its number from first to last. */
    method FindFreeRange(first: nat, last: nat, pages: nat) returns (page: Option<nat>)
      ensures page.None? ==> forall p | first <= p <= last :: !FreeRun(inUse, p, pages)
      ensures page.Some? ==> first <= page.value <= last && FreeRun(inUse, page.value, pages)
      ensures page.Some? ==> forall p | first <= p < page.value :: !FreeRun(inUse, p, pages)
    {
      var p := first;
      while p <= last
        invariant forall q | first <= q < p :: !FreeRun(inUse, q, pages)
      {
        if FreeRun(inUse, p, pages) {
          return Some(p);
        }
        p := p + 1;
      }
      page := None;
    }

    /** Finds frames wherever there are enough of them in a row, though it does not begin at the first. */
    method AllocPages(pages: nat) returns (phys: nat)
      requires 0 in inUse
      modifies this`inUse, this`lastPage
      ensures phys == 0 ==> inUse == old(inUse)
      ensures phys != 0 ==>
                && pages > 0 && phys % PAGE == 0 && phys / PAGE + pages <= dmaFrames
                && Frames(phys, pages) !! old(inUse) && inUse == old(inUse) + Frames(phys, pages)
      ensures phys == 0 <==> pages == 0 || OutOfFrames(old(inUse), dmaFrames, pages)
    {
      if pages == 0 || pages > dmaFrames {
        return 0;
      }
      var lastStart := dmaFrames - pages;
      var hint := if lastPage <= lastStart then lastPage else 0;
      var page := FindFreeRange(hint, lastStart, pages);
      if page.None? && hint > 0 {
        page := FindFreeRange(0, hint - 1, pages);
      }
      if page.None? {
        return 0;
      }
      phys := page.value * PAGE;
      RunOfFrames(inUse, page.value, pages);
      inUse := inUse + Frames(phys, pages);
      lastPage := page.value + pages;
    }

    method FreePages(phys: nat, pages: nat)
      requires Frames(phys, pages) <= inUse
      modifies this`inUse, this`lastPage
      ensures inUse == old(inUse) - Frames(phys, pages)
    {
      inUse := inUse - Frames(phys, pages);
      lastPage := phys / PAGE;
    }

    method Submit(i: Interface, r: Request) returns (status: Status)
      requires WellFormed(i, |disk|)
      requires InMemory(Named(r), |memory|)
      modifies this`memory, this`disk, this`driven, this`answers
      ensures Confined(r.op, old(memory), old(disk), memory, disk, StartByte(i, r.lba), Named(r))
      ensures status == Ok && (r.op == Write || (r.op == Read && Distinct(Named(r)))) ==>
                Carried(memory, disk, StartByte(i, r.lba), Named(r))
      ensures AllPresent(i) && Acceptable(i, r) ==>
                && driven == old(driven) + [if r.op == Flush then r else r.(lba := Base(i) + r.lba)]
                && answers == old(answers) + [status]
      ensures !(AllPresent(i) && Acceptable(i, r)) ==>
                && status == Refusal(i, r) && memory == old(memory) && disk == old(disk)
                && driven == old(driven) && answers == old(answers)
      decreases i
    {
      hide Acceptable, Named, Distinct, InMemory, Carried, Confined, StartByte;
      assert Confined(r.op, memory, disk, memory, disk, StartByte(i, r.lba), Named(r)) by {
        Unmoved(r.op, memory, disk, StartByte(i, r.lba), Named(r));
      }
      if !i.present {
        return NoDevice;
      }
      var valid := RequestValid(i, r);
      if !valid {
        return Invalid;
      }
      match i.route {
        case Disk =>
          SectorsOfDisk(i, r, |disk|);
          driven := driven + [r];
          status := Drive(r.op, r.lba * i.sectorSize, Named(r));
          answers := answers + [status];
        case Part(root, start) =>
          AcceptedBelow(i, r, |disk|);
          assert Named(Below(i, r)) == Named(r) by { NamedBelow(i, r); }
          status := Submit(root, Below(i, r));
          SameSectors(i, r, old(memory), old(disk), memory, disk);
      }
    }

    // -------------------------------------------------------------------------------------------
    // Transfers

    /** The bounce buffer, when there is one, is the only thing held beyond what was in use before. */
    ghost predicate Holding(was: set<nat>, bounce: nat, pages: nat)
      reads this
    {
      if bounce == 0 then inUse == was
      else
        && bounce % PAGE == 0 && bounce / PAGE + pages <= dmaFrames
        && Frames(bounce, pages) !! was && inUse == was + Frames(bounce, pages)
    }

    /** A request's status is the driver's answer, or there is none. */
    ghost predicate Answered(i: Interface, r: Request, status: Status, before: seq<Status>, after: seq<Status>)
      requires i.sectorSize > 0 && i.dmaAlign > 0
    {
      if AllPresent(i) && Acceptable(i, r) then after == before + [status] else after == before && status == Refusal(i, r)
    }

    /** Why a transfer fails when the driver does not fail it. */
    ghost predicate Cause(i: Interface, was: set<nat>, pages: nat, status: Status)
      requires i.dmaAlign > 0
    {
      match status
      case NoMemory => OutOfFrames(was, dmaFrames, pages)
      case Invalid => !Reachable(i)
      case NoDevice => !AllPresent(i)
      case _ => false
    }

    /** Nothing failed, or it was the driver's last answer, or there is a cause for it. */
    ghost predicate Explained(i: Interface, was: set<nat>, pages: nat, status: Status, before: seq<Status>, after: seq<Status>)
      requires i.dmaAlign > 0
    {
      && before <= after
      && (|| status == Ok
          || (|after| > |before| && after[|after| - 1] == status)
          || Cause(i, was, pages, status))
    }

    lemma AnswerExplains(i: Interface, r: Request, status: Status, before: seq<Status>, after: seq<Status>, was: set<nat>, pages: nat)
      requires i.sectorSize > 0 && i.dmaAlign > 0 && (Reachable(i) ==> Acceptable(i, r))
      requires Answered(i, r, status, before, after)
      ensures Explained(i, was, pages, status, before, after) && (after == before ==> status != NoMemory)
    {
    }

    /** Copies between two places that do not overlap. */
    method Copy(to: seq<nat>, from: seq<nat>)
      requires |to| == |from| && InMemory(to, |memory|) && InMemory(from, |memory|) && Distinct(to) && Apart(to, from)
      modifies this`memory
      ensures |memory| == old(|memory|) && Copied(old(memory), memory, to, from)
    {
      for k := 0 to |to|
        invariant |memory| == old(|memory|)
        invariant forall j | 0 <= j < k :: memory[to[j]] == old(memory[from[j]])
        invariant forall a | 0 <= a < |memory| && a !in to :: memory[a] == old(memory[a])
      {
        memory := memory[to[k] := memory[from[k]]];
      }
    }

    method MoveDirect(i: Interface, op: Op, lba: nat, bytes: nat, buffer: nat, segments: seq<Segment>, ghost was: set<nat>)
      returns (status: Status)
      requires op == Read || op == Write
      requires WellFormed(i, |disk|) && Buffer(buffer, bytes, was) && bytes < TWO_64
      requires Addresses(segments) == BufferAddresses(paging, buffer, bytes)
      modifies this`memory, this`disk, this`driven, this`answers, this`submitted
      ensures Kept(op, old(memory), memory, was, BufferAddresses(paging, buffer, bytes))
      ensures DiskKept(op, old(disk), disk, StartByte(i, lba), bytes)
      ensures status == Ok ==> Carried(memory, disk, StartByte(i, lba), BufferAddresses(paging, buffer, bytes))
      ensures submitted == old(submitted) + [Request(op, lba, bytes, segments)]
      ensures Answered(i, Request(op, lba, bytes, segments), status, old(answers), answers)
    {
      hide Addresses, Acceptable, BufferAddresses, WellFormed, StartByte;
      var r := Request(op, lba, bytes, segments);
      submitted := submitted + [r];
      status := Submit(i, r);
    }

    /** Through the bounce buffer. */
    method MoveBounced(i: Interface, op: Op, lba: nat, bytes: nat, buffer: nat, bounce: nat, pages: nat, ghost was: set<nat>)
      returns (status: Status)
      requires op == Read || op == Write
      requires Valid() && WellFormed(i, |disk|) && Buffer(buffer, bytes, was) && bytes < TWO_64
      requires bounce != 0 && Holding(was, bounce, pages) && bytes <= pages * PAGE
      modifies this`memory, this`disk, this`driven, this`answers, this`submitted
      ensures Kept(op, old(memory), memory, was, BufferAddresses(paging, buffer, bytes))
      ensures DiskKept(op, old(disk), disk, StartByte(i, lba), bytes)
      ensures status == Ok ==> Carried(memory, disk, StartByte(i, lba), BufferAddresses(paging, buffer, bytes))
      ensures submitted == old(submitted) + [Request(op, lba, bytes, [Segment(bounce, bytes)])]
      ensures Answered(i, Request(op, lba, bytes, [Segment(bounce, bytes)]), status, old(answers), answers)
    {
      hide Acceptable, BufferAddresses, WellFormed, StartByte, Range, Distinct, Owned, InMemory, Frames, Addresses, Named, Holding;
      hide Separate, Copied, Confined, Carried, Kept, DiskKept;
      var r := Request(op, lba, bytes, [Segment(bounce, bytes)]);
      var area, place := Range(bounce, bytes), BufferAddresses(paging, buffer, bytes);
      ghost var start := StartByte(i, lba);
      HeldApart(was, bounce, pages, bytes, place);
      BounceNamed(op, lba, bounce, bytes);
      SeparateParts(area, place, was, |memory|);
      if op == Write {
        Copy(area, place);
      }
      ghost var filled := memory;
      submitted := submitted + [r];
      status := Submit(i, r);
      if op == Write {
        BouncedOut(old(memory), old(disk), filled, memory, disk, start, area, place, was);
      } else {
        ghost var arrived := memory;
        BouncedIn(old(memory), old(disk), arrived, disk, start, area, place, was);
        if status == Ok {
          Copy(place, area);
          BouncedOn(old(memory), arrived, memory, disk, start, area, place, was);
        }
      }
    }

    lemma HeldApart(was: set<nat>, bounce: nat, pages: nat, bytes: nat, place: seq<nat>)
      requires Valid() && bounce != 0 && Holding(was, bounce, pages) && bytes <= pages * PAGE
      requires |place| == bytes && InMemory(place, |memory|) && Distinct(place) && Owned(place, was)
      ensures Separate(Range(bounce, bytes), place, was, |memory|)
    {
      BounceApart(was, bounce, pages, bytes, place);
      hide Frames, Owned, Distinct, Apart;
      assert InMemory(Range(bounce, bytes), |memory|);
    }

    /** A bounce buffer anywhere in the allocator's frames is within the device's reach. */
    predicate Reachable(i: Interface)
      requires i.dmaAlign > 0
    {
      PAGE % i.dmaAlign == 0 && i.sectorSize % i.dmaAlign == 0 && dmaFrames * PAGE <= i.dmaLimit + 1
    }

    lemma BounceTaken(i: Interface, op: Op, lba: nat, chunk: nat, bounce: nat, pages: nat, diskSize: nat)
      requires op == Read || op == Write
      requires WellFormed(i, diskSize) && 0 < chunk && lba + chunk <= i.sectorCount && chunk * i.sectorSize <= i.maxTransfer
      requires i.maxSegments > 0 && chunk * i.sectorSize <= pages * PAGE && bounce % PAGE == 0 && bounce / PAGE + pages <= dmaFrames
      ensures Reachable(i) ==> Acceptable(i, Request(op, lba, chunk * i.sectorSize, [Segment(bounce, chunk * i.sectorSize)]))
    {
      hide Acceptable, Aligned;
      BounceAcceptable(i, op, lba, chunk, bounce, diskSize);
      if Reachable(i) {
        BounceReached(i, chunk, bounce, pages, dmaFrames);
      }
    }

    lemma Starved(i: Interface, was: set<nat>, pages: nat, answers: seq<Status>)
      requires i.dmaAlign > 0 && OutOfFrames(was, dmaFrames, pages)
      ensures Explained(i, was, pages, NoMemory, answers, answers)
    {
    }

    ghost predicate Asked(i: Interface, before: seq<Request>, op: Op, lba: nat, bytes: nat)
      requires i.sectorSize > 0 && i.dmaAlign > 0
      reads this
    {
      && |submitted| == |before| + 1 && before <= submitted
      && var r := submitted[|before|];
         r.op == op && r.lba == lba && r.length == bytes && (Reachable(i) ==> Acceptable(i, r))
    }

    method MoveChunk(i: Interface, op: Op, lba: nat, chunk: nat, buffer: nat, bounce0: nat, pages: nat, ghost was: set<nat>)
      returns (status: Status, bounce: nat)
      requires op == Read || op == Write
      requires Valid() && WellFormed(i, |disk|) && i.maxSegments > 0
      requires 0 < chunk && lba + chunk <= i.sectorCount && chunk * i.sectorSize <= i.maxTransfer
      requires chunk * i.sectorSize <= pages * PAGE && Holding(was, bounce0, pages)
      requires Buffer(buffer, chunk * i.sectorSize, was)
      modifies this
      ensures Valid() && Holding(was, bounce, pages) && |memory| == old(|memory|) && |disk| == old(|disk|)
      ensures Kept(op, old(memory), memory, was, BufferAddresses(paging, buffer, chunk * i.sectorSize))
      ensures DiskKept(op, old(disk), disk, StartByte(i, lba), chunk * i.sectorSize)
      ensures status == Ok ==> Carried(memory, disk, StartByte(i, lba), BufferAddresses(paging, buffer, chunk * i.sectorSize))
      ensures Asked(i, old(submitted), op, lba, chunk * i.sectorSize) || (status == NoMemory && submitted == old(submitted))
      ensures Explained(i, was, pages, status, old(answers), answers)
      ensures status == NoMemory && answers == old(answers) <==>
                !Mappable(i, paging, Pieces(buffer, chunk * i.sectorSize)) && bounce0 == 0 && OutOfFrames(was, dmaFrames, pages)
    {
      hide Addresses, Acceptable, BufferAddresses, WellFormed, StartByte, Distinct, InMemory, Owned, Frames, Carried;
      hide Joined, Pieces, Mappable, Answered, Explained, Reachable, OutOfFrames, Usable;
      Sized(i, |disk|);
      var bytes := chunk * i.sectorSize;
      bounce := bounce0;
      var direct, segments := MapSegments(i, paging, buffer, bytes);
      if direct {
        DirectAcceptable(i, paging, op, lba, chunk, buffer, |disk|);
        status := MoveDirect(i, op, lba, bytes, buffer, segments, was);
        AnswerExplains(i, Request(op, lba, bytes, segments), status, old(answers), answers, was, pages);
      } else {
        if bounce == 0 {
          bounce := AllocPages(pages);
          if bounce == 0 {
            Starved(i, was, pages, answers);
            return NoMemory, 0;
          }
        }
        BounceTaken(i, op, lba, chunk, bounce, pages, |disk|);
        status := MoveBounced(i, op, lba, bytes, buffer, bounce, pages, was);
        AnswerExplains(i, Request(op, lba, bytes, [Segment(bounce, bytes)]), status, old(answers), answers, was, pages);
      }
    }

    /** What a transfer has changed and asked for on its way. */
    ghost predicate Moving(t: Job, end: nat)
      reads this
    {
      var total := Bytes(t.count, t.i.sectorSize);
      && Valid() && WellFormed(t.i, |disk|) && Buffer(t.buffer, total, t.was)
      && Kept(t.op, t.memory0, memory, t.was, BufferAddresses(paging, t.buffer, total))
      && DiskKept(t.op, t.disk0, disk, StartByte(t.i, t.lba), total)
      && t.lba <= end <= t.lba + t.count
      && t.asked <= submitted && Tiled(submitted[|t.asked|..], t.op, t.i.sectorSize, t.lba, end)
      && (Reachable(t.i) ==> forall k | |t.asked| <= k < |submitted| :: Acceptable(t.i, submitted[k]))
    }

    ghost predicate Moved(t: Job, done: nat)
      reads this
    {
      Carried(memory, disk, StartByte(t.i, t.lba), BufferAddresses(paging, t.buffer, Bytes(done, t.i.sectorSize)))
    }

    /** One chunk of a transfer that has moved done sectors so far. */
    method NextChunk(i: Interface, op: Op, lba: nat, buffer: nat, done: nat, chunk: nat, bounce0: nat, pages: nat, ghost t: Job)
      returns (status: Status, bounce: nat, ghost end: nat)
      requires op == Read || op == Write
      requires t.i == i && t.op == op && t.lba == lba && t.buffer == buffer
      requires Moving(t, lba + done) && Moved(t, done) && Holding(t.was, bounce0, pages) && i.maxSegments > 0
      requires 0 < chunk && done + chunk <= t.count && lba + t.count <= i.sectorCount && chunk * i.sectorSize <= i.maxTransfer
      requires chunk * i.sectorSize <= pages * PAGE
      modifies this
      ensures Holding(t.was, bounce, pages) && Moving(t, end) && Explained(i, t.was, pages, status, old(answers), answers)
      ensures status == Ok ==> Moved(t, done + chunk) && end == lba + done + chunk
    {
      hide Bytes, Addresses, Acceptable, BufferAddresses, WellFormed, StartByte, Distinct, InMemory, Owned, Carried, Kept;
      hide DiskKept, Holding, Tiled, Valid, Explained, Mappable, OutOfFrames, Pieces;
      var n, m := Bytes(done, i.sectorSize), Bytes(chunk, i.sectorSize);
      ghost var total := Bytes(t.count, i.sectorSize);
      SectorBytes(i, lba, done, chunk, t.count);
      Sized(i, |disk|);
      BufferPart(paging, buffer, n, m, total, t.was, |memory|);
      status, bounce := MoveChunk(i, op, lba + done, chunk, buffer + n, bounce0, pages, t.was);
      ChunkMoved(paging, t, old(memory), old(disk), memory, disk, done, chunk);
      end := lba + done;
      if submitted != old(submitted) {
        TiledNext(old(submitted), submitted, |t.asked|, op, i.sectorSize, lba, lba + done, chunk);
        end := lba + done + chunk;
      }
    }

    /** Chunk by chunk, with at most one bounce buffer for all of them. */
    method MoveAll(i: Interface, op: Op, lba: nat, count: nat, buffer: nat, maxSectors: nat, ghost t: Job)
      returns (status: Status, ghost end: nat)
      requires op == Read || op == Write
      requires t == Job(i, op, lba, count, buffer, inUse, memory, disk, submitted) && Moving(t, lba) && Moved(t, 0)
      requires lba + count <= i.sectorCount && i.maxSegments > 0 && maxSectors > 0 && maxSectors * i.sectorSize <= i.maxTransfer
      modifies this
      ensures inUse == old(inUse) && Moving(t, end)
      ensures Explained(i, inUse, PageCount(maxSectors * i.sectorSize), status, old(answers), answers)
      ensures status == Ok ==> Moved(t, count) && end == lba + count
    {
      end := lba;
      var bounce: nat, pages := 0, PageCount(maxSectors * i.sectorSize);
      var done := 0;
      status := Ok;
      hide Frames, Moving, Moved;
      while done < count && status == Ok
        invariant done <= count && Holding(t.was, bounce, pages) && Moving(t, end)
        invariant status == Ok ==> Moved(t, done) && end == lba + done
        invariant Explained(i, t.was, pages, status, old(answers), answers)
        decreases count - done, status == Ok
      {
        var chunk := if count - done < maxSectors then count - done else maxSectors;
        Arith.MulMonotone(chunk, maxSectors, i.sectorSize);
        status, bounce, end := NextChunk(i, op, lba, buffer, done, chunk, bounce, pages, t);
        if status == Ok {
          done := done + chunk;
        }
      }
      if bounce != 0 {
        FreePages(bounce, pages);
      }
    }

    /** The most sectors a chunk has: with two segments or more, never more than they are sure to be enough for. */
    static method ChunkSize(i: Interface) returns (maxSectors: nat)
      requires i.sectorSize > 0
      ensures maxSectors == 0 <==> Tiny(i)
      ensures Bytes(maxSectors, i.sectorSize) <= i.maxTransfer
      ensures i.maxSegments > 0 ==> maxSectors == SectorsOf(ChunkBytes(i), i.sectorSize)
      ensures i.maxSegments >= 2 ==> Bytes(maxSectors, i.sectorSize) <= (SegmentLimit(i) - 1) * PAGE
      ensures maxSectors > 0 ==>
                var more := Bytes(maxSectors + 1, i.sectorSize);
                more > i.maxTransfer || (i.maxSegments >= 2 && more > (SegmentLimit(i) - 1) * PAGE)
    {
      assert Bytes(0, i.sectorSize) == 0;
      hide Bytes, SectorsOf;
      var maxSegments := MAX_SEGMENTS;
      if i.maxSegments < MAX_SEGMENTS {
        maxSegments := i.maxSegments;
      }
      if maxSegments == 0 {
        return 0;
      }
      var maxBytes := (maxSegments - 1) * PAGE;
      if maxSegments == 1 || maxBytes > i.maxTransfer {
        maxBytes := i.maxTransfer;
      }
      maxSectors := SectorsIn(maxBytes, i.sectorSize);
    }

    static method SectorsIn(bytes: nat, sectorSize: nat) returns (n: nat)
      requires sectorSize > 0
      ensures n == 0 <==> bytes < sectorSize
      ensures Bytes(n, sectorSize) <= bytes < Bytes(n + 1, sectorSize) && n == SectorsOf(bytes, sectorSize)
    {
      n := bytes / sectorSize;
      DivZero(bytes, sectorSize);
    }

    /** Sectors lba to lba + count - 1 to or from the buffer. */
    method Transfer(i: Interface, op: Op, lba: nat, count: nat, buffer: nat) returns (status: Status, ghost end: nat)
      requires op == Read || op == Write
      requires Valid() && WellFormed(i, |disk|) && Buffer(buffer, count * i.sectorSize, inUse)
      modifies this
      ensures Valid() && inUse == old(inUse)
      ensures Kept(op, old(memory), memory, inUse, BufferAddresses(paging, buffer, count * i.sectorSize))
      ensures DiskKept(op, old(disk), disk, StartByte(i, lba), count * i.sectorSize)
      ensures status == Ok ==> Carried(memory, disk, StartByte(i, lba), BufferAddresses(paging, buffer, count * i.sectorSize))
      ensures lba <= end <= lba + count && (status == Ok ==> end == lba + count)
      ensures old(submitted) <= submitted && Tiled(submitted[|old(submitted)|..], op, i.sectorSize, lba, end)
      ensures Reachable(i) ==> forall k | |old(submitted)| <= k < |submitted| :: Acceptable(i, submitted[k])
      ensures !i.present ==> status == NoDevice && end == lba
      ensures i.present && (lba >= i.sectorCount || lba + count > i.sectorCount) ==> status == Invalid && end == lba
      ensures i.present && lba < i.sectorCount && lba + count <= i.sectorCount && Tiny(i) ==> status == Io && end == lba
      ensures i.present && lba < i.sectorCount && lba + count <= i.sectorCount && !Tiny(i) ==>
                Explained(i, inUse, BouncePages(i), status, old(answers), answers)
    {
      end := lba;
      ghost var t := Job(i, op, lba, count, buffer, inUse, memory, disk, submitted);
      NothingYet(op, memory, disk, inUse, StartByte(i, lba), paging, buffer, BufferAddresses(paging, buffer, count * i.sectorSize));
      assert submitted[|submitted|..] == [] && Tiled([], op, i.sectorSize, lba, lba);
      if lba + count <= i.sectorCount { OnDisk(i, lba, count, |disk|); }
      hide Addresses, Acceptable, BufferAddresses, StartByte, Distinct, InMemory, Owned, Carried, Kept, DiskKept, Tiled;
      hide Frames, Reachable, Valid;
      if !i.present {
        return NoDevice, lba;
      }
      if lba >= i.sectorCount || count > i.sectorCount - lba {
        return Invalid, lba;
      }
      var maxSectors := ChunkSize(i);
      if maxSectors == 0 {
        return Io, lba;
      }
      status, end := MoveAll(i, op, lba, count, buffer, maxSectors, t);
    }
  }

  /** What is written reads back, whichever chunks bounced on either way. */
  method WriteThenRead(machine: Machine, i: Interface, lba: nat, count: nat, from: nat, to: nat) returns (done: bool)
    requires machine.Valid() && WellFormed(i, |machine.disk|)
    requires machine.Buffer(from, count * i.sectorSize, machine.inUse) && machine.Buffer(to, count * i.sectorSize, machine.inUse)
    modifies machine
    ensures var n := count * i.sectorSize;
            var a, b := BufferAddresses(machine.paging, from, n), BufferAddresses(machine.paging, to, n);
            && InMemory(a, |old(machine.memory)|) && InMemory(b, |machine.memory|)
            && (done ==> forall k | 0 <= k < n :: machine.memory[b[k]] == old(machine.memory)[a[k]])
  {
    ghost var n := count * i.sectorSize;
    ghost var a, b := BufferAddresses(machine.paging, from, n), BufferAddresses(machine.paging, to, n);
    hide BufferAddresses, WellFormed, Distinct, Tiled, Acceptable, StartByte, Machine.Reachable;
    var wrote, read;
    ghost var end;
    wrote, end := machine.Transfer(i, Write, lba, count, from);
    if wrote != Ok {
      return false;
    }
    ghost var written := machine.disk;
    assert forall k | 0 <= k < |a| :: old(machine.memory)[a[k]] == written[StartByte(i, lba) + k];
    read, end := machine.Transfer(i, Read, lba, count, to);
    done := read == Ok;
  }

  /** A transfer, and how things were when it began. */
  datatype Job = Job(i: Interface, op: Op, lba: nat, count: nat, buffer: nat,
                       was: set<nat>, memory0: seq<Byte>, disk0: seq<Byte>, asked: seq<Request>)

  function Bytes(sectors: nat, sectorSize: nat): nat
  {
    sectors * sectorSize
  }

  lemma DivZero(n: nat, m: nat)
    requires m > 0
    ensures n / m == 0 <==> n < m
    ensures n / m * m <= n < (n / m + 1) * m
  {
    assert n == n / m * m + n % m;
    assert (n / m + 1) * m == n / m * m + m;
  }

  lemma TiledNext(before: seq<Request>, after: seq<Request>, from: nat, op: Op, sectorSize: nat, lba: nat, end: nat, chunk: nat)
    requires from <= |before| && |after| == |before| + 1 && before <= after && lba <= end && chunk > 0
    requires Tiled(before[from..], op, sectorSize, lba, end)
    requires var r := after[|before|]; r.op == op && r.lba == end && r.length == chunk * sectorSize
    ensures Tiled(after[from..], op, sectorSize, lba, end + chunk)
  {
    var requests := after[from..];
    assert requests[..|requests| - 1] == before[from..];
  }

  ghost predicate Tiled(requests: seq<Request>, op: Op, sectorSize: nat, lba: nat, end: nat)
  {
    if requests == [] then lba == end
    else
      var last := requests[|requests| - 1];
      && last.op == op && lba <= last.lba < end && last.length == (end - last.lba) * sectorSize
      && Tiled(requests[..|requests| - 1], op, sectorSize, lba, last.lba)
  }

  function PageCount(bytes: nat): (pages: nat)
    ensures (pages - 1) * PAGE < bytes <= pages * PAGE
  {
    (bytes + PAGE - 1) / PAGE
  }

  function SectorsOf(bytes: nat, sectorSize: nat): nat
    requires sectorSize > 0
  {
    bytes / sectorSize
  }

  function ChunkBytes(i: Interface): nat
    requires i.maxSegments > 0
  {
    if i.maxSegments == 1 || (SegmentLimit(i) - 1) * PAGE > i.maxTransfer then i.maxTransfer else (SegmentLimit(i) - 1) * PAGE
  }

  /** What the largest chunk takes. */
  function BouncePages(i: Interface): nat
    requires i.maxSegments > 0 && i.sectorSize > 0
  {
    PageCount(SectorsOf(ChunkBytes(i), i.sectorSize) * i.sectorSize)
  }

  /** Not even one sector fits in the largest request there may be. */
  predicate Tiny(i: Interface)
  {
    i.maxSegments == 0 || i.maxTransfer < i.sectorSize || (i.maxSegments > 1 && (SegmentLimit(i) - 1) * PAGE < i.sectorSize)
  }

  lemma NothingYet(op: Op, memory: seq<Byte>, disk: seq<Byte>, was: set<nat>, start: nat, pt: Paging, buffer: nat, all: seq<nat>)
    ensures Kept(op, memory, memory, was, all) && DiskKept(op, disk, disk, start, |all|)
    ensures start <= |disk| ==> Carried(memory, disk, start, BufferAddresses(pt, buffer, 0))
  {
  }

  lemma DiskKeptOn(op: Op, disk0: seq<Byte>, disk1: seq<Byte>, disk: seq<Byte>, start: nat, total: nat, n: nat, m: nat)
    requires DiskKept(op, disk0, disk1, start, total) && DiskKept(op, disk1, disk, start + n, m) && n + m <= total
    ensures DiskKept(op, disk0, disk, start, total)
  {
  }

  /** One chunk further: what the chunk before left, and this one keeps and carries. */
  lemma ChunkMoved(pt: Paging, t: Job, memory1: seq<Byte>, disk1: seq<Byte>, memory: seq<Byte>, disk: seq<Byte>, done: nat, chunk: nat)
    requires (t.op == Read || t.op == Write) && done + chunk <= t.count
    requires var total := Bytes(t.count, t.i.sectorSize);
             var all := BufferAddresses(pt, t.buffer, total);
             && InMemory(all, |memory|) && Distinct(all) && Owned(all, t.was)
             && Kept(t.op, t.memory0, memory1, t.was, all) && DiskKept(t.op, t.disk0, disk1, StartByte(t.i, t.lba), total)
    requires var n, m := Bytes(done, t.i.sectorSize), Bytes(chunk, t.i.sectorSize);
             var next := BufferAddresses(pt, t.buffer + n, m);
             && Carried(memory1, disk1, StartByte(t.i, t.lba), BufferAddresses(pt, t.buffer, n))
             && Kept(t.op, memory1, memory, t.was, next) && DiskKept(t.op, disk1, disk, StartByte(t.i, t.lba + done), m)
    ensures var total := Bytes(t.count, t.i.sectorSize);
            && Kept(t.op, t.memory0, memory, t.was, BufferAddresses(pt, t.buffer, total))
            && DiskKept(t.op, t.disk0, disk, StartByte(t.i, t.lba), total)
    ensures var n, m := Bytes(done, t.i.sectorSize), Bytes(chunk, t.i.sectorSize);
            Carried(memory, disk, StartByte(t.i, t.lba + done), BufferAddresses(pt, t.buffer + n, m)) ==>
            Carried(memory, disk, StartByte(t.i, t.lba), BufferAddresses(pt, t.buffer, Bytes(done + chunk, t.i.sectorSize)))
  {
    hide Bytes, BufferAddresses, StartByte, Distinct, InMemory, Owned, Carried, Kept, DiskKept;
    var n, m, total := Bytes(done, t.i.sectorSize), Bytes(chunk, t.i.sectorSize), Bytes(t.count, t.i.sectorSize);
    SectorBytes(t.i, t.lba, done, chunk, t.count);
    BufferPart(pt, t.buffer, n, m, total, t.was, |memory|);
    var all, next, start := BufferAddresses(pt, t.buffer, total), BufferAddresses(pt, t.buffer + n, m), StartByte(t.i, t.lba);
    KeptOn(t.op, t.memory0, memory1, memory, t.was, all, next);
    DiskKeptOn(t.op, t.disk0, disk1, disk, start, total, n, m);
    if Carried(memory, disk, start + n, next) {
      CarriedOn(t.op, memory1, disk1, memory, disk, t.was, start, BufferAddresses(pt, t.buffer, n), next);
      BufferSplit(pt, t.buffer, n, n + m);
    }
  }

  lemma Sized(i: Interface, diskSize: nat)
    requires WellFormed(i, diskSize)
    ensures i.sectorSize > 0 && i.dmaAlign > 0 && i.maxTransfer < TWO_64
  {
  }

  lemma SectorBytes(i: Interface, lba: nat, done: nat, chunk: nat, count: nat)
    requires done + chunk <= count
    ensures Bytes(done + chunk, i.sectorSize) == Bytes(done, i.sectorSize) + Bytes(chunk, i.sectorSize) <= Bytes(count, i.sectorSize)
    ensures StartByte(i, lba + done) == StartByte(i, lba) + Bytes(done, i.sectorSize) && Bytes(chunk, i.sectorSize) == chunk * i.sectorSize
  {
    Arith.MulMonotone(done + chunk, count, i.sectorSize);
  }

  /** A part of a buffer is a buffer. */
  lemma BufferPart(pt: Paging, buffer: nat, n: nat, m: nat, total: nat, was: set<nat>, size: nat)
    requires n + m <= total
    requires var a := BufferAddresses(pt, buffer, total); InMemory(a, size) && Distinct(a) && Owned(a, was)
    ensures var a := BufferAddresses(pt, buffer + n, m);
            && InMemory(a, size) && Distinct(a) && Owned(a, was)
            && (forall k | k in a :: k in BufferAddresses(pt, buffer, total))
    ensures Owned(BufferAddresses(pt, buffer, n), was)
    ensures Distinct(BufferAddresses(pt, buffer, n) + BufferAddresses(pt, buffer + n, m))
  {
    var all := BufferAddresses(pt, buffer, total);
    var a, b := BufferAddresses(pt, buffer, n), BufferAddresses(pt, buffer + n, m);
    assert b == all[n..n + m];
    assert a == all[..n];
    assert a + b == all[..n + m];
  }

  /** A request for the buffer itself is one the device takes, and names the buffer's bytes in order. */
  lemma DirectAcceptable(i: Interface, pt: Paging, op: Op, lba: nat, chunk: nat, buffer: nat, diskSize: nat)
    requires op == Read || op == Write
    requires WellFormed(i, diskSize) && 0 < chunk && lba + chunk <= i.sectorCount && chunk * i.sectorSize <= i.maxTransfer
    requires Mappable(i, pt, Pieces(buffer, chunk * i.sectorSize))
    ensures var bytes := chunk * i.sectorSize;
            var segments := Joined(pt, Pieces(buffer, bytes));
            && Acceptable(i, Request(op, lba, bytes, segments))
            && Addresses(segments) == BufferAddresses(pt, buffer, bytes)
  {
    hide Joined, Pieces, Addresses, BufferAddresses, Usable, AllReach, StartByte;
    var bytes := chunk * i.sectorSize;
    var segments := Joined(pt, Pieces(buffer, bytes));
    WholeSectors(chunk, i.sectorSize);
    DirectCovers(i, pt, buffer, bytes);
    assert Total(segments) == |Addresses(segments)| == bytes;
    SmallTotal(bytes);
  }

  lemma SmallTotal(n: nat)
    requires n < TWO_64
    ensures Wrap(n) == n
  {
  }

  lemma WholeSectors(chunk: nat, sectorSize: nat)
    requires chunk > 0 && sectorSize > 0
    ensures var bytes := chunk * sectorSize; bytes > 0 && bytes % sectorSize == 0 && bytes / sectorSize == chunk
  {
    Arith.DivModUnique(chunk * sectorSize, chunk, 0, sectorSize);
    Arith.MulGap(chunk, sectorSize);
  }

  lemma DirectCovers(i: Interface, pt: Paging, buffer: nat, n: nat)
    requires i.dmaAlign > 0 && n > 0 && Mappable(i, pt, Pieces(buffer, n))
    ensures var segments := Joined(pt, Pieces(buffer, n));
            && 0 < |segments| <= i.maxSegments && (forall k | 0 <= k < |segments| :: Usable(i, segments[k]))
            && Addresses(segments) == BufferAddresses(pt, buffer, n)
  {
    var pieces := Pieces(buffer, n);
    assert pieces != [] && [] + pieces == pieces && Addresses(Joined(pt, [])) == [];
    hide Joined, Pieces, Addresses, BufferAddresses, Usable, AllReach;
    JoinedUsable(i, pt, pieces);
    JoinedCovers(i, pt, [], buffer, n);
    var segments := Joined(pt, pieces);
    forall k | 0 <= k < |segments| ensures Usable(i, segments[k]) {
      assert segments[k] in segments;
    }
  }

  /** A request for the bounce buffer is one the device takes exactly if the device can reach it. */
  lemma BounceAcceptable(i: Interface, op: Op, lba: nat, chunk: nat, bounce: nat, diskSize: nat)
    requires op == Read || op == Write
    requires WellFormed(i, diskSize) && 0 < chunk && lba + chunk <= i.sectorCount && chunk * i.sectorSize <= i.maxTransfer
    requires i.maxSegments > 0
    ensures var bytes := chunk * i.sectorSize;
            Acceptable(i, Request(op, lba, bytes, [Segment(bounce, bytes)])) <==>
            Aligned(i, bounce, bytes) && bounce + bytes <= i.dmaLimit + 1
  {
    var bytes := chunk * i.sectorSize;
    WholeSectors(chunk, i.sectorSize);
    OneSegment(bounce, bytes);
    var segments := [Segment(bounce, bytes)];
    hide Total, Aligned;
    assert Usable(i, segments[0]) <==> Aligned(i, bounce, bytes) && bounce + bytes <= i.dmaLimit + 1;
  }

  lemma BounceReached(i: Interface, chunk: nat, bounce: nat, pages: nat, dmaFrames: nat)
    requires i.dmaAlign > 0 && PAGE % i.dmaAlign == 0 && i.sectorSize % i.dmaAlign == 0 && dmaFrames * PAGE <= i.dmaLimit + 1
    requires bounce % PAGE == 0 && bounce / PAGE + pages <= dmaFrames && chunk * i.sectorSize <= pages * PAGE
    ensures Aligned(i, bounce, chunk * i.sectorSize) && bounce + chunk * i.sectorSize <= i.dmaLimit + 1
  {
    Arith.DivideExact(bounce, PAGE);
    Arith.DividesMultiple(bounce / PAGE, PAGE, i.dmaAlign);
    Arith.DividesMultiple(chunk, i.sectorSize, i.dmaAlign);
  }

  ghost predicate Apart(a: seq<nat>, b: seq<nat>)
  {
    forall j, k | 0 <= j < |a| && 0 <= k < |b| :: a[j] != b[k]
  }

  ghost predicate Copied(memory0: seq<Byte>, memory: seq<Byte>, to: seq<nat>, from: seq<nat>)
  {
    && |memory| == |memory0| && |to| == |from| && InMemory(to, |memory|) && InMemory(from, |memory|)
    && (forall k | 0 <= k < |to| :: memory[to[k]] == memory0[from[k]])
    && (forall a | 0 <= a < |memory| && a !in to :: memory[a] == memory0[a])
  }

  /** A bounce buffer and a buffer of the same size that is somebody's, as the bounce buffer is not. */
  ghost predicate Separate(area: seq<nat>, place: seq<nat>, was: set<nat>, size: nat)
  {
    && |area| == |place| && InMemory(area, size) && InMemory(place, size) && Distinct(area) && Distinct(place)
    && Apart(area, place) && Apart(place, area) && (forall a | a in area :: a / PAGE !in was)
  }

  lemma SeparateParts(area: seq<nat>, place: seq<nat>, was: set<nat>, size: nat)
    requires Separate(area, place, was, size)
    ensures |area| == |place| && InMemory(area, size) && InMemory(place, size) && Distinct(area) && Distinct(place)
    ensures Apart(area, place) && Apart(place, area)
  {
    hide InMemory, Distinct, Apart;
  }

  lemma BounceNamed(op: Op, lba: nat, bounce: nat, bytes: nat)
    ensures Named(Request(op, lba, bytes, [Segment(bounce, bytes)])) == Range(bounce, bytes)
  {
    OneSegment(bounce, bytes);
  }

  /** Out through the bounce buffer: to the disk what the buffer holds, and nobody's memory changes. */
  lemma BouncedOut(memory0: seq<Byte>, disk0: seq<Byte>, filled: seq<Byte>, memory: seq<Byte>, disk: seq<Byte>,
                   start: nat, area: seq<nat>, place: seq<nat>, was: set<nat>)
    requires Separate(area, place, was, |memory0|) && Copied(memory0, filled, area, place)
    requires Confined(Write, filled, disk0, memory, disk, start, area)
    ensures Kept(Write, memory0, memory, was, place) && DiskKept(Write, disk0, disk, start, |place|)
    ensures Carried(memory, disk, start, area) ==> Carried(memory, disk, start, place)
  {
    hide Distinct;
    if Carried(memory, disk, start, area) {
      forall k | 0 <= k < |place| ensures memory[place[k]] == disk[start + k] {
        assert memory[area[k]] == memory0[place[k]] && place[k] !in area;
      }
    }
  }

  /** In to the bounce buffer: nothing of anybody's changes. */
  lemma BouncedIn(memory0: seq<Byte>, disk0: seq<Byte>, memory: seq<Byte>, disk: seq<Byte>,
                  start: nat, area: seq<nat>, place: seq<nat>, was: set<nat>)
    requires Separate(area, place, was, |memory0|) && Confined(Read, memory0, disk0, memory, disk, start, area)
    ensures Kept(Read, memory0, memory, was, place) && DiskKept(Read, disk0, disk, start, |place|) && |memory| == |memory0|
  {
    hide Distinct, Apart;
  }

  /** And on to the buffer, which is all that changes. */
  lemma BouncedOn(memory0: seq<Byte>, arrived: seq<Byte>, memory: seq<Byte>, disk: seq<Byte>,
                  start: nat, area: seq<nat>, place: seq<nat>, was: set<nat>)
    requires Separate(area, place, was, |memory0|) && Kept(Read, memory0, arrived, was, place)
    requires Carried(arrived, disk, start, area) && Copied(arrived, memory, place, area)
    ensures Kept(Read, memory0, memory, was, place) && Carried(memory, disk, start, place)
  {
    hide Distinct, Apart;
    forall k | 0 <= k < |place| ensures memory[place[k]] == disk[start + k] { assert arrived[area[k]] == disk[start + k]; }
  }

  lemma OneSegment(phys: nat, n: nat)
    ensures Addresses([Segment(phys, n)]) == Range(phys, n) && Total([Segment(phys, n)]) == n
  {
    assert [Segment(phys, n)][..0] == [];
  }

  /** The bounce buffer's frames were free, so no part of it is anybody's. */
  lemma BounceApart(was: set<nat>, bounce: nat, pages: nat, bytes: nat, place: seq<nat>)
    requires bounce % PAGE == 0 && bytes <= pages * PAGE && Frames(bounce, pages) !! was
    requires Owned(place, was)
    ensures forall a | a in Range(bounce, bytes) :: a / PAGE !in was
    ensures Apart(Range(bounce, bytes), place) && Apart(place, Range(bounce, bytes)) && Distinct(Range(bounce, bytes))
    ensures bounce + bytes <= (bounce / PAGE + pages) * PAGE
  {
    forall a | a in Range(bounce, bytes) ensures a / PAGE !in was {
      var k :| 0 <= k < bytes && a == bounce + k;
      assert a / PAGE == bounce / PAGE + k / PAGE && k / PAGE < pages;
      assert a / PAGE == Range(bounce / PAGE, pages)[k / PAGE];
      assert a / PAGE in Frames(bounce, pages);
    }
  }
}
