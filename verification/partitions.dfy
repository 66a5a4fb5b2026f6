/** Partition tables, and the partitions that probing a disk makes of them. */
module Partitions {
  import opened Wrappers
  import opened BlockRequest

  datatype GptEntry = GptEntry(typeNull: bool, lbaStart: nat, lbaEnd: nat)

  datatype MbrEntry = MbrEntry(kind: nat, lbaStart: nat, lbaCount: nat)

  datatype Info = Info(slot: nat, lbaStart: nat, lbaCount: nat)

  datatype Table = Gpt(gpt: seq<GptEntry>) | Mbr(mbr: seq<MbrEntry>)

  /** The sectors a slot describes: none if it is unused, turned around or not all on the disk. */
  function Extent(t: Table, slot: nat, sectorCount: nat): (e: Option<Info>)
    requires slot < SlotCount(t)
    ensures e.Some? ==> e.value.slot == slot && e.value.lbaCount > 0 && e.value.lbaStart + e.value.lbaCount <= sectorCount
  {
    match t
    case Gpt(entries) =>
      var e := entries[slot];
      if e.typeNull || e.lbaEnd < e.lbaStart || e.lbaEnd >= sectorCount then None
      else Some(Info(slot, e.lbaStart, e.lbaEnd - e.lbaStart + 1))
    case Mbr(entries) =>
      var e := entries[slot];
      if e.kind == 0 || e.lbaCount == 0 || e.lbaStart >= sectorCount || e.lbaCount > sectorCount - e.lbaStart then None
      else Some(Info(slot, e.lbaStart, e.lbaCount))
  }

  /** A table's own words for a slot: what makes it a partition, and which sectors it is then. */
  ghost predicate Used(t: Table, slot: nat, sectorCount: nat)
    requires slot < SlotCount(t)
  {
    match t
    case Gpt(entries) => !entries[slot].typeNull && entries[slot].lbaStart <= entries[slot].lbaEnd < sectorCount
    case Mbr(entries) =>
      entries[slot].kind != 0 && entries[slot].lbaCount > 0 && entries[slot].lbaStart + entries[slot].lbaCount <= sectorCount
  }

  ghost predicate Inside(t: Table, slot: nat, x: nat)
    requires slot < SlotCount(t)
  {
    match t
    case Gpt(entries) => entries[slot].lbaStart <= x <= entries[slot].lbaEnd
    case Mbr(entries) => entries[slot].lbaStart <= x && x - entries[slot].lbaStart < entries[slot].lbaCount
  }

  /** These are the sectors of the slot, from its first to its last. */
  ghost predicate Describes(t: Table, sectorCount: nat, i: Info)
  {
    && i.slot < SlotCount(t) && Used(t, i.slot, sectorCount)
    && forall x: nat :: i.lbaStart <= x < i.lbaStart + i.lbaCount <==> Inside(t, i.slot, x)
  }

  lemma ExtentDescribes(t: Table, slot: nat, sectorCount: nat)
    requires slot < SlotCount(t)
    ensures Extent(t, slot, sectorCount).Some? <==> Used(t, slot, sectorCount)
    ensures Extent(t, slot, sectorCount).Some? ==> Describes(t, sectorCount, Extent(t, slot, sectorCount).value)
  {
  }

  /** Of one slot there is one description. */
  lemma OneDescription(t: Table, sectorCount: nat, i: Info, j: Info)
    requires Describes(t, sectorCount, i) && Describes(t, sectorCount, j) && i.slot == j.slot && i.lbaCount > 0 && j.lbaCount > 0
    ensures i == j
  {
    hide Used;
    assert Inside(t, i.slot, i.lbaStart) && Inside(t, i.slot, j.lbaStart);
    assert Inside(t, i.slot, i.lbaStart + i.lbaCount - 1) && Inside(t, i.slot, j.lbaStart + j.lbaCount - 1);
  }

  function SlotCount(t: Table): nat
  {
    match t
    case Gpt(entries) => |entries|
    case Mbr(entries) => |entries|
  }

  /** The partitions of the first n slots, in order. */
  function Infos(t: Table, n: nat, sectorCount: nat): (i: seq<Info>)
    requires n <= SlotCount(t)
  {
    if n == 0 then []
    else
      var e := Extent(t, n - 1, sectorCount);
      Infos(t, n - 1, sectorCount) + if e.None? then [] else [e.value]
  }

  /** Each usable slot once, in ascending order, and nothing else. */
  lemma {:induction false} InfosList(t: Table, n: nat, sectorCount: nat)
    requires n <= SlotCount(t)
    ensures forall i | i in Infos(t, n, sectorCount) :: i.slot < n && Extent(t, i.slot, sectorCount) == Some(i)
    ensures forall s | 0 <= s < n && Extent(t, s, sectorCount).Some? :: Extent(t, s, sectorCount).value in Infos(t, n, sectorCount)
    ensures forall j, k | 0 <= j < k < |Infos(t, n, sectorCount)| :: Infos(t, n, sectorCount)[j].slot < Infos(t, n, sectorCount)[k].slot
  {
    hide Extent;
    if n > 0 {
      InfosList(t, n - 1, sectorCount);
      var before, all := Infos(t, n - 1, sectorCount), Infos(t, n, sectorCount);
      forall k | 0 <= k < |before| ensures before[k].slot < n - 1 {
        assert before[k] in before;
      }
    }
  }

  /** The slots in use are listed, each with its own sectors, and no other slot is. */
  lemma ListedExactly(t: Table, sectorCount: nat)
    ensures forall i | i in Infos(t, SlotCount(t), sectorCount) :: Describes(t, sectorCount, i)
    ensures forall slot: nat | slot < SlotCount(t) ::
              Used(t, slot, sectorCount) <==> exists i | i in Infos(t, SlotCount(t), sectorCount) :: i.slot == slot
  {
    hide Extent, Infos, Used, Describes;
    InfosList(t, SlotCount(t), sectorCount);
    forall slot: nat | slot < SlotCount(t)
      ensures Extent(t, slot, sectorCount).Some? <==> Used(t, slot, sectorCount)
      ensures Extent(t, slot, sectorCount).Some? ==> Describes(t, sectorCount, Extent(t, slot, sectorCount).value)
    {
      ExtentDescribes(t, slot, sectorCount);
    }
  }

  lemma {:induction false} InfosGrow(t: Table, m: nat, n: nat, sectorCount: nat)
    requires m <= n <= SlotCount(t)
    ensures Infos(t, m, sectorCount) <= Infos(t, n, sectorCount)
    decreases n - m
  {
    hide Extent;
    if m < n { InfosGrow(t, m + 1, n, sectorCount); }
  }

  method ReadGpt(entries: seq<GptEntry>, sectorCount: nat, index: nat) returns (info: Option<Info>)
    ensures var all := Infos(Gpt(entries), |entries|, sectorCount);
            info == if index < |all| then Some(all[index]) else None
    ensures info.Some? ==> Describes(Gpt(entries), sectorCount, info.value)
  {
    ghost var t := Gpt(entries);
    ListedExactly(t, sectorCount);
    var found := 0;
    for slot := 0 to |entries|
      invariant found == |Infos(t, slot, sectorCount)| <= index
    {
      InfosGrow(t, slot + 1, |entries|, sectorCount);
      ExtentDescribes(t, slot, sectorCount);
      var e := entries[slot];
      if e.typeNull {
        continue;
      }
      if e.lbaEnd < e.lbaStart || e.lbaEnd >= sectorCount {
        continue;
      }
      if found == index {
        return Some(Info(slot, e.lbaStart, e.lbaEnd - e.lbaStart + 1));
      }
      found := found + 1;
    }
    info := None;
  }

  method ReadMbr(entries: seq<MbrEntry>, sectorCount: nat, index: nat) returns (info: Option<Info>)
    ensures var all := Infos(Mbr(entries), |entries|, sectorCount);
            info == if index < |all| then Some(all[index]) else None
    ensures info.Some? ==> Describes(Mbr(entries), sectorCount, info.value)
  {
    ghost var t := Mbr(entries);
    ListedExactly(t, sectorCount);
    var found := 0;
    for slot := 0 to |entries|
      invariant found == |Infos(t, slot, sectorCount)| <= index
    {
      InfosGrow(t, slot + 1, |entries|, sectorCount);
      ExtentDescribes(t, slot, sectorCount);
      var e := entries[slot];
      if e.kind == 0 || e.lbaCount == 0 {
        continue;
      }
      if e.lbaStart >= sectorCount || e.lbaCount > sectorCount - e.lbaStart {
        continue;
      }
      if found == index {
        return Some(Info(slot, e.lbaStart, e.lbaCount));
      }
      found := found + 1;
    }
    info := None;
  }

  method ReadTable(t: Table, sectorCount: nat, index: nat) returns (info: Option<Info>)
    ensures var all := Infos(t, SlotCount(t), sectorCount);
            info == if index < |all| then Some(all[index]) else None
  {
    match t
    case Gpt(entries) => info := ReadGpt(entries, sectorCount, index);
    case Mbr(entries) => info := ReadMbr(entries, sectorCount, index);
  }

  // ---------------------------------------------------------------------------------------------
  // Probing

  function PartOf(disk: Interface, info: Info): Interface
  {
    disk.(sectorCount := info.lbaCount, route := Part(disk, info.lbaStart))
  }

  /** The partitions added for a list of table entries, the last one first. */
  function PartsOf(disk: Interface, infos: seq<Info>, refused: nat -> bool): seq<Interface>
  {
    if infos == [] then []
    else
      var n := |infos| - 1;
      (if refused(n) then [] else [PartOf(disk, infos[n])]) + PartsOf(disk, infos[..n], refused)
  }

  /**
   * Adds a partition for every entry the table's reader finds, until memory runs out: out says for which entry
   * it does, refused which ones cannot be added, n how many were looked at.
   */
  method Probe(disk: Interface, t: Table, out: nat -> bool, refused: nat -> bool) returns (parts: seq<Interface>, n: nat)
    ensures n <= |Infos(t, SlotCount(t), disk.sectorCount)|
    ensures n < |Infos(t, SlotCount(t), disk.sectorCount)| ==> out(n)
    ensures forall k: nat | k < n :: !out(k)
    ensures parts == PartsOf(disk, Infos(t, SlotCount(t), disk.sectorCount)[..n], refused)
    ensures forall p | p in parts :: exists slot :: Serves(disk, t, p, slot)
  {
    hide Serves, Infos;
    parts, n := [], 0;
    ghost var all := Infos(t, SlotCount(t), disk.sectorCount);
    while true
      invariant n <= |all| && parts == PartsOf(disk, all[..n], refused) && forall k: nat | k < n :: !out(k)
      decreases |all| - n
    {
      var info := ReadTable(t, disk.sectorCount, n);
      if info.None? {
        break;
      }
      if out(n) {
        break;
      }
      assert all[..n + 1][..n] == all[..n];
      if !refused(n) {
        parts := [PartOf(disk, info.value)] + parts;
      }
      n := n + 1;
    }
    ProbedSectors(disk, t, n, refused);
  }

  lemma {:induction false} PartsInside(disk: Interface, infos: seq<Info>, refused: nat -> bool, diskSize: nat)
    requires WellFormed(disk, diskSize)
    requires forall i | i in infos :: i.lbaStart + i.lbaCount <= disk.sectorCount
    ensures forall p | p in PartsOf(disk, infos, refused) ::
              WellFormed(p, diskSize) && p.route.Part? && p.route.root == disk
  {
    if infos != [] {
      PartsInside(disk, infos[..|infos| - 1], refused, diskSize);
      assert infos[|infos| - 1] in infos;
    }
  }

  /**
   * Of a partition that probing made: a request it takes reaches the disk inside its range and is taken there.
   */
  lemma ProbedPartition(disk: Interface, t: Table, n: nat, refused: nat -> bool, diskSize: nat, p: Interface, r: Request)
    requires WellFormed(disk, diskSize) && n <= |Infos(t, SlotCount(t), disk.sectorCount)|
    requires p in PartsOf(disk, Infos(t, SlotCount(t), disk.sectorCount)[..n], refused)
    ensures WellFormed(p, diskSize) && p.route.Part? && p.route.root == disk
    ensures Acceptable(p, r) ==> Acceptable(disk, Below(p, r))
    ensures Acceptable(p, r) && r.op != Flush ==>
              && p.route.lbaStart <= Below(p, r).lba
              && Below(p, r).lba + r.length / disk.sectorSize <= p.route.lbaStart + p.sectorCount <= disk.sectorCount
  {
    hide Acceptable, Infos, Extent;
    var all := Infos(t, SlotCount(t), disk.sectorCount);
    InfosList(t, SlotCount(t), disk.sectorCount);
    forall i | i in all[..n] ensures i.lbaStart + i.lbaCount <= disk.sectorCount {
      assert i in all;
    }
    PartsInside(disk, all[..n], refused, diskSize);
    if Acceptable(p, r) {
      AcceptedBelow(p, r, diskSize);
    }
  }

  /** p is the partition for a slot: of its sectors the k-th is the k-th of the slot, and it has no others. */
  ghost predicate Serves(disk: Interface, t: Table, p: Interface, slot: nat)
  {
    && slot < SlotCount(t) && Used(t, slot, disk.sectorCount) && p.route == Part(disk, Start(t, slot)) && p.sectorCount > 0
    && forall x: nat :: Inside(t, slot, x) <==> Start(t, slot) <= x && x - Start(t, slot) < p.sectorCount
  }

  function Start(t: Table, slot: nat): nat
    requires slot < SlotCount(t)
  {
    match t
    case Gpt(entries) => entries[slot].lbaStart
    case Mbr(entries) => entries[slot].lbaStart
  }

  lemma DescribedStart(disk: Interface, t: Table, i: Info)
    requires Describes(t, disk.sectorCount, i)
    ensures Serves(disk, t, PartOf(disk, i), i.slot)
  {
    var s := Start(t, i.slot);
    assert Inside(t, i.slot, s);
    assert i.lbaStart < i.lbaStart + i.lbaCount ==> Inside(t, i.slot, i.lbaStart);
  }

  lemma {:induction false} PartsServe(disk: Interface, t: Table, infos: seq<Info>, refused: nat -> bool)
    requires forall i | i in infos :: Describes(t, disk.sectorCount, i)
    ensures forall p | p in PartsOf(disk, infos, refused) :: exists slot :: Serves(disk, t, p, slot)
    ensures forall k | 0 <= k < |infos| && !refused(k) :: PartOf(disk, infos[k]) in PartsOf(disk, infos, refused)
  {
    hide Describes, Serves, PartOf;
    if infos != [] {
      var n := |infos| - 1;
      PartsServe(disk, t, infos[..n], refused);
      assert infos[n] in infos;
      DescribedStart(disk, t, infos[n]);
      assert forall k | 0 <= k < n :: infos[..n][k] == infos[k];
    }
  }

  /**
   * Of all that probing makes: each partition is a slot in use, sector by sector, and if memory lasts and none is refused
   * each such slot gets one.
   */
  lemma ProbedSectors(disk: Interface, t: Table, n: nat, refused: nat -> bool)
    requires n <= |Infos(t, SlotCount(t), disk.sectorCount)|
    ensures var parts := PartsOf(disk, Infos(t, SlotCount(t), disk.sectorCount)[..n], refused);
            && (forall p | p in parts :: exists slot :: Serves(disk, t, p, slot))
            && (n == |Infos(t, SlotCount(t), disk.sectorCount)| && (forall k :: !refused(k)) ==>
                  forall slot: nat | slot < SlotCount(t) && Used(t, slot, disk.sectorCount) ::
                    exists p | p in parts :: Serves(disk, t, p, slot))
  {
    hide Describes, Serves, Infos, Used, PartsOf, PartOf;
    var all := Infos(t, SlotCount(t), disk.sectorCount);
    ListedExactly(t, disk.sectorCount);
    assert forall i | i in all[..n] :: i in all;
    PartsServe(disk, t, all[..n], refused);
    if n == |all| && forall k :: !refused(k) {
      assert all[..n] == all;
      forall slot: nat | slot < SlotCount(t) && Used(t, slot, disk.sectorCount)
        ensures exists p | p in PartsOf(disk, all[..n], refused) :: Serves(disk, t, p, slot)
      {
        var k :| 0 <= k < |all| && all[k].slot == slot;
        DescribedStart(disk, t, all[k]);
        assert PartOf(disk, all[k]) in PartsOf(disk, all[..n], refused);
      }
    }
  }
}
