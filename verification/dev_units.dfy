/** Device unit numbers: a doubly linked list per prefix, in ascending order. */
module DevUnits {

  const NO_UNIT: nat := 0xFFF
  const NAME_NONE: nat := 0xFFFF_FFFF

  datatype Status = Ok | Exists | NoSpace | OutOfRange | NoMemory

  class Unit {
    var number: nat
    var prev: Unit?
    var next: Unit?

    constructor ()
    {
      number, prev, next := 0, null, null;
    }
  }

  /** The unit at a place, null off either end. */
  function UnitAt(list: seq<Unit>, i: int): Unit?
  {
    if 0 <= i < |list| then list[i] else null
  }

  class Prefix {
    var units: Unit?
    var claimed: bool
    ghost var list: seq<Unit>   // The units in list order

    ghost predicate Good(i: nat)
      requires i < |list|
      reads this`list, list
    {
      && list[i].prev == UnitAt(list, i - 1) && list[i].next == UnitAt(list, i + 1)
      && (i > 0 ==> list[i - 1].number < list[i].number)
    }

    ghost predicate Valid()
      reads this, list
    {
      units == UnitAt(list, 0) && forall i {:trigger Good(i)} | 0 <= i < |list| :: Good(i)
    }

    lemma {:induction false} Ascending(i: nat, j: nat)
      requires Valid() && i < j < |list|
      ensures list[i].number < list[j].number
    {
      assert Good(j);
      if i < j - 1 { Ascending(i, j - 1); }
    }

    lemma Apart(at: nat)
      requires Valid() && at < |list|
      ensures forall i | 0 <= i < |list| && i != at :: list[i] != list[at]
    {
      forall i | 0 <= i < |list| && i != at ensures list[i] != list[at] {
        if i < at { Ascending(i, at); } else { Ascending(at, i); }
      }
    }

    ghost predicate Taken(number: nat)
      reads this`list, list
    {
      exists i :: 0 <= i < |list| && list[i].number == number
    }

    /** at is where a unit with the number is, or would be. */
    ghost predicate PlaceOf(number: nat, at: nat)
      reads this`list, list
    {
      at <= |list| && (at > 0 ==> list[at - 1].number < number) && (at < |list| ==> list[at].number >= number)
    }

    constructor ()
      ensures Valid() && list == [] && !claimed
    {
      units, claimed, list := null, false, [];
    }

    /** Looks a number up; prev is the last unit below it. */
    method UnitTaken(number: nat) returns (taken: bool, prev: Unit?, ghost at: nat)
      requires Valid()
      ensures PlaceOf(number, at) && prev == UnitAt(list, at - 1)
      ensures taken <==> Taken(number)
      ensures taken <==> at < |list| && list[at].number == number
    {
      prev, at := null, 0;
      var it := units;
      while it != null && it.number <= number
        invariant at <= |list| && it == UnitAt(list, at) && prev == UnitAt(list, at - 1)
        invariant forall i | 0 <= i < at :: list[i].number < number
        decreases |list| - at
      {
        assert Good(at);
        if it.number == number {
          return true, prev, at;
        }
        prev := it;
        it := it.next;
        at := at + 1;
      }
      taken := false;
      forall i | at <= i < |list| ensures list[i].number > number {
        if i > at { Ascending(at, i); }
      }
    }

    /** The pointers of a unit that goes in at a place, and of its neighbours. */
    method SpliceIn(unit: Unit, prev: Unit?, number: nat, ghost at: nat)
      requires Valid() && unit !in list && at <= |list| && prev == UnitAt(list, at - 1)
      modifies this`units, unit, list
      ensures unit.number == number && unit.prev == prev && unit.next == UnitAt(list, at)
      ensures units == (if at == 0 then unit else old(units))
      ensures forall i | 0 <= i < |list| ::
                && list[i].number == old(list[i].number)
                && list[i].next == (if i + 1 == at then unit else old(list[i].next))
                && list[i].prev == (if i == at then unit else old(list[i].prev))
    {
      if at > 0 { Apart(at - 1); assert Good(at - 1); }
      if at < |list| { Apart(at); }
      hide Good;
      unit.number := number;
      unit.prev := prev;
      unit.next := if prev != null then prev.next else units;
      if unit.next != null {
        unit.next.prev := unit;
      }
      if prev != null {
        prev.next := unit;
      } else {
        units := unit;
      }
    }

    method LinkUnit(unit: Unit, prev: Unit?, number: nat, ghost at: nat)
      requires Valid() && unit !in list && PlaceOf(number, at) && (at < |list| ==> list[at].number != number)
      requires prev == UnitAt(list, at - 1)
      modifies this`units, this`list, unit, list
      ensures Valid() && list == old(list)[..at] + [unit] + old(list)[at..] && unit.number == number
      ensures forall i | 0 <= i < |old(list)| :: old(list)[i].number == old(list[i].number)
    {
      ghost var was := list;
      SpliceIn(unit, prev, number, at);
      list := list[..at] + [unit] + list[at..];
      forall i | 0 <= i < |list| ensures Good(i) {
        if i < at {
          assert old(Good(i)) && list[i] == was[i] && (i + 1 < at ==> list[i + 1] == was[i + 1]) && (i > 0 ==> list[i - 1] == was[i - 1]);
        } else if i > at {
          assert old(Good(i - 1)) && list[i] == was[i - 1];
          assert (i > at + 1 ==> list[i - 1] == was[i - 2]) && (i + 1 < |list| ==> list[i + 1] == was[i]);
        } else {
          assert list[i] == unit && (i > 0 ==> list[i - 1] == was[i - 1]) && (i + 1 < |list| ==> list[i + 1] == was[i]);
        }
      }
    }

    method SpliceOut(unit: Unit, ghost at: nat)
      requires Valid() && at < |list| && list[at] == unit
      modifies this`units, list
      ensures units == (if at == 0 then UnitAt(list, 1) else old(units))
      ensures forall i | 0 <= i < |list| ::
                && list[i].number == old(list[i].number)
                && list[i].next == (if i + 1 == at then UnitAt(list, at + 1) else old(list[i].next))
                && list[i].prev == (if i == at + 1 then UnitAt(list, at - 1) else old(list[i].prev))
    {
      assert Good(at);
      if at > 0 { Apart(at - 1); }
      if at + 1 < |list| { Apart(at + 1); }
      hide Good;
      if unit.next != null {
        unit.next.prev := unit.prev;
      }
      if unit.prev != null {
        unit.prev.next := unit.next;
      } else {
        units := unit.next;
      }
    }

    method FreeUnit(unit: Unit, ghost at: nat)
      requires Valid() && at < |list| && list[at] == unit
      modifies this`units, this`list, list
      ensures Valid() && list == old(list)[..at] + old(list)[at + 1..]
      ensures forall i | 0 <= i < |old(list)| :: old(list)[i].number == old(list[i].number)
    {
      ghost var was := list;
      Apart(at);
      SpliceOut(unit, at);
      list := list[..at] + list[at + 1..];
      forall i | 0 <= i < |list| ensures Good(i) {
        if i < at {
          assert old(Good(i)) && list[i] == was[i] && (i > 0 ==> list[i - 1] == was[i - 1]);
          assert i + 1 < |list| ==> list[i + 1] == was[if i + 1 < at then i + 1 else i + 2];
        } else {
          assert old(Good(i + 1)) && old(Good(at)) && list[i] == was[i + 1];
          assert (i > 0 ==> list[i - 1] == was[if i > at then i else i - 1]) && (i + 1 < |list| ==> list[i + 1] == was[i + 2]);
        }
      }
    }

    /** What taking a number does: it is the only one that is taken now and was not. */
    twostate predicate Took(new unit: Unit, number: nat)
      reads this, list, unit
    {
      && unit.number == number && unit in list && !old(Taken(number))
      && (forall u | u in list && u != unit :: u in old(list) && u.number == old(u.number))
      && (forall u | u in old(list) :: u in list && u.number == old(u.number))
    }

    method Enter(number: nat, prev: Unit?, ghost at: nat) returns (unit: Unit)
      requires Valid() && PlaceOf(number, at) && !Taken(number) && prev == UnitAt(list, at - 1)
      modifies this`units, this`list, list
      ensures Valid() && fresh(unit) && Took(unit, number)
    {
      unit := new Unit();
      ghost var was := list;
      hide Good;
      LinkUnit(unit, prev, number, at);
      assert unit == list[at];
      forall u | u in was ensures u in list && u.number == old(u.number) {
        var i :| 0 <= i < |was| && was[i] == u;
        assert u == list[if i < at then i else i + 1];
      }
      forall u | u in list && u != unit ensures u in was && u.number == old(u.number) {
        var i :| 0 <= i < |list| && list[i] == u;
        assert u == was[if i < at then i else i - 1];
      }
    }

    method Alloc(pinned: nat, keeps: nat -> bool, memory: bool) returns (status: Status, unit: Unit?)
      requires Valid() && (pinned == NAME_NONE || pinned < NO_UNIT)
      modifies this`units, this`list, list
      ensures Valid()
      ensures !memory ==> status == NoMemory
      ensures memory && claimed ==> status == Exists
      ensures memory && !claimed && pinned != NAME_NONE && !old(Taken(pinned)) ==> status == Ok && unit != null && unit.number == pinned
      ensures memory && !claimed && (pinned == NAME_NONE || old(Taken(pinned))) ==>
                if status == Ok
                then
                  && unit != null && unit.number < NO_UNIT && !keeps(unit.number)
                  && forall n: nat | n < unit.number :: old(Taken(n)) || keeps(n)
                else status == NoSpace && forall n: nat | n < NO_UNIT :: old(Taken(n)) || keeps(n)
      ensures status == Ok ==> unit != null && fresh(unit) && Took(unit, unit.number)
      ensures status != Ok ==> list == old(list) && units == old(units) && forall u | u in list :: unchanged(u)
    {
      if !memory {
        return NoMemory, null;
      }
      if claimed {
        return Exists, null;
      }
      var prev: Unit? := null;
      var number := pinned;
      ghost var at := 0;
      var pinnedTaken := false;
      hide Good, PlaceOf, Valid;
      if pinned != NAME_NONE {
        pinnedTaken, prev, at := UnitTaken(pinned);
      }
      if pinned == NAME_NONE || pinnedTaken {
        number := 0;
        while number < NO_UNIT
          invariant number <= NO_UNIT && forall n: nat | n < number :: Taken(n) || keeps(n)
          modifies {}
        {
          var taken;
          taken, prev, at := UnitTaken(number);
          if !(taken || keeps(number)) {
            break;
          }
          number := number + 1;
        }
      }
      if number >= NO_UNIT {
        return NoSpace, null;
      }
      unit := Enter(number, prev, at);
      status := Ok;
    }

    method Claim(number: nat, memory: bool) returns (status: Status, unit: Unit?)
      requires Valid()
      modifies this`units, this`list, list
      ensures Valid()
      ensures status == if number >= NO_UNIT then OutOfRange
                        else if !memory then NoMemory
                        else if claimed || old(Taken(number)) then Exists
                        else Ok
      ensures status == Ok ==> unit != null && fresh(unit) && Took(unit, number)
      ensures status != Ok ==> list == old(list) && units == old(units) && forall u | u in list :: unchanged(u)
    {
      if number >= NO_UNIT {
        return OutOfRange, null;
      }
      if !memory {
        return NoMemory, null;
      }
      var taken, prev;
      ghost var at;
      taken, prev, at := UnitTaken(number);
      if claimed || taken {
        return Exists, null;
      }
      unit := Enter(number, prev, at);
      status := Ok;
    }
  }
}
