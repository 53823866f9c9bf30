// Placing drives (Main/linux/blockdev.c): from an index to bus and unit, the search
// for a free slot, and a list in which no slot is ever used twice.

module Drives {
  import opened Common

  datatype Interface = None | Ide | Scsi | Floppy | Pflash | Mtd | Sd | Virtio | Xen

  /** if_max_devs: units on a bus, 0 when there is no limit. */
  function MaxDevs(t: Interface): nat {
    match t
    case Ide => 2
    case Scsi => 7
    case _ => 0
  }

  /** The remainder that goes with it. */
  function CMod(a: int, b: nat): int
    requires b > 0
  {
    a - CDiv(a, b) * b
  }

  function BusOf(t: Interface, index: int): int {
    if MaxDevs(t) > 0 then CDiv(index, MaxDevs(t)) else 0
  }

  function UnitOf(t: Interface, index: int): int {
    if MaxDevs(t) > 0 then CMod(index, MaxDevs(t)) else index
  }

  /** Different indices name different slots; the indices from 0 on name exactly the
      slots whose unit exists (on bus 0 only, when buses have no limit). */
  lemma IndexNamesSlot(t: Interface, bus: int, unit: int)
    ensures forall i, j :: BusOf(t, i) == BusOf(t, j) && UnitOf(t, i) == UnitOf(t, j) ==> i == j
    ensures (exists i :: i >= 0 && BusOf(t, i) == bus && UnitOf(t, i) == unit)
      <==> bus >= 0 && unit >= 0 && (if MaxDevs(t) > 0 then unit < MaxDevs(t) else bus == 0)
  {
    var m := MaxDevs(t);
    if bus >= 0 && unit >= 0 && (if m > 0 then unit < m else bus == 0) {
      var i := if m > 0 then bus * m + unit else unit;
      assert i >= 0 && BusOf(t, i) == bus && UnitOf(t, i) == unit;
    }
  }

  /** The third disk of IDE is the first of the second bus; SCSI index 12 is bus 1, unit
      5; virtio has one bus for all; division truncates toward zero. */
  lemma IndexExamples()
    ensures BusOf(Ide, 2) == 1 && UnitOf(Ide, 2) == 0
    ensures BusOf(Scsi, 12) == 1 && UnitOf(Scsi, 12) == 5
    ensures BusOf(Virtio, 9) == 0 && UnitOf(Virtio, 9) == 9
    ensures BusOf(Ide, -3) == -1 && UnitOf(Ide, -3) == -1
  {
  }

  datatype Drive = Drive(kind: Interface, bus: int, unit: int, refcount: nat)

  predicate At(d: Drive, t: Interface, bus: int, unit: int) {
    d.kind == t && d.bus == bus && d.unit == unit
  }

  predicate Taken(drives: seq<Drive>, t: Interface, bus: int, unit: int) {
    exists i :: 0 <= i < |drives| && At(drives[i], t, bus, unit)
  }

  /** On a bus with a limit, the unit is one of its units. */
  predicate UnitExists(d: Drive) { MaxDevs(d.kind) > 0 ==> d.unit < MaxDevs(d.kind) }

  ghost predicate Distinct(drives: seq<Drive>) {
    forall i, j :: 0 <= i < j < |drives| ==> !At(drives[i], drives[j].kind, drives[j].bus, drives[j].unit)
  }

  // ---------------------------------------------------------------- free slots

  predicate Before(b: int, u: int, c: int, v: int) { b < c || (b == c && u < v) }

  /** A slot the search may try: on a bus with a limit, its units; otherwise every
      unit of the bus it starts on. */
  predicate Searched(t: Interface, from: int, bus: int, unit: int) {
    unit >= 0 && bus >= from && (if MaxDevs(t) > 0 then unit < MaxDevs(t) else bus == from)
  }

  /** (bus, unit) is the first free slot from bus `from` on. */
  ghost predicate FirstFree(drives: seq<Drive>, t: Interface, from: int, bus: int, unit: int) {
    && Searched(t, from, bus, unit) && !Taken(drives, t, bus, unit)
    && forall b, u :: Searched(t, from, b, u) && Before(b, u, bus, unit) ==> Taken(drives, t, b, u)
  }

  lemma FirstFreeUnique(drives: seq<Drive>, t: Interface, from: int, b: int, u: int, c: int, v: int)
    requires FirstFree(drives, t, from, b, u) && FirstFree(drives, t, from, c, v)
    ensures b == c && u == v
  {
    assert Before(b, u, c, v) ==> Taken(drives, t, b, u);
    assert Before(c, v, b, u) ==> Taken(drives, t, c, v);
  }

  /** Slots of drives of this kind that the search has yet to pass. */
  function Ahead(drives: seq<Drive>, t: Interface, bus: int, unit: int): set<(int, int)> {
    set i | 0 <= i < |drives| && drives[i].kind == t && !Before(drives[i].bus, drives[i].unit, bus, unit)
      :: (drives[i].bus, drives[i].unit)
  }

  lemma AheadShrinks(drives: seq<Drive>, t: Interface, bus: int, unit: int, c: int, v: int)
    requires Taken(drives, t, bus, unit) && Before(bus, unit, c, v)
    ensures |Ahead(drives, t, c, v)| < |Ahead(drives, t, bus, unit)|
  {
    var a, b := Ahead(drives, t, bus, unit), Ahead(drives, t, c, v);
    assert (bus, unit) in a && (bus, unit) !in b;
    assert b <= a - {(bus, unit)};
    Smaller(b, a - {(bus, unit)});
  }

  lemma {:induction false} Smaller(a: set<(int, int)>, b: set<(int, int)>)
    requires a <= b
    ensures |a| <= |b|
  {
    if a != {} {
      var x :| x in a;
      Smaller(a - {x}, b - {x});
    }
  }

  // --------------------------------------------------------------- the list

  datatype Result = Ok(bus: int, unit: int) | IndexWithBusOrUnit | UnitTooBig | Exists | CannotOpen

  /** What the options ask for; they default to bus 0, unit -1 and index -1. `opens` is
      whether the image, if there is one, can be opened. */
  ghost predicate Places(drives: seq<Drive>, t: Interface, bus: int, unit: int, index: int, opens: bool, r: Result) {
    if index != -1 && (bus != 0 || unit != -1) then r == IndexWithBusOrUnit
    else
      var b, u := if index != -1 then BusOf(t, index) else bus, if index != -1 then UnitOf(t, index) else unit;
      if u == -1 then if opens then r.Ok? && FirstFree(drives, t, b, r.bus, r.unit) else r == CannotOpen
      else if MaxDevs(t) > 0 && u >= MaxDevs(t) then r == UnitTooBig
      else if Taken(drives, t, b, u) then r == Exists
      else r == if opens then Ok(b, u) else CannotOpen
  }

  class DriveList {
    var drives: seq<Drive>

    ghost predicate Valid()
      reads this
    {
      && Distinct(drives)
      && forall i :: 0 <= i < |drives| ==> drives[i].refcount > 0 && UnitExists(drives[i])
    }

    constructor ()
      ensures Valid() && drives == []
    {
      drives := [];
    }

    /** drive_get: the index of the drive in this slot, or -1 for NULL. */
    method DriveGet(t: Interface, bus: int, unit: int) returns (k: int)
      ensures -1 <= k < |drives|
      ensures k >= 0 ==> At(drives[k], t, bus, unit)
      ensures k >= 0 <==> Taken(drives, t, bus, unit)
    {
      k := 0;
      while k < |drives|
        invariant 0 <= k <= |drives|
        invariant forall i :: 0 <= i < k ==> !At(drives[i], t, bus, unit)
      {
        if At(drives[k], t, bus, unit) { return; }
        k := k + 1;
      }
      k := -1;
    }

    /** The search of drive_init when no unit is given; it always ends. */
    method FindFree(t: Interface, from: int) returns (bus: int, unit: int)
      ensures FirstFree(drives, t, from, bus, unit)
    {
      var maxDevs := MaxDevs(t);
      bus, unit := from, 0;
      var k := DriveGet(t, bus, unit);
      while k >= 0
        invariant k >= 0 <==> Taken(drives, t, bus, unit)
        invariant Searched(t, from, bus, unit)
        invariant forall b, u :: Searched(t, from, b, u) && Before(b, u, bus, unit) ==> Taken(drives, t, b, u)
        decreases |Ahead(drives, t, bus, unit)|
      {
        ghost var b, u := bus, unit;
        unit := unit + 1;
        if maxDevs > 0 && unit >= maxDevs {
          unit := unit - maxDevs;
          bus := bus + 1;
        }
        AheadShrinks(drives, t, b, u, bus, unit);
        k := DriveGet(t, bus, unit);
      }
    }

    /** drive_init, as far as it places the drive; opening its image may fail, which
        takes it off the list again. */
    method DriveInit(t: Interface, bus: int, unit: int, index: int, opens: bool) returns (r: Result)
      requires Valid()
      modifies this
      ensures Valid() && Places(old(drives), t, bus, unit, index, opens, r)
      ensures r.Ok? ==> !Taken(old(drives), t, r.bus, r.unit)
      ensures drives == if r.Ok? then old(drives) + [Drive(t, r.bus, r.unit, 1)] else old(drives)
    {
      var busId, unitId := bus, unit;
      if index != -1 {
        if busId != 0 || unitId != -1 {
          return IndexWithBusOrUnit;
        }
        busId, unitId := BusOf(t, index), UnitOf(t, index);
      }
      if unitId == -1 {
        busId, unitId := FindFree(t, busId);
      }
      if MaxDevs(t) > 0 && unitId >= MaxDevs(t) {
        return UnitTooBig;
      }
      var k := DriveGet(t, busId, unitId);
      if k >= 0 {
        return Exists;
      }
      var before := drives;
      drives := drives + [Drive(t, busId, unitId, 1)];
      if !opens {
        drives := drives[..|before|];
        return CannotOpen;
      }
      return Ok(busId, unitId);
    }

    /** drive_get_ref */
    method GetRef(k: nat)
      requires Valid() && k < |drives|
      modifies this
      ensures Valid() && drives == old(drives)[k := old(drives[k]).(refcount := old(drives[k]).refcount + 1)]
    {
      drives := drives[k := drives[k].(refcount := drives[k].refcount + 1)];
    }

    /** drive_put_ref: the last reference takes the drive off the list. */
    method PutRef(k: nat)
      requires Valid() && k < |drives|
      modifies this
      ensures Valid()
      ensures drives == if old(drives[k]).refcount == 1 then old(drives[..k]) + old(drives[k + 1..])
        else old(drives)[k := old(drives[k]).(refcount := old(drives[k]).refcount - 1)]
    {
      var left := drives[k].refcount - 1;
      if left == 0 {
        drives := drives[..k] + drives[k + 1..];
      } else {
        drives := drives[k := drives[k].(refcount := left)];
      }
    }
  }

  /** What the machine does with its drives. */
  datatype Request = Create(t: Interface, bus: int, unit: int, index: int, opens: bool) | Get(k: nat) | Put(k: nat)

  /** Over any run of creations, references and deletions no two drives share a slot, no
      unit is beyond its bus, and every drive on the list is in use. */
  method Serve(requests: seq<Request>) returns (l: DriveList)
    ensures fresh(l) && Distinct(l.drives)
    ensures forall d :: d in l.drives ==> d.refcount > 0 && UnitExists(d)
  {
    l := new DriveList();
    for i := 0 to |requests|
      invariant fresh(l) && l.Valid()
    {
      match requests[i] {
        case Create(t, bus, unit, index, opens) => var _ := l.DriveInit(t, bus, unit, index, opens);
        case Get(k) => if k < |l.drives| { l.GetRef(k); }
        case Put(k) => if k < |l.drives| { l.PutRef(k); }
      }
    }
  }
}
