/** The derived queries over the parking-record log, and the per-lot view of it
    (a lot's `parkingRecords` collection), as functions over the log in stored order. */
module ParkingRecordRepository {
  import opened Common
  import opened Entities

  /** `findByVehicleAndCheckOutTimeIsNull`: the position of an active record of the vehicle. */
  function FindActiveByVehicle(records: seq<ParkingRecord>, plate: string): (r: Option<nat>)
    ensures r.Some? ==> r.value < |records| && records[r.value].licensePlate == plate && IsActive(records[r.value])
    ensures r.None? ==> forall i :: 0 <= i < |records| ==> !(records[i].licensePlate == plate && IsActive(records[i]))
  {
    if records == [] then None
    else if records[0].licensePlate == plate && IsActive(records[0]) then Some(0)
    else
      match FindActiveByVehicle(records[1..], plate)
      case None => None
      case Some(i) => Some(i + 1)
  }

  /** `findByVehicleAndParkingLotAndCheckOutTimeIsNull`: the position of an active record
      of the vehicle in the given lot. */
  function FindActiveInLot(records: seq<ParkingRecord>, plate: string, lotId: string): (r: Option<nat>)
    ensures r.Some? ==> r.value < |records| && records[r.value].licensePlate == plate
                        && records[r.value].lotId == lotId && IsActive(records[r.value])
    ensures r.None? ==> forall i :: 0 <= i < |records| ==>
                          !(records[i].licensePlate == plate && records[i].lotId == lotId && IsActive(records[i]))
  {
    if records == [] then None
    else if records[0].licensePlate == plate && records[0].lotId == lotId && IsActive(records[0]) then Some(0)
    else
      match FindActiveInLot(records[1..], plate, lotId)
      case None => None
      case Some(i) => Some(i + 1)
  }

  /** `existsByVehicleAndCheckOutTimeIsNull`. */
  function ExistsActiveByVehicle(records: seq<ParkingRecord>, plate: string): (b: bool)
    ensures b <==> exists i :: 0 <= i < |records| && records[i].licensePlate == plate && IsActive(records[i])
  {
    FindActiveByVehicle(records, plate).Some?
  }

  /** A lot's `parkingRecords`: the records that name it, in stored order. */
  function LotRecords(records: seq<ParkingRecord>, lotId: string): (r: seq<ParkingRecord>)
    ensures |r| <= |records|
    ensures forall x :: x in r <==> x in records && x.lotId == lotId
  {
    if records == [] then []
    else if records[0].lotId == lotId then [records[0]] + LotRecords(records[1..], lotId)
    else LotRecords(records[1..], lotId)
  }

  /** The records with no check-out time, in stored order. */
  function ActiveOnly(records: seq<ParkingRecord>): (r: seq<ParkingRecord>)
    ensures |r| <= |records|
    ensures forall x :: x in r <==> x in records && IsActive(x)
  {
    if records == [] then []
    else if IsActive(records[0]) then [records[0]] + ActiveOnly(records[1..])
    else ActiveOnly(records[1..])
  }

  /** The number of vehicles the log says are parked in the lot. */
  function Occupancy(records: seq<ParkingRecord>, lotId: string): nat {
    |ActiveOnly(LotRecords(records, lotId))|
  }

  lemma {:induction false} LotRecordsAppend(a: seq<ParkingRecord>, b: seq<ParkingRecord>, lotId: string)
    ensures LotRecords(a + b, lotId) == LotRecords(a, lotId) + LotRecords(b, lotId)
  {
    if a == [] {
      assert a + b == b;
    } else {
      assert (a + b)[1..] == a[1..] + b;
      LotRecordsAppend(a[1..], b, lotId);
    }
  }

  lemma {:induction false} ActiveOnlyAppend(a: seq<ParkingRecord>, b: seq<ParkingRecord>)
    ensures ActiveOnly(a + b) == ActiveOnly(a) + ActiveOnly(b)
  {
    if a == [] {
      assert a + b == b;
    } else {
      assert (a + b)[1..] == a[1..] + b;
      ActiveOnlyAppend(a[1..], b);
    }
  }

  /** Occupancy is additive over a split of the log. */
  lemma OccupancySplit(a: seq<ParkingRecord>, b: seq<ParkingRecord>, lotId: string)
    ensures Occupancy(a + b, lotId) == Occupancy(a, lotId) + Occupancy(b, lotId)
  {
    LotRecordsAppend(a, b, lotId);
    ActiveOnlyAppend(LotRecords(a, lotId), LotRecords(b, lotId));
  }

  /** Occupancy of a single record: one exactly when it is active in that lot. */
  lemma OccupancyOne(rec: ParkingRecord, lotId: string)
    ensures Occupancy([rec], lotId) == if rec.lotId == lotId && IsActive(rec) then 1 else 0
  {
    assert [rec][1..] == [];
  }

  /** Appending a record raises the lot's occupancy by one exactly when the record is
      active in that lot. */
  lemma OccupancyAppend(records: seq<ParkingRecord>, rec: ParkingRecord, lotId: string)
    ensures Occupancy(records + [rec], lotId)
            == Occupancy(records, lotId) + (if rec.lotId == lotId && IsActive(rec) then 1 else 0)
  {
    OccupancySplit(records, [rec], lotId);
    OccupancyOne(rec, lotId);
  }

  /** Closing the active record at position i lowers the occupancy of its lot by one
      and leaves every other lot's occupancy alone. */
  lemma OccupancyClose(records: seq<ParkingRecord>, i: nat, t: Timestamp, lotId: string)
    requires i < |records| && IsActive(records[i])
    ensures Occupancy(records[i := records[i].(checkOutTime := Some(t))], lotId)
            == Occupancy(records, lotId) - (if records[i].lotId == lotId then 1 else 0)
  {
    var closed := records[i].(checkOutTime := Some(t));
    var before, after := records[..i], records[i + 1..];
    assert records == before + [records[i]] + after;
    assert records[i := closed] == before + [closed] + after;
    OccupancySplit(before + [records[i]], after, lotId);
    OccupancySplit(before, [records[i]], lotId);
    OccupancySplit(before + [closed], after, lotId);
    OccupancySplit(before, [closed], lotId);
    OccupancyOne(records[i], lotId);
    OccupancyOne(closed, lotId);
  }

  /** A lot that no record names has no occupancy. */
  lemma OccupancyOfUnnamedLot(records: seq<ParkingRecord>, lotId: string)
    requires forall x :: x in records ==> x.lotId != lotId
    ensures Occupancy(records, lotId) == 0
  {
  }
}
