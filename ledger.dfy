/** The occupancy ledger's invariant over the three stores, the state transitions of
    check-in, check-out and registration, and the proofs that each keeps the invariant. */
module Ledger {
  import opened Common
  import opened Entities
  import opened Dtos
  import opened ParkingRecordRepository
  import ParkingLotMapper

  /** Each lot is stored under its own id. */
  predicate LotsKeyed(lots: map<string, ParkingLot>) {
    forall id :: id in lots ==> lots[id].lotId == id
  }

  /** Each vehicle is stored under its own plate. */
  predicate VehiclesKeyed(vehicles: map<string, Vehicle>) {
    forall p :: p in vehicles ==> vehicles[p].licensePlate == p
  }

  /** Every record refers to a registered vehicle and a registered lot. */
  predicate RecordsReferenced(lots: map<string, ParkingLot>, vehicles: map<string, Vehicle>, records: seq<ParkingRecord>) {
    forall x :: x in records ==> x.licensePlate in vehicles && x.lotId in lots
  }

  /** No vehicle has two active records. */
  predicate AtMostOneActive(records: seq<ParkingRecord>) {
    forall i, j :: 0 <= i < j < |records| && IsActive(records[i]) && IsActive(records[j])
      ==> records[i].licensePlate != records[j].licensePlate
  }

  /** Every lot has capacity at least 1 and counts at least the vehicles the log has in it. */
  predicate OccupancyCovered(lots: map<string, ParkingLot>, records: seq<ParkingRecord>) {
    forall id :: id in lots ==> lots[id].capacity >= 1 && Occupancy(records, id) <= lots[id].occupiedSpaces
  }

  predicate Invariant(lots: map<string, ParkingLot>, vehicles: map<string, Vehicle>, records: seq<ParkingRecord>) {
    && LotsKeyed(lots)
    && VehiclesKeyed(vehicles)
    && RecordsReferenced(lots, vehicles, records)
    && AtMostOneActive(records)
    && OccupancyCovered(lots, records)
  }

  /** In every ledger state each lot's counter is at least the number of vehicles the log
      has in it, so no counter is ever negative. */
  lemma CountersCoverLog(lots: map<string, ParkingLot>, vehicles: map<string, Vehicle>,
                         records: seq<ParkingRecord>, lotId: string)
    requires Invariant(lots, vehicles, records) && lotId in lots
    ensures lots[lotId].occupiedSpaces >= Occupancy(records, lotId) >= 0
  {
  }

  /** What a lot's counter holds beyond the vehicles the log has in it: the occupancy it
      was registered with, which check-in and check-out never change. */
  function Surplus(lots: map<string, ParkingLot>, records: seq<ParkingRecord>, lotId: string): int
    requires lotId in lots
  {
    lots[lotId].occupiedSpaces - Occupancy(records, lotId)
  }

  predicate WithinCapacity(lot: ParkingLot) {
    lot.occupiedSpaces <= lot.capacity
  }

  /** The lot after one more vehicle parks (`setOccupiedSpaces(getOccupiedSpaces() + 1)`). */
  function Admit(lot: ParkingLot): (r: ParkingLot)
    requires lot.occupiedSpaces < lot.capacity
    ensures r.occupiedSpaces == lot.occupiedSpaces + 1 && WithinCapacity(r)
    ensures Release(r) == lot
    ensures r.lotId == lot.lotId && r.location == lot.location && r.capacity == lot.capacity
  {
    lot.(occupiedSpaces := lot.occupiedSpaces + 1)
  }

  /** The lot after one vehicle leaves (`setOccupiedSpaces(getOccupiedSpaces() - 1)`), unclamped. */
  function Release(lot: ParkingLot): (r: ParkingLot)
    requires lot.occupiedSpaces > INT_MIN
    ensures r.occupiedSpaces == lot.occupiedSpaces - 1
    ensures r.lotId == lot.lotId && r.location == lot.location && r.capacity == lot.capacity
    ensures WithinCapacity(lot) ==> WithinCapacity(r)
  {
    lot.(occupiedSpaces := lot.occupiedSpaces - 1)
  }

  /** The record check-in creates. */
  function Opened(plate: string, lotId: string, now: Timestamp): (r: ParkingRecord)
    ensures IsActive(r)
    ensures r.licensePlate == plate && r.lotId == lotId && r.checkInTime == now
  {
    ParkingRecord(plate, lotId, now, None)
  }

  /** The record check-out leaves behind. */
  function Closed(rec: ParkingRecord, now: Timestamp): (r: ParkingRecord)
    ensures !IsActive(r) && r.checkOutTime == Some(now)
    ensures r.licensePlate == rec.licensePlate && r.lotId == rec.lotId && r.checkInTime == rec.checkInTime
  {
    rec.(checkOutTime := Some(now))
  }

  /** Under the invariant the two active-record lookups agree: the record check-out
      finds for (vehicle, lot) is the vehicle's one active record. */
  lemma ActiveLookupsAgree(lots: map<string, ParkingLot>, vehicles: map<string, Vehicle>,
                           records: seq<ParkingRecord>, plate: string, lotId: string)
    requires Invariant(lots, vehicles, records)
    requires FindActiveInLot(records, plate, lotId).Some?
    ensures FindActiveByVehicle(records, plate) == FindActiveInLot(records, plate, lotId)
  {
    OneActiveRecordFound(records, plate, FindActiveInLot(records, plate, lotId).value);
  }

  /** With one active record per vehicle, the vehicle lookup finds the active record at `i`. */
  lemma OneActiveRecordFound(records: seq<ParkingRecord>, plate: string, i: nat)
    requires AtMostOneActive(records)
    requires i < |records| && records[i].licensePlate == plate && IsActive(records[i])
    ensures FindActiveByVehicle(records, plate) == Some(i)
  {
  }

  /** Check-in's effect (one new active record, the lot's counter one higher) keeps the
      invariant and the set of lots. */
  lemma CheckInStep(lots: map<string, ParkingLot>, vehicles: map<string, Vehicle>, records: seq<ParkingRecord>,
                    plate: string, lotId: string, now: Timestamp)
    requires Invariant(lots, vehicles, records)
    requires plate in vehicles && lotId in lots
    requires FindActiveByVehicle(records, plate).None?
    requires lots[lotId].occupiedSpaces < lots[lotId].capacity
    ensures var lots', records' := lots[lotId := Admit(lots[lotId])], records + [Opened(plate, lotId, now)];
      Invariant(lots', vehicles, records') && lots'.Keys == lots.Keys
  {
    var lots', records' := lots[lotId := Admit(lots[lotId])], records + [Opened(plate, lotId, now)];
    OpenShiftsOccupancy(lots, records, plate, lotId, now);
    OpenKeepsOneActive(records, plate, lotId, now);
    assert LotsKeyed(lots');
    assert RecordsReferenced(lots', vehicles, records') by {
      assert lots'.Keys == lots.Keys;
    }
    assert OccupancyCovered(lots', records');
  }

  /** Check-in's effect keeps every lot's surplus, and keeps every lot that was within its
      capacity within it. */
  lemma CheckInKeepsSurplus(lots: map<string, ParkingLot>, records: seq<ParkingRecord>,
                            plate: string, lotId: string, now: Timestamp)
    requires lotId in lots && lots[lotId].occupiedSpaces < lots[lotId].capacity
    ensures var lots', records' := lots[lotId := Admit(lots[lotId])], records + [Opened(plate, lotId, now)];
      && (forall id :: id in lots ==> Surplus(lots', records', id) == Surplus(lots, records, id))
      && (forall id :: id in lots && WithinCapacity(lots[id]) ==> WithinCapacity(lots'[id]))
  {
    OpenShiftsOccupancy(lots, records, plate, lotId, now);
  }

  /** Opening a record in `lotId` adds one vehicle to that lot's count and none to any other. */
  lemma OpenShiftsOccupancy(lots: map<string, ParkingLot>, records: seq<ParkingRecord>,
                            plate: string, lotId: string, now: Timestamp)
    ensures forall id :: id in lots ==>
      Occupancy(records + [Opened(plate, lotId, now)], id) == Occupancy(records, id) + (if id == lotId then 1 else 0)
  {
    forall id | id in lots
      ensures Occupancy(records + [Opened(plate, lotId, now)], id) == Occupancy(records, id) + (if id == lotId then 1 else 0)
    {
      OccupancyAppend(records, Opened(plate, lotId, now), id);
    }
  }

  /** Opening a record for a vehicle with no active record keeps one active record per vehicle. */
  lemma OpenKeepsOneActive(records: seq<ParkingRecord>, plate: string, lotId: string, now: Timestamp)
    requires AtMostOneActive(records)
    requires FindActiveByVehicle(records, plate).None?
    ensures AtMostOneActive(records + [Opened(plate, lotId, now)])
  {
    var records' := records + [Opened(plate, lotId, now)];
    forall i, j | 0 <= i < j < |records'| && IsActive(records'[i]) && IsActive(records'[j])
      ensures records'[i].licensePlate != records'[j].licensePlate
    {
      assert records'[i] == records[i];
    }
  }

  /** Check-out's effect (the found record closed, its lot's counter one lower) is
      defined without wrap-around, and keeps the invariant and the set of lots. */
  lemma CheckOutStep(lots: map<string, ParkingLot>, vehicles: map<string, Vehicle>, records: seq<ParkingRecord>,
                     plate: string, lotId: string, now: Timestamp)
    requires Invariant(lots, vehicles, records)
    requires lotId in lots
    requires FindActiveInLot(records, plate, lotId).Some?
    ensures lots[lotId].occupiedSpaces >= 1
    ensures var i := FindActiveInLot(records, plate, lotId).value;
      var lots', records' := lots[lotId := Release(lots[lotId])], records[i := Closed(records[i], now)];
      Invariant(lots', vehicles, records') && lots'.Keys == lots.Keys
  {
    var i := FindActiveInLot(records, plate, lotId).value;
    OccupancyClose(records, i, now, lotId);
    var lots', records' := lots[lotId := Release(lots[lotId])], records[i := Closed(records[i], now)];
    CloseShiftsOccupancy(lots, records, i, now);
    CloseKeepsLog(lots, vehicles, records, i, now);
    assert LotsKeyed(lots');
    assert RecordsReferenced(lots', vehicles, records') by {
      assert lots'.Keys == lots.Keys;
    }
    assert OccupancyCovered(lots', records');
  }

  /** Check-out's effect keeps every lot's surplus, and keeps every lot that was within its
      capacity within it. */
  lemma CheckOutKeepsSurplus(lots: map<string, ParkingLot>, records: seq<ParkingRecord>,
                             plate: string, lotId: string, now: Timestamp)
    requires lotId in lots && lots[lotId].occupiedSpaces > INT_MIN
    requires FindActiveInLot(records, plate, lotId).Some?
    ensures var i := FindActiveInLot(records, plate, lotId).value;
      var lots', records' := lots[lotId := Release(lots[lotId])], records[i := Closed(records[i], now)];
      && (forall id :: id in lots ==> Surplus(lots', records', id) == Surplus(lots, records, id))
      && (forall id :: id in lots && WithinCapacity(lots[id]) ==> WithinCapacity(lots'[id]))
  {
    CloseShiftsOccupancy(lots, records, FindActiveInLot(records, plate, lotId).value, now);
  }

  /** Closing the active record at `i` removes one vehicle from its lot's count and none
      from any other. */
  lemma CloseShiftsOccupancy(lots: map<string, ParkingLot>, records: seq<ParkingRecord>, i: nat, now: Timestamp)
    requires i < |records| && IsActive(records[i])
    ensures forall id :: id in lots ==>
      Occupancy(records[i := Closed(records[i], now)], id)
      == Occupancy(records, id) - (if id == records[i].lotId then 1 else 0)
  {
    forall id | id in lots
      ensures Occupancy(records[i := Closed(records[i], now)], id)
              == Occupancy(records, id) - (if id == records[i].lotId then 1 else 0)
    {
      OccupancyClose(records, i, now, id);
    }
  }

  /** After check-out the vehicle has no active record in any lot, so it may check in again. */
  lemma CheckOutFreesVehicle(lots: map<string, ParkingLot>, vehicles: map<string, Vehicle>,
                             records: seq<ParkingRecord>, plate: string, lotId: string, now: Timestamp)
    requires Invariant(lots, vehicles, records)
    requires FindActiveInLot(records, plate, lotId).Some?
    ensures var i := FindActiveInLot(records, plate, lotId).value;
      FindActiveByVehicle(records[i := Closed(records[i], now)], plate).None?
  {
    var i := FindActiveInLot(records, plate, lotId).value;
    var records' := records[i := Closed(records[i], now)];
    assert records[i].licensePlate == plate && IsActive(records[i]);
    forall k | 0 <= k < |records'| && k != i ensures records'[k] == records[k] {
    }
  }

  /** Closing a record keeps the log's references and its one-active-record-per-vehicle rule. */
  lemma CloseKeepsLog(lots: map<string, ParkingLot>, vehicles: map<string, Vehicle>, records: seq<ParkingRecord>,
                      i: nat, now: Timestamp)
    requires i < |records|
    ensures RecordsReferenced(lots, vehicles, records) ==> RecordsReferenced(lots, vehicles, records[i := Closed(records[i], now)])
    ensures AtMostOneActive(records) ==> AtMostOneActive(records[i := Closed(records[i], now)])
  {
    var records' := records[i := Closed(records[i], now)];
    if RecordsReferenced(lots, vehicles, records) {
      forall x | x in records' ensures x.licensePlate in vehicles && x.lotId in lots {
        var k :| 0 <= k < |records'| && records'[k] == x;
        assert records[k] in records;
      }
    }
  }

  /** Registering a fresh lot from a valid registration keeps the invariant; the new lot
      has no vehicles in the log, so its surplus is the occupancy it was registered with. */
  lemma RegisterLotStep(lots: map<string, ParkingLot>, vehicles: map<string, Vehicle>, records: seq<ParkingRecord>,
                        d: ParkingLotDto)
    requires Invariant(lots, vehicles, records)
    requires d.lotId !in lots && ValidParkingLotDto(d)
    ensures var lots' := lots[d.lotId := ParkingLotMapper.ToEntity(Some(d)).value];
      && Invariant(lots', vehicles, records)
      && Occupancy(records, d.lotId) == 0
      && Surplus(lots', records, d.lotId) == d.occupiedSpaces >= 0
  {
    OccupancyOfUnnamedLot(records, d.lotId);
  }

  /** Registering a fresh vehicle keeps the invariant. */
  lemma RegisterVehicleStep(lots: map<string, ParkingLot>, vehicles: map<string, Vehicle>, records: seq<ParkingRecord>,
                            v: Vehicle)
    requires Invariant(lots, vehicles, records)
    requires v.licensePlate !in vehicles
    ensures Invariant(lots, vehicles[v.licensePlate := v], records)
  {
  }

  /** Checking a vehicle in and straight back out of the same lot restores the lot
      exactly and leaves one closed record behind. */
  lemma CheckInThenCheckOut(lots: map<string, ParkingLot>, records: seq<ParkingRecord>,
                            plate: string, lotId: string, t1: Timestamp, t2: Timestamp)
    requires lotId in lots
    requires FindActiveByVehicle(records, plate).None?
    requires lots[lotId].occupiedSpaces < lots[lotId].capacity
    ensures var lots1, records1 := lots[lotId := Admit(lots[lotId])], records + [Opened(plate, lotId, t1)];
      && FindActiveInLot(records1, plate, lotId) == Some(|records|)
      && lots1[lotId].occupiedSpaces > INT_MIN
      && lots1[lotId := Release(lots1[lotId])] == lots
      && records1[|records| := Closed(records1[|records|], t2)] == records + [ParkingRecord(plate, lotId, t1, Some(t2))]
  {
  }
}
