/** Check-in and check-out: the two ledger transitions, each one atomic unit that either
    fails with its reason and changes nothing, or applies both of its writes. */
module ParkingRecordService {
  import opened Common
  import opened Entities
  import opened Dtos
  import opened Store
  import opened ParkingRecordRepository
  import opened Ledger
  import ParkingRecordMapper

  /** The refusal of a vehicle that already has an active record in `currentLotId`,
      naming that lot and its location when it is not the requested one. */
  function AlreadyCheckedInReason(lots: map<string, ParkingLot>, currentLotId: string, requestedLotId: string): (r: string)
    requires currentLotId in lots
    ensures r == "Vehicle is already checked in this parking lot" <==> currentLotId == requestedLotId
  {
    if currentLotId == requestedLotId then "Vehicle is already checked in this parking lot"
    else
      var other := "Vehicle is already checked in parking lot: " + currentLotId + " (" + lots[currentLotId].location + ")";
      assert other[30] != "Vehicle is already checked in this parking lot"[30];
      other
  }

  /** The refusal for another lot reads the fixed prefix, then the current lot's id,
      then its location in parentheses. */
  lemma AlreadyCheckedInReasonNamesLot(lots: map<string, ParkingLot>, currentLotId: string, requestedLotId: string)
    requires currentLotId in lots && currentLotId != requestedLotId
    ensures var r := AlreadyCheckedInReason(lots, currentLotId, requestedLotId);
      && |r| > 43 + |currentLotId|
      && r[..43] == "Vehicle is already checked in parking lot: "
      && r[43..43 + |currentLotId|] == currentLotId
      && r[43 + |currentLotId|..] == " (" + lots[currentLotId].location + ")"
  {
    var prefix := "Vehicle is already checked in parking lot: ";
    assert |prefix| == 43;
    SlicesOfConcat(prefix, currentLotId, " (" + lots[currentLotId].location + ")");
  }

  /** The three parts of `p + a + b` are recovered by slicing at `|p|` and `|p| + |a|`. */
  lemma SlicesOfConcat(p: string, a: string, b: string)
    ensures var r := p + a + b;
      r[..|p|] == p && r[|p|..|p| + |a|] == a && r[|p| + |a|..] == b
  {
    var r := p + a + b;
    assert r[..|p|] == p;
    assert r[|p|..|p| + |a|] == a;
    assert r[|p| + |a|..] == b;
  }

  class Service {
    const store: ParkingStore

    constructor(store: ParkingStore)
      ensures this.store == store
    {
      this.store := store;
    }

    /** Checks the vehicle, then the lot, then for any active record of the vehicle in
        any lot, then for a free space; on success opens a record stamped `now` and
        counts one more vehicle in the lot. */
    method CheckIn(dto: CheckInDto, now: Timestamp) returns (r: Result<ParkingRecordDto>)
      requires store.Valid()
      modifies store
      ensures store.Valid()
      ensures dto.licensePlate !in old(store.vehicles) ==> r == Failure(NotFound("Vehicle not found"))
      ensures dto.licensePlate in old(store.vehicles) && dto.lotId !in old(store.lots)
        ==> r == Failure(NotFound("Parking lot not found"))
      ensures dto.licensePlate in old(store.vehicles) && dto.lotId in old(store.lots)
              && FindActiveByVehicle(old(store.records), dto.licensePlate).Some?
        ==> var current := old(store.records)[FindActiveByVehicle(old(store.records), dto.licensePlate).value];
            current.lotId in old(store.lots)
            && r == Failure(BadRequest(AlreadyCheckedInReason(old(store.lots), current.lotId, dto.lotId)))
      ensures dto.licensePlate in old(store.vehicles) && dto.lotId in old(store.lots)
              && FindActiveByVehicle(old(store.records), dto.licensePlate).None?
              && old(store.lots)[dto.lotId].occupiedSpaces >= old(store.lots)[dto.lotId].capacity
        ==> r == Failure(BadRequest("Parking lot is full"))
      ensures r.Success? <==>
        && dto.licensePlate in old(store.vehicles) && dto.lotId in old(store.lots)
        && FindActiveByVehicle(old(store.records), dto.licensePlate).None?
        && old(store.lots)[dto.lotId].occupiedSpaces < old(store.lots)[dto.lotId].capacity
      ensures r.Failure? ==> unchanged(store)
      ensures r.Success? ==>
        && store.records == old(store.records) + [Opened(dto.licensePlate, dto.lotId, now)]
        && store.lots == old(store.lots)[dto.lotId := Admit(old(store.lots)[dto.lotId])]
        && store.vehicles == old(store.vehicles)
        && r.value == ParkingRecordDto(dto.licensePlate, dto.lotId, now, None)
    {
      if dto.licensePlate !in store.vehicles {
        return Failure(NotFound("Vehicle not found"));
      }
      var vehicle := store.vehicles[dto.licensePlate];
      if dto.lotId !in store.lots {
        return Failure(NotFound("Parking lot not found"));
      }
      var lot := store.lots[dto.lotId];
      assert vehicle.licensePlate == dto.licensePlate && lot.lotId == dto.lotId;

      var active := FindActiveByVehicle(store.records, vehicle.licensePlate);
      if active.Some? {
        var current := store.records[active.value];
        assert current in store.records;
        var currentLot := store.lots[current.lotId];
        return Failure(BadRequest(AlreadyCheckedInReason(store.lots, currentLot.lotId, dto.lotId)));
      }

      if lot.occupiedSpaces >= lot.capacity {
        return Failure(BadRequest("Parking lot is full"));
      }

      var record := Opened(vehicle.licensePlate, lot.lotId, now);
      CheckInStep(store.lots, store.vehicles, store.records, dto.licensePlate, dto.lotId, now);
      store.lots := store.lots[dto.lotId := Admit(lot)];
      store.records := store.records + [record];
      r := Success(ParkingRecordMapper.ToDto(Some(record)).value);
    }

    /** Checks the vehicle, then the lot, then for an active record of the vehicle in
        that very lot; on success closes that record at `now` and counts one vehicle
        fewer in the lot. */
    method CheckOut(dto: CheckOutDto, now: Timestamp) returns (r: Result<ParkingRecordDto>)
      requires store.Valid()
      modifies store
      ensures store.Valid()
      ensures dto.licensePlate !in old(store.vehicles) ==> r == Failure(NotFound("Vehicle not found"))
      ensures dto.licensePlate in old(store.vehicles) && dto.lotId !in old(store.lots)
        ==> r == Failure(NotFound("Parking lot not found"))
      ensures dto.licensePlate in old(store.vehicles) && dto.lotId in old(store.lots)
              && FindActiveInLot(old(store.records), dto.licensePlate, dto.lotId).None?
        ==> r == Failure(BadRequest("Vehicle is not currently checked in this parking lot"))
      ensures r.Success? <==>
        && dto.licensePlate in old(store.vehicles) && dto.lotId in old(store.lots)
        && FindActiveInLot(old(store.records), dto.licensePlate, dto.lotId).Some?
      ensures r.Failure? ==> unchanged(store)
      ensures r.Success? ==>
        var i := FindActiveInLot(old(store.records), dto.licensePlate, dto.lotId).value;
        && old(store.lots)[dto.lotId].occupiedSpaces >= 1
        && store.records == old(store.records)[i := Closed(old(store.records)[i], now)]
        && store.lots == old(store.lots)[dto.lotId := Release(old(store.lots)[dto.lotId])]
        && store.vehicles == old(store.vehicles)
        && r.value == ParkingRecordDto(dto.licensePlate, dto.lotId, old(store.records)[i].checkInTime, Some(now))
    {
      if dto.licensePlate !in store.vehicles {
        return Failure(NotFound("Vehicle not found"));
      }
      var vehicle := store.vehicles[dto.licensePlate];
      if dto.lotId !in store.lots {
        return Failure(NotFound("Parking lot not found"));
      }
      var lot := store.lots[dto.lotId];

      var found := FindActiveInLot(store.records, vehicle.licensePlate, lot.lotId);
      if found.None? {
        return Failure(BadRequest("Vehicle is not currently checked in this parking lot"));
      }
      var i := found.value;
      assert vehicle.licensePlate == dto.licensePlate && lot.lotId == dto.lotId;

      CheckOutStep(store.lots, store.vehicles, store.records, dto.licensePlate, dto.lotId, now);
      var closed := Closed(store.records[i], now);
      store.records := store.records[i := closed];
      store.lots := store.lots[dto.lotId := Release(lot)];
      r := Success(ParkingRecordMapper.ToDto(Some(closed)).value);
    }
  }
}
