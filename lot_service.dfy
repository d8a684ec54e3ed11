/** Lot registration, and the two read projections over the ledger: a lot's status and
    the vehicles currently parked in it. */
module ParkingLotService {
  import opened Common
  import opened Entities
  import opened Dtos
  import opened Store
  import opened ParkingRecordRepository
  import Ledger
  import ParkingLotMapper

  class Service {
    const store: ParkingStore

    constructor(store: ParkingStore)
      ensures this.store == store
    {
      this.store := store;
    }

    /** Rejects an id that is already registered; otherwise stores the lot with exactly
        the given fields and returns them unchanged. The registration has passed the
        request's validation before it reaches here. */
    method Save(dto: ParkingLotDto) returns (r: Result<ParkingLotDto>)
      requires store.Valid() && ValidParkingLotDto(dto)
      modifies store
      ensures store.Valid()
      ensures r.Failure? <==> dto.lotId in old(store.lots)
      ensures r.Failure? ==> r.error == BadRequest("Parking lot with this ID already exists") && unchanged(store)
      ensures r.Success? ==>
        && r.value == dto
        && store.lots == old(store.lots)[dto.lotId := ParkingLot(dto.lotId, dto.location, dto.capacity, dto.occupiedSpaces)]
        && store.vehicles == old(store.vehicles)
        && store.records == old(store.records)
    {
      var lot := ParkingLotMapper.ToEntity(Some(dto)).value;
      if lot.lotId in store.lots {
        return Failure(BadRequest("Parking lot with this ID already exists"));
      }
      Ledger.RegisterLotStep(store.lots, store.vehicles, store.records, dto);
      store.lots := store.lots[lot.lotId := lot];
      ParkingLotMapper.DtoRoundTrip(Some(dto));
      r := Success(ParkingLotMapper.ToDto(Some(lot)).value);
    }
  }

  /** A lot's id, location, capacity and occupancy as stored, and the free spaces as
      Java's `int` subtraction gives them: exact whenever both numbers are non-negative. */
  function GetStatus(lots: map<string, ParkingLot>, lotId: string): (r: Result<ParkingLotStatusDto>)
    ensures lotId !in lots ==> r == Failure(NotFound("Parking lot not found"))
    ensures lotId in lots ==> r.Success?
    ensures lotId in lots ==>
      var lot, s := lots[lotId], r.value;
      && s.lotId == lot.lotId && s.location == lot.location
      && s.capacity == lot.capacity && s.occupiedSpaces == lot.occupiedSpaces
      && (s.availableSpaces - (lot.capacity - lot.occupiedSpaces)) % 0x1_0000_0000 == 0
      && (lot.capacity >= 0 && lot.occupiedSpaces >= 0 ==> s.availableSpaces == lot.capacity - lot.occupiedSpaces)
  {
    if lotId !in lots then Failure(NotFound("Parking lot not found"))
    else
      var lot := lots[lotId];
      Success(ParkingLotStatusDto(lot.lotId, lot.location, lot.capacity, lot.occupiedSpaces,
                                  Wrap32(lot.capacity - lot.occupiedSpaces)))
  }

  /** On a ledger state the free spaces never wrap: they are capacity minus occupancy,
      and they are non-negative exactly when the lot is within its capacity. */
  lemma StatusOnLedger(lots: map<string, ParkingLot>, vehicles: map<string, Vehicle>,
                       records: seq<ParkingRecord>, lotId: string)
    requires Ledger.Invariant(lots, vehicles, records) && lotId in lots
    ensures var s := GetStatus(lots, lotId).value;
      && s.availableSpaces == s.capacity - s.occupiedSpaces
      && (s.availableSpaces >= 0 <==> Ledger.WithinCapacity(lots[lotId]))
  {
    assert lots[lotId].occupiedSpaces >= Occupancy(records, lotId) >= 0;
  }

  /** The row reported for one parked vehicle: its plate, type and owner, and when it arrived. */
  function Entry(vehicles: map<string, Vehicle>, rec: ParkingRecord): VehiclesInLotDto
    requires rec.licensePlate in vehicles
  {
    var v := vehicles[rec.licensePlate];
    VehiclesInLotDto(v.licensePlate, v.vehicleType, v.ownerName, rec.checkInTime)
  }

  /** One row per record, in order. */
  function Entries(vehicles: map<string, Vehicle>, rs: seq<ParkingRecord>): (r: seq<VehiclesInLotDto>)
    requires forall x :: x in rs ==> x.licensePlate in vehicles
    ensures |r| == |rs|
    ensures forall k :: 0 <= k < |rs| ==> r[k] == Entry(vehicles, rs[k])
  {
    if rs == [] then [] else [Entry(vehicles, rs[0])] + Entries(vehicles, rs[1..])
  }

  /** The vehicles parked in a lot: one row per active record of the lot, in stored order. */
  function GetVehiclesInLot(lots: map<string, ParkingLot>, vehicles: map<string, Vehicle>,
                            records: seq<ParkingRecord>, lotId: string): (r: Result<seq<VehiclesInLotDto>>)
    requires forall x :: x in records ==> x.licensePlate in vehicles
    ensures lotId !in lots ==> r == Failure(NotFound("Parking lot not found"))
    ensures lotId in lots ==> r.Success? && |r.value| == Occupancy(records, lotId)
  {
    if lotId !in lots then Failure(NotFound("Parking lot not found"))
    else Success(Entries(vehicles, ActiveOnly(LotRecords(records, lotId))))
  }

  /** A vehicle is listed in a lot exactly when check-out would find an active record of
      it there: the projection shows the set the ledger considers active, and no closed record. */
  lemma VehiclesInLotAreTheActive(lots: map<string, ParkingLot>, vehicles: map<string, Vehicle>,
                                  records: seq<ParkingRecord>, lotId: string, plate: string)
    requires Ledger.Invariant(lots, vehicles, records) && lotId in lots
    ensures (exists e :: e in GetVehiclesInLot(lots, vehicles, records, lotId).value && e.licensePlate == plate)
            <==> FindActiveInLot(records, plate, lotId).Some?
  {
    var act := ActiveOnly(LotRecords(records, lotId));
    var es := GetVehiclesInLot(lots, vehicles, records, lotId).value;
    assert es == Entries(vehicles, act);
    if exists e :: e in es && e.licensePlate == plate {
      var e :| e in es && e.licensePlate == plate;
      var k :| 0 <= k < |es| && es[k] == e;
      var rec := act[k];
      assert rec in act;
      var i :| 0 <= i < |records| && records[i] == rec;
      assert records[i].licensePlate == plate && records[i].lotId == lotId && IsActive(records[i]);
    }
    if FindActiveInLot(records, plate, lotId).Some? {
      var rec := records[FindActiveInLot(records, plate, lotId).value];
      assert rec in records;
      assert rec in act;
      var k :| 0 <= k < |act| && act[k] == rec;
      assert es[k] in es && es[k].licensePlate == plate;
    }
  }

  /** Rows of a concatenation are the concatenated rows. */
  lemma EntriesAppend(vehicles: map<string, Vehicle>, a: seq<ParkingRecord>, b: seq<ParkingRecord>)
    requires forall x :: x in a ==> x.licensePlate in vehicles
    requires forall x :: x in b ==> x.licensePlate in vehicles
    ensures Entries(vehicles, a + b) == Entries(vehicles, a) + Entries(vehicles, b)
  {
    var whole, parts := Entries(vehicles, a + b), Entries(vehicles, a) + Entries(vehicles, b);
    forall k | 0 <= k < |whole| ensures whole[k] == parts[k] {
      if k < |a| {
        assert (a + b)[k] == a[k];
      } else {
        assert (a + b)[k] == b[k - |a|];
      }
    }
  }

  /** After a check-in the lot's list is the old list with the new vehicle at the end,
      and every other lot's list is unchanged: the list is in check-in order. */
  lemma VehiclesInLotAfterCheckIn(lots: map<string, ParkingLot>, vehicles: map<string, Vehicle>,
                                  records: seq<ParkingRecord>, plate: string, lotId: string,
                                  now: Timestamp, id: string)
    requires forall x :: x in records ==> x.licensePlate in vehicles
    requires plate in vehicles && id in lots
    ensures var rec := Ledger.Opened(plate, lotId, now);
      GetVehiclesInLot(lots, vehicles, records + [rec], id).value
      == GetVehiclesInLot(lots, vehicles, records, id).value + (if id == lotId then [Entry(vehicles, rec)] else [])
  {
    var rec := Ledger.Opened(plate, lotId, now);
    var tail := if id == lotId then [rec] else [];
    assert LotRecords([rec], id) == tail by {
      assert [rec][1..] == [];
    }
    assert ActiveOnly(tail) == tail by {
      assert [rec][1..] == [];
    }
    LotRecordsAppend(records, [rec], id);
    var before := LotRecords(records, id);
    assert LotRecords(records + [rec], id) == before + tail;
    ActiveOnlyAppend(before, tail);
    assert ActiveOnly(LotRecords(records + [rec], id)) == ActiveOnly(before) + tail;
    EntriesAppend(vehicles, ActiveOnly(before), tail);
  }
}
