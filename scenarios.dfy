/** A caller's view: what the services' contracts alone let one conclude about a
    sequence of requests. */
module Scenarios {
  import opened Common
  import opened VehicleTypes
  import opened Constraints
  import opened Dtos
  import opened Entities
  import opened Store
  import ParkingLotService
  import VehicleService
  import ParkingRecordService
  import ParkingRecordRepository

  /** Register lot L1 of capacity 1 and vehicle V1; check in (occupancy 1), check in
      again (refused as already in this lot), check out (occupancy 0), check out again
      (refused as not checked in). */
  method SingleSpaceLot(t1: Timestamp, t2: Timestamp, t3: Timestamp, t4: Timestamp)
  {
    var store := new ParkingStore();
    var lots := new ParkingLotService.Service(store);
    var vehicles := new VehicleService.Service(store);
    var ledger := new ParkingRecordService.Service(store);

    assert !IsBlankChar("L1"[0]) && !IsBlankChar("Main Street"[0]);
    var l := lots.Save(ParkingLotDto("L1", "Main Street", 1, 0));
    assert l.Success?;
    var v := vehicles.Save(VehicleDto("V1", Some(CAR), "John Doe"));
    assert v.Success?;

    var c1 := ledger.CheckIn(CheckInDto("V1", "L1"), t1);
    assert c1 == Success(ParkingRecordDto("V1", "L1", t1, None));
    assert store.lots["L1"].occupiedSpaces == 1;

    var c2 := ledger.CheckIn(CheckInDto("V1", "L1"), t2);
    assert store.records[0].lotId == "L1";
    assert c2 == Failure(BadRequest("Vehicle is already checked in this parking lot"));

    var c3 := ledger.CheckOut(CheckOutDto("V1", "L1"), t3);
    assert c3 == Success(ParkingRecordDto("V1", "L1", t1, Some(t3)));
    assert store.lots["L1"].occupiedSpaces == 0;

    var c4 := ledger.CheckOut(CheckOutDto("V1", "L1"), t4);
    assert c4 == Failure(BadRequest("Vehicle is not currently checked in this parking lot"));
  }

  /** A vehicle parked in L1 is refused at L2 with a reason naming L1 and its location,
      and cannot check out of L2 either. */
  method ParkedElsewhere(t1: Timestamp, t2: Timestamp, t3: Timestamp)
  {
    var store := new ParkingStore();
    var lots := new ParkingLotService.Service(store);
    var vehicles := new VehicleService.Service(store);
    var ledger := new ParkingRecordService.Service(store);

    assert !IsBlankChar("LOT1"[0]) && !IsBlankChar("LOT2"[0]) && !IsBlankChar("Main Street"[0]);
    var l1 := lots.Save(ParkingLotDto("LOT1", "Main Street", 2, 0));
    assert l1.Success?;
    assert "LOT1" != "LOT2" by { assert "LOT1"[3] != "LOT2"[3]; }
    var l2 := lots.Save(ParkingLotDto("LOT2", "Main Street", 2, 0));
    assert l2.Success?;
    var v := vehicles.Save(VehicleDto("ABC-123", Some(CAR), "John Doe"));
    assert v.Success?;
    assert "LOT1" in store.lots && "LOT2" in store.lots && "ABC-123" in store.vehicles;
    assert store.records == [];

    var c1 := ledger.CheckIn(CheckInDto("ABC-123", "LOT1"), t1);
    assert c1.Success?;
    var parked := ParkingRecord("ABC-123", "LOT1", t1, None);
    assert store.records == [parked];
    assert store.lots["LOT1"].location == "Main Street";
    ParkedOnce(parked);
    ReasonNamesLot1(store.lots);
    var c2 := ledger.CheckIn(CheckInDto("ABC-123", "LOT2"), t2);
    assert c2 == Failure(BadRequest("Vehicle is already checked in parking lot: LOT1 (Main Street)"));
    assert store.records == [parked];
    var c3 := ledger.CheckOut(CheckOutDto("ABC-123", "LOT2"), t3);
    assert c3 == Failure(BadRequest("Vehicle is not currently checked in this parking lot"));
  }

  /** The lookups on a log holding one active record of ABC-123 in LOT1. */
  lemma ParkedOnce(parked: ParkingRecord)
    requires parked.licensePlate == "ABC-123" && parked.lotId == "LOT1" && parked.checkOutTime.None?
    ensures ParkingRecordRepository.FindActiveByVehicle([parked], "ABC-123") == Some(0)
    ensures ParkingRecordRepository.FindActiveInLot([parked], "ABC-123", "LOT2").None?
  {
    assert "LOT1" != "LOT2" by { assert "LOT1"[3] != "LOT2"[3]; }
  }

  /** The refusal at LOT2 of a vehicle parked at LOT1 on Main Street. */
  lemma ReasonNamesLot1(lots: map<string, ParkingLot>)
    requires "LOT1" in lots && lots["LOT1"].location == "Main Street"
    ensures ParkingRecordService.AlreadyCheckedInReason(lots, "LOT1", "LOT2")
            == "Vehicle is already checked in parking lot: LOT1 (Main Street)"
  {
    assert "LOT1" != "LOT2" by { assert "LOT1"[3] != "LOT2"[3]; }
  }
}
