/** The persistent entities, as values. A record names its vehicle and lot by key;
    the lot's and vehicle's `parkingRecords` collections are derived views over the
    record log (see `ParkingRecordRepository.LotRecords`). */
module Entities {
  import opened Common
  import opened VehicleTypes

  datatype ParkingLot = ParkingLot(lotId: string, location: string, capacity: int32, occupiedSpaces: int32)

  datatype Vehicle = Vehicle(licensePlate: string, vehicleType: Option<VehicleType>, ownerName: string)

  /** One parking session: which vehicle, which lot, when it began and, once closed, when it ended. */
  datatype ParkingRecord = ParkingRecord(
    licensePlate: string,
    lotId: string,
    checkInTime: Timestamp,
    checkOutTime: Option<Timestamp>)

  /** A record with no check-out time: the vehicle is still parked. */
  predicate IsActive(r: ParkingRecord) {
    r.checkOutTime.None?
  }
}
