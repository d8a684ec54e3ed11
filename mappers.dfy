/** Field-copying conversion between a lot registration and the lot entity. */
module ParkingLotMapper {
  import opened Common
  import opened Entities
  import opened Dtos

  function ToEntity(dto: Option<ParkingLotDto>): (e: Option<ParkingLot>)
    ensures e.Some? <==> dto.Some?
  {
    match dto
    case None => None
    case Some(d) => Some(ParkingLot(d.lotId, d.location, d.capacity, d.occupiedSpaces))
  }

  function ToDto(entity: Option<ParkingLot>): (d: Option<ParkingLotDto>)
    ensures d.Some? <==> entity.Some?
  {
    match entity
    case None => None
    case Some(e) => Some(ParkingLotDto(e.lotId, e.location, e.capacity, e.occupiedSpaces))
  }

  /** A registration survives the trip through the entity unchanged (null included). */
  lemma DtoRoundTrip(d: Option<ParkingLotDto>)
    ensures ToDto(ToEntity(d)) == d
  {
  }

  /** An entity's four scalar fields survive the trip through the DTO. */
  lemma EntityRoundTrip(e: Option<ParkingLot>)
    ensures ToEntity(ToDto(e)) == e
  {
  }

  /** The entity carries exactly the registration's id, location, capacity and occupancy. */
  lemma ToEntityCopies(d: ParkingLotDto)
    ensures var e := ToEntity(Some(d)).value;
      e.lotId == d.lotId && e.location == d.location
      && e.capacity == d.capacity && e.occupiedSpaces == d.occupiedSpaces
  {
  }
}

/** Field-copying conversion between a vehicle registration and the vehicle entity. */
module VehicleMapper {
  import opened Common
  import opened Entities
  import opened Dtos

  function ToEntity(dto: Option<VehicleDto>): (e: Option<Vehicle>)
    ensures e.Some? <==> dto.Some?
  {
    match dto
    case None => None
    case Some(d) => Some(Vehicle(d.licensePlate, d.vehicleType, d.ownerName))
  }

  function ToDto(entity: Option<Vehicle>): (d: Option<VehicleDto>)
    ensures d.Some? <==> entity.Some?
  {
    match entity
    case None => None
    case Some(e) => Some(VehicleDto(e.licensePlate, e.vehicleType, e.ownerName))
  }

  /** A registration survives the trip through the entity unchanged (null included). */
  lemma DtoRoundTrip(d: Option<VehicleDto>)
    ensures ToDto(ToEntity(d)) == d
  {
  }

  /** An entity's three scalar fields survive the trip through the DTO. */
  lemma EntityRoundTrip(e: Option<Vehicle>)
    ensures ToEntity(ToDto(e)) == e
  {
  }

  /** The entity carries the registration's plate, type and owner, each in its own field. */
  lemma ToEntityCopies(d: VehicleDto)
    ensures var e := ToEntity(Some(d)).value;
      e.licensePlate == d.licensePlate && e.vehicleType == d.vehicleType && e.ownerName == d.ownerName
  {
  }

  /** The response carries the entity's plate, type and owner, each in its own field. */
  lemma ToDtoCopies(e: Vehicle)
    ensures var d := ToDto(Some(e)).value;
      d.licensePlate == e.licensePlate && d.vehicleType == e.vehicleType && d.ownerName == e.ownerName
  {
  }
}

/** Projection of a parking record onto its response record. */
module ParkingRecordMapper {
  import opened Common
  import opened Entities
  import opened Dtos

  function ToDto(r: Option<ParkingRecord>): (d: Option<ParkingRecordDto>)
    ensures d.Some? <==> r.Some?
  {
    match r
    case None => None
    case Some(rec) => Some(ParkingRecordDto(rec.licensePlate, rec.lotId, rec.checkInTime, rec.checkOutTime))
  }

  /** The response names the record's vehicle and lot, copies both times, and reports a
      session as open (null check-out time) exactly when the record is active. */
  lemma ToDtoProjects(rec: ParkingRecord)
    ensures var d := ToDto(Some(rec)).value;
      && d.licensePlate == rec.licensePlate && d.lotId == rec.lotId
      && d.checkInTime == rec.checkInTime && d.checkOutTime == rec.checkOutTime
      && (d.checkOutTime.None? <==> IsActive(rec))
  {
  }

  /** Distinct records give distinct responses: the projection loses none of the modelled
      fields (the record's generated id is not modelled, and the response carries none). */
  lemma ToDtoInjective(a: ParkingRecord, b: ParkingRecord)
    requires ToDto(Some(a)) == ToDto(Some(b))
    ensures a == b
  {
  }
}
