/** Vehicle registration: a unique-plate insert. */
module VehicleService {
  import opened Common
  import opened Entities
  import opened Dtos
  import opened Store
  import Ledger
  import VehicleMapper

  class Service {
    const store: ParkingStore

    constructor(store: ParkingStore)
      ensures this.store == store
    {
      this.store := store;
    }

    /** Rejects a plate that is already registered, whatever its type and owner;
        otherwise stores exactly the given vehicle and returns it unchanged. */
    method Save(dto: VehicleDto) returns (r: Result<VehicleDto>)
      requires store.Valid()
      modifies store
      ensures store.Valid()
      ensures r.Failure? <==> dto.licensePlate in old(store.vehicles)
      ensures r.Failure? ==> r.error == BadRequest("Vehicle with this license plate already exists") && unchanged(store)
      ensures r.Success? ==>
        && r.value == dto
        && store.vehicles == old(store.vehicles)[dto.licensePlate := Vehicle(dto.licensePlate, dto.vehicleType, dto.ownerName)]
        && store.lots == old(store.lots)
        && store.records == old(store.records)
    {
      var vehicle := VehicleMapper.ToEntity(Some(dto)).value;
      if vehicle.licensePlate in store.vehicles {
        return Failure(BadRequest("Vehicle with this license plate already exists"));
      }
      Ledger.RegisterVehicleStep(store.lots, store.vehicles, store.records, vehicle);
      store.vehicles := store.vehicles[vehicle.licensePlate := vehicle];
      VehicleMapper.DtoRoundTrip(Some(dto));
      r := Success(VehicleMapper.ToDto(Some(vehicle)).value);
    }
  }
}
