/** The entity store the services share: the lot and vehicle repositories as maps keyed
    by id and plate, and the parking-record repository as an append-only log. */
module Store {
  import opened Entities
  import Ledger

  class ParkingStore {
    var lots: map<string, ParkingLot>
    var vehicles: map<string, Vehicle>
    var records: seq<ParkingRecord>

    ghost predicate Valid()
      reads this
    {
      Ledger.Invariant(lots, vehicles, records)
    }

    constructor()
      ensures Valid()
      ensures lots == map[] && vehicles == map[] && records == []
    {
      lots, vehicles, records := map[], map[], [];
    }
  }
}
