# SmartPark occupancy ledger in Dafny

This project models the core of SmartPark, a parking service. The service registers parking lots
and vehicles, records check-ins and check-outs, and reports how full each lot is.

The model covers:

- the **occupancy ledger** (`ParkingRecordService.checkIn` / `checkOut`);
- the **registration services** (`ParkingLotService.save`, `VehicleService.save`);
- the two **read projections** (`getStatus`, `getVehiclesInLot`);
- the **derived record queries** of `ParkingRecordRepository`;
- the **request validators** declared as annotations on the DTO records;
- the **`VehicleType.from`** parser;
- the three **field-copying mappers**.

Layout, one module per source component:

| file | module | models |
|---|---|---|
| `common.dfy` | `Common` | nullable values, the thrown errors (`NotFound` 404, `BadRequest` 400, `IllegalArgument`), Java `int` |
| `vehicle_type.dfy` | `VehicleTypes` | `VehicleType` and `from` |
| `constraints.dfy` | `Constraints` | `@NotBlank`, `@Pattern`, `@Size`, `@Min` as predicates |
| `dtos.dfy` | `Dtos` | the request/response records and one validity predicate per request record |
| `entities.dfy` | `Entities` | `ParkingLot`, `Vehicle`, `ParkingRecord` as values |
| `mappers.dfy` | `ParkingLotMapper`, `VehicleMapper`, `ParkingRecordMapper` | the mappers |
| `record_repository.dfy` | `ParkingRecordRepository` | the derived queries, a lot's record collection, occupancy counting |
| `ledger.dfy` | `Ledger` | the ledger invariant and the state transitions, with preservation proofs |
| `store.dfy` | `Store` | `ParkingStore`, the in-memory stand-in for the three JPA repositories |
| `vehicle_service.dfy`, `lot_service.dfy`, `record_service.dfy` | `VehicleService`, `ParkingLotService`, `ParkingRecordService` | the services |
| `scenarios.dfy` | `Scenarios` | request sequences a caller can reason about from the contracts alone |

## State

The state is one `ParkingStore` object. It has three parts:

- `lots`: a map from lot id to lot;
- `vehicles`: a map from plate to vehicle;
- `records`: an append-only log of parking records.

A parking record holds a plate, a lot id, a check-in time and an optional check-out time.
A record with no check-out time is **active**.

The services are classes. Each holds the shared store, and its state-changing methods modify
only that store. `LocalDateTime.now()` is a `now: Timestamp` argument.

The invariant is `Ledger.Invariant`. It holds in every reachable state and says:

- lots are keyed by their own id, and vehicles by their own plate;
- every record names a registered vehicle and a registered lot;
- no vehicle has two active records;
- every lot has capacity ≥ 1;
- every lot's `occupiedSpaces` is at least the number of active records in that lot.

The last point follows from a stronger fact. A lot's **surplus** is `occupiedSpaces` minus its
active-record count. Registration fixes the surplus at the registered occupancy (≥ 0), and
check-in and check-out never change it. So `occupiedSpaces` never drops below 0, and the
`+ 1` and `- 1` on Java's `int` never wrap.

`occupiedSpaces ≤ capacity` is preserved once it holds. Registration does not establish it,
because the lot registration record has no cross-field rule.

Two facts about the code matter to a reader expecting more:

- Every refusal of a duplicate or a conflicting request is `BadRequest` (400); there is no
  separate conflict status.
- `occupiedSpaces ≤ capacity` is not enforced at registration. A lot registered with
  occupiedSpaces > capacity is accepted, and its `getStatus` reports negative free spaces.

## Model

| member | source | states |
|---|---|---|
| `VehicleTypes.ToUpper` | src/main/java/com/fayemanalo/smartpark/model/VehicleType.java:13 | upper-casing keeps the length and upper-cases each character in place |
| `VehicleTypes.ValueOf` | src/main/java/com/fayemanalo/smartpark/model/VehicleType.java:13 | `valueOf` succeeds only on an exact constant name; otherwise it throws IllegalArgumentException "No enum constant …VehicleType.<name>", and then no constant has that name |
| `VehicleTypes.From` | src/main/java/com/fayemanalo/smartpark/model/VehicleType.java:11-14 | `from(null)` is null; a parsed value is the constant whose name is the upper-cased input; a failure means no constant has that name |
| `VehicleTypes.FromCharacterisation` | src/main/java/com/fayemanalo/smartpark/model/VehicleType.java:11-14 | `from(s)` gives `t` iff upper-cased `s` is `t`'s name; it throws iff upper-cased `s` names no constant |
| `VehicleTypes.FromNull` | src/main/java/com/fayemanalo/smartpark/model/VehicleType.java:12 | `from(null)` is null |
| `VehicleTypes.ToUpperIdempotent` | src/main/java/com/fayemanalo/smartpark/model/VehicleType.java:13 | upper-casing twice equals upper-casing once |
| `VehicleTypes.FromIgnoresCase` | src/main/java/com/fayemanalo/smartpark/model/VehicleType.java:13 | a string and its upper-cased form parse identically |
| `VehicleTypes.FromName` | src/main/java/com/fayemanalo/smartpark/model/VehicleType.java:5-14 | `from(t.name()) == t` for each of CAR, MOTORCYCLE, TRUCK |
| `VehicleTypes.FromExamples` | src/main/java/com/fayemanalo/smartpark/model/VehicleType.java:11-14 | "car", "Car", "CAR" give CAR; "truck" gives TRUCK; "bus" is rejected |
| `Dtos.ValidVehicleDto` | src/main/java/com/fayemanalo/smartpark/dto/VehicleDto.java:9-19 | a vehicle registration is valid iff the plate is non-empty ASCII letters, digits and '-', and the owner is non-empty ASCII letters and spaces with at least one letter; the type is not checked |
| `Dtos.ValidCheckInDto` | src/main/java/com/fayemanalo/smartpark/dto/CheckInDto.java:7-15 | a check-in request is valid iff the plate is non-empty ASCII letters, digits and '-', and the lot id is non-blank and at most 50 characters |
| `Dtos.ValidCheckOutDto` | src/main/java/com/fayemanalo/smartpark/dto/CheckOutDto.java:5-11 | a valid check-out request has a non-empty plate and lot id; an all-whitespace plate or lot id is rejected |
| `Dtos.ValidParkingLotDto` | src/main/java/com/fayemanalo/smartpark/dto/ParkingLotDto.java:9-22 | a valid lot registration has a non-empty id and location; an all-whitespace lot id or location, a lot id over 50 characters, capacity below 1 or negative occupancy is rejected |
| `Dtos.PlateRule` | src/main/java/com/fayemanalo/smartpark/dto/VehicleDto.java:10-12 | a plate is valid iff non-empty and only ASCII letters, digits and '-'; @NotBlank adds nothing to the pattern |
| `Dtos.OwnerRule` | src/main/java/com/fayemanalo/smartpark/dto/VehicleDto.java:16-18 | an owner name is valid iff non-empty, only ASCII letters and spaces, and at least one letter |
| `Dtos.VehicleDtoExamples` | src/main/java/com/fayemanalo/smartpark/dto/VehicleDto.java:9-19 | "---" is a valid plate; a null type is accepted; an all-space owner matches the pattern but fails @NotBlank; a plate with a space is rejected |
| `Dtos.VehicleTypeUnconstrained` | src/main/java/com/fayemanalo/smartpark/dto/VehicleDto.java:14 | vehicle validity does not depend on the type, null included |
| `Dtos.CheckInLotIdLength` | src/main/java/com/fayemanalo/smartpark/dto/CheckInDto.java:12-14 | a 50-character check-in lot id is accepted and a 51-character one rejected; inner spaces are allowed |
| `Dtos.CheckInLotIdNotBlank` | src/main/java/com/fayemanalo/smartpark/dto/CheckInDto.java:12 | an empty or all-whitespace check-in lot id is rejected |
| `Dtos.CheckOutRule` | src/main/java/com/fayemanalo/smartpark/dto/CheckOutDto.java:5-11 | every valid check-in request is a valid check-out request; a non-blank request whose plate breaks the plate pattern or whose lot id exceeds 50 characters passes check-out and fails check-in |
| `Dtos.CheckOutExamples` | src/main/java/com/fayemanalo/smartpark/dto/CheckOutDto.java:6-10 | a plate with a space and a 51-character lot id pass check-out, while that plate fails check-in |
| `Dtos.ParkingLotDtoExamples` | src/main/java/com/fayemanalo/smartpark/dto/ParkingLotDto.java:9-22 | a lot with occupied > capacity passes (no cross-field rule); capacity 0 and occupied -1 are rejected |
| `Dtos.OccupancyIndependentOfCapacity` | src/main/java/com/fayemanalo/smartpark/dto/ParkingLotDto.java:9-22 | a valid registration stays valid with any non-negative occupancy, even above capacity: no rule relates the two fields |
| `Dtos.ParkingLotDtoAccepted` | src/main/java/com/fayemanalo/smartpark/dto/ParkingLotDto.java:9-22 | a registration whose lot id is non-blank and at most 50 characters, whose location is non-blank, with capacity ≥ 1 and occupancy ≥ 0, is accepted |
| `Dtos.ValidParkingLotBounds` | src/main/java/com/fayemanalo/smartpark/dto/ParkingLotDto.java:10-21 | a valid registration has capacity ≥ 1, occupancy ≥ 0 and a lot id of 1 to 50 characters |
| `ParkingLotMapper.ToEntity` | src/main/java/com/fayemanalo/smartpark/mapper/ParkingLotMapper.java:11-20 | null maps to null and non-null to non-null |
| `ParkingLotMapper.ToDto` | src/main/java/com/fayemanalo/smartpark/mapper/ParkingLotMapper.java:23-32 | null maps to null and non-null to non-null |
| `ParkingLotMapper.ToEntityCopies` | src/main/java/com/fayemanalo/smartpark/mapper/ParkingLotMapper.java:14-19 | the entity carries the registration's id, location, capacity and occupancy |
| `ParkingLotMapper.DtoRoundTrip` | src/main/java/com/fayemanalo/smartpark/mapper/ParkingLotMapper.java:11-32 | `toDto(toEntity(d)) == d`, null included |
| `ParkingLotMapper.EntityRoundTrip` | src/main/java/com/fayemanalo/smartpark/mapper/ParkingLotMapper.java:11-32 | `toEntity(toDto(e)) == e` on the four scalar fields |
| `VehicleMapper.ToEntity` | src/main/java/com/fayemanalo/smartpark/mapper/VehicleMapper.java:11-19 | null maps to null and non-null to non-null |
| `VehicleMapper.ToDto` | src/main/java/com/fayemanalo/smartpark/mapper/VehicleMapper.java:22-30 | null maps to null and non-null to non-null |
| `VehicleMapper.ToEntityCopies` | src/main/java/com/fayemanalo/smartpark/mapper/VehicleMapper.java:14-18 | the entity's plate, type and owner are the registration's plate, type and owner |
| `VehicleMapper.ToDtoCopies` | src/main/java/com/fayemanalo/smartpark/mapper/VehicleMapper.java:25-29 | the response's plate, type and owner are the entity's plate, type and owner |
| `VehicleMapper.DtoRoundTrip` | src/main/java/com/fayemanalo/smartpark/mapper/VehicleMapper.java:11-30 | `toDto(toEntity(d)) == d`, null included |
| `VehicleMapper.EntityRoundTrip` | src/main/java/com/fayemanalo/smartpark/mapper/VehicleMapper.java:11-30 | `toEntity(toDto(e)) == e` on plate, type and owner |
| `ParkingRecordMapper.ToDto` | src/main/java/com/fayemanalo/smartpark/mapper/ParkingRecordMapper.java:11-20 | null maps to null and non-null to non-null |
| `ParkingRecordMapper.ToDtoProjects` | src/main/java/com/fayemanalo/smartpark/mapper/ParkingRecordMapper.java:14-19 | the response has the record's plate, lot id and both times; its check-out time is null iff the record is active |
| `ParkingRecordMapper.ToDtoInjective` | src/main/java/com/fayemanalo/smartpark/mapper/ParkingRecordMapper.java:14-19 | records that differ in a modelled field (plate, lot, either time) give distinct responses; the projection loses none of them |
| `ParkingRecordRepository.FindActiveByVehicle` | src/main/java/com/fayemanalo/smartpark/repository/ParkingRecordRepository.java:16 | a found position holds an active record of the vehicle; "not found" means no such record exists |
| `ParkingRecordRepository.FindActiveInLot` | src/main/java/com/fayemanalo/smartpark/repository/ParkingRecordRepository.java:19 | a found position holds an active record of the vehicle in that lot; "not found" means no such record exists |
| `ParkingRecordRepository.ExistsActiveByVehicle` | src/main/java/com/fayemanalo/smartpark/repository/ParkingRecordRepository.java:13 | true iff some record of the vehicle is active |
| `ParkingRecordRepository.LotRecords` | src/main/java/com/fayemanalo/smartpark/model/ParkingLot.java:28-29 | a lot's collection holds exactly the logged records that name the lot |
| `ParkingRecordRepository.ActiveOnly` | src/main/java/com/fayemanalo/smartpark/service/ParkingLotService.java:97 | the filter keeps exactly the records with no check-out time |
| `ParkingRecordRepository.LotRecordsAppend` | src/main/java/com/fayemanalo/smartpark/model/ParkingLot.java:28-29 | selecting a lot's records distributes over concatenation: selecting from `a + b` equals selecting from `a`, then from `b` (in the model's log order) |
| `ParkingRecordRepository.ActiveOnlyAppend` | src/main/java/com/fayemanalo/smartpark/service/ParkingLotService.java:96-97 | the active filter distributes over concatenation in the same way |
| `ParkingRecordRepository.OccupancySplit` | src/main/java/com/fayemanalo/smartpark/service/ParkingLotService.java:96-97 | a lot's active-record count over a split log is the sum over the parts |
| `ParkingRecordRepository.OccupancyOne` | src/main/java/com/fayemanalo/smartpark/service/ParkingLotService.java:96-97 | one record counts 1 for its lot iff it is active |
| `ParkingRecordRepository.OccupancyAppend` | src/main/java/com/fayemanalo/smartpark/service/ParkingRecordService.java:92-102 | appending a record raises a lot's active count by 1 iff the record is active in that lot |
| `ParkingRecordRepository.OccupancyClose` | src/main/java/com/fayemanalo/smartpark/service/ParkingRecordService.java:135-140 | closing an active record lowers its lot's active count by 1 and leaves every other lot's count alone |
| `ParkingRecordRepository.OccupancyOfUnnamedLot` | src/main/java/com/fayemanalo/smartpark/service/ParkingLotService.java:35-47 | a lot that no record names has no active records |
| `Ledger.CountersCoverLog` | src/main/java/com/fayemanalo/smartpark/service/ParkingRecordService.java:66-102 | under `Ledger.Invariant` (the ledger invariant kept by every service) each lot's counter is at least its active-record count, which is ≥ 0, so the counter is never negative |
| `Ledger.Opened` | src/main/java/com/fayemanalo/smartpark/service/ParkingRecordService.java:92-96 | the record check-in builds is active and carries the vehicle, the lot and the current time |
| `Ledger.Admit` | src/main/java/com/fayemanalo/smartpark/service/ParkingRecordService.java:99 | the counter goes up by 1 and, since the lot was not full, stays within capacity; every other field is kept; `Release` undoes it exactly |
| `Ledger.Closed` | src/main/java/com/fayemanalo/smartpark/service/ParkingRecordService.java:135 | the closed record is no longer active, has check-out time now, and keeps its vehicle, lot and check-in time |
| `Ledger.Release` | src/main/java/com/fayemanalo/smartpark/service/ParkingRecordService.java:139 | the counter goes down by 1 with no clamp; every other field is kept; a lot within capacity stays within it |
| `Ledger.OneActiveRecordFound` | src/main/java/com/fayemanalo/smartpark/service/ParkingRecordService.java:67-68 | with at most one active record per vehicle, the vehicle lookup finds exactly that vehicle's active record |
| `Ledger.ActiveLookupsAgree` | src/main/java/com/fayemanalo/smartpark/service/ParkingRecordService.java:128-132 | under the invariant, the record check-out finds is the vehicle's one active record, the same one check-in's lookup finds |
| `Ledger.CheckInStep` | src/main/java/com/fayemanalo/smartpark/service/ParkingRecordService.java:92-102 | check-in's effect keeps the invariant and the set of lots |
| `Ledger.CheckInKeepsSurplus` | src/main/java/com/fayemanalo/smartpark/service/ParkingRecordService.java:92-102 | check-in's effect keeps every lot's surplus; a lot within capacity stays within it |
| `Ledger.OpenShiftsOccupancy` | src/main/java/com/fayemanalo/smartpark/service/ParkingRecordService.java:92-102 | the new record adds one vehicle to its own lot's count and none to any other lot's |
| `Ledger.OpenKeepsOneActive` | src/main/java/com/fayemanalo/smartpark/service/ParkingRecordService.java:67-86 | opening a record for a vehicle with no active record keeps at most one active record per vehicle |
| `Ledger.CheckOutStep` | src/main/java/com/fayemanalo/smartpark/service/ParkingRecordService.java:134-140 | before check-out the lot's counter is ≥ 1, so the unclamped decrement cannot wrap; the effect keeps the invariant and the set of lots |
| `Ledger.CheckOutKeepsSurplus` | src/main/java/com/fayemanalo/smartpark/service/ParkingRecordService.java:134-140 | check-out's effect keeps every lot's surplus; a lot within capacity stays within it |
| `Ledger.CloseShiftsOccupancy` | src/main/java/com/fayemanalo/smartpark/service/ParkingRecordService.java:135 | closing an active record removes one vehicle from its own lot's count and none from any other lot's |
| `Ledger.CheckOutFreesVehicle` | src/main/java/com/fayemanalo/smartpark/service/ParkingRecordService.java:129-135 | after check-out the vehicle has no active record in any lot |
| `Ledger.CloseKeepsLog` | src/main/java/com/fayemanalo/smartpark/service/ParkingRecordService.java:135-136 | closing a record keeps every reference valid and keeps at most one active record per vehicle |
| `Ledger.RegisterLotStep` | src/main/java/com/fayemanalo/smartpark/service/ParkingLotService.java:35-47 | registering a fresh valid lot keeps the invariant; the new lot's surplus is its registered occupancy, which is ≥ 0 |
| `Ledger.RegisterVehicleStep` | src/main/java/com/fayemanalo/smartpark/service/VehicleService.java:29-43 | registering a fresh plate keeps the invariant |
| `Ledger.CheckInThenCheckOut` | src/main/java/com/fayemanalo/smartpark/service/ParkingRecordService.java:56-143 | check-in then check-out of the same plate and lot finds the new record, restores the lot map exactly, and leaves one closed record |
| `VehicleService.Service.Save` | src/main/java/com/fayemanalo/smartpark/service/VehicleService.java:29-43 | fails with BadRequest "Vehicle with this license plate already exists" iff the plate is registered, storing nothing then; otherwise adds exactly that vehicle and returns the input unchanged; keeps the invariant |
| `ParkingLotService.Service.Save` | src/main/java/com/fayemanalo/smartpark/service/ParkingLotService.java:35-48 | fails with BadRequest "Parking lot with this ID already exists" iff the id is registered, storing nothing then; otherwise stores exactly the given lot and returns the input; keeps the invariant |
| `ParkingLotService.GetStatus` | src/main/java/com/fayemanalo/smartpark/service/ParkingLotService.java:61-78 | NotFound "Parking lot not found" iff the lot is absent; otherwise the four stored fields are unchanged and free spaces are capacity − occupied as a Java `int` (exact when both are ≥ 0) |
| `Common.Wrap32` | src/main/java/com/fayemanalo/smartpark/service/ParkingLotService.java:69 | Java `int` arithmetic: the result lies in the `int` range, agrees with the exact value modulo 2^32, and equals it whenever the exact value is in range |
| `ParkingLotService.StatusOnLedger` | src/main/java/com/fayemanalo/smartpark/service/ParkingLotService.java:69 | in a ledger state, free spaces equal capacity − occupied exactly, and are ≥ 0 iff the lot is within capacity |
| `ParkingLotService.Entries` | src/main/java/com/fayemanalo/smartpark/service/ParkingLotService.java:98-103 | one row per record, in order; each row has the record's vehicle's plate, type and owner and the record's check-in time |
| `ParkingLotService.GetVehiclesInLot` | src/main/java/com/fayemanalo/smartpark/service/ParkingLotService.java:89-105 | NotFound "Parking lot not found" iff the lot is absent; otherwise as many rows as active records in the lot |
| `ParkingLotService.VehiclesInLotAreTheActive` | src/main/java/com/fayemanalo/smartpark/service/ParkingLotService.java:96-104 | a plate is listed iff check-out would find an active record of it in that lot, so closed records never appear |
| `ParkingLotService.EntriesAppend` | src/main/java/com/fayemanalo/smartpark/service/ParkingLotService.java:98-104 | the row list of a concatenation is the concatenation of the row lists |
| `ParkingLotService.VehiclesInLotAfterCheckIn` | src/main/java/com/fayemanalo/smartpark/service/ParkingLotService.java:96-104 | after a check-in the lot's list is the old list plus the new vehicle at the end, and every other lot's list is unchanged |
| `ParkingRecordService.AlreadyCheckedInReason` | src/main/java/com/fayemanalo/smartpark/service/ParkingRecordService.java:72-85 | the reason is "Vehicle is already checked in this parking lot" iff the active record is in the requested lot |
| `ParkingRecordService.AlreadyCheckedInReasonNamesLot` | src/main/java/com/fayemanalo/smartpark/service/ParkingRecordService.java:79-84 | for another lot the reason is "Vehicle is already checked in parking lot: ", then the current lot's id, then " (", its location and ")" |
| `ParkingRecordService.Service.CheckIn` | src/main/java/com/fayemanalo/smartpark/service/ParkingRecordService.java:56-105 | checks run in order: vehicle (NotFound "Vehicle not found"), lot (NotFound "Parking lot not found"), any active record of the vehicle (BadRequest, "same lot" or naming the other lot and its location), capacity (BadRequest "Parking lot is full" iff occupied ≥ capacity); a refusal changes nothing; success appends exactly one open record stamped now, raises that lot's counter by 1, changes nothing else, and keeps the invariant |
| `ParkingRecordService.Service.CheckOut` | src/main/java/com/fayemanalo/smartpark/service/ParkingRecordService.java:119-143 | checks run in order: vehicle, lot, then an active record of that vehicle in that exact lot (BadRequest "Vehicle is not currently checked in this parking lot", even if it is active elsewhere); a refusal changes nothing; success closes that record at now, lowers the lot's counter by 1 with no clamp, changes nothing else, and keeps the invariant |
| `Scenarios.ParkedOnce` | src/test/java/com/fayemanalo/smartpark/service/ParkingRecordServiceTest.java:162-193 | with one active record of ABC-123 in LOT1, check-in's vehicle lookup finds it (the test's situation), and check-out's lookup at LOT2 (ParkingRecordService.java:128-132) finds nothing |
| `Scenarios.ReasonNamesLot1` | src/main/java/com/fayemanalo/smartpark/service/ParkingRecordService.java:80-83 | the refusal at LOT2 reads "Vehicle is already checked in parking lot: LOT1 (Main Street)" |

`Scenarios.SingleSpaceLot` and `Scenarios.ParkedElsewhere` are client methods. They derive,
from the service contracts alone, the outcome of each request in two scenarios: a lot with
one space used twice, and a vehicle parked in another lot.

## Left out

- Controllers and the exception handler are left out. They do HTTP routing, status codes and
  JSON error bodies. Errors are the `Common.Error` values instead.
- JPA persistence is left out: repositories, lazy loading, cascades, column mappings and
  generated record ids. The stores are maps and a sequence. A record's position in the log
  stands for its id.
- `@Transactional`, isolation and concurrent requests are left out. Each service method is one
  atomic step, so the order of the two writes in check-in and check-out does not matter.
- The wall clock and the JSON date format are left out. Timestamps are opaque integers passed
  in. Nothing about their order is assumed, because the code promises nothing about it.
- Java `null` strings are left out. DTO and entity strings are non-null. Every String field of
  every request record is `@NotBlank`, which rejects null, so validation outcomes are the same.
  Null is modelled where it matters: the vehicle type, and mapper arguments and results.
- `VehicleTypes.ToUpper`: models ASCII upper-casing only, not locale-dependent Unicode
  `toUpperCase`.
- `Constraints.SizeAtMost`: counts Unicode scalar values, not UTF-16 code units, so a lot id
  with characters outside the Basic Multilingual Plane is measured differently.
- `Constraints.NotBlank` treats a character as blank when it is at most U+0020. This follows the
  `String.trim()` test that the reference Bean Validation implementation uses.
- The entities' `parkingRecords` collections are not fields of the entity values. They are the
  derived view `ParkingRecordRepository.LotRecords` over the log. So "toEntity leaves
  parkingRecords unset" appears only as the mapper copying the scalar fields.
- `ParkingRecordRepository.LotRecords`: the model takes a lot's records in log order, so
  `getVehiclesInLot` lists vehicles in check-in order. The JPA mapping of `parkingRecords` has no
  `@OrderBy` or `@OrderColumn` and promises no order; only the set of listed rows is the code's.
- `ParkingLotService.Service.Save` requires a registration that passes `Dtos.ValidParkingLotDto`.
  The only caller is the controller, which validates with `@Valid`. Unvalidated input would let
  capacity < 1 or occupancy < 0 into the store.
- A lookup in a store that holds two active records for one vehicle is left out. JPA would throw
  on the duplicate. The invariant proves this state unreachable.
