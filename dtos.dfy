/** The request and response records and the validation their annotations declare. */
module Dtos {
  import opened Common
  import opened VehicleTypes
  import opened Constraints

  datatype VehicleDto = VehicleDto(licensePlate: string, vehicleType: Option<VehicleType>, ownerName: string)

  datatype CheckInDto = CheckInDto(licensePlate: string, lotId: string)

  datatype CheckOutDto = CheckOutDto(licensePlate: string, lotId: string)

  datatype ParkingLotDto = ParkingLotDto(lotId: string, location: string, capacity: int32, occupiedSpaces: int32)

  datatype ParkingLotStatusDto = ParkingLotStatusDto(
    lotId: string, location: string, capacity: int32, occupiedSpaces: int32, availableSpaces: int32)

  datatype ParkingRecordDto = ParkingRecordDto(
    licensePlate: string, lotId: string, checkInTime: Timestamp, checkOutTime: Option<Timestamp>)

  datatype VehiclesInLotDto = VehiclesInLotDto(
    licensePlate: string, vehicleType: Option<VehicleType>, ownerName: string, checkInTime: Timestamp)

  /** Plate: @NotBlank and letters, digits, dashes. Type: unconstrained. Owner: @NotBlank and letters, spaces. */
  predicate ValidVehicleDto(d: VehicleDto): (b: bool)
    ensures b <==> && |d.licensePlate| > 0 && (forall i :: 0 <= i < |d.licensePlate| ==> IsPlateChar(d.licensePlate[i]))
                   && |d.ownerName| > 0 && (forall i :: 0 <= i < |d.ownerName| ==> IsOwnerChar(d.ownerName[i]))
                   && (exists i :: 0 <= i < |d.ownerName| && IsAsciiLetter(d.ownerName[i]))
  {
    PlateRule(d.licensePlate);
    OwnerRule(d.ownerName);
    && NotBlank(d.licensePlate) && MatchesPlatePattern(d.licensePlate)
    && NotBlank(d.ownerName) && MatchesOwnerPattern(d.ownerName)
  }

  /** Plate: @NotBlank and letters, digits, dashes. Lot id: @NotBlank, at most 50 characters. */
  predicate ValidCheckInDto(d: CheckInDto): (b: bool)
    ensures b <==> && |d.licensePlate| > 0 && (forall i :: 0 <= i < |d.licensePlate| ==> IsPlateChar(d.licensePlate[i]))
                   && NotBlank(d.lotId) && |d.lotId| <= 50
  {
    PlateRule(d.licensePlate);
    && NotBlank(d.licensePlate) && MatchesPlatePattern(d.licensePlate)
    && NotBlank(d.lotId) && SizeAtMost(d.lotId, 50)
  }

  /** Both fields @NotBlank, nothing more. */
  predicate ValidCheckOutDto(d: CheckOutDto): (b: bool)
    ensures b ==> |d.licensePlate| >= 1 && |d.lotId| >= 1
    ensures (forall i :: 0 <= i < |d.licensePlate| ==> IsBlankChar(d.licensePlate[i])) ==> !b
    ensures (forall i :: 0 <= i < |d.lotId| ==> IsBlankChar(d.lotId[i])) ==> !b
  {
    NotBlank(d.licensePlate) && NotBlank(d.lotId)
  }

  /** Lot id: @NotBlank, at most 50 characters. Location: @NotBlank. Capacity >= 1, occupied >= 0. */
  predicate ValidParkingLotDto(d: ParkingLotDto): (b: bool)
    ensures b ==> |d.location| >= 1 && |d.lotId| >= 1
    ensures (forall i :: 0 <= i < |d.location| ==> IsBlankChar(d.location[i])) ==> !b
    ensures (forall i :: 0 <= i < |d.lotId| ==> IsBlankChar(d.lotId[i])) ==> !b
    ensures |d.lotId| > 50 || d.capacity < 1 || d.occupiedSpaces < 0 ==> !b
  {
    && NotBlank(d.lotId) && SizeAtMost(d.lotId, 50)
    && NotBlank(d.location)
    && AtLeast(d.capacity, 1)
    && AtLeast(d.occupiedSpaces, 0)
  }

  /** The plate rule: non-empty and only ASCII letters, digits and '-'; the pattern
      already excludes whitespace, so @NotBlank adds nothing. */
  lemma PlateRule(s: string)
    ensures NotBlank(s) && MatchesPlatePattern(s) <==> |s| > 0 && forall i :: 0 <= i < |s| ==> IsPlateChar(s[i])
  {
    if |s| > 0 && forall i :: 0 <= i < |s| ==> IsPlateChar(s[i]) {
      assert !IsBlankChar(s[0]);
    }
  }

  /** The owner rule: only ASCII letters and spaces, with at least one letter. */
  lemma OwnerRule(s: string)
    ensures NotBlank(s) && MatchesOwnerPattern(s)
        <==> |s| > 0 && (forall i :: 0 <= i < |s| ==> IsOwnerChar(s[i]))
                     && (exists i :: 0 <= i < |s| && IsAsciiLetter(s[i]))
  {
    if MatchesOwnerPattern(s) {
      if NotBlank(s) {
        var i :| 0 <= i < |s| && !IsBlankChar(s[i]);
        assert IsAsciiLetter(s[i]);
      }
      if exists i :: 0 <= i < |s| && IsAsciiLetter(s[i]) {
        var i :| 0 <= i < |s| && IsAsciiLetter(s[i]);
        assert !IsBlankChar(s[i]);
      }
    }
  }

  /** A plate of dashes only is a valid registration; an all-space owner name is not,
      though it matches the owner pattern; a null type is accepted. */
  lemma VehicleDtoExamples()
    ensures ValidVehicleDto(VehicleDto("---", Some(CAR), "John Doe"))
    ensures ValidVehicleDto(VehicleDto("ABC-123", None, "John Doe"))
    ensures MatchesOwnerPattern("   ") && !ValidVehicleDto(VehicleDto("ABC-123", Some(CAR), "   "))
    ensures !ValidVehicleDto(VehicleDto("ABC 123", Some(CAR), "John Doe"))
  {
    assert !IsBlankChar("---"[0]);
    assert !IsBlankChar("John Doe"[0]);
    assert !IsBlankChar("ABC-123"[0]);
    assert !IsPlateChar("ABC 123"[3]);
  }

  /** The type never decides validity. */
  lemma VehicleTypeUnconstrained(d: VehicleDto, t: Option<VehicleType>)
    ensures ValidVehicleDto(d) == ValidVehicleDto(d.(vehicleType := t))
  {
  }

  /** A check-in lot id of 50 characters is accepted and one of 51 rejected; inner spaces are fine. */
  lemma CheckInLotIdLength()
    ensures ValidCheckInDto(CheckInDto("ABC-123", seq(50, _ => 'L')))
    ensures !ValidCheckInDto(CheckInDto("ABC-123", seq(51, _ => 'L')))
    ensures ValidCheckInDto(CheckInDto("ABC-123", "LOT 1"))
  {
    assert !IsBlankChar("ABC-123"[0]);
    assert !IsBlankChar(seq(50, _ => 'L')[0]);
    assert !IsBlankChar("LOT 1"[0]);
  }

  /** A blank or all-whitespace lot id is rejected at check-in. */
  lemma CheckInLotIdNotBlank(plate: string, lotId: string)
    requires forall i :: 0 <= i < |lotId| ==> IsBlankChar(lotId[i])
    ensures !ValidCheckInDto(CheckInDto(plate, lotId))
  {
  }

  /** Check-out is laxer than check-in: every valid check-in request passes check-out,
      and a non-blank plate outside the plate pattern, or a non-blank lot id longer than
      50 characters, passes check-out while check-in rejects it. */
  lemma CheckOutRule(d: CheckOutDto)
    ensures NotBlank(d.licensePlate) && NotBlank(d.lotId)
            && (!MatchesPlatePattern(d.licensePlate) || !SizeAtMost(d.lotId, 50))
            ==> ValidCheckOutDto(d) && !ValidCheckInDto(CheckInDto(d.licensePlate, d.lotId))
    ensures ValidCheckInDto(CheckInDto(d.licensePlate, d.lotId)) ==> ValidCheckOutDto(d)
  {
    if ValidCheckInDto(CheckInDto(d.licensePlate, d.lotId)) {
      PlateRule(d.licensePlate);
    }
  }

  lemma CheckOutExamples()
    ensures ValidCheckOutDto(CheckOutDto("AB 12", seq(51, _ => 'L')))
    ensures !ValidCheckInDto(CheckInDto("AB 12", "LOT1"))
  {
    assert !IsBlankChar("AB 12"[0]);
    assert !IsBlankChar(seq(51, _ => 'L')[0]);
    assert !IsPlateChar("AB 12"[2]);
  }

  /** Registration checks each field on its own: a lot with more occupied spaces than
      capacity passes, a capacity of 0 or a negative occupancy does not. */
  lemma ParkingLotDtoExamples()
    ensures ValidParkingLotDto(ParkingLotDto("LOT1", "Main Street", 1, 5))
    ensures !ValidParkingLotDto(ParkingLotDto("LOT2", "Main Street", 0, 0))
    ensures !ValidParkingLotDto(ParkingLotDto("LOT3", "Main Street", 10, -1))
  {
    assert !IsBlankChar("LOT1"[0]);
    assert !IsBlankChar("Main Street"[0]);
  }

  /** There is no cross-field rule: a valid registration stays valid with any
      non-negative occupancy, however it compares with the capacity. */
  lemma OccupancyIndependentOfCapacity(d: ParkingLotDto, occupied: int32)
    requires ValidParkingLotDto(d) && occupied >= 0
    ensures ValidParkingLotDto(d.(occupiedSpaces := occupied))
  {
  }

  /** A registration meeting every field rule on its own is accepted: the five rules are
      the whole check. */
  lemma ParkingLotDtoAccepted(d: ParkingLotDto)
    requires NotBlank(d.lotId) && |d.lotId| <= 50 && NotBlank(d.location)
    requires d.capacity >= 1 && d.occupiedSpaces >= 0
    ensures ValidParkingLotDto(d)
  {
  }

  /** What a valid registration guarantees about the numbers the ledger relies on. */
  lemma ValidParkingLotBounds(d: ParkingLotDto)
    requires ValidParkingLotDto(d)
    ensures 1 <= d.capacity && 0 <= d.occupiedSpaces && 1 <= |d.lotId| <= 50
  {
  }
}
