/** The vehicle type enum and its case-insensitive JSON parser. */
module VehicleTypes {
  import opened Common

  datatype VehicleType = CAR | MOTORCYCLE | TRUCK

  /** The constant's `name()`. */
  function Name(t: VehicleType): string {
    match t
    case CAR => "CAR"
    case MOTORCYCLE => "MOTORCYCLE"
    case TRUCK => "TRUCK"
  }

  /** Upper-casing of one character, restricted to ASCII letters. */
  function UpperChar(c: char): (u: char)
    ensures 'a' <= c <= 'z' ==> 'A' <= u <= 'Z' && u as int == c as int - 32
    ensures !('a' <= c <= 'z') ==> u == c
  {
    if 'a' <= c <= 'z' then (c as int - 32) as char else c
  }

  /** `String.toUpperCase()`, restricted to ASCII letters. */
  function ToUpper(s: string): (u: string)
    ensures |u| == |s|
    ensures forall i :: 0 <= i < |s| ==> u[i] == UpperChar(s[i])
  {
    if s == [] then [] else [UpperChar(s[0])] + ToUpper(s[1..])
  }

  /** `VehicleType.valueOf(name)`: an exact, case-sensitive match on a constant's name. */
  function ValueOf(name: string): (r: Result<VehicleType>)
    ensures r.Success? ==> Name(r.value) == name
    ensures r.Failure? ==> forall t :: Name(t) != name
    ensures r.Failure? ==> r.error == IllegalArgument("No enum constant com.fayemanalo.smartpark.model.VehicleType." + name)
  {
    if name == "CAR" then Success(CAR)
    else if name == "MOTORCYCLE" then Success(MOTORCYCLE)
    else if name == "TRUCK" then Success(TRUCK)
    else Failure(IllegalArgument("No enum constant com.fayemanalo.smartpark.model.VehicleType." + name))
  }

  /** `VehicleType.from`: null stays null; otherwise upper-case and look the name up. */
  function From(value: Option<string>): (r: Result<Option<VehicleType>>)
    ensures value.None? ==> r == Success(None)
    ensures value.Some? && r.Success? ==> r.value.Some? && Name(r.value.value) == ToUpper(value.value)
    ensures value.Some? && r.Failure? ==> forall t :: Name(t) != ToUpper(value.value)
  {
    match value
    case None => Success(None)
    case Some(s) =>
      match ValueOf(ToUpper(s))
      case Success(t) => Success(Some(t))
      case Failure(e) => Failure(e)
  }

  /** A string parses to `t` exactly when its upper-cased form is `t`'s name, and
      parses to nothing (the call throws) when that form names no constant. */
  lemma FromCharacterisation(s: string, t: VehicleType)
    ensures From(Some(s)) == Success(Some(t)) <==> ToUpper(s) == Name(t)
    ensures From(Some(s)).Failure? <==> forall t' :: Name(t') != ToUpper(s)
  {
  }

  lemma FromNull()
    ensures From(None) == Success(None)
  {
  }

  /** Upper-casing twice changes nothing more. */
  lemma {:induction false} ToUpperIdempotent(s: string)
    ensures ToUpper(ToUpper(s)) == ToUpper(s)
  {
    var u := ToUpper(s);
    var uu := ToUpper(u);
    assert |uu| == |u|;
    forall i | 0 <= i < |u| ensures uu[i] == u[i] {
      assert uu[i] == UpperChar(u[i]);
    }
  }

  /** Case is ignored: a string and its upper-cased form parse alike. */
  lemma FromIgnoresCase(s: string)
    ensures From(Some(s)) == From(Some(ToUpper(s)))
  {
    ToUpperIdempotent(s);
  }

  /** Every constant's own name parses back to it. */
  lemma FromName(t: VehicleType)
    ensures From(Some(Name(t))) == Success(Some(t))
  {
    var n := Name(t);
    assert ToUpper(n) == n by {
      assert forall i :: 0 <= i < |n| ==> !('a' <= n[i] <= 'z');
    }
  }

  /** "car", "Car" and "CAR" all give CAR; "truck" gives TRUCK; "bus" is rejected. */
  lemma FromExamples()
    ensures From(Some("car")) == Success(Some(CAR))
    ensures From(Some("Car")) == Success(Some(CAR))
    ensures From(Some("CAR")) == Success(Some(CAR))
    ensures From(Some("truck")) == Success(Some(TRUCK))
    ensures From(Some("bus")).Failure?
  {
    assert ToUpper("car") == "CAR";
    assert ToUpper("Car") == "CAR";
    assert ToUpper("CAR") == "CAR";
    assert ToUpper("truck") == "TRUCK";
    assert ToUpper("bus") == "BUS";
  }
}
