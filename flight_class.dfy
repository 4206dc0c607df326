/** The fare class of a booking (models/enums/flight_class.go). */
module FlightClassEnum {

  /** Go declares `type FlightClass int`, so any int can be carried in a booking;
      only the two constants below are meaningful. */
  type FlightClass = int

  const Economy: FlightClass := 0
  const Business: FlightClass := 1

  predicate IsFlightClass(c: FlightClass) {
    c == Economy || c == Business
  }

  /** Decodes a stored class; every value other than Business falls back to Economy. */
  function FlightClassFromInt(value: int): (c: FlightClass)
    ensures IsFlightClass(c)
    ensures IsFlightClass(value) ==> c == value
    ensures !IsFlightClass(value) ==> c == Economy
  {
    match value
    case 0 => Economy
    case 1 => Business
    case _ => Economy
  }

}
