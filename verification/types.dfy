/** The records of the directory: a vehicle embeds exactly one owner, and an
    owner embeds exactly one address (value objects, never shared). */
module Types {

  datatype VehicleType =
    | Sedan | SUV | Hatchback | Convertible | Pickup
    | Van | Coupe | Wagon | Motorcycle | OtherType

  datatype VehicleStatus = Active | Expired | Suspended | Pending

  datatype Address = Address(street: string, city: string, state: string, zipCode: string, country: string)

  datatype Owner = Owner(
    id: string,
    firstName: string,
    lastName: string,
    email: string,
    phone: string,
    address: Address,
    licenseNumber: string)

  datatype Vehicle = Vehicle(
    id: string,
    registrationNumber: string,
    make: string,
    model: string,
    year: int,
    color: string,
    vin: string,
    vtype: VehicleType,
    status: VehicleStatus,
    registrationDate: string,
    owner: Owner)

  /** The string value of each `VehicleType` member. */
  function TypeName(t: VehicleType): (name: string) {
    match t
    case Sedan => "Sedan"
    case SUV => "SUV"
    case Hatchback => "Hatchback"
    case Convertible => "Convertible"
    case Pickup => "Pickup"
    case Van => "Van"
    case Coupe => "Coupe"
    case Wagon => "Wagon"
    case Motorcycle => "Motorcycle"
    case OtherType => "Other"
  }

  /** The string value of each `VehicleStatus` member. */
  function StatusName(s: VehicleStatus): (name: string) {
    match s
    case Active => "Active"
    case Expired => "Expired"
    case Suspended => "Suspended"
    case Pending => "Pending"
  }

  /** `Object.values(VehicleType)`: every member once, in declaration order,
      with pairwise distinct string values. */
  function AllTypes(): (r: seq<VehicleType>)
    ensures |r| == 10
    ensures forall i, j :: 0 <= i < j < |r| ==> TypeName(r[i]) != TypeName(r[j])
  {
    [Sedan, SUV, Hatchback, Convertible, Pickup, Van, Coupe, Wagon, Motorcycle, OtherType]
  }

  /** `Object.values(VehicleStatus)`: every member once, in declaration order,
      with pairwise distinct string values. */
  function AllStatuses(): (r: seq<VehicleStatus>)
    ensures |r| == 4
    ensures forall i, j :: 0 <= i < j < |r| ==> StatusName(r[i]) != StatusName(r[j])
  {
    [Active, Expired, Suspended, Pending]
  }

  /** No member of `VehicleType` is missing from `AllTypes`. */
  lemma AllTypesComplete(t: VehicleType)
    ensures t in AllTypes()
  {
    var r := AllTypes();
    match t
    case Sedan => assert r[0] == t;
    case SUV => assert r[1] == t;
    case Hatchback => assert r[2] == t;
    case Convertible => assert r[3] == t;
    case Pickup => assert r[4] == t;
    case Van => assert r[5] == t;
    case Coupe => assert r[6] == t;
    case Wagon => assert r[7] == t;
    case Motorcycle => assert r[8] == t;
    case OtherType => assert r[9] == t;
  }

  /** No member of `VehicleStatus` is missing from `AllStatuses`. */
  lemma AllStatusesComplete(s: VehicleStatus)
    ensures s in AllStatuses()
  {
    var r := AllStatuses();
    match s
    case Active => assert r[0] == s;
    case Expired => assert r[1] == s;
    case Suspended => assert r[2] == s;
    case Pending => assert r[3] == s;
  }
}
