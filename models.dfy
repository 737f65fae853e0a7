/**
 * The domain records: the unit enum, coordinates, the manufacturer
 * organization, the product kept in the collection and the registered user,
 * with their validators, the price ordering and the equality rules.
 */
module Models {
  import opened Util

  /** A LocalDate or LocalDateTime, kept as its rendered date and time of day. */
  datatype Time = Time(date: string, clock: string)

  // ---------------------------------------------------------------------
  // UnitOfMeasure

  datatype UnitOfMeasure = Meters | Centimeters | SquareMeters | Grams

  /** Enum.name() of each constant. */
  function UnitName(u: UnitOfMeasure): string
  {
    match u
    case Meters => "METERS"
    case Centimeters => "CENTIMETERS"
    case SquareMeters => "SQUARE_METERS"
    case Grams => "GRAMS"
  }

  /** values(): the constants in declaration order. */
  function Units(): (us: seq<UnitOfMeasure>)
    ensures |us| == 4
    ensures forall i, j :: 0 <= i < j < |us| ==> us[i] != us[j]
  {
    [Meters, Centimeters, SquareMeters, Grams]
  }

  function UnitNameList(us: seq<UnitOfMeasure>): (names: seq<string>)
    ensures |names| == |us| && forall i :: 0 <= i < |us| ==> names[i] == UnitName(us[i])
  {
    if us == [] then [] else [UnitName(us[0])] + UnitNameList(us[1..])
  }

  /** UnitOfMeasure.names(): the constant names joined with ", ". */
  function UnitNames(): string
  {
    Join(", ", UnitNameList(Units()))
  }

  /** How many entries of a list equal a given text. */
  function Occurrences(names: seq<string>, n: string): nat
  {
    if names == [] then 0 else (if names[0] == n then 1 else 0) + Occurrences(names[1..], n)
  }

  lemma {:induction false} OccurrencesOfDistinct(names: seq<string>, i: nat)
    requires i < |names|
    requires forall a, b :: 0 <= a < b < |names| ==> names[a] != names[b]
    ensures Occurrences(names, names[i]) == 1
  {
    if i == 0 {
      OccurrencesAbsent(names[1..], names[0]);
    } else {
      OccurrencesOfDistinct(names[1..], i - 1);
    }
  }

  lemma {:induction false} OccurrencesAbsent(names: seq<string>, n: string)
    requires n !in names
    ensures Occurrences(names, n) == 0
  {
    if names != [] {
      OccurrencesAbsent(names[1..], n);
    }
  }

  /** Every constant is among values(). */
  lemma UnitsComplete(u: UnitOfMeasure)
    ensures u in Units()
  {
    match u
    case Meters => assert Units()[0] == u;
    case Centimeters => assert Units()[1] == u;
    case SquareMeters => assert Units()[2] == u;
    case Grams => assert Units()[3] == u;
  }

  /**
   * names() lists every constant name exactly once, in declaration order,
   * and starts with the first name and ends with the last one (no separator
   * at either end).
   */
  lemma UnitNamesShape()
    ensures UnitNameList(Units()) == ["METERS", "CENTIMETERS", "SQUARE_METERS", "GRAMS"]
    ensures forall u: UnitOfMeasure :: Occurrences(UnitNameList(Units()), UnitName(u)) == 1
    ensures UnitNames()[..|"METERS"|] == "METERS"
    ensures UnitNames()[|UnitNames()| - |"GRAMS"|..] == "GRAMS"
  {
    var names := UnitNameList(Units());
    assert names == ["METERS", "CENTIMETERS", "SQUARE_METERS", "GRAMS"];
    forall u: UnitOfMeasure
      ensures Occurrences(names, UnitName(u)) == 1
    {
      UnitsComplete(u);
      var i :| 0 <= i < 4 && Units()[i] == u;
      OccurrencesOfDistinct(names, i);
    }
    JoinEnds(", ", names);
  }

  // ---------------------------------------------------------------------
  // Coordinates

  /** x is a Long, y a Float; both are declared non-null. */
  datatype Coordinates = Coordinates(x: int, y: real)

  function ValidCoordinates(c: Coordinates): bool
  {
    c.y > -519.0
  }

  // ---------------------------------------------------------------------
  // Organization

  datatype Organization = Organization(name: Option<string>, year: Option<Int32>)

  /** Organization.validate(). */
  function ValidOrganization(o: Organization): (ok: bool)
    ensures ok ==> o.name.Some? && o.name.value != []
    ensures ok ==> o.year.Some? && o.year.value > 0
    ensures o.name.Some? && o.name.value != [] && o.year.Some? && o.year.value > 0 ==> ok
  {
    o.name.Some? && |o.name.value| != 0 && o.year.Some? && o.year.value > 0
  }

  /** Organization.equals(): Objects.equals on name and on year. */
  predicate OrganizationEquals(a: Organization, b: Organization)
  {
    a.name == b.name && a.year == b.year
  }

  /** String.hashCode: s[0]*31^(n-1) + ... + s[n-1], in int arithmetic. */
  function StringHash(s: string): Int32
  {
    if s == [] then 0 else Wrap32(31 * StringHash(s[..|s| - 1]) + s[|s| - 1] as int)
  }

  /** Organization.hashCode(): Objects.hash(name, year); null hashes to 0, an Integer to its value. */
  function OrganizationHash(o: Organization): Int32
  {
    var nameHash := if o.name.Some? then StringHash(o.name.value) else 0;
    var yearHash := if o.year.Some? then o.year.value as int else 0;
    Wrap32(31 * Wrap32(31 * 1 + nameHash) + yearHash)
  }

  /** equals is exactly field-wise equality, is reflexive, and agrees with hashCode. */
  lemma OrganizationEqualsContract(a: Organization, b: Organization)
    ensures OrganizationEquals(a, b) <==> a == b
    ensures OrganizationEquals(a, a)
    ensures OrganizationEquals(a, b) ==> OrganizationHash(a) == OrganizationHash(b)
  {
  }

  // ---------------------------------------------------------------------
  // Product

  /**
   * A product record. id and username come from the Element base class;
   * creationDate is a LocalDate kept as its epoch day.
   */
  datatype Product = Product(
    id: Option<int>,
    username: Option<string>,
    name: Option<string>,
    coordinates: Option<Coordinates>,
    creationDate: Option<int>,
    price: Option<Int32>,
    unitOfMeasure: Option<UnitOfMeasure>,
    organization: Option<Organization>)

  /** The 6-argument constructor: creationDate takes today's date, owner stays null. */
  function NewProduct(id: int, name: Option<string>, coordinates: Option<Coordinates>, price: Int32,
                      unitOfMeasure: Option<UnitOfMeasure>, organization: Option<Organization>, today: int): (p: Product)
    ensures p.id == Some(id) && p.username.None?
    ensures p.name == name && p.coordinates == coordinates && p.price == Some(price)
    ensures p.unitOfMeasure == unitOfMeasure && p.organization == organization
    ensures p.creationDate == Some(today)
  {
    Product(Some(id), None, name, coordinates, Some(today), Some(price), unitOfMeasure, organization)
  }

  /** Product.validate(): the checks in source order, each one able to reject. */
  function ValidProduct(p: Product): (ok: bool)
    ensures p.name.None? || p.name == Some([]) ==> !ok
    ensures p.coordinates.None? || !ValidCoordinates(p.coordinates.value) ==> !ok
    ensures p.price.Some? && p.price.value <= 0 ==> !ok
    ensures p.creationDate.None? || p.unitOfMeasure.None? || p.organization.None? ==> !ok
    ensures !ok ==> p.name.None? || p.name == Some([]) || p.coordinates.None? || !ValidCoordinates(p.coordinates.value)
                    || p.creationDate.None? || (p.price.Some? && p.price.value <= 0)
                    || p.unitOfMeasure.None? || p.organization.None?
  {
    if p.name.None? || |p.name.value| == 0 then false
    else if p.coordinates.None? || !ValidCoordinates(p.coordinates.value) then false
    else if p.creationDate.None? then false
    else if p.price.Some? && p.price.value <= 0 then false
    else if p.unitOfMeasure.None? then false
    else if p.organization.None? then false
    else true
  }

  /** The record with its Element part (id and owner) blanked out. */
  function Fields(p: Product): Product
  {
    p.(id := None, username := None)
  }

  /** Product.equals(): Lombok equality over the six declared fields, excluding the inherited id and owner. */
  predicate SameFields(a: Product, b: Product)
  {
    a.name == b.name && a.coordinates == b.coordinates && a.creationDate == b.creationDate
    && a.price == b.price && a.unitOfMeasure == b.unitOfMeasure && a.organization == b.organization
  }

  /** Equality is an equivalence that ignores id and owner and sees every other field. */
  lemma SameFieldsContract(a: Product, b: Product, c: Product, id: Option<int>, owner: Option<string>)
    ensures SameFields(a, b) <==> Fields(a) == Fields(b)
    ensures SameFields(a, a.(id := id, username := owner))
    ensures SameFields(a, b) ==> SameFields(b, a)
    ensures SameFields(a, b) && SameFields(b, c) ==> SameFields(a, c)
  {
  }

  /**
   * Product.compareTo(): Integer.compare on price. Unboxing a null price
   * throws NullPointerException, which is None here.
   */
  function CompareTo(a: Product, b: Product): (r: Option<int>)
    ensures r.None? <==> a.price.None? || b.price.None?
    ensures r.Some? ==> (r.value < 0 <==> a.price.value < b.price.value)
    ensures r.Some? ==> (r.value == 0 <==> a.price.value == b.price.value)
    ensures r.Some? ==> (r.value > 0 <==> a.price.value > b.price.value)
  {
    if a.price.None? || b.price.None? then None
    else if a.price.value < b.price.value then Some(-1)
    else if a.price.value == b.price.value then Some(0)
    else Some(1)
  }

  /** compareTo is antisymmetric in sign and transitive. */
  lemma CompareToOrder(a: Product, b: Product, c: Product)
    ensures CompareTo(a, b).Some? ==> CompareTo(b, a) == Some(-CompareTo(a, b).value)
    ensures CompareTo(a, b).Some? && CompareTo(b, c).Some? && CompareTo(a, b).value < 0 && CompareTo(b, c).value < 0
            ==> CompareTo(a, c).value < 0
    ensures CompareTo(a, b).Some? && CompareTo(b, c).Some? && CompareTo(a, b).value <= 0 && CompareTo(b, c).value <= 0
            ==> CompareTo(a, c).value <= 0
  {
  }

  // ---------------------------------------------------------------------
  // User

  datatype User = User(
    id: Option<Int32>,
    username: Option<string>,
    passwordHash: Option<string>,
    salt: Option<string>,
    registrationDate: Option<Time>)

  /** The 4-argument constructor: the id stays null until setId. */
  function NewUser(username: Option<string>, passwordHash: Option<string>, salt: Option<string>,
                   registrationDate: Option<Time>): (u: User)
    ensures u.id.None?
    ensures u.username == username && u.passwordHash == passwordHash
    ensures u.salt == salt && u.registrationDate == registrationDate
  {
    User(None, username, passwordHash, salt, registrationDate)
  }

  /** The 5-argument constructor also sets the id. */
  function NewUserWithId(id: Option<Int32>, username: Option<string>, passwordHash: Option<string>,
                         salt: Option<string>, registrationDate: Option<Time>): (u: User)
    ensures u.id == id
    ensures u.(id := None) == NewUser(username, passwordHash, salt, registrationDate)
  {
    NewUser(username, passwordHash, salt, registrationDate).(id := id)
  }

  /** User.validate(): hash and salt of at least 8 characters, and a registration date. */
  function ValidUser(u: User): (ok: bool)
    ensures u.passwordHash.None? || |u.passwordHash.value| < 8 ==> !ok
    ensures u.salt.None? || |u.salt.value| < 8 ==> !ok
    ensures u.passwordHash.Some? && |u.passwordHash.value| >= 8 && u.salt.Some? && |u.salt.value| >= 8
            ==> (ok <==> u.registrationDate.Some?)
  {
    if u.passwordHash.None? || |u.passwordHash.value| < 8 then false
    else if u.salt.None? || |u.salt.value| < 8 then false
    else u.registrationDate.Some?
  }
}
