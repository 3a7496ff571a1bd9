/**
 * The host framework's entity state object as the HomeKit component sees it:
 * an entity id, its domain, a display name and an attribute dictionary whose
 * values are dynamically typed Python values.
 */
module Values {
  import opened Wrappers

  /** The dynamically typed attribute values the component inspects. */
  datatype Value =
    | Null               // Python None
    | Bool(b: bool)
    | Int(i: int)
    | Text(s: string)

  /**
   * The domain part of an entity id, for the domains the component knows;
   * every other domain is `OtherDomain`.
   */
  datatype Domain =
    | AlarmControlPanelDomain
    | BinarySensorDomain
    | ClimateDomain
    | CoverDomain
    | DeviceTrackerDomain
    | InputBooleanDomain
    | LightDomain
    | LockDomain
    | RemoteDomain
    | ScriptDomain
    | SensorDomain
    | SwitchDomain
    | OtherDomain

  datatype EntityState = EntityState(
    entityId: string,
    domain: Domain,
    name: string,
    attributes: map<string, Value>)

  // Attribute keys and units of the framework that the component reads.
  const CurrentPosition := "current_position"
  const AssumedState := "assumed_state"
  const SupportedFeatures := "supported_features"
  const DeviceClass := "device_class"
  const UnitOfMeasurement := "unit_of_measurement"
  const Celsius := "\U{B0}C"
  const Fahrenheit := "\U{B0}F"

  /** `attributes.get(key)`: a missing key reads as None. */
  function Attr(st: EntityState, key: string): (v: Value)
    ensures key in st.attributes ==> v == st.attributes[key]
    ensures key !in st.attributes ==> v == Null
  {
    if key in st.attributes then st.attributes[key] else Null
  }

  /**
   * The integer a value stands for when Python's `isinstance(v, int)` holds.
   * `bool` is a subclass of `int` in Python, so True and False count as 1 and 0.
   */
  function AsInt(v: Value): (r: Option<int>)
    ensures r.Some? <==> v.Int? || v.Bool?
    ensures v.Int? ==> r == Some(v.i)
    ensures v.Bool? ==> r == Some(if v.b then 1 else 0)
  {
    match v
    case Int(i) => Some(i)
    case Bool(b) => Some(if b then 1 else 0)
    case _ => None
  }

  /** Python's `abs` on integers. */
  function Abs(x: int): (r: nat)
    ensures r == x || r == -x
  {
    if x < 0 then -x else x
  }

  /** Python truthiness: None, False, 0 and the empty string are false. */
  predicate Truthy(v: Value)
    ensures !Truthy(v) <==> v in {Null, Bool(false), Int(0), Text("")}
  {
    match v
    case Null => false
    case Bool(b) => b
    case Int(i) => i != 0
    case Text(s) => s != ""
  }
}
