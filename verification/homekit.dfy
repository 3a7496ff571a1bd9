/**
 * The HomeKit component of homekit/__init__.py: choosing an accessory type
 * for an entity, deriving its accessory id, and the bridge's lifecycle
 * (start, stop, adding accessories). The protocol driver is reduced to the
 * actions the component asks of it, and the bridge to the list of
 * accessories it holds.
 */
module HomeKit {
  import opened Wrappers
  import opened Values
  import Bits
  import Adler32

  datatype AccessoryType =
    | SecuritySystem
    | BinarySensor
    | Thermostat
    | GarageDoorOpener
    | WindowCovering
    | Light
    | Lock
    | TemperatureSensor
    | HumiditySensor
    | Switch

  /** Per-entity configuration overrides, passed through to the accessory. */
  type Config = map<string, Value>

  /** An accessory as constructed by `TYPES[a_type](hass, name, entity_id, aid, config=config)`. */
  datatype Accessory = Accessory(
    aType: AccessoryType,
    name: string,
    entityId: string,
    aid: int,
    config: Config)

  /** The domains each accessory type is chosen for. */
  function DomainsOf(t: AccessoryType): set<Domain>
  {
    match t
    case SecuritySystem => {AlarmControlPanelDomain}
    case BinarySensor => {BinarySensorDomain, DeviceTrackerDomain}
    case Thermostat => {ClimateDomain}
    case GarageDoorOpener => {CoverDomain}
    case WindowCovering => {CoverDomain}
    case Light => {LightDomain}
    case Lock => {LockDomain}
    case TemperatureSensor => {SensorDomain}
    case HumiditySensor => {SensorDomain}
    case Switch => {SwitchDomain, RemoteDomain, InputBooleanDomain, ScriptDomain}
  }

  /** Domains whose entities become an accessory whatever their attributes. */
  const UnconditionalDomains: set<Domain> :=
    {AlarmControlPanelDomain, BinarySensorDomain, DeviceTrackerDomain, ClimateDomain,
     LightDomain, LockDomain, SwitchDomain, RemoteDomain, InputBooleanDomain, ScriptDomain}

  predicate IsGarageDoor(st: EntityState)
  {
    Attr(st, DeviceClass) == Text("garage")
  }

  /** A garage door is a cover whose `device_class` attribute is present and exactly the text "garage". */
  lemma GarageDoorClass(st: EntityState)
    ensures IsGarageDoor(st) <==>
      DeviceClass in st.attributes && st.attributes[DeviceClass] == Text("garage")
  {
  }

  /**
   * `features & SUPPORT_SET_POSITION` needs an int (or bool) feature value; it
   * is evaluated for covers that are not garage doors.
   */
  predicate FeaturesReadable(st: EntityState)
  {
    st.domain == CoverDomain && !IsGarageDoor(st) ==>
      SupportedFeatures !in st.attributes || AsInt(st.attributes[SupportedFeatures]).Some?
  }

  /** `attributes.get(ATTR_SUPPORTED_FEATURES, 0)`. */
  function Features(st: EntityState): (f: int)
    requires FeaturesReadable(st) && st.domain == CoverDomain && !IsGarageDoor(st)
    ensures SupportedFeatures !in st.attributes ==> f == 0
    ensures SupportedFeatures in st.attributes ==> Some(f) == AsInt(st.attributes[SupportedFeatures])
  {
    if SupportedFeatures in st.attributes then AsInt(st.attributes[SupportedFeatures]).value else 0
  }

  /**
   * The accessory type for a state, by domain. `SUPPORT_SET_POSITION` is the
   * feature flag 2^setPositionBit.
   */
  function TypeFor(st: EntityState, setPositionBit: nat): (r: Option<AccessoryType>)
    requires FeaturesReadable(st)
    ensures r.Some? ==> st.domain in DomainsOf(r.value)
  {
    if st.domain == AlarmControlPanelDomain then Some(SecuritySystem)
    else if st.domain == BinarySensorDomain || st.domain == DeviceTrackerDomain then Some(BinarySensor)
    else if st.domain == ClimateDomain then Some(Thermostat)
    else if st.domain == CoverDomain then
      if IsGarageDoor(st) then Some(GarageDoorOpener)
      else if Bits.BitAnd(Features(st), Bits.Pow2(setPositionBit)) != 0 then Some(WindowCovering)
      else None
    else if st.domain == LightDomain then Some(Light)
    else if st.domain == LockDomain then Some(Lock)
    else if st.domain == SensorDomain then
      var unit := Attr(st, UnitOfMeasurement);
      if unit == Text(Celsius) || unit == Text(Fahrenheit) then Some(TemperatureSensor)
      else if unit == Text("%") then Some(HumiditySensor)
      else None
    else if st.domain == SwitchDomain || st.domain == RemoteDomain
         || st.domain == InputBooleanDomain || st.domain == ScriptDomain then Some(Switch)
    else None
  }

  /** `get_accessory`: no accessory for a missing or zero aid, else one of the state's type. */
  function GetAccessory(st: EntityState, aid: Option<int>, setPositionBit: nat, config: Config): (r: Option<Accessory>)
    requires aid.Some? && aid.value != 0 ==> FeaturesReadable(st)
    ensures aid.None? || aid.value == 0 ==> r.None?
    ensures r.Some? ==>
      && st.domain in DomainsOf(r.value.aType)
      && r.value.aid == aid.value
      && r.value.entityId == st.entityId
      && r.value.name == st.name
      && r.value.config == config
    ensures aid.Some? && aid.value != 0 && st.domain in UnconditionalDomains ==> r.Some?
  {
    if aid.None? || aid.value == 0 then None
    else
      match TypeFor(st, setPositionBit)
      case None => None
      case Some(t) => Some(Accessory(t, st.name, st.entityId, aid.value, config))
  }

  /**
   * Covers: a garage door wins over set-position support; otherwise the
   * cover is a window covering exactly when the set-position bit is set in
   * its features.
   */
  lemma CoverSelection(st: EntityState, aid: int, setPositionBit: nat, config: Config)
    requires FeaturesReadable(st) && st.domain == CoverDomain && aid != 0
    ensures IsGarageDoor(st) ==>
      GetAccessory(st, Some(aid), setPositionBit, config).Some? &&
      GetAccessory(st, Some(aid), setPositionBit, config).value.aType == GarageDoorOpener
    ensures !IsGarageDoor(st) ==>
      var r := GetAccessory(st, Some(aid), setPositionBit, config);
      && (r.Some? <==> Bits.TestBit(Features(st), setPositionBit))
      && (r.Some? ==> r.value.aType == WindowCovering)
  {
    if !IsGarageDoor(st) {
      Bits.SingleBitMask(Features(st), setPositionBit);
    }
  }

  /** A cover that is not a garage door and reports no features is not exposed. */
  lemma CoverWithoutFeatures(st: EntityState, aid: int, setPositionBit: nat, config: Config)
    requires st.domain == CoverDomain && !IsGarageDoor(st) && SupportedFeatures !in st.attributes
    ensures GetAccessory(st, Some(aid), setPositionBit, config).None?
  {
    Bits.SingleBitMask(0, setPositionBit);
    Bits.ZeroHasNoBits(setPositionBit);
  }

  /** Sensors: by unit of measurement, and no accessory for any other unit. */
  lemma SensorSelection(st: EntityState, aid: int, setPositionBit: nat, config: Config)
    requires st.domain == SensorDomain && aid != 0
    ensures var r := GetAccessory(st, Some(aid), setPositionBit, config);
      && (Attr(st, UnitOfMeasurement) in {Text(Celsius), Text(Fahrenheit)} <==>
            r.Some? && r.value.aType == TemperatureSensor)
      && (Attr(st, UnitOfMeasurement) == Text("%") <==> r.Some? && r.value.aType == HumiditySensor)
      && (r.None? <==> Attr(st, UnitOfMeasurement) !in {Text(Celsius), Text(Fahrenheit), Text("%")})
  {
  }

  /** The domains with a fixed type, and no accessory for a domain outside the table. */
  lemma DomainSelection(st: EntityState, aid: int, setPositionBit: nat, config: Config)
    requires FeaturesReadable(st) && aid != 0
    ensures var r := GetAccessory(st, Some(aid), setPositionBit, config);
      && (st.domain in {SwitchDomain, RemoteDomain, InputBooleanDomain, ScriptDomain} ==>
            r.Some? && r.value.aType == Switch)
      && (st.domain in {BinarySensorDomain, DeviceTrackerDomain} ==> r.Some? && r.value.aType == BinarySensor)
      && (st.domain == AlarmControlPanelDomain ==> r.Some? && r.value.aType == SecuritySystem)
      && (st.domain == ClimateDomain ==> r.Some? && r.value.aType == Thermostat)
      && (st.domain == LightDomain ==> r.Some? && r.value.aType == Light)
      && (st.domain == LockDomain ==> r.Some? && r.value.aType == Lock)
      && (st.domain == OtherDomain ==> r.None?)
  {
  }

  /**
   * `generate_aid`: the Adler-32 checksum of the UTF-8 encoded entity id,
   * except that 0 and 1 (reserved by the protocol) give no aid.
   */
  function GenerateAid(entityId: string): (aid: Option<int>)
    ensures aid.None? <==> Adler32.Checksum(Adler32.Utf8(entityId)) <= 1
    ensures aid.Some? ==> aid.value == Adler32.Checksum(Adler32.Utf8(entityId))
    ensures aid.Some? ==> 2 <= aid.value < 0x1_0000_0000
  {
    var sum := Adler32.Checksum(Adler32.Utf8(entityId));
    if sum == 0 || sum == 1 then None else Some(sum)
  }

  /** The empty entity id checksums to the reserved value 1 and gets no aid. */
  lemma EmptyIdHasNoAid()
    ensures GenerateAid("").None?
  {
    assert Adler32.Utf8("") == [];
  }

  /**
   * Every non-empty entity id of at most 22 UTF-8 bytes gets an aid: its sum B
   * lies between 1 and 65520, so the checksum is at least 2^16.
   */
  lemma ShortIdHasAid(entityId: string)
    requires 1 <= |Adler32.Utf8(entityId)| <= 22
    ensures GenerateAid(entityId).Some?
    ensures GenerateAid(entityId).value >= 0x1_0000
  {
    var data := Adler32.Utf8(entityId);
    Adler32.ShortInputSums(data);
    Adler32.RunningIsReduced(data);
    assert Adler32.Running(data).b == Adler32.TotalB(data);
    assert Adler32.Checksum(data) >= 0x1_0000;
  }

  // ---------------------------------------------------------------------------
  // The HomeKit object
  // ---------------------------------------------------------------------------

  /** What the component asks of the protocol driver and the bridge. */
  datatype DriverAction = SetBroker | ShowSetupMessage | StartDriver | StopDriver

  /**
   * `started`, the per-entity configuration not yet consumed, and the
   * accessories added to the bridge, in order.
   */
  datatype HomeKitState = HomeKitState(
    started: bool,
    config: map<string, Config>,
    bridge: seq<Accessory>)

  function NewHomeKit(config: map<string, Config>): (hk: HomeKitState)
    ensures !hk.started && hk.bridge == [] && hk.config == config
  {
    HomeKitState(false, config, [])
  }

  /** The configuration an entity's accessory receives: its entry, or `{}`. */
  function ConfigOf(config: map<string, Config>, entityId: string): (c: Config)
    ensures entityId in config ==> c == config[entityId]
    ensures entityId !in config ==> c == map[]
  {
    if entityId in config then config[entityId] else map[]
  }

  /**
   * Offering `st` reaches the `&` on its features only when the filter
   * accepts it and it gets an aid; only then must the features be readable.
   */
  predicate Offerable(st: EntityState, filter: string -> bool)
  {
    filter(st.entityId) && GenerateAid(st.entityId).Some? ==> FeaturesReadable(st)
  }

  /**
   * `add_bridge_accessory`: an entity the filter accepts has its configuration
   * consumed and, when it gets an aid and a type, an accessory on the bridge.
   */
  function AddBridgeAccessory(hk: HomeKitState, st: Option<EntityState>, filter: string -> bool, setPositionBit: nat): (r: HomeKitState)
    requires st.Some? ==> Offerable(st.value, filter)
    ensures r.started == hk.started
    ensures st.None? || !filter(st.value.entityId) ==> r == hk
    ensures st.Some? && filter(st.value.entityId) ==>
      var id := st.value.entityId;
      && r.config == hk.config - {id}
      && hk.bridge <= r.bridge && |r.bridge| <= |hk.bridge| + 1
      && (|r.bridge| == |hk.bridge| + 1 ==>
            var acc := r.bridge[|hk.bridge|];
            && acc.entityId == id
            && acc.aid >= 2
            && acc.config == ConfigOf(hk.config, id))
  {
    if st.None? || !filter(st.value.entityId) then hk
    else
      var id := st.value.entityId;
      var aid := GenerateAid(id);
      var conf := ConfigOf(hk.config, id);
      var config := hk.config - {id};
      match GetAccessory(st.value, aid, setPositionBit, conf)
      case None => hk.(config := config)
      case Some(acc) => hk.(config := config, bridge := hk.bridge + [acc])
  }

  /** Every state may be offered to the bridge. */
  predicate AllOfferable(states: seq<EntityState>, filter: string -> bool)
    decreases |states|
  {
    |states| == 0 || (Offerable(states[0], filter) && AllOfferable(states[1..], filter))
  }

  /** `add_bridge_accessory` for every state, in order. */
  function AddAll(hk: HomeKitState, states: seq<EntityState>, filter: string -> bool, setPositionBit: nat): (r: HomeKitState)
    requires AllOfferable(states, filter)
    ensures r.started == hk.started
    ensures hk.bridge <= r.bridge && |r.bridge| <= |hk.bridge| + |states|
    ensures r.config.Keys <= hk.config.Keys
    decreases |states|
  {
    if |states| == 0 then hk
    else AddAll(AddBridgeAccessory(hk, Some(states[0]), filter, setPositionBit), states[1..], filter, setPositionBit)
  }

  /**
   * `start`: the first call marks the component started, offers every
   * current state to the bridge and starts the driver; later calls do nothing.
   */
  function Start(hk: HomeKitState, states: seq<EntityState>, filter: string -> bool, setPositionBit: nat, paired: bool): (r: (HomeKitState, seq<DriverAction>))
    requires !hk.started ==> AllOfferable(states, filter)
    ensures hk.started ==> r == (hk, [])
    ensures !hk.started ==>
      && r.0.started
      && r.1 == [SetBroker] + (if paired then [] else [ShowSetupMessage]) + [StartDriver]
  {
    if hk.started then (hk, [])
    else
      var added := AddAll(hk.(started := true), states, filter, setPositionBit);
      (added, [SetBroker] + (if paired then [] else [ShowSetupMessage]) + [StartDriver])
  }

  /**
   * `stop`: a started component stops a running driver. The flag is not
   * reset, so the component never starts again.
   */
  function Stop(hk: HomeKitState, driverRunning: bool): (r: (HomeKitState, seq<DriverAction>))
    ensures r.0 == hk
    ensures r.1 != [] <==> hk.started && driverRunning
    ensures r.1 != [] ==> r.1 == [StopDriver]
  {
    if !hk.started then (hk, [])
    else if driverRunning then (hk, [StopDriver])
    else (hk, [])
  }

  /** A second `start` changes nothing and asks nothing of the driver. */
  lemma StartIdempotent(hk: HomeKitState, states: seq<EntityState>, states': seq<EntityState>,
                        filter: string -> bool, setPositionBit: nat, paired: bool, paired': bool)
    requires !hk.started ==> AllOfferable(states, filter)
    ensures var first := Start(hk, states, filter, setPositionBit, paired).0;
      Start(first, states', filter, setPositionBit, paired') == (first, [])
  {
  }

  /** After a `stop`, a `start` does nothing. */
  lemma NoRestartAfterStop(hk: HomeKitState, states: seq<EntityState>, filter: string -> bool,
                           setPositionBit: nat, paired: bool, driverRunning: bool)
    requires hk.started
    ensures var stopped := Stop(hk, driverRunning).0;
      Start(stopped, states, filter, setPositionBit, paired) == (stopped, [])
  {
  }

  // ---------------------------------------------------------------------------
  // What a start adds, stated without the consumed configuration
  // ---------------------------------------------------------------------------

  /** No state in `states` belongs to entity `id`. */
  predicate IdAbsent(states: seq<EntityState>, id: string)
  {
    forall i :: 0 <= i < |states| ==> states[i].entityId != id
  }

  /** No entity id occurs twice in `states`. */
  predicate DistinctIds(states: seq<EntityState>)
    decreases |states|
  {
    |states| == 0 || (IdAbsent(states[1..], states[0].entityId) && DistinctIds(states[1..]))
  }

  /** What offering one state to the bridge adds when the configuration entries are `config`. */
  function Offered(config: map<string, Config>, st: EntityState, filter: string -> bool, setPositionBit: nat): (r: seq<Accessory>)
    requires Offerable(st, filter)
    ensures |r| <= 1
    ensures r != [] ==> filter(st.entityId) && r[0].entityId == st.entityId && r[0].config == ConfigOf(config, st.entityId)
  {
    if !filter(st.entityId) then []
    else
      match GetAccessory(st, GenerateAid(st.entityId), setPositionBit, ConfigOf(config, st.entityId))
      case None => []
      case Some(acc) => [acc]
  }

  /** The accessories for `states`, each taking its configuration from `config` as given. */
  function Selected(config: map<string, Config>, states: seq<EntityState>, filter: string -> bool, setPositionBit: nat): (r: seq<Accessory>)
    requires AllOfferable(states, filter)
    ensures |r| <= |states|
    decreases |states|
  {
    if |states| == 0 then []
    else Offered(config, states[0], filter, setPositionBit) + Selected(config, states[1..], filter, setPositionBit)
  }

  /** The entity ids the filter accepts. */
  function Accepted(states: seq<EntityState>, filter: string -> bool): set<string>
  {
    set i | 0 <= i < |states| && filter(states[i].entityId) :: states[i].entityId
  }

  lemma AcceptedCons(states: seq<EntityState>, filter: string -> bool)
    requires |states| > 0
    ensures Accepted(states, filter) ==
      (if filter(states[0].entityId) then {states[0].entityId} else {}) + Accepted(states[1..], filter)
  {
    var rest := states[1..];
    forall x | x in Accepted(states, filter)
      ensures x in (if filter(states[0].entityId) then {states[0].entityId} else {}) + Accepted(rest, filter)
    {
      var i :| 0 <= i < |states| && filter(states[i].entityId) && states[i].entityId == x;
      if i > 0 {
        assert states[i] == rest[i - 1];
      }
    }
    forall x | x in Accepted(rest, filter)
      ensures x in Accepted(states, filter)
    {
      var i :| 0 <= i < |rest| && filter(rest[i].entityId) && rest[i].entityId == x;
      assert states[i + 1] == rest[i];
    }
  }

  /** Removing the entry of an entity not among `states` does not change what they select. */
  lemma {:induction false} SelectedIgnoresOtherKeys(config: map<string, Config>, id: string, states: seq<EntityState>,
                                 filter: string -> bool, setPositionBit: nat)
    requires AllOfferable(states, filter)
    requires IdAbsent(states, id)
    ensures Selected(config - {id}, states, filter, setPositionBit) == Selected(config, states, filter, setPositionBit)
    decreases |states|
  {
    if |states| > 0 {
      assert ConfigOf(config - {id}, states[0].entityId) == ConfigOf(config, states[0].entityId);
      SelectedIgnoresOtherKeys(config, id, states[1..], filter, setPositionBit);
    }
  }

  /** Offering one entity appends what `Offered` yields and consumes its entry if accepted. */
  lemma AddOneOffers(hk: HomeKitState, st: EntityState, filter: string -> bool, setPositionBit: nat)
    requires Offerable(st, filter)
    ensures AddBridgeAccessory(hk, Some(st), filter, setPositionBit).bridge ==
      hk.bridge + Offered(hk.config, st, filter, setPositionBit)
    ensures AddBridgeAccessory(hk, Some(st), filter, setPositionBit).config ==
      hk.config - (if filter(st.entityId) then {st.entityId} else {})
  {
  }

  /** Consuming the head's entry does not change what the remaining, distinct entities select. */
  lemma ConsumedEntryUnused(config: map<string, Config>, states: seq<EntityState>, filter: string -> bool, setPositionBit: nat)
    requires AllOfferable(states, filter)
    requires |states| > 0 && DistinctIds(states)
    ensures var consumed := config - (if filter(states[0].entityId) then {states[0].entityId} else {});
      Selected(consumed, states[1..], filter, setPositionBit) == Selected(config, states[1..], filter, setPositionBit)
  {
    var rest := states[1..];
    if filter(states[0].entityId) {
      SelectedIgnoresOtherKeys(config, states[0].entityId, rest, filter, setPositionBit);
    } else {
      assert config - {} == config;
    }
  }

  /**
   * Offering distinct entities one after the other appends exactly their
   * accessories, each with its own configuration entry.
   */
  lemma {:induction false} AddAllSelects(hk: HomeKitState, states: seq<EntityState>, filter: string -> bool, setPositionBit: nat)
    requires AllOfferable(states, filter)
    requires DistinctIds(states)
    ensures AddAll(hk, states, filter, setPositionBit).bridge == hk.bridge + Selected(hk.config, states, filter, setPositionBit)
    decreases |states|
  {
    if |states| > 0 {
      var st := states[0];
      var rest := states[1..];
      var next := AddBridgeAccessory(hk, Some(st), filter, setPositionBit);
      var offered := Offered(hk.config, st, filter, setPositionBit);
      assert next.bridge == hk.bridge + offered by {
        AddOneOffers(hk, st, filter, setPositionBit);
      }
      assert Selected(next.config, rest, filter, setPositionBit) == Selected(hk.config, rest, filter, setPositionBit) by {
        AddOneOffers(hk, st, filter, setPositionBit);
        ConsumedEntryUnused(hk.config, states, filter, setPositionBit);
      }
      assert AddAll(next, rest, filter, setPositionBit).bridge == next.bridge + Selected(next.config, rest, filter, setPositionBit) by {
        AddAllSelects(next, rest, filter, setPositionBit);
      }
    }
  }

  /** Offering entities one after the other consumes exactly the entries of the accepted ones. */
  lemma {:induction false} AddAllConsumes(hk: HomeKitState, states: seq<EntityState>, filter: string -> bool, setPositionBit: nat)
    requires AllOfferable(states, filter)
    ensures AddAll(hk, states, filter, setPositionBit).config == hk.config - Accepted(states, filter)
    decreases |states|
  {
    if |states| == 0 {
      assert Accepted(states, filter) == {};
    } else {
      var st := states[0];
      var next := AddBridgeAccessory(hk, Some(st), filter, setPositionBit);
      AddAllConsumes(next, states[1..], filter, setPositionBit);
      AddOneOffers(hk, st, filter, setPositionBit);
      AcceptedCons(states, filter);
    }
  }

  /** A first `start` over distinct entities puts exactly their accessories on the bridge. */
  lemma StartSelects(hk: HomeKitState, states: seq<EntityState>, filter: string -> bool, setPositionBit: nat, paired: bool)
    requires !hk.started
    requires AllOfferable(states, filter)
    requires DistinctIds(states)
    ensures Start(hk, states, filter, setPositionBit, paired).0.bridge ==
      hk.bridge + Selected(hk.config, states, filter, setPositionBit)
  {
    AddAllSelects(hk.(started := true), states, filter, setPositionBit);
  }

  /** A first `start` consumes exactly the configuration entries of the accepted entities. */
  lemma StartConsumes(hk: HomeKitState, states: seq<EntityState>, filter: string -> bool, setPositionBit: nat, paired: bool)
    requires !hk.started
    requires AllOfferable(states, filter)
    ensures Start(hk, states, filter, setPositionBit, paired).0.config == hk.config - Accepted(states, filter)
  {
    AddAllConsumes(hk.(started := true), states, filter, setPositionBit);
  }

  // ---------------------------------------------------------------------------
  // The bridge invariant
  // ---------------------------------------------------------------------------

  /**
   * Every accessory on the bridge has a valid aid, belongs to an entity the
   * filter accepts, and has consumed that entity's configuration entry.
   */
  ghost predicate BridgeInvariant(hk: HomeKitState, filter: string -> bool)
  {
    forall i :: 0 <= i < |hk.bridge| ==>
      && hk.bridge[i].aid >= 2
      && filter(hk.bridge[i].entityId)
      && hk.bridge[i].entityId !in hk.config
  }

  lemma AddBridgeAccessoryInvariant(hk: HomeKitState, st: Option<EntityState>, filter: string -> bool, setPositionBit: nat)
    requires st.Some? ==> Offerable(st.value, filter)
    requires BridgeInvariant(hk, filter)
    ensures BridgeInvariant(AddBridgeAccessory(hk, st, filter, setPositionBit), filter)
  {
  }

  lemma {:induction false} StartInvariant(hk: HomeKitState, states: seq<EntityState>, filter: string -> bool, setPositionBit: nat, paired: bool)
    requires !hk.started ==> AllOfferable(states, filter)
    requires BridgeInvariant(hk, filter)
    ensures BridgeInvariant(Start(hk, states, filter, setPositionBit, paired).0, filter)
  {
    if !hk.started {
      AddAllInvariant(hk.(started := true), states, filter, setPositionBit);
    }
  }

  lemma {:induction false} AddAllInvariant(hk: HomeKitState, states: seq<EntityState>, filter: string -> bool, setPositionBit: nat)
    requires AllOfferable(states, filter)
    requires BridgeInvariant(hk, filter)
    ensures BridgeInvariant(AddAll(hk, states, filter, setPositionBit), filter)
    decreases |states|
  {
    if |states| > 0 {
      AddBridgeAccessoryInvariant(hk, Some(states[0]), filter, setPositionBit);
      AddAllInvariant(AddBridgeAccessory(hk, Some(states[0]), filter, setPositionBit), states[1..], filter, setPositionBit);
    }
  }
}
