# HomeKit cover accessories and bridge bookkeeping, in Dafny

This project models two pieces of Home Assistant's HomeKit component.

**Cover accessories (`homekit/type_covers.py`).**
- A window covering keeps the last reported position and the pending HomeKit target. It also holds three characteristic values: current position, target position and position state.
  - `move_cover` is the target-position callback.
  - `update_state` mirrors entity updates.
- A garage door opener keeps the door state it believes in, plus the current and target door-state characteristics. Its codes are OPEN 0, CLOSED 1, OPENING 2, CLOSING 3 and STOPPED 4.
  - `open_or_close` is the target-door-state callback.
  - `update_state` derives the door state from the new and previous positions.
- Each accessory is an immutable record. Every callback is a pure function that returns the new record and the cover services it calls (`set_cover_position`, `open_cover`, `close_cover`).
- A write from a HomeKit client stores the value in the target characteristic first and then runs the callback.

**Bridge bookkeeping (`homekit/__init__.py`).**
- `get_accessory` picks an accessory type from the entity's domain and attributes.
- `generate_aid` is the Adler-32 checksum of section 2.2 of RFC 1950, computed over the UTF-8 bytes of the entity id. The values 0 and 1 are rejected.
  - The checksum is modelled concretely: the two running sums modulo 65521.
  - The model proves that reducing after every byte agrees with the unreduced definition.
  - It proves that adler32("Wikipedia") equals the published value 0x11E60398.
- The `HomeKit` object is reduced to three parts: the `started` flag, the per-entity configuration map (consumed on use) and the list of accessories on the bridge.
  - `start`, `stop` and `add_bridge_accessory` are functions over that state.
  - They return the actions asked of the protocol driver.

Python semantics are written out where they matter:
- `isinstance(x, int)` also holds of `True` and `False`.
- Truthiness follows Python's rules.
- `features & SUPPORT_SET_POSITION` is Python's `&` on unbounded two's-complement integers (module `Bits`).

Files:
- `wrappers.dfy` holds `Option`.
- `values.dfy` holds the framework's entity state and attribute values.
- `bits.dfy`, `adler32.dfy`, `covers.dfy` and `homekit.dfy` hold the rest.

Where the source is broken, the model follows the evident intent:
- `homekit/type_covers.py:14-17` contains unresolved merge-conflict markers, so the file does not parse as written.
- `homekit/type_covers.py:88` passes an undefined `*args` to the base constructor. The garage accessory therefore cannot be constructed as written. `Covers.NewGarage` models the intended initial state.
- `homekit/type_covers.py:33,47-50`: `current_position` is `None` until a position is reported. Before that, `move_cover`'s test `value != None` at line 47 holds, and line 49 stores `homekit_target`. Only then does line 50's `value > None` raise `TypeError`, which ends the callback. `Covers.MoveCover` keeps that partial effect: the target is pending, the position state is unchanged and no service is called. `Covers.StrandedTarget` shows that a later report more than five away leaves the target pending.
- `homekit/type_covers.py:144,147` test `new_position is 0` and `is 100`. They are read as integer equality.

## Model

| member | source | states |
|---|---|---|
| `Covers.NewWindow` | homeassistant/components/homekit/type_covers.py:29-43 | a new window accessory has no reported position, no pending target and all three characteristics at 0 |
| `Covers.MoveCover` | homeassistant/components/homekit/type_covers.py:45-55 | before any report, the value becomes the pending target and nothing else changes. Nothing is called, because line 50 raises. Once a position is known, a request equal to it changes nothing and calls no service. Any other request becomes the pending target and issues exactly one `set_cover_position(value)`. The position state becomes 1 (increasing) exactly when the value is above the position and 0 exactly when it is below. The reported position and the other characteristics are untouched |
| `Covers.ClientSetTargetPosition` | homeassistant/components/homekit/type_covers.py:39-55 | a client write leaves the target characteristic at the written value. It issues a service call exactly when a position has been reported and the value differs from it |
| `Covers.UpdateWindow` | homeassistant/components/homekit/type_covers.py:57-67 | a missing state (where Python raises `AttributeError` at line 59 before any change), or a missing or non-integer position, changes nothing. An integer position p is mirrored into the current-position field and characteristic. The move settles when there is no pending target or p is within 5 of it: target characteristic := p, state := 2, target cleared. Otherwise target, state and pending target are unchanged |
| `Covers.NewWindowInvariant` | homeassistant/components/homekit/type_covers.py:33-43 | the freshly constructed window satisfies the window invariant |
| `Covers.MoveCoverInvariant` | homeassistant/components/homekit/type_covers.py:45-55 | a HomeKit move or client write, before or after the first report, keeps the invariant. The current characteristic mirrors the position. The position state stays at its initial 0 until a report. A pending target implies a direction (0 or 1), so a halted cover has no pending target |
| `Covers.UpdateWindowInvariant` | homeassistant/components/homekit/type_covers.py:57-67 | an entity update keeps the window invariant |
| `Covers.UpdateWindowIdempotent` | homeassistant/components/homekit/type_covers.py:57-67 | reporting the same state twice has the effect of reporting it once |
| `Covers.SettledWindowAtRest` | homeassistant/components/homekit/type_covers.py:63-67 | after a settling update there is no pending target, the state is 2 and the current and target characteristics both equal the position |
| `Covers.RunWindowInvariant` | homeassistant/components/homekit/type_covers.py:45-67 | along any sequence of client writes and entity updates, the invariant holds and every service call is a set-position call for this entity |
| `Covers.StrandedTarget` | homeassistant/components/homekit/type_covers.py:45-67 | a client write to a new accessory, followed by a report more than five away, leaves the written value pending as target. The position state stays 0 (decreasing), the target characteristic keeps the written value, and no service is called |
| `Covers.NewGarage` | homeassistant/components/homekit/type_covers.py:86-100 | a new garage accessory believes the door closed, and both characteristics are CLOSED |
| `Covers.OpenOrClose` | homeassistant/components/homekit/type_covers.py:102-123 | a value equal to the believed state is a no-op. OPEN calls `open_cover`. With assumed state it sets target := CLOSED and state := CLOSED and leaves the current characteristic alone. Otherwise it sets target := OPEN and current := OPENING = state. CLOSED calls `close_cover`, sets target := CLOSED and keeps the believed state. Any other value does nothing |
| `Covers.ClientSetTargetDoorState` | homeassistant/components/homekit/type_covers.py:98-123 | after a client write at most one service is called. Writing CLOSED leaves the target CLOSED. Writing OPEN over another state leaves the target OPEN, or CLOSED when the entity's state is assumed |
| `Covers.OldPosition` | homeassistant/components/homekit/type_covers.py:131-137 | a missing previous state or position counts as 0. A previous int or bool position is that integer |
| `Covers.UpdateGarage` | homeassistant/components/homekit/type_covers.py:125-160 | no new state, or no position, changes nothing. Otherwise: position 0 gives CLOSED, 100 gives OPEN, below the previous position gives CLOSING, otherwise OPENING. The current characteristic equals the believed state, which is never STOPPED, and the target characteristic is that movement's destination |
| `Covers.NewGarageInvariant` | homeassistant/components/homekit/type_covers.py:92-100 | the freshly constructed garage satisfies the garage invariant (states never STOPPED, target OPEN or CLOSED) |
| `Covers.UpdateGarageInvariant` | homeassistant/components/homekit/type_covers.py:144-160 | an entity update keeps the garage invariant |
| `Covers.ClientSetTargetDoorStateInvariant` | homeassistant/components/homekit/type_covers.py:102-123 | a client write of OPEN or CLOSED keeps the garage invariant |
| `Values.AsInt` | homeassistant/components/homekit/type_covers.py:59-60 | a value passes `isinstance(v, int)` exactly when it is an int or a bool; bools count as 0 and 1 |
| `Values.Truthy` | homeassistant/components/homekit/type_covers.py:112 | `if assumed_state:` fails exactly for None, False, 0 and the empty string |
| `Values.Attr` | homeassistant/components/homekit/type_covers.py:59 | `attributes.get(key)`: a present key gives its value, and a missing key gives None |
| `Values.Abs` | homeassistant/components/homekit/type_covers.py:64 | Python's `abs` on an integer: a non-negative result equal to x or to -x |
| `Covers.ReportedPosition` | homeassistant/components/homekit/type_covers.py:57-60 | a missing state reports no position, because the `.attributes` read raises before anything changes. A present state reports its `current_position` when that passes `isinstance(.., int)`, and nothing otherwise |
| `HomeKit.GarageDoorClass` | homeassistant/components/homekit/__init__.py:96 | `IsGarageDoor`: a cover is a garage door exactly when its `device_class` attribute is present and equals the text "garage" |
| `Covers.Settles` | homeassistant/components/homekit/type_covers.py:63-64 | a report ends the move exactly when there is no pending target or the position is strictly within 6 of it on either side |
| `HomeKit.TypeFor` | homeassistant/components/homekit/__init__.py:80-122 | whenever a type is chosen, the state's domain is one of the domains that type is chosen for |
| `HomeKit.GetAccessory` | homeassistant/components/homekit/__init__.py:72-126 | a missing or zero aid gives no accessory, whatever the domain. An accessory carries the given aid, entity id, name and configuration, and a type matching the domain. Every domain with a fixed type gets an accessory |
| `HomeKit.CoverSelection` | homeassistant/components/homekit/__init__.py:92-102 | a garage-class cover is a GarageDoorOpener even when it supports set-position. Any other cover is a WindowCovering exactly when the set-position bit is set in its features, and has no accessory otherwise |
| `HomeKit.CoverWithoutFeatures` | homeassistant/components/homekit/__init__.py:95-102 | a non-garage cover without a features attribute (default 0) gets no accessory |
| `HomeKit.SensorSelection` | homeassistant/components/homekit/__init__.py:110-115 | a sensor with unit °C or °F is a TemperatureSensor and one with `%` is a HumiditySensor. Any other unit gives no accessory |
| `HomeKit.DomainSelection` | homeassistant/components/homekit/__init__.py:83-122 | switch, remote, input_boolean and script give Switch. binary_sensor and device_tracker give BinarySensor. alarm_control_panel, climate, light and lock give their fixed type. Any domain outside the table gives nothing |
| `HomeKit.GenerateAid` | homeassistant/components/homekit/__init__.py:129-134 | no aid exactly when the checksum of the UTF-8 id is 0 or 1. Otherwise the aid is that checksum, at least 2 and below 2^32 |
| `HomeKit.EmptyIdHasNoAid` | homeassistant/components/homekit/__init__.py:129-134 | the empty id checksums to the reserved value 1 and gets no aid |
| `HomeKit.ShortIdHasAid` | homeassistant/components/homekit/__init__.py:129-134 | every non-empty id of at most 22 UTF-8 bytes gets an aid of at least 2^16 |
| `HomeKit.NewHomeKit` | homeassistant/components/homekit/__init__.py:140-148 | a new component is not started, its bridge is empty and it holds the configuration map |
| `HomeKit.ConfigOf` | homeassistant/components/homekit/__init__.py:167 | the value `pop(entity_id, {})` returns: the entity's entry when present, else the empty map |
| `HomeKit.Features` | homeassistant/components/homekit/__init__.py:95 | `get(ATTR_SUPPORTED_FEATURES, 0)`: 0 when the attribute is absent, and otherwise the integer it holds |
| `HomeKit.AddBridgeAccessory` | homeassistant/components/homekit/__init__.py:162-170 | an absent state, or an entity the filter rejects, changes nothing. Otherwise the entity's configuration entry is removed and the bridge grows by at most one accessory. A new accessory belongs to this entity, has an aid of at least 2 and carries the removed entry (or `{}`) |
| `HomeKit.AddOneOffers` | homeassistant/components/homekit/__init__.py:162-170 | one offer appends exactly what the entity selects with the current entries, and consumes its entry when the filter accepts it |
| `HomeKit.AddAll` | homeassistant/components/homekit/__init__.py:183-184 | offering all states keeps the started flag, only appends to the bridge (at most one accessory per state) and only removes configuration entries |
| `HomeKit.Start` | homeassistant/components/homekit/__init__.py:172-191 | a started component is left unchanged and asks nothing of the driver. Otherwise it becomes started and asks to set the broker, show the setup message when not paired, and start the driver |
| `HomeKit.Stop` | homeassistant/components/homekit/__init__.py:193-200 | stop never changes the state. It asks the driver to stop exactly when the component is started and the driver is running |
| `HomeKit.StartIdempotent` | homeassistant/components/homekit/__init__.py:172-176 | a second start, with any states, changes nothing and asks nothing of the driver |
| `HomeKit.NoRestartAfterStop` | homeassistant/components/homekit/__init__.py:172-200 | stop does not clear `started`, so a start after a stop does nothing |
| `HomeKit.SelectedIgnoresOtherKeys` | homeassistant/components/homekit/__init__.py:167 | removing the entry of an entity not among the offered states does not change what they select |
| `HomeKit.ConsumedEntryUnused` | homeassistant/components/homekit/__init__.py:167 | for distinct entities, consuming the first one's entry does not change what the rest select |
| `HomeKit.AddAllSelects` | homeassistant/components/homekit/__init__.py:162-184 | offering distinct entities in order appends exactly their accessories, each with its own configuration entry taken from the map as it was before |
| `HomeKit.AddAllConsumes` | homeassistant/components/homekit/__init__.py:162-184 | offering entities in order removes exactly the entries of the entities the filter accepts |
| `HomeKit.StartSelects` | homeassistant/components/homekit/__init__.py:172-184 | a first start over distinct entities puts exactly their accessories on the bridge |
| `HomeKit.StartConsumes` | homeassistant/components/homekit/__init__.py:172-184 | a first start consumes exactly the configuration entries of the entities the filter accepts |
| `HomeKit.AddBridgeAccessoryInvariant` | homeassistant/components/homekit/__init__.py:162-170 | adding keeps the bridge invariant: every accessory has an aid of at least 2, passes the filter and has consumed its entry |
| `HomeKit.AddAllInvariant` | homeassistant/components/homekit/__init__.py:183-184 | offering every state keeps the bridge invariant |
| `HomeKit.StartInvariant` | homeassistant/components/homekit/__init__.py:172-184 | start keeps the bridge invariant |
| `Bits.BitAnd` | homeassistant/components/homekit/__init__.py:101 | the AND of non-negative integers is non-negative and no larger than either operand |
| `Bits.BitAndBits` | homeassistant/components/homekit/__init__.py:101 | bit k of `x & y` is set exactly when bit k is set in both x and y, for negative operands too |
| `Bits.Pow2Bits` | homeassistant/components/homekit/__init__.py:101 | the only bit set in 2^k is bit k |
| `Bits.SingleBitMask` | homeassistant/components/homekit/__init__.py:101 | `features & 2^k` is truthy exactly when bit k of the features is set |
| `Adler32.EncodeChar` | homeassistant/components/homekit/__init__.py:131 | a character encodes to 1 to 4 UTF-8 bytes, and to one byte exactly when it is ASCII |
| `Adler32.EncodeCharRoundTrip` | homeassistant/components/homekit/__init__.py:131 | decoding a character's UTF-8 bytes gives its code point back |
| `Adler32.Utf8` | homeassistant/components/homekit/__init__.py:131 | a string of n characters encodes to between n and 4n bytes |
| `Adler32.Utf8Ascii` | homeassistant/components/homekit/__init__.py:131 | an ASCII string encodes to its code points, one byte per character |
| `Adler32.Checksum` | homeassistant/components/homekit/__init__.py:131 | the checksum is below 2^32, with sum B in the high 16 bits and sum A in the low 16 bits |
| `Adler32.RunningIsReduced` | homeassistant/components/homekit/__init__.py:131 | reducing modulo 65521 after every byte gives the RFC 1950 sums A = 1 + ΣD and B = Σ of the running A values, taken modulo 65521 |
| `Adler32.TotalBBounds` | homeassistant/components/homekit/__init__.py:131 | for n bytes, 1 ≤ A ≤ 1 + 255n and n ≤ B ≤ n + 255n(n+1)/2, before reduction |
| `Adler32.ShortInputSums` | homeassistant/components/homekit/__init__.py:131-134 | for at most 22 bytes, the unreduced B is at least n and stays below 65521 |
| `Adler32.Running` | homeassistant/components/homekit/__init__.py:131 | the running sums A and B of section 2.2 of RFC 1950, reduced modulo 65521 after every byte, both kept in [0, 65521) |
| `Adler32.ComputeChecksum` | homeassistant/components/homekit/__init__.py:131 | the byte loop computes the checksum: the low half is A mod 65521 and the high half is B mod 65521 |
| `Adler32.WikipediaVector` | homeassistant/components/homekit/__init__.py:131 | the bytes of "Wikipedia" checksum to 0x11E60398 |
| `Adler32.WikipediaBytes` | homeassistant/components/homekit/__init__.py:131 | "Wikipedia" encodes to its nine ASCII bytes |

## Left out

- `async_setup`, the configuration schema, the `start` service and the start/stop event listeners (`homekit/__init__.py:32-69`): framework plumbing. `started` is only read there, and `HomeKit.Start` models its effect.
- `HomeKit.setup` (`homekit/__init__.py:151-160`) is left out. It builds `HomeBridge` and `HomeDriver` from the third-party protocol library, reads the local IP and locates the pairing state file. The bridge is reduced to a list of accessories.
- Driver calls become `DriverAction` values. The bridge's `paired` flag and the driver's `run_sentinel` become parameters of `HomeKit.Start` and `HomeKit.Stop`.
- `hass.states.all()` becomes a sequence parameter of `HomeKit.Start`.
- The entity filter becomes a function parameter.
- The framework computes `state.domain` from the entity id. Here it is a field of `EntityState`. It is an enumeration of the twelve domains `get_accessory` tests, plus `OtherDomain` for every remaining domain, because no other domain name changes the outcome.
- The per-domain `type_*` imports in `start` only register accessory classes, so they are left out. As written, importing `type_covers` at `homekit/__init__.py:179-181` would raise `SyntaxError` because of the conflict markers, after line 176 has already set `started`. `start` would then add no accessory and never start the driver. `HomeKit.Start` follows the evident intent here too: the import succeeds.
- Construction through `TYPES[a_type](hass, state.name, state.entity_id, aid, config=config)` and the protocol library's characteristic objects are left out. An accessory is its type name plus the arguments passed. Characteristics are integer fields.
  - The constructors' signatures do not match that call. `GarageDoorOpener.__init__` takes (hass, entity_id, display_name), so the call's argument order and its extra positional argument would fail.
  - `WindowCovering.__init__` takes `*args` and a required keyword `config`. The call at `homekit/__init__.py:126` passes `config=config`, so it is accepted. The test at `tests/components/homekit/test_type_covers.py:42` constructs one without `config`, which would raise `TypeError`.
- `SUPPORT_SET_POSITION` comes from the cover component and its value is not part of this model. It is the parameter `setPositionBit`, with the flag being 2^setPositionBit.
- The attribute keys and the °C/°F unit strings come from the framework's constants, which are not part of this model. The model uses the framework's names for them.
- Attribute values are None, bool, int or str. Float attribute values are not modelled.
- Covers.MoveCover: a write before the first report ends, as in the source, with the `TypeError` from `type_covers.py:50`. Only the state left behind is modelled, not the exception or how the protocol library reports it.
- Covers.UpdateGarage: requires, through `GarageUpdateDefined`, that the compared positions are None, int or bool. A mix of a number with anything else raises `TypeError` at `type_covers.py:150`. Two `str` positions do not raise: Python compares them lexicographically, so an old `"40"` and a new `"50"` give OPENING. The model leaves that str-against-str case out. Float positions are left out too.
- Covers.OpenOrClose: requires the entity to have a state whenever the value differs from the believed state. `hass.states.get(...)` would otherwise return None and the attribute read would raise.
- Covers.ClientSetTargetDoorStateInvariant: assumes the written value is OPEN or CLOSED. These are the protocol's valid target door states, and the protocol library enforces that outside this model.
- HomeKit.GetAccessory: when the aid is present and non-zero, requires, through `FeaturesReadable`, that a non-garage cover's `supported_features` attribute is absent or an integer (a bool counts). For any other value, Python's `&` at `homekit/__init__.py:101` raises `TypeError`. A missing or zero aid returns at lines 74-78 before the `&`, and is not restricted. `AddBridgeAccessory` and `Offered` require this, through `Offerable`, only for an entity the filter accepts and that gets an aid. `AddAll` and the lemmas over sequences require it through `AllOfferable`. `Start` requires it only when not yet started, because a started component returns at lines 174-175.
- HomeKit.AddAllSelects: requires distinct entity ids among the offered states, as the framework's state machine guarantees. With duplicate ids the second offer would get `{}` instead of the entry.
- Logging is left out.
- `homeassistant/components/sensor/tibber.py` (vendor API polling, wall-clock comparisons, float prices) is left out.
- `homekit/const.py` holds only names and numbers, and the model uses it for names only.
