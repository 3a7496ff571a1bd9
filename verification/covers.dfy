/**
 * The cover accessories of homekit/type_covers.py: a window covering driven
 * by a target position, and a garage door opener driven by door-state codes.
 * Each accessory is an immutable record of its Python attributes and the
 * integer values of its protocol characteristics; every callback is a pure
 * function returning the new record and the framework services it calls.
 */
module Covers {
  import opened Wrappers
  import opened Values

  // Door-state codes, shared by the current and target door-state characteristics.
  const Open := 0
  const Closed := 1
  const Opening := 2
  const Closing := 3
  const Stopped := 4

  // Position-state codes of a window covering.
  const Decreasing := 0
  const Increasing := 1
  const Halted := 2

  /** A reported position closer than this to the pending target ends the move. */
  const SettleDistance := 6

  /** Cover services the accessories call on the framework. */
  datatype ServiceCall =
    | SetCoverPosition(entityId: string, position: int)
    | OpenCover(entityId: string)
    | CloseCover(entityId: string)

  // ---------------------------------------------------------------------------
  // Window covering
  // ---------------------------------------------------------------------------

  /**
   * `currentPosition` is the last integer position the entity reported and
   * `homekitTarget` the target of a move requested from HomeKit that has not
   * settled yet; the remaining fields are the three characteristic values.
   */
  datatype Window = Window(
    entityId: string,
    currentPosition: Option<int>,
    homekitTarget: Option<int>,
    charCurrentPosition: int,
    charTargetPosition: int,
    charPositionState: int)

  /** The accessory as constructed: nothing reported, every characteristic 0. */
  function NewWindow(entityId: string): (w: Window)
    ensures w.entityId == entityId
    ensures w.currentPosition.None? && w.homekitTarget.None?
    ensures w.charCurrentPosition == 0 && w.charTargetPosition == 0 && w.charPositionState == 0
  {
    Window(entityId, None, None, 0, 0, 0)
  }

  /**
   * `move_cover`, the callback of the target-position characteristic. While
   * no position has been reported, `value != None` holds and the target is
   * stored, but the ordering comparison that follows raises: the callback
   * ends there, with the target pending and no service called.
   */
  function MoveCover(w: Window, value: int): (r: (Window, seq<ServiceCall>))
    // before any report: the target is stored and nothing else happens
    ensures w.currentPosition.None? ==> r.0 == w.(homekitTarget := Some(value)) && r.1 == []
    // a request for the position the cover already has does nothing
    ensures w.currentPosition.Some? && value == w.currentPosition.value ==> r.0 == w && r.1 == []
    // any other request becomes the pending target and exactly one service call
    ensures w.currentPosition.Some? && value != w.currentPosition.value ==>
      && r.1 == [SetCoverPosition(w.entityId, value)]
      && r.0.homekitTarget == Some(value)
      && (r.0.charPositionState == Increasing <==> value > w.currentPosition.value)
      && (r.0.charPositionState == Decreasing <==> value < w.currentPosition.value)
    // the reported position and the other characteristics are left alone
    ensures r.0.entityId == w.entityId && r.0.currentPosition == w.currentPosition
    ensures r.0.charCurrentPosition == w.charCurrentPosition
    ensures r.0.charTargetPosition == w.charTargetPosition
  {
    if w.currentPosition.None? then
      (w.(homekitTarget := Some(value)), [])
    else
    var current := w.currentPosition.value;
    if value != current then
      var state :=
        if value > current then Increasing
        else if value < current then Decreasing
        else w.charPositionState;
      (w.(homekitTarget := Some(value), charPositionState := state),
       [SetCoverPosition(w.entityId, value)])
    else
      (w, [])
  }

  /**
   * A write from a HomeKit client: the protocol library stores the value in
   * the target-position characteristic and then calls `move_cover`.
   */
  function ClientSetTargetPosition(w: Window, value: int): (r: (Window, seq<ServiceCall>))
    ensures r.0.charTargetPosition == value
    ensures |r.1| <= 1
    ensures r.1 != [] <==> w.currentPosition.Some? && value != w.currentPosition.value
  {
    MoveCover(w.(charTargetPosition := value), value)
  }

  /** Whether a reported position ends the pending move (or there is none). */
  predicate Settles(target: Option<int>, position: int)
    ensures Settles(target, position) <==>
      target.None? || target.value - SettleDistance < position < target.value + SettleDistance
  {
    target.None? || Abs(position - target.value) < SettleDistance
  }

  /**
   * The integer position a new state reports, if any. A missing state has
   * none: `update_state` reads its attributes unguarded, so Python raises
   * `AttributeError` before anything changes.
   */
  function ReportedPosition(st: Option<EntityState>): (p: Option<int>)
    ensures st.None? ==> p.None?
    ensures st.Some? ==> p == AsInt(Attr(st.value, CurrentPosition))
  {
    match st
    case None => None
    case Some(s) => AsInt(Attr(s, CurrentPosition))
  }

  /** `update_state`: the entity reported a new state (`None` when it was removed). */
  function UpdateWindow(w: Window, st: Option<EntityState>): (r: Window)
    // a missing state, or a missing or non-integer position, changes nothing
    ensures st.None? ==> r == w
    ensures st.Some? && AsInt(Attr(st.value, CurrentPosition)).None? ==> r == w
    ensures st.Some? && AsInt(Attr(st.value, CurrentPosition)).Some? ==>
      var p := AsInt(Attr(st.value, CurrentPosition)).value;
      && r.currentPosition == Some(p)
      && r.charCurrentPosition == p
      && (Settles(w.homekitTarget, p) ==>
            r.homekitTarget.None? && r.charTargetPosition == p && r.charPositionState == Halted)
      && (!Settles(w.homekitTarget, p) ==>
            && r.homekitTarget == w.homekitTarget
            && r.charTargetPosition == w.charTargetPosition
            && r.charPositionState == w.charPositionState)
    ensures r.entityId == w.entityId
  {
    match ReportedPosition(st)
    case None => w
    case Some(p) =>
      var moved := w.(currentPosition := Some(p), charCurrentPosition := p);
      if w.homekitTarget.None? || Abs(p - w.homekitTarget.value) < SettleDistance then
        moved.(charTargetPosition := p, charPositionState := Halted, homekitTarget := None)
      else
        moved
  }

  /**
   * What holds of a window accessory between callbacks: the current-position
   * characteristic mirrors the reported position; until a position is
   * reported the position state keeps its initial value; a pending target
   * comes with a direction, so a halted cover has no pending target.
   */
  ghost predicate WindowInvariant(w: Window)
  {
    && (w.currentPosition.Some? ==> w.charCurrentPosition == w.currentPosition.value)
    && (w.currentPosition.None? ==> w.charPositionState == Decreasing)
    && (w.homekitTarget.Some? ==> w.charPositionState in {Decreasing, Increasing})
    && w.charPositionState in {Decreasing, Increasing, Halted}
  }

  lemma NewWindowInvariant(entityId: string)
    ensures WindowInvariant(NewWindow(entityId))
  {
  }

  lemma MoveCoverInvariant(w: Window, value: int)
    requires WindowInvariant(w)
    ensures WindowInvariant(MoveCover(w, value).0)
    ensures WindowInvariant(ClientSetTargetPosition(w, value).0)
  {
  }

  lemma UpdateWindowInvariant(w: Window, st: Option<EntityState>)
    requires WindowInvariant(w)
    ensures WindowInvariant(UpdateWindow(w, st))
  {
  }

  /** Reporting the same state twice has the effect of reporting it once. */
  lemma UpdateWindowIdempotent(w: Window, st: Option<EntityState>)
    ensures UpdateWindow(UpdateWindow(w, st), st) == UpdateWindow(w, st)
  {
  }

  /** A settling update leaves the cover at rest, every characteristic at the reported position. */
  lemma SettledWindowAtRest(w: Window, st: Option<EntityState>)
    requires ReportedPosition(st).Some?
    requires Settles(w.homekitTarget, ReportedPosition(st).value)
    ensures var r := UpdateWindow(w, st);
      && r.homekitTarget.None?
      && r.charPositionState == Halted
      && r.charCurrentPosition == r.charTargetPosition == r.currentPosition.value
  {
  }

  /** The two kinds of event a window accessory reacts to. */
  datatype WindowEvent =
    | ClientWrite(value: int)
    | StateChanged(state: Option<EntityState>)

  /** Runs a sequence of events and collects the service calls, in order. */
  function RunWindow(w: Window, events: seq<WindowEvent>): (r: (Window, seq<ServiceCall>))
    decreases |events|
  {
    if |events| == 0 then (w, [])
    else
      var (w', calls) :=
        match events[0]
        case StateChanged(st) => (UpdateWindow(w, st), [])
        case ClientWrite(v) => ClientSetTargetPosition(w, v);
      var (w'', more) := RunWindow(w', events[1..]);
      (w'', calls + more)
  }

  /**
   * Along any run the invariant holds, and every service call is a
   * set-position request for this accessory's entity.
   */
  lemma {:induction false} RunWindowInvariant(w: Window, events: seq<WindowEvent>)
    requires WindowInvariant(w)
    ensures var (w', calls) := RunWindow(w, events);
      && WindowInvariant(w')
      && w'.entityId == w.entityId
      && forall i :: 0 <= i < |calls| ==> calls[i].SetCoverPosition? && calls[i].entityId == w.entityId
    decreases |events|
  {
    if |events| > 0 {
      match events[0]
      case StateChanged(st) =>
        UpdateWindowInvariant(w, st);
        RunWindowInvariant(UpdateWindow(w, st), events[1..]);
      case ClientWrite(v) =>
        MoveCoverInvariant(w, v);
        RunWindowInvariant(ClientSetTargetPosition(w, v).0, events[1..]);
    }
  }

  /**
   * A client write before any report leaves its target pending: a report
   * more than five away from it keeps the target, the direction "decreasing"
   * and the written target characteristic, and no service is ever called.
   */
  lemma StrandedTarget(entityId: string, value: int, st: Option<EntityState>)
    requires ReportedPosition(st).Some?
    requires Abs(ReportedPosition(st).value - value) >= SettleDistance
    ensures var (w, calls) := RunWindow(NewWindow(entityId), [ClientWrite(value), StateChanged(st)]);
      && calls == []
      && w.homekitTarget == Some(value)
      && w.charPositionState == Decreasing
      && w.charTargetPosition == value
      && w.currentPosition == ReportedPosition(st)
  {
    var events := [ClientWrite(value), StateChanged(st)];
    var w1 := ClientSetTargetPosition(NewWindow(entityId), value).0;
    var w2 := UpdateWindow(w1, st);
    var none: seq<ServiceCall> := [];
    assert none + none == none;
    assert events[1..][1..] == [];
    assert RunWindow(w2, []) == (w2, none);
    assert RunWindow(w1, events[1..]) == (w2, none);
  }

  // ---------------------------------------------------------------------------
  // Garage door opener
  // ---------------------------------------------------------------------------

  /**
   * `currentState` is the door state the accessory believes in; the two other
   * fields are the current and target door-state characteristics.
   */
  datatype Garage = Garage(
    entityId: string,
    currentState: int,
    charCurrentDoorState: int,
    charTargetDoorState: int)

  /** The accessory as constructed: closed, and told to stay closed. */
  function NewGarage(entityId: string): (g: Garage)
    ensures g.entityId == entityId
    ensures g.currentState == Closed && g.charCurrentDoorState == Closed && g.charTargetDoorState == Closed
  {
    Garage(entityId, Closed, Closed, Closed)
  }

  /**
   * `open_or_close`, the callback of the target door-state characteristic.
   * For any value other than the believed state the source reads the entity's
   * `assumed_state` attribute from the framework, which must know the entity.
   */
  function OpenOrClose(g: Garage, value: int, entity: Option<EntityState>): (r: (Garage, seq<ServiceCall>))
    requires value != g.currentState ==> entity.Some?
    ensures value == g.currentState ==> r == (g, [])
    ensures value != g.currentState && value == Open ==>
      && r.1 == [OpenCover(g.entityId)]
      && (Truthy(Attr(entity.value, AssumedState)) ==>
            // an assumed-state cover reports no motion: HomeKit sees it closed again
            r.0 == g.(charTargetDoorState := Closed, currentState := Closed))
      && (!Truthy(Attr(entity.value, AssumedState)) ==>
            r.0 == g.(charTargetDoorState := Open, charCurrentDoorState := Opening, currentState := Opening))
    ensures value != g.currentState && value == Closed ==>
      r == (g.(charTargetDoorState := Closed), [CloseCover(g.entityId)])
    ensures value !in {Open, Closed} ==> r == (g, [])
    ensures r.0.entityId == g.entityId
  {
    if value != g.currentState then
      var assumed := Truthy(Attr(entity.value, AssumedState));
      if value == Open then
        if assumed then
          (g.(charTargetDoorState := Closed, currentState := Closed), [OpenCover(g.entityId)])
        else
          (g.(charTargetDoorState := Open, charCurrentDoorState := Opening, currentState := Opening),
           [OpenCover(g.entityId)])
      else if value == Closed then
        (g.(charTargetDoorState := Closed), [CloseCover(g.entityId)])
      else
        (g, [])
    else
      (g, [])
  }

  /** A write from a HomeKit client: store the target door state, then call `open_or_close`. */
  function ClientSetTargetDoorState(g: Garage, value: int, entity: Option<EntityState>): (r: (Garage, seq<ServiceCall>))
    requires value != g.currentState ==> entity.Some?
    ensures |r.1| <= 1
    ensures value == Closed ==> r.0.charTargetDoorState == Closed
    ensures value == Open && value != g.currentState ==>
      r.0.charTargetDoorState == (if Truthy(Attr(entity.value, AssumedState)) then Closed else Open)
  {
    OpenOrClose(g.(charTargetDoorState := value), value, entity)
  }

  /** A position value the source can compare with integers: None or an int. */
  predicate Comparable(v: Value)
  {
    v.Null? || AsInt(v).Some?
  }

  /** The previous position; a missing state or position counts as 0. */
  function OldPosition(oldState: Option<EntityState>): (p: int)
    requires oldState.Some? ==> Comparable(Attr(oldState.value, CurrentPosition))
    ensures oldState.None? || Attr(oldState.value, CurrentPosition).Null? ==> p == 0
    ensures oldState.Some? && AsInt(Attr(oldState.value, CurrentPosition)).Some? ==>
      p == AsInt(Attr(oldState.value, CurrentPosition)).value
  {
    if oldState.None? then 0
    else
      var v := Attr(oldState.value, CurrentPosition);
      if v.Null? then 0 else AsInt(v).value
  }

  /**
   * What `update_state` needs in order not to raise: the new position is None
   * or an int, and when it is compared with the previous position (it is
   * neither 0 nor 100), so is the previous one.
   */
  predicate GarageUpdateDefined(oldState: Option<EntityState>, newState: Option<EntityState>)
  {
    newState.Some? ==>
      var v := Attr(newState.value, CurrentPosition);
      && Comparable(v)
      && (AsInt(v).Some? && AsInt(v).value != 0 && AsInt(v).value != 100 && oldState.Some? ==>
            Comparable(Attr(oldState.value, CurrentPosition)))
  }

  /** The door state a movement ends in. */
  function Destination(state: int): int
  {
    if state == Closing || state == Closed then Closed else Open
  }

  /** `update_state`: the entity changed from `oldState` to `newState`. */
  function UpdateGarage(g: Garage, oldState: Option<EntityState>, newState: Option<EntityState>): (r: Garage)
    requires GarageUpdateDefined(oldState, newState)
    // no new state, or one without a position, changes nothing
    ensures newState.None? || Attr(newState.value, CurrentPosition).Null? ==> r == g
    // otherwise both the belief and the characteristic take the derived state
    ensures newState.Some? && AsInt(Attr(newState.value, CurrentPosition)).Some? ==>
      var p := AsInt(Attr(newState.value, CurrentPosition)).value;
      && r.currentState == r.charCurrentDoorState
      && r.currentState != Stopped
      && r.charTargetDoorState == Destination(r.currentState)
      && (p == 0 ==> r.currentState == Closed)
      && (p == 100 ==> r.currentState == Open)
      && (p != 0 && p != 100 && p < OldPosition(oldState) ==> r.currentState == Closing)
      && (p != 0 && p != 100 && p >= OldPosition(oldState) ==> r.currentState == Opening)
    ensures r.entityId == g.entityId
  {
    if newState.None? then g
    else
      var v := Attr(newState.value, CurrentPosition);
      if v.Null? then g
      else
        var p := AsInt(v).value;
        var (target, state) :=
          if p == 0 then (Closed, Closed)
          else if p == 100 then (Open, Open)
          else if p < OldPosition(oldState) then (Closed, Closing)
          else (Open, Opening);
        g.(charTargetDoorState := target, currentState := state, charCurrentDoorState := state)
  }

  /**
   * What holds of a garage accessory between callbacks: the believed state
   * and the current-door characteristic are one of the four non-stopped door
   * states, and the target characteristic is open or closed.
   */
  ghost predicate GarageInvariant(g: Garage)
  {
    && g.currentState in {Open, Closed, Opening, Closing}
    && g.charCurrentDoorState in {Open, Closed, Opening, Closing}
    && g.charTargetDoorState in {Open, Closed}
  }

  lemma NewGarageInvariant(entityId: string)
    ensures GarageInvariant(NewGarage(entityId))
  {
  }

  lemma UpdateGarageInvariant(g: Garage, oldState: Option<EntityState>, newState: Option<EntityState>)
    requires GarageUpdateDefined(oldState, newState) && GarageInvariant(g)
    ensures GarageInvariant(UpdateGarage(g, oldState, newState))
  {
  }

  /**
   * HomeKit only writes open or closed into the target door state; such a
   * write keeps the invariant.
   */
  lemma ClientSetTargetDoorStateInvariant(g: Garage, value: int, entity: Option<EntityState>)
    requires value != g.currentState ==> entity.Some?
    requires GarageInvariant(g) && value in {Open, Closed}
    ensures GarageInvariant(OpenOrClose(g, value, entity).0)
    ensures GarageInvariant(ClientSetTargetDoorState(g, value, entity).0)
  {
  }
}
