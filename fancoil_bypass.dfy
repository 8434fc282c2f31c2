/**
 * The bypass valve of the Wi-Fi fan-coil controller. A change of state is
 * two-phase: `setBypassState` records the new state and energises the
 * valve pin of that state; `processByPassState`, called from the main
 * loop, commits the new state once BYPASS_CHANGE_STATE_INTERVAL_MS has
 * passed, releases the pin and publishes the bypass state.
 *
 * `millis()` is a parameter (`now`), an `unsigned long` of 32 bits on the
 * ESP8266. The expander outputs are recorded as the levels last given to
 * BYPASS_OFF_PIN and BYPASS_ON_PIN, and the publish callback as whether it
 * is set and how many times it was called.
 */
module FanCoilBypass {

  /** DeviceState. */
  datatype DeviceState = Off | On

  /** BYPASS_CHANGE_STATE_INTERVAL_MS. */
  const ChangeStateIntervalMs := 10000
  /** BYPASS_OFF_PIN. */
  const BypassOffPin: nat := 0x00
  /** BYPASS_ON_PIN. */
  const BypassOnPin: nat := 0x01

  /** 2^32: `unsigned long` arithmetic is taken modulo this. */
  const ULongModulus := 0x1_0000_0000

  /** An `unsigned long`. */
  type ULong = x: int | 0 <= x < ULongModulus

  /** `a + b` in `unsigned long` arithmetic. */
  function AddULong(a: ULong, b: ULong): (r: ULong)
    ensures a + b < ULongModulus ==> r == a + b
    ensures a + b >= ULongModulus ==> r == a + b - ULongModulus
  {
    (a + b) % ULongModulus
  }

  /** The pin setBypassPin drives for a state: the ON pin for On, the OFF pin for anything else. */
  function PinOf(state: DeviceState): (pin: nat)
    ensures pin == BypassOnPin <==> state.On?
    ensures pin == BypassOffPin <==> state.Off?
  {
    if state == On then BypassOnPin else BypassOffPin
  }

  // ---------------------------------------------------------------- the deadline

  /**
   * The comparison processByPassState makes as written: the deadline is strictly
   * before `now`, compared as plain unsigned numbers.
   */
  predicate DueAsWritten(deadline: ULong, now: ULong)
  {
    deadline < now
  }

  /**
   * The comparison the interval evidently intends: `now` is strictly after the
   * deadline, measured as the signed 32-bit difference `now - deadline`,
   * which stays right across the wrap of `millis()`.
   */
  predicate Due(deadline: ULong, now: ULong)
  {
    0 < (now - deadline) % ULongModulus < ULongModulus / 2
  }

  /**
   * With the corrected comparison, a change started at `start` is due exactly
   * when more than the interval has elapsed, wherever `start` lies,
   * for any elapsed time under half the counter's range (about 24 days).
   */
  lemma DueIffElapsed(start: ULong, elapsed: nat)
    requires elapsed < ULongModulus / 2
    ensures Due(AddULong(start, ChangeStateIntervalMs), AddULong(start, elapsed)) <==> elapsed > ChangeStateIntervalMs
  {
    var deadline := AddULong(start, ChangeStateIntervalMs);
    var now := AddULong(start, elapsed);
    var d := elapsed - ChangeStateIntervalMs;
    assert now - deadline == d || now - deadline == d + ULongModulus || now - deadline == d - ULongModulus;
    if d > 0 {
      assert (now - deadline) % ULongModulus == d;
    } else if d == 0 {
      assert (now - deadline) % ULongModulus == 0;
    } else {
      assert (now - deadline) % ULongModulus == d + ULongModulus;
    }
  }

  /**
   * Away from the wrap the code as written agrees with the corrected comparison:
   * when neither the deadline nor `now` has wrapped, it is due exactly when
   * more than the interval has elapsed.
   */
  lemma AsWrittenAgreesWithoutWrap(start: ULong, elapsed: nat)
    requires start + elapsed < ULongModulus && start + ChangeStateIntervalMs < ULongModulus
    ensures DueAsWritten(AddULong(start, ChangeStateIntervalMs), AddULong(start, elapsed)) <==> elapsed > ChangeStateIntervalMs
  {
  }

  /**
   * As written, a change started 5000 ms before `millis()` wraps gets a
   * deadline of 5000 after the wrap, and is taken as due 1 ms after it
   * started, while it is not due by the corrected comparison.
   */
  lemma AsWrittenCommitsEarly()
    ensures var start := ULongModulus - 5000;
            var deadline := AddULong(start, ChangeStateIntervalMs);
            var now := start + 1;
            deadline == 5000 && DueAsWritten(deadline, now) && !Due(deadline, now)
  {
  }

  /**
   * As written, a change started at 4294957295 gets the deadline
   * 4294967295, the largest `unsigned long`: no value of `millis()` is
   * ever above it, so the change never commits. The corrected comparison finds
   * it due 10001 ms after the start.
   */
  lemma AsWrittenNeverCommits()
    ensures var start := ULongModulus - 1 - ChangeStateIntervalMs;
            var deadline := AddULong(start, ChangeStateIntervalMs);
            && deadline == ULongModulus - 1
            && (forall now: ULong :: !DueAsWritten(deadline, now))
            && Due(deadline, AddULong(start, ChangeStateIntervalMs + 1))
  {
  }

  // ---------------------------------------------------------------- the bypass

  class Bypass {
    /** `_bypassState`: the committed state. */
    var bypassState: DeviceState
    /** `_bypassNewState`. */
    var newState: DeviceState
    /** `_bypassStateIsChanging`. */
    var isChanging: bool
    /** `_bypassChangeStateInterval`: the deadline of the change in progress. */
    var changeDeadline: ULong
    /** Whether `_publishData` is not NULL. */
    var hasPublisher: bool
    /** The levels last given to the expander pins BYPASS_OFF_PIN (0) and BYPASS_ON_PIN (1). */
    var pins: seq<bool>
    /** How many times `_publishData(BypassState, false)` was called. */
    var published: nat

    ghost predicate Valid()
      reads this
    {
      |pins| == 2
    }

    /**
     * While a change is in progress only the pin of the new state is
     * energised; otherwise neither is.
     */
    ghost predicate Driving()
      reads this
      requires Valid()
    {
      if isChanging then pins[PinOf(newState)] && !pins[1 - PinOf(newState)] else !pins[0] && !pins[1]
    }

    /** The globals at start-up followed by `init`, with both outputs released. */
    constructor(publisher: bool)
      ensures Valid() && Driving()
      ensures bypassState == Off && newState == Off && !isChanging && changeDeadline == 0
      ensures hasPublisher == publisher && published == 0
    {
      bypassState, newState := Off, Off;
      isChanging := false;
      changeDeadline := 0;
      hasPublisher := publisher;
      pins := [false, false];
      published := 0;
    }

    /** `state()`: the committed state, not the one being changed to. */
    method State() returns (r: DeviceState)
      ensures r == bypassState
    {
      r := bypassState;
    }

    /** `setBypassPin`: the pin of `state`, and only that one, is set to `isEnable`. */
    method SetBypassPin(state: DeviceState, isEnable: bool)
      requires Valid()
      modifies this
      ensures Valid()
      ensures pins == old(pins)[PinOf(state) := isEnable]
      ensures bypassState == old(bypassState) && newState == old(newState) && isChanging == old(isChanging)
      ensures changeDeadline == old(changeDeadline) && hasPublisher == old(hasPublisher) && published == old(published)
    {
      if state == On {
        pins := pins[BypassOnPin := isEnable];
      } else {
        pins := pins[BypassOffPin := isEnable];
      }
    }

    /**
     * `setBypassState`: without `forceState`, nothing happens when `state`
     * is already the committed state or a change is in progress. Otherwise
     * a change to `state` starts: it is recorded, its deadline is `now` plus
     * the interval, and the pin of `state` is energised. The committed
     * state never changes here. A forced change to the other state during
     * a change leaves both pins energised: the pin of the abandoned change
     * is not released.
     */
    method SetBypassState(state: DeviceState, forceState: bool, now: ULong)
      requires Valid()
      modifies this
      ensures Valid()
      ensures bypassState == old(bypassState) && hasPublisher == old(hasPublisher) && published == old(published)
      ensures !forceState && (state == old(bypassState) || old(isChanging)) ==>
                newState == old(newState) && isChanging == old(isChanging)
                && changeDeadline == old(changeDeadline) && pins == old(pins)
      ensures forceState || (state != old(bypassState) && !old(isChanging)) ==>
                newState == state && isChanging
                && changeDeadline == AddULong(now, ChangeStateIntervalMs)
                && pins == old(pins)[PinOf(state) := true]
      ensures old(Driving()) && !(forceState && old(isChanging) && old(newState) != state) ==> Driving()
      ensures old(Driving()) && forceState && old(isChanging) && old(newState) != state ==> pins == [true, true]
    {
      if !forceState {
        if state == bypassState || isChanging {
          return;
        }
      }
      newState := state;
      isChanging := true;
      changeDeadline := AddULong(now, ChangeStateIntervalMs);
      SetBypassPin(newState, true);
    }

    /**
     * `processByPassState`: once the deadline of the change in progress
     * has passed, the new state is committed, its pin is released and the
     * state is published once if a callback is set. Nothing happens
     * otherwise. The deadline is checked with the corrected `Due`.
     */
    method ProcessByPassState(now: ULong)
      requires Valid()
      modifies this
      ensures Valid()
      ensures newState == old(newState) && changeDeadline == old(changeDeadline) && hasPublisher == old(hasPublisher)
      ensures old(isChanging) && Due(old(changeDeadline), now) ==>
                && !isChanging && bypassState == old(newState)
                && pins == old(pins)[PinOf(old(newState)) := false]
                && published == old(published) + (if hasPublisher then 1 else 0)
      ensures !(old(isChanging) && Due(old(changeDeadline), now)) ==>
                isChanging == old(isChanging) && bypassState == old(bypassState)
                && pins == old(pins) && published == old(published)
      ensures old(Driving()) ==> Driving()
    {
      if !isChanging {
        return;
      }
      if Due(changeDeadline, now) {
        isChanging := false;
        bypassState := newState;
        SetBypassPin(newState, false);
        if hasPublisher {
          published := published + 1;
        }
      }
    }
  }
}
