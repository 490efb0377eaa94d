/**
 * `addMapLock`: a map starts locked behind an overlay (all four interactions
 * off). A click on the overlay hides it and turns dragging, touch zoom and
 * double-click zoom back on, but not scroll-wheel zoom, and schedules a
 * timer; when a timer expires the overlay comes back and all four
 * interactions are turned off again. Timers are explicit events here.
 */
module MapLock {
  import opened RoutedMap

  /** The four interaction flags, whether the overlay is hidden, and how many timers are pending. */
  datatype LockState = LockState(
    dragging: bool, touchZoom: bool, doubleClickZoom: bool, scrollWheelZoom: bool,
    overlayHidden: bool, pendingTimers: nat)

  datatype LockEvent = OverlayClick | TimerExpired

  /** All four interactions off and the overlay shown. */
  function Locked(pendingTimers: nat): LockState {
    LockState(false, false, false, false, false, pendingTimers)
  }

  /** The effect of one event; a timer can only expire if one is pending. */
  function Step(s: LockState, e: LockEvent): LockState {
    match e
    case OverlayClick =>
      s.(overlayHidden := true, dragging := true, touchZoom := true, doubleClickZoom := true,
         pendingTimers := s.pendingTimers + 1)
    case TimerExpired =>
      if s.pendingTimers == 0 then s else Locked(s.pendingTimers - 1)
  }

  function Run(s: LockState, events: seq<LockEvent>): LockState
    decreases |events|
  {
    if events == [] then s else Run(Step(s, events[0]), events[1..])
  }

  /**
   * What every reachable state satisfies: scroll-wheel zoom is off, the
   * other three interactions are on exactly while the overlay is hidden,
   * and the overlay is hidden only while a timer is pending.
   */
  predicate Invariant(s: LockState) {
    !s.scrollWheelZoom &&
    s.dragging == s.overlayHidden && s.touchZoom == s.overlayHidden &&
    s.doubleClickZoom == s.overlayHidden &&
    (s.overlayHidden ==> s.pendingTimers > 0)
  }

  /** A click turns three interactions on and leaves scroll-wheel zoom as it was. */
  lemma ClickAsymmetry(s: LockState)
    ensures var t := Step(s, OverlayClick);
      t.overlayHidden && t.dragging && t.touchZoom && t.doubleClickZoom &&
      t.scrollWheelZoom == s.scrollWheelZoom && t.pendingTimers == s.pendingTimers + 1
  {
  }

  /**
   * Any expiring timer locks the map again and retires itself; when it was
   * the last one, the map is locked as after `addMapLock`.
   */
  lemma TimerRelocks(s: LockState)
    requires s.pendingTimers > 0
    ensures Step(s, TimerExpired) == Locked(s.pendingTimers - 1)
    ensures s.pendingTimers == 1 ==> Step(s, TimerExpired) == Locked(0)
  {
  }

  lemma {:induction false} RunKeepsInvariant(s: LockState, events: seq<LockEvent>)
    requires Invariant(s)
    ensures Invariant(Run(s, events))
    decreases |events|
  {
    if events != [] {
      RunKeepsInvariant(Step(s, events[0]), events[1..]);
    }
  }

  /** Whatever the user does after `addMapLock`, scroll-wheel zoom is never turned on. */
  lemma ScrollWheelStaysOff(events: seq<LockEvent>)
    ensures !Run(Locked(0), events).scrollWheelZoom
    ensures var t := Run(Locked(0), events);
      t.dragging == t.overlayHidden && (t.overlayHidden ==> t.pendingTimers > 0)
  {
    RunKeepsInvariant(Locked(0), events);
  }

  lemma {:induction false} RunAppend(s: LockState, a: seq<LockEvent>, b: seq<LockEvent>)
    ensures Run(s, a + b) == Run(Run(s, a), b)
    decreases |a|
  {
    if a == [] {
      assert a + b == b;
    } else {
      RunAppend(Step(s, a[0]), a[1..], b);
      assert (a + b)[1..] == a[1..] + b;
    }
  }

  /** A click followed by the expiry of the timer it scheduled brings back the locked map. */
  lemma ClickThenTimer(events: seq<LockEvent>)
    requires Run(Locked(0), events).pendingTimers == 0
    ensures Run(Locked(0), events + [OverlayClick, TimerExpired]) == Locked(0)
  {
    RunKeepsInvariant(Locked(0), events);
    RunAppend(Locked(0), events, [OverlayClick, TimerExpired]);
  }

  /** The lock installed on one map, with the overlay element and its pending timers. */
  class MapLock {
    const target: LeafletMap
    var overlayHidden: bool
    var pendingTimers: nat

    ghost function State(): LockState
      reads this, target
    {
      LockState(target.dragging, target.touchZoom, target.doubleClickZoom, target.scrollWheelZoom,
                overlayHidden, pendingTimers)
    }

    constructor (target: LeafletMap)
      ensures this.target == target && !overlayHidden && pendingTimers == 0
    {
      this.target := target;
      overlayHidden := false;
      pendingTimers := 0;
    }

    /** Turns all four interactions off. */
    method DisableInteractions()
      modifies target`dragging, target`touchZoom, target`doubleClickZoom, target`scrollWheelZoom
      ensures !target.dragging && !target.touchZoom && !target.doubleClickZoom && !target.scrollWheelZoom
    {
      target.dragging := false;
      target.touchZoom := false;
      target.doubleClickZoom := false;
      target.scrollWheelZoom := false;
    }

    /** The overlay's click handler; it also schedules one timer. */
    method OnOverlayClick()
      modifies this, target`dragging, target`touchZoom, target`doubleClickZoom
      ensures State() == Step(old(State()), OverlayClick)
    {
      overlayHidden := true;
      target.dragging := true;
      target.touchZoom := true;
      target.doubleClickZoom := true;
      pendingTimers := pendingTimers + 1;
    }

    /** The timer callback scheduled by a click. */
    method OnTimerExpired()
      requires pendingTimers > 0
      modifies this, target`dragging, target`touchZoom, target`doubleClickZoom, target`scrollWheelZoom
      ensures State() == Step(old(State()), TimerExpired)
    {
      overlayHidden := false;
      DisableInteractions();
      pendingTimers := pendingTimers - 1;
    }
  }

  /** `addMapLock`: nothing for a missing map; otherwise the map ends up locked. */
  method AddMapLock(target: LeafletMap?) returns (lock: MapLock?)
    modifies target
    ensures target == null ==> lock == null
    ensures target != null ==>
      lock != null && fresh(lock) && lock.target == target && lock.State() == Locked(0) &&
      target.markers == old(target.markers) && target.lines == old(target.lines) &&
      target.framedBounds == old(target.framedBounds)
  {
    if target == null {
      return null;
    }
    lock := new MapLock(target);
    lock.DisableInteractions();
  }
}
