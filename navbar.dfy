/**
 * The navigation bar's visibility controller: it hides the bar while the user
 * scrolls down past a 50-pixel dead zone, shows it on any other scroll and
 * arms a 3000 ms idle timer that hides it again, and keeps it shown while the
 * `#home` section intersects the viewport. It also owns the `menuOpen` flag
 * that opens and closes the overlay menu.
 *
 * Time is not modelled: a timer firing is an event naming the handle that
 * `setTimeout` returned, and it has an effect only while that timer is still
 * scheduled. Each change of `forceVisible` is taken to be committed, with its
 * effect cleanup run, before the next event arrives.
 */
module Navbar {
  import opened Wrappers
  import Overlay

  /** Offsets at or below this many pixels never hide the bar. */
  const DeadZone: real := 50.0

  /** The seven entries handed, in this order, to the overlay menu. */
  function NavItems(): (items: seq<Overlay.Link>)
    ensures |items| == 7
    ensures forall i, j :: 0 <= i < j < |items| ==> items[i].caption != items[j].caption
    ensures forall i :: 0 <= i < |items| ==> |items[i].href| > 1 && items[i].href[0] == '#'
  {
    [ Overlay.Link("Home", "#home"),
      Overlay.Link("About", "#about"),
      Overlay.Link("Founders", "#founders"),
      Overlay.Link("Journey", "#timeline"),
      Overlay.Link("Franchise", "#franchise"),
      Overlay.Link("Gallery", "#gallery"),
      Overlay.Link("Contact", "#contact") ]
  }

  /**
   * The controller's state. `timerID` is the value of the `timerID` ref, with
   * 0 standing for null (browser timer handles are positive); `nextHandle` is
   * the handle the next `setTimeout` returns; `pending` holds the idle-hide
   * timers that are scheduled and neither cancelled nor fired; `attached` says
   * whether the scroll listener and the `#home` observer are attached, that
   * is, whether the component is mounted.
   */
  datatype NavState = NavState(
    menuOpen: bool,
    visible: bool,
    forceVisible: bool,
    lastScrollY: real,
    timerID: nat,
    nextHandle: nat,
    pending: set<nat>,
    attached: bool)

  /**
   * What every reachable state satisfies: the only timer that can be scheduled
   * is the one the ref holds; a forced bar is shown and has no timer; an
   * unmounted controller has no timer.
   */
  predicate Invariant(s: NavState) {
    && TimerInvariant(s)
    && (s.forceVisible ==> s.visible && s.pending == {})
    && (!s.attached ==> s.pending == {})
  }

  /** The timer part of the invariant: only the handle the ref holds can be scheduled. */
  predicate TimerInvariant(s: NavState) {
    && 0 < s.nextHandle
    && s.timerID < s.nextHandle
    && s.pending <= {s.timerID}
    && 0 !in s.pending
  }

  /** At most one idle-hide timer is ever scheduled. */
  lemma AtMostOneTimer(s: NavState)
    requires Invariant(s)
    ensures |s.pending| <= 1
    ensures s.pending != {} ==> s.pending == {s.timerID}
  {
    if s.pending != {} {
      assert s.timerID in s.pending;
      assert s.pending == {s.timerID};
    }
  }

  /** The state right after mount: shown, not forced, offset 0, no timer, menu closed. */
  function Initial(): (s: NavState)
    ensures Invariant(s) && s.attached
    ensures s.visible && !s.forceVisible && s.lastScrollY == 0.0
    ensures s.pending == {} && !s.menuOpen
  {
    NavState(false, true, false, 0.0, 0, 1, {}, true)
  }

  /** Cancel the timer the ref holds, if the ref holds one. */
  function ClearTimer(s: NavState): (r: NavState)
    requires TimerInvariant(s)
    ensures TimerInvariant(r) && r.pending == {}
    ensures r == s.(pending := r.pending)
  {
    if s.timerID != 0 then s.(pending := s.pending - {s.timerID}) else s
  }

  /** Schedule the idle-hide timer under a fresh handle and keep that handle in the ref. */
  function SetTimer(s: NavState): (r: NavState)
    requires Invariant(s) && s.pending == {} && s.attached && !s.forceVisible
    ensures Invariant(r)
    ensures r.pending == {r.timerID} && r.timerID == s.nextHandle && r.nextHandle == s.nextHandle + 1
    ensures r.visible == s.visible && r.lastScrollY == s.lastScrollY && r.menuOpen == s.menuOpen
  {
    s.(timerID := s.nextHandle, nextHandle := s.nextHandle + 1, pending := s.pending + {s.nextHandle})
  }

  /** The scroll handler, given the current `window.scrollY`. */
  function ScrollStep(s: NavState, y: real): (r: NavState)
    requires Invariant(s)
    ensures Invariant(r)
    ensures !s.attached ==> r == s
    ensures r.attached == s.attached && r.forceVisible == s.forceVisible && r.menuOpen == s.menuOpen
    ensures s.attached ==> r.lastScrollY == y
    // Forced: shown, and no timer is armed, cancelled or fired.
    ensures s.attached && s.forceVisible ==>
              r.visible && r.pending == s.pending && r.timerID == s.timerID && r.nextHandle == s.nextHandle
    // Downward past the dead zone: hidden, and no timer left.
    ensures s.attached && !s.forceVisible && y > s.lastScrollY && y > DeadZone ==>
              !r.visible && r.pending == {}
    // Otherwise: shown, every earlier timer cancelled, exactly one fresh timer scheduled.
    ensures s.attached && !s.forceVisible && !(y > s.lastScrollY && y > DeadZone) ==>
              r.visible && r.pending == {r.timerID} && r.timerID == s.nextHandle && s.pending !! r.pending
    // Within the dead zone the bar is always shown.
    ensures s.attached && y <= DeadZone ==> r.visible
  {
    if !s.attached then s
    else if s.forceVisible then s.(visible := true, lastScrollY := y)
    else if y > s.lastScrollY && y > DeadZone then ClearTimer(s).(visible := false, lastScrollY := y)
    else SetTimer(ClearTimer(s).(visible := true)).(lastScrollY := y)
  }

  /**
   * The IntersectionObserver callback for `#home`. A change of `forceVisible`
   * re-runs the scroll effect, whose cleanup cancels the timer.
   */
  function IntersectStep(s: NavState, isIntersecting: bool): (r: NavState)
    requires Invariant(s)
    ensures Invariant(r)
    ensures !s.attached ==> r == s
    ensures r.lastScrollY == s.lastScrollY && r.menuOpen == s.menuOpen && r.attached == s.attached
    ensures s.attached ==> r.forceVisible == isIntersecting
    ensures s.attached && isIntersecting ==> r.visible && r.pending == {}
    ensures !isIntersecting ==> r.visible == s.visible
    ensures s.attached && !isIntersecting && s.forceVisible ==> r.pending == {}
    ensures !isIntersecting && !s.forceVisible ==> r == s
  {
    if !s.attached then s
    else
      var t := s.(forceVisible := isIntersecting, visible := isIntersecting || s.visible);
      if isIntersecting != s.forceVisible then ClearTimer(t) else t
  }

  /** The idle-hide timer with handle `h` fires; a cancelled or spent handle does nothing. */
  function FireStep(s: NavState, h: nat): (r: NavState)
    requires Invariant(s)
    ensures Invariant(r)
    ensures h in s.pending ==> !r.visible && r.pending == {} && r == s.(visible := false, pending := {})
    ensures h !in s.pending ==> r == s
  {
    if h in s.pending then s.(visible := false, pending := s.pending - {h}) else s
  }

  /** Unmount: both effect cleanups run; the listener and observer go and the timer is cancelled. */
  function UnmountStep(s: NavState): (r: NavState)
    requires Invariant(s)
    ensures Invariant(r)
    ensures !r.attached && r.pending == {}
    ensures r.visible == s.visible && r.menuOpen == s.menuOpen && r.lastScrollY == s.lastScrollY
  {
    if s.attached then ClearTimer(s).(attached := false) else s
  }

  /** The events that reach the controller. */
  datatype Event =
    | Scroll(y: real)
    | Intersect(isIntersecting: bool)
    | TimerFires(handle: nat)
    | Hamburger
    | OverlayClick(target: Overlay.Target)
    | Unmount

  /** One event. The hamburger sets `menuOpen`; a click on the overlay runs its callback, `onClose`. */
  function Step(s: NavState, e: Event): (r: NavState)
    requires Invariant(s)
    ensures Invariant(r)
    ensures !s.attached ==> r == s
  {
    match e
    case Scroll(y) => ScrollStep(s, y)
    case Intersect(b) => IntersectStep(s, b)
    case TimerFires(h) => FireStep(s, h)
    case Hamburger => if s.attached then s.(menuOpen := true) else s
    case OverlayClick(t) =>
      if s.attached && Overlay.Click(Overlay.Render(s.menuOpen, NavItems()), t) == Some(Overlay.OnClose)
      then s.(menuOpen := false)
      else s
    case Unmount => UnmountStep(s)
  }

  /** The state after a sequence of events; every reachable state keeps the invariant. */
  function Run(s: NavState, es: seq<Event>): (r: NavState)
    requires Invariant(s)
    ensures Invariant(r)
    decreases |es|
  {
    if es == [] then s else Run(Step(s, es[0]), es[1..])
  }

  /** `visible` after each event of `es`, in order. */
  function Visibilities(s: NavState, es: seq<Event>): (vs: seq<bool>)
    requires Invariant(s)
    ensures |vs| == |es|
    ensures es != [] ==> vs[0] == Step(s, es[0]).visible && vs[|es| - 1] == Run(s, es).visible
    decreases |es|
  {
    if es == [] then []
    else
      var t := Step(s, es[0]);
      assert es[1..] != [] ==> es[1..][|es[1..]| - 1] == es[|es| - 1];
      [t.visible] + Visibilities(t, es[1..])
  }

  /** Entry `i` of `Visibilities` is `visible` after the first `i + 1` events. */
  lemma {:induction false} VisibilityAfterPrefix(s: NavState, es: seq<Event>, i: nat)
    requires Invariant(s) && i < |es|
    ensures Visibilities(s, es)[i] == Run(s, es[..i + 1]).visible
    decreases i
  {
    var t := Step(s, es[0]);
    if i == 0 {
      assert es[..1][1..] == [];
    } else {
      VisibilityAfterPrefix(t, es[1..], i - 1);
      assert es[1..][..i] == es[..i + 1][1..];
    }
  }

  /** Whether event `e` is a timer firing that actually hides the bar. */
  predicate Hides(s: NavState, e: Event) {
    e.TimerFires? && e.handle in s.pending
  }

  /** How many events of `es` are timer firings that take effect. */
  function HideCount(s: NavState, es: seq<Event>): (n: nat)
    requires Invariant(s)
    ensures n <= |es|
    decreases |es|
  {
    if es == [] then 0
    else (if Hides(s, es[0]) then 1 else 0) + HideCount(Step(s, es[0]), es[1..])
  }

  /**
   * While no scroll event arrives, no timer is armed, so however many firings
   * are delivered at most one of them hides the bar: N re-arming scrolls
   * leave one hide behind them, never N.
   */
  lemma {:induction false} QuietPeriodHidesAtMostOnce(s: NavState, es: seq<Event>)
    requires Invariant(s)
    requires forall i :: 0 <= i < |es| ==> !es[i].Scroll?
    ensures HideCount(s, es) <= |s.pending| <= 1
    decreases |es|
  {
    AtMostOneTimer(s);
    if es != [] {
      var t := Step(s, es[0]);
      assert t.pending <= s.pending;
      assert Hides(s, es[0]) ==> t.pending == {} && |s.pending| == 1;
      QuietPeriodHidesAtMostOnce(t, es[1..]);
    }
  }

  /** The firings `hs`, as events. */
  function Fires(hs: seq<nat>): (es: seq<Event>)
    ensures |es| == |hs|
    ensures forall i :: 0 <= i < |hs| ==> es[i] == TimerFires(hs[i])
  {
    if hs == [] then [] else [TimerFires(hs[0])] + Fires(hs[1..])
  }

  /**
   * Once the idle period elapses the scheduled timer fires: the bar is hidden,
   * exactly once, whatever stale handles are delivered around it.
   */
  lemma {:induction false} IdleTimerHidesOnce(s: NavState, hs: seq<nat>)
    requires Invariant(s) && s.pending == {s.timerID}
    requires s.timerID in hs
    ensures HideCount(s, Fires(hs)) == 1
    ensures !Run(s, Fires(hs)).visible && Run(s, Fires(hs)).pending == {}
    decreases |hs|
  {
    var es := Fires(hs);
    assert es[1..] == Fires(hs[1..]);
    var t := Step(s, es[0]);
    if hs[0] == s.timerID {
      assert t.pending == {} && !t.visible;
      QuietAfterHide(t, hs[1..]);
    } else {
      assert t == s;
      IdleTimerHidesOnce(t, hs[1..]);
    }
  }

  /** With no timer scheduled, firings change nothing. */
  lemma {:induction false} QuietAfterHide(s: NavState, hs: seq<nat>)
    requires Invariant(s) && s.pending == {}
    ensures HideCount(s, Fires(hs)) == 0 && Run(s, Fires(hs)) == s
    decreases |hs|
  {
    if hs != [] {
      var es := Fires(hs);
      assert es[1..] == Fires(hs[1..]);
      QuietAfterHide(Step(s, es[0]), hs[1..]);
    }
  }

  /**
   * Forced visibility wins: as long as no "not intersecting" signal arrives,
   * the bar stays shown, no timer is scheduled and none ever hides it.
   */
  lemma {:induction false} ForcedStaysVisible(s: NavState, es: seq<Event>)
    requires Invariant(s) && s.forceVisible
    requires forall i :: 0 <= i < |es| ==> es[i] != Intersect(false)
    ensures Run(s, es).visible && Run(s, es).forceVisible && Run(s, es).pending == {}
    ensures HideCount(s, es) == 0
    decreases |es|
  {
    if es != [] {
      StepKeepsForce(s, es[0]);
      assert forall i :: 0 <= i < |es[1..]| ==> es[1..][i] != Intersect(false) by {
        forall i | 0 <= i < |es[1..]| ensures es[1..][i] != Intersect(false) {
          assert es[1..][i] == es[i + 1];
        }
      }
      ForcedStaysVisible(Step(s, es[0]), es[1..]);
    }
  }

  /** One event other than "not intersecting" keeps a forced bar forced, shown and timer-free. */
  lemma StepKeepsForce(s: NavState, e: Event)
    requires Invariant(s) && s.forceVisible && e != Intersect(false)
    ensures Step(s, e).forceVisible && Step(s, e).visible && Step(s, e).pending == {}
    ensures !Hides(s, e)
  {
  }

  /** After unmount no event changes anything: no listener, no observer, no timer remain. */
  lemma {:induction false} UnmountedIsInert(s: NavState, es: seq<Event>)
    requires Invariant(s) && !s.attached
    ensures Run(s, es) == s
    ensures HideCount(s, es) == 0
    decreases |es|
  {
    if es != [] {
      UnmountedIsInert(Step(s, es[0]), es[1..]);
    }
  }

  /** Scrolling to 0, 10, 80, 40, 80 with `#home` never intersecting shows, shows, hides, shows, hides. */
  lemma ScrollScenario()
    ensures Visibilities(Initial(), [Scroll(0.0), Scroll(10.0), Scroll(80.0), Scroll(40.0), Scroll(80.0)])
            == [true, true, false, true, false]
  {
    var s0 := Initial();
    var s1 := Step(s0, Scroll(0.0));
    var s2 := Step(s1, Scroll(10.0));
    var s3 := Step(s2, Scroll(80.0));
    var s4 := Step(s3, Scroll(40.0));
    var s5 := Step(s4, Scroll(80.0));
    assert s1.visible && s1.lastScrollY == 0.0;
    assert s2.visible && s2.lastScrollY == 10.0;
    assert !s3.visible && s3.lastScrollY == 80.0;
    assert s4.visible && s4.lastScrollY == 40.0;
    assert !s5.visible;
    var es := [Scroll(0.0), Scroll(10.0), Scroll(80.0), Scroll(40.0), Scroll(80.0)];
    assert es[1..] == [Scroll(10.0), Scroll(80.0), Scroll(40.0), Scroll(80.0)];
    assert es[1..][1..] == [Scroll(80.0), Scroll(40.0), Scroll(80.0)];
    assert es[1..][1..][1..] == [Scroll(40.0), Scroll(80.0)];
    assert es[1..][1..][1..][1..] == [Scroll(80.0)];
  }

  /**
   * When `#home` stops intersecting nothing re-evaluates the scroll rules: a
   * jump to 500 while forced leaves the bar shown after the intersection ends.
   */
  lemma IntersectionEndKeepsBar()
    ensures Run(Initial(), [Intersect(true), Scroll(500.0), Intersect(false)]).visible
    ensures !Run(Initial(), [Intersect(true), Scroll(500.0), Intersect(false)]).forceVisible
    ensures Run(Initial(), [Intersect(true), Scroll(500.0), Intersect(false)]).lastScrollY == 500.0
  {
    var es := [Intersect(true), Scroll(500.0), Intersect(false)];
    assert es[1..] == [Scroll(500.0), Intersect(false)];
    assert es[1..][1..] == [Intersect(false)];
  }

  /** The hamburger opens the menu, a second press changes nothing, and every overlay control closes it. */
  lemma MenuToggle(s: NavState, t: Overlay.Target)
    requires Invariant(s) && s.attached
    requires t.LinkAt? ==> t.index < |NavItems()|
    ensures Step(s, Hamburger).menuOpen
    ensures Step(Step(s, Hamburger), Hamburger) == Step(s, Hamburger)
    ensures !Step(Step(s, Hamburger), OverlayClick(t)).menuOpen
  {
    Overlay.EveryControlCloses(NavItems(), t);
  }

  /**
   * Closing through any overlay control also releases the scroll lock once the
   * overlay re-renders with the new `isOpen`.
   */
  lemma OverlayCloseReleasesLock(s: NavState, p: Overlay.Page, t: Overlay.Target)
    requires Invariant(s) && s.attached && s.menuOpen
    requires p.menu == Overlay.Mounted(s.menuOpen) && Overlay.LockMatchesMenu(p)
    requires t.LinkAt? ==> t.index < |NavItems()|
    ensures !Step(s, OverlayClick(t)).menuOpen
    ensures !Overlay.ScrollLocked(Overlay.RerenderMenu(p, Step(s, OverlayClick(t)).menuOpen))
  {
    Overlay.EveryControlCloses(NavItems(), t);
  }

  /** The component's refs and state, updated in place by its handlers. */
  class Controller {
    var menuOpen: bool
    var visible: bool
    var forceVisible: bool
    var lastScrollY: real
    var timerID: nat
    var nextHandle: nat
    var pending: set<nat>
    var attached: bool

    function State(): NavState
      reads this
    {
      NavState(menuOpen, visible, forceVisible, lastScrollY, timerID, nextHandle, pending, attached)
    }

    predicate Valid()
      reads this
    {
      Invariant(State())
    }

    /** Whether an idle-hide timer is scheduled. */
    function TimerPending(): (b: bool)
      reads this
      requires Valid()
      ensures b <==> pending == {timerID}
    {
      AtMostOneTimer(State());
      pending != {}
    }

    /** Mount: the initial state, with the listener and observer attached. */
    constructor ()
      ensures Valid() && State() == Initial()
    {
      menuOpen, visible, forceVisible := false, true, false;
      lastScrollY, timerID, nextHandle := 0.0, 0, 1;
      pending, attached := {}, true;
    }

    /** Cancels the timer the ref holds, when it holds one. */
    method ClearTimeout()
      requires TimerInvariant(State())
      modifies this`pending
      ensures State() == ClearTimer(old(State()))
    {
      if timerID != 0 {
        pending := pending - {timerID};
      }
    }

    /** Schedules the idle-hide timer under a fresh handle and stores that handle in the ref. */
    method SetTimeout()
      requires Valid() && pending == {} && attached && !forceVisible
      modifies this`timerID, this`nextHandle, this`pending
      ensures Valid() && State() == SetTimer(old(State()))
    {
      timerID := nextHandle;
      nextHandle := nextHandle + 1;
      pending := pending + {timerID};
    }

    method OnScroll(y: real)
      requires Valid()
      modifies this
      ensures Valid() && State() == ScrollStep(old(State()), y)
    {
      if !attached {
        return;
      }
      if forceVisible {
        visible := true;
        lastScrollY := y;
        return;
      }
      if y > lastScrollY && y > DeadZone {
        visible := false;
        ClearTimeout();
      } else {
        visible := true;
        ClearTimeout();
        SetTimeout();
      }
      lastScrollY := y;
    }

    method OnIntersect(isIntersecting: bool)
      requires Valid()
      modifies this
      ensures Valid() && State() == IntersectStep(old(State()), isIntersecting)
    {
      if !attached {
        return;
      }
      var changed := isIntersecting != forceVisible;
      if isIntersecting {
        forceVisible := true;
        visible := true;
      } else {
        forceVisible := false;
      }
      if changed {
        // The scroll effect depends on forceVisible: its cleanup removes the
        // listener and cancels the timer, and the effect attaches it again.
        ClearTimeout();
      }
    }

    /** The timer with handle `h` fires; `fired` says whether it was still scheduled. */
    method FireTimer(h: nat) returns (fired: bool)
      requires Valid()
      modifies this
      ensures Valid() && State() == FireStep(old(State()), h)
      ensures fired <==> h in old(pending)
    {
      fired := h in pending;
      if fired {
        visible := false;
        pending := pending - {h};
      }
    }

    /** The hamburger button. */
    method OpenMenu()
      requires Valid()
      modifies this
      ensures Valid() && State() == Step(old(State()), Hamburger)
    {
      if attached {
        menuOpen := true;
      }
    }

    /** The `onClose` callback handed to the overlay menu. */
    method CloseMenu()
      requires Valid()
      modifies this
      ensures Valid() && State() == old(State()).(menuOpen := if attached then false else old(menuOpen))
    {
      if attached {
        menuOpen := false;
      }
    }

    method Unmount()
      requires Valid()
      modifies this
      ensures Valid() && State() == UnmountStep(old(State()))
    {
      if attached {
        ClearTimeout();
        attached := false;
      }
    }
  }
}
