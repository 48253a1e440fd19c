/**
 * The full-screen overlay menu: the link list it renders while open, the
 * controls that call the parent's `onClose`, and the effect that locks page
 * scrolling through the global `document.body.style.overflow`.
 */
module Overlay {
  import opened Wrappers

  /** One entry of the `links` prop: its `label` (here `caption`) and its `href`. */
  datatype Link = Link(caption: string, href: string)

  /** The only callback the overlay's controls invoke: the parent's `onClose`. */
  datatype Callback = OnClose

  /** A rendered link: its React key, its target, its visible text and its click handler. */
  datatype Anchor = Anchor(key: string, href: string, text: string, onClick: Callback)

  /** What the overlay renders while open: the close button and one anchor per link. */
  datatype Surface = Surface(closeButton: Callback, anchors: seq<Anchor>)

  /** Something the user can activate on the surface. */
  datatype Target = CloseButton | LinkAt(index: nat)

  /** The rendered links: one anchor per link, keyed and captioned by the link's `label`. */
  function Anchors(links: seq<Link>): (r: seq<Anchor>)
    ensures |r| == |links|
    ensures forall i :: 0 <= i < |links| ==>
              r[i].key == links[i].caption && r[i].text == links[i].caption &&
              r[i].href == links[i].href && r[i].onClick == OnClose
  {
    if links == [] then []
    else [Anchor(links[0].caption, links[0].href, links[0].caption, OnClose)] + Anchors(links[1..])
  }

  /** The component's output: nothing while closed, the surface while open. */
  function Render(isOpen: bool, links: seq<Link>): (r: Option<Surface>)
    ensures r.Some? <==> isOpen
    ensures r.Some? ==> r.value.closeButton == OnClose && |r.value.anchors| == |links|
    ensures r.Some? ==> forall i :: 0 <= i < |links| ==>
              r.value.anchors[i].href == links[i].href && r.value.anchors[i].text == links[i].caption &&
              r.value.anchors[i].onClick == OnClose
  {
    if isOpen then Some(Surface(OnClose, Anchors(links))) else None
  }

  /** The callback a click on `t` invokes, if `t` is on screen. */
  function Click(surface: Option<Surface>, t: Target): (r: Option<Callback>)
    ensures r.Some? <==> surface.Some? && (t.LinkAt? ==> t.index < |surface.value.anchors|)
  {
    match surface
    case None => None
    case Some(s) =>
      match t
      case CloseButton => Some(s.closeButton)
      case LinkAt(i) => if i < |s.anchors| then Some(s.anchors[i].onClick) else None
  }

  /** Every control of an open menu, the close button and each link, calls `onClose`. */
  lemma EveryControlCloses(links: seq<Link>, t: Target)
    requires t.LinkAt? ==> t.index < |links|
    ensures Click(Render(true, links), t) == Some(OnClose)
  {
  }

  /** A closed menu renders nothing, so nothing on it can be clicked. */
  lemma ClosedMenuHasNoControls(links: seq<Link>, t: Target)
    ensures Click(Render(false, links), t) == None
  {
  }

  // ---------------------------------------------------------------------------
  // The scroll lock

  /** Values of `document.body.style.overflow`; `Default` is whatever the page had before any write. */
  datatype Overflow = Default | Hidden | Unset

  /** Whether the menu component is mounted, and with which `isOpen`. */
  datatype Phase = Unmounted | Mounted(isOpen: bool)

  /** The global body style together with the menu's lifecycle. */
  datatype Page = Page(overflow: Overflow, menu: Phase)

  predicate ScrollLocked(p: Page) {
    p.overflow == Hidden
  }

  /** The invariant the effect maintains: page scrolling is locked iff the menu is mounted and open. */
  predicate LockMatchesMenu(p: Page) {
    ScrollLocked(p) <==> p.menu == Mounted(true)
  }

  /** The body of the `[isOpen]` effect. */
  function Effect(isOpen: bool): (ov: Overflow)
    ensures ov == Hidden <==> isOpen
    ensures ov != Default
  {
    if isOpen then Hidden else Unset
  }

  /** The effect's cleanup: whatever the value was, it writes "unset". */
  function Cleanup(ov: Overflow): (r: Overflow)
    ensures r != Hidden && r != Default
  {
    Unset
  }

  /** First render: the effect runs once with the initial `isOpen`. */
  function MountMenu(p: Page, isOpen: bool): (r: Page)
    ensures p.menu.Unmounted? ==> r.menu == Mounted(isOpen) && LockMatchesMenu(r)
    ensures p.menu.Mounted? ==> r == p
  {
    if p.menu.Unmounted? then Page(Effect(isOpen), Mounted(isOpen)) else p
  }

  /**
   * A re-render with a new `isOpen`: the effect depends on `isOpen` only, so
   * when the value changed React runs the old cleanup and then the effect.
   */
  function RerenderMenu(p: Page, isOpen: bool): (r: Page)
    ensures p.menu.Mounted? ==> r.menu == Mounted(isOpen)
    ensures p.menu.Mounted? && p.menu.isOpen != isOpen ==> LockMatchesMenu(r)
    ensures LockMatchesMenu(p) ==> LockMatchesMenu(r)
    ensures p.menu.Unmounted? ==> r == p
  {
    match p.menu
    case Unmounted => p
    case Mounted(was) => if was == isOpen then p else Page(Effect(isOpen), Mounted(isOpen))
  }

  /** Teardown: the last cleanup runs, so the lock is released whether the menu was open or not. */
  function UnmountMenu(p: Page): (r: Page)
    ensures p.menu.Mounted? ==> !ScrollLocked(r) && r.overflow == Unset && r.menu.Unmounted?
    ensures LockMatchesMenu(p) ==> LockMatchesMenu(r)
  {
    if p.menu.Mounted? then Page(Cleanup(p.overflow), Unmounted) else p
  }

  datatype MenuEvent = MountWith(isOpen: bool) | PropsChange(isOpen: bool) | Teardown

  function MenuStep(p: Page, e: MenuEvent): (r: Page)
    ensures LockMatchesMenu(p) ==> LockMatchesMenu(r)
  {
    match e
    case MountWith(o) => MountMenu(p, o)
    case PropsChange(o) => RerenderMenu(p, o)
    case Teardown => UnmountMenu(p)
  }

  /** The page after a sequence of lifecycle events; the lock invariant survives any of them. */
  function MenuRun(p: Page, es: seq<MenuEvent>): (r: Page)
    ensures LockMatchesMenu(p) ==> LockMatchesMenu(r)
    decreases |es|
  {
    if es == [] then p else MenuRun(MenuStep(p, es[0]), es[1..])
  }

  /** The events of a mounted menu receiving the `isOpen` values `opens`, one re-render each. */
  function PropsChanges(opens: seq<bool>): (es: seq<MenuEvent>)
    ensures |es| == |opens|
    ensures forall i :: 0 <= i < |opens| ==> es[i] == PropsChange(opens[i])
  {
    if opens == [] then [] else [PropsChange(opens[0])] + PropsChanges(opens[1..])
  }

  /**
   * For any sequence of `isOpen` values given to a mounted menu, the page is
   * locked iff the latest value is true.
   */
  lemma {:induction false} LockFollowsLatest(p: Page, opens: seq<bool>)
    requires p.menu.Mounted? && LockMatchesMenu(p)
    ensures MenuRun(p, PropsChanges(opens)).menu.Mounted?
    ensures ScrollLocked(MenuRun(p, PropsChanges(opens))) <==>
            (if opens == [] then p.menu.isOpen else opens[|opens| - 1])
    decreases |opens|
  {
    if opens != [] {
      var es := PropsChanges(opens);
      var q := MenuStep(p, es[0]);
      assert es[1..] == PropsChanges(opens[1..]);
      LockFollowsLatest(q, opens[1..]);
    }
  }

  /** From a page nobody has touched: mount with `first`, feed `opens`, then tear down; the lock is gone. */
  lemma MenuLifecycleReleasesLock(first: bool, opens: seq<bool>)
    ensures ScrollLocked(MenuRun(Page(Default, Unmounted), [MountWith(first)] + PropsChanges(opens))) <==>
            (if opens == [] then first else opens[|opens| - 1])
    ensures !ScrollLocked(UnmountMenu(MenuRun(Page(Default, Unmounted), [MountWith(first)] + PropsChanges(opens))))
  {
    var es := [MountWith(first)] + PropsChanges(opens);
    var p := MountMenu(Page(Default, Unmounted), first);
    assert es[1..] == PropsChanges(opens);
    assert MenuRun(Page(Default, Unmounted), es) == MenuRun(p, PropsChanges(opens));
    LockFollowsLatest(p, opens);
  }

  // ---------------------------------------------------------------------------
  // The component as the browser sees it: one global body, one mounted menu.

  /** `document.body`: shared by the whole page, written only by the overlay menu. */
  class Body {
    var overflow: Overflow

    constructor ()
      ensures overflow == Default
    {
      overflow := Default;
    }
  }

  class OverlayMenu {
    const body: Body
    var isOpen: bool
    var mounted: bool

    /** The page as this menu and the global body describe it. */
    function View(): Page
      reads this, body
    {
      Page(body.overflow, if mounted then Mounted(isOpen) else Unmounted)
    }

    /** Mounting runs the effect for the initial `isOpen`. */
    constructor (body: Body, isOpen: bool)
      modifies body
      ensures this.body == body && mounted && this.isOpen == isOpen
      ensures View() == MountMenu(Page(old(body.overflow), Unmounted), isOpen)
      ensures LockMatchesMenu(View())
    {
      this.body := body;
      this.isOpen := isOpen;
      this.mounted := true;
      new;
      RunEffect();
    }

    /** The effect keyed on `isOpen`. */
    method RunEffect()
      modifies body
      ensures body.overflow == Effect(isOpen)
    {
      if isOpen {
        body.overflow := Hidden;
      } else {
        body.overflow := Unset;
      }
    }

    /** The cleanup the effect returns. */
    method RunCleanup()
      modifies body
      ensures body.overflow == Unset
    {
      body.overflow := Unset;
    }

    /** The parent re-renders the menu with a new `isOpen` prop. */
    method SetOpen(open: bool)
      modifies this, body
      ensures View() == RerenderMenu(old(View()), open)
    {
      if mounted && isOpen != open {
        RunCleanup();
        isOpen := open;
        RunEffect();
      }
    }

    /** The parent removes the menu: the pending cleanup runs. */
    method Unmount()
      modifies this, body
      ensures View() == UnmountMenu(old(View()))
    {
      if mounted {
        RunCleanup();
        mounted := false;
      }
    }
  }
}
