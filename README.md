# Kulhad Cafeteria site: navigation, overlay menu and gallery

This project models the three interactive components of the Kulhad Cafeteria
single-page site. Everything else on the site is static content and animation.

- **Navbar** (`navbar.dfy`, module `Navbar`) is the scroll-visibility controller.
  - Scrolling down past a 50-pixel dead zone hides the bar.
  - Any other scroll while the bar is not forced visible shows it. It also
    cancels the idle timer and arms a fresh 3000 ms timer that hides the bar
    again. A scroll while the bar is forced visible shows it and arms nothing.
  - Scroll offsets are real numbers, as `window.scrollY` may be fractional.
  - While the `#home` section intersects the viewport, the bar is forced visible.
  - The module also holds the `menuOpen` flag and the seven navigation items.
  - The pure functions `ScrollStep`, `IntersectStep`, `FireStep`, `UnmountStep`,
    `Step` and `Run` specify the transitions. The class `Controller` holds the
    component's state and refs, and its methods update them in place.
    `OnScroll`, `OnIntersect`, `FireTimer`, `OpenMenu` and `Unmount` are proved
    equal to `ScrollStep`, `IntersectStep`, `FireStep`, `Step` (for the
    hamburger) and `UnmountStep`. `ClearTimeout` and `SetTimeout` are proved
    equal to the helpers `ClearTimer` and `SetTimer`. `CloseMenu` states its
    new state directly: `menuOpen` is cleared while mounted and nothing else
    changes.
- **OverlayMenu** (`overlay.dfy`, module `Overlay`) is the full-screen menu.
  - While open, it renders a close button and one link per navigation item.
    Every one of these controls calls `onClose`.
  - An effect keyed on `isOpen` writes the global `document.body.style.overflow`.
    The class `Body` models that global object, and the class `OverlayMenu`
    models the component's effect runs.
  - The proved invariant: page scrolling is locked iff the menu is mounted and
    open. Teardown always releases the lock.
- **Gallery** (`gallery.dfy`, module `Gallery`) is the image gallery.
  - It filters a fixed list of eight images by the active category. `"All"`
    switches filtering off.
  - A lightbox shows the selected image. A backdrop, Close or Contact Us click
    clears the selection. A click on the content panel keeps it, because the
    panel stops propagation.

`wrappers.dfy` defines the `Option` type that the other modules use.

Time is not modelled. A timer firing is an event that names the handle
`setTimeout` returned, and it has an effect only while that timer is still
scheduled. Timers are tracked as the set `pending` of scheduled handles. So
"at most one idle timer" is an invariant proved from the cancel-before-rearm
code, not a fact built into the representation.

Behaviour of the code that is easy to get wrong:

- The scroll scenario 0, 10, 80, 40, 80 ends with the bar hidden. The last step
  is a downward scroll from 40 to 80, past the dead zone
  (src/components/Navbar.jsx:62-64; `Navbar.ScrollScenario`).
- When `#home` stops intersecting, only `forceVisible` is cleared. Nothing
  re-evaluates the scroll rules, so the bar stays as it was
  (src/components/Navbar.jsx:35-37; `Navbar.IntersectionEndKeepsBar`).
- The idle timer's callback does not check `forceVisible`
  (src/components/Navbar.jsx:71-73). It is the effect cleanup that cancels the
  timer whenever `forceVisible` changes (src/components/Navbar.jsx:81-85).
- The overlay menu has no outside-click close: only its close button and its
  links call `onClose` (src/components/OverlayMenu.jsx:88-124). Only the
  gallery lightbox has a backdrop close (src/components/Gallery.jsx:228).

## Model

| member | source | states |
|---|---|---|
| Navbar.NavItems | src/components/Navbar.jsx:15-23 | seven items, in order; labels (the overlay's React keys) are distinct; every href is an in-page anchor |
| Navbar.Initial | src/components/Navbar.jsx:8-13 | initial state: visible, not forced, lastScrollY 0, no timer, menu closed, invariant holds |
| Navbar.AtMostOneTimer | src/components/Navbar.jsx:64-73 | in every reachable state at most one idle timer is scheduled, and it is the one the `timerID` ref holds |
| Navbar.ClearTimer | src/components/Navbar.jsx:70 | clearing the ref's timer leaves no timer scheduled and changes nothing else |
| Navbar.SetTimer | src/components/Navbar.jsx:71-73 | arming schedules exactly one timer under a fresh handle |
| Navbar.ScrollStep | src/components/Navbar.jsx:51-77 | forced: shown, offset recorded, no timer armed or cancelled; down past 50 px: hidden, no timer left; otherwise: shown, earlier timers cancelled, one fresh timer; within 50 px always shown; invariant kept |
| Navbar.IntersectStep | src/components/Navbar.jsx:30-38 | intersecting: forced and shown, no timer; not intersecting: forced cleared, `visible` and `lastScrollY` unchanged; a change of forced cancels the timer |
| Navbar.FireStep | src/components/Navbar.jsx:71-73 | a scheduled timer hides the bar and leaves none scheduled; a cancelled or spent handle changes nothing |
| Navbar.UnmountStep | src/components/Navbar.jsx:81-84 | unmount detaches the listener and observer and leaves no timer |
| Navbar.Step | src/components/Navbar.jsx:26-85 | every event keeps the invariant (forced implies shown and timer-free; at most one timer); an unmounted controller ignores every event |
| Navbar.Run | src/components/Navbar.jsx:26-85 | every state reachable by any event sequence keeps the invariant |
| Navbar.Visibilities | src/components/Navbar.jsx:111 | one `visible` value per event, the last one that of the final state |
| Navbar.VisibilityAfterPrefix | src/components/Navbar.jsx:111 | entry `i` is the `visible` the bar has after the first `i + 1` events, for every `i` |
| Navbar.QuietPeriodHidesAtMostOnce | src/components/Navbar.jsx:64-73 | with no scroll in between, any number of timer firings hide the bar at most once: N re-arming scrolls yield one hide |
| Navbar.IdleTimerHidesOnce | src/components/Navbar.jsx:71-73 | when the scheduled timer fires the bar is hidden exactly once, whatever stale handles arrive around it |
| Navbar.QuietAfterHide | src/components/Navbar.jsx:71-73 | with no timer scheduled, firings change nothing |
| Navbar.StepKeepsForce | src/components/Navbar.jsx:55-58 | any event but "not intersecting" keeps a forced bar forced, shown and timer-free |
| Navbar.ForcedStaysVisible | src/components/Navbar.jsx:32-58 | until a "not intersecting" signal, a forced bar stays shown whatever scroll, timer or menu events arrive, and no timer hides it |
| Navbar.UnmountedIsInert | src/components/Navbar.jsx:81-84 | after unmount no event sequence changes the state or fires a timer |
| Navbar.ScrollScenario | src/components/Navbar.jsx:62-76 | offsets 0, 10, 80, 40, 80 without intersection give visible true, true, false, true, false |
| Navbar.IntersectionEndKeepsBar | src/components/Navbar.jsx:35-37 | intersecting, then a jump to 500, then intersection end: the bar stays shown, the offset is 500, forced is cleared |
| Navbar.MenuToggle | src/components/Navbar.jsx:134-179 | the hamburger opens the menu and is idempotent; the overlay's close button or any link closes it |
| Navbar.OverlayCloseReleasesLock | src/components/Navbar.jsx:175-179 | closing through any overlay control closes the menu and releases the scroll lock at the next render |
| Navbar.Controller.TimerPending | src/components/Navbar.jsx:13 | a timer is pending iff the timer the ref holds is the scheduled one |
| Navbar.Controller.constructor | src/components/Navbar.jsx:8-13 | the fields start in the initial state |
| Navbar.Controller.ClearTimeout | src/components/Navbar.jsx:64 | in place: equals `ClearTimer` of the old state |
| Navbar.Controller.SetTimeout | src/components/Navbar.jsx:71-73 | in place: equals `SetTimer` of the old state |
| Navbar.Controller.OnScroll | src/components/Navbar.jsx:51-77 | in place: equals `ScrollStep` of the old state; invariant kept |
| Navbar.Controller.OnIntersect | src/components/Navbar.jsx:30-38 | in place: equals `IntersectStep` of the old state; invariant kept |
| Navbar.Controller.FireTimer | src/components/Navbar.jsx:71-73 | in place: equals `FireStep`; reports whether the handle was still scheduled |
| Navbar.Controller.OpenMenu | src/components/Navbar.jsx:136 | sets `menuOpen` while mounted |
| Navbar.Controller.CloseMenu | src/components/Navbar.jsx:177 | clears `menuOpen` while mounted and changes nothing else |
| Navbar.Controller.Unmount | src/components/Navbar.jsx:81-84 | in place: equals `UnmountStep` |
| Overlay.Anchors | src/components/OverlayMenu.jsx:120-133 | one anchor per link, in order, each with its link's href, label as key and text, and `onClose` as handler |
| Overlay.Render | src/components/OverlayMenu.jsx:79-133 | the surface exists iff `isOpen`; then the close button calls `onClose` and the anchors follow the links in order |
| Overlay.Click | src/components/OverlayMenu.jsx:88-124 | a click runs a callback iff the menu is open and the target is on screen |
| Overlay.EveryControlCloses | src/components/OverlayMenu.jsx:90-124 | on an open menu the close button and every link invoke `onClose` |
| Overlay.ClosedMenuHasNoControls | src/components/OverlayMenu.jsx:79 | a closed menu has nothing to click |
| Overlay.Effect | src/components/OverlayMenu.jsx:7-13 | the effect locks scrolling iff `isOpen` |
| Overlay.Cleanup | src/components/OverlayMenu.jsx:15-17 | the cleanup always unlocks |
| Overlay.MountMenu | src/components/OverlayMenu.jsx:7-18 | mounting records `isOpen` and makes the lock match it |
| Overlay.RerenderMenu | src/components/OverlayMenu.jsx:7-18 | a changed `isOpen` runs cleanup then effect, so the lock matches the new value; the lock invariant is kept |
| Overlay.UnmountMenu | src/components/OverlayMenu.jsx:15-17 | unmounting while open or closed leaves overflow "unset" |
| Overlay.MenuStep | src/components/OverlayMenu.jsx:7-18 | every lifecycle event keeps "locked iff mounted and open" |
| Overlay.MenuRun | src/components/OverlayMenu.jsx:7-18 | any sequence of lifecycle events keeps "locked iff mounted and open" |
| Overlay.LockFollowsLatest | src/components/OverlayMenu.jsx:7-18 | for any sequence of `isOpen` values, the page is locked iff the latest value is true |
| Overlay.MenuLifecycleReleasesLock | src/components/OverlayMenu.jsx:7-18 | from an untouched page: mount, any prop changes, then the lock matches the latest value; teardown releases it |
| Overlay.Body.constructor | src/components/OverlayMenu.jsx:9-11 | the page's body starts with the overflow it had before any write by the menu |
| Overlay.OverlayMenu.constructor | src/components/OverlayMenu.jsx:7-13 | mounting writes the body overflow for the initial `isOpen` |
| Overlay.OverlayMenu.RunEffect | src/components/OverlayMenu.jsx:8-12 | writes "hidden" when open, "unset" when closed |
| Overlay.OverlayMenu.RunCleanup | src/components/OverlayMenu.jsx:15-17 | writes "unset" |
| Overlay.OverlayMenu.SetOpen | src/components/OverlayMenu.jsx:7-18 | in place: equals `RerenderMenu` of the old page |
| Overlay.OverlayMenu.Unmount | src/components/OverlayMenu.jsx:15-17 | in place: equals `UnmountMenu` of the old page |
| Gallery.Images | src/components/Gallery.jsx:18-67 | eight images whose ids, the tiles' keys, are 1 to 8 in order |
| Gallery.Categories | src/components/Gallery.jsx:69 | five distinct buttons, the first being "All" |
| Gallery.ImageCategories | src/components/Gallery.jsx:69 | the image categories are the buttons after "All" |
| Gallery.SubsequenceNotLonger | src/components/Gallery.jsx:75 | a subsequence is never longer than its source |
| Gallery.FilterByCategory | src/components/Gallery.jsx:75 | the result holds exactly the images of the category and is a subsequence of `images`, so the order is kept |
| Gallery.FilterKeepsEveryMatch | src/components/Gallery.jsx:75 | each image of the category is kept as often as it occurs |
| Gallery.FilteredImages | src/components/Gallery.jsx:72-75 | "All" gives the full list; any other category gives exactly its images; always a subsequence |
| Gallery.FilteredNeverLonger | src/components/Gallery.jsx:72-75 | the filtered list is never longer than `images` |
| Gallery.ImagesAreCategorised | src/components/Gallery.jsx:18-69 | every image carries one of the four non-"All" categories |
| Gallery.CategoriesPartition | src/components/Gallery.jsx:72-75 | the four filtered lists together hold every image exactly as often as `images` does |
| Gallery.CountSplits | src/components/Gallery.jsx:72-75 | each image occurs in the four filtered lists, together, exactly as often as in `images` |
| Gallery.PartitionLength | src/components/Gallery.jsx:72-75 | the four filtered lengths add up to the number of images |
| Gallery.GalleryPartition | src/components/Gallery.jsx:18-75 | the gallery's images split into four disjoint category lists that cover all eight |
| Gallery.HandlerOf | src/components/Gallery.jsx:228-267 | only the content panel's handler stops propagation; the backdrop, Close and Contact Us handlers clear the selection |
| Gallery.Parent | src/components/Gallery.jsx:223-237 | the backdrop is outermost; the content panel sits in the backdrop and the Close button and Contact Us link in the panel, so a click bubbles outwards |
| Gallery.Bubble | src/components/Gallery.jsx:223-268 | clicks on the backdrop, the Close button and the Contact Us link clear the selection; a click on the content panel keeps it |
| Gallery.GalleryView.Shown | src/components/Gallery.jsx:134-143 | the tiles: every image for "All", otherwise exactly the images of the active category, in their original order |
| Gallery.GalleryView.constructor | src/components/Gallery.jsx:15-70 | starts with category "All", no selection, all images shown |
| Gallery.GalleryView.SelectCategory | src/components/Gallery.jsx:113 | sets the category and nothing else; the tiles become its filtered list |
| Gallery.GalleryView.ClickTile | src/components/Gallery.jsx:143 | selects exactly that image |
| Gallery.GalleryView.ClickLightbox | src/components/Gallery.jsx:221-277 | clears the selection for every lightbox target but the content panel; the category is unchanged |
| Gallery.SelectCategoryTwice | src/components/Gallery.jsx:113 | clicking the same category button twice is the same as clicking it once |

## Left out

- Real time is not modelled. The 3000 ms delay does not appear: a timer firing is an explicit event.
- The DOM APIs `setTimeout`, `clearTimeout`, `window.scrollY`, `addEventListener` and `IntersectionObserver` become events and fields. The 0.1 threshold appears only as the boolean the observer delivers.
- React scheduling is not modelled. Each change of `forceVisible` is taken to be committed, with its effect cleanup run, before the next event. Stale-closure interleavings are not covered.
- A missing `#home` element is not modelled: the observer is taken to be attached while the component is mounted.
- A missing `IntersectionObserver` is not modelled. The code has no fallback and would throw.
- The browser's jump to a link's anchor after a click is not modelled. If it scrolls, that scroll is an ordinary scroll event.
- The logo's scroll-to-top and the "Reach Out" / "Contact" anchors in the bar change no component state.
- Navbar.Controller.ClearTimeout: one real `clearTimeout` call is modelled as removing that handle from `pending`. The browser's timer queue is not modelled.
- Gallery.GalleryView.ClickTile: tiles exist only for the shown images, but the handler accepts any image. The model therefore does not require the image to be shown.
- The framer-motion variants, stagger order, springs and durations are not modelled. Neither are image loading or layout.
- The contact form, the particle background and the static sections are not part of this model.
