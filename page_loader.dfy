/**
 * The first-visit loader overlay: a session-scoped one-shot gate. On mount
 * the component reads `loaderShown` from session storage; if it is set,
 * nothing renders. Otherwise the overlay shows, and a 1200 ms timer hides
 * it and only then records `loaderShown = "true"`. Unmounting first clears
 * the timer, so nothing is recorded.
 *
 * The timer is an explicit `Fire` event; session storage is a map.
 */
module PageLoaderGate {
  import opened Wrappers

  /** The session storage key the gate reads and writes. */
  const Key: string := "loaderShown"
  /** The value the timer records. */
  const Shown: string := "true"

  /** `sessionStorage.getItem(key)`: the stored string, or null. */
  function GetItem(items: map<string, string>, key: string): (v: Option<string>)
    ensures v.Some? <==> key in items
    ensures v.Some? ==> v.value == items[key]
  {
    if key in items then Some(items[key]) else None
  }

  /** `if (alreadyShown)`: null and the empty string are falsy, every other string is truthy. */
  function Truthy(v: Option<string>): (b: bool)
    ensures v.None? ==> !b
    ensures v == Some("") ==> !b
    ensures v == Some(Shown) ==> b
  {
    v.Some? && v.value != ""
  }

  /** The gate is closed: the store already records a showing. */
  predicate AlreadyShown(items: map<string, string>): (b: bool)
    ensures !b <==> Key !in items || items[Key] == ""
    ensures Key in items && items[Key] == Shown ==> b
  {
    Truthy(GetItem(items, Key))
  }

  /** The component's two state variables, and whether its timer is armed. */
  datatype LoaderState = LoaderState(hidden: bool, shouldRender: bool, timerPending: bool)

  /** What the component renders. */
  datatype View = Nothing | Overlay(className: string)

  /** `useState(true)`, `useState(false)`: the state of every fresh instance, before its effect. */
  const Initial: LoaderState := LoaderState(true, false, false)

  /** The overlay's class list: `page-loader`, then `hidden` or nothing. */
  function OverlayClass(hidden: bool): (s: string)
    ensures |s| >= 12 && s[..12] == "page-loader "
    ensures hidden <==> s[12..] == "hidden"
    ensures !hidden <==> |s| == 12
  {
    "page-loader " + (if hidden then "hidden" else "")
  }

  /** The render: nothing unless `shouldRender`, otherwise the overlay carrying `hidden` exactly when `hidden` is set. */
  function Render(l: LoaderState): (v: View)
    ensures v.Nothing? <==> !l.shouldRender
    ensures v.Overlay? ==> v.className == OverlayClass(l.hidden)
  {
    if !l.shouldRender then Nothing else Overlay(OverlayClass(l.hidden))
  }

  /**
   * The mount effect on a fresh instance: with the gate closed the state
   * stays as it was first rendered and no timer is armed; otherwise the
   * overlay shows and the timer is armed. It never writes the store.
   */
  function MountEffect(items: map<string, string>): (l: LoaderState)
    ensures AlreadyShown(items) ==> l == Initial && Render(l).Nothing?
    ensures !AlreadyShown(items) ==> l.shouldRender && !l.hidden && l.timerPending
  {
    if AlreadyShown(items) then Initial
    else LoaderState(false, true, true)
  }

  /** The timer callback: the overlay hides, then the store records the showing. */
  function FireState(l: LoaderState): (r: LoaderState)
    ensures r.hidden && !r.timerPending && r.shouldRender == l.shouldRender
  {
    l.(hidden := true, timerPending := false)
  }

  /** The page: the session store, and the loader instance currently mounted, if any. */
  datatype Page = Page(items: map<string, string>, loader: Option<LoaderState>)

  /** What can happen: an instance mounts, its timer fires, it unmounts. */
  datatype Event = Mount | Fire | Unmount

  /**
   * One event. A mount while an instance is mounted, a firing with no timer
   * armed and an unmount with nothing mounted change nothing; unmounting
   * clears the timer together with the instance.
   */
  function Step(p: Page, ev: Event): (r: Page)
    ensures r.items != p.items ==> ev == Fire && r.items == p.items[Key := Shown]
    ensures ev == Unmount ==> r.loader.None?
    ensures ev == Mount && p.loader.None? ==> r.loader.Some? && r.loader.value.shouldRender == !AlreadyShown(p.items)
  {
    match ev
    case Mount =>
      if p.loader.None? then p.(loader := Some(MountEffect(p.items))) else p
    case Fire =>
      if p.loader.Some? && p.loader.value.timerPending
      then Page(p.items[Key := Shown], Some(FireState(p.loader.value)))
      else p
    case Unmount => p.(loader := None)
  }

  function Run(p: Page, evs: seq<Event>): Page
    decreases |evs|
  {
    if evs == [] then p else Run(Step(p, evs[0]), evs[1..])
  }

  /** The number of times the timer callback runs along a trace. */
  function Fires(p: Page, evs: seq<Event>): nat
    decreases |evs|
  {
    if evs == [] then 0
    else
      var fired := evs[0] == Fire && p.loader.Some? && p.loader.value.timerPending;
      (if fired then 1 else 0) + Fires(Step(p, evs[0]), evs[1..])
  }

  /** An armed timer means the gate was open when its instance mounted and nothing has closed it since. */
  predicate Inv(p: Page) {
    p.loader.Some? && p.loader.value.timerPending ==>
      !AlreadyShown(p.items) && p.loader.value.shouldRender && !p.loader.value.hidden
  }

  /** The overlay of an instance is shown (rendered and not hidden). */
  predicate Showing(p: Page) {
    p.loader.Some? && p.loader.value.shouldRender && !p.loader.value.hidden
  }

  lemma StepInv(p: Page, ev: Event)
    requires Inv(p)
    ensures Inv(Step(p, ev))
  {
  }

  /** The store only ever changes by recording the showing under its key. */
  lemma StepStore(p: Page, ev: Event)
    ensures var q := Step(p, ev);
      q.items == p.items || q.items == p.items[Key := Shown]
  {
  }

  /** Once the showing is recorded it stays recorded, and an instance that mounts afterwards renders nothing. */
  predicate Closed(p: Page) {
    AlreadyShown(p.items) && (p.loader.Some? ==> Render(p.loader.value).Nothing?)
  }

  lemma StepClosed(p: Page, ev: Event)
    requires Closed(p)
    ensures Closed(Step(p, ev))
  {
    if ev == Fire && p.loader.Some? && p.loader.value.timerPending {
      assert GetItem(p.items[Key := Shown], Key) == Some(Shown);
    }
  }

  /** Along any trace the store only gains `loaderShown = "true"`; nothing else is ever written. */
  lemma {:induction false} RunStore(p: Page, evs: seq<Event>)
    ensures var q := Run(p, evs);
      q.items == p.items || q.items == p.items[Key := Shown]
    decreases |evs|
  {
    if evs != [] {
      var p1 := Step(p, evs[0]);
      StepStore(p, evs[0]);
      RunStore(p1, evs[1..]);
      if p1.items == p.items[Key := Shown] {
        assert p1.items[Key := Shown] == p.items[Key := Shown];
      }
    }
  }

  /**
   * Once the store records the showing and no instance shows the overlay,
   * no later instance ever renders it: the gate stays closed for the session.
   */
  lemma {:induction false} ClosedStaysClosed(p: Page, evs: seq<Event>)
    requires Closed(p)
    ensures Closed(Run(p, evs))
    decreases |evs|
  {
    if evs != [] {
      StepClosed(p, evs[0]);
      ClosedStaysClosed(Step(p, evs[0]), evs[1..]);
    }
  }

  /** 1 while the gate is open, 0 once it is closed. */
  function Potential(p: Page): nat {
    if AlreadyShown(p.items) then 0 else 1
  }

  /**
   * The timer callback runs at most once per session, and not at all once
   * the showing is recorded: fires along a trace plus what is left of the
   * gate never exceed what the gate had.
   */
  lemma {:induction false} AtMostOneFire(p: Page, evs: seq<Event>)
    requires Inv(p)
    ensures Fires(p, evs) + Potential(Run(p, evs)) <= Potential(p)
    decreases |evs|
  {
    if evs != [] {
      var p1 := Step(p, evs[0]);
      StepInv(p, evs[0]);
      AtMostOneFire(p1, evs[1..]);
      if evs[0] == Fire && p.loader.Some? && p.loader.value.timerPending {
        assert GetItem(p1.items, Key) == Some(Shown);
      } else {
        assert Potential(p1) == Potential(p);
      }
    }
  }

  /** A fresh session: an empty store and nothing mounted. */
  const Fresh: Page := Page(map[], None)

  /** First visit: the overlay shows; when the timer fires it hides and the showing is recorded. */
  lemma FirstVisit()
    ensures Showing(Run(Fresh, [Mount]))
    ensures var q := Run(Fresh, [Mount, Fire]);
      q.items == map[Key := Shown] && !Showing(q) && Render(q.loader.value) == Overlay("page-loader hidden")
  {
    assert !AlreadyShown(Fresh.items);
    assert [Mount, Fire][1..] == [Fire];
  }

  /** After the showing is recorded, navigating to a page with a new instance renders nothing. */
  lemma NextPageAfterFire()
    ensures Render(Run(Fresh, [Mount, Fire, Unmount, Mount]).loader.value) == Nothing
  {
    var q := Run(Fresh, [Mount, Fire]);
    FirstVisit();
    assert [Mount, Fire, Unmount, Mount] == [Mount, Fire] + [Unmount, Mount];
    RunAppend(Fresh, [Mount, Fire], [Unmount, Mount]);
    assert GetItem(q.items, Key) == Some(Shown);
    assert [Unmount, Mount][1..] == [Mount];
  }

  /** Unmounting before the timer fires records nothing, so the next instance shows the overlay again. */
  lemma UnmountBeforeFireShowsAgain()
    ensures Run(Fresh, [Mount, Unmount]).items == map[]
    ensures Showing(Run(Fresh, [Mount, Unmount, Mount]))
  {
    assert !AlreadyShown(Fresh.items);
    assert [Mount, Unmount][1..] == [Unmount];
    assert [Mount, Unmount, Mount][1..] == [Unmount, Mount];
    assert [Unmount, Mount][1..] == [Mount];
  }

  lemma {:induction false} RunAppend(p: Page, a: seq<Event>, b: seq<Event>)
    ensures Run(p, a + b) == Run(Run(p, a), b)
    decreases |a|
  {
    if a != [] {
      assert (a + b)[0] == a[0];
      assert (a + b)[1..] == a[1..] + b;
      assert Run(p, a + b) == Run(Step(p, a[0]), a[1..] + b);
      RunAppend(Step(p, a[0]), a[1..], b);
    } else {
      assert a + b == b;
    }
  }

  /** `window.sessionStorage`, owned by the page and shared by every instance. */
  class SessionStore {
    var items: map<string, string>

    constructor (items: map<string, string>)
      ensures this.items == items
    {
      this.items := items;
    }

    method Get(key: string) returns (v: Option<string>)
      ensures v == GetItem(items, key)
    {
      v := GetItem(items, key);
    }

    method Set(key: string, value: string)
      modifies this
      ensures items == old(items)[key := value]
    {
      items := items[key := value];
    }
  }

  /** One instance of the component, mounted on one page. */
  class PageLoader {
    var hidden: bool
    var shouldRender: bool
    /** Whether the 1200 ms timer is armed and not yet fired or cleared. */
    var timerPending: bool
    const store: SessionStore

    function State(): LoaderState
      reads this
    {
      LoaderState(hidden, shouldRender, timerPending)
    }

    /** First render: `hidden` true, `shouldRender` false, no timer. */
    constructor (store: SessionStore)
      ensures State() == Initial && this.store == store
    {
      hidden := true;
      shouldRender := false;
      timerPending := false;
      this.store := store;
    }

    /** The mount effect, run once on the freshly rendered instance. */
    method Mount()
      requires State() == Initial
      modifies this
      ensures Page(store.items, Some(State())) == Step(Page(store.items, None), Event.Mount)
      ensures store.items == old(store.items)
    {
      var alreadyShown := store.Get(Key);
      if Truthy(alreadyShown) {
        shouldRender := false;
        return;
      }
      shouldRender := true;
      hidden := false;
      timerPending := true;
    }

    /** The timer callback: hide the overlay, then record the showing. */
    method FireTimer()
      requires timerPending
      modifies this, store
      ensures Page(store.items, Some(State())) == Step(old(Page(store.items, Some(State()))), Event.Fire)
    {
      hidden := true;
      timerPending := false;
      store.Set(Key, Shown);
    }

    /** The effect's cleanup: the pending timer, if any, is cleared; the store is untouched. */
    method Unmount()
      modifies this
      ensures !timerPending && hidden == old(hidden) && shouldRender == old(shouldRender)
      ensures Page(store.items, None) == Step(old(Page(store.items, Some(State()))), Event.Unmount)
    {
      timerPending := false;
    }

    /** What the instance renders now: nothing unless `shouldRender`, else the overlay carrying `hidden` exactly when `hidden` is set. */
    function Rendered(): (v: View)
      reads this
      ensures v.Nothing? <==> !shouldRender
      ensures v.Overlay? ==> v.className == OverlayClass(hidden)
    {
      Render(State())
    }
  }
}
