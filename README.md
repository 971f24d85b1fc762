# Navbar, reveal controller and page loader of the bilingual site

This project models the three components of the English/Romanian marketing
site that hold behaviour, and proves what they promise.

- **Navigation bar** (`src/components/Navbar.tsx`).
  - `NavPaths` holds the pure path logic: trailing-slash normalisation, the
    active-link test, the link hrefs of each locale and the language-switch href.
    English pages are unprefixed and Romanian pages live under `/ro`.
  - `NavbarState.Navbar` is a class holding the component state: `isScrolled`,
    `isMobileMenuOpen`, `activePath`, the page scroll lock
    (`document.body.style.overflow`) and the two listeners. Its methods are
    the handlers.
- **Reveal / count-up controller** (`src/components/AnimatedSection.tsx`).
  - `Reveal` describes, as functions on values, what setup, a batch of
    intersection entries and an interval tick do to the section's
    descendants. It also proves the trace properties: `visible` is only ever
    added between setups, and a statistic's count-up starts at most once.
  - `CountUp` is the interval of `animateNumber`, in exact arithmetic. It
    covers what each tick writes, that the run stops, and its length.
  - `NumberText` gives the decimal text of integers.
  - `AnimatedSection.Section` is a class holding the descendants, the
    running intervals, every observer created (the last one is
    `observerRef.current`) and the page-load listener. Its methods do the
    work in place and are proved against the `Reveal` and `CountUp` functions.
- **Page loader** (`src/components/PageLoader.tsx`).
  - `PageLoaderGate` models the first-visit overlay as a one-shot gate over
    session storage. The pure part is a step function over the events mount,
    timer fires and unmount, with its trace lemmas.
  - `SessionStore` and `PageLoader` are the storage and the component
    instance as classes. Their methods are tied to the step function.

Clock time, the DOM and the browser's observers are represented by
explicit events and parameters:
- the 16 ms interval, the 100 ms deferred setup and the 1200 ms loader timer
  are events the caller fires;
- `window.scrollY` and `window.location.pathname` are parameters;
- "the entry is intersecting" is an input;
- session storage is a map;
- a descendant of a section is identified by its index.

The `isActive` test for `home` also compares the normalised path with `''`.
That comparison can never succeed, because the normalised path is never
empty. `NavPaths.IsActive` keeps it and `NavPaths.IsActiveMatchesKeyPaths`
shows it is dead.

## Model

| member | source | states |
|---|---|---|
| NavPaths.StripTrailingSlashes | src/components/Navbar.tsx:31 | the result is the prefix of the path with no `/` at its end, and everything removed was `/` |
| NavPaths.Normalize | src/components/Navbar.tsx:31 | the normal form is never empty; it ends in `/` only when it is `/`; it is `/` exactly when the path is all slashes; otherwise it is the path minus its trailing slashes |
| NavPaths.NormalizeIsNormal | src/components/Navbar.tsx:84 | every normalised path is non-empty and ends in `/` only if it is `/` |
| NavPaths.NormalizeFixesNormal | src/components/Navbar.tsx:84 | a path already in normal form is left unchanged |
| NavPaths.NormalizeIdempotent | src/components/Navbar.tsx:31 | normalising twice equals normalising once |
| NavPaths.IsActiveMatchesKeyPaths | src/components/Navbar.tsx:30-46 | a key is active iff the normalised path is one of its two forms (`/` or `/ro` for home, `/services` or `/ro/services` and so on); an unknown key is never active |
| NavPaths.IsActive | src/components/Navbar.tsx:30-46 | only the four keys of the bar can be active; any other key is never active |
| NavPaths.AtMostOneActive | src/components/Navbar.tsx:30-46 | two keys active at one path are the same key |
| NavPaths.NoneActiveOutsideKnown | src/components/Navbar.tsx:30-46 | a path outside the eight known forms activates no key |
| NavPaths.ActiveKey | src/components/Navbar.tsx:30-46 | the key active at a path, which is unique; it is empty exactly when the path is outside the known forms |
| NavPaths.BasePath | src/components/Navbar.tsx:20-21 | the English prefix is empty and the Romanian one is not; each locale's home href is its prefix followed by `/` |
| NavPaths.HomePath | src/components/Navbar.tsx:20-21 | each home href ends in `/` and starts with `/ro` exactly for the Romanian locale |
| NavPaths.HomesSwitch | src/components/Navbar.tsx:20-21 | both home hrefs normalise to a home path, and each is the language switch of the other (`/` to `/ro/` and back) |
| NavPaths.NavItems | src/components/Navbar.tsx:20-28 | there are four links in the order home, services, about, contact; each href starts with the locale prefix and ends in `/` |
| NavPaths.NavItemHrefShape | src/components/Navbar.tsx:20-28 | a link's href normalises to a Romanian page exactly in the Romanian bar, and it is that page followed by one `/` (the English root is `/`) |
| NavPaths.NavItemsHrefShapes | src/components/Navbar.tsx:20-28 | the same for all four links of a locale at once |
| NavPaths.EnglishHrefForms | src/components/Navbar.tsx:20-28 | each English href normalises to a form of its own key |
| NavPaths.RomanianHrefForms | src/components/Navbar.tsx:20-28 | each Romanian href normalises to a form of its own key |
| NavPaths.ActiveExactlyAt | src/components/Navbar.tsx:30-46 | at a form of key k, a key is active iff it is k |
| NavPaths.NavItemActivatesOwnKey | src/components/Navbar.tsx:20-46 | visiting the href of a link activates that link's key and no other, in both locales |
| NavPaths.NavItemsActivateOwnKeys | src/components/Navbar.tsx:20-46 | for every link of a locale and every key, the key is active at the link's href iff it is the link's own key |
| NavPaths.SwitchToEn | src/components/Navbar.tsx:86-92 | the English href is never empty; without the `/ro` string prefix it is the normalised path; with it, it is the path with one leading `/ro` removed, or `/` for `/ro` itself |
| NavPaths.SwitchHref | src/components/Navbar.tsx:83-101 | the href is never empty; a Romanian href starts with `/ro` and ends in `/`; the English href of a path without the string prefix `/ro` is its normal form |
| NavPaths.SwitchToRo | src/components/Navbar.tsx:93-100 | the Romanian href is exactly the `/ro` form of the path followed by one `/`: the path itself if it starts with `/ro`, `/ro` for `/`, and otherwise `/ro` followed by the path; it starts with `/ro` and normalises back to that form |
| NavPaths.SwitchToEnIdentityOnEnglish | src/components/Navbar.tsx:86-92 | switching to English from a path without the `/ro` prefix gives the normalised path |
| NavPaths.RoundTripFromEnglish | src/components/Navbar.tsx:83-101 | for a path not starting with the string `/ro`, the English href of its Romanian href is its normal form |
| NavPaths.RobotsPrefixMisread | src/components/Navbar.tsx:87-88 | the page `/robots` gets English href `bots` and Romanian href `/robots/`, and the round trip does not return to `/robots` |
| NavPaths.SwitchHrefBySegment | src/components/Navbar.tsx:83-101 | with `/ro` tested as a whole path segment: the href is never empty; a Romanian href starts with `/ro` and ends in `/`; the English href of an English page is its normal form |
| NavPaths.SegmentSwitchToEn | src/components/Navbar.tsx:86-92 | with the segment test, the English href is never empty; for an English page it is the normalised path; for a Romanian page it is the page with its `/ro` segment removed, or `/` for `/ro` |
| NavPaths.SegmentSwitchToEnIdentity | src/components/Navbar.tsx:86-92 | with `/ro` tested as a path segment, switching to English from an English page gives that page |
| NavPaths.SegmentSwitchToRo | src/components/Navbar.tsx:93-100 | with the segment test, the Romanian href is exactly the `/ro` form of the path followed by one `/`: the path if it is Romanian, `/ro` for `/`, and otherwise `/ro` followed by the path; for an absolute path that form is a Romanian page |
| NavPaths.SegmentRoundTripFromEnglish | src/components/Navbar.tsx:83-101 | with the segment test, every absolute English page, including `/robots`, comes back from the Romanian round trip |
| NavPaths.SegmentAgreesOffPrefixCollisions | src/components/Navbar.tsx:83-101 | the segment test and the string test give the same hrefs on every path where they classify alike |
| NavbarState.ScrolledAt | src/components/Navbar.tsx:54 | scrolled iff `scrollY > 50` |
| NavbarState.Navbar.constructor | src/components/Navbar.tsx:16-18 | not scrolled, menu closed, active path is `currentPath`, no listeners |
| NavbarState.Navbar.Attach | src/components/Navbar.tsx:62-65 | both listeners are registered and `isScrolled` is evaluated once at the current offset; the menu and the path are untouched |
| NavbarState.Navbar.Detach | src/components/Navbar.tsx:67-70 | both listeners are removed and no state changes |
| NavbarState.Navbar.OnScroll | src/components/Navbar.tsx:53-55 | while registered, `isScrolled` becomes `scrollY > 50`; otherwise nothing changes |
| NavbarState.Navbar.OnPageLoad | src/components/Navbar.tsx:57-60 | while registered, the active path becomes the location path and the menu closes with the scroll lock released; otherwise nothing changes |
| NavbarState.Navbar.OnCurrentPathChange | src/components/Navbar.tsx:48-50 | the active path follows the `currentPath` prop |
| NavbarState.Navbar.ToggleMobileMenu | src/components/Navbar.tsx:73-76 | the open flag flips and the overflow is `hidden` exactly when the menu is now open |
| NavbarState.Navbar.CloseMobileMenu | src/components/Navbar.tsx:78-81 | the menu ends closed with overflow `''` whatever it was before, so closing twice is closing once |
| NavbarState.Navbar.LinkIsActive | src/components/Navbar.tsx:117 | a link is highlighted iff the normalised active path is one of its key's forms |
| NavbarState.Navbar.Links | src/components/Navbar.tsx:20-28 | the bar's links in its own language: the four keys in order, every href a page of the bar's locale (Romanian exactly when the bar is Romanian) followed by one `/`, and each link highlights exactly its own key when visited |
| NavbarState.Navbar.LangSwitchHref | src/components/Navbar.tsx:83-101 | with the segment test: the Romanian button links to the `/ro` form of the active page followed by exactly one `/`, which is a Romanian page for an absolute path; on a Romanian page the English button links to the page without its `/ro` segment, or to `/` from `/ro`; on an English page it links to that page |
| NumberText.NatText | src/components/AnimatedSection.tsx:74 | the text of a natural number is non-empty decimal digits with no leading zero |
| NumberText.IntText | src/components/AnimatedSection.tsx:71 | a non-negative number is written as digits with no leading zero that read back as the number; a negative one as `-` followed by such digits of its magnitude |
| NumberText.NatTextRoundTrip | src/components/AnimatedSection.tsx:28 | reading back the digits of a number, as `parseInt` does, gives the number |
| NumberText.IntTextInjective | src/components/AnimatedSection.tsx:71-74 | different numbers are written differently |
| CountUp.Text | src/components/AnimatedSection.tsx:71-74 | an intermediate write of a non-negative value is decimal digits with no leading zero that read back as that value; the final write is the target's decimal text followed by exactly the suffix |
| CountUp.Start | src/components/AnimatedSection.tsx:63-66 | a count-up starts at 0; 125 increments add up to the target; the increment has the target's sign |
| CountUp.StepsFromTiming | src/components/AnimatedSection.tsx:65-66 | the 125 increments are the 2000 ms duration over the 16 ms period, with nothing left over |
| CountUp.Tick | src/components/AnimatedSection.tsx:68-76 | a tick stops iff the advanced value reaches the target, and then writes the target with its suffix; otherwise it advances by the increment and writes `Math.floor` of the new value, which is below the target |
| CountUp.TickBringsStopNearer | src/components/AnimatedSection.tsx:69-70 | a tick that does not stop leaves fewer ticks before the stop |
| CountUp.Run | src/components/AnimatedSection.tsx:63-77 | the writes of an interval from a state until it clears itself end with the `target + suffix` write |
| CountUp.RunBounds | src/components/AnimatedSection.tsx:69-75 | every write before the last shows a number, at least the floor of the starting value and below the target, so only the last write shows the target |
| CountUp.RunMonotone | src/components/AnimatedSection.tsx:69-75 | the numbers shown before the last write never decrease |
| CountUp.RunUnfolds | src/components/AnimatedSection.tsx:68-76 | the run is the first tick's write followed by the run from the state that tick leaves |
| CountUp.RunStep | src/components/AnimatedSection.tsx:68-76 | the writes so far plus the rest of the run stay the whole run after one more tick |
| CountUp.StartProgresses | src/components/AnimatedSection.tsx:66-72 | every started count-up reaches its stopping branch |
| CountUp.StartedRunEnds | src/components/AnimatedSection.tsx:63-77 | a started count-up ends showing exactly the target and the suffix; a positive target is approached through numbers from 0 up to below it; a target of 0 or less is written on the first tick |
| CountUp.NonPositiveStartStops | src/components/AnimatedSection.tsx:66-72 | for a target of 0 or below, the first tick already reaches the target and clears the interval |
| CountUp.RunLength | src/components/AnimatedSection.tsx:68-72 | an interval n increments short of the target writes exactly n times |
| CountUp.RunStops | src/components/AnimatedSection.tsx:70-72 | a tick that reaches the target is the last write |
| CountUp.RunContinues | src/components/AnimatedSection.tsx:73-75 | a tick below the target is followed by the run from the advanced state |
| CountUp.PositiveRunLength | src/components/AnimatedSection.tsx:64-72 | a positive target is reached in exactly 125 writes |
| CountUp.NinetyEightPercent | src/components/AnimatedSection.tsx:71 | a statistic with target 98 and suffix `%` ends showing `98%` |
| Reveal.Observed | src/components/AnimatedSection.tsx:38-40 | an element is observed exactly when it carries one of `fade-in`, `fade-in-left`, `fade-in-right`, `scale-in`, `stat` |
| Reveal.SelectorMatches | src/components/AnimatedSection.tsx:38-40 | the class list meets the reveal-class set exactly when it holds one of the five selector classes |
| Reveal.StartsCountUp | src/components/AnimatedSection.tsx:24-26 | an element whose count-up would start is observed, not yet animated, and still has its one start available |
| Reveal.Suffix | src/components/AnimatedSection.tsx:28 | the suffix is `data-suffix`, or `''` when it is absent |
| Reveal.Reset | src/components/AnimatedSection.tsx:41-42 | an observed element loses `visible` and keeps its number; any other element is unchanged |
| Reveal.ResetAll | src/components/AnimatedSection.tsx:41-44 | every descendant is reset, in order |
| Reveal.ObservedBelow | src/components/AnimatedSection.tsx:38-43 | the indices handed to the observer so far are exactly the matching descendants before that point |
| Reveal.ObservedIndices | src/components/AnimatedSection.tsx:38-44 | the observer observes exactly the descendants carrying `fade-in`, `fade-in-left`, `fade-in-right`, `scale-in` or `stat` |
| Reveal.ResetAllClearsVisible | src/components/AnimatedSection.tsx:41-44 | after setup no observed element is visible; other elements are unchanged; no number or `data-animated` changes |
| Reveal.ResetKeepsConsistent | src/components/AnimatedSection.tsx:41-44 | setup never clears `data-animated` on an element whose count-up is running |
| Reveal.ApplyEntry | src/components/AnimatedSection.tsx:20-31 | a non-intersecting entry changes nothing; an intersecting `stat` whose number has a `data-count` and no `data-animated` starts exactly `CountUp.Start(count, data-suffix or '')` for its own index; every other entry leaves the intervals as they were |
| Reveal.ApplyEntryEffect | src/components/AnimatedSection.tsx:20-27 | an intersecting entry adds exactly `visible` to its target's classes and changes its number only by setting `data-animated` when a count-up starts; a non-intersecting entry changes nothing; no other element changes |
| Reveal.ApplyEntryMonotone | src/components/AnimatedSection.tsx:20-29 | an entry never hides an element or clears `data-animated`; starting a count-up uses up the element's one start |
| Reveal.ApplyEntryConsistent | src/components/AnimatedSection.tsx:26-28 | every running interval still belongs to an element marked animated, and a newly started one reaches its stop |
| Reveal.ApplyEntriesConsistent | src/components/AnimatedSection.tsx:20-32 | the same holds after a whole batch of entries |
| Reveal.ApplyEntries | src/components/AnimatedSection.tsx:19-33 | a batch keeps the number of elements and never clears a running interval |
| Reveal.ApplyEntriesMonotone | src/components/AnimatedSection.tsx:20-32 | over a batch, `visible` and `data-animated` are never removed, and starts plus remaining potential do not exceed the potential before |
| Reveal.BatchReveals | src/components/AnimatedSection.tsx:20-22 | every intersecting entry of a batch leaves its target visible at the end of the batch |
| Reveal.ApplyTickKeepsFlags | src/components/AnimatedSection.tsx:68-76 | a tick changes no class and no `data-animated` |
| Reveal.ApplyTick | src/components/AnimatedSection.tsx:68-76 | a tick of an element with no running interval changes nothing; a tick never starts an interval |
| Reveal.ApplyTickEffect | src/components/AnimatedSection.tsx:68-76 | a tick rewrites only the text of its element's number with the tick's write; the interval advances, or is cleared when it stops |
| Reveal.CountingDownStart | src/components/AnimatedSection.tsx:63-68 | a running interval that has not fired is counting down with nothing written and the whole run ahead |
| Reveal.CountingDownTick | src/components/AnimatedSection.tsx:68-76 | one more tick keeps the interval counting down with its write appended: only its number's text and its own interval change, the writes plus the rest make the whole run, and the stop comes nearer |
| Reveal.StepConsistent | src/components/AnimatedSection.tsx:13-77 | setups, batches and ticks keep every running interval on an element marked animated, counting to that element's own `data-count` with its own suffix, and every running interval reaches its stop |
| Reveal.RunEndsWithOwnCount | src/components/AnimatedSection.tsx:24-28 | a running interval's last write shows its own element's `data-count` followed by its `data-suffix` or nothing |
| Reveal.NinetyEightPercentStat | src/components/AnimatedSection.tsx:24-28 | a statistic with count 98 and suffix `%` that comes into view starts the count-up that ends showing `98%` |
| Reveal.Step | src/components/AnimatedSection.tsx:13-77 | a setup leaves the intervals as they are; only a batch can start an interval; only a tick can clear one |
| Reveal.Run | src/components/AnimatedSection.tsx:13-77 | after any trace, every running interval belongs to an element marked animated and reaches its stop |
| Reveal.StepMonotone | src/components/AnimatedSection.tsx:24-44 | no event clears `data-animated`; only a batch can use up an element's start |
| Reveal.CountUpStartsAtMostOnce | src/components/AnimatedSection.tsx:24-29 | over any trace of setups, batches and ticks, an element's count-up starts at most once, and never once `data-animated` is set |
| Reveal.ApplyEntryKeepsFinished | src/components/AnimatedSection.tsx:20-29 | an entry for a statistic whose count-up has finished leaves its number and starts no interval |
| Reveal.ApplyEntriesKeepsFinished | src/components/AnimatedSection.tsx:19-33 | the same over a whole batch |
| Reveal.StepKeepsFinished | src/components/AnimatedSection.tsx:13-77 | no setup, batch or tick restarts or rewrites a finished statistic |
| Reveal.FinishedStaysFinished | src/components/AnimatedSection.tsx:13-77 | once a statistic's count-up has finished, its number, including the text the last write left, never changes again and no interval is started for it, over any trace of setups, batches and ticks |
| Reveal.StepKeepsVisible | src/components/AnimatedSection.tsx:20-22 | between setups, a revealed element stays revealed |
| AnimatedSection.DisconnectCurrent | src/components/AnimatedSection.tsx:14-16 | only the current observer is disconnected; older ones are unchanged |
| AnimatedSection.AtMostOneLive | src/components/AnimatedSection.tsx:13-18 | if only the current observer may be connected, at most one observer is live |
| AnimatedSection.LiveAfterSetup | src/components/AnimatedSection.tsx:13-18 | disconnecting the current observer and installing a new one leaves exactly the new one live |
| AnimatedSection.ResetObserved | src/components/AnimatedSection.tsx:41-44 | the descendant loop resets every descendant and hands exactly the matching ones to the observer |
| AnimatedSection.Section.constructor | src/components/AnimatedSection.tsx:10-11 | the rendered section has no observer and no interval |
| AnimatedSection.Section.Setup | src/components/AnimatedSection.tsx:13-46 | the old observer is disconnected; the new one is the only live observer and observes exactly the matching descendants, which lose `visible`; an unmounted section gets an observer with nothing to observe; nothing else changes |
| AnimatedSection.Section.MountEffect | src/components/AnimatedSection.tsx:48-55 | a first setup, then the page-load listener is registered |
| AnimatedSection.Section.OnPageLoad | src/components/AnimatedSection.tsx:51-53 | while listening, one more deferred setup is pending |
| AnimatedSection.Section.FireDeferredSetup | src/components/AnimatedSection.tsx:52 | a pending deferred setup runs a full setup, even after unmount |
| AnimatedSection.Section.OnIntersect | src/components/AnimatedSection.tsx:19-33 | the callback's in-place writes leave exactly the scene `Reveal.ApplyEntries` describes |
| AnimatedSection.Section.OnTick | src/components/AnimatedSection.tsx:68-76 | one firing writes what `CountUp.Tick` writes and leaves the scene `Reveal.ApplyTick` describes |
| AnimatedSection.Section.RunCountUp | src/components/AnimatedSection.tsx:63-77 | an interval fired until it clears itself writes exactly `CountUp.Run`; its number ends showing its own `data-count` followed by its `data-suffix` (or nothing); no other element changes; the statistic is then finished, so `Reveal.FinishedStaysFinished` keeps it so |
| AnimatedSection.Section.Unmount | src/components/AnimatedSection.tsx:57-60 | the current observer is disconnected so none is live; the listener is removed; elements and intervals stay |
| PageLoaderGate.GetItem | src/components/PageLoader.tsx:8 | the stored string when the key is present, otherwise null |
| PageLoaderGate.AlreadyShown | src/components/PageLoader.tsx:8-10 | the gate is open exactly when `loaderShown` is missing or the empty string; a stored `"true"` closes it |
| PageLoaderGate.Truthy | src/components/PageLoader.tsx:10 | null and the empty string are falsy; the stored `"true"` is truthy |
| PageLoaderGate.OverlayClass | src/components/PageLoader.tsx:29 | the class list is `page-loader ` followed by `hidden` exactly when hidden, and by nothing otherwise |
| PageLoaderGate.Render | src/components/PageLoader.tsx:26-29 | nothing is rendered iff `shouldRender` is false; otherwise the overlay's class is exactly `OverlayClass(hidden)`, so it carries `hidden` iff `hidden` is set |
| PageLoaderGate.MountEffect | src/components/PageLoader.tsx:7-18 | with a truthy `loaderShown` the state stays initial, no timer is armed and nothing renders; otherwise the overlay is shown and the timer armed |
| PageLoaderGate.FireState | src/components/PageLoader.tsx:18-19 | the timer hides the overlay and disarms itself, leaving `shouldRender` as it was |
| PageLoaderGate.Step | src/components/PageLoader.tsx:7-24 | only a timer firing writes the store, and then it records `loaderShown = "true"`; unmounting leaves no instance; a mount on an empty page renders the overlay iff the showing is unrecorded |
| PageLoaderGate.StepInv | src/components/PageLoader.tsx:7-23 | an armed timer always belongs to a shown overlay while the store is unrecorded |
| PageLoaderGate.StepStore | src/components/PageLoader.tsx:18-21 | one event either leaves the store alone or records `loaderShown = "true"` |
| PageLoaderGate.StepClosed | src/components/PageLoader.tsx:8-13 | once the showing is recorded and no overlay renders, no event changes that |
| PageLoaderGate.RunStore | src/components/PageLoader.tsx:18-21 | along any trace the only write to the store is `loaderShown = "true"` |
| PageLoaderGate.ClosedStaysClosed | src/components/PageLoader.tsx:8-13 | once recorded, no later instance renders the overlay for the rest of the session |
| PageLoaderGate.AtMostOneFire | src/components/PageLoader.tsx:8-21 | the timer callback runs at most once per session, and never once the showing is recorded |
| PageLoaderGate.FirstVisit | src/components/PageLoader.tsx:4-21 | on a fresh session the overlay shows; when the timer fires it is hidden and `loaderShown` is `"true"` |
| PageLoaderGate.NextPageAfterFire | src/components/PageLoader.tsx:8-13 | after the timer has fired, the next mounted instance renders nothing |
| PageLoaderGate.UnmountBeforeFireShowsAgain | src/components/PageLoader.tsx:23 | unmounting before the timer records nothing, so the next instance shows the overlay again |
| PageLoaderGate.SessionStore.Get | src/components/PageLoader.tsx:8 | `getItem` returns the stored string or null |
| PageLoaderGate.SessionStore.Set | src/components/PageLoader.tsx:20 | `setItem` stores the value under the key and changes nothing else |
| PageLoaderGate.PageLoader.constructor | src/components/PageLoader.tsx:4-5 | a fresh instance is hidden, not rendering, with no timer |
| PageLoaderGate.PageLoader.Mount | src/components/PageLoader.tsx:7-18 | the in-place effect leaves the state `Step` gives for a mount and does not write the store |
| PageLoaderGate.PageLoader.FireTimer | src/components/PageLoader.tsx:18-21 | the callback leaves the state and store `Step` gives for a firing |
| PageLoaderGate.PageLoader.Unmount | src/components/PageLoader.tsx:23 | the cleanup clears the timer and leaves the store untouched |
| PageLoaderGate.PageLoader.Rendered | src/components/PageLoader.tsx:26-29 | the instance renders nothing iff `shouldRender` is false, and otherwise the overlay with class exactly `OverlayClass(hidden)` |

## Left out

- `src/components/Cursor.tsx` is not part of this model. It is floating-point pointer easing driven by animation frames.
- `src/i18n.ts` is not part of this model. It is static label data; the labels are the `Labels` parameter.
- `astro.config.mjs` is not part of this model. It is build configuration. Its locale routing (English unprefixed, Romanian under `/ro`) is reflected in `NavPaths`.
- `ThemeToggle`, `ServiceCard` and `ContactCard` are not part of this model. They are presentational.
- JSX markup, the SVG flags and the class strings of the navigation bar are rendering only. Only the loader's overlay class is modelled.
- Floating point: the count-up uses exact rational arithmetic, so `CountUp.PositiveRunLength` gives exactly 125 writes. Accumulated binary rounding could move the stopping tick by one in the browser.
- `parseInt` of `data-count` is modelled as an optional integer. A non-numeric count (NaN), which would never stop the interval, is not represented.
- `Number.prototype.toString` is modelled for integers only. The exponent form for very large values is not modelled.
- Time: the 16 ms interval, the 100 ms deferred setup and the 1200 ms loader timer are explicit events.
- IntersectionObserver geometry (threshold 0.1, root margin) is not modelled. Whether an entry intersects is an input.
- Observer delivery: `Section.OnIntersect` accepts only batches from the current, connected observer about elements it observes, because that is all a disconnected observer delivers.
- DOM identity: descendants are indices into a sequence that stays fixed for the section's lifetime, and each carries at most one `.stat-number`.
- Browser APIs: `sessionStorage`, `window.scrollY`, `window.location.pathname`, `document.body.style.overflow` and listener registration are a map, parameters and fields.
- React scheduling (render batching, StrictMode double effects) is not modelled. State updates take effect when the handler runs.
- NavbarState.Navbar.LangSwitchHref: uses the segment test of `NavPaths.SwitchHrefBySegment` rather than the string-prefix test the component has (see Findings). `NavPaths.SwitchHref` keeps the behaviour as written.

## Findings

| source | as written | input that shows it | evidently intended | confidence | as-written member | corrected member |
|---|---|---|---|---|---|---|
| src/components/Navbar.tsx:87-93 | `getLangSwitchHref` treats any normalised path starting with the characters `/ro` as Romanian (`path.startsWith('/ro')`) | `/robots`: the English button links to `bots` (a relative link) and the Romanian button to `/robots/`, so the round trip does not come back | `/ro` is recognised only as a whole first segment (`/ro` or `/ro/...`), so every English page round-trips through Romanian | not executed | NavPaths.RobotsPrefixMisread | NavPaths.SegmentRoundTripFromEnglish |
