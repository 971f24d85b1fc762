/**
 * What the reveal controller does to the elements of one section, as
 * functions on values: the reset done by each setup, the intersection
 * callback, and the ticks of the count-up intervals it starts. The element
 * at index `i` of `elems` is the `i`-th descendant of the section.
 */
module Reveal {
  import opened Wrappers
  import CountUp

  /** The classes that make a descendant observed. */
  const RevealClasses: set<string> := {"fade-in", "fade-in-left", "fade-in-right", "scale-in", "stat"}
  const VisibleClass: string := "visible"
  const StatClass: string := "stat"

  /**
   * The `.stat-number` child of a statistic: its `data-count` (read as an
   * integer; `None` when absent or empty), whether `data-animated` is set,
   * its `data-suffix`, and its text.
   */
  datatype StatNumber = StatNumber(count: Option<int>, animated: bool, suffix: Option<string>, text: string)

  /** A descendant: its class list and what `querySelector('.stat-number')` finds in it. */
  datatype Elem = Elem(classes: set<string>, number: Option<StatNumber>)

  /** One intersection entry: the index of its target and `isIntersecting`. */
  datatype Entry = Entry(target: nat, isIntersecting: bool)

  /** The section's elements and the count-up intervals running, by element. */
  datatype Scene = Scene(elems: seq<Elem>, counters: map<nat, CountUp.Counter>)

  /** Matches `.fade-in, .fade-in-left, .fade-in-right, .scale-in, .stat`. */
  predicate Observed(e: Elem): (b: bool)
    ensures b <==> ("fade-in" in e.classes || "fade-in-left" in e.classes || "fade-in-right" in e.classes ||
                    "scale-in" in e.classes || "stat" in e.classes)
    ensures StatClass in e.classes ==> b
  {
    SelectorMatches(e.classes);
    e.classes * RevealClasses != {}
  }

  /** A class list meets the reveal classes exactly when it holds one of the five. */
  lemma SelectorMatches(classes: set<string>)
    ensures classes * RevealClasses != {} <==>
      ("fade-in" in classes || "fade-in-left" in classes || "fade-in-right" in classes ||
       "scale-in" in classes || "stat" in classes)
  {
    if classes * RevealClasses != {} {
      var c :| c in classes * RevealClasses;
      assert c in RevealClasses;
    } else {
      forall c | c in RevealClasses ensures c !in classes {
        assert c !in classes * RevealClasses;
      }
    }
  }

  predicate Visible(e: Elem) {
    VisibleClass in e.classes
  }

  /** `data-animated` is set on the element's number. */
  predicate Animated(e: Elem) {
    e.number.Some? && e.number.value.animated
  }

  /** A count-up could still be started for this element: it has a number not yet animated. */
  function Potential(e: Elem): nat {
    if e.number.Some? && !e.number.value.animated then 1 else 0
  }

  /** `numEl.dataset.suffix || ''`. */
  function Suffix(n: StatNumber): (s: string)
    ensures n.suffix.None? ==> s == ""
    ensures n.suffix.Some? ==> s == n.suffix.value
  {
    n.suffix.GetOr("")
  }

  /** Setup's `el.classList.remove('visible')` on an element it observes. */
  function Reset(e: Elem): (r: Elem)
    ensures r.number == e.number
    ensures Observed(e) ==> r.classes == e.classes - {VisibleClass}
    ensures !Observed(e) ==> r == e
  {
    if Observed(e) then e.(classes := e.classes - {VisibleClass}) else e
  }

  /** Setup's pass over the descendants, in document order. */
  function ResetAll(elems: seq<Elem>): (r: seq<Elem>)
    ensures |r| == |elems|
    ensures forall i :: 0 <= i < |r| ==> r[i] == Reset(elems[i])
  {
    if elems == [] then [] else ResetAll(elems[..|elems| - 1]) + [Reset(elems[|elems| - 1])]
  }

  /** The indices among the first `n` descendants that setup hands to `observer.observe`. */
  function ObservedBelow(elems: seq<Elem>, n: nat): (r: set<nat>)
    requires n <= |elems|
    ensures forall i: int :: i in r <==> 0 <= i < n && Observed(elems[i])
  {
    if n == 0 then {} else ObservedBelow(elems, n - 1) + (if Observed(elems[n - 1]) then {n - 1} else {})
  }

  /** The indices setup hands to `observer.observe`: exactly the matching descendants. */
  function ObservedIndices(elems: seq<Elem>): (r: set<nat>)
    ensures forall i: int :: i in r <==> 0 <= i < |elems| && Observed(elems[i])
  {
    ObservedBelow(elems, |elems|)
  }

  /** After setup no observed element is visible, and no number is touched. */
  lemma ResetAllClearsVisible(elems: seq<Elem>, i: nat)
    requires i < |elems|
    ensures Observed(elems[i]) ==> !Visible(ResetAll(elems)[i])
    ensures !Observed(elems[i]) ==> ResetAll(elems)[i] == elems[i]
    ensures ResetAll(elems)[i].number == elems[i].number
    ensures Observed(ResetAll(elems)[i]) == Observed(elems[i])
  {
    var e := elems[i];
    assert VisibleClass !in RevealClasses;
    assert (e.classes - {VisibleClass}) * RevealClasses == e.classes * RevealClasses;
  }

  /** Setup keeps every running count-up on an element still marked animated. */
  lemma ResetKeepsConsistent(elems: seq<Elem>, counters: map<nat, CountUp.Counter>)
    requires Consistent(Scene(elems, counters))
    ensures Consistent(Scene(ResetAll(elems), counters))
  {
    forall j | j in counters
      ensures j < |ResetAll(elems)| && Animated(ResetAll(elems)[j]) && CountUp.Progresses(counters[j]) &&
        CountsOwnNumber(ResetAll(elems)[j], counters[j])
    {
      ResetAllClearsVisible(elems, j);
    }
  }

  /** The callback starts a count-up for an intersecting statistic whose number has a count and no `data-animated`. */
  predicate StartsCountUp(e: Elem): (b: bool)
    ensures b ==> Observed(e) && !Animated(e) && Potential(e) == 1
  {
    StatClass in e.classes && e.number.Some? && e.number.value.count.Some? && !e.number.value.animated
  }

  /** The intersection callback on one entry. */
  function ApplyEntry(s: Scene, entry: Entry): (r: Scene)
    requires entry.target < |s.elems|
    ensures |r.elems| == |s.elems|
    ensures !entry.isIntersecting ==> r == s
    ensures s.counters.Keys <= r.counters.Keys <= s.counters.Keys + {entry.target}
    ensures var t := entry.target;
      entry.isIntersecting && StartsCountUp(s.elems[t]) ==>
        r.counters == s.counters[t := CountUp.Start(s.elems[t].number.value.count.value, Suffix(s.elems[t].number.value))]
    ensures !(entry.isIntersecting && StartsCountUp(s.elems[entry.target])) ==> r.counters == s.counters
  {
    if !entry.isIntersecting then s
    else
      var i := entry.target;
      var e := s.elems[i];
      var shown := e.(classes := e.classes + {VisibleClass});
      if StartsCountUp(e) then
        var n := e.number.value;
        Scene(s.elems[i := shown.(number := Some(n.(animated := true)))],
              s.counters[i := CountUp.Start(n.count.value, Suffix(n))])
      else
        Scene(s.elems[i := shown], s.counters)
  }

  predicate EntriesInRange(s: Scene, entries: seq<Entry>) {
    forall k :: 0 <= k < |entries| ==> entries[k].target < |s.elems|
  }

  /** The callback's `entries.forEach`, in order. */
  function ApplyEntries(s: Scene, entries: seq<Entry>): (r: Scene)
    requires EntriesInRange(s, entries)
    ensures |r.elems| == |s.elems|
    ensures s.counters.Keys <= r.counters.Keys
    decreases |entries|
  {
    if entries == [] then s
    else ApplyEntry(ApplyEntries(s, entries[..|entries| - 1]), entries[|entries| - 1])
  }

  /**
   * Every running interval belongs to an element whose number is marked
   * animated, and reaches its stopping branch.
   */
  predicate Consistent(s: Scene) {
    forall i :: i in s.counters ==>
      i < |s.elems| && Animated(s.elems[i]) && CountUp.Progresses(s.counters[i]) &&
      CountsOwnNumber(s.elems[i], s.counters[i])
  }

  /** The interval counts up to the element's own `data-count`, followed by its `data-suffix || ''`. */
  predicate CountsOwnNumber(e: Elem, c: CountUp.Counter) {
    e.number.Some? && e.number.value.count == Some(c.target) && c.suffix == Suffix(e.number.value)
  }

  /** One firing of the interval of element `i`, writing into its number. */
  function ApplyTick(s: Scene, i: nat): (r: Scene)
    requires Consistent(s)
    ensures |r.elems| == |s.elems|
    ensures i !in s.counters ==> r == s
    ensures r.counters.Keys <= s.counters.Keys
  {
    if i !in s.counters then s
    else
      var (w, next) := CountUp.Tick(s.counters[i]);
      var e := s.elems[i];
      var n := e.number.value;
      var elems := s.elems[i := e.(number := Some(n.(text := CountUp.Text(w))))];
      match next
      case None => Scene(elems, s.counters - {i})
      case Some(c) => Scene(elems, s.counters[i := c])
  }

  /** What can happen to a section: a setup, a batch of intersection entries, an interval tick. */
  datatype Event = Setup | Intersect(entries: seq<Entry>) | Tick(element: nat)

  predicate EventOk(s: Scene, ev: Event) {
    ev.Intersect? ==> EntriesInRange(s, ev.entries)
  }

  function Step(s: Scene, ev: Event): (r: Scene)
    requires Consistent(s) && EventOk(s, ev)
    ensures |r.elems| == |s.elems|
    ensures ev.Setup? ==> r.counters == s.counters
    ensures ev.Intersect? ==> s.counters.Keys <= r.counters.Keys
    ensures ev.Tick? ==> r.counters.Keys <= s.counters.Keys
  {
    match ev
    case Setup => Scene(ResetAll(s.elems), s.counters)
    case Intersect(entries) => ApplyEntries(s, entries)
    case Tick(i) => ApplyTick(s, i)
  }

  /** Every batch names elements of the section. */
  predicate TraceOk(n: nat, evs: seq<Event>) {
    forall k :: 0 <= k < |evs| ==>
      (evs[k].Intersect? ==> forall j :: 0 <= j < |evs[k].entries| ==> evs[k].entries[j].target < n)
  }

  /** The scene after a whole trace of events. */
  function Run(s: Scene, evs: seq<Event>): (r: Scene)
    requires Consistent(s) && TraceOk(|s.elems|, evs)
    ensures |r.elems| == |s.elems| && Consistent(r)
    decreases |evs|
  {
    if evs == [] then s
    else
      var prev := Run(s, evs[..|evs| - 1]);
      StepConsistent(prev, evs[|evs| - 1]);
      Step(prev, evs[|evs| - 1])
  }

  /** How many count-ups a batch of entries starts for element `i`. */
  function BatchStarts(s: Scene, entries: seq<Entry>, i: nat): nat
    requires EntriesInRange(s, entries)
    decreases |entries|
  {
    if entries == [] then 0
    else
      var prev := ApplyEntries(s, entries[..|entries| - 1]);
      var last := entries[|entries| - 1];
      BatchStarts(s, entries[..|entries| - 1], i)
        + (if last.target == i && last.isIntersecting && StartsCountUp(prev.elems[i]) then 1 else 0)
  }

  /** How many count-ups a trace starts for element `i`. */
  function TraceStarts(s: Scene, evs: seq<Event>, i: nat): nat
    requires Consistent(s) && TraceOk(|s.elems|, evs)
    decreases |evs|
  {
    if evs == [] then 0
    else
      var prev := Run(s, evs[..|evs| - 1]);
      var last := evs[|evs| - 1];
      TraceStarts(s, evs[..|evs| - 1], i)
        + (if last.Intersect? then BatchStarts(prev, last.entries, i) else 0)
  }

  // ---- one entry ----

  /**
   * An intersecting entry adds `visible` to its target's classes and, when
   * it starts a count-up, sets `data-animated` on its number, and does
   * nothing else to it; an entry changes nothing but its target and the
   * intervals.
   */
  lemma ApplyEntryEffect(s: Scene, entry: Entry, i: nat)
    requires entry.target < |s.elems| && i < |s.elems|
    ensures var r, t := ApplyEntry(s, entry), entry.target;
      (entry.isIntersecting && i == t ==> Visible(r.elems[i])) &&
      (entry.isIntersecting ==> r.elems[t].classes == s.elems[t].classes + {VisibleClass}) &&
      (entry.isIntersecting ==>
         r.elems[t].number ==
         (if StartsCountUp(s.elems[t]) then Some(s.elems[t].number.value.(animated := true)) else s.elems[t].number)) &&
      (!entry.isIntersecting ==> r == s) &&
      (i != t ==> r.elems[i] == s.elems[i])
  {
  }

  /** An entry never hides an element nor clears `data-animated`, and it uses up the potential when it starts a count-up. */
  lemma {:induction false} ApplyEntryMonotone(s: Scene, entry: Entry, i: nat)
    requires entry.target < |s.elems| && i < |s.elems|
    ensures var r := ApplyEntry(s, entry);
      (Visible(s.elems[i]) ==> Visible(r.elems[i])) &&
      (Animated(s.elems[i]) ==> Animated(r.elems[i])) &&
      (if entry.target == i && entry.isIntersecting && StartsCountUp(s.elems[i])
       then Potential(s.elems[i]) == 1 && Potential(r.elems[i]) == 0
       else Potential(r.elems[i]) <= Potential(s.elems[i]))
  {
    var r := ApplyEntry(s, entry);
    if entry.isIntersecting && entry.target == i {
      var e := s.elems[i];
      if StartsCountUp(e) {
        assert r.elems[i].number == Some(e.number.value.(animated := true));
      } else {
        assert r.elems[i].number == e.number;
      }
    }
  }

  lemma {:induction false} ApplyEntryConsistent(s: Scene, entry: Entry)
    requires Consistent(s) && entry.target < |s.elems|
    ensures Consistent(ApplyEntry(s, entry))
  {
    var r := ApplyEntry(s, entry);
    forall j | j in r.counters
      ensures j < |r.elems| && Animated(r.elems[j]) && CountUp.Progresses(r.counters[j]) &&
        CountsOwnNumber(r.elems[j], r.counters[j])
    {
      if j in s.counters {
        ApplyEntryMonotone(s, entry, j);
      }
      if entry.isIntersecting && entry.target == j && StartsCountUp(s.elems[j]) {
        var n := s.elems[j].number.value;
        CountUp.StartProgresses(n.count.value, Suffix(n));
      }
    }
  }

  // ---- a batch of entries ----

  lemma {:induction false} ApplyEntriesConsistent(s: Scene, entries: seq<Entry>)
    requires Consistent(s) && EntriesInRange(s, entries)
    ensures Consistent(ApplyEntries(s, entries))
    decreases |entries|
  {
    if entries != [] {
      var init := entries[..|entries| - 1];
      assert EntriesInRange(s, init);
      ApplyEntriesConsistent(s, init);
      ApplyEntryConsistent(ApplyEntries(s, init), entries[|entries| - 1]);
    }
  }

  /**
   * In a batch, revealed elements stay revealed, animated ones stay
   * animated, and the count-ups started for `i` plus the potential left
   * never exceed the potential before.
   */
  lemma {:induction false} ApplyEntriesMonotone(s: Scene, entries: seq<Entry>, i: nat)
    requires EntriesInRange(s, entries) && i < |s.elems|
    ensures var r := ApplyEntries(s, entries);
      (Visible(s.elems[i]) ==> Visible(r.elems[i])) &&
      (Animated(s.elems[i]) ==> Animated(r.elems[i])) &&
      BatchStarts(s, entries, i) + Potential(r.elems[i]) <= Potential(s.elems[i])
    decreases |entries|
  {
    if entries != [] {
      var init := entries[..|entries| - 1];
      assert EntriesInRange(s, init);
      ApplyEntriesMonotone(s, init, i);
      ApplyEntryMonotone(ApplyEntries(s, init), entries[|entries| - 1], i);
    }
  }

  /** Every intersecting entry of a batch leaves its target revealed. */
  lemma {:induction false} BatchReveals(s: Scene, entries: seq<Entry>, k: nat)
    requires EntriesInRange(s, entries) && k < |entries| && entries[k].isIntersecting
    ensures Visible(ApplyEntries(s, entries).elems[entries[k].target])
    decreases |entries|
  {
    var init := entries[..|entries| - 1];
    assert EntriesInRange(s, init);
    var t := entries[k].target;
    if k == |entries| - 1 {
      ApplyEntryEffect(ApplyEntries(s, init), entries[k], t);
    } else {
      assert init[k] == entries[k];
      BatchReveals(s, init, k);
      ApplyEntryMonotone(ApplyEntries(s, init), entries[|entries| - 1], t);
    }
  }

  // ---- ticks and setup ----

  /** A tick changes only the text of one number: classes, `data-animated` and counts stay. */
  lemma ApplyTickKeepsFlags(s: Scene, t: nat, i: nat)
    requires Consistent(s) && i < |s.elems|
    ensures var r := ApplyTick(s, t);
      r.elems[i].classes == s.elems[i].classes &&
      r.elems[i].number.Some? == s.elems[i].number.Some? &&
      (r.elems[i].number.Some? ==> r.elems[i].number.value.animated == s.elems[i].number.value.animated)
  {
  }

  /** A tick of element `i` rewrites the text of its number and nothing else; the interval advances or is cleared. */
  lemma ApplyTickEffect(s: Scene, i: nat)
    requires Consistent(s) && i in s.counters
    ensures var r, t := ApplyTick(s, i), CountUp.Tick(s.counters[i]);
      var e := s.elems[i];
      r.elems[i] == e.(number := Some(e.number.value.(text := CountUp.Text(t.0)))) &&
      (forall j :: 0 <= j < |s.elems| && j != i ==> r.elems[j] == s.elems[j]) &&
      (t.1.None? ==> i !in r.counters) &&
      (t.1.Some? ==> i in r.counters && r.counters[i] == t.1.value)
  {
  }

  lemma {:induction false} StepConsistent(s: Scene, ev: Event)
    requires Consistent(s) && EventOk(s, ev)
    ensures Consistent(Step(s, ev))
  {
    match ev
    case Setup =>
      forall j | j in s.counters
        ensures Animated(ResetAll(s.elems)[j]) && CountUp.Progresses(s.counters[j]) &&
          CountsOwnNumber(ResetAll(s.elems)[j], s.counters[j])
      {
        ResetAllClearsVisible(s.elems, j);
      }
    case Intersect(entries) => ApplyEntriesConsistent(s, entries);
    case Tick(t) =>
      var r := ApplyTick(s, t);
      forall j | j in r.counters
        ensures j < |r.elems| && Animated(r.elems[j]) && CountUp.Progresses(r.counters[j]) &&
        CountsOwnNumber(r.elems[j], r.counters[j])
      {
        ApplyTickKeepsFlags(s, t, j);
        if j == t {
          CountUp.RunUnfolds(s.counters[t]);
        }
      }
  }

  /** No event clears `data-animated`, and only a batch of entries can use up the potential. */
  lemma {:induction false} StepMonotone(s: Scene, ev: Event, i: nat)
    requires Consistent(s) && EventOk(s, ev) && i < |s.elems|
    ensures var r := Step(s, ev);
      (Animated(s.elems[i]) ==> Animated(r.elems[i])) &&
      (if ev.Intersect? then BatchStarts(s, ev.entries, i) else 0) + Potential(r.elems[i])
        <= Potential(s.elems[i])
  {
    match ev
    case Setup => ResetAllClearsVisible(s.elems, i);
    case Intersect(entries) => ApplyEntriesMonotone(s, entries, i);
    case Tick(t) => ApplyTickKeepsFlags(s, t, i);
  }

  /** Two versions of an element with a number that differ at most in the number's text. */
  predicate SameButText(a: Elem, b: Elem) {
    a.number.Some? && b.number.Some? && a.classes == b.classes &&
    a.number.value.count == b.number.value.count &&
    a.number.value.animated == b.number.value.animated &&
    a.number.value.suffix == b.number.value.suffix
  }

  /**
   * Element `i`'s interval, started in `s0`, has fired some ticks and the
   * section is now `s`: `written` is what it wrote so far, and together
   * with the rest of its run it is the whole run from `s0`; only the text
   * of `i`'s number and `i`'s interval have changed, and once the interval
   * is cleared the number shows the target and suffix.
   */
  ghost predicate CountingDown(s0: Scene, i: nat, written: seq<CountUp.Write>, s: Scene) {
    OnlyTextChanged(s0, i, s) && OnlyIntervalChanged(s0, i, s) && WrittenSoFar(s0, i, written, s)
  }

  /** Only the text of element `i`'s number differs between `s0` and `s`. */
  predicate OnlyTextChanged(s0: Scene, i: nat, s: Scene) {
    i < |s0.elems| && |s.elems| == |s0.elems| &&
    SameButText(s0.elems[i], s.elems[i]) &&
    (forall j :: 0 <= j < |s.elems| && j != i ==> s.elems[j] == s0.elems[j])
  }

  /** Only element `i`'s interval differs between `s0` and `s`: it has advanced or been cleared. */
  predicate OnlyIntervalChanged(s0: Scene, i: nat, s: Scene) {
    i in s0.counters &&
    (i in s.counters ==> s.counters == s0.counters[i := s.counters[i]]) &&
    (i !in s.counters ==> s.counters == s0.counters - {i})
  }

  /** The writes so far and the rest of the run make up the whole run; once it is over, the number shows the last write. */
  ghost predicate WrittenSoFar(s0: Scene, i: nat, written: seq<CountUp.Write>, s: Scene) {
    i in s0.counters && CountUp.Progresses(s0.counters[i]) &&
    i < |s.elems| && s.elems[i].number.Some? &&
    (i in s.counters ==>
      (CountUp.Progresses(s.counters[i]) && written + CountUp.Run(s.counters[i]) == CountUp.Run(s0.counters[i]))) &&
    (i !in s.counters ==>
      (written == CountUp.Run(s0.counters[i]) &&
       s.elems[i].number.value.text == CountUp.Text(CountUp.Done(s0.counters[i].target, s0.counters[i].suffix))))
  }

  /** A running interval that has not fired yet is counting down with nothing written. */
  lemma CountingDownStart(s: Scene, i: nat)
    requires Consistent(s) && i in s.counters
    ensures CountingDown(s, i, [], s)
  {
    assert [] + CountUp.Run(s.counters[i]) == CountUp.Run(s.counters[i]);
    assert s.counters == s.counters[i := s.counters[i]];
  }

  /** One more tick of the interval keeps it counting down, with its write appended, and brings the stop nearer. */
  lemma CountingDownTick(s0: Scene, i: nat, written: seq<CountUp.Write>, s: Scene)
    requires Consistent(s) && CountingDown(s0, i, written, s) && i in s.counters
    ensures CountingDown(s0, i, written + [CountUp.Tick(s.counters[i]).0], ApplyTick(s, i))
    ensures i in ApplyTick(s, i).counters ==>
      CountUp.Remaining(ApplyTick(s, i).counters[i]) < CountUp.Remaining(s.counters[i])
  {
    TickKeepsOnlyText(s0, i, s);
    TickKeepsOnlyInterval(s0, i, s);
    TickKeepsWritten(s0, i, written, s);
  }

  lemma TickKeepsOnlyText(s0: Scene, i: nat, s: Scene)
    requires Consistent(s) && OnlyTextChanged(s0, i, s) && i in s.counters
    ensures OnlyTextChanged(s0, i, ApplyTick(s, i))
  {
    ApplyTickEffect(s, i);
    assert SameButText(s.elems[i], ApplyTick(s, i).elems[i]);
  }

  lemma TickKeepsOnlyInterval(s0: Scene, i: nat, s: Scene)
    requires Consistent(s) && OnlyIntervalChanged(s0, i, s) && i in s.counters
    ensures OnlyIntervalChanged(s0, i, ApplyTick(s, i))
  {
    var r := ApplyTick(s, i);
    ApplyTickEffect(s, i);
    if i in r.counters {
      assert r.counters == s0.counters[i := r.counters[i]];
    } else {
      assert r.counters == s0.counters - {i};
    }
  }

  lemma TickKeepsWritten(s0: Scene, i: nat, written: seq<CountUp.Write>, s: Scene)
    requires Consistent(s) && WrittenSoFar(s0, i, written, s) && i in s.counters
    ensures WrittenSoFar(s0, i, written + [CountUp.Tick(s.counters[i]).0], ApplyTick(s, i))
    ensures i in ApplyTick(s, i).counters ==>
      CountUp.Remaining(ApplyTick(s, i).counters[i]) < CountUp.Remaining(s.counters[i])
  {
    CountUp.RunStep(s0.counters[i], written, s.counters[i]);
    ApplyTickEffect(s, i);
  }

  // ---- whole traces ----

  /**
   * The count-up of an element starts at most once over any sequence of
   * setups, intersections and ticks, and never once its number carries
   * `data-animated`.
   */
  lemma {:induction false} CountUpStartsAtMostOnce(s: Scene, evs: seq<Event>, i: nat)
    requires Consistent(s) && TraceOk(|s.elems|, evs) && i < |s.elems|
    ensures TraceStarts(s, evs, i) + Potential(Run(s, evs).elems[i]) <= Potential(s.elems[i])
    ensures TraceStarts(s, evs, i) <= 1
    ensures Animated(s.elems[i]) ==> TraceStarts(s, evs, i) == 0 && Animated(Run(s, evs).elems[i])
    decreases |evs|
  {
    if evs != [] {
      var init := evs[..|evs| - 1];
      var last := evs[|evs| - 1];
      assert TraceOk(|s.elems|, init) by {
        forall k | 0 <= k < |init| ensures init[k] == evs[k] { }
      }
      CountUpStartsAtMostOnce(s, init, i);
      var prev := Run(s, init);
      assert EventOk(prev, last);
      StepMonotone(prev, last, i);
    }
  }

  /** A statistic whose count-up has run to its end: its number carries `data-animated` and no interval runs for it. */
  predicate Finished(s: Scene, i: nat) {
    i < |s.elems| && Animated(s.elems[i]) && i !in s.counters
  }

  /** An entry for a finished statistic reveals it at most: its number and its (absent) interval stay. */
  lemma ApplyEntryKeepsFinished(s: Scene, entry: Entry, i: nat)
    requires entry.target < |s.elems| && Finished(s, i)
    ensures var r := ApplyEntry(s, entry);
      Finished(r, i) && r.elems[i].number == s.elems[i].number
  {
  }

  lemma {:induction false} ApplyEntriesKeepsFinished(s: Scene, entries: seq<Entry>, i: nat)
    requires EntriesInRange(s, entries) && Finished(s, i)
    ensures var r := ApplyEntries(s, entries);
      Finished(r, i) && r.elems[i].number == s.elems[i].number
    decreases |entries|
  {
    if entries != [] {
      var init := entries[..|entries| - 1];
      assert EntriesInRange(s, init);
      ApplyEntriesKeepsFinished(s, init, i);
      ApplyEntryKeepsFinished(ApplyEntries(s, init), entries[|entries| - 1], i);
    }
  }

  /** No event restarts or rewrites a finished statistic. */
  lemma StepKeepsFinished(s: Scene, ev: Event, i: nat)
    requires Consistent(s) && EventOk(s, ev) && Finished(s, i)
    ensures Finished(Step(s, ev), i) && Step(s, ev).elems[i].number == s.elems[i].number
  {
    match ev
    case Setup => ResetAllClearsVisible(s.elems, i);
    case Intersect(entries) => ApplyEntriesKeepsFinished(s, entries, i);
    case Tick(t) =>
  }

  /**
   * A running interval ends by showing its own element's `data-count`
   * followed by `data-suffix || ''`.
   */
  lemma RunEndsWithOwnCount(s: Scene, i: nat)
    requires Consistent(s) && i in s.counters
    ensures var ws, n := CountUp.Run(s.counters[i]), s.elems[i].number.value;
      n.count.Some? && CountUp.Text(ws[|ws| - 1]) == CountUp.Text(CountUp.Done(n.count.value, Suffix(n)))
  {
  }

  /**
   * A statistic with `data-count="98"` and `data-suffix="%"` that comes into
   * view starts the count-up that ends showing `98%`.
   */
  lemma NinetyEightPercentStat(s: Scene, i: nat)
    requires i < |s.elems| && StatClass in s.elems[i].classes
    requires s.elems[i].number == Some(StatNumber(Some(98), false, Some("%"), "0"))
    ensures var r := ApplyEntry(s, Entry(i, true));
      i in r.counters && CountUp.Progresses(r.counters[i]) &&
      var ws := CountUp.Run(r.counters[i]); CountUp.Text(ws[|ws| - 1]) == "98%"
  {
    CountUp.NinetyEightPercent(98, "%");
  }

  /**
   * Once a statistic's count-up has finished, its number (the text the last
   * write left, `data-animated` and the rest) never changes again and no
   * interval is started for it, whatever setups, intersections and ticks
   * follow.
   */
  lemma {:induction false} FinishedStaysFinished(s: Scene, evs: seq<Event>, i: nat)
    requires Consistent(s) && TraceOk(|s.elems|, evs) && Finished(s, i)
    ensures Finished(Run(s, evs), i) && Run(s, evs).elems[i].number == s.elems[i].number
    decreases |evs|
  {
    if evs != [] {
      var init := evs[..|evs| - 1];
      var last := evs[|evs| - 1];
      assert TraceOk(|s.elems|, init) by {
        forall k | 0 <= k < |init| ensures init[k] == evs[k] { }
      }
      FinishedStaysFinished(s, init, i);
      var prev := Run(s, init);
      assert EventOk(prev, last);
      StepKeepsFinished(prev, last, i);
    }
  }

  /** Between setups, a revealed element stays revealed: entries and ticks never remove `visible`. */
  lemma StepKeepsVisible(s: Scene, ev: Event, i: nat)
    requires Consistent(s) && EventOk(s, ev) && i < |s.elems| && !ev.Setup?
    requires Visible(s.elems[i])
    ensures Visible(Step(s, ev).elems[i])
  {
    match ev
    case Intersect(entries) => ApplyEntriesMonotone(s, entries, i);
    case Tick(t) => ApplyTickKeepsFlags(s, t, i);
  }
}
