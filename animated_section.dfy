/**
 * The reveal controller of one section as the component runs it: the
 * observer reference it replaces on every setup, the class lists and
 * `data-animated` flags it writes in place, the count-up intervals it
 * starts, and the page-load listener with its deferred re-setups.
 */
module AnimatedSection {
  import opened Wrappers
  import opened Reveal
  import CountUp

  /** An IntersectionObserver created by the section: the elements it observes, and whether it is still connected. */
  datatype Observer = Observer(targets: set<nat>, connected: bool)

  /** `observerRef.current?.disconnect()`: the most recent observer, if any, stops observing. */
  function DisconnectCurrent(obs: seq<Observer>): (r: seq<Observer>)
    ensures |r| == |obs|
    ensures forall j :: 0 <= j < |obs| - 1 ==> r[j] == obs[j]
    ensures obs != [] ==> r[|r| - 1] == obs[|obs| - 1].(connected := false)
  {
    if obs == [] then [] else obs[|obs| - 1 := obs[|obs| - 1].(connected := false)]
  }

  /** The observers still delivering entries. */
  function Live(obs: seq<Observer>): set<nat> {
    set j: nat | j < |obs| && obs[j].connected
  }

  /** Only the observer in `observerRef` may still be connected. */
  predicate OnlyCurrentConnected(obs: seq<Observer>) {
    forall j :: 0 <= j < |obs| - 1 ==> !obs[j].connected
  }

  /** At most one observer per section is ever live. */
  lemma AtMostOneLive(obs: seq<Observer>)
    requires OnlyCurrentConnected(obs)
    ensures Live(obs) <= {|obs| - 1}
    ensures |Live(obs)| <= 1
  {
    if obs == [] {
      assert Live(obs) == {};
    } else if obs[|obs| - 1].connected {
      assert Live(obs) == {|obs| - 1};
    } else {
      assert Live(obs) == {};
    }
  }

  /** Disconnecting the current observer and adding a connected one leaves exactly the new one live. */
  lemma LiveAfterSetup(obs: seq<Observer>, observer: Observer)
    requires OnlyCurrentConnected(obs) && observer.connected
    ensures OnlyCurrentConnected(DisconnectCurrent(obs) + [observer])
    ensures Live(DisconnectCurrent(obs) + [observer]) == {|obs|}
  {
    var r := DisconnectCurrent(obs) + [observer];
    assert forall j :: 0 <= j < |r| - 1 ==> !r[j].connected;
    assert Live(r) == {|obs|};
  }

  /**
   * The descendant loop of setup: every element matching the reveal
   * selector loses `visible` and is handed to the observer.
   */
  method ResetObserved(elems: seq<Elem>) returns (es: seq<Elem>, targets: set<nat>)
    ensures es == ResetAll(elems)
    ensures targets == ObservedIndices(elems)
  {
    es := elems;
    targets := {};
    var i := 0;
    while i < |es|
      invariant 0 <= i <= |es| == |elems|
      invariant forall j :: 0 <= j < i ==> es[j] == Reset(elems[j])
      invariant forall j :: i <= j < |es| ==> es[j] == elems[j]
      invariant targets == ObservedBelow(elems, i)
    {
      var el := es[i];
      if Observed(el) {
        es := es[i := el.(classes := el.classes - {VisibleClass})];
        targets := targets + {i};
      }
      i := i + 1;
    }
  }

  class Section {
    /** The section's descendants, in document order. */
    var elems: seq<Elem>
    /** The count-up intervals still running, by element. */
    var counters: map<nat, CountUp.Counter>
    /** Every observer the section has created, oldest first; the last is `observerRef.current`. */
    var observers: seq<Observer>
    /** `sectionRef.current !== null`. */
    var mounted: bool
    /** Whether the `astro:page-load` listener is registered. */
    var pageLoadListener: bool
    /** 100 ms re-setup timeouts armed by page loads that have not fired yet. */
    var pendingSetups: nat

    ghost predicate Valid()
      reads this
    {
      Consistent(Scene(elems, counters)) &&
      OnlyCurrentConnected(observers) &&
      (forall j, t :: 0 <= j < |observers| && t in observers[j].targets ==> t < |elems|)
    }

    function State(): Scene
      reads this
    {
      Scene(elems, counters)
    }

    /** The section rendered with its children; no observer yet. */
    constructor (elems: seq<Elem>)
      ensures Valid()
      ensures this.elems == elems && counters == map[] && observers == []
      ensures mounted && !pageLoadListener && pendingSetups == 0
    {
      this.elems := elems;
      counters := map[];
      observers := [];
      mounted := true;
      pageLoadListener := false;
      pendingSetups := 0;
    }

    /**
     * `setupObserver`: the current observer is disconnected and replaced by
     * a new one that observes exactly the matching descendants, each of
     * which loses `visible`. Nothing else changes; with the section
     * unmounted, the new observer observes nothing.
     */
    method Setup()
      requires Valid()
      modifies this
      ensures Valid()
      ensures elems == if mounted then ResetAll(old(elems)) else old(elems)
      ensures observers == DisconnectCurrent(old(observers))
        + [Observer(if mounted then ObservedIndices(old(elems)) else {}, true)]
      ensures Live(observers) == {|observers| - 1}
      ensures counters == old(counters) && mounted == old(mounted)
      ensures pageLoadListener == old(pageLoadListener) && pendingSetups == old(pendingSetups)
    {
      var previous := DisconnectCurrent(observers);
      var observer := Observer({}, true);
      if mounted {
        var es, targets := ResetObserved(elems);
        ResetKeepsConsistent(elems, counters);
        elems := es;
        observer := Observer(targets, true);
      }
      observers := previous + [observer];
      LiveAfterSetup(previous, observer);
    }

    /** The mount effect: a first setup, then the page-load listener. */
    method MountEffect()
      requires Valid()
      modifies this
      ensures Valid()
      ensures elems == if mounted then ResetAll(old(elems)) else old(elems)
      ensures observers == DisconnectCurrent(old(observers))
        + [Observer(if mounted then ObservedIndices(old(elems)) else {}, true)]
      ensures pageLoadListener
      ensures counters == old(counters) && mounted == old(mounted) && pendingSetups == old(pendingSetups)
    {
      Setup();
      pageLoadListener := true;
    }

    /** An `astro:page-load` event: while listening, a re-setup is deferred by 100 ms. */
    method OnPageLoad()
      modifies this`pendingSetups
      ensures pendingSetups == if pageLoadListener then old(pendingSetups) + 1 else old(pendingSetups)
    {
      if pageLoadListener {
        pendingSetups := pendingSetups + 1;
      }
    }

    /** One deferred re-setup fires (even after the section has unmounted). */
    method FireDeferredSetup()
      requires Valid() && pendingSetups > 0
      modifies this
      ensures Valid()
      ensures pendingSetups == old(pendingSetups) - 1
      ensures elems == if mounted then ResetAll(old(elems)) else old(elems)
      ensures observers == DisconnectCurrent(old(observers))
        + [Observer(if mounted then ObservedIndices(old(elems)) else {}, true)]
      ensures counters == old(counters) && mounted == old(mounted) && pageLoadListener == old(pageLoadListener)
    {
      pendingSetups := pendingSetups - 1;
      Setup();
    }

    /**
     * The observer's callback on a batch of entries for elements it
     * observes: each intersecting entry reveals its target and, for a
     * statistic not yet animated, marks it animated and starts its count-up.
     */
    method OnIntersect(entries: seq<Entry>)
      requires Valid() && observers != [] && observers[|observers| - 1].connected
      requires forall k :: 0 <= k < |entries| ==> entries[k].target in observers[|observers| - 1].targets
      modifies this`elems, this`counters
      ensures Valid()
      ensures EntriesInRange(old(State()), entries)
      ensures State() == ApplyEntries(old(State()), entries)
    {
      ghost var s0 := State();
      assert EntriesInRange(s0, entries);
      var k := 0;
      while k < |entries|
        invariant 0 <= k <= |entries|
        invariant EntriesInRange(s0, entries[..k])
        invariant State() == ApplyEntries(s0, entries[..k])
      {
        var entry := entries[k];
        if entry.isIntersecting {
          var i := entry.target;
          var el := elems[i];
          elems := elems[i := el.(classes := el.classes + {VisibleClass})];
          if StatClass in el.classes && el.number.Some? {
            var n := el.number.value;
            if n.count.Some? && !n.animated {
              elems := elems[i := elems[i].(number := Some(n.(animated := true)))];
              counters := counters[i := CountUp.Start(n.count.value, Suffix(n))];
            }
          }
        }
        assert entries[..k + 1][..k] == entries[..k];
        k := k + 1;
      }
      assert entries[..k] == entries;
      ApplyEntriesConsistent(s0, entries);
    }

    /**
     * One firing of the count-up interval of element `i`: it returns what
     * it wrote into the element's number, and clears the interval on the
     * write that reaches the target.
     */
    method OnTick(i: nat) returns (w: CountUp.Write)
      requires Valid() && i in counters
      modifies this`elems, this`counters
      ensures Valid()
      ensures w == CountUp.Tick(old(counters[i])).0
      ensures State() == ApplyTick(old(State()), i)
    {
      var c := counters[i];
      var current := c.current + c.increment;
      var el := elems[i];
      var n := el.number.value;
      ghost var t := CountUp.Tick(c);
      if current >= c.target as real {
        w := CountUp.Done(c.target, c.suffix);
        assert t == (w, None);
        counters := counters - {i};
      } else {
        w := CountUp.Shown(current.Floor);
        assert t == (w, Some(c.(current := current)));
        counters := counters[i := c.(current := current)];
      }
      elems := elems[i := el.(number := Some(n.(text := CountUp.Text(w))))];
      StepConsistent(old(State()), Reveal.Tick(i));
    }

    /**
     * The interval of element `i` keeps firing until it clears itself: its
     * writes are exactly those of `CountUp.Run`, the number ends showing the
     * target and suffix, and nothing else in the section changes. The
     * statistic is then finished: see `Reveal.FinishedStaysFinished`.
     */
    method RunCountUp(i: nat) returns (writes: seq<CountUp.Write>)
      requires Valid() && i in counters
      modifies this`elems, this`counters
      ensures Valid()
      ensures writes == CountUp.Run(old(counters[i]))
      ensures counters == old(counters) - {i} && Finished(State(), i)
      ensures |elems| == |old(elems)|
      ensures elems[i] == old(elems[i]).(number := Some(old(elems[i]).number.value.(text :=
        CountUp.Text(CountUp.Done(old(counters[i]).target, old(counters[i]).suffix)))))
      ensures forall j :: 0 <= j < |elems| && j != i ==> elems[j] == old(elems[j])
      ensures var n := elems[i].number.value;
        n.count.Some? && n.text == CountUp.Text(CountUp.Done(n.count.value, Suffix(n)))
    {
      ghost var s0 := State();
      CountingDownStart(s0, i);
      writes := [];
      while i in counters
        invariant Valid() && CountingDown(s0, i, writes, State())
        decreases if i in counters then CountUp.Remaining(counters[i]) + 1 else 0
      {
        ghost var before := State();
        CountingDownTick(s0, i, writes, before);
        var w := OnTick(i);
        writes := writes + [w];
      }
      assert elems[i].number.value == old(elems[i]).number.value.(text := elems[i].number.value.text);
    }

    /** The effect's cleanup: the current observer is disconnected and the listener removed; the section is gone. */
    method Unmount()
      requires Valid()
      modifies this
      ensures Valid()
      ensures observers == DisconnectCurrent(old(observers)) && Live(observers) == {}
      ensures !pageLoadListener && !mounted
      ensures elems == old(elems) && counters == old(counters) && pendingSetups == old(pendingSetups)
    {
      observers := DisconnectCurrent(observers);
      pageLoadListener := false;
      mounted := false;
      AtMostOneLive(observers);
      if observers != [] {
        assert !observers[|observers| - 1].connected;
      }
    }
  }
}
