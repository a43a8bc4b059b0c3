/**
 * The `useIntersectionObserver` hook (src/hooks/useIntersectionObserver.ts).
 *
 * Per observed target the hook keeps two pieces of state: the published
 * `isIntersecting` flag (React state, initially false) and the `hasTriggered`
 * latch (a ref, initially false, that lives outside the effect). While an
 * observer is connected, each report of the browser's IntersectionObserver
 * is reduced here to one boolean, the `isIntersecting` of its first entry;
 * threshold, root and rootMargin only decide WHEN such reports arrive.
 */
module Visibility {

  datatype LatchState = LatchState(isIntersecting: bool, hasTriggered: bool)

  /** The state before any report: `useState(false)` and `useRef(false)`. */
  const Initial := LatchState(false, false)

  /** The observer callback, run on one report. */
  function Callback(s: LatchState, triggerOnce: bool, entryIntersecting: bool): (r: LatchState)
    // continuous tracking: the flag follows the report, the latch is never touched
    ensures !triggerOnce ==> r.isIntersecting == entryIntersecting && r.hasTriggered == s.hasTriggered
    // a fired latch makes every report a no-op
    ensures triggerOnce && s.hasTriggered ==> r == s
    // before it fires, the latch fires exactly on an intersecting report, and the flag only rises
    ensures triggerOnce && !s.hasTriggered ==>
              r.hasTriggered == entryIntersecting && r.isIntersecting == (s.isIntersecting || entryIntersecting)
    // single-fire mode never clears the flag
    ensures triggerOnce && s.isIntersecting ==> r.isIntersecting
  {
    if triggerOnce && s.hasTriggered then s
    else if entryIntersecting then LatchState(true, if triggerOnce then true else s.hasTriggered)
    else if !triggerOnce then s.(isIntersecting := false)
    else s
  }

  /** The state after a stream of reports delivered to one observer, oldest first. */
  function Run(s: LatchState, triggerOnce: bool, reports: seq<bool>): LatchState
  {
    if reports == [] then s
    else Callback(Run(s, triggerOnce, reports[..|reports| - 1]), triggerOnce, reports[|reports| - 1])
  }

  /** The invariant of one subscription's life: a fired latch implies a raised flag,
      and only single-fire mode ever fires the latch. */
  predicate Consistent(s: LatchState, triggerOnce: bool)
  {
    (s.hasTriggered ==> s.isIntersecting) && (!triggerOnce ==> !s.hasTriggered)
  }

  lemma {:induction false} ConsistentAlongRun(triggerOnce: bool, reports: seq<bool>)
    ensures Consistent(Run(Initial, triggerOnce, reports), triggerOnce)
  {
    if reports != [] {
      ConsistentAlongRun(triggerOnce, reports[..|reports| - 1]);
    }
  }

  /** With `triggerOnce` false, the flag after a non-empty stream is the last report's value,
      and the latch keeps whatever value it had. */
  lemma {:induction false} TrackingFollowsLastReport(s: LatchState, reports: seq<bool>)
    requires reports != []
    ensures Run(s, false, reports).isIntersecting == reports[|reports| - 1]
    ensures Run(s, false, reports).hasTriggered == s.hasTriggered
  {
    var prefix := reports[..|reports| - 1];
    if prefix != [] {
      TrackingFollowsLastReport(s, prefix);
    }
  }

  /** With `triggerOnce` true and a fresh latch, the latch has fired, and the flag is raised,
      exactly when some report so far was intersecting. */
  lemma {:induction false} SingleFireLatchesOnFirstIntersection(reports: seq<bool>)
    ensures Run(Initial, true, reports) == if true in reports then LatchState(true, true) else Initial
  {
    if reports != [] {
      var prefix := reports[..|reports| - 1];
      SingleFireLatchesOnFirstIntersection(prefix);
      assert reports == prefix + [reports[|reports| - 1]];
      assert (true in reports) == (true in prefix || reports[|reports| - 1]);
    }
  }

  /** With `triggerOnce` true, once the latch has fired no later report changes anything. */
  lemma {:induction false} FiredLatchIgnoresReports(s: LatchState, reports: seq<bool>)
    requires s.hasTriggered
    ensures Run(s, true, reports) == s
  {
    if reports != [] {
      FiredLatchIgnoresReports(s, reports[..|reports| - 1]);
    }
  }

  /** With `triggerOnce` true the flag is monotone along the stream: once raised after a
      prefix of the reports, it is still raised after the whole stream. */
  lemma {:induction false} SingleFireIsMonotone(s: LatchState, reports: seq<bool>, k: nat)
    requires k <= |reports|
    requires Run(s, true, reports[..k]).isIntersecting
    ensures Run(s, true, reports).isIntersecting
  {
    if k < |reports| {
      var prefix := reports[..|reports| - 1];
      assert prefix[..k] == reports[..k];
      SingleFireIsMonotone(s, prefix, k);
    } else {
      assert reports[..k] == reports;
    }
  }

  /** The latch is a ref, so it outlives a re-subscription. If the options change from
      single-fire to tracking and back after the latch fired, a non-intersecting report
      in tracking mode lowers the flag and the old latch then silences every later report:
      the target stays reported as not visible for good. */
  lemma StaleLatchAfterOptionToggle(later: seq<bool>)
    ensures Run(Initial, true, [true]) == LatchState(true, true)
    ensures Callback(LatchState(true, true), false, false) == LatchState(false, true)
    ensures Run(LatchState(false, true), true, later) == LatchState(false, true)
  {
    assert [true][..0] == [];
    FiredLatchIgnoresReports(LatchState(false, true), later);
  }

  /**
   * One use of the hook. The effect of lines 18-39 subscribes an observer when the target
   * element is mounted; its cleanup disconnects it. React runs the cleanup before re-running
   * the effect when an option changes, and on unmount, so at most one observer is connected.
   */
  class IntersectionHook {
    var isIntersecting: bool
    var hasTriggered: bool
    /** whether an observer is connected */
    var observing: bool
    /** the `triggerOnce` option captured by the connected observer's callback */
    var triggerOnce: bool

    function State(): LatchState
      reads this
    {
      LatchState(isIntersecting, hasTriggered)
    }

    constructor ()
      ensures State() == Initial && !observing
    {
      isIntersecting, hasTriggered := false, false;
      observing, triggerOnce := false, false;
    }

    /** The effect body: with no element there is no observer; otherwise one observer is
        connected whose callback sees the current `triggerOnce`. The state is not touched. */
    method Subscribe(elementMounted: bool, triggerOnceOption: bool)
      requires !observing
      modifies this
      ensures observing == elementMounted
      ensures triggerOnce == if elementMounted then triggerOnceOption else old(triggerOnce)
      ensures State() == old(State())
    {
      if !elementMounted {
        return;
      }
      observing := true;
      triggerOnce := triggerOnceOption;
    }

    /** A report from the browser: the callback runs only while the observer is connected. */
    method OnEntry(entryIntersecting: bool)
      modifies this
      ensures observing == old(observing) && triggerOnce == old(triggerOnce)
      ensures State() == if observing then Callback(old(State()), triggerOnce, entryIntersecting)
                         else old(State())
    {
      if !observing {
        return;
      }
      if triggerOnce && hasTriggered {
        return;
      }
      if entryIntersecting {
        isIntersecting := true;
        if triggerOnce {
          hasTriggered := true;
        }
      } else if !triggerOnce {
        isIntersecting := false;
      }
    }

    /** The effect's cleanup, `observer.disconnect()`. */
    method Disconnect()
      modifies this
      ensures !observing && triggerOnce == old(triggerOnce)
      ensures State() == old(State())
    {
      observing := false;
    }

    /** A change of the options re-runs the effect after its cleanup; the flag and the latch
        carry over unchanged. */
    method OptionsChanged(elementMounted: bool, triggerOnceOption: bool)
      modifies this
      ensures observing == elementMounted
      ensures elementMounted ==> triggerOnce == triggerOnceOption
      ensures State() == old(State())
    {
      Disconnect();
      Subscribe(elementMounted, triggerOnceOption);
    }
  }
}
