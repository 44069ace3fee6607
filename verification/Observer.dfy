/**
 * The observer: one pass of a session's loop over the graph, the decision to rebuild the ROS context,
 * and the backoff between rebuilds.
 */
module Observer {
  import opened Basics
  import opened GraphSnapshots

  /** Longest interval between rebuilds, in milliseconds. */
  const MAX_REINIT_MS: nat := 600_000

  /** Milliseconds between parameter polls. */
  const POLL_PAUSE_MS: nat := 5_000

  // ---------- what a session concludes from its observations ----------

  /**
   * A look: whether the extension was installed, what reading the graph gave, the clock when that was judged,
   * and the clock when the rebuild was decided on.
   */
  datatype Observation = Observation(installed: bool, read: Result<Snapshot>, found: nat, decided: nat)

  datatype Session = Session(emptySince: Option<nat>, sawGraph: bool)

  /** An empty graph starts the clock or leaves it running, peers stop it and are remembered, anything else stops it. */
  function Watch(s: Session, o: Observation): Session {
    if !o.installed || o.read.Err? then s.(emptySince := None)
    else if o.read.value.nodes != [] || o.read.value.topics != [] then Session(None, true)
    else if s.emptySince.None? then s.(emptySince := Some(o.found))
    else s
  }

  /** The extension was there, the graph was read, and there was nothing in it. */
  predicate IsEmpty(o: Observation) {
    o.installed && o.read.Ok? && Rows(o.read.value) == []
  }

  /** The extension was there, the graph was read, and there was something in it. */
  predicate HasPeers(o: Observation) {
    o.installed && o.read.Ok? && Rows(o.read.value) != []
  }

  predicate Blind(s: Session, now: nat, threshold: Option<nat>) {
    s.emptySince.Some? && threshold.Some? && now >= s.emptySince.value + threshold.value
  }

  function Watched(seen: seq<Observation>): Session {
    if seen == [] then Session(None, false) else Watch(Watched(seen[..|seen| - 1]), seen[|seen| - 1])
  }

  /** The session's last observations, from the `i`-th on, were all successful and empty. */
  predicate EmptyFrom(seen: seq<Observation>, i: nat) {
    forall k | i <= k < |seen| :: IsEmpty(seen[k])
  }

  predicate ClockRuns(seen: seq<Observation>) {
    && (forall k | 0 <= k < |seen| :: seen[k].found <= seen[k].decided)
    && (forall j, k | 0 <= j < k < |seen| :: seen[j].decided <= seen[k].found)
  }

  /** `emptySince` is when the current stretch of empty observations began. */
  lemma {:induction false} EmptySinceBeginsStretch(seen: seq<Observation>)
    ensures match Watched(seen).emptySince
      case None => seen == [] || !IsEmpty(seen[|seen| - 1])
      case Some(since) =>
        exists i | 0 <= i < |seen| ::
          EmptyFrom(seen, i) && seen[i].found == since && (i > 0 ==> !IsEmpty(seen[i - 1]))
  {
    if seen != [] {
      var front := seen[..|seen| - 1];
      EmptySinceBeginsStretch(front);
      if IsEmpty(seen[|seen| - 1]) {
        var i: nat;
        if Watched(front).emptySince.Some? {
          i :| 0 <= i < |front| && EmptyFrom(front, i) && front[i].found == Watched(front).emptySince.value
               && (i > 0 ==> !IsEmpty(front[i - 1]));
        } else {
          i := |front|;
        }
        assert EmptyFrom(seen, i);
      }
    }
  }

  /** A session has seen the graph exactly when an installed observation in it was not empty. */
  lemma {:induction false} SawGraphExactly(seen: seq<Observation>)
    ensures Watched(seen).sawGraph <==> exists k | 0 <= k < |seen| ::
              seen[k].installed && seen[k].read.Ok? && Rows(seen[k].read.value) != []
  {
    if seen != [] {
      var front, last := seen[..|seen| - 1], |seen| - 1;
      SawGraphExactly(front);
      assert forall k | 0 <= k < last :: front[k] == seen[k];
    }
  }

  lemma BlindFrom(seen: seq<Observation>, threshold: Option<nat>)
    requires seen != [] && ClockRuns(seen)
    ensures Blind(Watched(seen), seen[|seen| - 1].decided, threshold) <==>
            threshold.Some? && exists i | 0 <= i < |seen| ::
              EmptyFrom(seen, i) && seen[|seen| - 1].decided >= seen[i].found + threshold.value
  {
    hide Rows, Watched;
    EmptySinceBeginsStretch(seen);
    var since := Watched(seen).emptySince;
    if since.Some? && threshold.Some? {
      var b :| 0 <= b < |seen| && EmptyFrom(seen, b) && seen[b].found == since.value
               && (b > 0 ==> !IsEmpty(seen[b - 1]));
      forall i | 0 <= i < |seen| && EmptyFrom(seen, i)
        ensures seen[b].found <= seen[i].found
      {
        if i < b {
          assert false;
        }
      }
    }
  }

  /**
   * A session is blind exactly when rebuilding is enabled and a stretch of installed, successful and empty
   * observations that reaches up to now has lasted for the threshold.
   */
  lemma BlindExactly(seen: seq<Observation>, threshold: Option<nat>)
    requires seen != [] && ClockRuns(seen)
    ensures Blind(Watched(seen), seen[|seen| - 1].decided, threshold) <==>
            threshold.Some? && exists i | 0 <= i < |seen| ::
              && seen[|seen| - 1].decided >= seen[i].found + threshold.value
              && forall k | i <= k < |seen| ::
                   seen[k].installed && seen[k].read.Ok? && Rows(seen[k].read.value) == []
  {
    BlindFrom(seen, threshold);
    hide Rows, Watched, Blind;
    assert forall i: nat | i < |seen| :: EmptyFrom(seen, i) <==>
             forall k | i <= k < |seen| :: seen[k].installed && seen[k].read.Ok? && Rows(seen[k].read.value) == [];
  }

  // ---------- one session ----------

  datatype Outcome = Terminated | Reinitialize(sawGraph: bool)

  /** How a session goes on from its state over the observations still to come. */
  function OutcomeFrom(s: Session, seen: seq<Observation>, threshold: Option<nat>): Outcome
    decreases seen
  {
    if seen == [] then Terminated
    else
      var next := Watch(s, seen[0]);
      if Blind(next, seen[0].decided, threshold) then Reinitialize(next.sawGraph)
      else OutcomeFrom(next, seen[1..], threshold)
  }

  function OutcomeOf(seen: seq<Observation>, threshold: Option<nat>): Outcome {
    OutcomeFrom(Session(None, false), seen, threshold)
  }

  /** The loop of a session, until it is blind or the postmaster asks the worker to stop. */
  method RunSession(seen: seq<Observation>, threshold: Option<nat>) returns (outcome: Outcome)
    ensures outcome == OutcomeOf(seen, threshold)
  {
    var emptySince: Option<nat>, sawGraph := None, false;
    for i := 0 to |seen|
      invariant OutcomeFrom(Session(emptySince, sawGraph), seen[i..], threshold) == OutcomeOf(seen, threshold)
    {
      if seen[i].installed {
        match seen[i].read {
          case Ok(snapshot) =>
            if snapshot.nodes == [] && snapshot.topics == [] {
              if emptySince.None? {
                emptySince := Some(seen[i].found);
              }
            } else {
              emptySince, sawGraph := None, true;
            }
          case Err(_) =>
            emptySince := None;
        }
      } else {
        emptySince := None;
      }
      if emptySince.Some? && threshold.Some? && seen[i].decided >= emptySince.value + threshold.value {
        return Reinitialize(sawGraph);
      }
      assert seen[i..][1..] == seen[i + 1..];
    }
    return Terminated;
  }

  predicate BlindAt(seen: seq<Observation>, threshold: Option<nat>, k: nat)
    requires k < |seen|
  {
    Blind(Watched(seen[..k + 1]), seen[k].decided, threshold)
  }

  /** A session ends at the first observation that leaves it blind, and only there. */
  lemma {:induction false} EndsWhenFirstBlind(seen: seq<Observation>, threshold: Option<nat>, i: nat)
    requires i <= |seen|
    ensures match OutcomeFrom(Watched(seen[..i]), seen[i..], threshold)
      case Terminated => forall k | i <= k < |seen| :: !BlindAt(seen, threshold, k)
      case Reinitialize(sawGraph) =>
        exists k | i <= k < |seen| ::
          && BlindAt(seen, threshold, k) && (forall j | i <= j < k :: !BlindAt(seen, threshold, j))
          && sawGraph == Watched(seen[..k + 1]).sawGraph
    decreases |seen| - i
  {
    if i < |seen| {
      assert seen[..i + 1][..i] == seen[..i];
      assert seen[i..][1..] == seen[i + 1..];
      assert BlindAt(seen, threshold, i) <==> Blind(Watch(Watched(seen[..i]), seen[i]), seen[i].decided, threshold);
      EndsWhenFirstBlind(seen, threshold, i + 1);
    }
  }

  /** Nothing but empty observations from the `i`-th to the `k`-th, over at least the threshold. */
  predicate Stretch(seen: seq<Observation>, i: nat, k: nat, threshold: nat)
    requires i <= k < |seen|
  {
    EmptyFrom(seen[..k + 1], i) && seen[k].decided >= seen[i].found + threshold
  }

  lemma BlindAfterStretch(seen: seq<Observation>, threshold: Option<nat>, k: nat)
    requires ClockRuns(seen) && k < |seen| && BlindAt(seen, threshold, k)
    ensures threshold.Some? && exists i: nat | i <= k :: Stretch(seen, i, k, threshold.value)
  {
    var past := seen[..k + 1];
    assert ClockRuns(past) by {
      assert forall j | 0 <= j <= k :: past[j] == seen[j];
    }
    BlindFrom(past, threshold);
    var i: nat :| i < |past| && EmptyFrom(past, i) && past[k].decided >= past[i].found + threshold.value;
    assert Stretch(seen, i, k, threshold.value);
  }

  /**
   * A session that rebuilds has just been through a stretch of nothing but empty observations that lasted
   * for the threshold, so it needs one; it reports a graph exactly when one of its observations had peers.
   */
  lemma RebuildsOnlyWhenBlind(seen: seq<Observation>, threshold: Option<nat>)
    requires ClockRuns(seen) && OutcomeOf(seen, threshold).Reinitialize?
    ensures threshold.Some? && exists i: nat, k: nat | i <= k < |seen| ::
              && Stretch(seen, i, k, threshold.value)
              && (OutcomeOf(seen, threshold).sawGraph <==> exists j | 0 <= j <= k :: HasPeers(seen[j]))
  {
    assert seen[..0] == [] && seen[0..] == seen;
    EndsWhenFirstBlind(seen, threshold, 0);
    var k: nat :| k < |seen| && BlindAt(seen, threshold, k)
                  && OutcomeOf(seen, threshold).sawGraph == Watched(seen[..k + 1]).sawGraph;
    BlindAfterStretch(seen, threshold, k);
    var i: nat :| i <= k && Stretch(seen, i, k, threshold.value);
    SawGraphExactly(seen[..k + 1]);
    assert forall j | 0 <= j <= k :: seen[..k + 1][j] == seen[j];
  }

  /** With rebuilding disabled a session never ends in a rebuild, whatever it observes. */
  lemma {:induction false} DisabledNeverRebuilds(s: Session, seen: seq<Observation>)
    ensures OutcomeFrom(s, seen, None) == Terminated
    decreases seen
  {
    if seen != [] {
      DisabledNeverRebuilds(Watch(s, seen[0]), seen[1..]);
    }
  }

  // ---------- backoff ----------

  /** The configured interval in milliseconds, or none when the setting of zero disables rebuilding. */
  function Configured(seconds: nat): Option<nat> {
    if seconds > 0 then Some(1000 * seconds) else None
  }

  function NextReinitAfter(current: Option<nat>, sawGraph: bool, seconds: nat): Option<nat> {
    if Configured(seconds).None? then None
    else if sawGraph then Configured(seconds)
    else match current
      case Some(value) => Some(Lesser(value * 2, MAX_REINIT_MS))
      case None => Configured(seconds)
  }

  /** A rebuild: whether its session had seen the graph, and the setting read after it. */
  datatype Rebuild = Rebuild(sawGraph: bool, seconds: nat)

  /** The threshold after these rebuilds. */
  function Threshold(initial: nat, rebuilds: seq<Rebuild>): Option<nat> {
    if rebuilds == [] then Configured(initial)
    else
      var last := rebuilds[|rebuilds| - 1];
      NextReinitAfter(Threshold(initial, rebuilds[..|rebuilds| - 1]), last.sawGraph, last.seconds)
  }

  /** How many of the last rebuilds were blind from the start. */
  function BlindRebuilds(rebuilds: seq<Rebuild>): nat {
    if rebuilds == [] || rebuilds[|rebuilds| - 1].sawGraph then 0
    else 1 + BlindRebuilds(rebuilds[..|rebuilds| - 1])
  }

  /** The setting in force when the backoff last started over. */
  function Base(initial: nat, rebuilds: seq<Rebuild>): nat {
    if rebuilds == [] then initial
    else if rebuilds[|rebuilds| - 1].sawGraph then rebuilds[|rebuilds| - 1].seconds
    else Base(initial, rebuilds[..|rebuilds| - 1])
  }

  function Pow2(k: nat): nat {
    if k == 0 then 1 else 2 * Pow2(k - 1)
  }

  predicate NeverDisabled(initial: nat, rebuilds: seq<Rebuild>) {
    initial > 0 && forall i | 0 <= i < |rebuilds| :: rebuilds[i].seconds > 0
  }

  /**
   * The closed form, while the setting stays positive: after `k` consecutive blind rebuilds the interval is
   * the setting read when the backoff last started over if `k` is zero, and otherwise that setting doubled
   * `k` times but at most ten minutes. Settings read during the backoff have no effect.
   */
  lemma {:induction false} BackoffClosedForm(initial: nat, rebuilds: seq<Rebuild>)
    requires NeverDisabled(initial, rebuilds)
    ensures var c, k := 1000 * Base(initial, rebuilds), BlindRebuilds(rebuilds);
      Threshold(initial, rebuilds) == Some(if k == 0 then c else Lesser(c * Pow2(k), MAX_REINIT_MS))
  {
    if rebuilds != [] && !rebuilds[|rebuilds| - 1].sawGraph {
      var front := rebuilds[..|rebuilds| - 1];
      BackoffClosedForm(initial, front);
      var c, k := 1000 * Base(initial, front), BlindRebuilds(front);
      Doubles(c, Pow2(k));
    }
  }

  lemma Doubles(c: nat, p: nat)
    ensures c * (2 * p) == 2 * (c * p)
  {
  }

  /** With an unchanging setting. */
  lemma {:induction false} BackoffConstant(seconds: nat, rebuilds: seq<Rebuild>)
    requires seconds > 0 && forall i | 0 <= i < |rebuilds| :: rebuilds[i].seconds == seconds
    ensures var k := BlindRebuilds(rebuilds);
      Threshold(seconds, rebuilds)
      == Some(if k == 0 then 1000 * seconds else Lesser(1000 * seconds * Pow2(k), MAX_REINIT_MS))
  {
    BackoffClosedForm(seconds, rebuilds);
    BaseConstant(seconds, rebuilds);
  }

  lemma {:induction false} BaseConstant(seconds: nat, rebuilds: seq<Rebuild>)
    requires forall i | 0 <= i < |rebuilds| :: rebuilds[i].seconds == seconds
    ensures Base(seconds, rebuilds) == seconds
  {
    if rebuilds != [] && !rebuilds[|rebuilds| - 1].sawGraph {
      BaseConstant(seconds, rebuilds[..|rebuilds| - 1]);
    }
  }

  /**
   * Another blind rebuild never shortens the interval, except exactly when the backoff has just started over
   * from a setting above ten minutes: then it falls to ten minutes.
   */
  lemma {:induction false} BackoffShrinksExactly(initial: nat, rebuilds: seq<Rebuild>, seconds: nat)
    requires NeverDisabled(initial, rebuilds) && seconds > 0
    ensures var before, after := Threshold(initial, rebuilds), Threshold(initial, rebuilds + [Rebuild(false, seconds)]);
      && before.Some? && after.Some?
      && (after.value < before.value <==> BlindRebuilds(rebuilds) == 0 && 1000 * Base(initial, rebuilds) > MAX_REINIT_MS)
      && (after.value < before.value ==> after.value == MAX_REINIT_MS)
  {
    var more := rebuilds + [Rebuild(false, seconds)];
    assert more[..|more| - 1] == rebuilds;
    BackoffClosedForm(initial, rebuilds);
    var c, k := 1000 * Base(initial, rebuilds), BlindRebuilds(rebuilds);
    assert Threshold(initial, more) == Some(Lesser(Threshold(initial, rebuilds).value * 2, MAX_REINIT_MS));
    assert k == 0 ==> c == Threshold(initial, rebuilds).value;
  }

  /** With a setting of 601 seconds the first blind rebuild shortens the interval. */
  lemma {:induction false} BackoffShrinks()
    ensures Threshold(601, []) == Some(601_000)
    ensures Threshold(601, [Rebuild(false, 601)]) == Some(600_000)
  {
    assert [Rebuild(false, 601)][..0] == [];
  }

  /** The intervals in milliseconds under the default setting of thirty seconds, while nothing is ever seen. */
  lemma {:induction false} BackoffFromDefault()
    ensures var blind := Rebuild(false, 30);
      && Threshold(30, []) == Some(30_000)
      && Threshold(30, [blind]) == Some(60_000)
      && Threshold(30, [blind, blind]) == Some(120_000)
      && Threshold(30, [blind, blind, blind]) == Some(240_000)
      && Threshold(30, [blind, blind, blind, blind]) == Some(480_000)
      && Threshold(30, [blind, blind, blind, blind, blind]) == Some(600_000)
      && Threshold(30, [blind, blind, blind, blind, blind, Rebuild(true, 30)]) == Some(30_000)
  {
    var blind := Rebuild(false, 30);
    assert [blind][..0] == [];
    assert [blind, blind][..1] == [blind];
    assert [blind, blind, blind][..2] == [blind, blind];
    assert [blind, blind, blind, blind][..3] == [blind, blind, blind];
    assert [blind, blind, blind, blind, blind][..4] == [blind, blind, blind, blind];
    assert [blind, blind, blind, blind, blind, Rebuild(true, 30)][..5] == [blind, blind, blind, blind, blind];
  }

  /** One session and the setting found when it ends. */
  datatype Stay = Stay(seen: seq<Observation>, seconds: nat)

  /** The rebuild that ends a session. */
  function RebuildOf(stay: Stay, threshold: Option<nat>): Rebuild {
    var outcome := OutcomeOf(stay.seen, threshold);
    Rebuild(outcome.Reinitialize? && outcome.sawGraph, stay.seconds)
  }

  /** The rebuilds that end the first sessions, each run with the threshold the ones before it lead to. */
  function Rebuilds(initial: nat, stays: seq<Stay>): seq<Rebuild> {
    if stays == [] then []
    else
      var before := Rebuilds(initial, stays[..|stays| - 1]);
      before + [RebuildOf(stays[|stays| - 1], Threshold(initial, before))]
  }

  /** The threshold that the `i`-th session runs with. */
  function ThresholdAt(initial: nat, stays: seq<Stay>, i: nat): Option<nat>
    requires i <= |stays|
  {
    Threshold(initial, Rebuilds(initial, stays[..i]))
  }

  /** How the `i`-th session ends. */
  function SessionAt(initial: nat, stays: seq<Stay>, i: nat): Outcome
    requires i < |stays|
  {
    OutcomeOf(stays[i].seen, ThresholdAt(initial, stays, i))
  }

  lemma ThatSession(initial: nat, stays: seq<Stay>, i: nat)
    requires i < |stays|
    ensures SessionAt(initial, stays, i) == OutcomeOf(stays[i].seen, ThresholdAt(initial, stays, i))
  {
  }

  /** Session after session until one is asked to stop; returns the threshold each of them ran with. */
  method RunObserver(initial: nat, stays: seq<Stay>) returns (thresholds: seq<Option<nat>>)
    ensures |thresholds| <= |stays| && (stays != [] ==> thresholds != [])
    ensures forall i | 0 <= i < |thresholds| :: thresholds[i] == ThresholdAt(initial, stays, i)
    ensures forall i | 0 <= i < |thresholds| - 1 :: SessionAt(initial, stays, i).Reinitialize?
    ensures 0 < |thresholds| < |stays| ==> SessionAt(initial, stays, |thresholds| - 1).Terminated?
  {
    hide *;
    FirstThreshold(initial, stays);
    thresholds := [];
    var reinitAfter := Configured(initial);
    for n := 0 to |stays|
      invariant |thresholds| == n
      invariant reinitAfter == ThresholdAt(initial, stays, n)
      invariant forall i | 0 <= i < n :: thresholds[i] == ThresholdAt(initial, stays, i)
      invariant forall i | 0 <= i < n :: SessionAt(initial, stays, i).Reinitialize?
    {
      thresholds := thresholds + [reinitAfter];
      var outcome := RunSession(stays[n].seen, reinitAfter);
      ThatSession(initial, stays, n);
      if outcome.Terminated? {
        return;
      }
      NextThreshold(initial, stays, n);
      reinitAfter := NextReinitAfter(reinitAfter, outcome.sawGraph, stays[n].seconds);
    }
  }

  lemma FirstThreshold(initial: nat, stays: seq<Stay>)
    ensures ThresholdAt(initial, stays, 0) == Configured(initial)
  {
  }

  lemma NextThreshold(initial: nat, stays: seq<Stay>, n: nat)
    requires n < |stays|
    ensures var now := ThresholdAt(initial, stays, n);
      var outcome := SessionAt(initial, stays, n);
      var saw := outcome.Reinitialize? && outcome.sawGraph;
      ThresholdAt(initial, stays, n + 1) == NextReinitAfter(now, saw, stays[n].seconds)
  {
    var before := Rebuilds(initial, stays[..n]);
    assert stays[..n + 1][..n] == stays[..n];
    assert (before + [RebuildOf(stays[n], Threshold(initial, before))])[..|before|] == before;
  }

  /** The setting that was read last before the `i`-th session. */
  function LastRead(initial: nat, stays: seq<Stay>, i: nat): nat
    requires i <= |stays|
  {
    if i == 0 then initial else stays[i - 1].seconds
  }

  /**
   * Rebuilding is off in a session exactly when the setting read last before it was zero, and such a session
   * never ends in a rebuild: there is no later one to read the setting again.
   */
  lemma DisabledForGood(initial: nat, stays: seq<Stay>, i: nat)
    requires i <= |stays|
    ensures ThresholdAt(initial, stays, i).None? <==> LastRead(initial, stays, i) == 0
    ensures i < |stays| && LastRead(initial, stays, i) == 0 ==> SessionAt(initial, stays, i) == Terminated
  {
    hide Threshold, Rebuilds, ThresholdAt, OutcomeOf;
    if i == 0 {
      FirstThreshold(initial, stays);
    } else {
      NextThreshold(initial, stays, i - 1);
    }
    if i < |stays| && LastRead(initial, stays, i) == 0 {
      ThatSession(initial, stays, i);
      NeverRebuilds(stays[i].seen);
    }
  }

  lemma NeverRebuilds(seen: seq<Observation>)
    ensures OutcomeOf(seen, None) == Terminated
  {
    DisabledNeverRebuilds(Session(None, false), seen);
  }
}
