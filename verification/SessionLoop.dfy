/** One pass of a session's loop: the parameter poll, the look at the graph, and the state both leave behind. */
module SessionLoop {
  import opened Basics
  import opened Ordering
  import opened SnapshotCache
  import opened GraphSnapshots
  import opened Observer
  import ParameterPoll
  import PollRuns

  /**
   * The worker's state: the two caches outlive a session, the rest starts over with each. The database is
   * shared with other sessions of the server, which may change it between any two of these methods.
   */
  class Worker {
    var previous: Option<Snapshot>
    var extensionOid: Option<Oid>
    var previousParameters: Option<seq<ParameterPoll.Parameter>>
    var parameterExtension: Option<Oid>
    var emptySince: Option<nat>
    var sawGraph: bool
    var poll: Option<ParameterPoll.Poll>
    var nextParameters: nat

    ghost function GraphState(db: Extension): State<GraphRow>
      reads this, db
    {
      State(Cache(HeldRows(previous), extensionOid), db.Graph())
    }

    ghost function ParameterState(db: Extension): State<ParameterPoll.Parameter>
      reads this, db
    {
      State(Cache(previousParameters, parameterExtension), db.Parameters())
    }

    ghost function Watching(): Session
      reads this
    {
      Session(emptySince, sawGraph)
    }

    /** A worker process that has just started. */
    constructor ()
      ensures previous == None && extensionOid == None && previousParameters == None && parameterExtension == None
    {
      previous, extensionOid, previousParameters, parameterExtension := None, None, None, None;
      emptySince, sawGraph, poll, nextParameters := None, false, None, 0;
    }

    /** A new session, in this worker's life the first or another one, keeps the caches. */
    method BeginSession(startup: nat)
      modifies `emptySince, `sawGraph, `poll, `nextParameters
      ensures Watching() == Session(None, false) && poll == None && nextParameters == startup
    {
      emptySince, sawGraph, poll, nextParameters := None, false, None, startup;
    }

    /** The poll ended with rows or with an error, which is persisted in one transaction. */
    method FinishPoll(db: Extension, result: Result<seq<ParameterPoll.Parameter>>, now: nat)
      requires result.Ok? ==> PollRuns.KeysIncrease(result.value)
      modifies this, db
      ensures ParameterState(db) == Step(old(ParameterState(db)), Polled(result))
      ensures GraphState(db) == old(GraphState(db)) && Watching() == old(Watching())
      ensures poll == None && nextParameters == now + 5_000
      ensures parameterExtension == old(db.installed)
      ensures previousParameters == if result.Ok? then Some(result.value) else old(previousParameters)
    {
      hide Persisted, Rows, PollRuns.KeysIncrease;
      var persisted := db.PersistParameters(result, previousParameters, parameterExtension);
      parameterExtension := persisted;
      if result.Ok? {
        previousParameters := Some(result.value);
      }
      poll := None;
      nextParameters := now + POLL_PAUSE_MS;
    }

    /**
     * One turn of the running poll. A finished poll's rows always fit the primary key, so they are persisted;
     * a failed one leaves its error, which is returned.
     */
    method TickPoll(db: Extension, turn: ParameterPoll.Turn, net: ParameterPoll.Network, now: nat)
      returns (failure: Option<Text>)
      requires poll.Some? && Increasing(PairLeq, poll.value.clients)
      requires ParameterPoll.Valid(poll.value.Abstract(), net) && |turn.services| == |poll.value.clients|
      modifies this, db, poll.value
      ensures GraphState(db) == old(GraphState(db)) && Watching() == old(Watching())
      ensures match ParameterPoll.Tick(old(poll.value.Abstract()), turn, net)
        case Going(next) =>
          && poll == old(poll) && poll.value.Abstract() == next && nextParameters == old(nextParameters)
          && ParameterState(db) == old(ParameterState(db)) && failure == None
        case Done(rows) =>
          && poll == None && nextParameters == now + POLL_PAUSE_MS
          && ParameterState(db) == Step(old(ParameterState(db)), Polled(Ok(rows))) && failure == None
        case Failed =>
          && poll == None && nextParameters == now + POLL_PAUSE_MS
          && failure.Some? && ParameterState(db) == Step(old(ParameterState(db)), Polled(Err(failure.value)))
    {
      hide Persisted, Rows, Step, PollRuns.KeysIncrease;
      ghost var before := poll.value.Abstract();
      var result := poll.value.Advance(turn, net);
      match result
      case Ok(None) => failure := None;
      case Ok(Some(rows)) =>
        FinishedRowsFit(before, turn, net);
        FinishPoll(db, Ok(rows), now);
        failure := None;
      case Err(error) =>
        FinishPoll(db, Err(error), now);
        failure := Some(error);
    }

    /** Look at the graph, persist what was read, and decide whether the session has become blind. */
    method Observe(db: Extension, read: Result<Snapshot>, found: nat, decided: nat, reinitAfter: Option<nat>)
      returns (installed: bool, rebuild: bool)
      modifies this, db
      ensures GraphState(db) == Step(old(GraphState(db)), Observed(ReadRows(read)))
      ensures ParameterState(db) == (if installed then old(ParameterState(db)) else Step(old(ParameterState(db)), Forget))
      ensures installed == old(db.installed).Some?
      ensures Watching() == Watch(old(Watching()), Observation(installed, read, found, decided))
      ensures rebuild == Blind(Watching(), decided, reinitAfter)
      ensures poll == (if installed then old(poll) else None) && nextParameters == old(nextParameters)
      ensures extensionOid == old(db.installed) && db.installed == old(db.installed)
      ensures previous == if !installed then None else if read.Ok? then Some(read.value) else old(previous)
      ensures !installed ==> previousParameters == None && parameterExtension == None
      ensures installed ==>
                previousParameters == old(previousParameters) && parameterExtension == old(parameterExtension)
    {
      hide Persisted, Rows;
      var oid := db.PersistSnapshot(read, previous, extensionOid);
      if oid.Some? {
        match read {
          case Ok(snapshot) =>
            if snapshot.nodes == [] && snapshot.topics == [] {
              if emptySince.None? {
                emptySince := Some(found);
              }
            } else {
              emptySince, sawGraph := None, true;
            }
            previous := Some(snapshot);
          case Err(_) =>
            emptySince := None;
        }
      } else {
        emptySince := None;
        previous, previousParameters, parameterExtension, poll := None, None, None, None;
      }
      extensionOid := oid;
      installed := oid.Some?;
      rebuild := emptySince.Some? && reinitAfter.Some? && decided >= emptySince.value + reinitAfter.value;
    }

    /**
     * After a successful read, start a parameter poll of the nodes in it when none is running and the last one
     * is long enough ago.
     */
    method BeginPoll(db: Extension, lookup: ParameterPoll.Peer -> PollRuns.Lookup, why: Text, now: nat)
      requires previous.Some?
      modifies this, db
      ensures GraphState(db) == old(GraphState(db)) && Watching() == old(Watching())
      ensures PollBegun(db, old(ParameterState(db)), old(poll), old(nextParameters), old(previous.value.nodes), lookup, why, now)
      ensures poll.Some? ==> poll == old(poll) || fresh(poll.value)
    {
      hide Persisted, Rows, Step;
      if poll.None? && now >= nextParameters {
        var started := PollRuns.StartPoll(previous.value.nodes, lookup, now);
        if started.Some? {
          poll := started;
        } else {
          FinishPoll(db, Err(why), now);
        }
      }
    }

    /**
     * What starting a poll of `nodes` comes to: nothing while one runs or it is too early, a failed poll when
     * the lookup of any node fails, and otherwise a poll of exactly the nodes that offer their parameters.
     */
    ghost predicate PollBegun(
        db: Extension, before: State<ParameterPoll.Parameter>, running: Option<ParameterPoll.Poll>, due: nat,
        nodes: seq<ParameterPoll.Peer>, lookup: ParameterPoll.Peer -> PollRuns.Lookup, why: Text, now: nat)
      reads this, db, if poll.Some? then {poll.value} else {}
    {
      if running.Some? || now < due then
        ParameterState(db) == before && poll == running && nextParameters == due
      else if exists node | node in nodes :: lookup(node).Error? then
        ParameterState(db) == Step(before, Polled(Err(why))) && poll == None && nextParameters == now + POLL_PAUSE_MS
      else
        && ParameterState(db) == before && poll.Some? && nextParameters == due
        && poll.value.Abstract() == PollRuns.Start(poll.value.clients, now).state
        && Increasing(PairLeq, poll.value.clients)
        && forall peer :: peer in poll.value.clients <==> peer in nodes && lookup(peer).Offered?
    }

    /** The whole look, when no other session acts between its two transactions: the nodes polled are those just read. */
    method LookAround(
        db: Extension, read: Result<Snapshot>, lookup: ParameterPoll.Peer -> PollRuns.Lookup, why: Text,
        found: nat, now: nat, decided: nat, reinitAfter: Option<nat>) returns (rebuild: bool)
      modifies this, db
      ensures GraphState(db) == Step(old(GraphState(db)), Observed(ReadRows(read)))
      ensures Watching() == Watch(old(Watching()), Observation(old(db.installed).Some?, read, found, decided))
      ensures rebuild == Blind(Watching(), decided, reinitAfter)
      ensures old(db.installed).None? ==> ParameterState(db) == Step(old(ParameterState(db)), Forget) && poll == None
      ensures old(db.installed).Some? && read.Err? ==> ParameterState(db) == old(ParameterState(db)) && poll == old(poll)
      ensures old(db.installed).Some? && read.Ok? ==>
                PollBegun(db, old(ParameterState(db)), old(poll), old(nextParameters), read.value.nodes, lookup, why, now)
    {
      hide Rows, Step, Watch, ReadRows;
      var installed;
      installed, rebuild := Observe(db, read, found, decided, reinitAfter);
      if installed && read.Ok? {
        BeginPoll(db, lookup, why, now);
      }
    }
  }

  /** However a poll got here, the rows it finishes with have increasing keys. */
  lemma FinishedRowsFit(s: ParameterPoll.State, turn: ParameterPoll.Turn, net: ParameterPoll.Network)
    requires ParameterPoll.Valid(s, net) && Increasing(PairLeq, s.clients)
    ensures var next := ParameterPoll.Tick(s, turn, net); next.Done? ==> PollRuns.KeysIncrease(next.rows)
  {
    if ParameterPoll.Tick(s, turn, net).Done? {
      PollRuns.RowsIncrease(s.clients, net, 0);
    }
  }
}
