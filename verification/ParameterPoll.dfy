/**
 * One poll of every peer's parameters: service readiness, listing, retrieval, each stage concurrent over
 * the peers and bounded by a deadline of its own.
 */
module ParameterPoll {
  import opened Basics
  import opened Ordering
  import opened Json

  /** Milliseconds a stage may take. */
  const STAGE_MS: nat := 3000

  /** A node's name and namespace. */
  type Peer = Pair

  datatype Parameter = Parameter(node: Text, namespace: Text, name: Text, kind: Text, value: Json)

  /** A returned value: of one of the known ROS types, with its JSON form, or of an unknown one. */
  datatype ParameterValue = Known(kind: Text, value: Json) | Unknown

  /** A response on its way: it arrives at some time, or breaks then. It is received at most once. */
  datatype Promise<+T> = Promise(arrives: nat, outcome: Option<T>, received: bool)

  datatype Stage =
    | Ready
    | Listing(lists: seq<Promise<seq<Text>>>, listed: seq<Option<seq<Text>>>)
    | Getting(gets: seq<Promise<seq<ParameterValue>>>, got: seq<Option<seq<ParameterValue>>>, names: seq<seq<Text>>)

  /** What becomes of a call, should it be made. */
  datatype Call<+T> = Refused | Sent(arrives: nat, outcome: Option<T>)

  /** The environment of one poll: what each peer's two calls will come to, and when. */
  datatype Network = Network(lists: seq<Call<seq<Text>>>, gets: seq<Call<seq<ParameterValue>>>)

  datatype Readiness = ServicesReady | ServicesAbsent | ServicesFailed

  /** One turn of the observer's loop: the clock on entry, the clock when a stage is left, and the services seen. */
  datatype Turn = Turn(now: nat, later: nat, services: seq<Readiness>)

  datatype State = State(clients: seq<Peer>, stage: Stage, deadline: nat)

  datatype Progress = Going(state: State) | Done(rows: seq<Parameter>) | Failed

  // ---------- receiving ----------

  predicate Arrived<T>(p: Promise<T>, now: nat) {
    !p.received && p.arrives <= now
  }

  /** A promise after it was polled. */
  function Polled<T>(p: Promise<T>, now: nat): Promise<T> {
    if Arrived(p, now) && p.outcome.Some? then p.(received := true) else p
  }

  /** A promise must not be polled again once its value was received. */
  method TryRecv<T>(p: Promise<T>, now: nat) returns (r: Result<Option<T>>, p': Promise<T>)
    requires !p.received
    ensures r.Err? <==> Arrived(p, now) && p.outcome.None?
    ensures p' == Polled(p, now)
    ensures r.Ok? ==> r.value == if Arrived(p, now) then p.outcome else None
  {
    if now < p.arrives {
      return Ok(None), p;
    }
    if p.outcome.None? {
      return Err("promise canceled"), p;
    }
    return Ok(p.outcome), p.(received := true);
  }

  /** Calls, responses and results are index-aligned, and a result is there exactly when its promise was received. */
  ghost predicate Aligned<T>(calls: seq<Call<T>>, pending: seq<Promise<T>>, results: seq<Option<T>>) {
    && |pending| == |results| == |calls|
    && forall i | 0 <= i < |pending| ::
         && calls[i] == Sent(pending[i].arrives, pending[i].outcome)
         && (results[i].Some? <==> pending[i].received)
         && (results[i].Some? ==> results[i] == pending[i].outcome)
  }

  predicate Broken<T>(pending: seq<Promise<T>>, now: nat) {
    exists i | 0 <= i < |pending| :: Arrived(pending[i], now) && pending[i].outcome.None?
  }

  predicate AllIn<T>(pending: seq<Promise<T>>, now: nat) {
    forall i | 0 <= i < |pending| :: pending[i].received || (pending[i].arrives <= now && pending[i].outcome.Some?)
  }

  function PolledAll<T>(pending: seq<Promise<T>>, now: nat): seq<Promise<T>> {
    seq(|pending|, i requires 0 <= i < |pending| => Polled(pending[i], now))
  }

  function Results<T>(pending: seq<Promise<T>>): seq<Option<T>> {
    seq(|pending|, i requires 0 <= i < |pending| => if pending[i].received then pending[i].outcome else None)
  }

  /** Poll every promise whose result is still missing. */
  method Collect<T>(ghost calls: seq<Call<T>>, pending: seq<Promise<T>>, results: seq<Option<T>>, now: nat)
    returns (r: Result<bool>, pending': seq<Promise<T>>, results': seq<Option<T>>)
    requires Aligned(calls, pending, results)
    ensures r.Err? <==> Broken(pending, now)
    ensures r.Ok? ==>
      && pending' == PolledAll(pending, now) && results' == Results(pending')
      && (r.value <==> AllIn(pending, now))
  {
    pending', results' := pending, results;
    for i := 0 to |pending|
      invariant |pending'| == |pending| == |results'|
      invariant forall k | 0 <= k < i ::
                  && pending'[k] == Polled(pending[k], now)
                  && results'[k] == (if pending'[k].received then pending'[k].outcome else None)
                  && !(Arrived(pending[k], now) && pending[k].outcome.None?)
      invariant forall k | i <= k < |pending| :: pending'[k] == pending[k] && results'[k] == results[k]
    {
      if results'[i].None? {
        var value, p := TryRecv(pending'[i], now);
        if value.Err? {
          return Err(value.error), pending', results';
        }
        pending' := pending'[i := p];
        results' := results'[i := value.value];
      }
    }
    assert pending' == PolledAll(pending, now) && results' == Results(pending');
    return Ok(forall k | 0 <= k < |results'| :: results'[k].Some?), pending', results';
  }

  // ---------- one tick ----------

  function Promises<T>(calls: seq<Call<T>>): seq<Promise<T>>
    requires forall i | 0 <= i < |calls| :: calls[i].Sent?
  {
    seq(|calls|, i requires 0 <= i < |calls| => Promise(calls[i].arrives, calls[i].outcome, false))
  }

  predicate AllSent<T>(calls: seq<Call<T>>) {
    forall i | 0 <= i < |calls| :: calls[i].Sent?
  }

  /** A peer's parameter names as they are asked for. */
  function Names(listed: seq<Text>): seq<Text> {
    Dedup(Sort(TextLeq, listed))
  }

  predicate AllKnown(values: seq<ParameterValue>) {
    forall i | 0 <= i < |values| :: values[i].Known?
  }

  /** One peer's rows. */
  function PeerRows(peer: Peer, names: seq<Text>, values: seq<ParameterValue>): seq<Parameter>
    requires |names| == |values| && AllKnown(values)
  {
    seq(|names|, i requires 0 <= i < |names| =>
      Parameter(peer.0, peer.1, names[i], values[i].kind, values[i].value))
  }

  /** Every peer accepted both calls, answered both, and gave one known value for each name. */
  predicate Complete(clients: seq<Peer>, net: Network) {
    && |net.lists| == |net.gets| == |clients|
    && forall i | 0 <= i < |clients| ::
         && net.lists[i].Sent? && net.lists[i].outcome.Some?
         && net.gets[i].Sent? && net.gets[i].outcome.Some?
         && |net.gets[i].outcome.value| == |Names(net.lists[i].outcome.value)|
         && AllKnown(net.gets[i].outcome.value)
  }

  /** The rows of the peers from the `i`-th on: a function of what they answered, not of when. */
  function RowsFrom(clients: seq<Peer>, net: Network, i: nat): seq<Parameter>
    requires Complete(clients, net) && i <= |clients|
    decreases |clients| - i
  {
    if i == |clients| then []
    else PeerRows(clients[i], Names(net.lists[i].outcome.value), net.gets[i].outcome.value) + RowsFrom(clients, net, i + 1)
  }

  /** What holds of a poll at every turn. */
  ghost predicate Valid(s: State, net: Network) {
    && |net.lists| == |net.gets| == |s.clients|
    && match s.stage
       case Ready => true
       case Listing(lists, listed) => Aligned(net.lists, lists, listed)
       case Getting(gets, got, names) =>
         && Aligned(net.gets, gets, got)
         && |names| == |s.clients|
         && forall i | 0 <= i < |names| ::
              net.lists[i].Sent? && net.lists[i].outcome.Some? && names[i] == Names(net.lists[i].outcome.value)
  }

  /** The first of the peers whose services are not there decides a turn in the first stage. */
  function Services(services: seq<Readiness>): Readiness {
    if services == [] then ServicesReady
    else if services[0].ServicesReady? then Services(services[1..])
    else services[0]
  }

  /** What one tick comes to. */
  ghost function Tick(s: State, turn: Turn, net: Network): (r: Progress)
    requires Valid(s, net)
    ensures r.Going? ==> Valid(r.state, net) && r.state.clients == s.clients
  {
    if turn.now >= s.deadline then Failed
    else match s.stage
      case Ready =>
        (match Services(turn.services)
         case ServicesFailed => Failed
         case ServicesAbsent => Going(s)
         case ServicesReady =>
           if !AllSent(net.lists) then Failed
           else
             var lists := Promises(net.lists);
             Going(State(s.clients, Listing(lists, Results(lists)), turn.later + STAGE_MS)))
      case Listing(lists, _) =>
        if Broken(lists, turn.now) then Failed
        else if !AllIn(lists, turn.now) then
          var polled := PolledAll(lists, turn.now);
          Going(s.(stage := Listing(polled, Results(polled))))
        else if !AllSent(net.gets) then Failed
        else
          var gets := Promises(net.gets);
          Going(State(s.clients, Getting(gets, Results(gets), NamesOf(net)), turn.later + STAGE_MS))
      case Getting(gets, _, names) =>
        if Broken(gets, turn.now) then Failed
        else if !AllIn(gets, turn.now) then
          var polled := PolledAll(gets, turn.now);
          Going(s.(stage := Getting(polled, Results(polled), names)))
        else if Complete(s.clients, net) then Done(RowsFrom(s.clients, net, 0))
        else Failed
  }

  function NamesOf(net: Network): seq<seq<Text>> {
    seq(|net.lists|, i requires 0 <= i < |net.lists| =>
      if net.lists[i].Sent? && net.lists[i].outcome.Some? then Names(net.lists[i].outcome.value) else [])
  }

  /** A poll in progress, advanced by the observer's loop; the calls it makes come to what `net` says. */
  class Poll {
    const clients: seq<Peer>
    var stage: Stage
    var deadline: nat

    ghost function Abstract(): State
      reads this
    {
      State(clients, stage, deadline)
    }

    constructor (clients: seq<Peer>, now: nat)
      ensures Abstract() == State(clients, Ready, now + STAGE_MS)
    {
      this.clients := clients;
      stage := Ready;
      deadline := now + STAGE_MS;
    }

    /** Nothing yet, the finished snapshot, or an error that ends the poll. */
    method Advance(turn: Turn, net: Network) returns (r: Result<Option<seq<Parameter>>>)
      requires Valid(Abstract(), net) && |turn.services| == |clients|
      modifies this
      ensures match r
        case Ok(None) => Tick(old(Abstract()), turn, net) == Going(Abstract())
        case Ok(Some(rows)) => Tick(old(Abstract()), turn, net) == Done(rows)
        case Err(_) => Tick(old(Abstract()), turn, net) == Failed
    {
      if turn.now >= deadline {
        return Err("timed out after 3 seconds");
      }
      match stage
      case Ready =>
        var services := CheckServices(turn.services);
        if services != ServicesReady {
          return if services.ServicesFailed? then Err("service lookup failed") else Ok(None);
        }
        if !AllSent(net.lists) {
          return Err("list call failed");
        }
        var lists := Promises(net.lists);
        stage := Listing(lists, Results(lists));
        deadline := turn.later + STAGE_MS;
        return Ok(None);
      case Listing(lists, listed) =>
        var all, lists', listed' := Collect(net.lists, lists, listed, turn.now);
        if all.Err? {
          return Err(all.error);
        }
        if !all.value {
          stage := Listing(lists', listed');
          return Ok(None);
        }
        var names := seq(|listed'|, i requires 0 <= i < |listed'| && listed'[i].Some? => Names(listed'[i].value));
        assert names == NamesOf(net);
        if !AllSent(net.gets) {
          return Err("get call failed");
        }
        var gets := Promises(net.gets);
        stage := Getting(gets, Results(gets), names);
        deadline := turn.later + STAGE_MS;
        return Ok(None);
      case Getting(gets, got, names) =>
        var all, gets', got' := Collect(net.gets, gets, got, turn.now);
        if all.Err? {
          return Err(all.error);
        }
        if !all.value {
          stage := Getting(gets', got', names);
          return Ok(None);
        }
        r := Assemble(clients, names, got', net);
    }
  }

  method CheckServices(services: seq<Readiness>) returns (r: Readiness)
    ensures r == Services(services)
  {
    for i := 0 to |services|
      invariant Services(services) == Services(services[i..])
    {
      if services[i] != ServicesReady {
        return services[i];
      }
      assert services[i..][1..] == services[i + 1..];
    }
    return ServicesReady;
  }

  /** Zip each peer's names with its values, refusing a length mismatch and an unknown value. */
  method Assemble(clients: seq<Peer>, names: seq<seq<Text>>, got: seq<Option<seq<ParameterValue>>>, ghost net: Network)
    returns (r: Result<Option<seq<Parameter>>>)
    requires |clients| == |names| == |got| == |net.lists| == |net.gets|
    requires forall i | 0 <= i < |clients| ::
      && got[i].Some? && net.gets[i].Sent? && net.gets[i].outcome == got[i]
      && net.lists[i].Sent? && net.lists[i].outcome.Some? && names[i] == Names(net.lists[i].outcome.value)
    ensures r.Ok? <==> Complete(clients, net)
    ensures r.Ok? ==> r.value == Some(RowsFrom(clients, net, 0))
  {
    hide Names;
    var snapshot := [];
    for i := 0 to |clients|
      invariant forall k | 0 <= k < i ::
                  |net.gets[k].outcome.value| == |names[k]| && AllKnown(net.gets[k].outcome.value)
      invariant Complete(clients, net) ==> snapshot + RowsFrom(clients, net, i) == RowsFrom(clients, net, 0)
    {
      var rows := AssemblePeer(clients[i], names[i], got[i].value);
      if rows.Err? {
        return Err(rows.error);
      }
      ghost var before := snapshot;
      snapshot := snapshot + rows.value;
      if Complete(clients, net) {
        assert snapshot + RowsFrom(clients, net, i + 1) == before + RowsFrom(clients, net, i);
      }
    }
    assert Complete(clients, net);
    assert snapshot + RowsFrom(clients, net, |clients|) == snapshot;
    return Ok(Some(snapshot));
  }

  method AssemblePeer(peer: Peer, names: seq<Text>, values: seq<ParameterValue>) returns (r: Result<seq<Parameter>>)
    ensures r.Ok? <==> |names| == |values| && AllKnown(values)
    ensures r.Ok? ==> r.value == PeerRows(peer, names, values)
  {
    if |names| != |values| {
      return Err("parameter response length mismatch");
    }
    var rows := [];
    for j := 0 to |names|
      invariant forall k | 0 <= k < j :: values[k].Known?
      invariant |rows| == j && forall k | 0 <= k < j ::
                  rows[k] == Parameter(peer.0, peer.1, names[k], values[k].kind, values[k].value)
    {
      if values[j].Unknown? {
        return Err("unknown ROS parameter type");
      }
      rows := rows + [Parameter(peer.0, peer.1, names[j], values[j].kind, values[j].value)];
    }
    return Ok(rows);
  }
}
