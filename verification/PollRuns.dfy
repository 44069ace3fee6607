/** A poll over all its turns: what it returns, when it ends, and which peers it asks. */
module PollRuns {
  import opened Basics
  import opened Ordering
  import opened ParameterPoll

  /** The turns of one poll; an ended poll is dropped and sees no further turn. */
  ghost function Run(p: Progress, turns: seq<Turn>, net: Network): (r: Progress)
    requires p.Going? ==> Valid(p.state, net)
    ensures r.Going? ==> Valid(r.state, net)
    decreases turns
  {
    if turns == [] || !p.Going? then p else Run(Tick(p.state, turns[0], net), turns[1..], net)
  }

  function Start(clients: seq<Peer>, now: nat): Progress {
    Going(State(clients, Ready, now + STAGE_MS))
  }

  ghost predicate Fits(clients: seq<Peer>, net: Network) {
    |net.lists| == |net.gets| == |clients|
  }

  // ---------- the result does not depend on timing ----------

  lemma {:induction false} RunReturnsAnswers(p: Progress, turns: seq<Turn>, net: Network)
    requires p.Going? && Valid(p.state, net) && Run(p, turns, net).Done?
    ensures Complete(p.state.clients, net)
    ensures Run(p, turns, net).rows == RowsFrom(p.state.clients, net, 0)
    decreases turns
  {
    var next := Tick(p.state, turns[0], net);
    if next.Going? {
      RunReturnsAnswers(next, turns[1..], net);
    }
  }

  /** The same peers give the same answers, perhaps at other times. */
  predicate SameAnswers(net: Network, net': Network) {
    && |net.lists| == |net'.lists| && |net.gets| == |net'.gets|
    && (forall i | 0 <= i < |net.lists| && net.lists[i].Sent? && net'.lists[i].Sent? ::
          net.lists[i].outcome == net'.lists[i].outcome)
    && (forall i | 0 <= i < |net.gets| && net.gets[i].Sent? && net'.gets[i].Sent? ::
          net.gets[i].outcome == net'.gets[i].outcome)
  }

  /**
   * For every order and delay of the responses and every schedule of turns, polls that complete return
   * the same rows: each peer's sorted distinct names with the values it gave, peer after peer.
   */
  lemma ResultIgnoresTiming(
      clients: seq<Peer>, net: Network, net': Network, start: nat, start': nat, turns: seq<Turn>, turns': seq<Turn>)
    requires Fits(clients, net) && Fits(clients, net') && SameAnswers(net, net')
    requires Run(Start(clients, start), turns, net).Done? && Run(Start(clients, start'), turns', net').Done?
    ensures Complete(clients, net)
    ensures Run(Start(clients, start), turns, net).rows == RowsFrom(clients, net, 0)
    ensures Run(Start(clients, start'), turns', net').rows == RowsFrom(clients, net, 0)
  {
    RunReturnsAnswers(Start(clients, start), turns, net);
    RunReturnsAnswers(Start(clients, start'), turns', net');
    SameRows(clients, net, net', 0);
  }

  lemma {:induction false} SameRows(clients: seq<Peer>, net: Network, net': Network, i: nat)
    requires Complete(clients, net) && Complete(clients, net') && SameAnswers(net, net') && i <= |clients|
    ensures RowsFrom(clients, net, i) == RowsFrom(clients, net', i)
    decreases |clients| - i
  {
    if i < |clients| {
      SameRows(clients, net, net', i + 1);
    }
  }

  /** Nothing that a poll has taken in arrived after `now`. */
  ghost predicate Past(s: State, net: Network, now: nat)
    requires Valid(s, net)
  {
    match s.stage
    case Ready => true
    case Listing(lists, _) => forall i | 0 <= i < |lists| && lists[i].received :: lists[i].arrives <= now
    case Getting(gets, _, _) =>
      && (forall i | 0 <= i < |net.lists| :: net.lists[i].Sent? && net.lists[i].arrives <= now)
      && forall i | 0 <= i < |gets| && gets[i].received :: gets[i].arrives <= now
  }

  lemma TickStaysPast(s: State, turn: Turn, net: Network, now: nat)
    requires Valid(s, net) && Past(s, net, now) && now <= turn.now
    ensures var next := Tick(s, turn, net);
      && (next.Going? ==> Past(next.state, net, turn.now))
      && (next.Done? ==> forall i | 0 <= i < |s.clients| ::
            && net.lists[i].Sent? && net.lists[i].arrives <= turn.now
            && net.gets[i].Sent? && net.gets[i].arrives <= turn.now)
  {
    hide Names, RowsFrom;
  }

  ghost predicate Monotone(turns: seq<Turn>, now: nat) {
    && (forall i | 0 <= i < |turns| :: now <= turns[i].now)
    && (forall i, j | 0 <= i < j < |turns| :: turns[i].now <= turns[j].now)
  }

  /** A finished poll has both answers of every peer, all of them by its last turn. */
  lemma {:induction false} EveryPeerAnswered(p: Progress, turns: seq<Turn>, net: Network, now: nat)
    requires p.Going? && Valid(p.state, net) && Past(p.state, net, now) && Monotone(turns, now)
    requires Run(p, turns, net).Done?
    ensures turns != [] && forall i | 0 <= i < |p.state.clients| ::
              && net.lists[i].Sent? && net.lists[i].outcome.Some? && net.lists[i].arrives <= turns[|turns| - 1].now
              && net.gets[i].Sent? && net.gets[i].outcome.Some? && net.gets[i].arrives <= turns[|turns| - 1].now
    decreases turns
  {
    RunReturnsAnswers(p, turns, net);
    var turn, rest := turns[0], turns[1..];
    var next := Tick(p.state, turn, net);
    TickStaysPast(p.state, turn, net, now);
    hide Tick, Valid, Past;
    if next.Going? {
      assert Monotone(rest, turn.now) by {
        assert forall i | 0 <= i < |rest| :: rest[i] == turns[i + 1];
      }
      EveryPeerAnswered(next, rest, net, turn.now);
      assert rest[|rest| - 1] == turns[|turns| - 1];
    }
  }

  // ---------- when a poll fails ----------

  /** A promise that has not been received breaks now. */
  predicate BreaksNow<T>(p: Promise<T>, now: nat) {
    !p.received && p.arrives <= now && p.outcome.None?
  }

  /** A promise that was received, or is now. */
  predicate IsIn<T>(p: Promise<T>, now: nat) {
    p.received || (p.arrives <= now && p.outcome.Some?)
  }

  /**
   * Exactly which ticks end the poll with an error: one at or after the deadline; one at which a lookup or a
   * promise fails; and one that has all it waited for, but finds a call refused or an answer incomplete.
   */
  lemma FailsExactly(s: State, turn: Turn, net: Network)
    requires Valid(s, net)
    ensures Tick(s, turn, net).Failed? <==> turn.now >= s.deadline || match s.stage
      case Ready =>
        || Services(turn.services).ServicesFailed?
        || (Services(turn.services).ServicesReady? && exists i | 0 <= i < |net.lists| :: net.lists[i].Refused?)
      case Listing(lists, _) =>
        || (exists i | 0 <= i < |lists| :: BreaksNow(lists[i], turn.now))
        || ((forall i | 0 <= i < |lists| :: IsIn(lists[i], turn.now)) && exists i | 0 <= i < |net.gets| :: net.gets[i].Refused?)
      case Getting(gets, _, _) =>
        || (exists i | 0 <= i < |gets| :: BreaksNow(gets[i], turn.now))
        || ((forall i | 0 <= i < |gets| :: IsIn(gets[i], turn.now)) && !Complete(s.clients, net))
  {
    hide Names, RowsFrom, Complete, Services;
  }

  // ---------- when a poll finishes ----------

  predicate AllBy<T>(calls: seq<Call<T>>, now: nat) {
    forall i | 0 <= i < |calls| && calls[i].Sent? :: calls[i].arrives <= now
  }

  /** All turns up to the `k`-th come before the deadline. */
  predicate Before(turns: seq<Turn>, k: nat, deadline: nat)
    requires k < |turns|
  {
    forall i | 0 <= i <= k :: turns[i].now < deadline
  }

  /** Some turn before the deadline comes after every value has arrived. */
  ghost predicate GotInTime(turns: seq<Turn>, net: Network, deadline: nat) {
    exists k: nat | k < |turns| :: Before(turns, k, deadline) && AllBy(net.gets, turns[k].now)
  }

  /** The `k`-th turn is the first one after every list has arrived. */
  predicate FirstListed(turns: seq<Turn>, net: Network, k: nat)
    requires k < |turns|
  {
    AllBy(net.lists, turns[k].now) && forall i | 0 <= i < k :: !AllBy(net.lists, turns[i].now)
  }

  /** At the `k`-th turn the lists are there in time, and the values come in time for the deadline it sets. */
  ghost predicate ListedAt(turns: seq<Turn>, net: Network, deadline: nat, k: nat)
    requires k < |turns|
  {
    && Before(turns, k, deadline) && FirstListed(turns, net, k)
    && GotInTime(turns[k + 1..], net, turns[k].later + 3_000)
  }

  ghost predicate ListedInTime(turns: seq<Turn>, net: Network, deadline: nat) {
    exists k: nat | k < |turns| :: ListedAt(turns, net, deadline, k)
  }

  /** The `k`-th turn is the first one that finds all services ready; none before it finds that they failed. */
  predicate FirstReady(turns: seq<Turn>, k: nat)
    requires k < |turns|
  {
    Services(turns[k].services).ServicesReady? && forall i | 0 <= i < k :: Services(turns[i].services).ServicesAbsent?
  }

  /** At the `k`-th turn all services are ready in time, and then the lists and the values come in time. */
  ghost predicate ReadyAt(turns: seq<Turn>, net: Network, deadline: nat, k: nat)
    requires k < |turns|
  {
    && Before(turns, k, deadline) && FirstReady(turns, k)
    && ListedInTime(turns[k + 1..], net, turns[k].later + 3_000)
  }

  ghost predicate ReadyInTime(turns: seq<Turn>, net: Network, deadline: nat) {
    exists k: nat | k < |turns| :: ReadyAt(turns, net, deadline, k)
  }

  lemma LaterTurns(turns: seq<Turn>, now: nat)
    requires turns != [] && Monotone(turns, now)
    ensures Monotone(turns[1..], turns[0].now)
  {
    assert forall i | 0 <= i < |turns| - 1 :: turns[1..][i] == turns[i + 1];
  }

  /** A turn later in the list is one earlier in its tail. */
  lemma BeforeShifts(turns: seq<Turn>, k: nat, deadline: nat)
    requires k + 1 < |turns|
    ensures Before(turns, k + 1, deadline) <==> turns[0].now < deadline && Before(turns[1..], k, deadline)
  {
    var rest := turns[1..];
    assert forall i | 0 < i < |turns| :: turns[i] == rest[i - 1];
    assert forall i | 0 <= i < |rest| :: rest[i] == turns[i + 1];
  }

  lemma GotInTimeSteps(turns: seq<Turn>, net: Network, deadline: nat)
    ensures GotInTime(turns, net, deadline) <==>
            && turns != [] && turns[0].now < deadline
            && (AllBy(net.gets, turns[0].now) || GotInTime(turns[1..], net, deadline))
  {
    if k: nat :| k < |turns| && Before(turns, k, deadline) && AllBy(net.gets, turns[k].now) {
      if k > 0 {
        BeforeShifts(turns, k - 1, deadline);
        assert turns[1..][k - 1] == turns[k];
      }
    }
    if turns != [] && turns[0].now < deadline {
      if AllBy(net.gets, turns[0].now) {
        assert Before(turns, 0, deadline);
      } else if k: nat :| k < |turns[1..]| && Before(turns[1..], k, deadline) && AllBy(net.gets, turns[1..][k].now) {
        BeforeShifts(turns, k, deadline);
        assert turns[1..][k] == turns[k + 1];
      }
    }
  }

  lemma ListedNow(turns: seq<Turn>, net: Network, deadline: nat)
    requires turns != []
    ensures ListedAt(turns, net, deadline, 0) <==>
            && turns[0].now < deadline && AllBy(net.lists, turns[0].now)
            && GotInTime(turns[1..], net, turns[0].later + STAGE_MS)
  {
    hide AllBy, GotInTime;
  }

  lemma ListedLater(turns: seq<Turn>, net: Network, deadline: nat, k: nat)
    requires k + 1 < |turns|
    ensures ListedAt(turns, net, deadline, k + 1) <==>
            turns[0].now < deadline && !AllBy(net.lists, turns[0].now) && ListedAt(turns[1..], net, deadline, k)
  {
    hide AllBy, GotInTime, Before;
    BeforeShifts(turns, k, deadline);
    var rest := turns[1..];
    assert forall i | 0 < i < |turns| :: turns[i] == rest[i - 1];
    assert forall i | 0 <= i < |rest| :: rest[i] == turns[i + 1];
    assert rest[k + 1..] == turns[k + 2..];
  }

  lemma ListedInTimeSteps(turns: seq<Turn>, net: Network, deadline: nat)
    ensures ListedInTime(turns, net, deadline) <==>
            && turns != [] && turns[0].now < deadline
            && if AllBy(net.lists, turns[0].now) then GotInTime(turns[1..], net, turns[0].later + STAGE_MS)
               else ListedInTime(turns[1..], net, deadline)
  {
    hide GotInTime, AllBy, ListedAt;
    if turns != [] {
      ListedNow(turns, net, deadline);
      if k: nat :| k < |turns| && ListedAt(turns, net, deadline, k) {
        if k > 0 {
          ListedLater(turns, net, deadline, k - 1);
        }
      }
      if k: nat :| k < |turns[1..]| && ListedAt(turns[1..], net, deadline, k) {
        ListedLater(turns, net, deadline, k);
      }
    }
  }

  lemma ReadyNow(turns: seq<Turn>, net: Network, deadline: nat)
    requires turns != []
    ensures ReadyAt(turns, net, deadline, 0) <==>
            && turns[0].now < deadline && Services(turns[0].services).ServicesReady?
            && ListedInTime(turns[1..], net, turns[0].later + STAGE_MS)
  {
    hide Services, ListedInTime;
  }

  lemma ReadyLater(turns: seq<Turn>, net: Network, deadline: nat, k: nat)
    requires k + 1 < |turns|
    ensures ReadyAt(turns, net, deadline, k + 1) <==>
            && turns[0].now < deadline && Services(turns[0].services).ServicesAbsent?
            && ReadyAt(turns[1..], net, deadline, k)
  {
    hide Services, ListedInTime, Before;
    BeforeShifts(turns, k, deadline);
    var rest := turns[1..];
    assert forall i | 0 < i < |turns| :: turns[i] == rest[i - 1];
    assert forall i | 0 <= i < |rest| :: rest[i] == turns[i + 1];
    assert rest[k + 1..] == turns[k + 2..];
  }

  lemma ReadyInTimeSteps(turns: seq<Turn>, net: Network, deadline: nat)
    ensures ReadyInTime(turns, net, deadline) <==>
            && turns != [] && turns[0].now < deadline
            && match Services(turns[0].services)
               case ServicesReady => ListedInTime(turns[1..], net, turns[0].later + STAGE_MS)
               case ServicesAbsent => ReadyInTime(turns[1..], net, deadline)
               case ServicesFailed => false
  {
    hide ListedInTime, Services, ReadyAt;
    if turns != [] {
      ReadyNow(turns, net, deadline);
      if k: nat :| k < |turns| && ReadyAt(turns, net, deadline, k) {
        if k > 0 {
          ReadyLater(turns, net, deadline, k - 1);
        }
      }
      if k: nat :| k < |turns[1..]| && ReadyAt(turns[1..], net, deadline, k) {
        ReadyLater(turns, net, deadline, k);
      }
    }
  }

  lemma {:induction false} GettingFinishes(p: Progress, turns: seq<Turn>, net: Network, now: nat)
    requires p.Going? && Valid(p.state, net) && p.state.stage.Getting? && Complete(p.state.clients, net)
    requires Past(p.state, net, now) && Monotone(turns, now)
    ensures Run(p, turns, net).Done? <==> GotInTime(turns, net, p.state.deadline)
    decreases turns
  {
    hide GotInTime, Names, RowsFrom;
    GotInTimeSteps(turns, net, p.state.deadline);
    if turns != [] {
      var turn, next := turns[0], Tick(p.state, turns[0], net);
      assert AllBy(net.gets, turn.now) <==> AllIn(p.state.stage.gets, turn.now);
      if next.Going? {
        LaterTurns(turns, now);
        TickStaysPast(p.state, turn, net, now);
        GettingFinishes(next, turns[1..], net, turn.now);
      }
    }
  }

  lemma {:induction false} ListingFinishes(p: Progress, turns: seq<Turn>, net: Network, now: nat)
    requires p.Going? && Valid(p.state, net) && p.state.stage.Listing? && Complete(p.state.clients, net)
    requires Past(p.state, net, now) && Monotone(turns, now)
    ensures Run(p, turns, net).Done? <==> ListedInTime(turns, net, p.state.deadline)
    decreases turns
  {
    hide GotInTime, ListedInTime, Names, RowsFrom;
    ListedInTimeSteps(turns, net, p.state.deadline);
    if turns != [] {
      var turn, next := turns[0], Tick(p.state, turns[0], net);
      assert AllBy(net.lists, turn.now) <==> AllIn(p.state.stage.lists, turn.now);
      if next.Going? {
        LaterTurns(turns, now);
        TickStaysPast(p.state, turn, net, now);
        if next.state.stage.Listing? {
          ListingFinishes(next, turns[1..], net, turn.now);
        } else {
          GettingFinishes(next, turns[1..], net, turn.now);
        }
      }
    }
  }

  lemma {:induction false} ReadyFinishes(p: Progress, turns: seq<Turn>, net: Network, now: nat)
    requires p.Going? && Valid(p.state, net) && p.state.stage.Ready? && Complete(p.state.clients, net)
    requires Monotone(turns, now)
    ensures Run(p, turns, net).Done? <==> ReadyInTime(turns, net, p.state.deadline)
    decreases turns
  {
    hide ListedInTime, ReadyInTime, Names, RowsFrom;
    ReadyInTimeSteps(turns, net, p.state.deadline);
    if turns != [] {
      var turn, next := turns[0], Tick(p.state, turns[0], net);
      if next.Going? {
        LaterTurns(turns, now);
        if next.state.stage.Ready? {
          ReadyFinishes(next, turns[1..], net, turn.now);
        } else {
          ListingFinishes(next, turns[1..], net, turn.now);
        }
      }
    }
  }

  /**
   * Exactly which polls finish, over all schedules of turns: those whose peers all accept and answer both
   * calls, and where each stage has a turn before its deadline with everything there. Any number of turns
   * may find nothing in between.
   */
  lemma AnsweredInTime(clients: seq<Peer>, net: Network, start: nat, turns: seq<Turn>)
    requires Fits(clients, net) && Monotone(turns, start)
    ensures Run(Start(clients, start), turns, net).Done? <==>
            Complete(clients, net) && ReadyInTime(turns, net, start + 3_000)
  {
    hide ReadyInTime, Complete;
    if Run(Start(clients, start), turns, net).Done? {
      RunReturnsAnswers(Start(clients, start), turns, net);
    }
    if Complete(clients, net) {
      ReadyFinishes(Start(clients, start), turns, net, start);
    }
  }

  // ---------- the poll ends ----------

  function StageIndex(s: State): nat {
    match s.stage
    case Ready => 0
    case Listing(_, _) => 1
    case Getting(_, _, _) => 2
  }

  /** A tick stays in its stage with its deadline, or moves to the next stage with a new one. */
  lemma TickAdvances(s: State, turn: Turn, net: Network)
    requires Valid(s, net) && Tick(s, turn, net).Going?
    ensures var next := Tick(s, turn, net).state;
      && turn.now < s.deadline
      && ((StageIndex(next) == StageIndex(s) && next.deadline == s.deadline)
          || (StageIndex(next) == StageIndex(s) + 1 && next.deadline == turn.later + STAGE_MS))
  {
  }

  /** How late a stage may end, if every tick takes at most `slack`. */
  ghost predicate OnTime(s: State, start: nat, slack: nat) {
    s.deadline <= start + STAGE_MS * (StageIndex(s) + 1) + StageIndex(s) * slack
  }

  /**
   * Any turn at or after nine seconds (plus what two ticks may take) has ended the poll; with ticks that
   * take no time, nine seconds.
   */
  lemma {:induction false} PollEnds(p: Progress, turns: seq<Turn>, net: Network, start: nat, slack: nat, k: nat)
    requires p.Going? && Valid(p.state, net) && OnTime(p.state, start, slack)
    requires forall i | 0 <= i < |turns| :: turns[i].later <= turns[i].now + slack
    requires k < |turns| && turns[k].now >= start + 9_000 + 2 * slack
    ensures !Run(p, turns, net).Going?
    decreases turns
  {
    var next := Tick(p.state, turns[0], net);
    if next.Going? {
      TickAdvances(p.state, turns[0], net);
      assert OnTime(next.state, start, slack);
      assert k > 0;
      assert turns[1..][k - 1] == turns[k];
      PollEnds(next, turns[1..], net, start, slack, k - 1);
    }
  }

  // ---------- the rows are strictly increasing ----------

  type Key = (Peer, Text)

  function KeyOf(row: Parameter): Key {
    ((row.node, row.namespace), row.name)
  }

  predicate KeyLeq(a: Key, b: Key) {
    if a.0 == b.0 then TextLeq(a.1, b.1) else PairLeq(a.0, b.0)
  }

  /** Rows in strictly increasing order of node, namespace and name, which is the table's primary key. */
  ghost predicate KeysIncrease(rows: seq<Parameter>) {
    forall i, j | 0 <= i < j < |rows| ::
      KeyLeq(KeyOf(rows[i]), KeyOf(rows[j])) && KeyOf(rows[i]) != KeyOf(rows[j])
  }

  /** The row says what the `k`-th peer answered for the `j`-th of its names. */
  predicate Answers(clients: seq<Peer>, net: Network, k: nat, j: nat, row: Parameter)
    requires Complete(clients, net) && k < |clients|
  {
    var names, values := Names(net.lists[k].outcome.value), net.gets[k].outcome.value;
    && j < |names|
    && (row.node, row.namespace) == clients[k] && row.name == names[j]
    && Known(row.kind, row.value) == values[j]
  }

  /** The rows are the peers' answers, all of them and nothing else. */
  lemma {:induction false} RowsAreAnswers(clients: seq<Peer>, net: Network, i: nat, row: Parameter)
    requires Complete(clients, net) && i <= |clients|
    ensures row in RowsFrom(clients, net, i) <==>
            exists k: nat, j: nat | i <= k < |clients| :: Answers(clients, net, k, j, row)
    decreases |clients| - i
  {
    hide Names;
    if i < |clients| {
      var first := PeerRows(clients[i], Names(net.lists[i].outcome.value), net.gets[i].outcome.value);
      assert forall j: nat | j < |first| :: first[j] == row <==> Answers(clients, net, i, j, row);
      assert row in first <==> exists j: nat :: Answers(clients, net, i, j, row);
      RowsAreAnswers(clients, net, i + 1, row);
    }
  }

  lemma NamesIncrease(listed: seq<Text>)
    ensures Increasing(TextLeq, Names(listed))
  {
    TextOrder();
    SortSorts(TextLeq, listed);
    DedupIncreases(TextLeq, Sort(TextLeq, listed));
  }

  /** Every name that was listed is asked for, and no other. */
  lemma NamesExactly(listed: seq<Text>, x: Text)
    ensures x in Names(listed) <==> x in listed
  {
    TextOrder();
    SortSorts(TextLeq, listed);
    DedupIncreases(TextLeq, Sort(TextLeq, listed));
    assert x in multiset(Sort(TextLeq, listed)) <==> x in multiset(listed);
  }

  lemma {:induction false} ElementsOf(s: seq<Text>)
    requires Increasing(TextLeq, s)
    ensures |set x | x in s| == |s|
  {
    if s != [] {
      var front, last := s[..|s| - 1], s[|s| - 1];
      ElementsOf(front);
      assert s == front + [last];
      assert (set x | x in s) == (set x | x in front) + {last};
    }
  }

  /** How many listed names come before this one. */
  function Rank(listed: seq<Text>, name: Text): nat {
    |set x | x in listed && x != name && TextLeq(x, name)|
  }

  lemma NameAt(listed: seq<Text>, j: nat)
    requires j < |Names(listed)|
    ensures Rank(listed, Names(listed)[j]) == j
  {
    var names := Names(listed);
    NamesIncrease(listed);
    TextOrder();
    forall x ensures x in names[..j] <==> x in listed && x != names[j] && TextLeq(x, names[j]) {
      NamesExactly(listed, x);
      if x in listed && x != names[j] && TextLeq(x, names[j]) {
        var i :| 0 <= i < |names| && names[i] == x;
      }
    }
    ElementsOf(names[..j]);
    assert (set x | x in listed && x != names[j] && TextLeq(x, names[j])) == set x | x in names[..j];
  }

  /** A peer's answer is complete when it gives one known value for each different name that it listed. */
  lemma CompleteExactly(clients: seq<Peer>, net: Network)
    requires Fits(clients, net)
    ensures Complete(clients, net) <==>
            forall i | 0 <= i < |clients| ::
              && net.lists[i].Sent? && net.lists[i].outcome.Some?
              && net.gets[i].Sent? && net.gets[i].outcome.Some?
              && |net.gets[i].outcome.value| == |set x | x in net.lists[i].outcome.value|
              && forall j | 0 <= j < |net.gets[i].outcome.value| :: net.gets[i].outcome.value[j].Known?
  {
    forall i | 0 <= i < |clients| && net.lists[i].Sent? && net.lists[i].outcome.Some?
      ensures |Names(net.lists[i].outcome.value)| == |set x | x in net.lists[i].outcome.value|
    {
      DifferentNames(net.lists[i].outcome.value);
    }
  }

  lemma DifferentNames(listed: seq<Text>)
    ensures |Names(listed)| == |set x | x in listed|
  {
    NamesIncrease(listed);
    ElementsOf(Names(listed));
    forall x ensures x in Names(listed) <==> x in listed {
      NamesExactly(listed, x);
    }
    assert (set x | x in Names(listed)) == set x | x in listed;
  }

  /** The `r`-th row is for this name of this peer. */
  predicate IsFor(rows: seq<Parameter>, r: nat, peer: Peer, name: Text) {
    r < |rows| && (rows[r].node, rows[r].namespace) == peer && rows[r].name == name
  }

  /** The `r`-th row gives the value that its peer returned in the place of its name among the names it listed. */
  predicate IsAnswered(clients: seq<Peer>, net: Network, row: Parameter, k: nat)
    requires Complete(clients, net) && k < |clients|
  {
    var listed, values := net.lists[k].outcome.value, net.gets[k].outcome.value;
    && clients[k] == (row.node, row.namespace) && row.name in listed
    && Rank(listed, row.name) < |values| && values[Rank(listed, row.name)] == Known(row.kind, row.value)
  }

  predicate IsAnAnswer(clients: seq<Peer>, net: Network, row: Parameter)
    requires Complete(clients, net)
  {
    exists k: nat | k < |clients| :: IsAnswered(clients, net, row, k)
  }

  /**
   * A finished poll has exactly one row for each peer and each name that it listed, and no other: the value
   * is the one that the peer returned in the place of that name.
   */
  lemma FinishedRows(clients: seq<Peer>, now: nat, turns: seq<Turn>, net: Network)
    requires Fits(clients, net) && Increasing(PairLeq, clients)
    requires Run(Start(clients, now), turns, net).Done?
    ensures Complete(clients, net)
    ensures var rows := Run(Start(clients, now), turns, net).rows;
      && (forall k: nat, x | k < |clients| && x in net.lists[k].outcome.value :: exists r: nat :: IsFor(rows, r, clients[k], x))
      && (forall r: nat, r': nat, peer, x | IsFor(rows, r, peer, x) && IsFor(rows, r', peer, x) :: r == r')
      && (forall r | 0 <= r < |rows| :: IsAnAnswer(clients, net, rows[r]))
  {
    RunReturnsAnswers(Start(clients, now), turns, net);
    RowsIncrease(clients, net, 0);
    hide Names, Run, Complete, RowsFrom, IsAnAnswer;
    var rows := RowsFrom(clients, net, 0);
    forall k: nat, x | k < |clients| && x in net.lists[k].outcome.value
      ensures exists r: nat :: IsFor(rows, r, clients[k], x)
    {
      var row := RowFor(clients, net, k, x);
      var r: nat :| r < |rows| && rows[r] == row;
      assert IsFor(rows, r, clients[k], x);
    }
    forall r: nat, r': nat, peer, x | IsFor(rows, r, peer, x) && IsFor(rows, r', peer, x) ensures r == r' {
      assert KeyOf(rows[r]) == KeyOf(rows[r']);
    }
    forall r | 0 <= r < |rows| ensures IsAnAnswer(clients, net, rows[r]) {
      assert rows[r] in rows;
      AnswerOf(clients, net, rows[r]);
    }
  }

  lemma RowFor(clients: seq<Peer>, net: Network, k: nat, x: Text) returns (row: Parameter)
    requires Complete(clients, net) && k < |clients| && x in net.lists[k].outcome.value
    ensures row in RowsFrom(clients, net, 0) && (row.node, row.namespace) == clients[k] && row.name == x
  {
    var names, values := Names(net.lists[k].outcome.value), net.gets[k].outcome.value;
    NamesExactly(net.lists[k].outcome.value, x);
    hide Names;
    var j: nat :| j < |names| && names[j] == x;
    row := Parameter(clients[k].0, clients[k].1, x, values[j].kind, values[j].value);
    assert Answers(clients, net, k, j, row);
    RowsAreAnswers(clients, net, 0, row);
  }

  lemma AnswerOf(clients: seq<Peer>, net: Network, row: Parameter)
    requires Complete(clients, net) && row in RowsFrom(clients, net, 0)
    ensures IsAnAnswer(clients, net, row)
  {
    RowsAreAnswers(clients, net, 0, row);
    hide Names, Rank;
    var k: nat, j: nat :| k < |clients| && Answers(clients, net, k, j, row);
    NamesExactly(net.lists[k].outcome.value, row.name);
    NameAt(net.lists[k].outcome.value, j);
    assert IsAnswered(clients, net, row, k);
  }

  /** All services are ready exactly when those of every peer are; otherwise the first peer's that are not decide. */
  lemma {:induction false} ServicesExactly(services: seq<Readiness>)
    ensures Services(services).ServicesReady? <==> forall i | 0 <= i < |services| :: services[i].ServicesReady?
    ensures !Services(services).ServicesReady? ==>
              exists i | 0 <= i < |services| ::
                Services(services) == services[i] && forall k | 0 <= k < i :: services[k].ServicesReady?
  {
    if services != [] && services[0].ServicesReady? {
      var rest := services[1..];
      ServicesExactly(rest);
      assert forall i | 0 < i < |services| :: services[i] == rest[i - 1];
      assert forall i | 0 <= i < |rest| :: rest[i] == services[i + 1];
      if !Services(rest).ServicesReady? {
        var i :| 0 <= i < |rest| && Services(rest) == rest[i] && forall k | 0 <= k < i :: rest[k].ServicesReady?;
        assert Services(services) == services[i + 1];
      }
    }
  }

  lemma {:induction false} RowsIncrease(clients: seq<Peer>, net: Network, i: nat)
    requires Complete(clients, net) && Increasing(PairLeq, clients) && i <= |clients|
    ensures KeysIncrease(RowsFrom(clients, net, i))
    ensures forall row | row in RowsFrom(clients, net, i) ::
              exists k | i <= k < |clients| :: clients[k] == (row.node, row.namespace)
    decreases |clients| - i
  {
    if i < |clients| {
      var names := Names(net.lists[i].outcome.value);
      var first := PeerRows(clients[i], names, net.gets[i].outcome.value);
      var rest := RowsFrom(clients, net, i + 1);
      NamesIncrease(net.lists[i].outcome.value);
      RowsIncrease(clients, net, i + 1);
      forall row: Parameter, later: Parameter | row in first && later in rest
        ensures KeyLeq(KeyOf(row), KeyOf(later)) && KeyOf(row) != KeyOf(later)
      {
        var k :| i + 1 <= k < |clients| && clients[k] == (later.node, later.namespace);
      }
      forall row: Parameter | row in first + rest
        ensures exists k | i <= k < |clients| :: clients[k] == (row.node, row.namespace)
      {
        if row in first {
          assert clients[i] == (row.node, row.namespace);
        }
      }
    }
  }

  /** However a poll went, if it finished then its rows can be inserted. */
  lemma PolledRowsFit(clients: seq<Peer>, now: nat, turns: seq<Turn>, net: Network)
    requires Fits(clients, net) && Increasing(PairLeq, clients)
    requires Run(Start(clients, now), turns, net).Done?
    ensures KeysIncrease(Run(Start(clients, now), turns, net).rows)
  {
    RunReturnsAnswers(Start(clients, now), turns, net);
    RowsIncrease(clients, net, 0);
  }

  // ---------- which peers are asked ----------

  /** What looking up a peer's services comes to. */
  datatype Lookup = Offered | Missing | Error

  /** Begin a poll of the nodes in a snapshot, in whatever order and however often they appear. */
  method StartPoll(nodes: seq<Peer>, lookup: Peer -> Lookup, now: nat) returns (poll: Option<Poll>)
    ensures poll.Some? <==> forall node | node in nodes :: lookup(node) != Error
    ensures poll.Some? ==> fresh(poll.value)
    ensures poll.Some? ==> poll.value.deadline == now + STAGE_MS && poll.value.stage == Ready
    ensures poll.Some? ==> Increasing(PairLeq, poll.value.clients)
    ensures poll.Some? ==> forall peer :: peer in poll.value.clients <==> peer in nodes && lookup(peer) == Offered
  {
    var peers := Dedup(Sort(PairLeq, nodes));
    PeersIncrease(nodes);
    var clients := [];
    for i := 0 to |peers|
      invariant forall k | 0 <= k < i :: lookup(peers[k]) != Error
      invariant forall peer :: peer in clients <==> peer in peers[..i] && lookup(peer) == Offered
      invariant Increasing(PairLeq, clients)
    {
      var found := lookup(peers[i]);
      if found == Error {
        assert peers[i] in peers;
        return None;
      }
      assert peers[..i + 1] == peers[..i] + [peers[i]];
      if found == Offered {
        forall k | 0 <= k < |clients|
          ensures PairLeq(clients[k], peers[i]) && clients[k] != peers[i]
        {
          assert clients[k] in peers[..i];
        }
        clients := clients + [peers[i]];
      }
    }
    assert peers[..|peers|] == peers;
    var started := new Poll(clients, now);
    poll := Some(started);
  }

  lemma PeersIncrease(nodes: seq<Peer>)
    ensures Increasing(PairLeq, Dedup(Sort(PairLeq, nodes)))
    ensures forall peer :: peer in Dedup(Sort(PairLeq, nodes)) <==> peer in nodes
  {
    PairOrder();
    SortSorts(PairLeq, nodes);
    DedupIncreases(PairLeq, Sort(PairLeq, nodes));
    forall peer ensures peer in Sort(PairLeq, nodes) <==> peer in nodes {
      assert peer in multiset(Sort(PairLeq, nodes)) <==> peer in multiset(nodes);
    }
  }
}
