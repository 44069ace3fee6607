/**
 * One topic of the table-backed subscriptions, over every run of the worker and of the sessions that edit
 * its tables: reconciling, callbacks, flushes, restarts, and the extension coming and going.
 */
module TopicRuns {
  import opened Basics
  import opened Schema
  import opened Json
  import opened Encoding
  import opened Inversion
  import opened Nesting
  import opened Mailboxes

  /** A row of the subscriptions table. */
  datatype Sub = Sub(requestedType: Option<Text>, messageType: Option<Text>, lastError: Option<Text>)

  /**
   * What a reconcile, having read the table, is going to write for the topic. `Idle` is the state between
   * two reconciles and `Nothing` that of one with nothing to write.
   */
  datatype Plan = Idle | Nothing | Subscribed(kind: Text) | Refused(error: Text) | Expired | Removed

  /** The topic in the worker's memory and in the tables. */
  datatype Topic = Topic(live: Option<Live>, plan: Plan, installed: bool, sub: Option<Sub>, row: Option<Row>)

  // ---------- reconcile ----------

  predicate Stale(ttl: real, idle: real) {
    ttl > 0.0 && idle > ttl
  }

  /** After the table was read; `offer` is what subscribing comes to, should it be tried. */
  function AfterRead(t: Topic, ttl: real, idle: real, offer: Result<Live>): Topic {
    if t.sub.None? then t.(live := None, plan := if t.live.Some? then Removed else Nothing)
    else if Stale(ttl, idle) then t.(live := None, plan := Expired)
    else if t.live.Some? then t.(plan := Nothing)
    else match offer
      case Ok(live) => t.(live := Some(live), plan := Subscribed(live.kind))
      case Err(error) => t.(plan := Refused(error))
  }

  /** After the plan was written, unless the extension is gone. */
  function AfterCommit(t: Topic): Topic {
    if !t.installed then t.(plan := Idle)
    else match t.plan
      case Subscribed(kind) => t.(plan := Idle, sub := Subscribing(t.sub, kind))
      case Refused(error) => t.(plan := Idle, sub := Failing(t.sub, error))
      case Expired => t.(plan := Idle, sub := None, row := None)
      case Removed => t.(plan := Idle, row := None)
      case _ => t.(plan := Idle)
  }

  function Subscribing(sub: Option<Sub>, kind: Text): Option<Sub> {
    if sub.Some? then Some(sub.value.(messageType := Some(kind), lastError := None)) else None
  }

  function Failing(sub: Option<Sub>, error: Text): Option<Sub> {
    if sub.Some? then Some(sub.value.(lastError := Some(error))) else None
  }

  /** Nothing of the extension is in the tables while it is not installed. */
  predicate Consistent(t: Topic) {
    && (!t.installed ==> t.sub.None? && t.row.None?)
    && (t.plan.Idle? || t.plan.Nothing? || t.plan.Subscribed? || t.live.None?)
  }

  /**
   * A reconcile that nobody interferes with: the registration stays exactly when it has not expired, what is
   * live is registered, what is registered is live or carries an error, a subscription that stays live keeps
   * its mailbox, and a topic that stopped being live loses its message. A second one changes nothing more,
   * if it comes before the registration expires and the topic can be subscribed to.
   */
  lemma Converges(t: Topic, ttl: real, idle: real, offer: Result<Live>)
    requires Consistent(t) && t.plan.Idle?
    ensures var t' := AfterCommit(AfterRead(t, ttl, idle, offer));
      && t'.plan.Idle? && Consistent(t')
      && (t'.sub.Some? <==> t.sub.Some? && (ttl <= 0.0 || idle <= ttl))
      && (t'.live.Some? ==> t'.sub.Some?)
      && (t'.sub.Some? ==> t'.live.Some? || t'.sub.value.lastError.Some?)
      && (t.live.Some? && t'.live.Some? ==> t'.live == t.live && t'.sub == t.sub)
      && (t.live.Some? && t'.live.None? ==> t'.row.None?)
      && (t.live.None? && t'.live.Some? ==>
            offer == Ok(t'.live.value)
            && t'.sub == Some(Sub(t.sub.value.requestedType, Some(t'.live.value.kind), None)))
      && (t'.live.None? && t'.sub.Some? ==>
            offer.Err? && t'.sub == Some(t.sub.value.(lastError := Some(offer.error))))
      && (t'.live.Some? ==>
            forall idle': real, offer': Result<Live> | ttl <= 0.0 || idle' <= ttl ::
              AfterCommit(AfterRead(t', ttl, idle', offer')) == t')
  {
  }

  /**
   * Which cached messages a reconcile removes: exactly those of expired registrations and those of removed
   * registrations whose topic was live.
   */
  lemma RowSurvivesExactly(t: Topic, ttl: real, idle: real, offer: Result<Live>)
    requires Consistent(t) && t.plan.Idle? && t.row.Some?
    ensures AfterCommit(AfterRead(t, ttl, idle, offer)).row ==
            if (t.sub.Some? && ttl > 0.0 && idle > ttl) || (t.sub.None? && t.live.Some?) then None else t.row
  {
  }

  /** With a limit of zero nothing expires; otherwise a registration does exactly when it is older than the limit. */
  lemma KeptExactly(t: Topic, ttl: real, idle: real, offer: Result<Live>)
    requires Consistent(t) && t.plan.Idle? && t.sub.Some? && ttl >= 0.0
    ensures var t' := AfterCommit(AfterRead(t, ttl, idle, offer));
      && (t'.sub.Some? <==> ttl == 0.0 || idle <= ttl)
      && (ttl == 0.0 || idle <= ttl ==> t'.row == t.row && (t.live.Some? ==> t'.live == t.live))
  {
  }

  /** A commit never registers a topic and writes nothing while the extension is gone, whatever happened since the read. */
  lemma CommitOnlyUpdates(t: Topic)
    ensures t.sub.None? ==> AfterCommit(t).sub.None?
    ensures !t.installed ==> AfterCommit(t) == t.(plan := Idle)
    ensures t.installed && !t.plan.Expired? && !t.plan.Removed? ==> AfterCommit(t).row == t.row
    ensures t.installed && t.plan.Removed? ==> AfterCommit(t).row == None && AfterCommit(t).sub == t.sub
    ensures t.installed && t.plan.Expired? ==> AfterCommit(t).row == None && AfterCommit(t).sub == None
  {
  }

  // ---------- flush ----------

  /** After what was taken out of the mailbox was written, unless the extension is gone. */
  function Stored(t: Topic, taken: Taken): Topic {
    if !t.installed then t
    else t.(row := StoredRow(taken, t.row),
            sub := if t.sub.Some? then Some(t.sub.value.(lastError := StoredError(taken, t.sub.value.lastError))) else None)
  }

  function AfterFlush(t: Topic, depth: nat, broken: Text): Topic {
    if t.live.None? then t
    else Stored(t.(live := Some(Emptied(t.live.value))), Take(t.live.value.mailbox, depth, broken))
  }

  /**
   * The whole effect of a flush on a topic's rows. The message is stored when it parses. The error is the
   * callback's newest; without one it is the parser's complaint when the message does not parse, none when it
   * does, and what it was when nothing was pending.
   */
  lemma FlushExactly(t: Topic, depth: nat, broken: Text)
    requires t.live.Some?
    ensures var box, t' := t.live.value.mailbox, AfterFlush(t, depth, broken);
      var parsed := if box.pending.Some? then Parse(box.pending.value.1, depth) else None;
      && t'.plan == t.plan && t'.installed == t.installed
      && t'.live == Some(t.live.value.(mailbox := Mailbox(box.sequence, None, None)))
      && (!t.installed ==> t'.sub == t.sub && t'.row == t.row)
      && (t.installed ==>
            && t'.row == (if parsed.Some? then Some(Row(box.pending.value.0, parsed.value)) else t.row)
            && (t.sub.None? ==> t'.sub.None?)
            && (t.sub.Some? ==>
                  t'.sub == Some(t.sub.value.(lastError :=
                    if box.error.Some? then box.error
                    else if box.pending.None? then t.sub.value.lastError
                    else if parsed.Some? then None
                    else Some(broken)))))
  {
    hide Parse;
  }

  /**
   * What a window of messages leaves in a registered topic's `last_error`: the error of its newest message
   * without a payload; if all have one, the parser's complaint when it cannot read the newest, and none when
   * it can; and what it was when there was no message.
   */
  lemma FlushReports(t: Topic, live: Live, ms: seq<Message>, depth: nat, broken: Text)
    requires Mailboxes.Idle(live) && AllTyped(live, ms)
    requires t.installed && t.sub.Some? && t.live == Some(ReceivedAll(live, ms))
    ensures var t' := AfterFlush(t, depth, broken); t'.sub.Some? && var error := t'.sub.value.lastError;
      && (ms == [] ==> error == t.sub.value.lastError)
      && (forall i | 0 <= i < |ms| && PayloadAt(live, ms, i).None?
                     && (forall j | i < j < |ms| :: PayloadAt(live, ms, j).Some?) :: error == Some(ms[i].why))
      && (ms != [] && (forall i | 0 <= i < |ms| :: PayloadAt(live, ms, i).Some?) ==>
            error == if Readable(live, ms[|ms| - 1].slots, depth) then None else Some(broken))
  {
    hide Parse, Encoded, ReceivedAll, Readable, AllTyped;
    FlushExactly(t, depth, broken);
    MailboxKeepsNewest(live, ms);
    LastWhereFinds(live, ms, true);
    LastWhereFinds(live, ms, false);
    if ms != [] {
      StorableRows(live, ms, |ms| - 1, depth);
    }
  }

  // ---------- runs ----------

  /**
   * What a run has been through: how many lives the topic's subscription has had, which of them wrote the
   * cached message (none, for one from before the session), the newest encoded message of the current one,
   * and whether that message is too deep for the parser.
   */
  datatype History = History(begun: nat, from: Option<nat>, newest: Option<Row>, deep: bool)

  datatype World = World(topic: Topic, history: History)

  /** `Restart` begins another session, after a rebuild or a crash; `Edit` is DML on the subscriptions table. */
  datatype Event =
    | Get(m: Message)
    | Flush(broken: Text)
    | Read(ttl: real, idle: real, offer: Result<Live>)
    | Unreadable
    | Commit
    | Restart
    | Edit(sub: Option<Sub>)
    | DeleteMessage
    | CreateExtension
    | DropExtension

  predicate FreshLive(live: Live) {
    live.mailbox == NewMailbox() && ValidFields(live.fields)
  }

  /** Between its two transactions a reconcile lets nothing else of the worker run. */
  predicate Possible(t: Topic, e: Event) {
    match e
    case Get(m) => t.plan.Idle? && t.live.Some? && TypedSlots(t.live.value.fields, m.slots)
    case Flush(_) => t.plan.Idle?
    case Read(_, _, offer) => t.plan.Idle? && (offer.Ok? ==> FreshLive(offer.value))
    case Unreadable => t.plan.Idle?
    case Commit => !t.plan.Idle?
    case Edit(_) => t.installed
    case CreateExtension => !t.installed
    case _ => true
  }

  function After(t: Topic, e: Event, depth: nat): Topic {
    match e
    case Get(m) => if t.live.Some? then t.(live := Some(Received(t.live.value, m))) else t
    case Flush(broken) => AfterFlush(t, depth, broken)
    case Read(ttl, idle, offer) => AfterRead(t, ttl, idle, offer)
    case Unreadable => t
    case Commit => AfterCommit(t)
    case Restart => t.(live := None, plan := Idle)
    case Edit(sub) => t.(sub := sub)
    case DeleteMessage => t.(row := None)
    case CreateExtension => t.(installed := true, sub := None, row := None)
    case DropExtension => t.(installed := false, sub := None, row := None)
  }

  /** The newest encoded message, were this one to arrive. */
  function Newest(live: Live, m: Message, newest: Option<Row>): Option<Row> {
    var sequence := live.mailbox.sequence + 1;
    if Encoded(live, sequence, m.slots).Some?
    then Some(Row(sequence, PayloadTree(live.topic, live.kind, sequence, live.fields, m.slots))) else newest
  }

  /** Whether the newest encoded message, were this one to arrive, is too deep for the parser. */
  ghost predicate NewestTooDeep(live: Live, m: Message, deep: bool, depth: nat) {
    if Encoded(live, live.mailbox.sequence + 1, m.slots).Some? then !Readable(live, m.slots, depth) else deep
  }

  ghost function Recorded(w: World, e: Event, depth: nat): History {
    match e
    case Get(m) =>
      if w.topic.live.Some?
      then w.history.(newest := Newest(w.topic.live.value, m, w.history.newest),
                      deep := NewestTooDeep(w.topic.live.value, m, w.history.deep, depth))
      else w.history
    case Flush(broken) =>
      if w.topic.live.Some? && w.topic.installed && Take(w.topic.live.value.mailbox, depth, broken).row.Some?
      then w.history.(from := Some(w.history.begun)) else w.history
    case Read(ttl, idle, offer) =>
      if AfterRead(w.topic, ttl, idle, offer).plan.Subscribed?
      then w.history.(begun := w.history.begun + 1, newest := None, deep := false) else w.history
    case Restart => w.history.(from := None)
    case _ => w.history
  }

  ghost function Step(w: World, e: Event, depth: nat): World {
    World(After(w.topic, e, depth), Recorded(w, e, depth))
  }

  ghost function Run(w: World, es: seq<Event>, depth: nat): World
    decreases es
  {
    if es == [] then w else Run(Step(w, es[0], depth), es[1..], depth)
  }

  ghost predicate ValidRun(w: World, es: seq<Event>, depth: nat)
    decreases es
  {
    es == [] || (Possible(w.topic, es[0]) && ValidRun(Step(w, es[0], depth), es[1..], depth))
  }

  /** A pending payload is the newest encoded message of this life. */
  predicate PendingIsNewest(live: Live, newest: Option<Row>, depth: nat) {
    live.mailbox.pending.Some? ==>
      && newest.Some?
      && live.mailbox.pending.value.0 == newest.value.sequence
      && Parse(live.mailbox.pending.value.1, depth) == Some(newest.value.message)
  }

  /** The cached message was written by the current life of the subscription. */
  predicate FromThisLife(w: World) {
    w.topic.live.Some? && w.history.from == Some(w.history.begun)
  }

  /** What holds in every reachable state. */
  predicate Inv(w: World, depth: nat) {
    && Consistent(w.topic)
    && (w.history.from.Some? ==> w.history.from.value <= w.history.begun)
    && (w.topic.row.Some? && w.history.from.Some? ==> FromThisLife(w) || w.topic.plan.Expired? || w.topic.plan.Removed?)
    && (w.topic.live.Some? ==> ValidFields(w.topic.live.value.fields))
    && (depth >= MAX_BRACKETS ==> !w.history.deep)
    && (w.topic.live.Some? && !w.history.deep ==> PendingIsNewest(w.topic.live.value, w.history.newest, depth))
    && (w.topic.row.Some? && FromThisLife(w) && !w.history.deep && w.topic.live.value.mailbox.pending.None? ==>
          w.topic.row == w.history.newest)
  }

  lemma GetKeepsInv(w: World, m: Message, depth: nat)
    requires Inv(w, depth) && Possible(w.topic, Get(m))
    ensures Inv(Step(w, Get(m), depth), depth)
  {
    hide Parse, Encoded, Readable, PayloadTree;
    var live := w.topic.live.value;
    var sequence := live.mailbox.sequence + 1;
    if Encoded(live, sequence, m.slots).Some? {
      PayloadReads(live, sequence, m.slots, depth);
      if depth >= MAX_BRACKETS {
        EncodedIsReadable(live, sequence, m.slots, depth);
      }
    }
  }

  lemma StepKeepsInv(w: World, e: Event, depth: nat)
    requires Inv(w, depth) && Possible(w.topic, e)
    ensures Inv(Step(w, e, depth), depth)
  {
    hide Parse, Encoded;
    if e.Get? {
      GetKeepsInv(w, e.m, depth);
    }
  }

  /** The start of a session, before the topic is live; a cached message may be there from before. */
  predicate Started(w: World) {
    && Consistent(w.topic) && w.topic.live.None? && w.topic.plan.Idle? && w.history.from.None? && !w.history.deep
  }

  lemma {:induction false} RunKeepsInv(w: World, es: seq<Event>, depth: nat)
    requires Inv(w, depth) && ValidRun(w, es, depth)
    ensures Inv(Run(w, es, depth), depth)
    decreases es
  {
    hide Inv, Possible, Step;
    if es != [] {
      StepKeepsInv(w, es[0], depth);
      RunKeepsInv(Step(w, es[0], depth), es[1..], depth);
    }
  }

  /**
   * Between two reconciles, over every run, a cached message that was not there when the session started was
   * written by the subscription that is live now. With nothing pending it is the newest message that had a
   * payload, unless that one is too deep for the parser; to one that goes 131 levels deep none is.
   */
  lemma NoStaleMessage(w: World, es: seq<Event>, depth: nat)
    requires Started(w) && ValidRun(w, es, depth)
    ensures var now := Run(w, es, depth);
      now.topic.plan.Idle? && now.topic.row.Some? && now.history.from.Some? ==>
        && FromThisLife(now)
        && (now.topic.live.value.mailbox.pending.None? && !now.history.deep ==> now.topic.row == now.history.newest)
    ensures depth >= 131 ==> !Run(w, es, depth).history.deep
  {
    hide Run, ValidRun;
    assert Inv(w, depth);
    RunKeepsInv(w, es, depth);
  }

  /** What a flush writes is the newest message of the subscription's life that had a payload, whole and in its envelope. */
  lemma FlushShowsNewest(w: World, es: seq<Event>, broken: Text, depth: nat)
    requires Started(w) && ValidRun(w, es, depth)
    requires var now := Run(w, es, depth);
      && now.topic.plan.Idle? && now.topic.installed && !now.history.deep
      && now.topic.live.Some? && now.topic.live.value.mailbox.pending.Some?
    ensures var before, after := Run(w, es, depth), Step(Run(w, es, depth), Flush(broken), depth);
      && after.topic.row.Some? && after.topic.row == before.history.newest
      && FromThisLife(after) && Mailboxes.Idle(after.topic.live.value)
  {
    hide Run, ValidRun, Parse;
    assert Inv(w, depth);
    RunKeepsInv(w, es, depth);
  }

  /**
   * Once a reconcile has found the topic unregistered, nothing that its subscription received until then
   * is seen again in this session, however it is registered later.
   */
  lemma {:induction false} NoEarlierLife(w: World, es: seq<Event>, depth: nat, lives: nat)
    requires Inv(w, depth) && ValidRun(w, es, depth)
    requires forall i | 0 <= i < |es| :: !es[i].Restart?
    requires w.history.begun >= lives
    requires w.topic.live.Some? ==> w.history.begun > lives
    requires w.topic.row.Some? && w.history.from.Some? ==> w.history.from.value > lives
    ensures var now := Run(w, es, depth);
      now.topic.row.Some? && now.history.from.Some? ==> now.history.from.value > lives
    decreases es
  {
    if es != [] {
      var next := Step(w, es[0], depth);
      StepKeepsInv(w, es[0], depth);
      StepKeepsLater(w, es[0], depth, lives);
      hide Inv, Step, Possible;
      NoEarlierLife(next, es[1..], depth, lives);
    }
  }

  lemma StepKeepsLater(w: World, e: Event, depth: nat, lives: nat)
    requires Inv(w, depth) && Possible(w.topic, e) && !e.Restart?
    requires w.history.begun >= lives
    requires w.topic.live.Some? ==> w.history.begun > lives
    requires w.topic.row.Some? && w.history.from.Some? ==> w.history.from.value > lives
    ensures var next := Step(w, e, depth);
      && next.history.begun >= lives
      && (next.topic.live.Some? ==> next.history.begun > lives)
      && (next.topic.row.Some? && next.history.from.Some? ==> next.history.from.value > lives)
  {
    hide Parse, Encoded, PendingIsNewest;
  }

  /** What other sessions do. */
  predicate ByOthers(e: Event) {
    e.Edit? || e.DeleteMessage? || e.CreateExtension? || e.DropExtension?
  }

  /** Other sessions change neither the worker's memory nor where a cached message comes from. */
  lemma {:induction false} OthersKeep(w: World, es: seq<Event>, depth: nat)
    requires Inv(w, depth) && ValidRun(w, es, depth)
    requires forall i | 0 <= i < |es| :: ByOthers(es[i])
    ensures var now := Run(w, es, depth);
      && Inv(now, depth) && now.history == w.history
      && now.topic.live == w.topic.live && now.topic.plan == w.topic.plan
      && (now.topic.row.Some? ==> now.topic.row == w.topic.row)
    decreases es
  {
    hide Parse, Encoded, Take, Received;
    if es != [] {
      assert ByOthers(es[0]);
      StepKeepsInv(w, es[0], depth);
      hide Inv;
      OthersKeep(Step(w, es[0], depth), es[1..], depth);
    }
  }

  /**
   * A reconcile that finds the topic unregistered brings that about, whatever other sessions do between its
   * two transactions; registering the topic again is one of those things.
   */
  lemma UnregisteredEndsLife(
      w: World, ttl: real, idle: real, offer: Result<Live>, between: seq<Event>, es: seq<Event>, depth: nat)
    requires Inv(w, depth) && w.topic.plan.Idle? && w.topic.sub.None?
    requires offer.Ok? ==> FreshLive(offer.value)
    requires ValidRun(Step(w, Read(ttl, idle, offer), depth), between, depth)
    requires forall i | 0 <= i < |between| :: ByOthers(between[i])
    requires ValidRun(Step(Run(Step(w, Read(ttl, idle, offer), depth), between, depth), Commit, depth), es, depth)
    requires forall i | 0 <= i < |es| :: !es[i].Restart?
    ensures var now := Run(Step(Run(Step(w, Read(ttl, idle, offer), depth), between, depth), Commit, depth), es, depth);
      now.topic.row.Some? && now.history.from.Some? ==> now.history.from.value > w.history.begun
  {
    hide Run, ValidRun, Parse;
    var read := Step(w, Read(ttl, idle, offer), depth);
    StepKeepsInv(w, Read(ttl, idle, offer), depth);
    OthersKeep(read, between, depth);
    var found := Run(read, between, depth);
    StepKeepsInv(found, Commit, depth);
    NoEarlierLife(Step(found, Commit, depth), es, depth, w.history.begun);
  }

  // ---------- the message that survives ----------

  /**
   * What a session does not clean up: a message cached before a restart outlives the deletion of its
   * registration, when that comes before the first reconcile, and a later registration of the topic shows
   * it while its own subscription has received nothing.
   */
  lemma RestartLeavesStale(live: Live, sub: Sub, m: Message, depth: nat, broken: Text)
    requires FreshLive(live) && TypedSlots(live.fields, m.slots) && Encoded(live, 1, m.slots).Some?
    requires Readable(live, m.slots, depth)
    ensures var start := World(Topic(None, Idle, false, None, None), History(0, None, None, false));
      var register, reconcile := Edit(Some(sub)), Read(0.0, 0.0, Ok(live));
      var first := [CreateExtension, register, reconcile, Commit, Get(m), Flush(broken)];
      var second := [Restart, Edit(None), reconcile, Commit, register, reconcile, Commit];
      var before, after := Run(start, first, depth), Run(Run(start, first, depth), second, depth);
      && ValidRun(start, first, depth) && ValidRun(before, second, depth)
      && before.topic.row.Some? && after.topic.row == before.topic.row
      && after.topic.live == Some(live) && after.history.newest.None? && after.topic.plan.Idle?
  {
    hide Parse, Encoded, TypedSlots, ValidFields, Readable;
    PayloadReads(live, 1, m.slots, depth);
    var start := World(Topic(None, Idle, false, None, None), History(0, None, None, false));
    var register, reconcile: Event := Edit(Some(sub)), Read(0.0, 0.0, Ok(live));
    var first := [CreateExtension, register, reconcile, Commit, Get(m), Flush(broken)];
    FirstLife(live, sub, m, depth, broken);
    SecondLife(Run(start, first, depth), live, sub, depth);
  }

  lemma FirstLife(live: Live, sub: Sub, m: Message, depth: nat, broken: Text)
    requires FreshLive(live) && TypedSlots(live.fields, m.slots) && Encoded(live, 1, m.slots).Some?
    requires Parse(Encoded(live, 1, m.slots).value, depth).Some?
    ensures var start := World(Topic(None, Idle, false, None, None), History(0, None, None, false));
      var first := [CreateExtension, Edit(Some(sub)), Read(0.0, 0.0, Ok(live)), Commit, Get(m), Flush(broken)];
      var before := Run(start, first, depth);
      && ValidRun(start, first, depth)
      && before.topic.installed && before.topic.row.Some? && before.topic.plan.Idle?
  {
    hide Parse, Encoded, TypedSlots, ValidFields;
    var start := World(Topic(None, Idle, false, None, None), History(0, None, None, false));
    var reconcile: Event := Read(0.0, 0.0, Ok(live));
    var w1 := Unfold(start, CreateExtension, [Edit(Some(sub)), reconcile, Commit, Get(m), Flush(broken)], depth);
    var w2 := Unfold(w1, Edit(Some(sub)), [reconcile, Commit, Get(m), Flush(broken)], depth);
    var w3 := Unfold(w2, reconcile, [Commit, Get(m), Flush(broken)], depth);
    var w4 := Unfold(w3, Commit, [Get(m), Flush(broken)], depth);
    var w5 := Unfold(w4, Get(m), [Flush(broken)], depth);
    var w6 := Unfold(w5, Flush(broken), [], depth);
  }

  lemma SecondLife(before: World, live: Live, sub: Sub, depth: nat)
    requires FreshLive(live) && before.topic.installed && before.topic.row.Some? && before.topic.plan.Idle?
    ensures var reconcile := Read(0.0, 0.0, Ok(live));
      var second := [Restart, Edit(None), reconcile, Commit, Edit(Some(sub)), reconcile, Commit];
      var after := Run(before, second, depth);
      && ValidRun(before, second, depth) && after.topic.row == before.topic.row
      && after.topic.live == Some(live) && after.history.newest.None? && after.topic.plan.Idle?
  {
    hide Parse, Encoded, TypedSlots, ValidFields;
    var register, reconcile: Event := Edit(Some(sub)), Read(0.0, 0.0, Ok(live));
    var w1 := Unfold(before, Restart, [Edit(None), reconcile, Commit, register, reconcile, Commit], depth);
    var w2 := Unfold(w1, Edit(None), [reconcile, Commit, register, reconcile, Commit], depth);
    var w3 := Unfold(w2, reconcile, [Commit, register, reconcile, Commit], depth);
    var w4 := Unfold(w3, Commit, [register, reconcile, Commit], depth);
    var w5 := Unfold(w4, register, [reconcile, Commit], depth);
    var w6 := Unfold(w5, reconcile, [Commit], depth);
    var w7 := Unfold(w6, Commit, [], depth);
  }

  lemma Unfold(w: World, e: Event, es: seq<Event>, depth: nat) returns (next: World)
    ensures next == Step(w, e, depth)
    ensures Run(w, [e] + es, depth) == Run(next, es, depth)
    ensures ValidRun(w, [e] + es, depth) <==> Possible(w.topic, e) && ValidRun(next, es, depth)
  {
    assert ([e] + es)[1..] == es;
    next := Step(w, e, depth);
  }
}
