/** The worker's live subscriptions and the tables they follow: reconcile, callback and flush over all topics. */
module Subscriptions {
  import opened Basics
  import opened Schema
  import opened Mailboxes
  import opened TopicRuns
  import Json

  function At<K, V>(m: map<K, V>, k: K): Option<V> {
    if k in m then Some(m[k]) else None
  }

  /** A row of the subscriptions table as the worker reads it. */
  datatype Desired = Desired(topic: Text, requestedType: Option<Text>, idle: real)

  /** What the worker can see of ROS: the advertised types of each topic and the message types it can load. */
  datatype Ros = Ros(graph: map<Text, seq<Text>>, types: map<Text, seq<Field>>)

  /** Without a requested type, a topic's type is the only one advertised. */
  function Resolve(ros: Ros, topic: Text): Result<Text> {
    if topic !in ros.graph then Err("no advertised message type yet")
    else if |ros.graph[topic]| == 1 then Ok(ros.graph[topic][0])
    else Err("topic has multiple message types; set requested_type")
  }

  /** What subscribing to a topic comes to. */
  function Subscribe(ros: Ros, topic: Text, requestedType: Option<Text>, limit: nat): (r: Result<Live>)
    ensures r.Ok? ==>
      && r.value.topic == topic && r.value.mailbox == NewMailbox() && r.value.limit == limit
      && (requestedType.Some? && requestedType.value != "" ==> r.value.kind == requestedType.value)
      && (requestedType.None? || requestedType.value == "" ==> topic in ros.graph && ros.graph[topic] == [r.value.kind])
      && r.value.kind in ros.types && r.value.fields == ros.types[r.value.kind]
    ensures requestedType.Some? && requestedType.value in ros.types && requestedType.value != "" ==> r.Ok?
    ensures requestedType.None? || requestedType.value == "" ==>
              topic in ros.graph && |ros.graph[topic]| == 1 && ros.graph[topic][0] in ros.types ==> r.Ok?
  {
    var kind := if requestedType.Some? && requestedType.value != "" then Ok(requestedType.value) else Resolve(ros, topic);
    match kind
    case Err(error) => Err(error)
    case Ok(kind) =>
      if kind in ros.types then Ok(Live(topic, kind, ros.types[kind], limit, NewMailbox()))
      else Err("message packages are resolved from AMENT_PREFIX_PATH")
  }

  /** A new subscription to a topic: the type that was asked for, or else the only one advertised. */
  predicate Made(live: Live, topic: Text, requestedType: Option<Text>, ros: Ros, limit: nat) {
    && live.topic == topic && live.limit == limit && live.mailbox == Mailbox(0, None, None)
    && live.kind in ros.types && live.fields == ros.types[live.kind]
    && if requestedType.Some? && requestedType.value != "" then live.kind == requestedType.value
       else topic in ros.graph && ros.graph[topic] == [live.kind]
  }

  /** The type that was asked for, or else the only one advertised, can be loaded. */
  predicate Makeable(topic: Text, requestedType: Option<Text>, ros: Ros) {
    if requestedType.Some? && requestedType.value != "" then requestedType.value in ros.types
    else topic in ros.graph && |ros.graph[topic]| == 1 && ros.graph[topic][0] in ros.types
  }

  lemma SameMap<K, V>(a: map<K, V>, b: map<K, V>)
    requires forall k :: At(a, k) == At(b, k)
    ensures a == b
  {
    assert forall k :: k in a <==> At(a, k).Some?;
    assert forall k :: k in b <==> At(b, k).Some?;
  }

  /** What a reconcile makes of one topic. */
  predicate Reconciled(before: Topic, after: Topic, topic: Text, ttl: real, idle: real, ros: Ros, limit: nat) {
    var kept := before.sub.Some? && (ttl == 0.0 || idle <= ttl);
    && (after.sub.Some? <==> kept)
    && (after.live.Some? ==> kept)
    && (kept && before.live.Some? ==> after.live == before.live && after.sub == before.sub)
    && (kept && before.live.None? ==> (after.live.Some? <==> Makeable(topic, before.sub.value.requestedType, ros)))
    && (kept && before.live.None? && after.live.Some? ==>
          && Made(after.live.value, topic, before.sub.value.requestedType, ros, limit)
          && after.sub == Some(Sub(before.sub.value.requestedType, Some(after.live.value.kind), None)))
    && (kept && after.live.None? ==>
          after.sub.value.lastError.Some? && after.sub == Some(before.sub.value.(lastError := after.sub.value.lastError)))
    && after.row == (if (before.sub.Some? && !kept) || (before.sub.None? && before.live.Some?) then None else before.row)
  }

  lemma ReconciledTopic(t: Topic, topic: Text, ttl: real, idle: real, ros: Ros, limit: nat)
    requires Consistent(t) && t.plan.Idle? && ttl >= 0.0
    ensures Reconciled(t, AfterCommit(AfterRead(t, ttl, idle, Offer(ros, topic, t.sub, limit))), topic, ttl, idle, ros, limit)
  {
    hide Subscribe;
  }

  function Offer(ros: Ros, topic: Text, sub: Option<Sub>, limit: nat): Result<Live> {
    Subscribe(ros, topic, if sub.Some? then sub.value.requestedType else None, limit)
  }

  /** What a reconcile has to write. */
  datatype Work = Work(metadata: seq<(Text, Result<Text>)>, expired: seq<Text>, removed: seq<Text>)

  function PlanOf(plans: map<Text, Plan>, topic: Text): Plan {
    if topic in plans then plans[topic] else Nothing
  }

  function Announced(r: Result<Text>): Plan {
    match r
    case Ok(kind) => Subscribed(kind)
    case Err(error) => Refused(error)
  }

  /** The lists say exactly what the plans do. */
  ghost predicate Carries(work: Work, plans: map<Text, Plan>) {
    && (forall i | 0 <= i < |work.metadata| :: PlanOf(plans, work.metadata[i].0) == Announced(work.metadata[i].1))
    && (forall topic | topic in work.expired :: PlanOf(plans, topic) == Expired)
    && (forall topic | topic in work.removed :: PlanOf(plans, topic) == Removed)
    && forall topic | topic in plans :: Lists(work, topic, plans[topic])
  }

  ghost predicate Lists(work: Work, topic: Text, plan: Plan) {
    match plan
    case Expired => topic in work.expired
    case Removed => topic in work.removed
    case Subscribed(kind) => (topic, Ok(kind)) in work.metadata
    case Refused(error) => (topic, Err(error)) in work.metadata
    case Nothing => true
    case Idle => false
  }

  /** One more item of work. */
  function Note(work: Work, topic: Text, plan: Plan): Work {
    match plan
    case Expired => work.(expired := work.expired + [topic])
    case Removed => work.(removed := work.removed + [topic])
    case Subscribed(kind) => work.(metadata := work.metadata + [(topic, Ok(kind))])
    case Refused(error) => work.(metadata := work.metadata + [(topic, Err(error))])
    case _ => work
  }

  lemma NothingCarries()
    ensures Carries(Work([], [], []), map[])
  {
  }

  lemma NoteCarries(work: Work, plans: map<Text, Plan>, topic: Text, plan: Plan)
    requires Carries(work, plans) && topic !in plans && !plan.Idle?
    ensures Carries(Note(work, topic, plan), plans[topic := plan])
  {
    var work', plans' := Note(work, topic, plan), plans[topic := plan];
    forall i | 0 <= i < |work'.metadata|
      ensures PlanOf(plans', work'.metadata[i].0) == Announced(work'.metadata[i].1)
    {
      assert i < |work.metadata| ==> work'.metadata[i] == work.metadata[i];
    }
    forall other | other in plans' ensures Lists(work', other, plans'[other]) {
      assert other != topic ==> Lists(work, other, plans[other]);
    }
  }

  /** A row that a subscription attempt was made for. */
  function Updated(sub: Option<Sub>, plan: Plan): Option<Sub> {
    match plan
    case Subscribed(kind) => Subscribing(sub, kind)
    case Refused(error) => Failing(sub, error)
    case _ => sub
  }

  lemma NoWork(work: Work, plans: map<Text, Plan>)
    requires Carries(work, plans) && work.metadata == [] && work.expired == [] && work.removed == []
    ensures forall topic :: PlanOf(plans, topic) == Nothing
  {
    forall topic ensures PlanOf(plans, topic) == Nothing {
      assert topic in plans ==> Lists(work, topic, plans[topic]);
    }
  }

  /** A topic is on the lists that its plan says, and on no others. */
  lemma WorkOf(work: Work, plans: map<Text, Plan>, topic: Text)
    requires Carries(work, plans)
    ensures topic in work.expired <==> PlanOf(plans, topic).Expired?
    ensures topic in work.removed <==> PlanOf(plans, topic).Removed?
    ensures (exists i | 0 <= i < |work.metadata| :: work.metadata[i].0 == topic)
            <==> PlanOf(plans, topic).Subscribed? || PlanOf(plans, topic).Refused?
    ensures !PlanOf(plans, topic).Idle?
  {
    assert topic in plans ==> Lists(work, topic, plans[topic]);
  }

  /** The last entry for a topic. */
  function LastOf<V>(list: seq<(Text, V)>, topic: Text): Option<V> {
    if list == [] then None
    else if list[|list| - 1].0 == topic then Some(list[|list| - 1].1)
    else LastOf(list[..|list| - 1], topic)
  }

  lemma LastOfMore<V>(list: seq<(Text, V)>, topic: Text, value: V)
    ensures forall other ::
              LastOf(list + [(topic, value)], other) == if other == topic then Some(value) else LastOf(list, other)
  {
    assert (list + [(topic, value)])[..|list|] == list;
  }

  lemma NothingStored(t: Topic)
    ensures Stored(t, Taken(None, None)) == t
  {
  }

  function Reporting(sub: Option<Sub>, error: Option<Text>): Option<Sub> {
    if sub.Some? then Some(sub.value.(lastError := error)) else None
  }

  /** The pending message as the parser reads it, under its sequence number. */
  function Parsed(box: Mailbox, depth: nat): Option<Row> {
    if box.pending.Some? && Json.Parse(box.pending.value.1, depth).Some?
    then Some(Row(box.pending.value.0, Json.Parse(box.pending.value.1, depth).value)) else None
  }

  /** What a flush makes of one topic. */
  predicate Flushed(before: Topic, after: Topic, depth: nat, broken: Text) {
    if before.live.None? then after == before
    else
      var live := before.live.value;
      var box := live.mailbox;
      var parsed := Parsed(box, depth);
      && after.live == Some(live.(mailbox := Mailbox(box.sequence, None, None)))
      && (after.sub.Some? <==> before.sub.Some?)
      && after.row == (if before.installed && parsed.Some? then parsed else before.row)
      && (before.sub.Some? ==>
            after.sub == Some(before.sub.value.(lastError :=
              if !before.installed then before.sub.value.lastError
              else if box.error.Some? then box.error
              else if box.pending.None? then before.sub.value.lastError
              else if parsed.Some? then None
              else Some(broken))))
  }

  lemma FlushedTopic(t: Topic, depth: nat, broken: Text)
    ensures Flushed(t, AfterFlush(t, depth, broken), depth, broken)
  {
    hide Json.Parse;
    if t.live.Some? {
      FlushExactly(t, depth, broken);
    }
  }

  class Tables {
    var installed: bool
    var subscriptions: map<Text, Sub>
    var messages: map<Text, Row>

    predicate Valid()
      reads this
    {
      installed || (subscriptions == map[] && messages == map[])
    }

    /** The rows, each once and in no particular order; `idle` is the age of each row's keepalive. */
    method ReadDesired(idle: Text -> real) returns (desired: seq<Desired>)
      requires Valid()
      ensures Reads(this, desired, idle) && Named(desired) == subscriptions.Keys
    {
      desired := [];
      hide Reads, Named;
      ReadsNothing(this, idle);
      var rest := subscriptions.Keys;
      while rest != {}
        invariant rest <= subscriptions.Keys && Named(desired) == subscriptions.Keys - rest
        invariant Reads(this, desired, idle)
        decreases |rest|
      {
        var topic :| topic in rest;
        rest := rest - {topic};
        var row := Desired(topic, subscriptions[topic].requestedType, idle(topic));
        ReadsMore(this, desired, row, idle);
        desired := desired + [row];
      }
    }

    /** What the tables hold for one topic, beside what the worker holds. */
    ghost function With(topic: Text, live: Option<Live>, plan: Plan): Topic
      reads this
    {
      Topic(live, plan, installed, At(subscriptions, topic), At(messages, topic))
    }

    /** Store the outcome of the subscriptions that were tried. */
    method Announce(metadata: seq<(Text, Result<Text>)>, ghost plans: map<Text, Plan>)
      requires forall i | 0 <= i < |metadata| :: PlanOf(plans, metadata[i].0) == Announced(metadata[i].1)
      modifies this`subscriptions
      ensures forall topic ::
                At(subscriptions, topic) == if exists i | 0 <= i < |metadata| :: metadata[i].0 == topic
                                            then Updated(At(old(subscriptions), topic), PlanOf(plans, topic))
                                            else At(old(subscriptions), topic)
    {
      for n := 0 to |metadata|
        invariant forall topic ::
                    At(subscriptions, topic) == if exists i | 0 <= i < n :: metadata[i].0 == topic
                                                then Updated(At(old(subscriptions), topic), PlanOf(plans, topic))
                                                else At(old(subscriptions), topic)
      {
        var topic, outcome := metadata[n].0, metadata[n].1;
        ghost var before := subscriptions;
        if topic in subscriptions {
          match outcome {
            case Ok(kind) =>
              subscriptions := subscriptions[topic := subscriptions[topic].(messageType := Some(kind), lastError := None)];
            case Err(error) =>
              subscriptions := subscriptions[topic := subscriptions[topic].(lastError := Some(error))];
          }
        }
        assert At(subscriptions, topic) == Updated(At(before, topic), PlanOf(plans, topic));
        assert metadata[n].0 == topic;
      }
    }

    /** Each message upserts its row and clears the error of its subscription. */
    method StoreMessages(list: seq<(Text, Row)>)
      modifies this`messages, this`subscriptions
      ensures forall topic :: var row := LastOf(list, topic);
                && At(messages, topic) == (if row.Some? then row else At(old(messages), topic))
                && At(subscriptions, topic) == if row.Some? then Reporting(At(old(subscriptions), topic), None)
                                               else At(old(subscriptions), topic)
    {
      for n := 0 to |list|
        invariant forall topic :: var row := LastOf(list[..n], topic);
                    && At(messages, topic) == (if row.Some? then row else At(old(messages), topic))
                    && At(subscriptions, topic) == if row.Some? then Reporting(At(old(subscriptions), topic), None)
                                                   else At(old(subscriptions), topic)
      {
        var topic, row := list[n].0, list[n].1;
        LastOfMore(list[..n], topic, row);
        assert list[..n + 1] == list[..n] + [(topic, row)];
        messages := messages[topic := row];
        if topic in subscriptions {
          subscriptions := subscriptions[topic := subscriptions[topic].(lastError := None)];
        }
      }
      assert list[..|list|] == list;
    }

    method StoreErrors(list: seq<(Text, Text)>)
      modifies this`subscriptions
      ensures forall topic :: var error := LastOf(list, topic);
                At(subscriptions, topic) == if error.Some? then Reporting(At(old(subscriptions), topic), error)
                                            else At(old(subscriptions), topic)
    {
      for n := 0 to |list|
        invariant forall topic :: var error := LastOf(list[..n], topic);
                    At(subscriptions, topic) == if error.Some? then Reporting(At(old(subscriptions), topic), error)
                                                else At(old(subscriptions), topic)
      {
        var topic, error := list[n].0, list[n].1;
        LastOfMore(list[..n], topic, error);
        assert list[..n + 1] == list[..n] + [(topic, error)];
        if topic in subscriptions {
          subscriptions := subscriptions[topic := subscriptions[topic].(lastError := Some(error))];
        }
      }
      assert list[..|list|] == list;
    }

    /** The transaction of a flush. */
    method Store(messages: seq<(Text, Row)>, errors: seq<(Text, Text)>)
      modifies this`messages, this`subscriptions
      ensures forall topic, live ::
                With(topic, live, Plan.Idle) ==
                Stored(old(With(topic, live, Plan.Idle)), Taken(LastOf(messages, topic), LastOf(errors, topic)))
    {
      if messages == [] && errors == [] {
        return;
      }
      if installed {
        hide LastOf;
        StoreMessages(messages);
        StoreErrors(errors);
      }
    }

    method DeleteMessages(topics: seq<Text>)
      modifies this`messages
      ensures forall topic :: At(messages, topic) == if topic in topics then None else At(old(messages), topic)
    {
      for n := 0 to |topics|
        invariant forall topic :: At(messages, topic) == if topic in topics[..n] then None else At(old(messages), topic)
      {
        messages := messages - {topics[n]};
        assert topics[..n + 1] == topics[..n] + [topics[n]];
      }
      assert topics[..|topics|] == topics;
    }

    method DeleteSubscriptions(topics: seq<Text>)
      modifies this`subscriptions
      ensures forall topic ::
                At(subscriptions, topic) == if topic in topics then None else At(old(subscriptions), topic)
    {
      for n := 0 to |topics|
        invariant forall topic ::
                    At(subscriptions, topic) == if topic in topics[..n] then None else At(old(subscriptions), topic)
      {
        subscriptions := subscriptions - {topics[n]};
        assert topics[..n + 1] == topics[..n] + [topics[n]];
      }
      assert topics[..|topics|] == topics;
    }

    /** The second half of a reconcile: one transaction, unless the extension has gone. */
    method WriteBack(work: Work, ghost plans: map<Text, Plan>)
      requires Carries(work, plans)
      modifies this
      ensures installed == old(installed)
      ensures forall topic, live :: With(topic, live, Plan.Idle) == AfterCommit(old(With(topic, live, PlanOf(plans, topic))))
    {
      if work.metadata == [] && work.expired == [] && work.removed == [] {
        NoWork(work, plans);
        return;
      }
      if !installed {
        return;
      }
      Announce(work.metadata, plans);
      DeleteMessages(work.removed + work.expired);
      DeleteSubscriptions(work.expired);
      forall topic, live
        ensures With(topic, live, Plan.Idle) == AfterCommit(old(With(topic, live, PlanOf(plans, topic))))
      {
        WorkOf(work, plans, topic);
      }
    }
  }

  /** The topics on the list. */
  function Named(desired: seq<Desired>): set<Text> {
    if desired == [] then {} else Named(desired[..|desired| - 1]) + {desired[|desired| - 1].topic}
  }

  /** The list holds rows of the table, none of them twice. */
  ghost predicate Reads(tables: Tables, desired: seq<Desired>, idle: Text -> real)
    reads tables
  {
    desired == [] ||
    var last := desired[|desired| - 1];
    && Reads(tables, desired[..|desired| - 1], idle)
    && last.topic !in Named(desired[..|desired| - 1])
    && last.topic in tables.subscriptions && last.idle == idle(last.topic)
    && last.requestedType == tables.subscriptions[last.topic].requestedType
  }

  lemma ReadsNothing(tables: Tables, idle: Text -> real)
    ensures Reads(tables, [], idle) && Named([]) == {}
  {
  }

  lemma ReadsMore(tables: Tables, desired: seq<Desired>, row: Desired, idle: Text -> real)
    requires Reads(tables, desired, idle) && row.topic !in Named(desired) && row.topic in tables.subscriptions
    requires row == Desired(row.topic, tables.subscriptions[row.topic].requestedType, idle(row.topic))
    ensures Reads(tables, desired + [row], idle) && Named(desired + [row]) == Named(desired) + {row.topic}
  {
    assert (desired + [row])[..|desired|] == desired;
  }

  lemma {:induction false} ReadsAt(tables: Tables, desired: seq<Desired>, idle: Text -> real, i: nat)
    requires Reads(tables, desired, idle) && i < |desired|
    ensures desired[i].topic !in Named(desired[..i])
    ensures Named(desired[..i + 1]) == Named(desired[..i]) + {desired[i].topic}
    ensures desired[i].topic in tables.subscriptions && desired[i].idle == idle(desired[i].topic)
    ensures desired[i].requestedType == tables.subscriptions[desired[i].topic].requestedType
  {
    var front := desired[..|desired| - 1];
    if i < |front| {
      ReadsAt(tables, front, idle, i);
      assert front[..i] == desired[..i] && front[..i + 1] == desired[..i + 1];
    } else {
      assert desired[..i + 1] == desired;
    }
  }

  class Registry {
    var topics: map<Text, Live>

    /** One topic, in memory and in the tables, with what a reconcile is about to write for it. */
    ghost function View(tables: Tables, topic: Text, plan: Plan): Topic
      reads this, tables
    {
      tables.With(topic, At(topics, topic), plan)
    }

    /** A new session drops every live subscription; their rows and cached messages stay. */
    method Clear(tables: Tables)
      modifies this
      ensures topics == map[]
      ensures forall topic, plan :: View(tables, topic, Plan.Idle) == After(old(View(tables, topic, plan)), Restart, 0)
    {
      topics := map[];
    }

    /** The callback of one subscription. */
    method Callback(tables: Tables, topic: Text, m: Message)
      requires topic in topics && TypedSlots(topics[topic].fields, m.slots)
      modifies this
      ensures topics == old(topics)[topic := Received(old(topics)[topic], m)]
      ensures forall other :: View(tables, other, Plan.Idle) ==
                if other == topic then old(View(tables, topic, Plan.Idle)).(live := Some(Received(old(topics)[topic], m)))
                else old(View(tables, other, Plan.Idle))
    {
      var live := Receive(topics[topic], m);
      topics := topics[topic := live];
    }

    /** One row of the table: drop an expired subscription, keep a live one, or try to subscribe. */
    method FollowOne(tables: Tables, entry: Desired, ttl: real, ros: Ros, limit: nat, work: Work)
      returns (work': Work, keep: bool, ghost plan: Plan)
      requires entry.topic in tables.subscriptions
      requires entry.requestedType == tables.subscriptions[entry.topic].requestedType
      modifies this
      ensures View(tables, entry.topic, plan) ==
                AfterRead(old(View(tables, entry.topic, Plan.Idle)), ttl, entry.idle,
                          Offer(ros, entry.topic, At(tables.subscriptions, entry.topic), limit))
      ensures forall other | other != entry.topic :: At(topics, other) == At(old(topics), other)
      ensures work' == Note(work, entry.topic, plan)
      ensures !plan.Idle? && !plan.Removed? && (keep <==> !plan.Expired?)
    {
      hide Subscribe;
      if ttl > 0.0 && entry.idle > ttl {
        topics := topics - {entry.topic};
        return work.(expired := work.expired + [entry.topic]), false, Expired;
      }
      if entry.topic in topics {
        return work, true, Nothing;
      }
      var offer := Subscribe(ros, entry.topic, entry.requestedType, limit);
      match offer
      case Ok(live) =>
        topics := topics[entry.topic := live];
        return work.(metadata := work.metadata + [(entry.topic, Ok(live.kind))]), true, Subscribed(live.kind);
      case Err(error) =>
        return work.(metadata := work.metadata + [(entry.topic, Err(error))]), true, Refused(error);
    }

    /** Drop what is live and no longer wanted. */
    method Retain(tables: Tables, wanted: set<Text>, work: Work, ghost plans: map<Text, Plan>)
      returns (work': Work, ghost plans': map<Text, Plan>)
      requires Carries(work, plans)
      requires forall topic | topic in topics && topic in plans :: topic in wanted
      modifies this
      ensures Carries(work', plans')
      ensures forall topic :: At(topics, topic) == if topic in wanted then At(old(topics), topic) else None
      ensures forall topic :: PlanOf(plans', topic) ==
                if topic in old(topics) && topic !in wanted then Removed else PlanOf(plans, topic)
    {
      work', plans' := work, plans;
      hide Carries;
      var rest := topics.Keys;
      while rest != {}
        invariant rest <= old(topics).Keys && Carries(work', plans')
        invariant forall topic :: At(topics, topic) == if topic in rest || topic in wanted then At(old(topics), topic) else None
        invariant forall topic | topic in rest && topic !in wanted :: topic !in plans'
        invariant forall topic :: PlanOf(plans', topic) ==
                    if topic in old(topics) && topic !in rest && topic !in wanted then Removed else PlanOf(plans, topic)
        decreases |rest|
      {
        var topic :| topic in rest;
        rest := rest - {topic};
        if topic !in wanted {
          work', plans' := DropOne(topic, work', plans');
        }
      }
    }

    method DropOne(topic: Text, work: Work, ghost plans: map<Text, Plan>)
      returns (work': Work, ghost plans': map<Text, Plan>)
      requires Carries(work, plans) && topic !in plans
      modifies this
      ensures Carries(work', plans')
      ensures forall other :: At(topics, other) == if other == topic then None else At(old(topics), other)
      ensures forall other :: other in plans' <==> other == topic || other in plans
      ensures forall other :: PlanOf(plans', other) == if other == topic then Removed else PlanOf(plans, other)
    {
      NoteCarries(work, plans, topic, Removed);
      work' := work.(removed := work.removed + [topic]);
      plans' := plans[topic := Removed];
      topics := topics - {topic};
    }

    /** Row after row of the table. */
    method FollowAll(tables: Tables, desired: seq<Desired>, ttl: real, ros: Ros, limit: nat, ghost idle: Text -> real)
      returns (work: Work, wanted: set<Text>, ghost plans: map<Text, Plan>)
      requires Reads(tables, desired, idle)
      modifies this
      ensures Carries(work, plans) && plans.Keys == Named(desired)
      ensures forall topic | topic in plans ::
                View(tables, topic, plans[topic]) ==
                AfterRead(old(View(tables, topic, Plan.Idle)), ttl, idle(topic),
                          Offer(ros, topic, At(tables.subscriptions, topic), limit))
      ensures forall topic | topic !in plans :: At(topics, topic) == At(old(topics), topic)
      ensures forall topic :: topic in wanted <==> topic in plans && !plans[topic].Expired?
    {
      hide AfterRead, Offer, Note, Named, Reads, Carries, At;
      wanted := {};
      work, plans := Work([], [], []), map[];
      NothingCarries();
      ReadsNothing(tables, idle);
      for i := 0 to |desired|
        invariant Carries(work, plans) && plans.Keys == Named(desired[..i])
        invariant forall topic | topic in plans ::
                    View(tables, topic, plans[topic]) ==
                    AfterRead(old(View(tables, topic, Plan.Idle)), ttl, idle(topic),
                              Offer(ros, topic, At(tables.subscriptions, topic), limit))
        invariant forall topic | topic !in plans :: At(topics, topic) == At(old(topics), topic)
        invariant forall topic :: topic in wanted <==> topic in plans && !plans[topic].Expired?
      {
        var entry := desired[i];
        ReadsAt(tables, desired, idle, i);
        var keep: bool;
        ghost var before, plan := work, Nothing;
        work, keep, plan := FollowOne(tables, entry, ttl, ros, limit, work);
        NoteCarries(before, plans, entry.topic, plan);
        plans := plans[entry.topic := plan];
        if keep {
          wanted := wanted + {entry.topic};
        }
      }
      assert desired[..|desired|] == desired;
    }

    /** The first half of a reconcile: follow the table, and note what has to be written back. */
    method Follow(tables: Tables, desired: seq<Desired>, ttl: real, ros: Ros, limit: nat, ghost idle: Text -> real)
      returns (work: Work, ghost plans: map<Text, Plan>)
      requires Reads(tables, desired, idle) && Named(desired) == tables.subscriptions.Keys
      modifies this
      ensures Carries(work, plans)
      ensures forall topic :: View(tables, topic, PlanOf(plans, topic)) ==
                AfterRead(old(View(tables, topic, Plan.Idle)), ttl, idle(topic),
                          Offer(ros, topic, At(tables.subscriptions, topic), limit))
    {
      hide Carries, Offer, Named, Reads;
      var wanted: set<Text>;
      work, wanted, plans := FollowAll(tables, desired, ttl, ros, limit, idle);
      work, plans := Retain(tables, wanted, work, plans);
    }

    /**
     * A whole reconcile that no other session interferes with, topic by topic. A table that cannot be read leaves everything
     * as it is; otherwise each topic goes through both halves.
     */
    method ReconcileTopics(tables: Tables, readable: bool, ttl: real, ros: Ros, limit: nat, idle: Text -> real)
      returns (r: Result<()>)
      requires tables.Valid()
      modifies this, tables
      ensures r.Ok? <==> readable
      ensures !readable ==> forall topic :: View(tables, topic, Plan.Idle) == old(View(tables, topic, Plan.Idle))
      ensures readable ==>
                forall topic ::
                  View(tables, topic, Plan.Idle) ==
                  AfterCommit(AfterRead(old(View(tables, topic, Plan.Idle)), ttl, idle(topic),
                                        Offer(ros, topic, At(old(tables.subscriptions), topic), limit)))
    {
      if !readable {
        return Err("subscriptions cannot be read");
      }
      hide AfterRead, AfterCommit, Offer, Carries;
      var desired := tables.ReadDesired(idle);
      var work;
      ghost var plans;
      work, plans := Follow(tables, desired, ttl, ros, limit, idle);
      label followed:
      tables.WriteBack(work, plans);
      forall topic
        ensures View(tables, topic, Plan.Idle) == AfterCommit(old@followed(View(tables, topic, PlanOf(plans, topic))))
      {
      }
      return Ok(());
    }

    /**
     * The same in the terms of the tables. The registrations that are kept are those that have not expired;
     * exactly the live topics among them keep their subscription; a topic that is not live is subscribed to
     * with the type it asks for, or carries an error; messages are only removed, those of expired
     * registrations and of unregistered topics that were live.
     */
    method Reconcile(tables: Tables, readable: bool, ttl: real, ros: Ros, limit: nat, idle: Text -> real)
      returns (r: Result<()>)
      requires tables.Valid() && ttl >= 0.0
      modifies this, tables
      ensures r.Ok? <==> readable
      ensures !readable ==> topics == old(topics)
                            && tables.subscriptions == old(tables.subscriptions) && tables.messages == old(tables.messages)
      ensures readable ==> forall topic ::
                topic in tables.subscriptions <==> topic in old(tables.subscriptions) && (ttl == 0.0 || idle(topic) <= ttl)
      ensures readable ==> forall topic | topic in topics :: topic in tables.subscriptions
      ensures readable ==> forall topic | topic in tables.subscriptions && topic in old(topics) ::
                topic in topics && topics[topic] == old(topics)[topic]
                && tables.subscriptions[topic] == old(tables.subscriptions)[topic]
      ensures readable ==> forall topic | topic in tables.subscriptions && topic !in old(topics) ::
                topic in topics <==> Makeable(topic, old(tables.subscriptions)[topic].requestedType, ros)
      ensures readable ==> forall topic | topic in topics && topic !in old(topics) ::
                && Made(topics[topic], topic, old(tables.subscriptions)[topic].requestedType, ros, limit)
                && tables.subscriptions[topic] ==
                   Sub(old(tables.subscriptions)[topic].requestedType, Some(topics[topic].kind), None)
      ensures readable ==> forall topic | topic in tables.subscriptions && topic !in topics ::
                && tables.subscriptions[topic].lastError.Some?
                && tables.subscriptions[topic] ==
                   old(tables.subscriptions)[topic].(lastError := tables.subscriptions[topic].lastError)
      ensures readable ==> forall topic ::
                At(tables.messages, topic) ==
                if (topic in old(tables.subscriptions) && ttl != 0.0 && idle(topic) > ttl)
                   || (topic !in old(tables.subscriptions) && topic in old(topics))
                then None else At(old(tables.messages), topic)
    {
      r := ReconcileTopics(tables, readable, ttl, ros, limit, idle);
      if readable {
        forall topic
          ensures Reconciled(
                    Topic(At(old(topics), topic), Plan.Idle, old(tables.installed),
                          At(old(tables.subscriptions), topic), At(old(tables.messages), topic)),
                    Topic(At(topics, topic), Plan.Idle, tables.installed,
                          At(tables.subscriptions, topic), At(tables.messages, topic)),
                    topic, ttl, idle(topic), ros, limit)
        {
          assert View(tables, topic, Plan.Idle) ==
                 AfterCommit(AfterRead(old(View(tables, topic, Plan.Idle)), ttl, idle(topic),
                                       Offer(ros, topic, At(old(tables.subscriptions), topic), limit)));
          ReconciledTopic(old(View(tables, topic, Plan.Idle)), topic, ttl, idle(topic), ros, limit);
        }
        forall topic
          ensures topic in topics ==> topic in tables.subscriptions
          ensures topic in tables.subscriptions <==>
                  topic in old(tables.subscriptions) && (ttl == 0.0 || idle(topic) <= ttl)
          ensures topic in tables.subscriptions && topic in old(topics) ==>
                  topic in topics && topics[topic] == old(topics)[topic]
                  && tables.subscriptions[topic] == old(tables.subscriptions)[topic]
          ensures topic in tables.subscriptions && topic !in old(topics) ==>
                  (topic in topics <==> Makeable(topic, old(tables.subscriptions)[topic].requestedType, ros))
          ensures topic in topics && topic !in old(topics) ==>
                  && Made(topics[topic], topic, old(tables.subscriptions)[topic].requestedType, ros, limit)
                  && tables.subscriptions[topic] ==
                     Sub(old(tables.subscriptions)[topic].requestedType, Some(topics[topic].kind), None)
          ensures topic in tables.subscriptions && topic !in topics ==>
                  && tables.subscriptions[topic].lastError.Some?
                  && tables.subscriptions[topic] ==
                     old(tables.subscriptions)[topic].(lastError := tables.subscriptions[topic].lastError)
          ensures At(tables.messages, topic) ==
                  if (topic in old(tables.subscriptions) && ttl != 0.0 && idle(topic) > ttl)
                     || (topic !in old(tables.subscriptions) && topic in old(topics))
                  then None else At(old(tables.messages), topic)
        {
          hide AfterRead, AfterCommit, Offer, Made, Makeable;
          assert Reconciled(
                    Topic(At(old(topics), topic), Plan.Idle, old(tables.installed),
                          At(old(tables.subscriptions), topic), At(old(tables.messages), topic)),
                    Topic(At(topics, topic), Plan.Idle, tables.installed,
                          At(tables.subscriptions, topic), At(tables.messages, topic)),
                    topic, ttl, idle(topic), ros, limit);
        }
      } else {
        forall topic
          ensures At(topics, topic) == At(old(topics), topic)
          ensures At(tables.subscriptions, topic) == At(old(tables.subscriptions), topic)
          ensures At(tables.messages, topic) == At(old(tables.messages), topic)
        {
          assert View(tables, topic, Plan.Idle) == old(View(tables, topic, Plan.Idle));
        }
        SameMap(topics, old(topics));
        SameMap(tables.subscriptions, old(tables.subscriptions));
        SameMap(tables.messages, old(tables.messages));
      }
    }

    /** Empty one mailbox into the lists of the flush. */
    method TakeOne(topic: Text, depth: nat, broken: Text, messages: seq<(Text, Row)>, errors: seq<(Text, Text)>)
      returns (messages': seq<(Text, Row)>, errors': seq<(Text, Text)>)
      requires topic in topics && LastOf(messages, topic).None? && LastOf(errors, topic).None?
      modifies this
      ensures topics == old(topics)[topic := Emptied(old(topics)[topic])]
      ensures forall other ::
                LastOf(messages', other) == if other == topic then Take(old(topics)[topic].mailbox, depth, broken).row
                                            else LastOf(messages, other)
      ensures forall other ::
                LastOf(errors', other) == if other == topic then Take(old(topics)[topic].mailbox, depth, broken).error
                                          else LastOf(errors, other)
    {
      hide Json.Parse;
      messages', errors' := messages, errors;
      var mailbox := topics[topic].mailbox;
      if mailbox.pending.Some? {
        match Json.Parse(mailbox.pending.value.1, depth) {
          case Some(value) =>
            var row := Row(mailbox.pending.value.0, value);
            LastOfMore(messages', topic, row);
            messages' := messages' + [(topic, row)];
          case None =>
            LastOfMore(errors', topic, broken);
            errors' := errors' + [(topic, broken)];
        }
      }
      if mailbox.error.Some? {
        LastOfMore(errors', topic, mailbox.error.value);
        errors' := errors' + [(topic, mailbox.error.value)];
      }
      topics := topics[topic := Emptied(topics[topic])];
    }

    /** Empty every mailbox, in whatever order. */
    method TakeAll(depth: nat, broken: Text) returns (messages: seq<(Text, Row)>, errors: seq<(Text, Text)>)
      modifies this
      ensures topics.Keys == old(topics).Keys
      ensures forall topic | topic in topics :: topics[topic] == Emptied(old(topics)[topic])
      ensures forall topic ::
                Taken(LastOf(messages, topic), LastOf(errors, topic)) ==
                if topic in topics then Take(old(topics)[topic].mailbox, depth, broken) else Taken(None, None)
    {
      hide Take, Emptied;
      messages, errors := [], [];
      var rest := topics.Keys;
      while rest != {}
        invariant rest <= topics.Keys == old(topics).Keys
        invariant forall topic | topic in topics ::
                    topics[topic] == if topic in rest then old(topics)[topic] else Emptied(old(topics)[topic])
        invariant forall topic ::
                    Taken(LastOf(messages, topic), LastOf(errors, topic)) ==
                    if topic in topics && topic !in rest then Take(old(topics)[topic].mailbox, depth, broken) else Taken(None, None)
        decreases |rest|
      {
        hide LastOf;
        var topic :| topic in rest;
        messages, errors := TakeOne(topic, depth, broken, messages, errors);
        rest := rest - {topic};
      }
    }

    /** Empty every mailbox and store what was in them in one transaction, topic by topic. */
    method FlushTopics(tables: Tables, depth: nat, broken: Text)
      modifies this, tables
      ensures forall topic ::
                View(tables, topic, Plan.Idle) == AfterFlush(old(View(tables, topic, Plan.Idle)), depth, broken)
    {
      hide Take, LastOf, Stored;
      var messages, errors := TakeAll(depth, broken);
      label taken:
      tables.Store(messages, errors);
      forall topic
        ensures View(tables, topic, Plan.Idle) == AfterFlush(old(View(tables, topic, Plan.Idle)), depth, broken)
      {
        assert View(tables, topic, Plan.Idle) ==
               Stored(old@taken(View(tables, topic, Plan.Idle)), Taken(LastOf(messages, topic), LastOf(errors, topic)));
        NothingStored(old(View(tables, topic, Plan.Idle)));
      }
    }

    /**
     * The same in the terms of the tables. Every mailbox is emptied. While the extension is installed, each
     * pending message that parses is in the table afterwards, and each registration has the callback's error,
     * or else the parser's, or else none if its message was stored; nothing else changes.
     */
    method Flush(tables: Tables, depth: nat, broken: Text)
      modifies this, tables
      ensures topics.Keys == old(topics).Keys && tables.subscriptions.Keys == old(tables.subscriptions).Keys
      ensures forall topic | topic in topics ::
                var live := old(topics)[topic]; topics[topic] == live.(mailbox := Mailbox(live.mailbox.sequence, None, None))
      ensures forall topic ::
                At(tables.messages, topic) ==
                if old(tables.installed) && topic in old(topics) && Parsed(old(topics)[topic].mailbox, depth).Some?
                then Parsed(old(topics)[topic].mailbox, depth)
                else At(old(tables.messages), topic)
      ensures forall topic | topic in tables.subscriptions ::
                tables.subscriptions[topic] == old(tables.subscriptions)[topic].(lastError :=
                  if !old(tables.installed) || topic !in old(topics) then old(tables.subscriptions)[topic].lastError
                  else if old(topics)[topic].mailbox.error.Some? then old(topics)[topic].mailbox.error
                  else if old(topics)[topic].mailbox.pending.None? then old(tables.subscriptions)[topic].lastError
                  else if Parsed(old(topics)[topic].mailbox, depth).Some? then None
                  else Some(broken))
    {
      hide AfterFlush, Parsed;
      FlushTopics(tables, depth, broken);
      forall topic
        ensures topic in topics <==> topic in old(topics)
        ensures topic in tables.subscriptions <==> topic in old(tables.subscriptions)
        ensures topic in topics ==>
                var live := old(topics)[topic]; topics[topic] == live.(mailbox := Mailbox(live.mailbox.sequence, None, None))
        ensures At(tables.messages, topic) ==
                if old(tables.installed) && topic in old(topics) && Parsed(old(topics)[topic].mailbox, depth).Some?
                then Parsed(old(topics)[topic].mailbox, depth)
                else At(old(tables.messages), topic)
        ensures topic in tables.subscriptions ==>
                tables.subscriptions[topic] == old(tables.subscriptions)[topic].(lastError :=
                  if !old(tables.installed) || topic !in old(topics) then old(tables.subscriptions)[topic].lastError
                  else if old(topics)[topic].mailbox.error.Some? then old(topics)[topic].mailbox.error
                  else if old(topics)[topic].mailbox.pending.None? then old(tables.subscriptions)[topic].lastError
                  else if Parsed(old(topics)[topic].mailbox, depth).Some? then None
                  else Some(broken))
      {
        assert View(tables, topic, Plan.Idle) == AfterFlush(old(View(tables, topic, Plan.Idle)), depth, broken);
        FlushedTopic(old(View(tables, topic, Plan.Idle)), depth, broken);
      }
    }
  }
}
