/** Snapshots of the ROS graph, and the tables that hold one snapshot of the graph and one of the parameters. */
module GraphSnapshots {
  import opened Basics
  import opened Ordering
  import opened SnapshotCache
  import opened ParameterPoll
  import opened PollRuns

  /** Nodes by name and namespace, topics by name and message type, both sorted. */
  datatype Snapshot = Snapshot(nodes: seq<Pair>, topics: seq<Pair>)

  /** A topic and its message types, as the middleware reports them. */
  type Advertised = (Text, seq<Text>)

  datatype GraphRow = NodeRow(node: Pair) | TopicRow(topic: Pair)

  function Others(nodes: seq<Pair>, self: Pair): seq<Pair> {
    if nodes == [] then []
    else if nodes[0] == self then Others(nodes[1..], self)
    else [nodes[0]] + Others(nodes[1..], self)
  }

  function TypesOf(topic: Advertised): seq<Pair> {
    seq(|topic.1|, i requires 0 <= i < |topic.1| => (topic.0, topic.1[i]))
  }

  function Flatten(topics: seq<Advertised>): seq<Pair> {
    if topics == [] then [] else TypesOf(topics[0]) + Flatten(topics[1..])
  }

  /** The snapshot of one discovery: every node but the observer itself, and every topic with each of its types. */
  function Read(nodes: seq<Pair>, self: Pair, topics: seq<Advertised>): Snapshot {
    Snapshot(Sort(PairLeq, Others(nodes, self)), Sort(PairLeq, Flatten(topics)))
  }

  lemma {:induction false} OthersCount(nodes: seq<Pair>, self: Pair, node: Pair)
    ensures multiset(Others(nodes, self))[node] == if node == self then 0 else multiset(nodes)[node]
  {
    if nodes != [] {
      OthersCount(nodes[1..], self, node);
      assert nodes == [nodes[0]] + nodes[1..];
    }
  }

  lemma {:induction false} FlattenRemove(topics: seq<Advertised>, i: nat)
    requires i < |topics|
    ensures multiset(Flatten(topics)) == multiset(TypesOf(topics[i])) + multiset(Flatten(topics[..i] + topics[i + 1..]))
  {
    if i == 0 {
      assert topics[..0] + topics[1..] == topics[1..];
    } else {
      var rest := topics[..i] + topics[i + 1..];
      FlattenRemove(topics[1..], i - 1);
      assert rest[1..] == topics[1..][..i - 1] + topics[1..][i..];
      assert rest[0] == topics[0];
    }
  }

  /** The order in which topics are listed does not matter. */
  lemma {:induction false} FlattenPermutes(a: seq<Advertised>, b: seq<Advertised>)
    requires multiset(a) == multiset(b)
    ensures multiset(Flatten(a)) == multiset(Flatten(b))
  {
    hide TypesOf;
    assert |multiset(a)| == |a| && |multiset(b)| == |b|;
    if a != [] {
      var i := TakeOut(a, b);
      FlattenPermutes(a[1..], b[..i] + b[i + 1..]);
      FlattenRemove(b, i);
    }
  }

  /**
   * A snapshot is what was discovered and not the order of discovery: two are equal exactly when the same
   * other nodes and the same topic types were reported, each the same number of times.
   */
  lemma SnapshotsEqualExactly(
      nodes: seq<Pair>, nodes': seq<Pair>, self: Pair, topics: seq<Advertised>, topics': seq<Advertised>)
    ensures Read(nodes, self, topics) == Read(nodes', self, topics') <==>
            && (forall node: Pair | node != self :: multiset(nodes)[node] == multiset(nodes')[node])
            && multiset(Flatten(topics)) == multiset(Flatten(topics'))
    ensures multiset(topics) == multiset(topics') ==> multiset(Flatten(topics)) == multiset(Flatten(topics'))
  {
    PairOrder();
    SortedEqualExactly(Others(nodes, self), Others(nodes', self));
    SortedEqualExactly(Flatten(topics), Flatten(topics'));
    forall node: Pair
      ensures multiset(Others(nodes, self))[node] == if node == self then 0 else multiset(nodes)[node]
      ensures multiset(Others(nodes', self))[node] == if node == self then 0 else multiset(nodes')[node]
    {
      OthersCount(nodes, self, node);
      OthersCount(nodes', self, node);
    }
    var a, b := multiset(Others(nodes, self)), multiset(Others(nodes', self));
    assert a == b <==> forall node: Pair :: a[node] == b[node];
    if multiset(topics) == multiset(topics') {
      FlattenPermutes(topics, topics');
    }
  }

  /**
   * What a snapshot holds: every node but the observer as often as it was reported, and under each topic its
   * message types as often as they were.
   */
  lemma ReadExactly(nodes: seq<Pair>, self: Pair, topics: seq<Advertised>, node: Pair, i: nat, kind: Text)
    requires forall j, k | 0 <= j < k < |topics| :: topics[j].0 != topics[k].0
    ensures multiset(Read(nodes, self, topics).nodes)[node] == if node == self then 0 else multiset(nodes)[node]
    ensures i < |topics| ==> multiset(Read(nodes, self, topics).topics)[(topics[i].0, kind)] == multiset(topics[i].1)[kind]
    ensures (forall k | 0 <= k < |topics| :: topics[k].0 != node.0) ==>
              node !in Read(nodes, self, topics).topics
    ensures Sorted(PairLeq, Read(nodes, self, topics).nodes) && Sorted(PairLeq, Read(nodes, self, topics).topics)
  {
    PairOrder();
    SortSorts(PairLeq, Others(nodes, self));
    SortSorts(PairLeq, Flatten(topics));
    OthersCount(nodes, self, node);
    hide Sort, Others, Flatten;
    if i < |topics| {
      FlattenCounts(topics, topics[i].0, kind, i);
    }
    if forall k | 0 <= k < |topics| :: topics[k].0 != node.0 {
      FlattenLacks(topics, node);
      assert node in Read(nodes, self, topics).topics <==> node in multiset(Read(nodes, self, topics).topics);
    }
  }

  lemma {:induction false} TypesCount(name: Text, kinds: seq<Text>, other: Text, kind: Text)
    ensures multiset(TypesOf((name, kinds)))[(other, kind)] == if other == name then multiset(kinds)[kind] else 0
  {
    var pairs := TypesOf((name, kinds));
    if kinds != [] {
      var rest := TypesOf((name, kinds[1..]));
      TypesCount(name, kinds[1..], other, kind);
      assert pairs == [(name, kinds[0])] + rest;
      assert kinds == [kinds[0]] + kinds[1..];
    }
  }

  lemma {:induction false} FlattenLacks(topics: seq<Advertised>, pair: Pair)
    requires forall k | 0 <= k < |topics| :: topics[k].0 != pair.0
    ensures multiset(Flatten(topics))[pair] == 0
  {
    if topics != [] {
      TypesCount(topics[0].0, topics[0].1, pair.0, pair.1);
      assert forall k | 0 <= k < |topics| - 1 :: topics[1..][k] == topics[k + 1];
      FlattenLacks(topics[1..], pair);
    }
  }

  lemma {:induction false} FlattenCounts(topics: seq<Advertised>, name: Text, kind: Text, i: nat)
    requires i < |topics| && topics[i].0 == name
    requires forall j, k | 0 <= j < k < |topics| :: topics[j].0 != topics[k].0
    ensures multiset(Flatten(topics))[(name, kind)] == multiset(topics[i].1)[kind]
  {
    hide TypesOf;
    TypesCount(topics[0].0, topics[0].1, name, kind);
    var rest := topics[1..];
    assert forall k | 0 <= k < |rest| :: rest[k] == topics[k + 1];
    if i == 0 {
      FlattenLacks(rest, (name, kind));
    } else {
      FlattenCounts(rest, name, kind, i - 1);
    }
  }

  lemma SortedEqualExactly(a: seq<Pair>, b: seq<Pair>)
    requires TotalOrder(PairLeq)
    ensures Sort(PairLeq, a) == Sort(PairLeq, b) <==> multiset(a) == multiset(b)
  {
    SortSorts(PairLeq, a);
    SortSorts(PairLeq, b);
    if multiset(a) == multiset(b) {
      SortedUnique(PairLeq, Sort(PairLeq, a), Sort(PairLeq, b));
    }
  }

  // ---------- rows ----------

  function NodeRows(nodes: seq<Pair>): seq<GraphRow> {
    seq(|nodes|, i requires 0 <= i < |nodes| => NodeRow(nodes[i]))
  }

  function TopicRows(topics: seq<Pair>): seq<GraphRow> {
    seq(|topics|, i requires 0 <= i < |topics| => TopicRow(topics[i]))
  }

  /** The rows of both graph tables. */
  function Rows(s: Snapshot): seq<GraphRow> {
    NodeRows(s.nodes) + TopicRows(s.topics)
  }

  lemma RowAt(s: Snapshot, i: nat)
    requires i < |Rows(s)|
    ensures Rows(s)[i] == if i < |s.nodes| then NodeRow(s.nodes[i]) else TopicRow(s.topics[i - |s.nodes|])
  {
  }

  lemma RowsInjective(a: Snapshot, b: Snapshot)
    requires Rows(a) == Rows(b)
    ensures a == b
  {
    var i := if |a.nodes| < |b.nodes| then |a.nodes| else |b.nodes|;
    if i < |Rows(a)| {
      RowAt(a, i);
      RowAt(b, i);
    }
    assert |a.nodes| == |b.nodes|;
    forall i | 0 <= i < |a.nodes| ensures a.nodes[i] == b.nodes[i] {
      RowAt(a, i);
      RowAt(b, i);
    }
    forall i | 0 <= i < |a.topics| ensures a.topics[i] == b.topics[i] {
      RowAt(a, |a.nodes| + i);
      RowAt(b, |a.nodes| + i);
    }
  }

  function HeldRows(s: Option<Snapshot>): Option<seq<GraphRow>> {
    if s.Some? then Some(Rows(s.value)) else None
  }

  function ReadRows(r: Result<Snapshot>): Result<seq<GraphRow>> {
    match r
    case Ok(s) => Ok(Rows(s))
    case Err(error) => Err(error)
  }

  // ---------- the tables ----------

  /** The database as the worker's transactions find it. */
  class Extension {
    var installed: Option<Oid>
    ghost var used: set<Oid>
    var nodes: seq<Pair>
    var topics: seq<Pair>
    var workerError: Option<Text>
    var parameters: seq<Parameter>
    var parameterError: Option<Text>

    ghost function Graph(): Database<GraphRow>
      reads this
    {
      Database(installed, used, multiset(Rows(Snapshot(nodes, topics))), workerError)
    }

    ghost function Parameters(): Database<Parameter>
      reads this
    {
      Database(installed, used, multiset(parameters), parameterError)
    }

    /** One transaction: bring the graph tables up to date and record the check. */
    method PersistSnapshot(read: Result<Snapshot>, previous: Option<Snapshot>, previousExtension: Option<Oid>)
      returns (oid: Option<Oid>)
      modifies this`nodes, this`topics, this`workerError
      ensures oid == installed
      ensures Graph() == Persisted(Cache(HeldRows(previous), previousExtension), old(Graph()), ReadRows(read))
      ensures Parameters() == old(Parameters())
      ensures installed.Some? && read.Ok? && (previous != Some(read.value) || previousExtension != installed) ==>
                nodes == read.value.nodes && topics == read.value.topics
      ensures installed.None? || read.Err? || (previous == Some(read.value) && previousExtension == installed) ==>
                nodes == old(nodes) && topics == old(topics)
      ensures installed.Some? && read.Err? ==> workerError == Some(read.error)
      ensures installed.Some? && read.Ok? ==> workerError == None
    {
      hide Rows;
      if installed.None? {
        return None;
      }
      var changed := read.Ok? && (previous != Some(read.value) || previousExtension != installed);
      if read.Ok? && previous.Some? && Rows(previous.value) == Rows(read.value) {
        RowsInjective(previous.value, read.value);
      }
      if changed {
        nodes, topics := [], [];
        nodes := nodes + read.value.nodes;
        topics := topics + read.value.topics;
        assert nodes == read.value.nodes && topics == read.value.topics;
      }
      workerError := ErrorOf(read);
      return installed;
    }

    /** The primary key refuses a second row for the same node, namespace and name. */
    method InsertParameter(row: Parameter)
      requires forall i | 0 <= i < |parameters| :: KeyOf(parameters[i]) != KeyOf(row)
      modifies this`parameters
      ensures parameters == old(parameters) + [row]
    {
      parameters := parameters + [row];
    }

    /** The same transaction for the parameters; a finished poll's rows never violate the primary key. */
    method PersistParameters(
        read: Result<seq<Parameter>>, previous: Option<seq<Parameter>>, previousExtension: Option<Oid>)
      returns (oid: Option<Oid>)
      requires read.Ok? ==> KeysIncrease(read.value)
      modifies this`parameters, this`parameterError
      ensures oid == installed
      ensures Parameters() == Persisted(Cache(previous, previousExtension), old(Parameters()), read)
      ensures Graph() == old(Graph())
      ensures installed.Some? && read.Ok? && (previous != Some(read.value) || previousExtension != installed) ==>
                parameters == read.value
      ensures installed.None? || read.Err? || (previous == Some(read.value) && previousExtension == installed) ==>
                parameters == old(parameters)
      ensures installed.Some? ==> parameterError == if read.Err? then Some(read.error) else None
    {
      hide Rows;
      if installed.None? {
        return None;
      }
      if read.Ok? && (previous != Some(read.value) || previousExtension != installed) {
        parameters := [];
        for i := 0 to |read.value|
          invariant parameters == read.value[..i]
          invariant parameterError == old(parameterError)
        {
          InsertParameter(read.value[i]);
        }
        assert parameters == read.value;
      }
      parameterError := ErrorOf(read);
      return installed;
    }
  }
}
