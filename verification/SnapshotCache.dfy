/**
 * The write-skipping snapshot cache: the worker keeps the last snapshot it wrote and the extension it
 * wrote it for, and leaves the tables alone when neither changed. Compared here, over every run, with a
 * worker that rewrites its tables after every successful read.
 */
module SnapshotCache {
  import opened Basics

  type Oid = nat

  /**
   * The extension's tables. `CREATE EXTENSION` makes them empty under a fresh oid and `DROP EXTENSION`
   * removes them; `used` are the oids that have been given out.
   */
  datatype Database<!R> = Database(installed: Option<Oid>, used: set<Oid>, rows: multiset<R>, error: Option<Text>)

  /** The worker's memory: the snapshot it holds and the extension it last saw. */
  datatype Cache<!R> = Cache(held: Option<seq<R>>, seen: Option<Oid>)

  datatype State<!R> = State(cache: Cache<R>, db: Database<R>)

  /**
   * `Observed` is a graph read and `Polled` the end of a parameter poll, each persisted in one
   * transaction; `Forget` is a graph read that found no extension, as the parameter cache sees it.
   * A crash restarts the worker with an empty cache.
   */
  datatype Event<!R> =
    | Create(oid: Oid)
    | Drop
    | Crash
    | Observed(read: Result<seq<R>>)
    | Polled(read: Result<seq<R>>)
    | Forget

  ghost predicate Possible<R>(s: State<R>, e: Event<R>) {
    e.Create? ==> s.db.installed.None? && e.oid !in s.db.used
  }

  function ErrorOf<T>(r: Result<T>): Option<Text> {
    if r.Err? then Some(r.error) else None
  }

  /** A snapshot is written when it differs from the one held or the extension is another one. */
  predicate Changed<R(==)>(c: Cache<R>, installed: Option<Oid>, snapshot: seq<R>) {
    c.held != Some(snapshot) || c.seen != installed
  }

  /** One persist transaction. */
  function Persisted<R(==)>(c: Cache<R>, db: Database<R>, read: Result<seq<R>>): Database<R> {
    if db.installed.None? then db
    else if read.Ok? && Changed(c, db.installed, read.value) then
      db.(rows := multiset(read.value), error := None)
    else db.(error := ErrorOf(read))
  }

  function Held<R>(c: Cache<R>, read: Result<seq<R>>): Option<seq<R>> {
    if read.Ok? then Some(read.value) else c.held
  }

  function Step<R(==)>(s: State<R>, e: Event<R>): State<R> {
    match e
    case Create(oid) => s.(db := Database(Some(oid), s.db.used + {oid}, multiset{}, None))
    case Drop => s.(db := s.db.(installed := None, rows := multiset{}, error := None))
    case Crash => s.(cache := Cache(None, None))
    case Observed(read) =>
      State(if s.db.installed.None? then Cache(None, None) else Cache(Held(s.cache, read), s.db.installed),
            Persisted(s.cache, s.db, read))
    case Polled(read) => State(Cache(Held(s.cache, read), s.db.installed), Persisted(s.cache, s.db, read))
    case Forget => s.(cache := Cache(None, None))
  }

  /** The same step of a worker that writes every successful read. */
  function StepAlways<R(==)>(db: Database<R>, e: Event<R>): Database<R> {
    match e
    case Create(oid) => Database(Some(oid), db.used + {oid}, multiset{}, None)
    case Drop => db.(installed := None, rows := multiset{}, error := None)
    case Observed(read) => Rewritten(db, read)
    case Polled(read) => Rewritten(db, read)
    case _ => db
  }

  function Rewritten<R(==)>(db: Database<R>, read: Result<seq<R>>): Database<R> {
    if db.installed.None? then db
    else match read
      case Ok(snapshot) => db.(rows := multiset(snapshot), error := None)
      case Err(error) => db.(error := Some(error))
  }

  // ---------- runs ----------

  function Run<R(==)>(s: State<R>, es: seq<Event<R>>): State<R> {
    if es == [] then s else Step(Run(s, es[..|es| - 1]), es[|es| - 1])
  }

  function RunAlways<R(==)>(db: Database<R>, es: seq<Event<R>>): Database<R> {
    if es == [] then db else StepAlways(RunAlways(db, es[..|es| - 1]), es[|es| - 1])
  }

  ghost predicate ValidRun<R>(s: State<R>, es: seq<Event<R>>) {
    es == [] || (ValidRun(s, es[..|es| - 1]) && Possible(Run(s, es[..|es| - 1]), es[|es| - 1]))
  }

  /** A worker that has just started, on any database. */
  ghost predicate Started<R>(s: State<R>) {
    && s.cache == Cache(None, None)
    && (s.db.installed.Some? ==> s.db.installed.value in s.db.used)
    && (s.db.installed.None? ==> s.db.rows == multiset{})
  }

  /** A worker that has just started, before any `CREATE EXTENSION`. */
  function Fresh<R>(): State<R> {
    State(Cache(None, None), Database(None, {}, multiset{}, None))
  }

  /** A failed read that is the first to see this extension, while a snapshot is held. */
  predicate Blinding<R>(s: State<R>, e: Event<R>) {
    && (e.Observed? || e.Polled?) && e.read.Err?
    && s.db.installed.Some? && s.cache.seen != s.db.installed && s.cache.held.Some?
  }

  ghost predicate NeverBlinded<R>(s: State<R>, es: seq<Event<R>>) {
    es == [] || (NeverBlinded(s, es[..|es| - 1]) && !Blinding(Run(s, es[..|es| - 1]), es[|es| - 1]))
  }

  /** The run contains a blinding read, and neither a write nor a forgetting since. */
  ghost predicate Blinded<R>(s: State<R>, es: seq<Event<R>>) {
    es != [] &&
    var before, e := Run(s, es[..|es| - 1]), es[|es| - 1];
    || Blinding(before, e)
    || (Blinded(s, es[..|es| - 1]) && !Forgets(before, e) && !Writes(before, e))
  }

  predicate Forgets<R>(s: State<R>, e: Event<R>) {
    e.Crash? || e.Forget? || (e.Observed? && s.db.installed.None?)
  }

  predicate Writes<R(==)>(s: State<R>, e: Event<R>) {
    && (e.Observed? || e.Polled?) && e.read.Ok?
    && s.db.installed.Some? && Changed(s.cache, s.db.installed, e.read.value)
  }

  /**
   * What holds in every reachable state: the tables of an extension that the holder of a snapshot has not
   * seen yet are empty, and the snapshot held for the one it has seen is in them, unless the run is blinded.
   */
  ghost predicate Inv<R>(s: State<R>, blinded: bool) {
    && (s.db.installed.Some? ==> s.db.installed.value in s.db.used)
    && (s.cache.seen.Some? ==> s.cache.seen.value in s.db.used)
    && (s.db.installed.None? ==> s.db.rows == multiset{})
    && (s.cache.held.Some? && s.cache.seen != s.db.installed ==> s.db.rows == multiset{})
    && (s.cache.held.Some? && s.cache.seen.Some? && s.cache.seen == s.db.installed ==>
          s.db.rows == if blinded then multiset{} else multiset(s.cache.held.value))
  }

  lemma StepKeepsInv<R>(s: State<R>, e: Event<R>, blinded: bool)
    requires Inv(s, blinded) && Possible(s, e)
    ensures Inv(Step(s, e), Blinding(s, e) || (blinded && !Forgets(s, e) && !Writes(s, e)))
  {
  }

  lemma {:induction false} RunKeepsInv<R>(s: State<R>, es: seq<Event<R>>)
    requires Started(s) && ValidRun(s, es)
    ensures Inv(Run(s, es), Blinded(s, es))
  {
    if es != [] {
      var front := es[..|es| - 1];
      RunKeepsInv(s, front);
      StepKeepsInv(Run(s, front), es[|es| - 1], Blinded(s, front));
    }
  }

  lemma {:induction false} NeverBlindedIsNotBlinded<R>(s: State<R>, es: seq<Event<R>>)
    requires NeverBlinded(s, es)
    ensures !Blinded(s, es)
  {
    if es != [] {
      NeverBlindedIsNotBlinded(s, es[..|es| - 1]);
    }
  }

  /**
   * Skipping writes is invisible: over every run in which no failed read is the first to see a recreated
   * extension while an older snapshot is held, the database is at every point the one an always-writing
   * worker leaves.
   */
  lemma {:induction false} SkippingIsInvisible<R>(s: State<R>, es: seq<Event<R>>)
    requires Started(s) && ValidRun(s, es) && NeverBlinded(s, es)
    ensures Run(s, es).db == RunAlways(s.db, es)
  {
    if es != [] {
      var front := es[..|es| - 1];
      SkippingIsInvisible(s, front);
      RunKeepsInv(s, front);
      NeverBlindedIsNotBlinded(s, front);
    }
  }

  /**
   * Exactly when a successful read leaves the tables wrong: the run is blinded, this extension is the one
   * the blinding read saw, and the snapshot is the non-empty one held since before it.
   */
  lemma SkipIsWrongExactlyWhenBlinded<R>(s: State<R>, es: seq<Event<R>>, snapshot: seq<R>, e: Event<R>)
    requires Started(s) && ValidRun(s, es) && Run(s, es).db.installed.Some?
    requires e == Observed(Ok(snapshot)) || e == Polled(Ok(snapshot))
    ensures var before, after := Run(s, es), Step(Run(s, es), e);
      after.db.rows == multiset(snapshot)
      <==> !(Blinded(s, es) && before.cache.seen == before.db.installed
             && before.cache.held == Some(snapshot) && snapshot != [])
  {
    RunKeepsInv(s, es);
    if snapshot != [] {
      assert snapshot[0] in multiset(snapshot);
    }
  }

  /**
   * A run that needs the condition, of graph reads as well as of polls: one failed read hides a recreated
   * extension from the next good one.
   */
  lemma BlindedRun<R>(row: R, first: Oid, second: Oid, why: Text, good: Event<R>, bad: Event<R>)
    requires first != second
    requires || (good == Observed(Ok([row])) && bad == Observed(Err(why)))
             || (good == Polled(Ok([row])) && bad == Polled(Err(why)))
    ensures
      var start := Fresh<R>();
      var es := [Create(first), good, Drop, Create(second), bad, good];
      && ValidRun(start, es)
      && Run(start, es).db.installed == Some(second)
      && Run(start, es).db.rows == multiset{}
      && RunAlways(start.db, es).rows == multiset{row}
  {
    var start := Fresh<R>();
    RunNothing(start);
    hide Run, RunAlways, ValidRun;
    var e1, e3, e4: Event<R> := Create(first), Drop, Create(second);
    assert [] + [e1] == [e1] && [e1] + [good] == [e1, good] && [e1, good] + [e3] == [e1, good, e3];
    assert [e1, good, e3] + [e4] == [e1, good, e3, e4] && [e1, good, e3, e4] + [bad] == [e1, good, e3, e4, bad];
    assert [e1, good, e3, e4, bad] + [good] == [e1, good, e3, e4, bad, good];
    Extend(start, [], e1);
    Extend(start, [e1], good);
    Extend(start, [e1, good], e3);
    Extend(start, [e1, good, e3], e4);
    Extend(start, [e1, good, e3, e4], bad);
    Extend(start, [e1, good, e3, e4, bad], good);
    assert multiset([row]) == multiset{row};
  }

  lemma RunNothing<R>(s: State<R>)
    ensures Run(s, []) == s && RunAlways(s.db, []) == s.db && ValidRun(s, [])
  {
  }

  lemma Extend<R>(s: State<R>, es: seq<Event<R>>, e: Event<R>)
    ensures Run(s, es + [e]) == Step(Run(s, es), e)
    ensures RunAlways(s.db, es + [e]) == StepAlways(RunAlways(s.db, es), e)
    ensures ValidRun(s, es + [e]) <==> ValidRun(s, es) && Possible(Run(s, es), e)
  {
    assert (es + [e])[..|es|] == es;
  }
}
