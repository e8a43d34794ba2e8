/** The decision cache of the policy service: flights read the database and store their decision for
    a minute, readers take what is live, background refreshes overwrite in any order, and an index
    per organisation serves invalidation. Times are milliseconds. */
module PolicyCache {
  import opened Wrappers
  import opened PolicyEvaluation

  const CACHE_TTL := 60_000
  const STALE_WINDOW := 5_000
  const INDEX_TTL := 24 * 3_600_000

  /** What surrounds the cache: the decision the database gives a request, and the longest time
      `delta` a flight takes from reading the policies to storing the decision. */
  datatype World = World(decide: (Db, Request) -> Decision, delta: nat)

  /** The database since time `since`, until the next snapshot. */
  datatype Snapshot = Snapshot(since: int, db: Db)

  /** A cached decision: `idealExpiry` is the stored ExpiresAt, `expiry` the Redis expiry. */
  datatype Entry = Entry(decision: Decision, idealExpiry: int, expiry: int)

  /** The set of keys under `policy:index:<org>`. */
  datatype Index = Index(keys: set<Request>, expiry: int)

  datatype Phase =
    | Started
    | Evaluated(decision: Decision, readAt: int)
    | Done(decision: Decision, read: Option<int>, at: int)

  /** One execution of evaluateFromDB. */
  datatype Flight = Flight(req: Request, phase: Phase)

  /** Where an answer came from: a live entry, or a flight; a failed flight read nothing. */
  datatype Source = FromCache | FromFlight(readAt: Option<int>, doneAt: int)

  datatype Answer = Answer(req: Request, decision: Decision, at: int, source: Source)

  /** `past` and `answers` are history. `singles` are the flights later callers may join, `waiting`
      the calls that did; a sweep is an invalidation that has read the index and not yet deleted. */
  datatype State = State(
    now: int,
    db: Db,
    cache: map<Request, Entry>,
    index: map<string, Index>,
    flights: map<int, Flight>,
    singles: map<Request, int>,
    waiting: map<int, int>,
    sweeps: map<int, (string, set<Request>)>,
    past: seq<Snapshot>,
    answers: seq<Answer>)

  datatype Action =
    | Tick(elapsed: nat)
    | ChangeDb(db: Db)
    | Ask(c: int, req: Request, flight: int, reachable: bool, refresh: bool)
    | Read(flight: int, ok: bool)
    | Store(flight: int, reachable: bool)
    | Deliver(c: int)
    | Leave(c: int)
    | Invalidate(org: string)
    | ReadIndex(sweep: int, org: string)
    | DeleteKeys(sweep: int)

  const FAIL_CLOSED := Decision(Deny, [], 0)

  function Init(db: Db): State {
    State(0, db, map[], map[], map[], map[], map[], map[], [Snapshot(0, db)], [])
  }

  predicate Live(s: State, req: Request) {
    req in s.cache && s.now <= s.cache[req].expiry
  }

  function IndexedKeys(s: State, org: string): set<Request> {
    if org in s.index && s.now <= s.index[org].expiry then s.index[org].keys else {}
  }

  function AskStep(s: State, c: int, req: Request, flight: int, reachable: bool, refresh: bool): State
    requires flight !in s.flights
  {
    var started := s.flights[flight := Flight(req, Started)];
    if reachable && Live(s, req) then
      var e := s.cache[req];
      s.(answers := s.answers + [Answer(req, e.decision, s.now, FromCache)],
         flights := if s.now > e.idealExpiry && refresh then started else s.flights)
    else if req in s.singles then
      s.(waiting := s.waiting[c := s.singles[req]])
    else
      s.(flights := started, singles := s.singles[req := flight], waiting := s.waiting[c := flight])
  }

  function ReadStep(w: World, s: State, flight: int, ok: bool): State
    requires flight in s.flights
  {
    var f := s.flights[flight];
    if ok then
      var decision := w.decide(s.db, f.req);
      s.(flights := s.flights[flight := f.(phase := Evaluated(decision, s.now))])
    else
      Landed(s, flight, Done(FAIL_CLOSED, None, s.now))
  }

  /** The flight is over: its waiters have their result and nobody can join any more. */
  function Landed(s: State, flight: int, phase: Phase): State
    requires flight in s.flights
  {
    var f := s.flights[flight];
    s.(flights := s.flights[flight := f.(phase := phase)],
       singles := if f.req in s.singles && s.singles[f.req] == flight then s.singles - {f.req} else s.singles)
  }

  /** The pipeline SET, SADD, EXPIRE as one step, if Redis is reachable. */
  function StoreStep(s: State, flight: int, reachable: bool): State
    requires flight in s.flights && s.flights[flight].phase.Evaluated?
  {
    var f := s.flights[flight];
    var landed := Landed(s, flight, Done(f.phase.decision, Some(f.phase.readAt), s.now));
    if reachable then
      var e := Entry(f.phase.decision, s.now + CACHE_TTL - STALE_WINDOW, s.now + CACHE_TTL);
      landed.(cache := s.cache[f.req := e],
              index := s.index[f.req.org := Index(IndexedKeys(s, f.req.org) + {f.req}, s.now + INDEX_TTL)])
    else
      landed
  }

  function DeleteStep(s: State, org: string, keys: set<Request>): State {
    if keys == {} then s else s.(cache := s.cache - keys, index := s.index - {org})
  }

  /** One atomic step; an action that is not enabled changes nothing. Flight ids are fresh. */
  function Step(w: World, s: State, a: Action): State {
    match a
    case Tick(elapsed) => s.(now := s.now + elapsed)
    case ChangeDb(db) => s.(db := db, past := s.past + [Snapshot(s.now, db)])
    case Ask(c, req, flight, reachable, refresh) =>
      if c !in s.waiting && flight !in s.flights then AskStep(s, c, req, flight, reachable, refresh) else s
    case Read(flight, ok) =>
      if flight in s.flights && s.flights[flight].phase.Started? then ReadStep(w, s, flight, ok) else s
    case Store(flight, reachable) =>
      if flight in s.flights && s.flights[flight].phase.Evaluated? && s.now - s.flights[flight].phase.readAt <= w.delta
      then StoreStep(s, flight, reachable) else s
    case Deliver(c) =>
      if c in s.waiting && s.waiting[c] in s.flights && s.flights[s.waiting[c]].phase.Done? then
        var f := s.flights[s.waiting[c]];
        s.(waiting := s.waiting - {c},
           answers := s.answers + [Answer(f.req, f.phase.decision, s.now, FromFlight(f.phase.read, f.phase.at))])
      else s
    case Leave(c) => s.(waiting := s.waiting - {c})
    case Invalidate(org) => DeleteStep(s, org, IndexedKeys(s, org))
    case ReadIndex(sweep, org) => s.(sweeps := s.sweeps[sweep := (org, IndexedKeys(s, org))])
    case DeleteKeys(sweep) =>
      if sweep in s.sweeps then
        DeleteStep(s, s.sweeps[sweep].0, s.sweeps[sweep].1).(sweeps := s.sweeps - {sweep})
      else s
  }

  function Run(w: World, s: State, actions: seq<Action>): State {
    if actions == [] then
      s
    else
      Step(w, Run(w, s, actions[..|actions| - 1]), actions[|actions| - 1])
  }

  // ---------------------------------------------------------------- staleness

  /** The database was `past[i].db` at time `at`. */
  predicate HeldAt(past: seq<Snapshot>, i: int, at: int) {
    0 <= i < |past| && past[i].since <= at && (i + 1 < |past| ==> at <= past[i + 1].since)
  }

  /** The decision is the one the database gave this request at time `at`. */
  ghost predicate TrueAt(w: World, past: seq<Snapshot>, req: Request, decision: Decision, at: int) {
    exists i :: HeldAt(past, i, at) && decision == w.decide(past[i].db, req)
  }

  /** ... at some time from `from` to `until`. */
  ghost predicate TrueWithin(w: World, past: seq<Snapshot>, req: Request, decision: Decision, from: int, until: int) {
    exists at :: from <= at <= until && TrueAt(w, past, req, decision, at)
  }

  ghost predicate FlightOk(w: World, s: State, f: Flight) {
    match f.phase
    case Started => true
    case Evaluated(decision, readAt) => readAt <= s.now && TrueAt(w, s.past, f.req, decision, readAt)
    case Done(decision, readAt, at) =>
      at <= s.now && DoneOk(w, s.past, f.req, decision, readAt, at)
  }

  /** A flight that read fails closed, or reports what was true at most `delta` before it finished. */
  ghost predicate DoneOk(w: World, past: seq<Snapshot>, req: Request, decision: Decision,
      readAt: Option<int>, at: int)
  {
    match readAt
    case None => decision == FAIL_CLOSED
    case Some(r) => at - w.delta <= r <= at && TrueAt(w, past, req, decision, r)
  }

  /** What every answer may rely on. */
  ghost predicate AnswerOk(w: World, past: seq<Snapshot>, a: Answer) {
    match a.source
    case FromCache => TrueWithin(w, past, a.req, a.decision, a.at - CACHE_TTL - w.delta, a.at)
    case FromFlight(readAt, doneAt) => doneAt <= a.at && DoneOk(w, past, a.req, a.decision, readAt, doneAt)
  }

  ghost predicate EntryOk(w: World, s: State, req: Request) {
    req in s.cache ==>
      var e := s.cache[req];
      e.expiry - CACHE_TTL <= s.now
      && TrueWithin(w, s.past, req, e.decision, e.expiry - CACHE_TTL - w.delta, e.expiry - CACHE_TTL)
  }

  ghost predicate PastOk(s: State) {
    && |s.past| > 0
    && s.past[|s.past| - 1].since <= s.now
    && s.past[|s.past| - 1].db == s.db
  }

  ghost predicate FreshInv(w: World, s: State) {
    && PastOk(s)
    && (forall req :: EntryOk(w, s, req))
    && (forall f :: f in s.flights ==> FlightOk(w, s, s.flights[f]))
    && (forall i :: 0 <= i < |s.answers| ==> AnswerOk(w, s.past, s.answers[i]))
  }

  /** Recording a later snapshot does not change what was true before. */
  lemma TrueAtStays(w: World, past: seq<Snapshot>, next: Snapshot, req: Request, decision: Decision, at: int)
    requires TrueAt(w, past, req, decision, at) && at <= next.since
    ensures TrueAt(w, past + [next], req, decision, at)
  {
    var i :| HeldAt(past, i, at) && decision == w.decide(past[i].db, req);
    assert HeldAt(past + [next], i, at) && (past + [next])[i] == past[i];
  }

  lemma TrueWithinStays(w: World, past: seq<Snapshot>, next: Snapshot, req: Request, d: Decision, from: int, until: int)
    requires TrueWithin(w, past, req, d, from, until) && until <= next.since
    ensures TrueWithin(w, past + [next], req, d, from, until)
  {
    var at :| from <= at <= until && TrueAt(w, past, req, d, at);
    TrueAtStays(w, past, next, req, d, at);
  }

  lemma ReadIsTrue(w: World, s: State, req: Request)
    requires PastOk(s)
    ensures TrueAt(w, s.past, req, w.decide(s.db, req), s.now)
  {
    assert HeldAt(s.past, |s.past| - 1, s.now);
  }

  lemma DoneOkStays(w: World, past: seq<Snapshot>, next: Snapshot, req: Request, d: Decision,
      readAt: Option<int>, at: int)
    requires DoneOk(w, past, req, d, readAt, at) && at <= next.since
    ensures DoneOk(w, past + [next], req, d, readAt, at)
  {
    if readAt.Some? { TrueAtStays(w, past, next, req, d, readAt.value); }
  }

  lemma ChangeDbKeepsFresh(w: World, s: State, db: Db)
    requires FreshInv(w, s) && forall i :: 0 <= i < |s.answers| ==> s.answers[i].at <= s.now
    ensures FreshInv(w, Step(w, s, ChangeDb(db)))
  {
    var t, next := Step(w, s, ChangeDb(db)), Snapshot(s.now, db);
    forall req
      ensures EntryOk(w, t, req)
    {
      assert EntryOk(w, s, req);
      if req in s.cache {
        var e := s.cache[req];
        TrueWithinStays(w, s.past, next, req, e.decision, e.expiry - CACHE_TTL - w.delta, e.expiry - CACHE_TTL);
      }
    }
    forall f | f in t.flights
      ensures FlightOk(w, t, t.flights[f])
    {
      var flight := s.flights[f];
      assert FlightOk(w, s, flight);
      match flight.phase
      case Started =>
      case Evaluated(d, readAt) => TrueAtStays(w, s.past, next, flight.req, d, readAt);
      case Done(d, readAt, at) => DoneOkStays(w, s.past, next, flight.req, d, readAt, at);
    }
    forall i | 0 <= i < |t.answers|
      ensures AnswerOk(w, t.past, t.answers[i])
    {
      var a := s.answers[i];
      assert AnswerOk(w, s.past, a);
      match a.source
      case FromCache => TrueWithinStays(w, s.past, next, a.req, a.decision, a.at - CACHE_TTL - w.delta, a.at);
      case FromFlight(readAt, doneAt) => DoneOkStays(w, s.past, next, a.req, a.decision, readAt, doneAt);
    }
  }

  lemma ReadKeepsFresh(w: World, s: State, flight: int, ok: bool)
    requires FreshInv(w, s) && flight in s.flights
    ensures FreshInv(w, ReadStep(w, s, flight, ok))
  {
    var t := ReadStep(w, s, flight, ok);
    assert forall r :: EntryOk(w, s, r) ==> EntryOk(w, t, r);
    ReadIsTrue(w, s, s.flights[flight].req);
    forall f | f in t.flights
      ensures FlightOk(w, t, t.flights[f])
    {
      if f != flight { assert FlightOk(w, s, s.flights[f]); }
    }
  }

  lemma StoreKeepsFresh(w: World, s: State, flight: int, reachable: bool)
    requires FreshInv(w, s) && flight in s.flights && s.flights[flight].phase.Evaluated?
    requires s.now - s.flights[flight].phase.readAt <= w.delta
    ensures FreshInv(w, StoreStep(s, flight, reachable))
  {
    var t, f := StoreStep(s, flight, reachable), s.flights[flight];
    assert FlightOk(w, s, f);
    forall r
      ensures EntryOk(w, t, r)
    {
      assert EntryOk(w, s, r);
      if r == f.req && reachable {
        assert TrueAt(w, t.past, r, f.phase.decision, f.phase.readAt);
      }
    }
    forall g | g in t.flights
      ensures FlightOk(w, t, t.flights[g])
    {
      if g != flight { assert FlightOk(w, s, s.flights[g]); }
    }
  }

  /** Steps that only drop entries, start flights and give answers that are all right. */
  lemma QuietKeepsFresh(w: World, s: State, t: State)
    requires FreshInv(w, s)
    requires t.now >= s.now && t.db == s.db && t.past == s.past
    requires forall r :: r in t.cache ==> r in s.cache && t.cache[r] == s.cache[r]
    requires forall f :: f in t.flights ==>
      t.flights[f].phase.Started? || (f in s.flights && t.flights[f] == s.flights[f])
    requires s.answers <= t.answers
    requires forall i :: |s.answers| <= i < |t.answers| ==> AnswerOk(w, s.past, t.answers[i])
    ensures FreshInv(w, t)
  {
    forall r
      ensures EntryOk(w, t, r)
    {
      assert EntryOk(w, s, r);
    }
    forall f | f in t.flights
      ensures FlightOk(w, t, t.flights[f])
    {
      assert t.flights[f].phase.Started? || FlightOk(w, s, s.flights[f]);
    }
  }

  lemma AskKeepsFresh(w: World, s: State, c: int, req: Request, flight: int, reachable: bool, refresh: bool)
    requires FreshInv(w, s) && flight !in s.flights
    ensures FreshInv(w, AskStep(s, c, req, flight, reachable, refresh))
  {
    if reachable && Live(s, req) {
      assert EntryOk(w, s, req);
      var e := s.cache[req];
      var at :| e.expiry - CACHE_TTL - w.delta <= at <= e.expiry - CACHE_TTL && TrueAt(w, s.past, req, e.decision, at);
      assert AnswerOk(w, s.past, Answer(req, e.decision, s.now, FromCache));
    }
    QuietKeepsFresh(w, s, AskStep(s, c, req, flight, reachable, refresh));
  }

  lemma DeliverKeepsFresh(w: World, s: State, c: int)
    requires FreshInv(w, s)
    ensures FreshInv(w, Step(w, s, Deliver(c)))
  {
    var t := Step(w, s, Deliver(c));
    if c in s.waiting && s.waiting[c] in s.flights {
      var f := s.waiting[c];
      assert FlightOk(w, s, s.flights[f]);
    }
    QuietKeepsFresh(w, s, t);
  }

  ghost predicate AnswersPast(s: State) {
    forall i :: 0 <= i < |s.answers| ==> s.answers[i].at <= s.now
  }

  lemma StepKeepsFresh(w: World, s: State, a: Action)
    requires FreshInv(w, s) && AnswersPast(s)
    ensures FreshInv(w, Step(w, s, a))
  {
    match a
    case ChangeDb(db) => ChangeDbKeepsFresh(w, s, db);
    case Ask(c, req, flight, reachable, refresh) =>
      if c !in s.waiting && flight !in s.flights { AskKeepsFresh(w, s, c, req, flight, reachable, refresh); }
    case Read(flight, ok) => if flight in s.flights { ReadKeepsFresh(w, s, flight, ok); }
    case Store(flight, reachable) =>
      if flight in s.flights && s.flights[flight].phase.Evaluated?
         && s.now - s.flights[flight].phase.readAt <= w.delta {
        StoreKeepsFresh(w, s, flight, reachable);
      }
    case Deliver(c) => DeliverKeepsFresh(w, s, c);
    case _ => QuietKeepsFresh(w, s, Step(w, s, a));
  }

  lemma AnswersStayPast(w: World, s: State, a: Action)
    requires AnswersPast(s)
    ensures AnswersPast(Step(w, s, a))
  {
  }

  lemma {:induction false} RunKeepsFresh(w: World, db: Db, actions: seq<Action>)
    ensures FreshInv(w, Run(w, Init(db), actions)) && AnswersPast(Run(w, Init(db), actions))
  {
    if actions != [] {
      var n := |actions| - 1;
      RunKeepsFresh(w, db, actions[..n]);
      StepKeepsFresh(w, Run(w, Init(db), actions[..n]), actions[n]);
      AnswersStayPast(w, Run(w, Init(db), actions[..n]), actions[n]);
    }
  }

  /** Bounded staleness. Every answer from the cache is what the database gave this request at some
      moment of the last minute plus delta; every answer of a flight is the uncached fail-closed
      deny, or what the database gave within delta of the flight's end. This holds in every
      interleaving, with refreshes overwriting each other in any order. */
  lemma AnswersAreFresh(w: World, db: Db, actions: seq<Action>, a: Answer)
    requires a in Run(w, Init(db), actions).answers
    ensures var past := Run(w, Init(db), actions).past;
      match a.source
      case FromCache => TrueWithin(w, past, a.req, a.decision, a.at - CACHE_TTL - w.delta, a.at)
      case FromFlight(None, _) => a.decision == FAIL_CLOSED
      case FromFlight(Some(readAt), doneAt) =>
        doneAt - w.delta <= readAt <= doneAt <= a.at && TrueAt(w, past, a.req, a.decision, readAt)
  {
    RunKeepsFresh(w, db, actions);
    var s := Run(w, Init(db), actions);
    var i :| 0 <= i < |s.answers| && s.answers[i] == a;
    assert AnswerOk(w, s.past, a);
  }

  // ---------------------------------------------------------------- runs in parts

  lemma RunStep(w: World, s: State, trace: seq<Action>, a: Action)
    ensures Run(w, s, trace + [a]) == Step(w, Run(w, s, trace), a)
  {
    assert (trace + [a])[..|trace|] == trace;
  }

  lemma {:induction false} RunAppend(w: World, s: State, a: seq<Action>, b: seq<Action>)
    ensures Run(w, s, a + b) == Run(w, Run(w, s, a), b)
  {
    if b == [] {
      assert a + b == a;
    } else {
      var n := |b| - 1;
      assert (a + b)[..|a + b| - 1] == a + b[..n];
      RunAppend(w, s, a, b[..n]);
    }
  }
}
