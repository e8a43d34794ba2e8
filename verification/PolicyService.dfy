/** `Evaluate`, `evaluateFromDB`, `backgroundRefresh` and `InvalidateOrgCache` as imperative code over
    the live cache. Between any two calls to Redis or the database others may take any steps. */
module PolicyService {
  import opened Wrappers
  import opened PolicyEvaluation
  import opened PolicyCache
  import opened PolicyIndex

  /** What one evaluation meets. */
  datatype Env = Env(
    redisUp: bool, refresh: bool,
    beforeRead: seq<Action>, dbUp: bool,
    beforeStore: seq<Action>, storeUp: bool,
    beforeResult: seq<Action>)

  /** An action of somebody else than call `c` running flight `f`. */
  predicate NotBy(c: int, f: int, a: Action) {
    match a
    case Ask(d, _, g, _, _) => d != c && g != f
    case Read(g, _) => g != f
    case Store(g, _) => g != f
    case Deliver(d) => d != c
    case Leave(d) => d != c
    case DeleteKeys(d) => d != c
    case ReadIndex(d, _) => d != c
    case _ => true
  }

  ghost predicate Leaves(c: int, f: int, others: seq<Action>) {
    forall a :: a in others ==> NotBy(c, f, a)
  }

  /** How far the clock moves. */
  function Elapsed(actions: seq<Action>): nat {
    if actions == [] then
      0
    else
      var last := actions[|actions| - 1];
      Elapsed(actions[..|actions| - 1]) + if last.Tick? then last.elapsed else 0
  }

  /** A joinable flight exists, is for its key and is not over. */
  predicate FlightsOk(s: State) {
    forall req :: req in s.singles ==>
      s.singles[req] in s.flights && s.flights[s.singles[req]].req == req && !s.flights[s.singles[req]].phase.Done?
  }

  ghost predicate Inv(w: World, s: State) {
    FreshInv(w, s) && AnswersPast(s) && FlightsOk(s)
  }

  /** Flights are never dropped and keep their request. */
  ghost predicate FlightsKept(s: State, t: State) {
    forall g :: g in s.flights ==> g in t.flights && t.flights[g].req == s.flights[g].req
  }

  lemma LandedKeepsFlights(s: State, f: int, phase: Phase)
    requires FlightsOk(s) && f in s.flights
    ensures FlightsOk(Landed(s, f, phase)) && FlightsKept(s, Landed(s, f, phase))
  {
  }

  lemma AskKeepsFlights(s: State, c: int, req: Request, f: int, reachable: bool, refresh: bool)
    requires FlightsOk(s) && f !in s.flights
    ensures var t := AskStep(s, c, req, f, reachable, refresh);
      FlightsOk(t) && FlightsKept(s, t)
  {
  }

  lemma ReadKeepsFlights(w: World, s: State, f: int, ok: bool)
    requires FlightsOk(s) && f in s.flights
    ensures FlightsOk(ReadStep(w, s, f, ok)) && FlightsKept(s, ReadStep(w, s, f, ok))
  {
    if !ok { LandedKeepsFlights(s, f, Done(FAIL_CLOSED, None, s.now)); }
  }

  lemma StepKeepsFlights(w: World, s: State, a: Action)
    requires FlightsOk(s)
    ensures FlightsOk(Step(w, s, a)) && FlightsKept(s, Step(w, s, a))
  {
    match a
    case Ask(c, req, f, reachable, refresh) =>
      if f !in s.flights { AskKeepsFlights(s, c, req, f, reachable, refresh); }
    case Read(f, ok) => if f in s.flights { ReadKeepsFlights(w, s, f, ok); }
    case Store(f, _) =>
      if f in s.flights && s.flights[f].phase.Evaluated? {
        LandedKeepsFlights(s, f, Done(s.flights[f].phase.decision, Some(s.flights[f].phase.readAt), s.now));
      }
    case _ => SameFlights(s, Step(w, s, a));
  }

  lemma SameFlights(s: State, t: State)
    requires FlightsOk(s) && t.flights == s.flights && t.singles == s.singles
    ensures FlightsOk(t) && FlightsKept(s, t)
  {
  }

  lemma StepKeepsInv(w: World, s: State, a: Action)
    requires Inv(w, s)
    ensures Inv(w, Step(w, s, a))
  {
    StepKeepsFresh(w, s, a);
    AnswersStayPast(w, s, a);
    StepKeepsFlights(w, s, a);
  }

  /** What call `c` and its flight `f` rely on: the call's flight, the flight's state, the sweep. */
  ghost predicate Left(s: State, t: State, c: int, f: int) {
    && (c in t.waiting <==> c in s.waiting) && (c in s.waiting ==> t.waiting[c] == s.waiting[c])
    && (f in t.flights <==> f in s.flights) && (f in s.flights ==> t.flights[f] == s.flights[f])
    && (c in t.sweeps <==> c in s.sweeps) && (c in s.sweeps ==> t.sweeps[c] == s.sweeps[c])
  }

  lemma StepLeaves(w: World, s: State, a: Action, c: int, f: int)
    requires NotBy(c, f, a)
    ensures Left(s, Step(w, s, a), c, f)
    ensures Step(w, s, a).now == s.now + if a.Tick? then a.elapsed else 0
  {
    match a
    case Store(g, reachable) => StoreLeaves(s, g, reachable, c, f);
    case Read(g, ok) => ReadLeaves(w, s, g, ok, c, f);
    case Ask(d, req, g, reachable, refresh) => AskLeaves(s, d, req, g, reachable, refresh, c, f);
    case _ =>
  }

  lemma AskLeaves(s: State, d: int, req: Request, g: int, reachable: bool, refresh: bool, c: int, f: int)
    requires d != c && g != f
    ensures g !in s.flights ==>
      Left(s, AskStep(s, d, req, g, reachable, refresh), c, f) && AskStep(s, d, req, g, reachable, refresh).now == s.now
  {
  }

  lemma StoreLeaves(s: State, g: int, reachable: bool, c: int, f: int)
    requires g != f
    ensures g in s.flights && s.flights[g].phase.Evaluated? ==>
      Left(s, StoreStep(s, g, reachable), c, f) && StoreStep(s, g, reachable).now == s.now
  {
  }

  lemma ReadLeaves(w: World, s: State, g: int, ok: bool, c: int, f: int)
    requires g != f
    ensures g in s.flights ==> Left(s, ReadStep(w, s, g, ok), c, f) && ReadStep(w, s, g, ok).now == s.now
  {
  }

  lemma {:induction false} OthersLeave(w: World, s: State, others: seq<Action>, c: int, f: int)
    requires Inv(w, s) && Leaves(c, f, others)
    ensures var t := Run(w, s, others);
      Inv(w, t) && Left(s, t, c, f) && FlightsKept(s, t) && t.now == s.now + Elapsed(others)
  {
    if others != [] {
      var n := |others| - 1;
      var u := Run(w, s, others[..n]);
      OthersLeave(w, s, others[..n], c, f);
      assert NotBy(c, f, others[n]);
      StepLeaves(w, u, others[n], c, f);
      StepKeepsInv(w, u, others[n]);
      StepKeepsFlights(w, u, others[n]);
    }
  }

  /** The last recorded answer is this one, given now, and is right. */
  ghost predicate LastAnswer(w: World, s: State, req: Request, d: Decision) {
    && |s.answers| > 0
    && var a := s.answers[|s.answers| - 1];
       a.req == req && a.decision == d && a.at == s.now && AnswerOk(w, s.past, a)
  }

  class Service {
    const cel: CelEval
    const isUuid: string -> bool
    const delta: nat
    const w := World(Decider(cel, isUuid), delta)
    var now: int
    var db: Db
    var cache: map<Request, Entry>
    var index: map<string, Index>
    var flights: map<int, Flight>
    var singles: map<Request, int>
    var waiting: map<int, int>
    var sweeps: map<int, (string, set<Request>)>
    var past: seq<Snapshot>
    var answers: seq<Answer>

    constructor (cel: CelEval, isUuid: string -> bool, delta: nat, db: Db)
      ensures w == World(Decider(cel, isUuid), delta) && Model() == Init(db) && Inv(w, Model())
    {
      this.cel, this.isUuid, this.delta, this.db := cel, isUuid, delta, db;
      now, cache, index, flights, singles, waiting, sweeps := 0, map[], map[], map[], map[], map[], map[];
      past, answers := [Snapshot(0, db)], [];
      new;
      RunKeepsFresh(w, db, []);
    }

    function Model(): State
      reads this
    {
      State(now, db, cache, index, flights, singles, waiting, sweeps, past, answers)
    }

    method Meanwhile(c: int, f: int, others: seq<Action>)
      requires Inv(w, Model()) && Leaves(c, f, others)
      modifies this
      ensures Model() == Run(w, old(Model()), others) && Inv(w, Model())
      ensures Left(old(Model()), Model(), c, f) && FlightsKept(old(Model()), Model())
      ensures now == old(now) + Elapsed(others)
    {
      OthersLeave(w, Model(), others, c, f);
      var t := Run(w, Model(), others);
      now, db, cache, index, flights := t.now, t.db, t.cache, t.index, t.flights;
      singles, waiting, sweeps, past, answers := t.singles, t.waiting, t.sweeps, t.past, t.answers;
    }

    /** GetMatchingPolicies and evaluate: the flight now knows its decision, or has failed closed. */
    method ReadPolicies(f: int, dbUp: bool)
      requires Inv(w, Model()) && f in flights && flights[f].phase.Started?
      modifies this
      ensures Model() == Step(w, old(Model()), Read(f, dbUp)) && Inv(w, Model())
      ensures f in flights && waiting == old(waiting) && now == old(now)
      ensures if dbUp then flights[f].phase.Evaluated? && flights[f].phase.readAt == now else flights[f].phase.Done?
    {
      StepKeepsInv(w, Model(), Read(f, dbUp));
      var flight := flights[f];
      if dbUp {
        var decision := Evaluate(cel, flight.req, MatchingPolicies(isUuid, db, flight.req, |db.policies|));
        flights := flights[f := flight.(phase := Evaluated(decision, now))];
      } else {
        Land(f, Done(FAIL_CLOSED, None, now));
      }
    }

    /** The singleflight entry ends with its flight. */
    method Land(f: int, phase: Phase)
      requires f in flights
      modifies this`flights, this`singles
      ensures Model() == Landed(old(Model()), f, phase)
    {
      var req := flights[f].req;
      flights := flights[f := flights[f].(phase := phase)];
      if req in singles && singles[req] == f {
        singles := singles - {req};
      }
    }

    /** SET with the full lifetime, SADD to the index and EXPIRE of the index, in one pipeline. */
    method StoreDecision(f: int, storeUp: bool)
      requires Inv(w, Model()) && f in flights && flights[f].phase.Evaluated?
      requires now - flights[f].phase.readAt <= w.delta
      modifies this
      ensures Model() == Step(w, old(Model()), Store(f, storeUp)) && Inv(w, Model())
      ensures f in flights && flights[f].phase.Done? && waiting == old(waiting)
    {
      StepKeepsInv(w, Model(), Store(f, storeUp));
      var flight := flights[f];
      var req := flight.req;
      Land(f, Done(flight.phase.decision, Some(flight.phase.readAt), now));
      if storeUp {
        WriteCache(req, flight.phase.decision);
      }
    }

    method WriteCache(req: Request, decision: Decision)
      modifies this`cache, this`index
      ensures cache == old(cache)[req := Entry(decision, now + CACHE_TTL - STALE_WINDOW, now + CACHE_TTL)]
      ensures index == old(index)[req.org := Index(IndexedKeys(old(Model()), req.org) + {req}, now + INDEX_TTL)]
    {
      cache := cache[req := Entry(decision, now + CACHE_TTL - STALE_WINDOW, now + CACHE_TTL)];
      var keys := if req.org in index && now <= index[req.org].expiry then index[req.org].keys else {};
      index := index[req.org := Index(keys + {req}, now + INDEX_TTL)];
    }

    /** One flight, from its start to its end; a background refresh is exactly this. */
    method EvaluateFromDB(c: int, f: int, env: Env) returns (ghost trace: seq<Action>)
      requires Inv(w, Model()) && f in flights && flights[f].phase.Started?
      requires Leaves(c, f, env.beforeRead) && Leaves(c, f, env.beforeStore)
      requires Elapsed(env.beforeStore) <= w.delta
      modifies this
      ensures Model() == Run(w, old(Model()), trace) && Inv(w, Model())
      ensures f in flights && flights[f].phase.Done? && flights[f].req == old(flights)[f].req
      ensures c in waiting <==> c in old(waiting)
      ensures c in waiting ==> waiting[c] == old(waiting)[c]
    {
      ghost var s0 := Model();
      Meanwhile(c, f, env.beforeRead);
      RunStep(w, s0, env.beforeRead, Read(f, env.dbUp));
      StepKeepsFlights(w, Model(), Read(f, env.dbUp));
      ReadPolicies(f, env.dbUp);
      trace := env.beforeRead + [Read(f, env.dbUp)];
      if env.dbUp {
        RunAppend(w, s0, trace, env.beforeStore);
        Meanwhile(c, f, env.beforeStore);
        trace := trace + env.beforeStore;
        RunStep(w, s0, trace, Store(f, env.storeUp));
        StepKeepsFlights(w, Model(), Store(f, env.storeUp));
        StoreDecision(f, env.storeUp);
        trace := trace + [Store(f, env.storeUp)];
      }
    }

    /** The cache check, and joining or starting a flight on a miss. */
    method Lookup(c: int, req: Request, f: int, env: Env) returns (hit: Option<Decision>, mine: bool)
      requires Inv(w, Model()) && c !in waiting && f !in flights
      modifies this
      ensures Model() == Step(w, old(Model()), Ask(c, req, f, env.redisUp, env.refresh)) && Inv(w, Model())
      ensures match hit
        case Some(d) => c !in waiting && answers == old(answers) + [Answer(req, d, now, FromCache)]
        case None =>
          && c in waiting && waiting[c] in flights && flights[waiting[c]].req == req
          && (mine ==> waiting[c] == f && f in flights && flights[f].phase.Started?)
    {
      StepKeepsInv(w, Model(), Ask(c, req, f, env.redisUp, env.refresh));
      hit, mine := None, false;
      if env.redisUp && req in cache && now <= cache[req].expiry {
        var entry := cache[req];
        answers := answers + [Answer(req, entry.decision, now, FromCache)];
        if now > entry.idealExpiry && env.refresh {
          flights := flights[f := Flight(req, Started)];
        }
        hit := Some(entry.decision);
      } else {
        mine := JoinOrStart(c, req, f);
      }
    }

    /** The singleflight group: join the flight of this key, or start one. */
    method JoinOrStart(c: int, req: Request, f: int) returns (mine: bool)
      requires FlightsOk(Model()) && f !in flights
      modifies this`flights, this`singles, this`waiting
      ensures Model() == AskStep(old(Model()), c, req, f, false, false)
      ensures c in waiting && waiting[c] in flights && flights[waiting[c]].req == req
      ensures mine ==> waiting[c] == f && flights[f].phase.Started?
    {
      mine := req !in singles;
      if mine {
        flights := flights[f := Flight(req, Started)];
        singles := singles[req := f];
        waiting := waiting[c := f];
      } else {
        waiting := waiting[c := singles[req]];
      }
    }

    /** One evaluation: a run of the state machine whose answer, if it is not cancelled, is recorded
        last and is as fresh as the staleness theorem says. */
    method EvaluateRequest(c: int, req: Request, f: int, env: Env)
      returns (d: Option<Decision>, ghost trace: seq<Action>)
      requires Inv(w, Model()) && c !in waiting && f !in flights
      requires Leaves(c, f, env.beforeRead) && Leaves(c, f, env.beforeStore) && Leaves(c, f, env.beforeResult)
      requires Elapsed(env.beforeStore) <= w.delta
      modifies this
      ensures Model() == Run(w, old(Model()), trace) && Inv(w, Model())
      ensures c !in waiting
      ensures d.Some? ==> LastAnswer(w, Model(), req, d.value)
    {
      ghost var s0 := Model();
      RunStep(w, s0, [], Ask(c, req, f, env.redisUp, env.refresh));
      var mine;
      d, mine := Lookup(c, req, f, env);
      trace := [] + [Ask(c, req, f, env.redisUp, env.refresh)];
      if d.Some? {
        return;
      }
      ghost var rest;
      if mine {
        rest := EvaluateFromDB(c, f, env);
        RunAppend(w, s0, trace, rest);
        trace := trace + rest;
      }
      d, rest := Await(c, req, f, env);
      RunAppend(w, s0, trace, rest);
      trace := trace + rest;
    }

    /** Waits for the flight; the caller gives up if it is not over by then. */
    method Await(c: int, req: Request, f: int, env: Env) returns (d: Option<Decision>, ghost trace: seq<Action>)
      requires Inv(w, Model()) && Leaves(c, f, env.beforeResult)
      requires c in waiting && waiting[c] in flights && flights[waiting[c]].req == req
      modifies this
      ensures Model() == Run(w, old(Model()), trace) && Inv(w, Model())
      ensures c !in waiting
      ensures d.Some? ==> LastAnswer(w, Model(), req, d.value)
    {
      ghost var s0 := Model();
      Meanwhile(c, f, env.beforeResult);
      var flight := flights[waiting[c]];
      if flight.phase.Done? {
        RunStep(w, s0, env.beforeResult, Deliver(c));
        StepKeepsInv(w, Model(), Deliver(c));
        trace := env.beforeResult + [Deliver(c)];
        waiting := waiting - {c};
        answers := answers + [Answer(req, flight.phase.decision, now, FromFlight(flight.phase.read, flight.phase.at))];
        d := Some(flight.phase.decision);
      } else {
        RunStep(w, s0, env.beforeResult, Action.Leave(c));
        StepKeepsInv(w, Model(), Action.Leave(c));
        trace := env.beforeResult + [Action.Leave(c)];
        waiting := waiting - {c};
        d := None;
      }
    }

    /** SMEMBERS of the index. */
    method ReadIndexKeys(c: int, org: string) returns (keys: set<Request>)
      requires Inv(w, Model())
      modifies this`sweeps
      ensures Model() == Step(w, old(Model()), ReadIndex(c, org)) && Inv(w, Model())
      ensures keys == IndexedKeys(old(Model()), org) && c in sweeps && sweeps[c] == (org, keys)
    {
      StepKeepsInv(w, Model(), ReadIndex(c, org));
      keys := if org in index && now <= index[org].expiry then index[org].keys else {};
      sweeps := sweeps[c := (org, keys)];
    }

    /** DEL of the keys and of the index in one pipeline, if there were any keys. */
    method DeleteIndexedKeys(c: int, org: string, keys: set<Request>)
      requires Inv(w, Model()) && c in sweeps && sweeps[c] == (org, keys)
      modifies this`cache, this`index, this`sweeps
      ensures Model() == Step(w, old(Model()), DeleteKeys(c)) && Inv(w, Model())
    {
      StepKeepsInv(w, Model(), DeleteKeys(c));
      if keys != {} {
        cache := cache - keys;
        index := index - {org};
      }
      sweeps := sweeps - {c};
    }

    /** Reads the index, then deletes what it read, while others go on in between. If the index was
        complete when it was read, the organisation is cleared exactly when no decision of it that was
        stored in between is still live under a key the read did not see. */
    method InvalidateOrgCache(c: int, org: string, between: seq<Action>) returns (ghost trace: seq<Action>)
      requires Inv(w, Model()) && Leaves(c, c, between)
      modifies this
      ensures Model() == Run(w, old(Model()), trace) && Inv(w, Model())
      ensures trace == [ReadIndex(c, org)] + between + [DeleteKeys(c)]
      ensures old(Covered(Model(), org)) ==>
        (NoLiveDecision(Model(), org) <==> NothingMissed(w, old(Model()), c, org, between))
      ensures old(Covered(Model(), org)) && StoresNothingOf(w, old(Model()), c, org, between) ==>
        NoLiveDecision(Model(), org)
      ensures IndexedKeys(old(Model()), org) != {} ==> (NoLiveDecision(Model(), org) <==> Covered(Model(), org))
    {
      ghost var s0 := Model();
      RunStep(w, s0, [], ReadIndex(c, org));
      var keys := ReadIndexKeys(c, org);
      trace := [] + [ReadIndex(c, org)];
      RunAppend(w, s0, trace, between);
      Meanwhile(c, c, between);
      trace := trace + between;
      RunStep(w, s0, trace, DeleteKeys(c));
      DeletionLeaves(w, Model(), c, org, keys);
      if Covered(s0, org) { SweepClearsIff(w, s0, c, org, between); }
      DeleteIndexedKeys(c, org, keys);
      trace := trace + [DeleteKeys(c)];
    }
  }
}
