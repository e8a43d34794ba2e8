/** The index of cached decisions that each organisation has, and the invalidation that uses it: when
    the index lists every live decision, when a sweep clears the organisation, how an index recovers. */
module PolicyIndex {
  import opened Wrappers
  import opened PolicyEvaluation
  import opened PolicyCache

  /** Every live decision is listed in its organisation's index, which outlives it. */
  predicate Indexed(s: State, req: Request) {
    Live(s, req) ==>
      && req.org in s.index
      && req in s.index[req.org].keys
      && s.cache[req].expiry <= s.index[req.org].expiry
  }

  ghost predicate Covered(s: State, org: string) {
    forall req: Request :: req.org == org ==> Indexed(s, req)
  }

  /** Entries of the cache expire within a minute of now. */
  ghost predicate ShortLived(s: State) {
    forall req :: req in s.cache ==> s.cache[req].expiry <= s.now + CACHE_TTL
  }

  ghost predicate AtomicInvalidation(a: Action) {
    !a.ReadIndex? && !a.DeleteKeys?
  }

  /** A sweep deletes keys of the organisation, and the index with them, and leaves a live decision. */
  ghost predicate Misses(w: World, s: State, a: Action, org: string) {
    && a.DeleteKeys? && a.sweep in s.sweeps
    && s.sweeps[a.sweep].0 == org && s.sweeps[a.sweep].1 != {}
    && !NoLiveDecision(Step(w, s, a), org)
  }

  /** An index that lists every live decision goes on doing so, except exactly when a sweep misses. */
  lemma StepKeepsCovered(w: World, s: State, a: Action, org: string)
    requires ShortLived(s) && Covered(s, org)
    ensures ShortLived(Step(w, s, a))
    ensures Covered(Step(w, s, a), org) <==> !Misses(w, s, a, org)
  {
    if a.DeleteKeys? {
      if a.sweep in s.sweeps { DeletionKeepsCovered(w, s, a.sweep, org); }
    } else {
      OtherKeepsCovered(w, s, a, org);
    }
  }

  lemma OtherKeepsCovered(w: World, s: State, a: Action, org: string)
    requires ShortLived(s) && Covered(s, org) && !a.DeleteKeys?
    ensures ShortLived(Step(w, s, a)) && Covered(Step(w, s, a), org)
  {
    match a
    case Store(flight, reachable) =>
      if flight in s.flights && s.flights[flight].phase.Evaluated? { StoreKeepsCovered(s, flight, reachable, org); }
    case Invalidate(other) => SweepKeepsCovered(s, other, org);
    case _ => OnlyTimePasses(s, Step(w, s, a), org);
  }

  lemma DeletionKeepsCovered(w: World, s: State, sweep: int, org: string)
    requires ShortLived(s) && Covered(s, org) && sweep in s.sweeps
    ensures ShortLived(Step(w, s, DeleteKeys(sweep)))
    ensures Covered(Step(w, s, DeleteKeys(sweep)), org) <==> !Misses(w, s, DeleteKeys(sweep), org)
  {
    var (other, keys) := s.sweeps[sweep];
    if other == org {
      DeletionLeaves(w, s, sweep, org, keys);
    } else {
      forall req: Request | req.org == org
        ensures Indexed(Step(w, s, DeleteKeys(sweep)), req)
      {
        assert Indexed(s, req);
      }
    }
  }

  lemma OnlyTimePasses(s: State, t: State, org: string)
    requires ShortLived(s) && Covered(s, org)
    requires t.now >= s.now && t.cache == s.cache && t.index == s.index
    ensures ShortLived(t) && Covered(t, org)
  {
    forall req: Request | req.org == org
      ensures Indexed(t, req)
    {
      assert Indexed(s, req);
    }
  }

  lemma StoreKeepsCovered(s: State, flight: int, reachable: bool, org: string)
    requires ShortLived(s) && Covered(s, org) && flight in s.flights && s.flights[flight].phase.Evaluated?
    ensures ShortLived(StoreStep(s, flight, reachable)) && Covered(StoreStep(s, flight, reachable), org)
  {
    forall req: Request | req.org == org
      ensures Indexed(StoreStep(s, flight, reachable), req)
    {
      assert Indexed(s, req);
    }
  }

  lemma SweepKeepsCovered(s: State, other: string, org: string)
    requires ShortLived(s) && Covered(s, org)
    ensures var t := DeleteStep(s, other, IndexedKeys(s, other)); ShortLived(t) && Covered(t, org)
  {
    forall req: Request | req.org == org
      ensures Indexed(DeleteStep(s, other, IndexedKeys(s, other)), req)
    {
      assert Indexed(s, req);
    }
  }

  /** No sweep of the run misses a decision of the organisation. */
  ghost predicate NeverMisses(w: World, s: State, actions: seq<Action>, org: string) {
    actions == [] ||
    (&& NeverMisses(w, s, actions[..|actions| - 1], org)
     && !Misses(w, Run(w, s, actions[..|actions| - 1]), actions[|actions| - 1], org))
  }

  /** As long as no sweep has missed, every live decision of the organisation is indexed. */
  lemma {:induction false} RunKeepsCovered(w: World, db: Db, actions: seq<Action>, org: string)
    requires NeverMisses(w, Init(db), actions, org)
    ensures ShortLived(Run(w, Init(db), actions)) && Covered(Run(w, Init(db), actions), org)
  {
    if actions != [] {
      var n := |actions| - 1;
      RunKeepsCovered(w, db, actions[..n], org);
      StepKeepsCovered(w, Run(w, Init(db), actions[..n]), actions[n], org);
    }
  }

  lemma {:induction false} AtomicNeverMisses(w: World, s: State, actions: seq<Action>, org: string)
    requires forall a :: a in actions ==> AtomicInvalidation(a)
    ensures NeverMisses(w, s, actions, org)
  {
    if actions != [] {
      AtomicNeverMisses(w, s, actions[..|actions| - 1], org);
      assert AtomicInvalidation(actions[|actions| - 1]);
    }
  }

  ghost predicate NoLiveDecision(s: State, org: string) {
    forall req: Request :: req.org == org ==> !Live(s, req)
  }

  /** With each invalidation one step, every live decision of an organisation is indexed, and
      invalidating leaves none. */
  lemma InvalidationClears(w: World, db: Db, actions: seq<Action>, org: string)
    requires forall a :: a in actions ==> AtomicInvalidation(a)
    ensures var s := Run(w, Init(db), actions);
      Covered(s, org) && NoLiveDecision(Step(w, s, Invalidate(org)), org)
  {
    AtomicNeverMisses(w, Init(db), actions, org);
    RunKeepsCovered(w, db, actions, org);
    var s := Run(w, Init(db), actions);
    forall req: Request | req.org == org
      ensures !Live(Step(w, s, Invalidate(org)), req)
    {
      assert Indexed(s, req);
    }
  }

  /** What a deletion leaves live, and when what it leaves is still indexed. */
  lemma DeletionLeaves(w: World, s: State, sweep: int, org: string, keys: set<Request>)
    requires sweep in s.sweeps && s.sweeps[sweep] == (org, keys)
    ensures var t := Step(w, s, DeleteKeys(sweep));
      && (forall req :: Live(t, req) <==> Live(s, req) && req !in keys)
      && (keys != {} ==> (Covered(t, org) <==> NoLiveDecision(t, org)))
      && (keys == {} ==> (Covered(t, org) <==> Covered(s, org)))
  {
    var t := Step(w, s, DeleteKeys(sweep));
    forall req: Request | keys == {}
      ensures Indexed(t, req) <==> Indexed(s, req)
    {
    }
    if keys != {} && Covered(t, org) {
      forall req: Request | req.org == org
        ensures !Live(t, req)
      {
        assert Indexed(t, req);
      }
    }
    if keys != {} && NoLiveDecision(t, org) {
      forall req: Request | req.org == org
        ensures Indexed(t, req)
      {
      }
    }
  }

  /** The request whose decision this step writes to the cache, if any. */
  function Lands(w: World, s: State, a: Action): set<Request> {
    if a.Store? && a.reachable && a.flight in s.flights && s.flights[a.flight].phase.Evaluated?
       && s.now - s.flights[a.flight].phase.readAt <= w.delta
    then {s.flights[a.flight].req} else {}
  }

  /** The requests whose decisions a run writes to the cache. */
  function Stored(w: World, s: State, actions: seq<Action>): set<Request> {
    if actions == [] then
      {}
    else
      var init := actions[..|actions| - 1];
      Stored(w, s, init) + Lands(w, Run(w, s, init), actions[|actions| - 1])
  }

  lemma StepRevivesNothing(w: World, s: State, a: Action, req: Request)
    requires req !in Lands(w, s, a) && Live(Step(w, s, a), req)
    ensures Live(s, req)
  {
  }

  /** Only storing makes a decision live. */
  lemma {:induction false} RunRevivesNothing(w: World, s: State, actions: seq<Action>, req: Request)
    requires req !in Stored(w, s, actions) && Live(Run(w, s, actions), req)
    ensures Live(s, req)
  {
    if actions != [] {
      var n := |actions| - 1;
      StepRevivesNothing(w, Run(w, s, actions[..n]), actions[n], req);
      RunRevivesNothing(w, s, actions[..n], req);
    }
  }

  /** The state in which a sweep deletes: it read the index in `s`, and others acted since. */
  function AtDeletion(w: World, s: State, sweep: int, org: string, between: seq<Action>): State {
    Run(w, Step(w, s, ReadIndex(sweep, org)), between)
  }

  /** No decision of the organisation that was stored after the index was read, under a key the
      sweep did not see, is live when the sweep deletes. */
  ghost predicate NothingMissed(w: World, s: State, sweep: int, org: string, between: seq<Action>) {
    forall req: Request | req in Stored(w, Step(w, s, ReadIndex(sweep, org)), between) && req.org == org ::
      Live(AtDeletion(w, s, sweep, org, between), req) ==> req in IndexedKeys(s, org)
  }

  ghost predicate StoresNothingOf(w: World, s: State, sweep: int, org: string, between: seq<Action>) {
    forall req: Request :: req in Stored(w, Step(w, s, ReadIndex(sweep, org)), between) ==> req.org != org
  }

  /** The real invalidation reads the index and deletes in two steps, and anything may happen in
      between. If the index covered the organisation when it was read, the sweep clears the
      organisation if and only if what was stored in between is dead again or was in the keys read;
      in particular it does when nothing of the organisation was stored. */
  lemma SweepClearsIff(w: World, s: State, sweep: int, org: string, between: seq<Action>)
    requires Covered(s, org)
    requires var t := AtDeletion(w, s, sweep, org, between);
      sweep in t.sweeps && t.sweeps[sweep] == (org, IndexedKeys(s, org))
    ensures var u := Step(w, AtDeletion(w, s, sweep, org, between), DeleteKeys(sweep));
      && (NoLiveDecision(u, org) <==> NothingMissed(w, s, sweep, org, between))
      && (StoresNothingOf(w, s, sweep, org, between) ==> NoLiveDecision(u, org))
  {
    var read, t := Step(w, s, ReadIndex(sweep, org)), AtDeletion(w, s, sweep, org, between);
    var u := Step(w, t, DeleteKeys(sweep));
    DeletionLeaves(w, t, sweep, org, IndexedKeys(s, org));
    forall req: Request | req.org == org && Live(u, req)
      ensures req in Stored(w, read, between) && req !in IndexedKeys(s, org) && Live(t, req)
    {
      if req !in Stored(w, read, between) {
        RunRevivesNothing(w, read, between, req);
        LiveIsRead(s, org, req);
        assert false;
      }
    }
  }

  lemma LiveIsRead(s: State, org: string, req: Request)
    requires Covered(s, org) && req.org == org && Live(s, req)
    ensures req in IndexedKeys(s, org)
  {
    assert Indexed(s, req);
  }

  /** A miss that is answered from the database and stored, undisturbed. */
  function Miss(c: int, req: Request): seq<Action> {
    [Ask(c, req, c, true, false), Read(c, true), Store(c, true)]
  }

  ghost predicate Missed(s: State, t: State, c: int, req: Request) {
    MissedFlight(s, t, c) && MissedCache(s, t, req)
  }

  ghost predicate MissedFlight(s: State, t: State, c: int) {
    && t.now == s.now && t.sweeps == s.sweeps && t.singles == s.singles
    && t.waiting.Keys == s.waiting.Keys + {c} && t.flights.Keys == s.flights.Keys + {c}
  }

  ghost predicate MissedCache(s: State, t: State, req: Request) {
    && t.cache.Keys == s.cache.Keys + {req} && t.cache[req].expiry == s.now + CACHE_TTL
    && t.index == s.index[req.org := Index(IndexedKeys(s, req.org) + {req}, s.now + INDEX_TTL)]
  }

  lemma MissStores(w: World, s: State, c: int, req: Request)
    requires c !in s.waiting && c !in s.flights && req !in s.cache && req !in s.singles
    ensures Missed(s, Run(w, s, Miss(c, req)), c, req)
  {
    var a, b, d := Ask(c, req, c, true, false), Read(c, true), Store(c, true);
    RunThree(w, s, a, b, d);
    AskMisses(w, s, c, req);
    ReadReads(w, Step(w, s, a), c, req);
    FlightLands(s, Step(w, s, a), Step(w, Step(w, s, a), b), c, req);
    DecisionLands(s, Step(w, Step(w, s, a), b), c, req);
    StoreStores(w, Step(w, Step(w, s, a), b), c);
  }

  lemma RunThree(w: World, s: State, a: Action, b: Action, d: Action)
    ensures Run(w, s, [a, b, d]) == Step(w, Step(w, Step(w, s, a), b), d)
  {
    RunTwo(w, s, a, b);
    RunStep(w, s, [a, b], d);
    assert [a, b] + [d] == [a, b, d];
  }

  lemma RunTwo(w: World, s: State, a: Action, b: Action)
    ensures Run(w, s, [a, b]) == Step(w, Step(w, s, a), b)
  {
    RunStep(w, s, [], a);
    assert [] + [a] == [a];
    RunStep(w, s, [a], b);
    assert [a] + [b] == [a, b];
  }

  lemma AskMisses(w: World, s: State, c: int, req: Request)
    requires c !in s.waiting && c !in s.flights && req !in s.cache && req !in s.singles
    ensures Step(w, s, Ask(c, req, c, true, false)) ==
      s.(flights := s.flights[c := Flight(req, Started)], singles := s.singles[req := c], waiting := s.waiting[c := c])
  {
  }

  lemma ReadReads(w: World, s: State, c: int, req: Request)
    requires c in s.flights && s.flights[c] == Flight(req, Started)
    ensures var t := Step(w, s, Read(c, true));
      && t == s.(flights := t.flights) && t.flights.Keys == s.flights.Keys
      && t.flights[c].req == req && t.flights[c].phase.Evaluated? && t.flights[c].phase.readAt == s.now
  {
  }

  lemma StoreStores(w: World, t: State, c: int)
    requires c in t.flights && t.flights[c].phase.Evaluated? && t.flights[c].phase.readAt == t.now
    ensures Step(w, t, Store(c, true)) == StoreStep(t, c, true)
  {
  }

  lemma FlightLands(r: State, s: State, t: State, c: int, req: Request)
    requires req !in r.singles
    requires s.now == r.now && s.sweeps == r.sweeps
    requires s.singles == r.singles[req := c] && s.waiting == r.waiting[c := c]
    requires s.flights.Keys == r.flights.Keys + {c}
    requires t == s.(flights := t.flights) && t.flights.Keys == s.flights.Keys
    requires t.flights[c].req == req && t.flights[c].phase.Evaluated?
    ensures MissedFlight(r, StoreStep(t, c, true), c)
  {
    assert s.singles - {req} == r.singles;
  }

  lemma DecisionLands(r: State, t: State, c: int, req: Request)
    requires t.now == r.now && t.cache == r.cache && t.index == r.index
    requires c in t.flights && t.flights[c].req == req && t.flights[c].phase.Evaluated?
    ensures MissedCache(r, StoreStep(t, c, true), req)
  {
  }

  /** A race: a flight stores between the two steps of a sweep. Its decision survives, no longer
      indexed, and a second invalidation does not find it either. */
  lemma SweepCanMiss(w: World, db: Db, first: Request, second: Request)
    requires first.org == second.org && first != second
    ensures var race := Miss(1, first) + [ReadIndex(1, first.org)] + Miss(2, second) + [DeleteKeys(1)];
      var s := Run(w, Init(db), race + [Invalidate(first.org)]);
      Live(s, second) && !Indexed(s, second)
  {
    var s0, read := Init(db), Miss(1, first) + [ReadIndex(1, first.org)];
    MissStores(w, s0, 1, first);
    RunStep(w, s0, Miss(1, first), ReadIndex(1, first.org));
    var s4 := Run(w, s0, read);
    FirstSweepReads(w, s0, Run(w, s0, Miss(1, first)), s4, first);
    MissStores(w, s4, 2, second);
    RunAppend(w, s0, read, Miss(2, second));
    RunStep(w, s0, read + Miss(2, second), DeleteKeys(1));
    RunStep(w, s0, read + Miss(2, second) + [DeleteKeys(1)], Invalidate(first.org));
    SecondSurvives(w, s4, Run(w, s0, read + Miss(2, second)), first, second);
  }

  lemma FirstSweepReads(w: World, s: State, t: State, u: State, first: Request)
    requires s.index == map[] && s.cache == map[] && s.singles == map[] && s.waiting == map[] && s.flights == map[]
    requires Missed(s, t, 1, first) && u == Step(w, t, ReadIndex(1, first.org))
    ensures 1 in u.sweeps && u.sweeps[1] == (first.org, {first})
    ensures u.cache.Keys == {first} && u.singles == map[] && u.waiting.Keys == {1} && u.flights.Keys == {1}
  {
    assert IndexedKeys(t, first.org) == {first};
  }

  lemma SecondSurvives(w: World, s: State, t: State, first: Request, second: Request)
    requires first.org == second.org && first != second
    requires Missed(s, t, 2, second) && 1 in s.sweeps && s.sweeps[1] == (first.org, {first})
    ensures var u := Step(w, Step(w, t, DeleteKeys(1)), Invalidate(first.org)); Live(u, second) && !Indexed(u, second)
  {
  }

  // ---------------------------------------------------------------- an incomplete index recovers

  /** Indexed, or about to expire. */
  predicate IndexedOrOld(s: State, req: Request, limit: int) {
    Indexed(s, req) || (req in s.cache && s.cache[req].expiry <= limit)
  }

  ghost predicate Recovering(s: State, org: string, limit: int) {
    forall req: Request :: req.org == org ==> IndexedOrOld(s, req, limit)
  }

  lemma StepKeepsShortLived(w: World, s: State, a: Action)
    requires ShortLived(s)
    ensures ShortLived(Step(w, s, a)) && s.now <= Step(w, s, a).now
  {
    if a.Store? {
      StoreKeepsShortLived(w, s, a);
    } else {
      CacheShrinks(s, Step(w, s, a));
    }
  }

  lemma StoreKeepsShortLived(w: World, s: State, a: Action)
    requires ShortLived(s) && a.Store?
    ensures ShortLived(Step(w, s, a)) && s.now <= Step(w, s, a).now
  {
  }

  lemma CacheShrinks(s: State, t: State)
    requires ShortLived(s) && s.now <= t.now
    requires forall r :: r in t.cache ==> r in s.cache && t.cache[r] == s.cache[r]
    ensures ShortLived(t)
  {
  }

  lemma StoreKeepsRecovering(s: State, flight: int, reachable: bool, org: string, limit: int)
    requires ShortLived(s) && Recovering(s, org, limit) && flight in s.flights && s.flights[flight].phase.Evaluated?
    ensures Recovering(StoreStep(s, flight, reachable), org, limit)
  {
    forall req: Request | req.org == org
      ensures IndexedOrOld(StoreStep(s, flight, reachable), req, limit)
    {
      assert IndexedOrOld(s, req, limit);
    }
  }

  /** A deletion of another organisation's keys, of none, or of all that is live. */
  lemma DeleteKeepsRecovering(s: State, other: string, keys: set<Request>, org: string, limit: int)
    requires Recovering(s, org, limit)
    requires other == org && keys != {} ==> NoLiveDecision(DeleteStep(s, other, keys), org)
    ensures Recovering(DeleteStep(s, other, keys), org, limit)
  {
    forall req: Request | req.org == org
      ensures IndexedOrOld(DeleteStep(s, other, keys), req, limit)
    {
      assert IndexedOrOld(s, req, limit);
    }
  }

  /** An invalidation in one step deletes all that is indexed; what it leaves was about to expire. */
  lemma InvalidateKeepsRecovering(s: State, other: string, org: string, limit: int)
    requires Recovering(s, org, limit)
    ensures Recovering(DeleteStep(s, other, IndexedKeys(s, other)), org, limit)
  {
    forall req: Request | req.org == org
      ensures IndexedOrOld(DeleteStep(s, other, IndexedKeys(s, other)), req, limit)
    {
      assert IndexedOrOld(s, req, limit);
    }
  }

  lemma TimeKeepsRecovering(s: State, t: State, org: string, limit: int)
    requires Recovering(s, org, limit)
    requires t.now >= s.now && t.cache == s.cache && t.index == s.index
    ensures Recovering(t, org, limit)
  {
    forall req: Request | req.org == org
      ensures IndexedOrOld(t, req, limit)
    {
      assert IndexedOrOld(s, req, limit);
    }
  }

  lemma SweepKeepsRecovering(w: World, s: State, sweep: int, org: string, limit: int)
    requires Recovering(s, org, limit) && sweep in s.sweeps && !Misses(w, s, DeleteKeys(sweep), org)
    ensures Recovering(Step(w, s, DeleteKeys(sweep)), org, limit)
  {
    var (other, keys) := s.sweeps[sweep];
    var t, u := Step(w, s, DeleteKeys(sweep)), DeleteStep(s, other, keys);
    assert forall req :: Live(u, req) <==> Live(t, req);
    DeleteKeepsRecovering(s, other, keys, org, limit);
    TimeKeepsRecovering(u, t, org, limit);
  }

  lemma StepKeepsRecovering(w: World, s: State, a: Action, org: string, limit: int)
    requires ShortLived(s) && Recovering(s, org, limit) && !Misses(w, s, a, org)
    ensures Recovering(Step(w, s, a), org, limit)
  {
    match a
    case Store(flight, reachable) =>
      if flight in s.flights && s.flights[flight].phase.Evaluated? {
        StoreKeepsRecovering(s, flight, reachable, org, limit);
      }
    case Invalidate(other) => InvalidateKeepsRecovering(s, other, org, limit);
    case DeleteKeys(sweep) =>
      if sweep in s.sweeps { SweepKeepsRecovering(w, s, sweep, org, limit); }
    case _ => TimeKeepsRecovering(s, Step(w, s, a), org, limit);
  }

  lemma {:induction false} RunKeepsRecovering(w: World, s: State, actions: seq<Action>, org: string, limit: int)
    requires ShortLived(s) && Recovering(s, org, limit) && NeverMisses(w, s, actions, org)
    ensures ShortLived(Run(w, s, actions)) && Recovering(Run(w, s, actions), org, limit)
  {
    if actions != [] {
      var n := |actions| - 1;
      RunKeepsRecovering(w, s, actions[..n], org, limit);
      StepKeepsShortLived(w, Run(w, s, actions[..n]), actions[n]);
      StepKeepsRecovering(w, Run(w, s, actions[..n]), actions[n], org, limit);
    }
  }

  /** Whatever a sweep missed: once no sweep has missed anything for longer than a decision lives, the
      index of the organisation is complete again. */
  lemma IndexRecovers(w: World, s: State, actions: seq<Action>, org: string)
    requires ShortLived(s) && NeverMisses(w, s, actions, org)
    requires Run(w, s, actions).now > s.now + CACHE_TTL
    ensures Covered(Run(w, s, actions), org)
  {
    var t, limit := Run(w, s, actions), s.now + CACHE_TTL;
    assert Recovering(s, org, limit);
    RunKeepsRecovering(w, s, actions, org, limit);
    forall req: Request | req.org == org
      ensures Indexed(t, req)
    {
      assert IndexedOrOld(t, req, limit);
    }
  }

  lemma {:induction false} ReachableIsShortLived(w: World, db: Db, actions: seq<Action>)
    ensures ShortLived(Run(w, Init(db), actions))
  {
    if actions != [] {
      ReachableIsShortLived(w, db, actions[..|actions| - 1]);
      StepKeepsShortLived(w, Run(w, Init(db), actions[..|actions| - 1]), actions[|actions| - 1]);
    }
  }

  /** Over whole runs: an organisation's index is complete when its last miss, if any, lies longer back
      than a decision lives. */
  lemma QuietIndexIsComplete(w: World, db: Db, before: seq<Action>, after: seq<Action>, org: string)
    requires var s := Run(w, Init(db), before);
      NeverMisses(w, s, after, org) && Run(w, s, after).now > s.now + CACHE_TTL
    ensures Covered(Run(w, Init(db), before + after), org)
  {
    ReachableIsShortLived(w, db, before);
    RunAppend(w, Init(db), before, after);
    IndexRecovers(w, Run(w, Init(db), before), after, org);
  }
}
