/** The brute-force detector for one key: a pruned, expiring sorted set of attempts and an alert
    marker with a lifetime. Any number of consumers interleave on a clock that never runs back.
    Times are milliseconds. */
module BruteForce {
  import opened Wrappers

  const WINDOW := 5 * 60 * 1000

  /** `scores` and `expiry` are the sorted set (members are unique, so only scores matter); `marker`
      is the expiry of the de-duplication key; `counts` what each consumer saw last. `attempts` and
      `alerts` are history. */
  datatype State = State(
    now: int,
    scores: seq<int>,
    expiry: int,
    marker: Option<int>,
    counts: map<int, nat>,
    attempts: seq<int>,
    alerts: seq<int>)

  datatype Action = Tick(elapsed: nat) | Track(c: int) | Fire(c: int)

  const INIT := State(0, [], 0, None, map[], [], [])

  /** What ZREMRANGEBYSCORE -inf..start leaves. */
  function Newer(scores: seq<int>, start: int): seq<int> {
    if scores == [] then
      []
    else
      var rest, last := Newer(scores[..|scores| - 1], start), scores[|scores| - 1];
      if last > start then rest + [last] else rest
  }

  /** The sorted set as Redis sees it: an expired key is gone. */
  function Scores(s: State): seq<int> {
    if s.now > s.expiry then [] else s.scores
  }

  function TrackStep(s: State, c: int): State {
    var scores := Newer(Scores(s) + [s.now], s.now - WINDOW);
    s.(scores := scores, expiry := s.now + WINDOW, counts := s.counts[c := |scores|], attempts := s.attempts + [s.now])
  }

  predicate MarkerLive(s: State) {
    s.marker.Some? && s.now <= s.marker.value
  }

  /** SET NX with a lifetime: the alert fires only if the marker is gone. */
  function FireStep(max: int, s: State, c: int): State {
    if c !in s.counts || s.counts[c] < max then s
    else if MarkerLive(s) then s.(counts := s.counts - {c})
    else s.(counts := s.counts - {c}, marker := Some(s.now + WINDOW), alerts := s.alerts + [s.now])
  }

  function Step(max: int, s: State, a: Action): State {
    match a
    case Tick(elapsed) => s.(now := s.now + elapsed)
    case Track(c) => TrackStep(s, c)
    case Fire(c) => FireStep(max, s, c)
  }

  function Run(max: int, s: State, actions: seq<Action>): State {
    if actions == [] then s else Step(max, Run(max, s, actions[..|actions| - 1]), actions[|actions| - 1])
  }

  // ---------------------------------------------------------------- the window is exact

  lemma NewerAppend(scores: seq<int>, x: int, start: int)
    ensures Newer(scores + [x], start) == Newer(scores, start) + if x > start then [x] else []
  {
    assert (scores + [x])[..|scores|] == scores;
  }

  /** Pruning early and again later is pruning once, later. */
  lemma {:induction false} NewerTwice(scores: seq<int>, early: int, late: int)
    requires early <= late
    ensures Newer(Newer(scores, early), late) == Newer(scores, late)
  {
    if scores != [] {
      var rest := scores[..|scores| - 1];
      NewerTwice(rest, early, late);
      NewerAppend(Newer(rest, early), scores[|scores| - 1], late);
    }
  }

  lemma {:induction false} NewerNone(scores: seq<int>, start: int)
    requires forall i :: 0 <= i < |scores| ==> scores[i] <= start
    ensures Newer(scores, start) == []
  {
    if scores != [] {
      NewerNone(scores[..|scores| - 1], start);
    }
  }

  /** The set holds exactly the attempts of the window that ended with the last one, and lives as
      long as any of them can still count. */
  ghost predicate WindowOk(s: State) {
    && s.expiry - WINDOW <= s.now
    && (forall i :: 0 <= i < |s.attempts| ==> s.attempts[i] <= s.expiry - WINDOW)
    && (s.attempts == [] ==> s.scores == [])
    && (s.attempts != [] ==> s.scores == Newer(s.attempts, s.expiry - WINDOW - WINDOW))
  }

  ghost predicate AlertsOk(s: State) {
    && (s.marker.None? <==> s.alerts == [])
    && (s.marker.Some? ==> s.marker.value == s.alerts[|s.alerts| - 1] + WINDOW && s.alerts[|s.alerts| - 1] <= s.now)
    && (forall i, j :: 0 <= i < j < |s.alerts| ==> s.alerts[j] - s.alerts[i] >= WINDOW)
  }

  ghost predicate Inv(s: State) {
    WindowOk(s) && AlertsOk(s)
  }

  /** What is left of the set after pruning is what pruning the whole history leaves. */
  lemma ScoresAreHistory(s: State)
    requires WindowOk(s)
    ensures Newer(Scores(s), s.now - WINDOW) == Newer(s.attempts, s.now - WINDOW)
  {
    if s.now > s.expiry {
      NewerNone(s.attempts, s.now - WINDOW);
    } else if s.attempts != [] {
      NewerTwice(s.attempts, s.expiry - WINDOW - WINDOW, s.now - WINDOW);
    }
  }

  lemma TrackCounts(s: State)
    requires WindowOk(s)
    ensures Newer(Scores(s) + [s.now], s.now - WINDOW) == Newer(s.attempts + [s.now], s.now - WINDOW)
  {
    ScoresAreHistory(s);
    NewerAppend(Scores(s), s.now, s.now - WINDOW);
    NewerAppend(s.attempts, s.now, s.now - WINDOW);
  }

  lemma TrackSeesHistory(s: State, c: int)
    requires WindowOk(s)
    ensures TrackStep(s, c) ==
      var scores := Newer(s.attempts + [s.now], s.now - WINDOW);
      s.(scores := scores, expiry := s.now + WINDOW,
         counts := s.counts[c := |scores|], attempts := s.attempts + [s.now])
  {
    TrackCounts(s);
  }

  lemma TrackIsCounted(s: State, c: int)
    requires WindowOk(s)
    ensures c in TrackStep(s, c).counts
    ensures TrackStep(s, c).counts[c] == |Newer(s.attempts + [s.now], s.now - WINDOW)|
  {
    TrackCounts(s);
    StepCounts(s, c);
  }

  lemma StepCounts(s: State, c: int)
    ensures c in TrackStep(s, c).counts
    ensures TrackStep(s, c).counts[c] == |Newer(Scores(s) + [s.now], s.now - WINDOW)|
  {
  }

  lemma TrackKeepsWindow(s: State, c: int)
    requires WindowOk(s)
    ensures WindowOk(TrackStep(s, c))
  {
    TrackSeesHistory(s, c);
  }

  lemma TrackKeepsInv(s: State, c: int)
    requires Inv(s)
    ensures Inv(TrackStep(s, c))
  {
    TrackKeepsWindow(s, c);
  }

  lemma StepKeepsInv(max: int, s: State, a: Action)
    requires Inv(s)
    ensures Inv(Step(max, s, a))
  {
    if a.Track? { TrackKeepsInv(s, a.c); }
  }

  lemma {:induction false} RunKeepsInv(max: int, actions: seq<Action>)
    ensures Inv(Run(max, INIT, actions))
  {
    if actions != [] {
      RunKeepsInv(max, actions[..|actions| - 1]);
      StepKeepsInv(max, Run(max, INIT, actions[..|actions| - 1]), actions[|actions| - 1]);
    }
  }

  lemma TrackIsExact(max: int, s: State, c: int)
    requires Inv(s)
    ensures var t := Step(max, s, Track(c));
      t.counts[c] == |Newer(t.attempts, t.now - WINDOW)|
  {
    TrackIsCounted(s, c);
  }

  /** The count a consumer sees is the number of attempts of the whole history newer than five
      minutes ago, in spite of pruning and expiry. */
  lemma CountIsExact(max: int, actions: seq<Action>, s: State, c: int)
    requires s == Run(max, INIT, actions)
    ensures var t := Step(max, s, Track(c));
      t.counts[c] == |Newer(t.attempts, t.now - WINDOW)|
  {
    RunKeepsInv(max, actions);
    TrackIsExact(max, s, c);
  }

  /** Alerts of a key are at least a window apart, and a consumer that has seen the threshold and
      passed the marker knows that an alert fired within the last window. */
  lemma AlertsAreDeduplicated(max: int, actions: seq<Action>, c: int)
    ensures var s := Run(max, INIT, actions);
      var t := Step(max, s, Fire(c));
      && (forall i, j :: 0 <= i < j < |t.alerts| ==> t.alerts[j] - t.alerts[i] >= WINDOW)
      && (c in s.counts && s.counts[c] >= max ==>
            |t.alerts| > 0 && t.now - WINDOW <= t.alerts[|t.alerts| - 1] <= t.now)
  {
    RunKeepsInv(max, actions);
    FireIsDeduplicated(max, Run(max, INIT, actions), c);
  }

  lemma FireIsDeduplicated(max: int, s: State, c: int)
    requires Inv(s)
    ensures var t := Step(max, s, Fire(c));
      && (forall i, j :: 0 <= i < j < |t.alerts| ==> t.alerts[j] - t.alerts[i] >= WINDOW)
      && (c in s.counts && s.counts[c] >= max ==>
            |t.alerts| > 0 && t.now - WINDOW <= t.alerts[|t.alerts| - 1] <= t.now)
  {
    StepKeepsInv(max, s, Fire(c));
  }

  // ---------------------------------------------------------------- the detector

  class Detector {
    const maxAttempts: int
    var now: int
    var scores: seq<int>
    var expiry: int
    var marker: Option<int>
    var counts: map<int, nat>
    var attempts: seq<int>
    var alerts: seq<int>

    constructor (maxAttempts: int)
      ensures this.maxAttempts == maxAttempts && Model() == INIT
    {
      this.maxAttempts := maxAttempts;
      now, scores, expiry, marker, counts, attempts, alerts := 0, [], 0, None, map[], [], [];
    }

    function Model(): State
      reads this
    {
      State(now, scores, expiry, marker, counts, attempts, alerts)
    }

    method Meanwhile(others: seq<Action>)
      modifies this
      ensures Model() == Run(maxAttempts, old(Model()), others)
    {
      var t := Run(maxAttempts, Model(), others);
      now, scores, expiry, marker, counts, attempts, alerts :=
        t.now, t.scores, t.expiry, t.marker, t.counts, t.attempts, t.alerts;
    }

    /** Removes the scores up to `start`, as ZREMRANGEBYSCORE does. */
    method RemoveUpTo(start: int)
      modifies this`scores
      ensures scores == Newer(old(scores), start)
    {
      var kept: seq<int> := [];
      var i := 0;
      while i < |scores|
        invariant 0 <= i <= |scores|
        invariant scores == old(scores) && kept == Newer(scores[..i], start)
      {
        NewerAppend(scores[..i], scores[i], start);
        assert scores[..i + 1] == scores[..i] + [scores[i]];
        if scores[i] > start {
          kept := kept + [scores[i]];
        }
        i := i + 1;
      }
      assert scores[..i] == scores;
      scores := kept;
    }

    /** One failed attempt: count it, then fire unless an alert is still marked. The others may act
        between the pipeline and the marker. The count is exact, alerts stay a window apart, and at
        the threshold an alert has fired within the last window. */
    method TrackFailedAttempt(c: int, between: seq<Action>) returns (count: nat, fired: bool, ghost trace: seq<Action>)
      requires Inv(Model())
      requires forall a :: a in between ==> a.Tick? || a.c != c
      modifies this
      ensures Model() == Run(maxAttempts, old(Model()), trace) && Inv(Model())
      ensures trace == [Track(c)] + between + [Fire(c)]
      ensures count == |Newer(old(attempts) + [old(now)], old(now) - WINDOW)|
      ensures count >= maxAttempts ==> alerts != [] && now - WINDOW <= alerts[|alerts| - 1] <= now
      ensures fired ==> alerts != [] && alerts[|alerts| - 1] == now
    {
      ghost var s0 := Model();
      RunParts(maxAttempts, s0, Track(c), between, Fire(c));
      trace := [Track(c)] + between + [Fire(c)];
      count := Observe(c);
      WaitAndFire(c, count, between);
      fired := FireOnce(c, count);
    }

    method Observe(c: int) returns (count: nat)
      requires Inv(Model())
      modifies this
      ensures Model() == Step(maxAttempts, old(Model()), Track(c)) && Inv(Model())
      ensures count == |Newer(old(attempts) + [old(now)], old(now) - WINDOW)| && c in counts && counts[c] == count
    {
      TrackIsCounted(Model(), c);
      TrackKeepsInv(Model(), c);
      count := CountAttempt(c);
    }

    method WaitAndFire(c: int, count: nat, between: seq<Action>)
      requires Inv(Model()) && c in counts && counts[c] == count
      requires forall a :: a in between ==> a.Tick? || a.c != c
      modifies this
      ensures Model() == Run(maxAttempts, old(Model()), between) && Inv(Model())
      ensures c in counts && counts[c] == count
    {
      OthersKeepCount(maxAttempts, Model(), between, c);
      Meanwhile(between);
    }

    /** The pipeline ZADD, ZREMRANGEBYSCORE, ZCARD, EXPIRE. */
    method CountAttempt(c: int) returns (count: nat)
      modifies this
      ensures Model() == TrackStep(old(Model()), c)
      ensures c in counts && counts[c] == count
    {
      AddAndPrune();
      count := |scores|;
      expiry := now + WINDOW;
      counts, attempts := counts[c := count], attempts + [now];
    }

    method AddAndPrune()
      modifies this`scores
      ensures scores == Newer(Scores(old(Model())) + [now], now - WINDOW)
    {
      if now > expiry {
        scores := [];
      }
      scores := scores + [now];
      RemoveUpTo(now - WINDOW);
    }

    /** The threshold and the SET NX of the marker. */
    method FireOnce(c: int, count: nat) returns (fired: bool)
      requires Inv(Model()) && c in counts && counts[c] == count
      modifies this
      ensures Model() == Step(maxAttempts, old(Model()), Fire(c)) && Inv(Model())
      ensures count >= maxAttempts ==> alerts != [] && now - WINDOW <= alerts[|alerts| - 1] <= now
      ensures fired ==> alerts != [] && alerts[|alerts| - 1] == now
    {
      StepKeepsInv(maxAttempts, Model(), Fire(c));
      fired := false;
      if count >= maxAttempts {
        counts := counts - {c};
        if !(marker.Some? && now <= marker.value) {
          marker := Some(now + WINDOW);
          alerts := alerts + [now];
          fired := true;
        }
      }
    }
  }

  lemma {:induction false} OthersKeepCount(max: int, s: State, others: seq<Action>, c: int)
    requires Inv(s) && c in s.counts
    requires forall a :: a in others ==> a.Tick? || a.c != c
    ensures var t := Run(max, s, others); Inv(t) && c in t.counts && t.counts[c] == s.counts[c]
  {
    if others != [] {
      var n := |others| - 1;
      OthersKeepCount(max, s, others[..n], c);
      StepKeepsInv(max, Run(max, s, others[..n]), others[n]);
      assert others[n].Tick? || others[n].c != c;
    }
  }

  lemma {:induction false} RunAppend(max: int, s: State, a: seq<Action>, b: seq<Action>)
    ensures Run(max, s, a + b) == Run(max, Run(max, s, a), b)
  {
    if b == [] {
      assert a + b == a;
    } else {
      var n := |b| - 1;
      assert (a + b)[..|a + b| - 1] == a + b[..n];
      RunAppend(max, s, a, b[..n]);
    }
  }

  lemma RunParts(max: int, s: State, first: Action, middle: seq<Action>, last: Action)
    ensures Run(max, s, [first] + middle + [last]) == Step(max, Run(max, Step(max, s, first), middle), last)
  {
    assert [first][..0] == [] && Run(max, s, [first]) == Step(max, s, first);
    RunAppend(max, s, [first], middle);
    assert ([first] + middle + [last])[..1 + |middle|] == [first] + middle;
  }
}
