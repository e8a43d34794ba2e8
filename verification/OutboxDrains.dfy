/** How many drains a backlog needs. One relay drains alone, its transactions commit, nothing is
    written meanwhile, and Publish answers anything at all. */
module OutboxDrains {
  import opened Wrappers
  import opened Outbox
  import opened OutboxDeliveries

  type Table = map<Id, Row>

  /** What Publish answers for the rows of a page. */
  type Answers = map<Id, Answer>

  function AnswerFor(answers: Answers, id: Id): Answer {
    if id in answers then answers[id] else Lost
  }

  /** The table after one committed drain of `page` with the given answers. */
  function Drained(rows: Table, page: seq<Id>, answers: Answers): (t: Table)
    ensures t.Keys == rows.Keys
  {
    map id | id in rows ::
      if id in page then Attempted(rows[id], rows[id].attempts, AnswerFor(answers, id) == Sent) else rows[id]
  }

  ghost predicate DrainedBy(before: Table, after: Table, page: seq<Id>, answers: Answers) {
    IsPage(before, {}, page) && after == Drained(before, page, answers)
  }

  ghost predicate IsDrain(before: Table, after: Table) {
    exists page, answers :: DrainedBy(before, after, page, answers)
  }

  /** What RowOk says of every undelivered row. */
  ghost predicate Bounded(rows: Table) {
    forall id :: id in Backlog(rows) ==> 0 <= rows[id].attempts < MAX_ATTEMPTS
  }

  /** Successive tables, one drain apart. */
  ghost predicate Drains(ts: seq<Table>) {
    && |ts| > 0
    && Bounded(ts[0])
    && (forall i :: 0 <= i < |ts| - 1 ==> DrainAt(ts, i))
  }

  ghost predicate DrainAt(ts: seq<Table>, i: int)
    requires 0 <= i < |ts| - 1
  {
    IsDrain(ts[i], ts[i + 1])
  }

  function Backlog(rows: Table): set<Id> {
    set id | id in rows && Eligible(rows[id])
  }

  /** Every table the machine reaches may be the first of such a series. */
  lemma ReachableIsBounded(actions: seq<Action>)
    ensures Bounded(Run(INIT, actions).rows)
  {
    RunKeepsInv(INIT, actions);
  }

  // ---------------------------------------------------------------- the machine performs such drains

  /** The first `n` rows of the page are tried. */
  function Publishes(r: int, page: seq<Id>, answers: Answers, n: nat): seq<Action>
    requires n <= |page|
  {
    if n == 0 then
      []
    else
      Publishes(r, page, answers, n - 1) + [Publish(r, AnswerFor(answers, page[n - 1]), true)]
  }

  /** The steps of one undisturbed drain. */
  function SoloDrain(r: int, page: seq<Id>, answers: Answers): seq<Action> {
    [Fetch(r, page)] + Publishes(r, page, answers, |page|) + [Commit(r, true)]
  }

  function UpdatesOf(rows: Table, page: seq<Id>, answers: Answers, n: nat): map<Id, Row>
    requires n <= |page| && forall i :: 0 <= i < |page| ==> page[i] in rows
  {
    if n == 0 then
      map[]
    else
      var id, sent := page[n - 1], AnswerFor(answers, page[n - 1]) == Sent;
      UpdatesOf(rows, page, answers, n - 1)[id := Attempted(rows[id], rows[id].attempts, sent)]
  }

  lemma {:induction false} UpdatesAreDrained(rows: Table, page: seq<Id>, answers: Answers, n: nat)
    requires n <= |page| && forall i :: 0 <= i < |page| ==> page[i] in rows
    ensures var updates := UpdatesOf(rows, page, answers, n);
      && updates.Keys == Members(page[..n])
      && forall id :: id in updates ==> id in rows && updates[id] == Drained(rows, page, answers)[id]
  {
    if n > 0 {
      UpdatesAreDrained(rows, page, answers, n - 1);
      assert page[..n] == page[..n - 1] + [page[n - 1]];
    }
  }

  lemma PublishUpdates(s: State, r: int, page: seq<Id>, answers: Answers, n: nat, rows: Table)
    requires n < |page| && forall i :: 0 <= i < |page| ==> page[i] in rows
    requires s.rows == rows
    requires RelayOf(s, r) == Draining(Records(rows, page), n, UpdatesOf(rows, page, answers, n), false)
    ensures var t := Step(s, Publish(r, AnswerFor(answers, page[n]), true));
      && t.rows == rows && Others(s, t, r)
      && RelayOf(t, r) == Draining(Records(rows, page), n + 1, UpdatesOf(rows, page, answers, n + 1), false)
  {
  }

  /** Every relay but one is as it was. */
  ghost predicate Others(s: State, t: State, r: int) {
    forall q :: q != r ==> RelayOf(t, q) == RelayOf(s, q)
  }

  /** After `n` rows of a page that the relay fetched in `s`. */
  ghost predicate MidDrain(s: State, t: State, r: int, page: seq<Id>, answers: Answers, n: nat)
    requires n <= |page| && forall i :: 0 <= i < |page| ==> page[i] in s.rows
  {
    && t.rows == s.rows && Others(s, t, r)
    && RelayOf(t, r) == Draining(Records(s.rows, page), n, UpdatesOf(s.rows, page, answers, n), false)
  }

  lemma DrainStarts(s: State, r: int, page: seq<Id>, answers: Answers)
    requires forall i :: 0 <= i < |page| ==> page[i] in s.rows
    requires RelayOf(s, r) == Draining(Records(s.rows, page), 0, map[], false)
    ensures MidDrain(s, s, r, page, answers, 0)
  {
  }

  lemma DrainGoesOn(s: State, t: State, r: int, page: seq<Id>, answers: Answers, n: nat)
    requires n < |page| && forall i :: 0 <= i < |page| ==> page[i] in s.rows
    requires MidDrain(s, t, r, page, answers, n)
    ensures MidDrain(s, Step(t, Publish(r, AnswerFor(answers, page[n]), true)), r, page, answers, n + 1)
  {
    PublishUpdates(t, r, page, answers, n, s.rows);
  }

  /** The state those steps lead to. */
  function AfterPublishes(s: State, r: int, page: seq<Id>, answers: Answers, n: nat): State
    requires n <= |page|
  {
    if n == 0 then
      s
    else
      Step(AfterPublishes(s, r, page, answers, n - 1), Publish(r, AnswerFor(answers, page[n - 1]), true))
  }

  lemma {:induction false} PublishesRun(s: State, r: int, page: seq<Id>, answers: Answers, n: nat)
    requires n <= |page|
    ensures Run(s, Publishes(r, page, answers, n)) == AfterPublishes(s, r, page, answers, n)
  {
    if n > 0 {
      PublishesRun(s, r, page, answers, n - 1);
      RunStep(s, Publishes(r, page, answers, n - 1), Publish(r, AnswerFor(answers, page[n - 1]), true));
    }
  }

  lemma {:induction false} PublishesUpdate(s: State, r: int, page: seq<Id>, answers: Answers, n: nat)
    requires n <= |page| && forall i :: 0 <= i < |page| ==> page[i] in s.rows
    requires MidDrain(s, s, r, page, answers, 0)
    ensures MidDrain(s, AfterPublishes(s, r, page, answers, n), r, page, answers, n)
  {
    if n > 0 {
      PublishesUpdate(s, r, page, answers, n - 1);
      DrainGoesOn(s, AfterPublishes(s, r, page, answers, n - 1), r, page, answers, n - 1);
    }
  }

  ghost predicate AllIdle(s: State) {
    forall r :: RelayOf(s, r).Idle?
  }

  lemma IdleLocksNothing(s: State)
    requires AllIdle(s)
    ensures Locked(s) == {}
  {
    forall r | r in s.relays
      ensures s.relays[r].Idle?
    {
      assert RelayOf(s, r).Idle?;
    }
  }

  /** When nothing interferes, the steps of one drain have exactly the effect counted here, and leave
      every relay idle again. A drain that finds nothing does nothing. */
  lemma SoloDrainDrains(s: State, r: int, page: seq<Id>, answers: Answers)
    requires AllIdle(s) && IsPage(s.rows, {}, page)
    ensures var t := Run(s, SoloDrain(r, page, answers));
      t.rows == Drained(s.rows, page, answers) && AllIdle(t)
  {
    IdleLocksNothing(s);
    var fetched, middle := Step(s, Fetch(r, page)), Publishes(r, page, answers, |page|);
    assert [Fetch(r, page)][..0] == [] && Run(s, []) == s;
    RunAppend(s, [Fetch(r, page)], middle);
    RunAppend(s, [Fetch(r, page)] + middle, [Commit(r, true)]);
    var published := Run(fetched, middle);
    assert [Commit(r, true)][..0] == [] && Run(published, []) == published;
    if page == [] {
      assert Step(s, Commit(r, true)) == s;
    } else {
      assert RelayOf(s, r).Idle?;
      FullDrainDrains(s, fetched, r, page, answers);
    }
  }

  lemma FullDrainDrains(s: State, fetched: State, r: int, page: seq<Id>, answers: Answers)
    requires AllIdle(s) && IsPage(s.rows, {}, page)
    requires fetched == s.(relays := s.relays[r := Draining(Records(s.rows, page), 0, map[], false)])
    ensures var t := Step(Run(fetched, Publishes(r, page, answers, |page|)), Commit(r, true));
      t.rows == Drained(s.rows, page, answers) && AllIdle(t)
  {
    var middle := Publishes(r, page, answers, |page|);
    DrainStarts(fetched, r, page, answers);
    PublishesUpdate(fetched, r, page, answers, |page|);
    PublishesRun(fetched, r, page, answers, |page|);
    assert page[..|page|] == page;
    var published := Run(fetched, middle);
    CommitDrains(published, r, s.rows, page, answers);
    var t := Step(published, Commit(r, true));
    forall q
      ensures RelayOf(t, q).Idle?
    {
      if q != r { assert RelayOf(published, q) == RelayOf(fetched, q) == RelayOf(s, q); }
    }
  }

  lemma CommitDrains(s: State, r: int, rows: Table, page: seq<Id>, answers: Answers)
    requires forall i :: 0 <= i < |page| ==> page[i] in rows
    requires s.rows == rows
    requires RelayOf(s, r) == Draining(Records(rows, page), |page|, UpdatesOf(rows, page, answers, |page|), false)
    ensures var t := Step(s, Commit(r, true));
      t.rows == Drained(rows, page, answers) && Others(s, t, r) && RelayOf(t, r).Idle?
  {
    UpdatesAreDrained(rows, page, answers, |page|);
    assert page[..|page|] == page;
    assert rows + UpdatesOf(rows, page, answers, |page|) == Drained(rows, page, answers);
  }

  // ---------------------------------------------------------------- one drain

  lemma DrainShrinks(before: Table, after: Table)
    requires IsDrain(before, after)
    ensures after.Keys == before.Keys && Backlog(after) <= Backlog(before)
    ensures forall id :: id in Backlog(before) ==> after[id].created == before[id].created
    ensures forall id :: id in Backlog(after) ==> before[id].attempts <= after[id].attempts <= before[id].attempts + 1
  {
    var page, answers :| DrainedBy(before, after, page, answers);
  }

  lemma {:induction false} DrainsShrink(ts: seq<Table>, i: nat, j: nat)
    requires Drains(ts) && i <= j < |ts|
    ensures ts[i].Keys == ts[j].Keys && Backlog(ts[j]) <= Backlog(ts[i])
    ensures forall id :: id in Backlog(ts[j]) ==>
      ts[j][id].created == ts[i][id].created && ts[i][id].attempts <= ts[j][id].attempts
    decreases j
  {
    if i < j {
      DrainsShrink(ts, i, j - 1);
      assert DrainAt(ts, j - 1);
      DrainShrinks(ts[j - 1], ts[j]);
    }
  }

  // ---------------------------------------------------------------- the bound for any tie-breaking

  function LeftOf(row: Row): int {
    if Eligible(row) then MAX_ATTEMPTS - row.attempts else 0
  }

  /** The publish attempts the rows in `ids` have left. */
  ghost function Left(rows: Table, ids: set<Id>): int
    requires ids <= rows.Keys
  {
    if ids == {} then
      0
    else
      LeftOf(rows[AnyOf(ids)]) + Left(rows, ids - {AnyOf(ids)})
  }

  lemma {:induction false} LeftSplits(rows: Table, ids: set<Id>, id: Id)
    requires ids <= rows.Keys && id in ids
    ensures Left(rows, ids) == LeftOf(rows[id]) + Left(rows, ids - {id})
  {
    var first := AnyOf(ids);
    if first != id {
      LeftSplits(rows, ids - {first}, id);
      LeftSplits(rows, ids - {id}, first);
      assert ids - {first} - {id} == ids - {id} - {first};
    }
  }

  lemma LeftOfDrops(row: Row, sent: bool)
    requires Eligible(row) && 0 <= row.attempts < MAX_ATTEMPTS
    ensures 0 <= LeftOf(Attempted(row, row.attempts, sent)) < LeftOf(row)
  {
  }

  /** Every drained row has at least one attempt less left. */
  lemma {:induction false} LeftDrops(before: Table, page: seq<Id>, answers: Answers, ids: set<Id>)
    requires Bounded(before) && ids <= before.Keys
    requires forall id :: id in page ==> id in Backlog(before)
    ensures 0 <= Left(Drained(before, page, answers), ids) <= Left(before, ids) - |ids * Members(page)|
  {
    if ids != {} {
      var id, after := AnyOf(ids), Drained(before, page, answers);
      var rest := ids - {id};
      LeftDrops(before, page, answers, rest);
      if id in page {
        LeftOfDrops(before[id], AnswerFor(answers, id) == Sent);
        assert ids * Members(page) == rest * Members(page) + {id};
      } else {
        assert ids * Members(page) == rest * Members(page);
      }
    }
  }

  lemma {:induction false} LeftAtMost(rows: Table, ids: set<Id>)
    requires ids <= rows.Keys && Bounded(rows)
    ensures Left(rows, ids) <= MAX_ATTEMPTS * |ids * Backlog(rows)|
  {
    if ids != {} {
      var id := AnyOf(ids);
      LeftSplits(rows, ids, id);
      LeftAtMost(rows, ids - {id});
      if id in Backlog(rows) {
        assert ids * Backlog(rows) == (ids - {id}) * Backlog(rows) + {id};
      } else {
        assert ids * Backlog(rows) == (ids - {id}) * Backlog(rows);
      }
    }
  }

  lemma {:induction false} BoundedStays(ts: seq<Table>, i: nat)
    requires Drains(ts) && i < |ts|
    ensures Bounded(ts[i])
  {
    if i > 0 {
      BoundedStays(ts, i - 1);
      assert DrainAt(ts, i - 1);
    }
  }

  /** A page is the whole backlog, or it is full. */
  lemma PageCovers(rows: Table, page: seq<Id>)
    requires IsPage(rows, {}, page)
    ensures var members := Members(page);
      && members <= Backlog(rows) && |members| == |page| <= PAGE
      && (|Backlog(rows)| <= PAGE ==> members == Backlog(rows))
      && (|Backlog(rows)| > PAGE ==> |page| == PAGE)
  {
    var members := Members(page);
    MembersSize(page);
    SubsetSize(members, Backlog(rows));
    if members != Backlog(rows) {
      var q := Missing(members, Backlog(rows));
    }
  }

  lemma {:induction false} FullDrainsCost(ts: seq<Table>, j: nat)
    requires Drains(ts) && j < |ts|
    requires forall i :: 0 <= i < j ==> |Backlog(ts[i])| > PAGE
    ensures ts[0].Keys == ts[j].Keys
    ensures 0 <= Left(ts[j], ts[0].Keys) <= MAX_ATTEMPTS * |Backlog(ts[0])| - PAGE * j
  {
    var keys := ts[0].Keys;
    DrainsShrink(ts, 0, j);
    if j == 0 {
      LeftAtMost(ts[0], keys);
      assert keys * Backlog(ts[0]) == Backlog(ts[0]);
      LeftNatural(ts[0], keys);
    } else {
      FullDrainsCost(ts, j - 1);
      BoundedStays(ts, j - 1);
      assert DrainAt(ts, j - 1);
      var page, answers :| DrainedBy(ts[j - 1], ts[j], page, answers);
      PageCovers(ts[j - 1], page);
      LeftDrops(ts[j - 1], page, answers, keys);
      assert keys * Members(page) == Members(page);
    }
  }

  lemma {:induction false} LeftNatural(rows: Table, ids: set<Id>)
    requires ids <= rows.Keys && Bounded(rows)
    ensures 0 <= Left(rows, ids)
  {
    if ids != {} {
      var id := AnyOf(ids);
      LeftSplits(rows, ids, id);
      LeftNatural(rows, ids - {id});
    }
  }

  ghost predicate TriedAtLeast(rows: Table, k: nat) {
    forall id :: id in Backlog(rows) ==> rows[id].attempts >= k
  }

  /** Once the backlog fits a page, every drain tries all of it. */
  lemma {:induction false} SmallBacklogAges(ts: seq<Table>, j: nat, k: nat)
    requires Drains(ts) && j + k < |ts| && |Backlog(ts[j])| <= PAGE
    ensures TriedAtLeast(ts[j + k], k)
  {
    if k == 0 {
      BoundedStays(ts, j);
    } else {
      SmallBacklogAges(ts, j, k - 1);
      DrainsShrink(ts, j, j + k - 1);
      SubsetSize(Backlog(ts[j + k - 1]), Backlog(ts[j]));
      assert DrainAt(ts, j + k - 1);
      var page, answers :| DrainedBy(ts[j + k - 1], ts[j + k], page, answers);
      PageCovers(ts[j + k - 1], page);
      var after := ts[j + k];
      forall id | id in Backlog(after)
        ensures after[id].attempts >= k
      {
        assert id in Backlog(ts[j + k - 1]) && id in page;
      }
    }
  }

  lemma {:induction false} EligibleUntilTerminal(ts: seq<Table>, i: nat, id: Id)
    requires Drains(ts) && i < |ts| && id in Backlog(ts[0])
    ensures id in ts[i] && (id in Backlog(ts[i]) || Terminal(ts[i][id]))
  {
    if i > 0 {
      EligibleUntilTerminal(ts, i - 1, id);
      BoundedStays(ts, i - 1);
      assert DrainAt(ts, i - 1);
    }
  }

  lemma SmallBacklogIsSoonDone(ts: seq<Table>, j: nat)
    requires Drains(ts) && j + MAX_ATTEMPTS < |ts| && |Backlog(ts[j])| <= PAGE
    ensures Backlog(ts[|ts| - 1]) == {}
  {
    SmallBacklogAges(ts, j, MAX_ATTEMPTS);
    BoundedStays(ts, j + MAX_ATTEMPTS);
    if Backlog(ts[j + MAX_ATTEMPTS]) != {} {
      var id := AnyOf(Backlog(ts[j + MAX_ATTEMPTS]));
      assert false;
    }
    DrainsShrink(ts, j + MAX_ATTEMPTS, |ts| - 1);
  }

  /** Quiescence: a backlog of n rows is all published or dead after floor(5n/100) + 5 drains,
      whatever Publish answers and however equal creation times are ordered. */
  lemma BacklogIsDrained(ts: seq<Table>)
    requires Drains(ts)
    requires |ts| - 1 >= MAX_ATTEMPTS * |Backlog(ts[0])| / PAGE + MAX_ATTEMPTS
    ensures forall id :: id in Backlog(ts[0]) ==> id in ts[|ts| - 1] && Terminal(ts[|ts| - 1][id])
  {
    var full := MAX_ATTEMPTS * |Backlog(ts[0])| / PAGE;
    if j :| 0 <= j <= full && |Backlog(ts[j])| <= PAGE {
      SmallBacklogIsSoonDone(ts, j);
      forall id | id in Backlog(ts[0])
        ensures id in ts[|ts| - 1] && Terminal(ts[|ts| - 1][id])
      {
        EligibleUntilTerminal(ts, |ts| - 1, id);
      }
    } else {
      FullDrainsCost(ts, full + 1);
      assert false;
    }
  }

  // ---------------------------------------------------------------- the bound for distinct creation times

  ghost predicate DistinctTimes(rows: Table) {
    forall p, q :: p in Backlog(rows) && q in Backlog(rows) && p != q ==> rows[p].created != rows[q].created
  }

  /** The oldest page stays the oldest: while a row of it is undelivered, every drain tries it. */
  lemma {:induction false} OldestAge(ts: seq<Table>, i: nat, k: nat, oldest: seq<Id>)
    requires Drains(ts) && i + k < |ts| && DistinctTimes(ts[i]) && IsPage(ts[i], {}, oldest)
    ensures forall id :: id in Backlog(ts[i + k]) && id in oldest ==> ts[i + k][id].attempts >= k
  {
    if k == 0 {
      BoundedStays(ts, i);
    } else {
      OldestAge(ts, i, k - 1, oldest);
      DrainsShrink(ts, i, i + k - 1);
      var before, after := ts[i + k - 1], ts[i + k];
      assert DrainAt(ts, i + k - 1);
      DrainShrinks(before, after);
      forall id | id in Backlog(after) && id in oldest
        ensures after[id].attempts >= k
      {
        OldestIsTried(ts[i], oldest, before, after, id);
      }
    }
  }

  /** A drain tries every row of the oldest page that is left. */
  lemma OldestIsTried(first: Table, oldest: seq<Id>, before: Table, after: Table, id: Id)
    requires DistinctTimes(first) && IsPage(first, {}, oldest) && IsDrain(before, after)
    requires Backlog(before) <= Backlog(first)
    requires forall q :: q in Backlog(before) ==> before[q].created == first[q].created
    requires id in Backlog(before) && id in Backlog(after) && id in oldest
    ensures after[id].attempts == before[id].attempts + 1
  {
    var page, answers :| DrainedBy(before, after, page, answers);
    OvertakersAreOld(first, oldest, before, page, id);
  }

  /** If a row of the oldest page were passed over, a whole page of that page would be older. */
  lemma OvertakersAreOld(first: Table, oldest: seq<Id>, before: Table, page: seq<Id>, id: Id)
    requires DistinctTimes(first) && IsPage(first, {}, oldest) && IsPage(before, {}, page)
    requires Backlog(before) <= Backlog(first)
    requires forall q :: q in Backlog(before) ==> before[q].created == first[q].created
    requires id in Backlog(before) && id in oldest
    ensures id in page
  {
    if id !in page {
      var some, all := Members(page), Members(oldest);
      MembersSize(page);
      MembersSize(oldest);
      forall p | p in page
        ensures p in all
      {
        assert before[p].created <= before[id].created;
        assert p in Backlog(first) && p != id;
      }
      assert |some + {id}| == PAGE + 1;
      SubsetSize(some + {id}, all);
    }
  }

  lemma PageExists(ts: seq<Table>, i: nat) returns (page: seq<Id>)
    requires Drains(ts) && i + 1 < |ts|
    ensures IsPage(ts[i], {}, page)
  {
    assert DrainAt(ts, i);
    var p, answers :| DrainedBy(ts[i], ts[i + 1], p, answers);
    page := p;
  }

  lemma FiveDrainsClearAPage(ts: seq<Table>, i: nat)
    requires Drains(ts) && i + MAX_ATTEMPTS < |ts| && DistinctTimes(ts[i])
    ensures |Backlog(ts[i + MAX_ATTEMPTS])| <= if |Backlog(ts[i])| <= PAGE then 0 else |Backlog(ts[i])| - PAGE
    ensures DistinctTimes(ts[i + MAX_ATTEMPTS])
  {
    var oldest := PageExists(ts, i);
    PageCovers(ts[i], oldest);
    OldestAge(ts, i, MAX_ATTEMPTS, oldest);
    BoundedStays(ts, i + MAX_ATTEMPTS);
    DrainsShrink(ts, i, i + MAX_ATTEMPTS);
    var members := Members(oldest);
    var rest := Backlog(ts[i]) - members;
    assert Backlog(ts[i + MAX_ATTEMPTS]) <= rest;
    SubsetSize(Backlog(ts[i + MAX_ATTEMPTS]), rest);
    assert |rest| == |Backlog(ts[i])| - |members|;
  }

  lemma {:induction false} PagesClearInTurn(ts: seq<Table>, m: nat)
    requires Drains(ts) && MAX_ATTEMPTS * m < |ts| && DistinctTimes(ts[0])
    ensures DistinctTimes(ts[MAX_ATTEMPTS * m])
    ensures |Backlog(ts[MAX_ATTEMPTS * m])| <= if |Backlog(ts[0])| <= PAGE * m then 0 else |Backlog(ts[0])| - PAGE * m
  {
    if m > 0 {
      PagesClearInTurn(ts, m - 1);
      FiveDrainsClearAPage(ts, MAX_ATTEMPTS * (m - 1));
    }
  }

  /** With distinct creation times nobody is starved by younger rows: five drains clear a page, so m
      pages are all published or dead after 5m drains. */
  lemma OldestFirstIsFair(ts: seq<Table>, m: nat)
    requires Drains(ts) && DistinctTimes(ts[0])
    requires |Backlog(ts[0])| <= PAGE * m && |ts| - 1 >= MAX_ATTEMPTS * m
    ensures forall id :: id in Backlog(ts[0]) ==> id in ts[|ts| - 1] && Terminal(ts[|ts| - 1][id])
  {
    PagesClearInTurn(ts, m);
    DrainsShrink(ts, MAX_ATTEMPTS * m, |ts| - 1);
    forall id | id in Backlog(ts[0])
      ensures id in ts[|ts| - 1] && Terminal(ts[|ts| - 1][id])
    {
      EligibleUntilTerminal(ts, |ts| - 1, id);
    }
  }

  // ---------------------------------------------------------------- the bounds, of runs of the machine

  /** One undisturbed drain, by any relay. */
  datatype Round = Round(r: int, page: seq<Id>, answers: Answers)

  function SoloDrains(rounds: seq<Round>): seq<Action> {
    if rounds == [] then
      []
    else
      var last := rounds[|rounds| - 1];
      SoloDrains(rounds[..|rounds| - 1]) + SoloDrain(last.r, last.page, last.answers)
  }

  /** Every round fetches a page the query may return when its turn comes. */
  ghost predicate Fits(s: State, rounds: seq<Round>) {
    rounds == [] ||
    (&& Fits(s, rounds[..|rounds| - 1])
     && IsPage(Run(s, SoloDrains(rounds[..|rounds| - 1])).rows, {}, rounds[|rounds| - 1].page))
  }

  /** The tables between the rounds. */
  function Tables(s: State, rounds: seq<Round>): (ts: seq<Table>)
    ensures |ts| == |rounds| + 1 && ts[0] == s.rows
    ensures ts[|rounds|] == Run(s, SoloDrains(rounds)).rows
  {
    if rounds == [] then [s.rows] else Tables(s, rounds[..|rounds| - 1]) + [Run(s, SoloDrains(rounds)).rows]
  }

  lemma DrainsExtend(ts: seq<Table>, next: Table)
    requires Drains(ts) && IsDrain(ts[|ts| - 1], next)
    ensures Drains(ts + [next])
  {
    forall i | 0 <= i < |ts|
      ensures DrainAt(ts + [next], i)
    {
      if i + 1 < |ts| { assert DrainAt(ts, i); }
    }
  }

  lemma RoundIsDrain(s: State, round: Round)
    requires AllIdle(s) && IsPage(s.rows, {}, round.page)
    ensures var t := Run(s, SoloDrain(round.r, round.page, round.answers));
      IsDrain(s.rows, t.rows) && AllIdle(t)
  {
    SoloDrainDrains(s, round.r, round.page, round.answers);
    var t := Run(s, SoloDrain(round.r, round.page, round.answers));
    assert DrainedBy(s.rows, t.rows, round.page, round.answers);
  }

  /** A run of undisturbed drains is a series of counted drains. */
  lemma {:induction false} RoundsAreDrains(s: State, rounds: seq<Round>)
    requires AllIdle(s) && Bounded(s.rows) && Fits(s, rounds)
    ensures Drains(Tables(s, rounds)) && AllIdle(Run(s, SoloDrains(rounds)))
  {
    if rounds != [] {
      var n := |rounds| - 1;
      var init, last := rounds[..n], rounds[n];
      RoundsAreDrains(s, init);
      var before := Run(s, SoloDrains(init));
      RunAppend(s, SoloDrains(init), SoloDrain(last.r, last.page, last.answers));
      RoundIsDrain(before, last);
      DrainsExtend(Tables(s, init), Run(s, SoloDrains(rounds)).rows);
    }
  }

  /** In a reachable state without locks every relay is idle. */
  lemma UnlockedIsIdle(actions: seq<Action>)
    requires Locked(Run(INIT, actions)) == {}
    ensures AllIdle(Run(INIT, actions))
  {
    var s := Run(INIT, actions);
    RunKeepsTurns(INIT, actions);
    forall r
      ensures RelayOf(s, r).Idle?
    {
      if RelayOf(s, r).Draining? { DrainingLocks(s, r); }
    }
  }

  lemma DrainingLocks(s: State, r: int)
    requires AllInTurn(s) && RelayOf(s, r).Draining?
    ensures Locked(s) != {}
  {
    assert InTurn(s.relays[r]);
    var id := s.relays[r].records[0].id;
    assert Holds(s.relays[r], id);
    assert id in Locked(s);
  }

  /** The rows of a page so far: the oldest of the backlog, in order. */
  ghost predicate OldestFirst(rows: Table, page: seq<Id>) {
    && (forall i :: 0 <= i < |page| ==> page[i] in Backlog(rows))
    && (forall i, j :: 0 <= i < j < |page| ==> page[i] != page[j] && rows[page[i]].created <= rows[page[j]].created)
    && (forall p, q :: p in Members(page) && q in Backlog(rows) - Members(page) ==> rows[p].created <= rows[q].created)
  }

  lemma {:induction false} Oldest(rows: Table, ids: set<Id>) returns (id: Id)
    requires ids <= rows.Keys && ids != {}
    ensures id in ids && forall q :: q in ids ==> rows[id].created <= rows[q].created
  {
    id := AnyOf(ids);
    var rest := ids - {id};
    if rest != {} {
      var other := Oldest(rows, rest);
      forall q | q in ids && q != id
        ensures q in rest
      {
      }
      if rows[other].created < rows[id].created { id := other; }
    } else {
      assert ids == {id};
    }
  }

  lemma {:induction false} OldestRows(rows: Table, n: nat) returns (page: seq<Id>)
    ensures OldestFirst(rows, page) && |page| <= n
    ensures |page| == n || Members(page) == Backlog(rows)
  {
    page := [];
    if n > 0 {
      page := OldestRows(rows, n - 1);
      var rest := Backlog(rows) - Members(page);
      if |page| == n - 1 && rest != {} {
        var id := Oldest(rows, rest);
        assert Members(page + [id]) == Members(page) + {id};
        forall i | 0 <= i < |page|
          ensures page[i] in Members(page)
        {
        }
        page := page + [id];
      } else if rest == {} {
        assert Backlog(rows) == Members(page) + rest;
      }
    }
  }

  /** The query can always answer, so a series of drains never stalls. */
  lemma PageForAnyTable(rows: Table) returns (page: seq<Id>)
    ensures IsPage(rows, {}, page)
  {
    page := OldestRows(rows, PAGE);
    forall q | q in rows && Eligible(rows[q]) && q !in page
      ensures |page| == PAGE && forall p :: p in page ==> rows[p].created <= rows[q].created
    {
      assert q in Backlog(rows) - Members(page);
      assert forall p :: p in page ==> p in Members(page);
    }
  }

  ghost predicate AllSettled(before: Table, after: Table) {
    forall id :: id in Backlog(before) ==> id in after && Terminal(after[id])
  }

  /** From any reachable state with no row locked: floor(5n/100) + 5 undisturbed drains in a row leave
      all n eligible rows published or dead, whatever Publish answers. */
  lemma RunDrainsBacklog(actions: seq<Action>, rounds: seq<Round>)
    requires Locked(Run(INIT, actions)) == {} && Fits(Run(INIT, actions), rounds)
    requires |rounds| >= MAX_ATTEMPTS * |Backlog(Run(INIT, actions).rows)| / PAGE + MAX_ATTEMPTS
    ensures AllSettled(Run(INIT, actions).rows, Run(INIT, actions + SoloDrains(rounds)).rows)
  {
    var s := Run(INIT, actions);
    UnlockedIsIdle(actions);
    ReachableIsBounded(actions);
    RoundsAreDrains(s, rounds);
    RunAppend(INIT, actions, SoloDrains(rounds));
    BacklogIsDrained(Tables(s, rounds));
  }

  /** ... and with distinct creation times 5m drains do for m pages. */
  lemma RunDrainsPages(actions: seq<Action>, rounds: seq<Round>, m: nat)
    requires Locked(Run(INIT, actions)) == {} && Fits(Run(INIT, actions), rounds)
    requires DistinctTimes(Run(INIT, actions).rows)
    requires |Backlog(Run(INIT, actions).rows)| <= PAGE * m && |rounds| >= MAX_ATTEMPTS * m
    ensures AllSettled(Run(INIT, actions).rows, Run(INIT, actions + SoloDrains(rounds)).rows)
  {
    var s := Run(INIT, actions);
    UnlockedIsIdle(actions);
    ReachableIsBounded(actions);
    RoundsAreDrains(s, rounds);
    RunAppend(INIT, actions, SoloDrains(rounds));
    OldestFirstIsFair(Tables(s, rounds), m);
  }
}
