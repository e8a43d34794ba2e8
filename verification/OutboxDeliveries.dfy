/** How often a row is delivered. A delivery that no commit records as the row's publication is a
    stray: Publish delivered but reported an error, or the transaction that knew of it was lost. */
module OutboxDeliveries {
  import opened Outbox

  function Copies(log: seq<Id>, id: Id): nat {
    if log == [] then 0 else Copies(log[..|log| - 1], id) + if log[|log| - 1] == id then 1 else 0
  }

  /** The relay's open transaction marks the row published. */
  predicate Stages(relay: Relay, id: Id) {
    relay.Draining? && id in relay.updates && relay.updates[id].status == Published
  }

  ghost predicate Staged(s: State, id: Id) {
    exists r :: r in s.relays && Stages(s.relays[r], id)
  }

  /** Whether this step makes a delivery of the row a stray. */
  predicate IsStray(s: State, a: Action, id: Id) {
    match a
    case Publish(r, answer, updated) =>
      var relay := RelayOf(s, r);
      && relay.Draining? && relay.next < |relay.records| && relay.records[relay.next].id == id
      && (answer == SentButError || (answer == Sent && (relay.aborted || !updated)))
    case Commit(r, ok) =>
      var relay := RelayOf(s, r);
      Stages(relay, id) && relay.next == |relay.records| && (relay.aborted || !ok)
    case Crash(r) => Stages(RelayOf(s, r), id)
    case _ => false
  }

  /** The stray deliveries of a row over a run. */
  function Strays(s: State, actions: seq<Action>, id: Id): nat {
    if actions == [] then
      0
    else
      var init := actions[..|actions| - 1];
      Strays(s, init, id) + if IsStray(Run(s, init), actions[|actions| - 1], id) then 1 else 0
  }

  function PublishedOnce(s: State, id: Id): nat {
    if id in s.rows && s.rows[id].status == Published then 1 else 0
  }

  ghost function StagedOnce(s: State, id: Id): nat {
    if Staged(s, id) then 1 else 0
  }

  // ---------------------------------------------------------------- no row is staged before its turn

  /** A page has no row twice, and only rows before the relay's position are staged. */
  ghost predicate InTurn(relay: Relay) {
    relay.Draining? ==>
      && relay.records != []
      && (forall i, j :: 0 <= i < j < |relay.records| ==> relay.records[i].id != relay.records[j].id)
      && (forall i :: relay.next <= i < |relay.records| ==> relay.records[i].id !in relay.updates)
  }

  ghost predicate AllInTurn(s: State) {
    forall r :: r in s.relays ==> InTurn(s.relays[r])
  }

  lemma StepKeepsTurns(s: State, a: Action)
    requires AllInTurn(s)
    ensures AllInTurn(Step(s, a))
  {
  }

  lemma {:induction false} RunKeepsTurns(s: State, actions: seq<Action>)
    requires AllInTurn(s)
    ensures AllInTurn(Run(s, actions))
  {
    if actions != [] {
      RunKeepsTurns(s, actions[..|actions| - 1]);
      StepKeepsTurns(Run(s, actions[..|actions| - 1]), actions[|actions| - 1]);
    }
  }

  // ---------------------------------------------------------------- counting

  lemma CopiesAppend(log: seq<Id>, x: Id, id: Id)
    ensures Copies(log + [x], id) == Copies(log, id) + if x == id then 1 else 0
  {
    assert (log + [x])[..|log|] == log;
  }

  /** A staged row is locked by the relay that staged it, so it is unpublished and nobody else's. */
  lemma StagedIsHeld(s: State, r: int, id: Id)
    requires Inv(s) && r in s.relays && Stages(s.relays[r], id)
    ensures Holds(s.relays[r], id) && id in s.rows && s.rows[id].status != Published
    ensures forall q :: q in s.relays && Stages(s.relays[q], id) ==> q == r
  {
    assert RelayOk(s.rows, s.log, s.relays[r]);
    forall q | q in s.relays && Stages(s.relays[q], id)
      ensures Holds(s.relays[q], id)
    {
      assert RelayOk(s.rows, s.log, s.relays[q]);
    }
  }

  /** A step of relay `r` that leaves the other relays alone settles who stages the row. */
  lemma StagedAfter(s: State, t: State, r: int, id: Id)
    requires Inv(s) && r in t.relays
    requires forall q :: q != r ==> (q in t.relays <==> q in s.relays) && (q in s.relays ==> t.relays[q] == s.relays[q])
    requires Stages(RelayOf(s, r), id) || Holds(RelayOf(s, r), id) || !Staged(s, id)
    ensures Staged(s, id) <==> Stages(RelayOf(s, r), id)
    ensures Staged(t, id) <==> Stages(t.relays[r], id)
  {
    forall q | q in s.relays && q != r
      ensures !Stages(s.relays[q], id)
    {
      if Stages(s.relays[q], id) { StagedIsHeld(s, q, id); }
    }
  }

  /** A step of a relay that does not concern this row. */
  lemma StagedUnchanged(s: State, t: State, r: int, id: Id)
    requires r in t.relays && (Stages(t.relays[r], id) <==> Stages(RelayOf(s, r), id))
    requires forall q :: q != r ==> (q in t.relays <==> q in s.relays) && (q in s.relays ==> t.relays[q] == s.relays[q])
    ensures Staged(t, id) <==> Staged(s, id)
  {
    if q :| q in s.relays && Stages(s.relays[q], id) { assert q in t.relays && Stages(t.relays[q], id); }
    if q :| q in t.relays && Stages(t.relays[q], id) { assert q in s.relays && Stages(s.relays[q], id); }
  }

  /** What a step adds to the copies of a row is what it adds to its strays, its publication and its
      staging together. */
  ghost predicate BalancedTo(s: State, t: State, stray: bool, id: Id) {
    Copies(t.log, id) + PublishedOnce(s, id) + StagedOnce(s, id)
      == Copies(s.log, id) + PublishedOnce(t, id) + StagedOnce(t, id) + if stray then 1 else 0
  }

  ghost predicate Balanced(s: State, a: Action, id: Id) {
    BalancedTo(s, Step(s, a), IsStray(s, a, id), id)
  }

  lemma OwnRowBalances(s: State, r: int, answer: Answer, updated: bool, id: Id)
    requires Inv(s) && r in s.relays && InTurn(s.relays[r])
    requires var relay := s.relays[r];
      relay.Draining? && relay.next < |relay.records| && relay.records[relay.next].id == id
    ensures var relay := s.relays[r];
      var stray := answer == SentButError || (answer == Sent && (relay.aborted || !updated));
      BalancedTo(s, PublishStep(s, r, relay, answer, updated), stray, id)
  {
    var relay, t := s.relays[r], PublishStep(s, r, s.relays[r], answer, updated);
    assert RelayOk(s.rows, s.log, relay);
    assert Holds(relay, id) && id !in relay.updates;
    CopiesAppend(s.log, id, id);
    StagedAfter(s, t, r, id);
  }

  lemma OtherRowBalances(s: State, r: int, answer: Answer, updated: bool, id: Id)
    requires r in s.relays
    requires var relay := s.relays[r];
      relay.Draining? && relay.next < |relay.records| && relay.records[relay.next].id != id
    ensures BalancedTo(s, PublishStep(s, r, s.relays[r], answer, updated), false, id)
  {
    var relay, t := s.relays[r], PublishStep(s, r, s.relays[r], answer, updated);
    CopiesAppend(s.log, relay.records[relay.next].id, id);
    StagedUnchanged(s, t, r, id);
  }

  lemma PublishBalances(s: State, r: int, answer: Answer, updated: bool, id: Id)
    requires Inv(s) && AllInTurn(s)
    ensures Balanced(s, Publish(r, answer, updated), id)
  {
    var relay := RelayOf(s, r);
    if relay.Draining? && relay.next < |relay.records| {
      if relay.records[relay.next].id == id {
        OwnRowBalances(s, r, answer, updated, id);
      } else {
        OtherRowBalances(s, r, answer, updated, id);
      }
    }
  }

  lemma CommitBalances(s: State, r: int, ok: bool, id: Id)
    requires Inv(s)
    ensures Balanced(s, Commit(r, ok), id)
  {
    var relay, t := RelayOf(s, r), Step(s, Commit(r, ok));
    if relay.Draining? && relay.next == |relay.records| {
      assert RelayOk(s.rows, s.log, relay);
      if id in relay.updates {
        assert Holds(relay, id);
        StagedAfter(s, t, r, id);
      } else {
        StagedUnchanged(s, t, r, id);
      }
    }
  }

  lemma CrashBalances(s: State, r: int, id: Id)
    requires Inv(s)
    ensures Balanced(s, Crash(r), id)
  {
    var t := Step(s, Crash(r));
    if Stages(RelayOf(s, r), id) {
      StagedAfter(s, t, r, id);
    } else {
      StagedUnchanged(s, t, r, id);
    }
  }

  lemma FetchBalances(s: State, r: int, page: seq<Id>, id: Id)
    requires Inv(s)
    ensures Balanced(s, Fetch(r, page), id)
  {
    var t := Step(s, Fetch(r, page));
    if t != s { StagedUnchanged(s, t, r, id); }
  }

  lemma StepBalances(s: State, a: Action, id: Id)
    requires Inv(s) && AllInTurn(s)
    ensures Balanced(s, a, id)
  {
    match a
    case Write(_, _) => assert Staged(Step(s, a), id) == Staged(s, id);
    case Fetch(r, page) => FetchBalances(s, r, page, id);
    case Publish(r, answer, updated) => PublishBalances(s, r, answer, updated, id);
    case Commit(r, ok) => CommitBalances(s, r, ok, id);
    case Crash(r) => CrashBalances(s, r, id);
  }

  /** In every reachable state the copies of a row in the topic are its strays, and one more if it is
      published or its publication waits for a commit. */
  lemma {:induction false} DeliveriesAreCounted(actions: seq<Action>, id: Id)
    ensures var s := Run(INIT, actions);
      Copies(s.log, id) == Strays(INIT, actions, id) + PublishedOnce(s, id) + StagedOnce(s, id)
  {
    if actions != [] {
      var init := actions[..|actions| - 1];
      DeliveriesAreCounted(init, id);
      RunKeepsInv(INIT, init);
      RunKeepsTurns(INIT, init);
      StepBalances(Run(INIT, init), actions[|actions| - 1], id);
    }
  }

  /** Exactly once, exactly when: a published row is in the topic once if and only if no delivery of
      it was a stray. */
  lemma DeliveredOnceIff(actions: seq<Action>, id: Id)
    requires id in Run(INIT, actions).rows && Run(INIT, actions).rows[id].status == Published
    ensures Copies(Run(INIT, actions).log, id) == 1 <==> Strays(INIT, actions, id) == 0
    ensures Copies(Run(INIT, actions).log, id) >= 1
  {
    var s := Run(INIT, actions);
    RunKeepsInv(INIT, actions);
    DeliveriesAreCounted(actions, id);
    if r :| r in s.relays && Stages(s.relays[r], id) { StagedIsHeld(s, r, id); }
  }

  /** A rolled-back drain publishes its row again: two copies of a published row. */
  lemma RollbackDeliversTwice(id: Id, created: int, r: int)
    ensures var drain := [Fetch(r, [id]), Publish(r, Sent, true)];
      var s := Run(INIT, [Write(id, created)] + drain + [Commit(r, false)] + drain + [Commit(r, true)]);
      s.log == [id, id] && s.rows == map[id := Row(created, Published, 1, false)]
  {
    var write := [Write(id, created)];
    var drain := [Fetch(r, [id]), Publish(r, Sent, true)];
    var s1 := Run(INIT, write);
    assert write[..0] == [] && Run(INIT, []) == INIT;
    assert s1 == State(map[id := Row(created, Pending, 0, false)], map[], [], map[]);
    RunAppend(INIT, write, drain);
    SoleRowDrains(s1, id, r, false);
    RunAppend(INIT, write + drain, [Commit(r, false)]);
    var s2 := Run(s1, drain + [Commit(r, false)]);
    RunAppend(s1, drain, [Commit(r, false)]);
    SoleRowDrains(s2, id, r, true);
    RunAppend(s2, drain, [Commit(r, true)]);
    var first := write + drain + [Commit(r, false)];
    RunAppend(INIT, first, drain);
    RunAppend(INIT, first + drain, [Commit(r, true)]);
  }

  /** One drain of a table with one untried row. */
  lemma SoleRowDrains(s: State, id: Id, r: int, ok: bool)
    requires s.rows.Keys == {id} && s.rows[id].status == Pending && s.rows[id].attempts == 0 && !s.rows[id].deadAt
    requires s.relays == map[] || s.relays == map[r := Idle]
    ensures var t := Run(s, [Fetch(r, [id]), Publish(r, Sent, true)] + [Commit(r, ok)]);
      && t.log == s.log + [id] && t.relays == map[r := Idle]
      && t.rows == if ok then map[id := Row(s.rows[id].created, Published, 1, false)] else s.rows
  {
    SoleRowFetched(s, id, r);
    SoleRowPublished(s, id, r);
    SoleRowCommitted(s, id, r, ok);
    RunThree(s, Fetch(r, [id]), Publish(r, Sent, true), Commit(r, ok));
  }

  /** The table with the one row fetched, and then published but not committed. */
  function Fetched(s: State, id: Id, r: int): State {
    s.(relays := map[r := Draining([Record(id, 0)], 0, map[], false)])
  }

  function Sole(s: State, id: Id, r: int): State
    requires id in s.rows
  {
    var row := Row(s.rows[id].created, Published, 1, false);
    s.(relays := map[r := Draining([Record(id, 0)], 1, map[id := row], false)], log := s.log + [id])
  }

  lemma SoleRowPublished(s: State, id: Id, r: int)
    requires s.rows.Keys == {id} && s.rows[id].status == Pending && s.rows[id].attempts == 0 && !s.rows[id].deadAt
    ensures Step(Fetched(s, id, r), Publish(r, Sent, true)) == Sole(s, id, r)
  {
    var t := Fetched(s, id, r);
    assert Step(t, Publish(r, Sent, true)) == PublishStep(t, r, t.relays[r], Sent, true);
  }

  lemma SoleRowCommitted(s: State, id: Id, r: int, ok: bool)
    requires s.rows.Keys == {id}
    ensures var t := Step(Sole(s, id, r), Commit(r, ok));
      && t.log == s.log + [id] && t.relays == map[r := Idle]
      && t.rows == if ok then map[id := Row(s.rows[id].created, Published, 1, false)] else s.rows
  {
    var t := Sole(s, id, r);
    assert Step(t, Commit(r, ok)) == CommitStep(t, r, t.relays[r], ok);
  }

  lemma SoleRowFetched(s: State, id: Id, r: int)
    requires s.rows.Keys == {id} && s.rows[id].status == Pending && s.rows[id].attempts == 0 && !s.rows[id].deadAt
    requires s.relays == map[] || s.relays == map[r := Idle]
    ensures Step(s, Fetch(r, [id])) == Fetched(s, id, r)
  {
    assert Locked(s) == {} && IsPage(s.rows, {}, [id]);
    assert Records(s.rows, [id]) == [Record(id, 0)];
  }

  lemma RunThree(s: State, a: Action, b: Action, c: Action)
    ensures Run(s, [a, b] + [c]) == Step(Step(Step(s, a), b), c)
  {
    assert [a, b] + [c] == [a, b, c] && [a, b, c][..2] == [a, b] && [a, b][..1] == [a] && [a][..0] == [];
    assert Run(s, []) == s && Run(s, [a]) == Step(s, a);
    assert Run(s, [a, b]) == Step(Step(s, a), b);
  }
}
