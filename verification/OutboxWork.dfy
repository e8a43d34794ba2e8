/** How much work the relays do in any interleaving: every row of every committed drain is one attempt
    that the table records, so the attempts bound the drains. */
module OutboxWork {
  import opened Wrappers
  import opened Outbox

  type Table = map<Id, Row>

  /** The step commits a drain. */
  predicate Commits(s: State, a: Action) {
    a.Commit? && a.ok && RelayOf(s, a.r).Draining?
    && RelayOf(s, a.r).next == |RelayOf(s, a.r).records| && !RelayOf(s, a.r).aborted
  }

  /** The drains a run commits, and the rows they settle or put off. */
  function CommittedDrains(s: State, actions: seq<Action>): nat {
    if actions == [] then
      0
    else
      var init := actions[..|actions| - 1];
      CommittedDrains(s, init) + if Commits(Run(s, init), actions[|actions| - 1]) then 1 else 0
  }

  function CommittedRows(s: State, actions: seq<Action>): nat {
    if actions == [] then
      0
    else
      var init, a := actions[..|actions| - 1], actions[|actions| - 1];
      CommittedRows(s, init) + if Commits(Run(s, init), a) then |RelayOf(Run(s, init), a.r).updates| else 0
  }

  // ---------------------------------------------------------------- a committed drain is never empty

  /** A relay has rows to try, and unless its transaction is aborted it has staged those it tried. */
  ghost predicate Staging(relay: Relay) {
    relay.Draining? ==>
      && relay.records != []
      && (!relay.aborted ==>
            forall i :: 0 <= i < relay.next && i < |relay.records| ==> relay.records[i].id in relay.updates)
  }

  ghost predicate AllStaging(s: State) {
    forall r :: r in s.relays ==> Staging(s.relays[r])
  }

  lemma StepKeepsStaging(s: State, a: Action)
    requires AllStaging(s)
    ensures AllStaging(Step(s, a))
  {
  }

  lemma {:induction false} RunKeepsStaging(actions: seq<Action>)
    ensures AllStaging(Run(INIT, actions))
  {
    if actions != [] {
      RunKeepsStaging(actions[..|actions| - 1]);
      StepKeepsStaging(Run(INIT, actions[..|actions| - 1]), actions[|actions| - 1]);
    }
  }

  lemma CommitIsNotEmpty(s: State, a: Action)
    requires AllStaging(s) && Commits(s, a)
    ensures |RelayOf(s, a.r).updates| >= 1
  {
    var relay := RelayOf(s, a.r);
    assert Staging(relay);
    assert relay.records[0].id in relay.updates.Keys;
    assert |relay.updates.Keys| == |relay.updates|;
  }

  // ---------------------------------------------------------------- the attempts in the table

  ghost function Attempts(rows: Table, ids: set<Id>): int
    requires ids <= rows.Keys
  {
    if ids == {} then 0 else rows[AnyOf(ids)].attempts + Attempts(rows, ids - {AnyOf(ids)})
  }

  lemma {:induction false} AttemptsSplit(rows: Table, ids: set<Id>, id: Id)
    requires ids <= rows.Keys && id in ids
    ensures Attempts(rows, ids) == rows[id].attempts + Attempts(rows, ids - {id})
  {
    var first := AnyOf(ids);
    if first != id {
      AttemptsSplit(rows, ids - {first}, id);
      AttemptsSplit(rows, ids - {id}, first);
      assert ids - {first} - {id} == ids - {id} - {first};
    }
  }

  /** One more attempt for each of some rows. */
  lemma {:induction false} AttemptsGrow(before: Table, after: Table, ids: set<Id>, tried: set<Id>)
    requires ids <= before.Keys && ids <= after.Keys
    requires forall id :: id in ids ==> after[id].attempts == before[id].attempts + if id in tried then 1 else 0
    ensures Attempts(after, ids) == Attempts(before, ids) + |ids * tried|
  {
    if ids != {} {
      var id := AnyOf(ids);
      AttemptsGrow(before, after, ids - {id}, tried);
      if id in tried {
        assert ids * tried == (ids - {id}) * tried + {id};
      } else {
        assert ids * tried == (ids - {id}) * tried;
      }
    }
  }

  lemma {:induction false} AttemptsBounded(rows: Table, ids: set<Id>)
    requires ids <= rows.Keys && forall id :: id in ids ==> rows[id].attempts <= MAX_ATTEMPTS
    ensures Attempts(rows, ids) <= MAX_ATTEMPTS * |ids|
  {
    if ids != {} {
      var id := AnyOf(ids);
      AttemptsBounded(rows, ids - {id});
      assert rows[id].attempts <= MAX_ATTEMPTS && |ids| == |ids - {id}| + 1;
    }
  }

  lemma WriteAddsNone(s: State, id: Id, created: int)
    ensures var t := Step(s, Write(id, created));
      Attempts(t.rows, t.rows.Keys) == Attempts(s.rows, s.rows.Keys)
  {
    var t := Step(s, Write(id, created));
    if t != s {
      AttemptsSplit(t.rows, t.rows.Keys, id);
      assert t.rows.Keys - {id} == s.rows.Keys;
      AttemptsGrow(s.rows, t.rows, s.rows.Keys, {});
      assert s.rows.Keys * {} == {};
    }
  }

  lemma UpdateCountsOne(rows: Table, log: seq<Id>, relay: Relay, id: Id)
    requires RelayOk(rows, log, relay) && relay.Draining? && id in rows
    ensures (rows + relay.updates)[id].attempts == rows[id].attempts + if id in relay.updates.Keys then 1 else 0
  {
    if id in relay.updates {
      var sent :| relay.updates[id] == Attempted(rows[id], rows[id].attempts, sent) && (sent ==> id in log);
    }
  }

  lemma UpdatesAdd(rows: Table, log: seq<Id>, relay: Relay)
    requires RelayOk(rows, log, relay) && relay.Draining?
    ensures var t := rows + relay.updates;
      Attempts(t, t.Keys) == Attempts(rows, rows.Keys) + |relay.updates|
  {
    var t := rows + relay.updates;
    forall id | id in relay.updates.Keys
      ensures id in rows.Keys
    {
    }
    assert t.Keys == rows.Keys + relay.updates.Keys == rows.Keys;
    forall id | id in rows
      ensures t[id].attempts == rows[id].attempts + if id in relay.updates.Keys then 1 else 0
    {
      UpdateCountsOne(rows, log, relay, id);
    }
    AttemptsGrow(rows, t, rows.Keys, relay.updates.Keys);
    assert rows.Keys * relay.updates.Keys == relay.updates.Keys;
    assert |relay.updates.Keys| == |relay.updates|;
  }

  /** A committed drain adds one attempt for each of its rows. */
  lemma CommitAdds(s: State, a: Action)
    requires Inv(s) && Commits(s, a)
    ensures var t := Step(s, a);
      Attempts(t.rows, t.rows.Keys) == Attempts(s.rows, s.rows.Keys) + |RelayOf(s, a.r).updates|
  {
    var relay := RelayOf(s, a.r);
    assert Step(s, a).rows == s.rows + relay.updates;
    UpdatesAdd(s.rows, s.log, relay);
  }

  lemma StepAdds(s: State, a: Action)
    requires Inv(s)
    ensures var t := Step(s, a);
      Attempts(t.rows, t.rows.Keys) ==
      Attempts(s.rows, s.rows.Keys) + if Commits(s, a) then |RelayOf(s, a.r).updates| else 0
  {
    if Commits(s, a) {
      CommitAdds(s, a);
    } else if a.Write? {
      WriteAddsNone(s, a.id, a.created);
    } else {
      assert Step(s, a).rows == s.rows;
    }
  }

  /** In every reachable state the attempts in the table are the rows of all committed drains. */
  lemma {:induction false} AttemptsAreCommitted(actions: seq<Action>)
    ensures var s := Run(INIT, actions);
      Attempts(s.rows, s.rows.Keys) == CommittedRows(INIT, actions)
  {
    if actions != [] {
      var init := actions[..|actions| - 1];
      AttemptsAreCommitted(init);
      RunKeepsInv(INIT, init);
      StepAdds(Run(INIT, init), actions[|actions| - 1]);
    }
  }

  lemma {:induction false} DrainsAreWork(actions: seq<Action>)
    ensures CommittedDrains(INIT, actions) <= CommittedRows(INIT, actions)
  {
    if actions != [] {
      var init, a := actions[..|actions| - 1], actions[|actions| - 1];
      DrainsAreWork(init);
      RunKeepsStaging(init);
      if Commits(Run(INIT, init), a) { CommitIsNotEmpty(Run(INIT, init), a); }
    }
  }

  /** In any interleaving of any number of relays and writers: for n rows ever written the committed
      drains try at most 5n rows in all, and so at most 5n drains ever commit. */
  lemma WorkIsBounded(actions: seq<Action>)
    ensures var n := |Run(INIT, actions).rows|;
      CommittedDrains(INIT, actions) <= CommittedRows(INIT, actions) <= MAX_ATTEMPTS * n
  {
    var s := Run(INIT, actions);
    AttemptsAreCommitted(actions);
    DrainsAreWork(actions);
    RunKeepsInv(INIT, actions);
    forall id | id in s.rows.Keys
      ensures s.rows[id].attempts <= MAX_ATTEMPTS
    {
      assert RowOk(id, s.rows[id], FailuresOf(s.failures, id), s.log);
    }
    AttemptsBounded(s.rows, s.rows.Keys);
    assert |s.rows.Keys| == |s.rows|;
  }
}
