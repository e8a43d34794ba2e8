/** `drain` as imperative code over the live table. Between any two statements other relays and
    writers may take any steps. */
module OutboxRelay {
  import opened Outbox

  /** What surrounds one record: the others' steps before it, Publish's answer, and whether the
      statement recording it succeeds. */
  datatype Env = Env(others: seq<Action>, answer: Answer, updated: bool)

  predicate NotBy(r: int, a: Action) {
    match a
    case Write(_, _) => true
    case Fetch(q, _) => q != r
    case Publish(q, _, _) => q != r
    case Commit(q, _) => q != r
    case Crash(q) => q != r
  }

  lemma OtherStepLeavesHeldRows(s: State, a: Action, r: int)
    requires Inv(s) && NotBy(r, a)
    ensures RelayOf(Step(s, a), r) == RelayOf(s, r)
    ensures forall id :: id in s.rows && Holds(RelayOf(s, r), id) ==>
      id in Step(s, a).rows && Step(s, a).rows[id] == s.rows[id]
  {
    if a.Commit? && a.r in s.relays && s.relays[a.r].Draining? {
      forall id | id in s.rows && Holds(RelayOf(s, r), id)
        ensures id !in s.relays[a.r].updates
      {
      }
    }
  }

  /** A row lock keeps the row: nobody else changes it, whatever they do meanwhile. */
  lemma {:induction false} OthersLeaveHeldRows(s: State, others: seq<Action>, r: int)
    requires Inv(s) && forall a :: a in others ==> NotBy(r, a)
    ensures RelayOf(Run(s, others), r) == RelayOf(s, r)
    ensures forall id :: id in s.rows && Holds(RelayOf(s, r), id) ==>
      id in Run(s, others).rows && Run(s, others).rows[id] == s.rows[id]
  {
    if others != [] {
      var n := |others| - 1;
      OthersLeaveHeldRows(s, others[..n], r);
      RunKeepsInv(s, others[..n]);
      OtherStepLeavesHeldRows(Run(s, others[..n]), others[n], r);
    }
  }

  /** The relay has tried the first `n` rows of its page; unless its transaction is aborted, the
      staged updates are exactly their outcomes. */
  ghost predicate Tried(s: State, r: int, rows: map<Id, Row>, page: seq<Id>, env: nat -> Env, n: nat)
    requires n <= |page| && forall i :: 0 <= i < |page| ==> page[i] in rows
  {
    var relay := RelayOf(s, r);
    && relay.Draining? && relay.next == n && relay.records == Records(rows, page)
    && (forall i :: 0 <= i < |page| ==> page[i] in s.rows && s.rows[page[i]] == rows[page[i]])
    && (!relay.aborted ==> Staged(relay.updates, rows, page, env, n))
  }

  ghost predicate Staged(updates: map<Id, Row>, rows: map<Id, Row>, page: seq<Id>, env: nat -> Env, n: nat)
    requires n <= |page| && forall i :: 0 <= i < |page| ==> page[i] in rows
  {
    && (forall id :: id in updates <==> id in page[..n])
    && (forall i :: 0 <= i < n ==> env(i).updated)
    && (forall i :: 0 <= i < n ==>
          updates[page[i]] == Attempted(rows[page[i]], rows[page[i]].attempts, env(i).answer == Sent))
  }

  lemma PublishTries(s: State, r: int, rows: map<Id, Row>, page: seq<Id>, env: nat -> Env, n: nat)
    requires n < |page| && forall i :: 0 <= i < |page| ==> page[i] in rows
    requires forall i, j :: 0 <= i < j < |page| ==> page[i] != page[j]
    requires Tried(s, r, rows, page, env, n)
    ensures Tried(PublishStep(s, r, RelayOf(s, r), env(n).answer, env(n).updated), r, rows, page, env, n + 1)
  {
    assert page[..n + 1] == page[..n] + [page[n]];
    assert forall i :: 0 <= i < n ==> page[i] in page[..n];
  }

  lemma OthersKeepTried(s: State, others: seq<Action>, r: int, rows: map<Id, Row>, page: seq<Id>,
      env: nat -> Env, n: nat)
    requires Inv(s) && forall a :: a in others ==> NotBy(r, a)
    requires n <= |page| && forall i :: 0 <= i < |page| ==> page[i] in rows
    requires Tried(s, r, rows, page, env, n)
    ensures Tried(Run(s, others), r, rows, page, env, n)
  {
    OthersLeaveHeldRows(s, others, r);
    HoldsPage(rows, page, RelayOf(s, r));
  }

  /** What a commit of the fully tried page would leave: each row with its one attempt. */
  lemma TriedOutcome(s: State, r: int, rows: map<Id, Row>, page: seq<Id>, env: nat -> Env)
    requires forall i :: 0 <= i < |page| ==> page[i] in rows
    requires Tried(s, r, rows, page, env, |page|)
    ensures var relay := RelayOf(s, r);
      && relay.next == |relay.records|
      && (forall i :: 0 <= i < |page| ==> page[i] in s.rows && s.rows[page[i]] == rows[page[i]])
      && (!relay.aborted ==>
            forall i :: 0 <= i < |page| ==>
              && env(i).updated && page[i] in relay.updates
              && relay.updates[page[i]] == Attempted(rows[page[i]], rows[page[i]].attempts, env(i).answer == Sent))
  {
    assert page[..|page|] == page;
  }

  class OutboxTable {
    var rows: map<Id, Row>
    var relays: map<int, Relay>
    var log: seq<Id>
    var failures: map<Id, nat>

    constructor ()
      ensures Model() == INIT
    {
      rows, relays, log, failures := map[], map[], [], map[];
    }

    function Model(): State
      reads this
    {
      State(rows, relays, log, failures)
    }

    /** WriteTx, seen at its commit: a pending row with no attempts. */
    method WriteTx(id: Id, created: int)
      requires id !in rows && Inv(Model())
      modifies this
      ensures Model() == Step(old(Model()), Write(id, created)) && Inv(Model())
      ensures rows == old(rows)[id := Row(created, Pending, 0, false)] && Eligible(rows[id])
    {
      WriteKeepsInv(Model(), id, created);
      rows := rows[id := Row(created, Pending, 0, false)];
    }

    method Meanwhile(r: int, others: seq<Action>)
      requires Inv(Model()) && forall a :: a in others ==> NotBy(r, a)
      modifies this
      ensures Model() == Run(old(Model()), others) && Inv(Model())
      ensures RelayOf(Model(), r) == old(RelayOf(Model(), r))
      ensures forall id :: id in old(rows) && Holds(RelayOf(Model(), r), id) ==> id in rows && rows[id] == old(rows)[id]
    {
      OthersLeaveHeldRows(Model(), others, r);
      RunKeepsInv(Model(), others);
      var t := Run(Model(), others);
      rows, relays, log, failures := t.rows, t.relays, t.log, t.failures;
    }

    /** Stages one UPDATE in the relay's transaction, or aborts the transaction if it fails. */
    method UpdateRecord(r: int, id: Id, status: Status, attempts: int, isDead: bool, updated: bool)
      requires r in relays && relays[r].Draining? && id in rows
      modifies this`relays
      ensures var relay := old(relays[r]);
        relays == old(relays)[r :=
          if relay.aborted || !updated then
            relay.(aborted := true)
          else
            relay.(updates := relay.updates[id := Row(rows[id].created, status, attempts, isDead || rows[id].deadAt)])]
    {
      var relay := relays[r];
      if relay.aborted || !updated {
        relays := relays[r := relay.(aborted := true)];
      } else {
        var row := rows[id].(status := status, attempts := attempts);
        if isDead {
          row := row.(deadAt := true);
        }
        relays := relays[r := relay.(updates := relay.updates[id := row])];
      }
    }

    /** Publishes the next record and stages its new status. */
    method PublishNext(r: int, answer: Answer, updated: bool)
      requires Inv(Model()) && RelayOf(Model(), r).Draining?
      requires RelayOf(Model(), r).next < |RelayOf(Model(), r).records|
      modifies this
      ensures Model() == Step(old(Model()), Publish(r, answer, updated)) && Inv(Model())
    {
      PublishKeepsInv(Model(), r, RelayOf(Model(), r), answer, updated);
      var rec := relays[r].records[relays[r].next];
      assert RelayOk(rows, log, relays[r]);
      if answer != Lost {
        log := log + [rec.id];
      }
      StageOutcome(r, rec, answer, updated);
      relays := relays[r := relays[r].(next := relays[r].next + 1)];
    }

    /** A failed publish marks the record failed, or dead at the last attempt. */
    method StageOutcome(r: int, rec: Record, answer: Answer, updated: bool)
      requires r in relays && relays[r].Draining? && rec.id in rows && !rows[rec.id].deadAt
      modifies this`relays
      ensures var relay := old(relays[r]);
        relays == old(relays)[r :=
          if relay.aborted || !updated then
            relay.(aborted := true)
          else
            relay.(updates := relay.updates[rec.id := Attempted(rows[rec.id], rec.attempts, answer == Sent)])]
    {
      if answer != Sent {
        var newAttempts := rec.attempts + 1;
        if newAttempts >= MAX_ATTEMPTS {
          UpdateRecord(r, rec.id, Dead, newAttempts, true, updated);
        } else {
          UpdateRecord(r, rec.id, Failed, newAttempts, false, updated);
        }
      } else {
        UpdateRecord(r, rec.id, Published, rec.attempts + 1, false, updated);
      }
    }

    /** One drain of the page the query returned. It is a run of the state machine; every row of the
        page counts exactly one attempt if the transaction commits and none otherwise, whatever the
        other relays did in the meantime. */
    method Drain(r: int, page: seq<Id>, env: nat -> Env, commitOk: bool)
      returns (committed: bool, ghost trace: seq<Action>)
      requires Inv(Model()) && RelayOf(Model(), r).Idle? && IsPage(rows, Locked(Model()), page)
      requires forall n, a :: a in env(n).others ==> NotBy(r, a)
      modifies this
      ensures Model() == Run(old(Model()), trace) && Inv(Model())
      ensures RelayOf(Model(), r).Idle?
      ensures committed ==> commitOk && forall i :: 0 <= i < |page| ==> env(i).updated
      ensures forall i :: 0 <= i < |page| ==> page[i] in rows && page[i] in old(rows)
      ensures committed ==> forall i :: 0 <= i < |page| ==>
        rows[page[i]] == Attempted(old(rows)[page[i]], old(rows)[page[i]].attempts, env(i).answer == Sent)
      ensures !committed ==> forall i :: 0 <= i < |page| ==> rows[page[i]] == old(rows)[page[i]]
    {
      committed, trace := false, [];
      if page == [] {
        return;
      }
      ghost var s0 := Model();
      RunStep(s0, [], Fetch(r, page));
      FetchPage(r, page, env);
      trace := [] + [Fetch(r, page)];
      ghost var next := TryAll(r, s0.rows, page, env);
      RunAppend(s0, trace, next);
      trace := trace + next;
      RunStep(s0, trace, Commit(r, commitOk));
      TriedOutcome(Model(), r, s0.rows, page, env);
      committed := CommitDrain(r, commitOk);
      trace := trace + [Commit(r, commitOk)];
    }

    /** The loop over the page. */
    method TryAll(r: int, ghost rows0: map<Id, Row>, page: seq<Id>, env: nat -> Env) returns (ghost trace: seq<Action>)
      requires Inv(Model()) && forall i :: 0 <= i < |page| ==> page[i] in rows0
      requires forall i, j :: 0 <= i < j < |page| ==> page[i] != page[j]
      requires Tried(Model(), r, rows0, page, env, 0)
      requires forall n, a :: a in env(n).others ==> NotBy(r, a)
      modifies this
      ensures Model() == Run(old(Model()), trace) && Inv(Model())
      ensures Tried(Model(), r, rows0, page, env, |page|)
    {
      ghost var s0 := Model();
      trace := [];
      var n := 0;
      while n < |page|
        invariant 0 <= n <= |page|
        invariant Model() == Run(s0, trace) && Inv(Model())
        invariant Tried(Model(), r, rows0, page, env, n)
      {
        ghost var next := TryNext(r, rows0, page, env, n);
        RunAppend(s0, trace, next);
        trace := trace + next;
        n := n + 1;
      }
    }

    /** The query: the page's rows are locked and their attempts known. */
    method FetchPage(r: int, page: seq<Id>, ghost env: nat -> Env)
      requires Inv(Model()) && RelayOf(Model(), r).Idle? && IsPage(rows, Locked(Model()), page) && page != []
      modifies this`relays
      ensures Model() == Step(old(Model()), Fetch(r, page)) && Inv(Model())
      ensures Tried(Model(), r, rows, page, env, 0)
    {
      FetchKeepsInv(Model(), r, page);
      relays := relays[r := Draining(Records(rows, page), 0, map[], false)];
    }

    /** The body of the loop, after what others did before it. */
    method TryNext(r: int, ghost rows0: map<Id, Row>, ghost page: seq<Id>, env: nat -> Env, n: nat)
      returns (ghost trace: seq<Action>)
      requires Inv(Model()) && n < |page| && forall i :: 0 <= i < |page| ==> page[i] in rows0
      requires forall i, j :: 0 <= i < j < |page| ==> page[i] != page[j]
      requires Tried(Model(), r, rows0, page, env, n)
      requires forall a :: a in env(n).others ==> NotBy(r, a)
      modifies this
      ensures Model() == Run(old(Model()), trace) && Inv(Model())
      ensures Tried(Model(), r, rows0, page, env, n + 1)
    {
      ghost var s0 := Model();
      OthersKeepTried(s0, env(n).others, r, rows0, page, env, n);
      Meanwhile(r, env(n).others);
      RunStep(s0, env(n).others, Publish(r, env(n).answer, env(n).updated));
      PublishTries(Model(), r, rows0, page, env, n);
      PublishNext(r, env(n).answer, env(n).updated);
      trace := env(n).others + [Publish(r, env(n).answer, env(n).updated)];
    }

    /** Commits the staged updates, or rolls back if the transaction is aborted or the commit fails. */
    method CommitDrain(r: int, commitOk: bool) returns (committed: bool)
      requires Inv(Model()) && RelayOf(Model(), r).Draining?
      requires RelayOf(Model(), r).next == |RelayOf(Model(), r).records|
      modifies this
      ensures Model() == Step(old(Model()), Commit(r, commitOk)) && Inv(Model())
      ensures RelayOf(Model(), r).Idle?
      ensures committed <==> commitOk && !old(RelayOf(Model(), r)).aborted
      ensures rows == if committed then old(rows) + old(RelayOf(Model(), r)).updates else old(rows)
    {
      var relay := relays[r];
      CommitKeepsInv(Model(), r, relay, commitOk);
      committed := commitOk && !relay.aborted;
      if committed {
        rows := rows + relay.updates;
        failures := map id | id in failures.Keys + relay.updates.Keys ::
          FailuresOf(failures, id) +
          if id in relay.updates && relay.updates[id].status != Published then 1 else 0;
      }
      relays := relays[r := Idle];
    }
  }

  lemma HoldsPage(rows: map<Id, Row>, page: seq<Id>, relay: Relay)
    requires forall i :: 0 <= i < |page| ==> page[i] in rows
    requires relay.Draining? && relay.records == Records(rows, page)
    ensures forall i :: 0 <= i < |page| ==> Holds(relay, page[i])
  {
    forall i | 0 <= i < |page|
      ensures Holds(relay, page[i])
    {
      assert relay.records[i].id == page[i];
    }
  }
}
