/** Policy mutations and their events. A mutation changes one row and writes one outbox row in the
    same transaction; any number of transactions interleave under row locks, and each may fail or
    roll back at any statement. */
module PolicyChanges {
  import opened Wrappers

  type Id = int

  datatype Kind = Created | Updated | Deleted

  datatype Row = Row(org: string, version: int)

  /** An outbox row of topic policy.changes. */
  datatype Event = Event(org: string, policy: Id, kind: Kind)

  datatype Change = Change(kind: Kind, org: string, policy: Id)

  /** A transaction: begun; holding its row with the change staged; and with the event staged too.
      `row` is the staged row, absent for a deletion. */
  datatype Tx =
    | Idle
    | Open(change: Change)
    | Staged(change: Change, row: Option<Row>)
    | Ready(change: Change, row: Option<Row>)

  /** `policies` and `outbox` are committed. `last` is history: the last committed row of every
      policy that ever existed. */
  datatype State = State(policies: map<Id, Row>, outbox: seq<Event>, txs: map<int, Tx>, last: map<Id, Row>)

  datatype Action =
    | Begin(t: int, change: Change, valid: bool)
    | Mutate(t: int, ok: bool)
    | Publish(t: int, ok: bool)
    | Commit(t: int, outcome: Outcome)
    | Rollback(t: int)

  const INIT := State(map[], [], map[], map[])

  function TxOf(s: State, t: int): Tx {
    if t in s.txs then s.txs[t] else Idle
  }

  function With(s: State, t: int, tx: Tx): State {
    s.(txs := s.txs[t := tx])
  }

  predicate Holds(tx: Tx, policy: Id) {
    (tx.Staged? || tx.Ready?) && tx.change.policy == policy
  }

  predicate Locked(s: State, policy: Id) {
    exists t :: t in s.txs && Holds(s.txs[t], policy)
  }

  /** The row the statement produces, or None when it affects no row (a new id is always fresh). */
  function Mutated(s: State, change: Change): Option<Option<Row>> {
    match change.kind
    case Created => if change.policy in s.last then None else Some(Some(Row(change.org, 1)))
    case Updated =>
      if change.policy in s.policies && s.policies[change.policy].org == change.org then
        Some(Some(s.policies[change.policy].(version := s.policies[change.policy].version + 1)))
      else None
    case Deleted =>
      if change.policy in s.policies && s.policies[change.policy].org == change.org then Some(None) else None
  }

  function Applied(policies: map<Id, Row>, policy: Id, row: Option<Row>): map<Id, Row> {
    match row
    case Some(r) => policies[policy := r]
    case None => policies - {policy}
  }

  function CommitStep(s: State, t: int, tx: Tx): State
    requires tx.Ready?
  {
    var change := tx.change;
    With(s.(policies := Applied(s.policies, change.policy, tx.row),
            outbox := s.outbox + [Event(change.org, change.policy, change.kind)],
            last := if tx.row.Some? then s.last[change.policy := tx.row.value] else s.last), t, Idle)
  }

  /** One atomic step; an action that is not enabled changes nothing. A statement on a locked row
      waits; an error at any point rolls the transaction back. */
  function Step(s: State, a: Action): State {
    var tx := TxOf(s, a.t);
    match a
    case Begin(t, change, valid) =>
      if tx.Idle? && (valid || change.kind == Deleted) then With(s, t, Open(change)) else s
    case Mutate(t, ok) =>
      if !tx.Open? || Locked(s, tx.change.policy) then s
      else if !ok || Mutated(s, tx.change).None? then With(s, t, Idle)
      else With(s, t, Staged(tx.change, Mutated(s, tx.change).value))
    case Publish(t, ok) =>
      if !tx.Staged? then s else With(s, t, if ok then Ready(tx.change, tx.row) else Idle)
    case Commit(t, outcome) =>
      if !tx.Ready? then s else if outcome != NotApplied then CommitStep(s, t, tx) else With(s, t, Idle)
    case Rollback(t) => With(s, t, Idle)
  }

  function Run(s: State, actions: seq<Action>): State {
    if actions == [] then s else Step(Run(s, actions[..|actions| - 1]), actions[|actions| - 1])
  }

  lemma RunStep(s: State, trace: seq<Action>, a: Action)
    ensures Run(s, trace + [a]) == Step(Run(s, trace), a)
  {
    assert (trace + [a])[..|trace|] == trace;
  }

  lemma {:induction false} RunAppend(s: State, a: seq<Action>, b: seq<Action>)
    ensures Run(s, a + b) == Run(Run(s, a), b)
  {
    if b == [] {
      assert a + b == a;
    } else {
      var n := |b| - 1;
      assert (a + b)[..|a + b| - 1] == a + b[..n];
      RunAppend(s, a, b[..n]);
    }
  }

  // ---------------------------------------------------------------- events and versions agree

  /** How many outbox rows of this kind a policy has. */
  function Count(outbox: seq<Event>, policy: Id, kind: Kind): nat {
    if outbox == [] then
      0
    else
      var last := outbox[|outbox| - 1];
      Count(outbox[..|outbox| - 1], policy, kind) + if last.policy == policy && last.kind == kind then 1 else 0
  }

  lemma CountAppend(outbox: seq<Event>, e: Event, policy: Id, kind: Kind)
    ensures Count(outbox + [e], policy, kind) ==
      Count(outbox, policy, kind) + if e.policy == policy && e.kind == kind then 1 else 0
  {
    assert (outbox + [e])[..|outbox|] == outbox;
  }

  /** One created event, one updated event per version gained, one deleted event iff it is gone. */
  ghost predicate EventsMatch(s: State, policy: Id) {
    if policy in s.last then
      && Count(s.outbox, policy, Created) == 1
      && Count(s.outbox, policy, Updated) == s.last[policy].version - 1
      && Count(s.outbox, policy, Deleted) == (if policy in s.policies then 0 else 1)
      && (policy in s.policies ==> s.policies[policy] == s.last[policy])
    else
      && policy !in s.policies
      && (forall kind :: Count(s.outbox, policy, kind) == 0)
  }

  /** A staged change is what the statement yields on the present tables: its row is locked. */
  ghost predicate TxOk(s: State, tx: Tx) {
    tx.Staged? || tx.Ready? ==> Mutated(s, tx.change) == Some(tx.row)
  }

  ghost predicate EventOk(s: State, e: Event) {
    e.policy in s.last && e.org == s.last[e.policy].org
  }

  ghost predicate Inv(s: State) {
    && (forall policy :: EventsMatch(s, policy))
    && (forall t :: t in s.txs ==> TxOk(s, s.txs[t]))
    && (forall t, u, policy :: t in s.txs && u in s.txs && Holds(s.txs[t], policy) && Holds(s.txs[u], policy) ==>
          t == u)
    && (forall i :: 0 <= i < |s.outbox| ==> EventOk(s, s.outbox[i]))
  }

  lemma CommitMatches(s: State, t: int, tx: Tx, policy: Id)
    requires Inv(s) && tx == TxOf(s, t) && tx.Ready?
    ensures EventsMatch(CommitStep(s, t, tx), policy)
  {
    var change := tx.change;
    var e := Event(change.org, change.policy, change.kind);
    assert TxOk(s, tx) && EventsMatch(s, policy);
    forall kind { CountAppend(s.outbox, e, policy, kind); }
  }

  lemma CommitLeavesTx(s: State, t: int, tx: Tx, v: int)
    requires Inv(s) && tx == TxOf(s, t) && tx.Ready? && v in s.txs && v != t
    ensures TxOk(CommitStep(s, t, tx), s.txs[v])
  {
    if s.txs[v].Staged? || s.txs[v].Ready? {
      assert TxOk(s, tx) && TxOk(s, s.txs[v]);
      assert Holds(s.txs[v], s.txs[v].change.policy) && Holds(tx, tx.change.policy);
    }
  }

  lemma CommitKeepsInv(s: State, t: int, tx: Tx)
    requires Inv(s) && tx == TxOf(s, t) && tx.Ready?
    ensures Inv(CommitStep(s, t, tx))
  {
    var u := CommitStep(s, t, tx);
    assert TxOk(s, tx) && EventsMatch(s, tx.change.policy);
    forall policy { CommitMatches(s, t, tx, policy); }
    forall v | v in u.txs
      ensures TxOk(u, u.txs[v])
    {
      if v != t { CommitLeavesTx(s, t, tx, v); }
    }
    forall i | 0 <= i < |u.outbox|
      ensures EventOk(u, u.outbox[i])
    {
      if i < |s.outbox| { assert EventOk(s, s.outbox[i]); }
    }
  }

  /** Steps that only move one transaction. */
  lemma MoveKeepsInv(s: State, t: int, tx: Tx)
    requires Inv(s) && TxOk(s, tx)
    requires forall policy :: Holds(tx, policy) ==> !Locked(s, policy) || (t in s.txs && Holds(s.txs[t], policy))
    ensures Inv(With(s, t, tx))
  {
    var u := With(s, t, tx);
    forall policy
      ensures EventsMatch(u, policy)
    {
      assert EventsMatch(s, policy);
    }
    forall v | v in u.txs
      ensures TxOk(u, u.txs[v])
    {
      assert v != t ==> TxOk(s, s.txs[v]);
    }
  }

  lemma StepKeepsInv(s: State, a: Action)
    requires Inv(s)
    ensures Inv(Step(s, a))
  {
    var tx := TxOf(s, a.t);
    if Step(s, a) != s {
      if a.Commit? && a.outcome != NotApplied {
        CommitKeepsInv(s, a.t, tx);
      } else {
        assert tx.Staged? ==> TxOk(s, tx);
        MoveKeepsInv(s, a.t, TxOf(Step(s, a), a.t));
      }
    }
  }

  lemma {:induction false} RunKeepsInv(s: State, actions: seq<Action>)
    requires Inv(s)
    ensures Inv(Run(s, actions))
  {
    if actions != [] {
      var n := |actions| - 1;
      RunKeepsInv(s, actions[..n]);
      StepKeepsInv(Run(s, actions[..n]), actions[n]);
    }
  }

  /** In every reachable state, whatever committed or rolled back: a policy that ever existed has
      exactly one policy.created row, one policy.updated row per version it gained, and a
      policy.deleted row exactly when it is gone; nothing else has any row, and every row carries
      its policy's organisation. */
  lemma EventsMatchVersions(actions: seq<Action>, policy: Id)
    ensures var s := Run(INIT, actions);
      && EventsMatch(s, policy)
      && forall e :: e in s.outbox ==> EventOk(s, e)
  {
    assert Inv(INIT);
    RunKeepsInv(INIT, actions);
    assert EventsMatch(Run(INIT, actions), policy);
  }

  /** Versions only grow, and a deleted policy never comes back. */
  lemma {:induction false} VersionsOnlyGrow(s: State, actions: seq<Action>, policy: Id)
    requires Inv(s) && policy in s.last
    ensures var t := Run(s, actions);
      && policy in t.last && t.last[policy].version >= s.last[policy].version
      && (policy !in s.policies ==> policy !in t.policies && t.last[policy] == s.last[policy])
  {
    if actions != [] {
      var n := |actions| - 1;
      var u := Run(s, actions[..n]);
      VersionsOnlyGrow(s, actions[..n], policy);
      RunKeepsInv(s, actions[..n]);
      assert EventsMatch(u, policy);
      assert TxOf(u, actions[n].t).Ready? ==> TxOk(u, TxOf(u, actions[n].t));
    }
  }

  // ---------------------------------------------------------------- the three operations

  predicate NotBy(t: int, a: Action) {
    a.t != t
  }

  ghost predicate Leaves(t: int, others: seq<Action>) {
    forall a :: a in others ==> NotBy(t, a)
  }

  lemma {:induction false} OthersLeaveTx(s: State, others: seq<Action>, t: int)
    requires Leaves(t, others)
    ensures TxOf(Run(s, others), t) == TxOf(s, t)
  {
    if others != [] {
      OthersLeaveTx(s, others[..|others| - 1], t);
      assert NotBy(t, others[|others| - 1]);
    }
  }

  /** No commit of this transaction that reaches the database is in the trace. */
  ghost predicate Uncommitted(t: int, trace: seq<Action>) {
    forall i :: 0 <= i < |trace| ==> !(trace[i].t == t && trace[i].Commit? && trace[i].outcome != NotApplied)
  }

  /** The tables are only changed by others. */
  ghost predicate ChangedByOthersOnly(t: int, s: State, trace: seq<Action>) {
    forall i :: 0 <= i < |trace| ==> trace[i].t == t ==> SameTables(Run(s, trace[..i]), Run(s, trace[..i + 1]))
  }

  predicate SameTables(s: State, t: State) {
    s.policies == t.policies && s.outbox == t.outbox && s.last == t.last
  }

  lemma UncommittedChangesNothing(t: int, s: State, trace: seq<Action>)
    requires Uncommitted(t, trace)
    ensures ChangedByOthersOnly(t, s, trace)
  {
    forall i | 0 <= i < |trace| && trace[i].t == t
      ensures SameTables(Run(s, trace[..i]), Run(s, trace[..i + 1]))
    {
      assert trace[..i + 1] == trace[..i] + [trace[i]];
      RunStep(s, trace[..i], trace[i]);
    }
  }

  lemma OthersAreUncommitted(t: int, others: seq<Action>)
    requires Leaves(t, others)
    ensures Uncommitted(t, others)
  {
    forall i | 0 <= i < |others|
      ensures others[i].t != t
    {
      assert NotBy(t, others[i]);
    }
  }

  /** The run ends with this change taking effect: the row it makes of the tables just before, and
      its event, together. */
  ghost predicate TakesEffect(s: State, trace: seq<Action>, change: Change) {
    && trace != []
    && var before, after := Run(s, trace[..|trace| - 1]), Run(s, trace);
       && Mutated(before, change).Some?
       && after.policies == Applied(before.policies, change.policy, Mutated(before, change).value)
       && after.outbox == before.outbox + [Event(change.org, change.policy, change.kind)]
  }

  lemma EffectAfter(s: State, first: seq<Action>, rest: seq<Action>, change: Change)
    requires TakesEffect(Run(s, first), rest, change)
    ensures TakesEffect(s, first + rest, change)
  {
    RunAppend(s, first, rest);
    RunAppend(s, first, rest[..|rest| - 1]);
    assert (first + rest)[..|first + rest| - 1] == first + rest[..|rest| - 1];
  }

  /** What one mutation meets: the others' steps before each statement, and how each ends. */
  datatype Env = Env(
    valid: bool,
    beforeMutate: seq<Action>, mutated: bool,
    beforePublish: seq<Action>, published: bool,
    beforeCommit: seq<Action>, commit: Outcome)

  class PolicyStore {
    var policies: map<Id, Row>
    var outbox: seq<Event>
    var txs: map<int, Tx>
    var last: map<Id, Row>

    constructor ()
      ensures Model() == INIT && Inv(Model())
    {
      policies, outbox, txs, last := map[], [], map[], map[];
    }

    function Model(): State
      reads this
    {
      State(policies, outbox, txs, last)
    }

    method Meanwhile(t: int, others: seq<Action>)
      requires Inv(Model()) && Leaves(t, others)
      modifies this
      ensures Model() == Run(old(Model()), others) && Inv(Model())
      ensures TxOf(Model(), t) == old(TxOf(Model(), t))
    {
      OthersLeaveTx(Model(), others, t);
      RunKeepsInv(Model(), others);
      var s := Run(Model(), others);
      policies, outbox, txs, last := s.policies, s.outbox, s.txs, s.last;
    }

    /** INSERT, UPDATE ... version + 1, or DELETE of the row; a row locked by another transaction is
        given up on, like any other failure. */
    method MutateTx(t: int, ok: bool) returns (done: bool, ghost trace: seq<Action>)
      requires Inv(Model()) && TxOf(Model(), t).Open?
      modifies this`txs
      ensures Model() == Run(old(Model()), trace) && Inv(Model())
      ensures var change := old(TxOf(Model(), t)).change;
        if done then
          Mutated(old(Model()), change).Some? && TxOf(Model(), t) == Staged(change, Mutated(old(Model()), change).value)
        else
          TxOf(Model(), t) == Idle
      ensures Uncommitted(t, trace)
    {
      ghost var s0 := Model();
      RunStep(s0, [], Mutate(t, ok));
      RunStep(s0, [], Rollback(t));
      StepKeepsInv(s0, Mutate(t, ok));
      StepKeepsInv(s0, Rollback(t));
      var change := txs[t].change;
      var result := Mutated(Model(), change);
      done := ok && result.Some? && !Locked(Model(), change.policy);
      trace := [] + [if Locked(Model(), change.policy) then Rollback(t) else Mutate(t, ok)];
      txs := txs[t := if done then Staged(change, result.value) else Idle];
    }

    /** Commits the staged row and the staged event together, whether or not the answer arrives. */
    method CommitTx(t: int, outcome: Outcome) returns (ok: bool)
      requires Inv(Model()) && TxOf(Model(), t).Ready?
      modifies this
      ensures Model() == Step(old(Model()), Commit(t, outcome)) && Inv(Model()) && TxOf(Model(), t).Idle?
      ensures ok <==> outcome == Answered
      ensures var tx := old(TxOf(Model(), t));
        if outcome != NotApplied then
          && outbox == old(outbox) + [Event(tx.change.org, tx.change.policy, tx.change.kind)]
          && policies == Applied(old(policies), tx.change.policy, tx.row)
        else
          outbox == old(outbox) && policies == old(policies)
    {
      StepKeepsInv(Model(), Commit(t, outcome));
      var tx := txs[t];
      if outcome != NotApplied {
        outbox := outbox + [Event(tx.change.org, tx.change.policy, tx.change.kind)];
        if tx.row.Some? {
          policies := policies[tx.change.policy := tx.row.value];
          last := last[tx.change.policy := tx.row.value];
        } else {
          policies := policies - {tx.change.policy};
        }
      }
      txs := txs[t := Idle];
      ok := outcome == Answered;
    }

    /** CreatePolicy, UpdatePolicy and DeletePolicy: validate, change the row, write the event, commit.
        A run of the state machine. On success its last step puts the policy's row and its event in
        place together; on failure no step of this call changes a table, unless the commit took
        effect and only its answer was lost. */
    method Apply(t: int, change: Change, env: Env) returns (ok: bool, ghost trace: seq<Action>)
      requires Inv(Model()) && TxOf(Model(), t).Idle?
      requires Leaves(t, env.beforeMutate) && Leaves(t, env.beforePublish) && Leaves(t, env.beforeCommit)
      modifies this
      ensures Model() == Run(old(Model()), trace) && Inv(Model()) && TxOf(Model(), t).Idle?
      ensures ok ==> env.commit == Answered && TakesEffect(old(Model()), trace, change)
      ensures ok ==> |outbox| > 0 && outbox[|outbox| - 1] == Event(change.org, change.policy, change.kind)
      ensures ok ==> (change.policy in policies <==> change.kind != Deleted)
      ensures ok && change.kind == Created ==> policies[change.policy] == Row(change.org, 1)
      ensures !ok ==>
        || ChangedByOthersOnly(t, old(Model()), trace)
        || (env.commit == AnswerLost && TakesEffect(old(Model()), trace, change))
    {
      ghost var s0 := Model();
      ok, trace := BeginAndMutate(t, change, env);
      if ok {
        ghost var next;
        ok, next := PublishAndCommit(t, env);
        RunAppend(s0, trace, next);
        if TakesEffect(Run(s0, trace), next, change) { EffectAfter(s0, trace, next, change); }
        trace := trace + next;
      }
      if Uncommitted(t, trace) { UncommittedChangesNothing(t, s0, trace); }
    }

    /** The mutation up to its staged row. */
    method BeginAndMutate(t: int, change: Change, env: Env) returns (done: bool, ghost trace: seq<Action>)
      requires Inv(Model()) && TxOf(Model(), t).Idle? && Leaves(t, env.beforeMutate)
      modifies this
      ensures Model() == Run(old(Model()), trace) && Inv(Model()) && Uncommitted(t, trace)
      ensures if done then
          var tx := TxOf(Model(), t); tx.Staged? && tx.change == change && Mutated(Model(), change) == Some(tx.row)
        else
          TxOf(Model(), t).Idle?
    {
      done, trace := false, [];
      if !env.valid && change.kind != Deleted {
        return;
      }
      ghost var s0 := Model();
      trace := BeginTx(t, change, env);
      ghost var next;
      done, next := MutateTx(t, env.mutated);
      RunAppend(s0, trace, next);
      trace := trace + next;
      assert done ==> TxOk(Model(), txs[t]);
    }

    method BeginTx(t: int, change: Change, env: Env) returns (ghost trace: seq<Action>)
      requires Inv(Model()) && TxOf(Model(), t).Idle? && (env.valid || change.kind == Deleted)
      requires Leaves(t, env.beforeMutate)
      modifies this
      ensures Model() == Run(old(Model()), trace) && Inv(Model())
      ensures TxOf(Model(), t) == Open(change) && Uncommitted(t, trace)
    {
      OthersAreUncommitted(t, env.beforeMutate);
      ghost var s0 := Model();
      RunStep(s0, [], Begin(t, change, env.valid));
      StepKeepsInv(s0, Begin(t, change, env.valid));
      txs := txs[t := Open(change)];
      RunAppend(s0, [Begin(t, change, env.valid)], env.beforeMutate);
      Meanwhile(t, env.beforeMutate);
      trace := [] + [Begin(t, change, env.valid)] + env.beforeMutate;
    }

    /** The mutation from its staged row on. */
    method PublishAndCommit(t: int, env: Env) returns (ok: bool, ghost trace: seq<Action>)
      requires Inv(Model()) && TxOf(Model(), t).Staged?
      requires Leaves(t, env.beforePublish) && Leaves(t, env.beforeCommit)
      modifies this
      ensures Model() == Run(old(Model()), trace) && Inv(Model()) && TxOf(Model(), t).Idle?
      ensures var tx := old(TxOf(Model(), t));
        ok || !Uncommitted(t, trace) ==>
          && env.commit == (if ok then Answered else AnswerLost)
          && |outbox| > 0 && outbox[|outbox| - 1] == Event(tx.change.org, tx.change.policy, tx.change.kind)
          && (tx.change.policy in policies <==> tx.row.Some?)
          && (tx.row.Some? ==> policies[tx.change.policy] == tx.row.value)
          && TakesEffect(old(Model()), trace, tx.change)
    {
      ghost var s0 := Model();
      var change := txs[t].change;
      ok, trace := StageEvent(t, env);
      if ok {
        ghost var next;
        ok, next := WaitAndCommit(t, env);
        RunAppend(s0, trace, next);
        if TakesEffect(Run(s0, trace), next, change) { EffectAfter(s0, trace, next, change); }
        trace := trace + next;
      }
    }

    method StageEvent(t: int, env: Env) returns (staged: bool, ghost trace: seq<Action>)
      requires Inv(Model()) && TxOf(Model(), t).Staged? && Leaves(t, env.beforePublish)
      modifies this
      ensures Model() == Run(old(Model()), trace) && Inv(Model()) && Uncommitted(t, trace)
      ensures staged <==> env.published
      ensures var tx := old(TxOf(Model(), t));
        TxOf(Model(), t) == if staged then Ready(tx.change, tx.row) else Idle
    {
      OthersAreUncommitted(t, env.beforePublish);
      ghost var s0 := Model();
      Meanwhile(t, env.beforePublish);
      RunStep(s0, env.beforePublish, Publish(t, env.published));
      StepKeepsInv(Model(), Publish(t, env.published));
      trace := env.beforePublish + [Publish(t, env.published)];
      var tx := txs[t];
      staged := env.published;
      txs := txs[t := if staged then Ready(tx.change, tx.row) else Idle];
    }

    method WaitAndCommit(t: int, env: Env) returns (ok: bool, ghost trace: seq<Action>)
      requires Inv(Model()) && TxOf(Model(), t).Ready? && Leaves(t, env.beforeCommit)
      modifies this
      ensures Model() == Run(old(Model()), trace) && Inv(Model()) && TxOf(Model(), t).Idle?
      ensures ok <==> env.commit == Answered
      ensures env.commit == NotApplied ==> Uncommitted(t, trace)
      ensures var tx := old(TxOf(Model(), t));
        env.commit != NotApplied ==>
          && |outbox| > 0 && outbox[|outbox| - 1] == Event(tx.change.org, tx.change.policy, tx.change.kind)
          && (tx.change.policy in policies <==> tx.row.Some?)
          && (tx.row.Some? ==> policies[tx.change.policy] == tx.row.value)
          && TakesEffect(old(Model()), trace, tx.change)
    {
      OthersAreUncommitted(t, env.beforeCommit);
      ghost var s0 := Model();
      Meanwhile(t, env.beforeCommit);
      RunStep(s0, env.beforeCommit, Commit(t, env.commit));
      assert TxOk(Model(), txs[t]);
      trace := env.beforeCommit + [Commit(t, env.commit)];
      assert trace[..|trace| - 1] == env.beforeCommit;
      ok := CommitTx(t, env.commit);
    }
  }
}
