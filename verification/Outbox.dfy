/** The transactional outbox: any number of relays lock pages of undelivered rows, publish them and
    commit the outcome, while transactions may fail and relays may crash at any point. */
module Outbox {

  const MAX_ATTEMPTS: nat := 5
  const PAGE: nat := 100

  type Id = int

  datatype Status = Pending | Failed | Published | Dead

  datatype Row = Row(created: int, status: Status, attempts: int, deadAt: bool)

  datatype Record = Record(id: Id, attempts: int)

  /** A relay between two drains, or inside one: the rows it fetched and holds locked, how far it
      is, what its transaction wrote, and whether a failed statement has aborted the transaction. */
  datatype Relay =
    | Idle
    | Draining(records: seq<Record>, next: nat, updates: map<Id, Row>, aborted: bool)

  /** `rows` is the committed table and `log` the topic. `failures` is history: how many failed
      publishes of each row were committed. */
  datatype State = State(rows: map<Id, Row>, relays: map<int, Relay>, log: seq<Id>, failures: map<Id, nat>)

  /** What Publish does: delivers, delivers but reports an error, or neither. */
  datatype Answer = Sent | SentButError | Lost

  datatype Action =
    | Write(id: Id, created: int)
    | Fetch(r: int, page: seq<Id>)
    | Publish(r: int, answer: Answer, updated: bool)
    | Commit(r: int, ok: bool)
    | Crash(r: int)

  const INIT := State(map[], map[], [], map[])

  predicate Eligible(row: Row) {
    (row.status == Pending || (row.status == Failed && row.attempts < MAX_ATTEMPTS)) && !row.deadAt
  }

  predicate Terminal(row: Row) {
    row.status == Published || row.status == Dead
  }

  /** The row after one publish attempt. */
  function Attempted(row: Row, attempts: int, sent: bool): Row {
    if sent then
      row.(status := Published, attempts := attempts + 1)
    else if attempts + 1 >= MAX_ATTEMPTS then
      row.(status := Dead, attempts := attempts + 1, deadAt := true)
    else
      row.(status := Failed, attempts := attempts + 1)
  }

  function RelayOf(s: State, r: int): Relay {
    if r in s.relays then s.relays[r] else Idle
  }

  predicate Holds(relay: Relay, id: Id) {
    relay.Draining? && exists i :: 0 <= i < |relay.records| && relay.records[i].id == id
  }

  /** The rows some relay has locked. */
  function Locked(s: State): (locked: set<Id>)
    ensures forall id :: id in locked <==> exists r :: r in s.relays && Holds(s.relays[r], id)
  {
    set r, i | r in s.relays && s.relays[r].Draining? && 0 <= i < |s.relays[r].records| :: s.relays[r].records[i].id
  }

  /** A possible result of the query: the oldest eligible rows nobody has locked, at most a page. */
  predicate IsPage(rows: map<Id, Row>, locked: set<Id>, page: seq<Id>) {
    && |page| <= PAGE
    && (forall i :: 0 <= i < |page| ==> page[i] in rows && page[i] !in locked && Eligible(rows[page[i]]))
    && (forall i, j :: 0 <= i < j < |page| ==> page[i] != page[j] && rows[page[i]].created <= rows[page[j]].created)
    && (forall q :: q in rows && q !in locked && Eligible(rows[q]) && q !in page ==>
          |page| == PAGE && forall p :: p in page ==> rows[p].created <= rows[q].created)
  }

  function FailuresOf(failures: map<Id, nat>, id: Id): nat {
    if id in failures then failures[id] else 0
  }

  function PublishStep(s: State, r: int, relay: Relay, answer: Answer, updated: bool): State
    requires relay.Draining? && relay.next < |relay.records|
  {
    var rec := relay.records[relay.next];
    var log := if answer == Lost then s.log else s.log + [rec.id];
    var relay' :=
      if relay.aborted || !updated || rec.id !in s.rows then
        relay.(next := relay.next + 1, aborted := true)
      else
        relay.(next := relay.next + 1,
               updates := relay.updates[rec.id := Attempted(s.rows[rec.id], rec.attempts, answer == Sent)]);
    s.(log := log, relays := s.relays[r := relay'])
  }

  function CommitStep(s: State, r: int, relay: Relay, ok: bool): State
    requires relay.Draining?
  {
    var idle := s.(relays := s.relays[r := Idle]);
    if ok && !relay.aborted then
      var failures := map id | id in s.failures.Keys + relay.updates.Keys ::
        FailuresOf(s.failures, id) +
        if id in relay.updates && relay.updates[id].status != Published then 1 else 0;
      idle.(rows := s.rows + relay.updates, failures := failures)
    else
      idle
  }

  /** One atomic step; an action that is not enabled changes nothing. */
  function Step(s: State, a: Action): State {
    match a
    case Write(id, created) =>
      if id !in s.rows then s.(rows := s.rows[id := Row(created, Pending, 0, false)]) else s
    case Fetch(r, page) =>
      if RelayOf(s, r).Idle? && page != [] && IsPage(s.rows, Locked(s), page) then
        s.(relays := s.relays[r := Draining(Records(s.rows, page), 0, map[], false)])
      else
        s
    case Publish(r, answer, updated) =>
      var relay := RelayOf(s, r);
      if relay.Draining? && relay.next < |relay.records| then PublishStep(s, r, relay, answer, updated) else s
    case Commit(r, ok) =>
      var relay := RelayOf(s, r);
      if relay.Draining? && relay.next == |relay.records| then CommitStep(s, r, relay, ok) else s
    case Crash(r) =>
      s.(relays := s.relays[r := Idle])
  }

  function Records(rows: map<Id, Row>, page: seq<Id>): (records: seq<Record>)
    requires forall i :: 0 <= i < |page| ==> page[i] in rows
    ensures |records| == |page|
    ensures forall i :: 0 <= i < |page| ==> records[i] == Record(page[i], rows[page[i]].attempts)
  {
    seq(|page|, i requires 0 <= i < |page| => Record(page[i], rows[page[i]].attempts))
  }

  function Run(s: State, actions: seq<Action>): State {
    if actions == [] then s else Step(Run(s, actions[..|actions| - 1]), actions[|actions| - 1])
  }

  lemma RunStep(s: State, trace: seq<Action>, a: Action)
    ensures Run(s, trace + [a]) == Step(Run(s, trace), a)
  {
    assert (trace + [a])[..|trace|] == trace;
  }

  lemma {:induction false} RunAppend(s: State, a: seq<Action>, b: seq<Action>)
    ensures Run(s, a + b) == Run(Run(s, a), b)
  {
    if b == [] {
      assert a + b == a;
    } else {
      var n := |b| - 1;
      assert (a + b)[..|a + b| - 1] == a + b[..n];
      RunAppend(s, a, b[..n]);
    }
  }

  // ---------------------------------------------------------------- the invariant

  /** How status, attempts, dead_at, committed failures and deliveries of a row hang together. */
  predicate RowOk(id: Id, row: Row, failures: nat, log: seq<Id>) {
    && 0 <= row.attempts <= MAX_ATTEMPTS
    && (row.deadAt <==> row.status == Dead)
    && (row.status == Dead <==> failures == MAX_ATTEMPTS)
    && match row.status
       case Pending => row.attempts == 0 && failures == 0
       case Failed => 0 < row.attempts < MAX_ATTEMPTS && failures == row.attempts
       case Published => failures + 1 == row.attempts && id in log
       case Dead => row.attempts == MAX_ATTEMPTS
  }

  /** A draining relay holds eligible rows whose attempts it read, and its uncommitted updates are
      the outcomes of attempts on them; a row marked published has been delivered. */
  ghost predicate RelayOk(rows: map<Id, Row>, log: seq<Id>, relay: Relay) {
    relay.Draining? ==>
      && relay.next <= |relay.records|
      && (forall i :: 0 <= i < |relay.records| ==>
            && relay.records[i].id in rows
            && Eligible(rows[relay.records[i].id])
            && relay.records[i].attempts == rows[relay.records[i].id].attempts)
      && (forall id :: id in relay.updates ==>
            && Holds(relay, id) && id in rows
            && exists sent :: relay.updates[id] == Attempted(rows[id], rows[id].attempts, sent) && (sent ==> id in log))
  }

  ghost predicate Inv(s: State) {
    && (forall id :: id in s.rows ==> RowOk(id, s.rows[id], FailuresOf(s.failures, id), s.log))
    && (forall id :: id in s.failures ==> id in s.rows)
    && (forall r :: r in s.relays ==> RelayOk(s.rows, s.log, s.relays[r]))
    && (forall r, q, id :: r in s.relays && q in s.relays && Holds(s.relays[r], id) && Holds(s.relays[q], id) ==>
          r == q)
  }

  lemma EligibleIsNotTerminal(id: Id, row: Row, failures: nat, log: seq<Id>)
    requires RowOk(id, row, failures, log)
    ensures Eligible(row) <==> !Terminal(row)
    ensures Eligible(row) ==> row.attempts == failures < MAX_ATTEMPTS
  {
  }

  lemma AttemptedOk(id: Id, row: Row, failures: nat, log: seq<Id>, sent: bool)
    requires RowOk(id, row, failures, log) && Eligible(row) && (sent ==> id in log)
    ensures RowOk(id, Attempted(row, row.attempts, sent), failures + if sent then 0 else 1, log)
  {
  }

  lemma PublishKeepsInv(s: State, r: int, relay: Relay, answer: Answer, updated: bool)
    requires Inv(s) && relay == RelayOf(s, r) && relay.Draining? && relay.next < |relay.records|
    ensures Inv(PublishStep(s, r, relay, answer, updated))
  {
    var t := PublishStep(s, r, relay, answer, updated);
    var rec, relay' := relay.records[relay.next], t.relays[r];
    assert Holds(relay', rec.id) by { assert relay'.records[relay.next].id == rec.id; }
    assert forall id :: Holds(relay', id) <==> Holds(relay, id);
    forall id | id in relay'.updates
      ensures exists sent ::
        relay'.updates[id] == Attempted(t.rows[id], t.rows[id].attempts, sent) && (sent ==> id in t.log)
    {
      if id == rec.id && relay'.updates != relay.updates {
        assert relay'.updates[id] == Attempted(t.rows[id], t.rows[id].attempts, answer == Sent);
      } else {
        var sent :| relay.updates[id] == Attempted(s.rows[id], s.rows[id].attempts, sent) && (sent ==> id in s.log);
      }
    }
  }

  lemma CommitKeepsInv(s: State, r: int, relay: Relay, ok: bool)
    requires Inv(s) && relay == RelayOf(s, r) && relay.Draining?
    ensures Inv(CommitStep(s, r, relay, ok))
  {
    var t := CommitStep(s, r, relay, ok);
    if ok && !relay.aborted {
      forall id | id in t.rows
        ensures RowOk(id, t.rows[id], FailuresOf(t.failures, id), t.log)
      {
        if id in relay.updates {
          var sent :| relay.updates[id] == Attempted(s.rows[id], s.rows[id].attempts, sent) && (sent ==> id in s.log);
          AttemptedOk(id, s.rows[id], FailuresOf(s.failures, id), s.log, sent);
        }
      }
      forall q | q in t.relays
        ensures RelayOk(t.rows, t.log, t.relays[q])
      {
        if q != r { DisjointRelayOk(s, r, q, t); }
      }
    }
  }

  lemma DisjointRelayOk(s: State, r: int, q: int, t: State)
    requires Inv(s) && r in s.relays && q in s.relays && q != r && s.relays[r].Draining?
    requires t.rows == s.rows + s.relays[r].updates && t.log == s.log
    ensures RelayOk(t.rows, t.log, s.relays[q])
  {
    var relay := s.relays[q];
    if relay.Draining? {
      forall id | Holds(relay, id)
        ensures id !in s.relays[r].updates
      {
      }
      forall i | 0 <= i < |relay.records|
        ensures Holds(relay, relay.records[i].id)
      {
      }
    }
  }

  lemma StepKeepsInv(s: State, a: Action)
    requires Inv(s)
    ensures Inv(Step(s, a))
  {
    var t := Step(s, a);
    match a
    case Write(id, created) => WriteKeepsInv(s, id, created);
    case Fetch(r, page) => FetchKeepsInv(s, r, page);
    case Publish(r, answer, updated) =>
      var relay := RelayOf(s, r);
      if relay.Draining? && relay.next < |relay.records| { PublishKeepsInv(s, r, relay, answer, updated); }
    case Commit(r, ok) =>
      var relay := RelayOf(s, r);
      if relay.Draining? && relay.next == |relay.records| { CommitKeepsInv(s, r, relay, ok); }
    case Crash(r) =>
  }

  lemma WriteKeepsInv(s: State, id: Id, created: int)
    requires Inv(s)
    ensures Inv(Step(s, Write(id, created)))
  {
    var t := Step(s, Write(id, created));
    forall r | r in t.relays
      ensures RelayOk(t.rows, t.log, t.relays[r])
    {
      assert RelayOk(s.rows, s.log, s.relays[r]);
    }
  }

  lemma FetchKeepsInv(s: State, r: int, page: seq<Id>)
    requires Inv(s)
    ensures Inv(Step(s, Fetch(r, page)))
  {
    var t := Step(s, Fetch(r, page));
    if t != s {
      forall id | Holds(t.relays[r], id)
        ensures id !in Locked(s)
      {
        var i :| 0 <= i < |page| && page[i] == id;
      }
      forall q, p, id | q in t.relays && p in t.relays && Holds(t.relays[q], id) && Holds(t.relays[p], id)
        ensures q == p
      {
      }
    }
  }

  lemma {:induction false} RunKeepsInv(s: State, actions: seq<Action>)
    requires Inv(s)
    ensures Inv(Run(s, actions))
  {
    if actions != [] {
      var n := |actions| - 1;
      RunKeepsInv(s, actions[..n]);
      StepKeepsInv(Run(s, actions[..n]), actions[n]);
    }
  }

  // ---------------------------------------------------------------- safety over whole runs

  /** In every reachable state each row is consistent, and is eligible exactly until it is terminal. */
  lemma RowsStayConsistent(actions: seq<Action>, id: Id)
    requires id in Run(INIT, actions).rows
    ensures var s := Run(INIT, actions);
      && RowOk(id, s.rows[id], FailuresOf(s.failures, id), s.log)
      && (Eligible(s.rows[id]) <==> !Terminal(s.rows[id]))
  {
    RunKeepsInv(INIT, actions);
    var s := Run(INIT, actions);
    EligibleIsNotTerminal(id, s.rows[id], FailuresOf(s.failures, id), s.log);
  }

  /** No two relays ever hold the same row, so no attempt is counted twice. */
  lemma LocksAreExclusive(actions: seq<Action>, r: int, q: int, id: Id)
    requires Holds(RelayOf(Run(INIT, actions), r), id) && Holds(RelayOf(Run(INIT, actions), q), id)
    ensures r == q
  {
    RunKeepsInv(INIT, actions);
  }

  lemma StepKeepsRow(s: State, a: Action, id: Id)
    requires Inv(s) && id in s.rows
    ensures id in Step(s, a).rows && s.log <= Step(s, a).log
    ensures Terminal(s.rows[id]) ==> Step(s, a).rows[id] == s.rows[id]
    ensures Step(s, a).rows[id].attempts >= s.rows[id].attempts
  {
    EligibleIsNotTerminal(id, s.rows[id], FailuresOf(s.failures, id), s.log);
  }

  /** A row that is published or dead never changes again, and no row ever disappears. */
  lemma {:induction false} TerminalRowsNeverChange(s: State, actions: seq<Action>, id: Id)
    requires Inv(s) && id in s.rows
    ensures id in Run(s, actions).rows && s.log <= Run(s, actions).log
    ensures Terminal(s.rows[id]) ==> Run(s, actions).rows[id] == s.rows[id]
    ensures Run(s, actions).rows[id].attempts >= s.rows[id].attempts
  {
    if actions != [] {
      var n := |actions| - 1;
      TerminalRowsNeverChange(s, actions[..n], id);
      RunKeepsInv(s, actions[..n]);
      StepKeepsRow(Run(s, actions[..n]), actions[n], id);
    }
  }
}
