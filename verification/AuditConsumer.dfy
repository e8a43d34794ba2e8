/** `flush` and the repository calls it makes, as imperative code over the live database. Between any
    two calls the other consumers may take any steps; the whole flush is then one run of the chain's
    state machine, so everything proved about runs holds of it. */
module AuditConsumer {
  import opened Wrappers
  import opened AuditChain

  /** What surrounds one database call: what other consumers do before it, and how it ends. */
  datatype Env = Env(others: seq<Action>, outcome: Outcome, accepted: bool)

  function EventsOf(links: seq<Link>): (events: seq<Event>)
    ensures |events| == |links|
  {
    seq(|links|, i requires 0 <= i < |links| => links[i].event)
  }

  /** The links of a batch as `flush` computes them, with or without a secret. */
  function Computed(mac: Mac, keyed: bool, events: seq<Event>, start: int, prev: string): seq<Link> {
    if keyed then Links(mac, events, start, prev) else Unhashed(events, start)
  }

  lemma RunStep(mac: Mac, s: State, trace: seq<Action>, a: Action)
    ensures Run(mac, s, trace + [a]) == Step(mac, Run(mac, s, trace), a)
  {
    assert (trace + [a])[..|trace|] == trace;
  }

  /** Other consumers' steps leave this consumer's progress alone and never remove a document. */
  lemma {:induction false} OthersLeaveLocal(mac: Mac, s: State, others: seq<Action>, c: int)
    requires forall a :: a in others ==> a.c != c
    ensures LocalOf(Run(mac, s, others), c) == LocalOf(s, c)
    ensures s.stored <= Run(mac, s, others).stored
  {
    if others != [] {
      OthersLeaveLocal(mac, s, others[..|others| - 1], c);
    }
  }

  /** The link at position `j` of a batch is the one `flush` computes, given those before it. */
  ghost predicate LinkOk(mac: Mac, keyed: bool, batch: seq<Event>, start: int, prev: string, links: seq<Link>, j: int)
    requires 0 <= j < |links| && j < |batch|
  {
    && links[j].event == batch[j] && links[j].sequence == start + j
    && if keyed then LinkedAt(mac, links, j, prev) else links[j].hash.None?
  }

  lemma LinkOkStays(mac: Mac, keyed: bool, batch: seq<Event>, start: int, prev: string,
      links: seq<Link>, link: Link, j: int)
    requires 0 <= j < |links| && j < |batch| && LinkOk(mac, keyed, batch, start, prev, links, j)
    ensures LinkOk(mac, keyed, batch, start, prev, links + [link], j)
  {
    assert (links + [link])[j] == links[j];
    if j > 0 { assert (links + [link])[j - 1] == links[j - 1]; }
  }

  lemma LastLinkOk(mac: Mac, keyed: bool, batch: seq<Event>, start: int, prev: string,
      links: seq<Link>, link: Link, temp: string)
    requires |links| < |batch| && temp == if keyed && links != [] then HashAt(links, |links|) else prev
    requires link == Link(batch[|links|], start + |links|, if keyed then Some(mac(batch[|links|].id, temp)) else None)
    ensures LinkOk(mac, keyed, batch, start, prev, links + [link], |links|)
  {
    if links != [] { assert (links + [link])[|links| - 1] == links[|links| - 1]; }
  }

  lemma ComputedOk(mac: Mac, keyed: bool, batch: seq<Event>, start: int, prev: string, j: int)
    requires 0 <= j < |batch|
    ensures LinkOk(mac, keyed, batch, start, prev, Computed(mac, keyed, batch, start, prev), j)
  {
    if keyed { LinksShape(mac, batch, start, prev); }
  }

  /** Position by position, there is one way to link a batch. */
  lemma {:induction false} LinksDetermined(mac: Mac, keyed: bool, batch: seq<Event>, start: int, prev: string,
      a: seq<Link>, b: seq<Link>, n: nat)
    requires |a| == |b| == |batch| && n <= |batch|
    requires forall j :: 0 <= j < |batch| ==> LinkOk(mac, keyed, batch, start, prev, a, j)
    requires forall j :: 0 <= j < |batch| ==> LinkOk(mac, keyed, batch, start, prev, b, j)
    ensures forall j :: 0 <= j < n ==> a[j] == b[j]
  {
    if n > 0 {
      LinksDetermined(mac, keyed, batch, start, prev, a, b, n - 1);
      assert LinkOk(mac, keyed, batch, start, prev, a, n - 1);
      assert LinkOk(mac, keyed, batch, start, prev, b, n - 1);
    }
  }

  /** Links that are right at every position are the computed ones. */
  lemma LinkedIsComputed(mac: Mac, keyed: bool, batch: seq<Event>, start: int, prev: string, links: seq<Link>)
    requires |links| == |batch|
    requires forall j :: 0 <= j < |batch| ==> LinkOk(mac, keyed, batch, start, prev, links, j)
    ensures links == Computed(mac, keyed, batch, start, prev)
  {
    forall j | 0 <= j < |batch|
      ensures LinkOk(mac, keyed, batch, start, prev, Computed(mac, keyed, batch, start, prev), j)
    {
      ComputedOk(mac, keyed, batch, start, prev, j);
    }
    LinksDetermined(mac, keyed, batch, start, prev, links, Computed(mac, keyed, batch, start, prev), |batch|);
  }

  ghost predicate StoredUpTo(links: seq<Link>, stored: seq<Link>, n: nat)
    requires n <= |links|
  {
    forall j :: 0 <= j < n ==> links[j] in stored
  }

  lemma OneMoreStored(links: seq<Link>, before: seq<Link>, after: seq<Link>, n: nat)
    requires n < |links| && StoredUpTo(links, before, n) && before <= after && links[n] in after
    ensures StoredUpTo(links, after, n + 1)
  {
  }

  lemma AllMembers(links: seq<Link>, stored: seq<Link>)
    requires StoredUpTo(links, stored, |links|)
    ensures forall x :: x in links ==> x in stored
  {
  }

  /** The body of the linking loop: the event's sequence, and its hash over the one before. */
  method LinkOne(mac: Mac, keyed: bool, events: array<Link>, i: nat, start: int, temp: string, current: string)
    returns (current': string, next: string)
    requires i < events.Length && (!keyed ==> events[i].hash.None?)
    modifies events
    ensures next == if keyed then mac(old(events[i]).event.id, temp) else temp
    ensures current' == if keyed then next else current
    ensures events[i] == Link(old(events[i]).event, start + i, if keyed then Some(next) else None)
    ensures forall j :: 0 <= j < events.Length && j != i ==> events[j] == old(events[j])
  {
    current', next := current, temp;
    events[i] := events[i].(sequence := start + i);
    if keyed {
      current' := mac(events[i].event.id, temp);
      events[i] := events[i].(hash := Some(current'));
      next := current';
    }
  }

  /** Links the events of a batch in place: sequence numbers, and the hash chain when there is a secret. */
  method LinkEvents(mac: Mac, keyed: bool, events: array<Link>, start: int, prev: string) returns (current: string)
    requires !keyed ==> forall i :: 0 <= i < events.Length ==> events[i].hash.None?
    modifies events
    ensures events[..] == Computed(mac, keyed, EventsOf(old(events[..])), start, prev)
    ensures keyed && events.Length > 0 ==> Some(current) == events[events.Length - 1].hash
    ensures !keyed ==> current == ""
  {
    ghost var batch := EventsOf(events[..]);
    ghost var done: seq<Link> := [];
    var temp := prev;
    current := "";
    var i := 0;
    while i < events.Length
      invariant 0 <= i <= events.Length && done == events[..i]
      invariant forall j :: i <= j < events.Length ==> events[j] == old(events[j])
      invariant forall j :: 0 <= j < i ==> LinkOk(mac, keyed, batch, start, prev, done, j)
      invariant temp == if keyed && i > 0 then HashAt(done, i) else prev
      invariant if keyed && i > 0 then Some(current) == done[i - 1].hash else current == ""
    {
      ghost var was := temp;
      current, temp := LinkOne(mac, keyed, events, i, start, temp, current);
      LastLinkOk(mac, keyed, batch, start, prev, done, events[i], was);
      forall j | 0 <= j < i
        ensures LinkOk(mac, keyed, batch, start, prev, done + [events[i]], j)
      {
        LinkOkStays(mac, keyed, batch, start, prev, done, events[i], j);
      }
      done := done + [events[i]];
      i := i + 1;
    }
    assert events[..] == done;
    LinkedIsComputed(mac, keyed, batch, start, prev, done);
  }

  /** The database of one organisation's chain, with the history the theorems speak about. */
  class AuditSystem {
    const mac: Mac
    var doc: Option<Doc>
    var stored: seq<Link>
    var locals: map<int, Local>
    var chain: seq<Link>
    var batches: seq<Batch>

    constructor (mac: Mac)
      ensures this.mac == mac && Model() == INIT
    {
      this.mac := mac;
      doc, stored, locals, chain, batches := None, [], map[], [], [];
    }

    function Model(): State
      reads this
    {
      State(doc, stored, locals, chain, batches)
    }

    /** Any number of steps of other consumers. */
    method Meanwhile(c: int, others: seq<Action>)
      requires forall a :: a in others ==> a.c != c
      modifies this
      ensures Model() == Run(mac, old(Model()), others)
      ensures LocalOf(Model(), c) == old(LocalOf(Model(), c))
      ensures old(stored) <= stored
    {
      OthersLeaveLocal(mac, Model(), others, c);
      var t := Run(mac, Model(), others);
      doc, stored, locals, chain, batches := t.doc, t.stored, t.locals, t.chain, t.batches;
    }

    /** FindOneAndUpdate with upsert: increments the counter and reads the head, in one step. */
    method ReserveSequence(c: int, count: int, outcome: Outcome) returns (r: Option<(int, string)>)
      requires LocalOf(Model(), c).Flushing? && count == |LocalOf(Model(), c).events|
      modifies this
      ensures Model() == Step(mac, old(Model()), Reserve(c, outcome))
      ensures r.Some? <==> outcome == Answered
      ensures var l := old(LocalOf(Model(), c));
        LocalOf(Model(), c) == match r
          case Some((start, prev)) => Reserved(l.events, l.keyed, l.attempt, start, prev)
          case None => Retry(l.events, l.keyed, l.attempt)
      ensures old(stored) <= stored
    {
      var l := locals[c];
      r := None;
      if outcome != NotApplied {
        var d := if doc.Some? then doc.value else Doc("", 0);
        d := d.(sequence := d.sequence + count);
        doc := Some(d);
        if outcome == Answered {
          r := Some((d.sequence - count, d.hash));
        }
      }
      locals := locals[c := match r
          case Some((start, prev)) => Reserved(l.events, l.keyed, l.attempt, start, prev)
          case None => Retry(l.events, l.keyed, l.attempt)];
    }

    /** UpdateOne filtered by the expected hash. The answer says whether the document changed. */
    method UpdateHashChainCAS(c: int, links: seq<Link>, prev: string, newHash: string, outcome: Outcome)
      returns (r: Option<bool>)
      requires LocalOf(Model(), c).Reserved? && LocalOf(Model(), c).keyed && LocalOf(Model(), c).events != []
      requires var l := LocalOf(Model(), c);
        && prev == l.prev && links == Links(mac, l.events, l.start, l.prev)
        && links[|links| - 1].hash == Some(newHash)
      modifies this
      ensures Model() == Step(mac, old(Model()), Swap(c, outcome))
      ensures r == if outcome == Answered then Some(old(doc).Some? && old(doc).value.hash == prev) else None
      ensures var l := old(LocalOf(Model(), c));
        match r
        case Some(true) =>
          && LocalOf(Model(), c) == Writing(links, 0, Some(old(|batches|)))
          && chain == old(chain) + links
        case Some(false) => LocalOf(Model(), c) == Retry(l.events, l.keyed, l.attempt)
        case None => LocalOf(Model(), c) == Idle
      ensures old(stored) <= stored
    {
      var l := locals[c];
      var changed := outcome != NotApplied && doc.Some? && doc.value.hash == prev;
      if changed {
        doc := Some(doc.value.(hash := newHash));
        batches := batches + [Batch(|chain|, |chain + links|, 0)];
        chain := chain + links;
      }
      r := if outcome == Answered then Some(changed) else None;
      locals := locals[c := match r
          case Some(true) => Writing(links, 0, Some(|batches| - 1))
          case Some(false) => Retry(l.events, l.keyed, l.attempt)
          case None => Idle];
    }

    /** One InsertOne of an ordered bulk write; the unique index refuses an event id twice. */
    method InsertOne(c: int, accepted: bool) returns (ok: bool)
      requires LocalOf(Model(), c).Writing?
      requires LocalOf(Model(), c).next < |LocalOf(Model(), c).links|
      modifies this
      ensures Model() == Step(mac, old(Model()), Insert(c, accepted))
      ensures var l := old(LocalOf(Model(), c));
        if ok then
          && stored == old(stored) + [l.links[l.next]]
          && LocalOf(Model(), c) == if l.next + 1 < |l.links| then l.(next := l.next + 1) else Idle
        else
          stored == old(stored) && LocalOf(Model(), c) == Idle
      ensures var l := old(LocalOf(Model(), c));
        ok <==> accepted && !DuplicateId(old(stored), l.links[l.next].event.id)
    {
      var l := locals[c];
      ok := accepted && !DuplicateId(stored, l.links[l.next].event.id);
      if ok {
        stored := stored + [l.links[l.next]];
        if l.batch.Some? && l.batch.value < |batches| {
          var b := batches[l.batch.value];
          batches := batches[l.batch.value := b.(stored := b.stored + 1)];
        }
      }
      locals := locals[c := if ok && l.next + 1 < |l.links| then l.(next := l.next + 1) else Idle];
    }

    /** Inserts the links in order and stops at the first that is refused. */
    method BulkWrite(c: int, links: seq<Link>, env: nat -> Env, n: nat) returns (ok: bool, ghost trace: seq<Action>)
      requires links != [] && LocalOf(Model(), c).Writing?
      requires LocalOf(Model(), c).links == links && LocalOf(Model(), c).next == 0
      requires forall m, a :: a in env(m).others ==> a.c != c
      modifies this
      ensures Model() == Run(mac, old(Model()), trace)
      ensures LocalOf(Model(), c) == Idle
      ensures ok ==> forall x :: x in links ==> x in stored
    {
      ghost var s0 := Model();
      ghost var batch := locals[c].batch;
      trace := [];
      var i := 0;
      while i < |links|
        invariant 0 <= i <= |links|
        invariant Model() == Run(mac, s0, trace)
        invariant StoredUpTo(links, stored, i)
        invariant LocalOf(Model(), c) == if i < |links| then Writing(links, i, batch) else Idle
      {
        ghost var next, was := [], stored;
        var done;
        done, next := InsertNext(c, env(n + i));
        RunAppend(mac, s0, trace, next);
        trace := trace + next;
        if !done {
          return false, trace;
        }
        OneMoreStored(links, was, stored, i);
        i := i + 1;
      }
      AllMembers(links, stored);
      ok := true;
    }

    /** One insert, after what others did before it. */
    method InsertNext(c: int, env: Env) returns (ok: bool, ghost trace: seq<Action>)
      requires LocalOf(Model(), c).Writing?
      requires LocalOf(Model(), c).next < |LocalOf(Model(), c).links|
      requires forall a :: a in env.others ==> a.c != c
      modifies this
      ensures Model() == Run(mac, old(Model()), trace) && old(stored) <= stored
      ensures var l := old(LocalOf(Model(), c));
        if ok then
          && l.links[l.next] in stored
          && LocalOf(Model(), c) == if l.next + 1 < |l.links| then l.(next := l.next + 1) else Idle
        else
          LocalOf(Model(), c) == Idle
    {
      ghost var s0 := Model();
      Meanwhile(c, env.others);
      RunStep(mac, s0, env.others, Insert(c, env.accepted));
      ok := InsertOne(c, env.accepted);
      trace := env.others + [Insert(c, env.accepted)];
    }

    /** One round of `flush`: reserve, link in place, swap. `Some(true)` means the batch may be
        inserted, `Some(false)` that this attempt failed, `None` that the flush gives up. */
    method Attempt(c: int, events: array<Link>, keyed: bool, attempt: nat, env: nat -> Env)
      returns (linked: Option<bool>, ghost trace: seq<Action>)
      requires events.Length > 0
      requires LocalOf(Model(), c) == Flushing(EventsOf(events[..]), keyed, attempt)
      requires !keyed ==> forall i :: 0 <= i < events.Length ==> events[i].hash.None?
      requires forall m, a :: a in env(m).others ==> a.c != c
      modifies this, events
      ensures Model() == Run(mac, old(Model()), trace)
      ensures EventsOf(events[..]) == old(EventsOf(events[..]))
      ensures !keyed ==> forall i :: 0 <= i < events.Length ==> events[i].hash.None?
      ensures match linked
        case None => LocalOf(Model(), c) == Idle
        case Some(false) => LocalOf(Model(), c) == Retry(EventsOf(events[..]), keyed, attempt)
        case Some(true) =>
          && LocalOf(Model(), c).Writing?
          && LocalOf(Model(), c).links == events[..] && LocalOf(Model(), c).next == 0
          && forall x :: x in events[..] ==> x.hash.Some? == keyed
    {
      ghost var s0 := Model();
      ghost var batch := EventsOf(events[..]);
      var e, f := env(2 * attempt), env(2 * attempt + 1);
      Meanwhile(c, e.others);
      RunStep(mac, s0, e.others, Reserve(c, e.outcome));
      var reserved := ReserveSequence(c, events.Length, e.outcome);
      trace := e.others + [Reserve(c, e.outcome)];
      if reserved.None? {
        return Some(false), trace;
      }
      var (start, prev) := reserved.value;
      var current := LinkEvents(mac, keyed, events, start, prev);
      ComputedShape(mac, keyed, batch, start, prev);
      RunAppend(mac, s0, trace, f.others);
      Meanwhile(c, f.others);
      trace := trace + f.others;
      RunStep(mac, s0, trace, Swap(c, f.outcome));
      trace := trace + [Swap(c, f.outcome)];
      linked := ExtendChain(c, events[..], prev, current, f.outcome);
    }

    /** With a secret the head is swapped; without one there is nothing to swap. */
    method ExtendChain(c: int, links: seq<Link>, prev: string, current: string, outcome: Outcome)
      returns (linked: Option<bool>)
      requires LocalOf(Model(), c).Reserved? && LocalOf(Model(), c).events != []
      requires var l := LocalOf(Model(), c);
        && prev == l.prev && links == Computed(mac, l.keyed, l.events, l.start, l.prev)
        && (l.keyed ==> links[|links| - 1].hash == Some(current))
      modifies this
      ensures Model() == Step(mac, old(Model()), Swap(c, outcome))
      ensures var l := old(LocalOf(Model(), c));
        match linked
        case None => LocalOf(Model(), c) == Idle
        case Some(false) => LocalOf(Model(), c) == Retry(l.events, l.keyed, l.attempt)
        case Some(true) =>
          LocalOf(Model(), c).Writing? && LocalOf(Model(), c).links == links && LocalOf(Model(), c).next == 0
    {
      if locals[c].keyed {
        linked := UpdateHashChainCAS(c, links, prev, current, outcome);
      } else {
        locals := locals[c := Writing(links, 0, None)];
        linked := Some(true);
      }
    }

    /** Flushes one batch: up to five rounds, then the ordered insert. It is a run of the state
        machine, and it reports success only when every event of the batch has been inserted,
        hashed if there is a secret. */
    method Flush(c: int, batch: seq<Event>, keyed: bool, env: nat -> Env)
      returns (ok: bool, written: seq<Link>, ghost trace: seq<Action>)
      requires LocalOf(Model(), c) == Idle
      requires forall m, a :: a in env(m).others ==> a.c != c
      modifies this
      ensures Model() == Run(mac, old(Model()), trace)
      ensures LocalOf(Model(), c) == Idle
      ensures ok ==> EventsOf(written) == batch && forall x :: x in written ==> x in stored && x.hash.Some? == keyed
    {
      ok, written, trace := false, [], [];
      if batch == [] {
        return;
      }
      ghost var s0 := Model();
      locals := locals[c := Flushing(batch, keyed, 0)];
      trace := [Begin(c, batch, keyed)];
      RunStep(mac, s0, [], Begin(c, batch, keyed));
      var events := new Link[|batch|](i requires 0 <= i < |batch| => Link(batch[i], 0, None));
      assert EventsOf(events[..]) == batch;
      var attempt, linked := 0, Some(false);
      while attempt < MAX_ATTEMPTS && linked == Some(false)
        invariant 0 <= attempt <= MAX_ATTEMPTS
        invariant Model() == Run(mac, s0, trace)
        invariant EventsOf(events[..]) == batch
        invariant !keyed ==> forall i :: 0 <= i < events.Length ==> events[i].hash.None?
        invariant match linked
          case None => LocalOf(Model(), c) == Idle
          case Some(false) =>
            LocalOf(Model(), c) == if attempt < MAX_ATTEMPTS then Flushing(batch, keyed, attempt) else Idle
          case Some(true) =>
            && LocalOf(Model(), c).Writing?
            && LocalOf(Model(), c).links == events[..] && LocalOf(Model(), c).next == 0
            && forall x :: x in events[..] ==> x.hash.Some? == keyed
        decreases MAX_ATTEMPTS - attempt
      {
        ghost var round;
        linked, round := Attempt(c, events, keyed, attempt, env);
        RunAppend(mac, s0, trace, round);
        trace := trace + round;
        attempt := attempt + 1;
      }
      if linked != Some(true) {
        return;
      }
      written := events[..];
      ghost var rest;
      ok, rest := BulkWrite(c, written, env, 2 * MAX_ATTEMPTS);
      RunAppend(mac, s0, trace, rest);
      trace := trace + rest;
    }
  }

  lemma ComputedShape(mac: Mac, keyed: bool, events: seq<Event>, start: int, prev: string)
    ensures var links := Computed(mac, keyed, events, start, prev);
      && EventsOf(links) == events
      && forall x :: x in links ==> x.hash.Some? == keyed
  {
    if keyed {
      LinksShape(mac, events, start, prev);
      var links := Links(mac, events, start, prev);
      forall i | 0 <= i < |links|
        ensures links[i].hash.Some? && EventsOf(links)[i] == events[i]
      {
        assert LinkedAt(mac, links, i, prev);
      }
    }
  }
}
