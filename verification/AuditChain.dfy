/** The per-organisation HMAC chain of the audit service: any number of consumers reserve a
    sequence range, link their batch locally, compare-and-swap the chain head and then insert
    the batch in order. Here the whole system is a state machine whose steps are the single
    database calls; the theorems hold in every state any interleaving reaches. */
module AuditChain {
  import opened Wrappers

  const MAX_ATTEMPTS: nat := 5

  /** One audit event. The MAC covers the event id only, so the rest is one opaque payload. */
  datatype Event = Event(id: Option<string>, payload: string)

  /** An event as it is inserted: `hash` is absent when no secret is configured. */
  datatype Link = Link(event: Event, sequence: int, hash: Option<string>)

  /** The document of `hash_chains` for one organisation. */
  datatype Doc = Doc(hash: string, sequence: int)

  /** What one consumer is doing inside `flush`. */
  datatype Local =
    | Idle
    | Flushing(events: seq<Event>, keyed: bool, attempt: nat)
    | Reserved(events: seq<Event>, keyed: bool, attempt: nat, start: int, prev: string)
    | Writing(links: seq<Link>, next: nat, batch: Option<nat>)

  /** A batch whose swap was applied: it is `chain[lo..hi]`, and its first `stored` links are inserted. */
  datatype Batch = Batch(lo: nat, hi: nat, stored: nat)

  /** `doc` and `stored` are the database. `chain` and `batches` are history: the links whose
      swap was applied, in swap order, and how they were cut into batches. */
  datatype State = State(
    doc: Option<Doc>,
    stored: seq<Link>,
    locals: map<int, Local>,
    chain: seq<Link>,
    batches: seq<Batch>)

  datatype Action =
    | Begin(c: int, events: seq<Event>, keyed: bool)
    | Reserve(c: int, outcome: Outcome)
    | Swap(c: int, outcome: Outcome)
    | Insert(c: int, accepted: bool)
    | Crash(c: int)

  const INIT := State(None, [], map[], [], [])

  // ---------------------------------------------------------------- the MAC

  /** HMAC-SHA256 under the deployment's secret, hex encoded: no collisions, and every digest is
      non-empty and free of the separator. */
  ghost predicate CollisionFree(hmac: string -> string) {
    && (forall x, y :: hmac(x) == hmac(y) ==> x == y)
    && (forall x :: hmac(x) != "" && '|' !in hmac(x))
  }

  function IdText(id: Option<string>): string {
    match id
    case None => "<nil>"
    case Some(text) => text
  }

  function Message(id: Option<string>, prev: string): string {
    IdText(id) + "|" + prev
  }

  /** The integrity hash of one event: the MAC of its id text, the separator and the previous hash. */
  type Mac = (Option<string>, string) -> string

  function Keyed(hmac: string -> string): Mac {
    (id, prev) => hmac(Message(id, prev))
  }

  ghost predicate CleanAt(mac: Mac, id: Option<string>, prev: string) {
    mac(id, prev) != "" && '|' !in mac(id, prev)
  }

  ghost predicate InjectiveAt(mac: Mac, a: Option<string>, p: string, b: Option<string>, q: string) {
    '|' !in p && '|' !in q && mac(a, p) == mac(b, q) ==> p == q && IdText(a) == IdText(b)
  }

  /** What the chain needs of its MAC. Only separator-free previous hashes occur. */
  ghost predicate Separates(mac: Mac) {
    && (forall id, prev :: CleanAt(mac, id, prev))
    && (forall a, p, b, q :: InjectiveAt(mac, a, p, b, q))
  }

  /** A message determines its previous hash and its id text, even when the id contains the separator. */
  lemma MessageInjective(a: Option<string>, p: string, b: Option<string>, q: string)
    requires '|' !in p && '|' !in q
    requires Message(a, p) == Message(b, q)
    ensures p == q && IdText(a) == IdText(b)
  {
    var m, n := Message(a, p), |Message(a, p)|;
    assert m[n - |p| - 1] == '|' && m[n - |q| - 1] == '|';
    assert m[n - |p|..] == p && m[n - |q|..] == q;
    assert m[..n - |p| - 1] == IdText(a) && m[..n - |q| - 1] == IdText(b);
  }

  lemma KeyedIsClean(hmac: string -> string, id: Option<string>, prev: string)
    requires CollisionFree(hmac)
    ensures CleanAt(Keyed(hmac), id, prev)
  {
    var message := Message(id, prev);
    assert hmac(message) != "";
  }

  lemma KeyedIsInjective(hmac: string -> string, a: Option<string>, p: string, b: Option<string>, q: string)
    requires CollisionFree(hmac)
    ensures InjectiveAt(Keyed(hmac), a, p, b, q)
  {
    if '|' !in p && '|' !in q && Keyed(hmac)(a, p) == Keyed(hmac)(b, q) {
      MessageInjective(a, p, b, q);
    }
  }

  /** A collision-free HMAC over the rendered message gives a chain MAC. */
  lemma KeyedSeparates(hmac: string -> string)
    requires CollisionFree(hmac)
    ensures Separates(Keyed(hmac))
  {
    forall id, prev
      ensures CleanAt(Keyed(hmac), id, prev)
    {
      KeyedIsClean(hmac, id, prev);
    }
    forall a, p, b, q
      ensures InjectiveAt(Keyed(hmac), a, p, b, q)
    {
      KeyedIsInjective(hmac, a, p, b, q);
    }
  }

  // ---------------------------------------------------------------- linking a batch

  function Links(mac: Mac, events: seq<Event>, start: int, prev: string): (links: seq<Link>)
    ensures |links| == |events|
  {
    if events == [] then
      []
    else
      var hash := mac(events[0].id, prev);
      [Link(events[0], start, Some(hash))] + Links(mac, events[1..], start + 1, hash)
  }

  /** Without a secret the events carry their sequence only. */
  function Unhashed(events: seq<Event>, start: int): (links: seq<Link>)
    ensures |links| == |events|
  {
    seq(|events|, i requires 0 <= i < |events| => Link(events[i], start + i, None))
  }

  /** The hash the link at position `p` extends; at `p == |chain|` it is the head. */
  function HashAt(chain: seq<Link>, p: nat): string
    requires p <= |chain|
  {
    if p == 0 || chain[p - 1].hash.None? then "" else chain[p - 1].hash.value
  }

  function Head(s: State): string {
    if s.doc.Some? then s.doc.value.hash else ""
  }

  // ---------------------------------------------------------------- the steps

  function LocalOf(s: State, c: int): Local {
    if c in s.locals then s.locals[c] else Idle
  }

  /** One failed attempt: the fifth one gives the batch up. */
  function Retry(events: seq<Event>, keyed: bool, attempt: nat): Local {
    if attempt + 1 < MAX_ATTEMPTS then Flushing(events, keyed, attempt + 1) else Idle
  }

  function AfterReserve(doc: Option<Doc>, count: int): Doc {
    match doc
    case None => Doc("", count)
    case Some(d) => Doc(d.hash, d.sequence + count)
  }

  predicate DuplicateId(stored: seq<Link>, id: Option<string>) {
    id.Some? && exists x :: x in stored && x.event.id == id
  }

  function ReserveStep(s: State, c: int, l: Local, outcome: Outcome): State
    requires l.Flushing?
  {
    var doc := if outcome == NotApplied then s.doc else Some(AfterReserve(s.doc, |l.events|));
    var l' :=
      if outcome == Answered then
        Reserved(l.events, l.keyed, l.attempt, doc.value.sequence - |l.events|, doc.value.hash)
      else
        Retry(l.events, l.keyed, l.attempt);
    s.(doc := doc, locals := s.locals[c := l'])
  }

  function SwapStep(mac: Mac, s: State, c: int, l: Local, outcome: Outcome): State
    requires l.Reserved?
  {
    if !l.keyed then
      s.(locals := s.locals[c := Writing(Unhashed(l.events, l.start), 0, None)])
    else if outcome == NotApplied then
      s.(locals := s.locals[c := Idle])
    else if s.doc.Some? && s.doc.value.hash == l.prev then
      var links := Links(mac, l.events, l.start, l.prev);
      var chain := s.chain + links;
      var l' := if outcome == Answered then Writing(links, 0, Some(|s.batches|)) else Idle;
      s.(doc := Some(s.doc.value.(hash := HashAt(chain, |chain|))),
         locals := s.locals[c := l'],
         chain := chain,
         batches := s.batches + [Batch(|s.chain|, |chain|, 0)])
    else if outcome == Answered then
      s.(locals := s.locals[c := Retry(l.events, l.keyed, l.attempt)])
    else
      s.(locals := s.locals[c := Idle])
  }

  function InsertStep(s: State, c: int, l: Local, accepted: bool): State
    requires l.Writing? && l.next < |l.links|
  {
    if !accepted || DuplicateId(s.stored, l.links[l.next].event.id) then
      s.(locals := s.locals[c := Idle])
    else
      var l' := if l.next + 1 < |l.links| then l.(next := l.next + 1) else Idle;
      var batches :=
        if l.batch.Some? && l.batch.value < |s.batches| then
          var b := s.batches[l.batch.value];
          s.batches[l.batch.value := b.(stored := b.stored + 1)]
        else
          s.batches;
      s.(stored := s.stored + [l.links[l.next]], locals := s.locals[c := l'], batches := batches)
  }

  /** One atomic step; an action that is not enabled changes nothing. */
  function Step(mac: Mac, s: State, a: Action): State {
    var l := LocalOf(s, a.c);
    match a
    case Begin(c, events, keyed) =>
      if l.Idle? && events != [] then s.(locals := s.locals[c := Flushing(events, keyed, 0)]) else s
    case Reserve(c, outcome) =>
      if l.Flushing? then ReserveStep(s, c, l, outcome) else s
    case Swap(c, outcome) =>
      if l.Reserved? then SwapStep(mac, s, c, l, outcome) else s
    case Insert(c, accepted) =>
      if l.Writing? && l.next < |l.links| then InsertStep(s, c, l, accepted) else s
    case Crash(c) =>
      s.(locals := s.locals[c := Idle])
  }

  function Run(mac: Mac, s: State, actions: seq<Action>): State {
    if actions == [] then
      s
    else
      Step(mac, Run(mac, s, actions[..|actions| - 1]), actions[|actions| - 1])
  }

  lemma RunAppend(mac: Mac, s: State, a: seq<Action>, b: seq<Action>)
    ensures Run(mac, s, a + b) == Run(mac, Run(mac, s, a), b)
  {
    if b == [] {
      assert a + b == a;
    } else {
      var n := |b| - 1;
      assert (a + b)[..|a + b| - 1] == a + b[..n];
      RunAppend(mac, s, a, b[..n]);
    }
  }

  // ---------------------------------------------------------------- the invariant

  /** The link at position `i` hashes its predecessor; `prev` is what the first one extends. */
  ghost predicate LinkedAt(mac: Mac, chain: seq<Link>, i: int, prev: string)
    requires 0 <= i < |chain|
  {
    chain[i].hash == Some(mac(chain[i].event.id, if i == 0 then prev else HashAt(chain, i)))
  }

  predicate Increasing(log: seq<Link>) {
    forall i, j :: 0 <= i < j < |log| ==> log[i].sequence < log[j].sequence
  }

  /** Every link hashes its predecessor and sequences increase strictly along the chain. */
  ghost predicate Linked(mac: Mac, chain: seq<Link>) {
    && (forall i :: 0 <= i < |chain| ==> LinkedAt(mac, chain, i, ""))
    && Increasing(chain)
  }

  predicate Adjacent(batches: seq<Batch>, k: int)
    requires 0 <= k < |batches|
  {
    batches[k].lo == if k == 0 then 0 else batches[k - 1].hi
  }

  /** The batches tile the chain, in order, with consecutive sequences inside each. */
  ghost predicate Tiled(chain: seq<Link>, batches: seq<Batch>) {
    && (forall k :: 0 <= k < |batches| ==>
          batches[k].lo < batches[k].hi <= |chain| && batches[k].lo + batches[k].stored <= batches[k].hi)
    && (forall k :: 0 <= k < |batches| ==> Adjacent(batches, k))
    && |chain| == (if batches == [] then 0 else batches[|batches| - 1].hi)
  }

  ghost predicate Consecutive(chain: seq<Link>, batches: seq<Batch>)
    requires Tiled(chain, batches)
  {
    forall k, i :: 0 <= k < |batches| && batches[k].lo <= i < batches[k].hi ==>
      chain[i].sequence == chain[batches[k].lo].sequence + (i - batches[k].lo)
  }

  predicate InPrefix(batches: seq<Batch>, k: int, i: int) {
    0 <= k < |batches| && batches[k].lo <= i < batches[k].lo + batches[k].stored
  }

  /** The hashed documents are the inserted prefixes of the batches, each exactly once. */
  ghost predicate StoredPrefixes(chain: seq<Link>, batches: seq<Batch>, stored: seq<Link>)
    requires Tiled(chain, batches)
  {
    && (forall x :: x in stored && x.hash.Some? ==> exists k, i :: InPrefix(batches, k, i) && x == chain[i])
    && (forall k, i :: InPrefix(batches, k, i) ==> chain[i] in stored)
    && (forall i, j :: 0 <= i < j < |stored| && stored[i].hash.Some? ==> stored[i] != stored[j])
  }

  /** A snapshot a reserver holds: some past head, with every sequence up to it below the reserved range. */
  ghost predicate Snapshot(chain: seq<Link>, p: int, prev: string, start: int) {
    && 0 <= p <= |chain|
    && prev == HashAt(chain, p)
    && (p > 0 ==> chain[p - 1].sequence < start)
  }

  ghost predicate LocalInv(s: State, l: Local)
    requires Tiled(s.chain, s.batches)
  {
    match l
    case Idle => true
    case Flushing(events, _, attempt) => events != [] && attempt < MAX_ATTEMPTS
    case Reserved(events, _, attempt, start, prev) =>
      && events != [] && attempt < MAX_ATTEMPTS && s.doc.Some?
      && start + |events| <= s.doc.value.sequence
      && exists p :: Snapshot(s.chain, p, prev, start)
    case Writing(links, next, batch) =>
      && next < |links|
      && (batch.None? ==> forall x :: x in links ==> x.hash.None?)
      && (batch.Some? ==>
            && batch.value < |s.batches|
            && var b := s.batches[batch.value];
            && links == s.chain[b.lo..b.hi] && next == b.stored)
  }

  ghost predicate OneWriterPerBatch(s: State) {
    forall c, d :: c in s.locals && d in s.locals && c != d ==>
      !(&& s.locals[c].Writing? && s.locals[d].Writing?
        && s.locals[c].batch.Some? && s.locals[c].batch == s.locals[d].batch)
  }

  ghost predicate LocalsInv(s: State)
    requires Tiled(s.chain, s.batches)
  {
    && OneWriterPerBatch(s)
    && (forall c :: c in s.locals ==> LocalInv(s, s.locals[c]))
  }

  ghost predicate DocInv(s: State) {
    && (s.doc.None? ==> s.chain == [])
    && (s.doc.Some? ==> s.doc.value.hash == HashAt(s.chain, |s.chain|))
    && (s.doc.Some? && s.chain != [] ==> s.chain[|s.chain| - 1].sequence < s.doc.value.sequence)
  }

  ghost predicate Inv(mac: Mac, s: State) {
    && Linked(mac, s.chain)
    && Tiled(s.chain, s.batches)
    && Consecutive(s.chain, s.batches)
    && StoredPrefixes(s.chain, s.batches, s.stored)
    && DocInv(s)
    && LocalsInv(s)
  }

  // ---------------------------------------------------------------- no hash occurs twice

  /** No hash occurs at two positions, the initial "" included: a least repeated pair would repeat
      one position earlier. */
  lemma {:induction false} HashesDistinct(mac: Mac, chain: seq<Link>, i: nat, j: nat)
    requires Separates(mac) && Linked(mac, chain)
    requires i < j <= |chain|
    ensures HashAt(chain, i) != HashAt(chain, j)
  {
    HashIsMac(mac, chain, j);
    if i > 0 && HashAt(chain, i) == HashAt(chain, j) {
      HashIsMac(mac, chain, i);
      assert InjectiveAt(mac, chain[i - 1].event.id, HashAt(chain, i - 1), chain[j - 1].event.id, HashAt(chain, j - 1));
      HashesDistinct(mac, chain, i - 1, j - 1);
    }
  }

  lemma HashIsMac(mac: Mac, chain: seq<Link>, i: nat)
    requires Separates(mac) && Linked(mac, chain) && 0 < i <= |chain|
    ensures HashAt(chain, i) == mac(chain[i - 1].event.id, HashAt(chain, i - 1)) != ""
    ensures '|' !in HashAt(chain, i - 1)
  {
    assert LinkedAt(mac, chain, i - 1, "") && CleanAt(mac, chain[i - 1].event.id, HashAt(chain, i - 1));
    if i > 1 {
      assert LinkedAt(mac, chain, i - 2, "") && CleanAt(mac, chain[i - 2].event.id, HashAt(chain, i - 2));
    }
  }

  // ---------------------------------------------------------------- each step keeps the invariant

  lemma {:induction false} LinksShape(mac: Mac, events: seq<Event>, start: int, prev: string)
    ensures var links := Links(mac, events, start, prev);
      && (forall i :: 0 <= i < |links| ==> links[i].event == events[i] && links[i].sequence == start + i)
      && (forall i :: 0 <= i < |links| ==> LinkedAt(mac, links, i, prev))
  {
    if events != [] {
      var hash := mac(events[0].id, prev);
      var links, rest := Links(mac, events, start, prev), Links(mac, events[1..], start + 1, hash);
      LinksShape(mac, events[1..], start + 1, hash);
      forall i | 0 <= i < |links|
        ensures links[i].event == events[i] && links[i].sequence == start + i && LinkedAt(mac, links, i, prev)
      {
        if i > 0 {
          assert links[i] == rest[i - 1] && LinkedAt(mac, rest, i - 1, hash);
        }
      }
    }
  }

  /** Extending the head with a batch whose range lies above the chain keeps the chain linked. */
  lemma ExtendLinked(mac: Mac, chain: seq<Link>, events: seq<Event>, start: int)
    requires Linked(mac, chain)
    requires chain != [] ==> chain[|chain| - 1].sequence < start
    ensures Linked(mac, chain + Links(mac, events, start, HashAt(chain, |chain|)))
  {
    var n, links := |chain|, Links(mac, events, start, HashAt(chain, |chain|));
    var grown := chain + links;
    LinksShape(mac, events, start, HashAt(chain, n));
    forall i | 0 <= i < |grown|
      ensures LinkedAt(mac, grown, i, "")
    {
      if i < n {
        assert LinkedAt(mac, chain, i, "") && HashAt(grown, i) == HashAt(chain, i);
      } else {
        assert LinkedAt(mac, links, i - n, HashAt(chain, n));
      }
    }
  }

  lemma LocalStable(s: State, t: State, l: Local)
    requires Tiled(s.chain, s.batches) && Tiled(t.chain, t.batches) && LocalInv(s, l)
    requires s.chain <= t.chain && |s.batches| <= |t.batches|
    requires s.doc.Some? ==> t.doc.Some? && s.doc.value.sequence <= t.doc.value.sequence
    requires l.Writing? && l.batch.Some? ==> t.batches[l.batch.value] == s.batches[l.batch.value]
    ensures LocalInv(t, l)
  {
    if l.Reserved? {
      var p :| Snapshot(s.chain, p, l.prev, l.start);
      assert Snapshot(t.chain, p, l.prev, l.start);
    }
  }

  /** When a swap applies, the head is the reserver's snapshot; as no hash repeats, nothing was
      committed in between, so the reserved range lies above the whole chain. */
  lemma SwapFindsNothingBetween(mac: Mac, s: State, l: Local)
    requires Separates(mac) && Inv(mac, s) && l.Reserved? && LocalInv(s, l)
    requires s.doc.Some? && s.doc.value.hash == l.prev
    ensures s.chain != [] ==> s.chain[|s.chain| - 1].sequence < l.start
  {
    var p :| Snapshot(s.chain, p, l.prev, l.start);
    if p < |s.chain| { HashesDistinct(mac, s.chain, p, |s.chain|); }
  }

  lemma TilesExtend(chain: seq<Link>, before: seq<Batch>, links: seq<Link>, batches: seq<Batch>)
    requires Tiled(chain, before) && links != []
    requires batches == before + [Batch(|chain|, |chain + links|, 0)]
    ensures Tiled(chain + links, batches)
  {
    forall k | 0 <= k < |batches|
      ensures Adjacent(batches, k)
    {
      if k < |before| { assert Adjacent(before, k); }
    }
  }

  lemma CommitKeepsChain(mac: Mac, s: State, l: Local, links: seq<Link>, batches: seq<Batch>)
    requires Separates(mac) && Inv(mac, s) && l.Reserved? && LocalInv(s, l)
    requires s.doc.Some? && s.doc.value.hash == l.prev
    requires links == Links(mac, l.events, l.start, l.prev)
    requires batches == s.batches + [Batch(|s.chain|, |s.chain + links|, 0)]
    ensures Linked(mac, s.chain + links)
    ensures Tiled(s.chain + links, batches) && Consecutive(s.chain + links, batches)
    ensures links[|links| - 1].sequence == l.start + |links| - 1 && links[|links| - 1].hash.Some?
  {
    SwapFindsNothingBetween(mac, s, l);
    ExtendLinked(mac, s.chain, l.events, l.start);
    LinksShape(mac, l.events, l.start, l.prev);
    assert LinkedAt(mac, links, |links| - 1, l.prev);
    TilesExtend(s.chain, s.batches, links, batches);
    forall k, i | 0 <= k < |batches| && batches[k].lo <= i < batches[k].hi
      ensures (s.chain + links)[i].sequence == (s.chain + links)[batches[k].lo].sequence + (i - batches[k].lo)
    {
      if k < |s.batches| {
        assert s.chain[i].sequence == s.chain[batches[k].lo].sequence + (i - batches[k].lo);
      }
    }
  }

  lemma SwapKeepsInv(mac: Mac, s: State, c: int, outcome: Outcome)
    requires Separates(mac) && Inv(mac, s) && LocalOf(s, c).Reserved?
    ensures Inv(mac, SwapStep(mac, s, c, LocalOf(s, c), outcome))
  {
    var l := LocalOf(s, c);
    if l.keyed && outcome != NotApplied && s.doc.Some? && s.doc.value.hash == l.prev {
      CommitKeepsInv(mac, s, c, outcome);
    } else {
      MissKeepsInv(mac, s, c, outcome);
    }
  }

  /** A swap that finds another head, or never arrives, leaves the chain alone. */
  lemma MissKeepsInv(mac: Mac, s: State, c: int, outcome: Outcome)
    requires Inv(mac, s) && LocalOf(s, c).Reserved?
    requires var l := LocalOf(s, c); !(l.keyed && outcome != NotApplied && s.doc.Some? && s.doc.value.hash == l.prev)
    ensures Inv(mac, SwapStep(mac, s, c, LocalOf(s, c), outcome))
  {
    LocalsStable(s, SwapStep(mac, s, c, LocalOf(s, c), outcome), c);
  }

  lemma LocalsStable(s: State, t: State, c: int)
    requires Tiled(s.chain, s.batches) && Tiled(t.chain, t.batches)
    requires s.chain <= t.chain && s.batches <= t.batches
    requires s.doc.Some? ==> t.doc.Some? && s.doc.value.sequence <= t.doc.value.sequence
    requires forall d :: d in t.locals && d != c ==> d in s.locals && t.locals[d] == s.locals[d]
    requires forall d :: d in s.locals ==> LocalInv(s, s.locals[d])
    ensures forall d :: d in t.locals && d != c ==> LocalInv(t, t.locals[d])
  {
    forall d | d in t.locals && d != c
      ensures LocalInv(t, t.locals[d])
    {
      LocalStable(s, t, s.locals[d]);
    }
  }

  lemma CommitKeepsLocals(s: State, c: int, links: seq<Link>, t: State, writer: Local)
    requires Tiled(s.chain, s.batches) && LocalsInv(s)
    requires t.chain == s.chain + links && t.batches == s.batches + [Batch(|s.chain|, |t.chain|, 0)]
    requires links != [] && Tiled(t.chain, t.batches)
    requires s.doc.Some? && t.doc.Some? && s.doc.value.sequence == t.doc.value.sequence
    requires t.locals == s.locals[c := writer]
    requires writer == Idle || writer == Writing(links, 0, Some(|s.batches|))
    ensures LocalsInv(t)
  {
    LocalsStable(s, t, c);
    assert t.chain[|s.chain|..] == links;
    forall d | d in s.locals && s.locals[d].Writing? && s.locals[d].batch.Some?
      ensures s.locals[d].batch.value < |s.batches|
    {
      assert LocalInv(s, s.locals[d]);
    }
  }

  lemma CommitKeepsInv(mac: Mac, s: State, c: int, outcome: Outcome)
    requires Separates(mac) && Inv(mac, s) && LocalOf(s, c).Reserved?
    requires var l := LocalOf(s, c); l.keyed && outcome != NotApplied && s.doc.Some? && s.doc.value.hash == l.prev
    ensures Inv(mac, SwapStep(mac, s, c, LocalOf(s, c), outcome))
  {
    var l, t := LocalOf(s, c), SwapStep(mac, s, c, LocalOf(s, c), outcome);
    var links := Links(mac, l.events, l.start, l.prev);
    CommitKeepsChain(mac, s, l, links, t.batches);
    SwapKeepsStored(s, t);
    CommitKeepsLocals(s, c, links, t, t.locals[c]);
  }

  lemma SwapKeepsStored(s: State, t: State)
    requires Tiled(s.chain, s.batches) && StoredPrefixes(s.chain, s.batches, s.stored)
    requires Tiled(t.chain, t.batches) && s.chain <= t.chain && t.stored == s.stored
    requires t.batches == s.batches + [Batch(|s.chain|, |t.chain|, 0)]
    ensures StoredPrefixes(t.chain, t.batches, t.stored)
  {
    forall x | x in t.stored && x.hash.Some?
      ensures exists k, i :: InPrefix(t.batches, k, i) && x == t.chain[i]
    {
      var k, i :| InPrefix(s.batches, k, i) && x == s.chain[i];
      assert InPrefix(t.batches, k, i);
    }
    forall k, i | InPrefix(t.batches, k, i)
      ensures t.chain[i] in t.stored
    {
      assert InPrefix(s.batches, k, i);
    }
  }

  lemma ReserveKeepsInv(mac: Mac, s: State, c: int, outcome: Outcome)
    requires Inv(mac, s) && LocalOf(s, c).Flushing?
    ensures Inv(mac, ReserveStep(s, c, LocalOf(s, c), outcome))
  {
    var l, t := LocalOf(s, c), ReserveStep(s, c, LocalOf(s, c), outcome);
    LocalsStable(s, t, c);
    if outcome == Answered {
      assert Snapshot(t.chain, |t.chain|, t.locals[c].prev, t.locals[c].start);
    }
  }

  lemma InsertKeepsLocals(s: State, t: State, c: int, accepted: bool)
    requires Tiled(s.chain, s.batches) && LocalsInv(s) && LocalOf(s, c).Writing?
    requires t == InsertStep(s, c, LocalOf(s, c), accepted)
    ensures Tiled(t.chain, t.batches) && LocalsInv(t)
  {
    assert LocalInv(s, LocalOf(s, c));
    forall k | 0 <= k < |t.batches|
      ensures Adjacent(t.batches, k)
    {
      assert Adjacent(s.batches, k);
    }
    forall d | d in t.locals && d != c
      ensures LocalInv(t, t.locals[d])
    {
      LocalStable(s, t, s.locals[d]);
    }
  }

  lemma InsertKeepsInv(mac: Mac, s: State, c: int, accepted: bool)
    requires Inv(mac, s) && LocalOf(s, c).Writing?
    ensures Inv(mac, InsertStep(s, c, LocalOf(s, c), accepted))
  {
    var l, t := LocalOf(s, c), InsertStep(s, c, LocalOf(s, c), accepted);
    InsertKeepsLocals(s, t, c, accepted);
    assert LocalInv(s, l);
    if t.batches != s.batches {
      InsertKeepsStored(s, t, l.batch.value);
    } else if t.stored != s.stored {
      InsertKeepsUnhashed(s, t);
    }
    ConsecutiveStable(s, t);
  }

  lemma ConsecutiveStable(s: State, t: State)
    requires Tiled(s.chain, s.batches) && Tiled(t.chain, t.batches) && Consecutive(s.chain, s.batches)
    requires s.chain == t.chain && |s.batches| == |t.batches|
    requires forall k :: 0 <= k < |s.batches| ==>
      s.batches[k].lo == t.batches[k].lo && s.batches[k].hi == t.batches[k].hi
    ensures Consecutive(t.chain, t.batches)
  {
  }

  lemma InsertKeepsUnhashed(s: State, t: State)
    requires Tiled(s.chain, s.batches) && StoredPrefixes(s.chain, s.batches, s.stored)
    requires t.chain == s.chain && t.batches == s.batches
    requires |t.stored| == |s.stored| + 1 && s.stored <= t.stored && t.stored[|s.stored|].hash.None?
    ensures StoredPrefixes(t.chain, t.batches, t.stored)
  {
    forall x | x in t.stored && x.hash.Some?
      ensures x in s.stored
    {
    }
  }

  lemma InsertKeepsStored(s: State, t: State, k: nat)
    requires Tiled(s.chain, s.batches) && StoredPrefixes(s.chain, s.batches, s.stored)
    requires Increasing(s.chain)
    requires k < |s.batches| && s.batches[k].lo + s.batches[k].stored < s.batches[k].hi
    requires t.chain == s.chain && Tiled(t.chain, t.batches)
    requires t.batches == s.batches[k := s.batches[k].(stored := s.batches[k].stored + 1)]
    requires t.stored == s.stored + [s.chain[s.batches[k].lo + s.batches[k].stored]]
    ensures StoredPrefixes(t.chain, t.batches, t.stored)
  {
    var n := s.batches[k].lo + s.batches[k].stored;
    forall x | x in t.stored && x.hash.Some?
      ensures exists k, i :: InPrefix(t.batches, k, i) && x == t.chain[i]
    {
      if x in s.stored {
        var k', i :| InPrefix(s.batches, k', i) && x == s.chain[i];
        assert InPrefix(t.batches, k', i);
      } else {
        assert InPrefix(t.batches, k, n);
      }
    }
    forall k', i | InPrefix(t.batches, k', i)
      ensures t.chain[i] in t.stored
    {
      assert InPrefix(s.batches, k', i) || i == n;
    }
    forall i | 0 <= i < |s.stored| && s.stored[i].hash.Some?
      ensures s.stored[i] != s.chain[n]
    {
      assert s.stored[i] in s.stored;
      NotYetStored(s, k, s.stored[i]);
    }
  }

  /** The next link of a batch is not among the hashed documents. */
  lemma NotYetStored(s: State, k: nat, x: Link)
    requires Tiled(s.chain, s.batches) && StoredPrefixes(s.chain, s.batches, s.stored) && Increasing(s.chain)
    requires k < |s.batches| && s.batches[k].lo + s.batches[k].stored < s.batches[k].hi
    requires x in s.stored && x.hash.Some?
    ensures x != s.chain[s.batches[k].lo + s.batches[k].stored]
  {
    var n := s.batches[k].lo + s.batches[k].stored;
    var k', j :| InPrefix(s.batches, k', j) && x == s.chain[j];
    if j == n { TilesDisjoint(s.chain, s.batches, k, k', n); }
  }

  lemma TilesDisjoint(chain: seq<Link>, batches: seq<Batch>, k: nat, m: nat, i: nat)
    requires Tiled(chain, batches) && k < |batches| && m < |batches|
    requires batches[k].lo <= i < batches[k].hi && batches[m].lo <= i < batches[m].hi
    ensures k == m
  {
    if k < m { TilesOrdered(chain, batches, k, m); }
    if m < k { TilesOrdered(chain, batches, m, k); }
  }

  lemma TilesOrdered(chain: seq<Link>, batches: seq<Batch>, k: nat, m: nat)
    requires Tiled(chain, batches) && k < m < |batches|
    ensures batches[k].hi <= batches[m].lo
    decreases m - k
  {
    assert Adjacent(batches, m);
    if k + 1 < m { TilesOrdered(chain, batches, k, m - 1); }
  }

  lemma StepKeepsInv(mac: Mac, s: State, a: Action)
    requires Separates(mac) && Inv(mac, s)
    ensures Inv(mac, Step(mac, s, a))
  {
    var l := LocalOf(s, a.c);
    match a
    case Begin(_, _, _) => LocalStepKeepsInv(mac, s, a);
    case Reserve(c, outcome) => if l.Flushing? { ReserveKeepsInv(mac, s, c, outcome); }
    case Swap(c, outcome) => if l.Reserved? { SwapKeepsInv(mac, s, c, outcome); }
    case Insert(c, accepted) => if l.Writing? { InsertKeepsInv(mac, s, c, accepted); }
    case Crash(_) => LocalStepKeepsInv(mac, s, a);
  }

  lemma LocalStepKeepsInv(mac: Mac, s: State, a: Action)
    requires Inv(mac, s) && (a.Begin? || a.Crash?)
    ensures Inv(mac, Step(mac, s, a))
  {
    LocalsStable(s, Step(mac, s, a), a.c);
  }

  lemma {:induction false} RunKeepsInv(mac: Mac, s: State, actions: seq<Action>)
    requires Separates(mac) && Inv(mac, s)
    ensures Inv(mac, Run(mac, s, actions))
  {
    if actions != [] {
      var n := |actions| - 1;
      RunKeepsInv(mac, s, actions[..n]);
      StepKeepsInv(mac, Run(mac, s, actions[..n]), actions[n]);
    }
  }

  lemma ReachableInv(hmac: string -> string, actions: seq<Action>)
    requires CollisionFree(hmac)
    ensures Separates(Keyed(hmac)) && Inv(Keyed(hmac), Run(Keyed(hmac), INIT, actions))
  {
    KeyedSeparates(hmac);
    RunKeepsInv(Keyed(hmac), INIT, actions);
  }

  // ---------------------------------------------------------------- linearisation

  /** In every reachable state: swap order, link order and sequence order agree, and no hash, the
      initial "" included, ever stands at two positions of the chain. */
  lemma ChainIsLinearised(hmac: string -> string, actions: seq<Action>)
    requires CollisionFree(hmac)
    ensures var mac, s := Keyed(hmac), Run(Keyed(hmac), INIT, actions);
      && Linked(mac, s.chain)
      && Tiled(s.chain, s.batches) && Consecutive(s.chain, s.batches)
      && Head(s) == HashAt(s.chain, |s.chain|)
      && (forall i, j :: 0 <= i < j <= |s.chain| ==> HashAt(s.chain, i) != HashAt(s.chain, j))
  {
    ReachableInv(hmac, actions);
    var mac, s := Keyed(hmac), Run(Keyed(hmac), INIT, actions);
    forall i, j | 0 <= i < j <= |s.chain|
      ensures HashAt(s.chain, i) != HashAt(s.chain, j)
    {
      HashesDistinct(mac, s.chain, i, j);
    }
  }

  /** A swap takes effect exactly when it reaches the database with the present head as its
      snapshot, and then it appends the linked batch above every sequence committed so far. */
  lemma SwapAppendsBatch(hmac: string -> string, actions: seq<Action>, s: State, c: int, outcome: Outcome)
    requires CollisionFree(hmac)
    requires s == Run(Keyed(hmac), INIT, actions) && LocalOf(s, c).Reserved?
    ensures var l, t := LocalOf(s, c), Step(Keyed(hmac), s, Swap(c, outcome));
      if l.keyed && outcome != NotApplied && l.prev == Head(s) then
        && t.chain == s.chain + Links(Keyed(hmac), l.events, l.start, Head(s))
        && t.batches == s.batches + [Batch(|s.chain|, |s.chain| + |l.events|, 0)]
        && Head(t) != Head(s)
        && forall x :: x in s.chain ==> x.sequence < l.start
      else
        t.chain == s.chain && t.batches == s.batches && Head(t) == Head(s)
  {
    ReachableInv(hmac, actions);
    StepKeepsInv(Keyed(hmac), s, Swap(c, outcome));
    SwapEffect(Keyed(hmac), s, c, outcome);
  }

  lemma SwapEffect(mac: Mac, s: State, c: int, outcome: Outcome)
    requires Separates(mac) && Inv(mac, s) && LocalOf(s, c).Reserved?
    requires Inv(mac, SwapStep(mac, s, c, LocalOf(s, c), outcome))
    ensures var l, t := LocalOf(s, c), SwapStep(mac, s, c, LocalOf(s, c), outcome);
      if l.keyed && outcome != NotApplied && l.prev == Head(s) then
        && t.chain == s.chain + Links(mac, l.events, l.start, Head(s))
        && t.batches == s.batches + [Batch(|s.chain|, |s.chain| + |l.events|, 0)]
        && Head(t) != Head(s)
        && forall x :: x in s.chain ==> x.sequence < l.start
      else
        t.chain == s.chain && t.batches == s.batches && Head(t) == Head(s)
  {
    var l, t := LocalOf(s, c), SwapStep(mac, s, c, LocalOf(s, c), outcome);
    assert LocalInv(s, l);
    if l.keyed && outcome != NotApplied && l.prev == Head(s) {
      SwapFindsNothingBetween(mac, s, l);
      HeadMoves(mac, s, t);
    }
  }

  lemma HeadMoves(mac: Mac, s: State, t: State)
    requires Separates(mac) && Inv(mac, s) && Inv(mac, t) && s.chain <= t.chain && |s.chain| < |t.chain|
    ensures Head(t) != Head(s)
  {
    HashesDistinct(mac, t.chain, |s.chain|, |t.chain|);
    HashAtPrefix(s.chain, t.chain, |s.chain|);
  }

  lemma HashAtPrefix(chain: seq<Link>, grown: seq<Link>, p: nat)
    requires chain <= grown && p <= |chain|
    ensures HashAt(chain, p) == HashAt(grown, p)
  {
  }

  lemma {:induction false} ChainOnlyGrows(mac: Mac, s: State, actions: seq<Action>)
    ensures s.chain <= Run(mac, s, actions).chain
  {
    if actions != [] {
      ChainOnlyGrows(mac, s, actions[..|actions| - 1]);
    }
  }

  /** No ABA: a head that is seen again was never replaced, so nothing was committed meanwhile. */
  lemma HeadNeverReturns(hmac: string -> string, before: seq<Action>, after: seq<Action>)
    requires CollisionFree(hmac)
    ensures var s, t := Run(Keyed(hmac), INIT, before), Run(Keyed(hmac), INIT, before + after);
      Head(s) == Head(t) <==> s.chain == t.chain
  {
    var mac := Keyed(hmac);
    var s, t := Run(mac, INIT, before), Run(mac, INIT, before + after);
    ReachableInv(hmac, before);
    ReachableInv(hmac, before + after);
    RunAppend(mac, INIT, before, after);
    ChainOnlyGrows(mac, s, after);
    HashAtPrefix(s.chain, t.chain, |s.chain|);
    if |s.chain| < |t.chain| {
      HashesDistinct(mac, t.chain, |s.chain|, |t.chain|);
    }
  }

  /** What the collection holds, whatever was lost or crashed: exactly the inserted prefixes of the
      committed batches, each link once, with the chain's own sequence and hash. */
  lemma StoredEventsArePrefixes(hmac: string -> string, actions: seq<Action>)
    requires CollisionFree(hmac)
    ensures var s := Run(Keyed(hmac), INIT, actions);
      Tiled(s.chain, s.batches) && StoredPrefixes(s.chain, s.batches, s.stored)
  {
    ReachableInv(hmac, actions);
  }
}
