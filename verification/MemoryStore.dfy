/** The in-memory store of the middleware: a map in insertion order that expires keys on reading and
    evicts its oldest key on a fresh insertion. Times are milliseconds; the clock may jump. */
module MemoryStore {
  import opened Wrappers

  /** No expiry is written 0, which the source reads the same way. */
  datatype Entry = Entry(value: string, expiresAt: int)

  type Entries = map<string, Entry>

  datatype Store = Store(order: seq<string>, entries: Entries) {
    /** Every key stands once in the insertion order. */
    ghost predicate Valid() {
      Distinct(order) && Members(order) == entries.Keys
    }
  }

  predicate Live(e: Entry, now: int) {
    e.expiresAt == 0 || now <= e.expiresAt
  }

  function Answer(entries: Entries, key: string, now: int): Option<string> {
    if key in entries && Live(entries[key], now) then Some(entries[key].value) else None
  }

  function Made(value: string, ttl: int, now: int): Entry {
    Entry(value, if ttl == 0 then 0 else now + ttl * 1000)
  }

  function Without(order: seq<string>, key: string): seq<string> {
    if order == [] then []
    else if order[|order| - 1] == key then Without(order[..|order| - 1], key)
    else Without(order[..|order| - 1], key) + [order[|order| - 1]]
  }

  function Removed(s: Store, key: string): Store {
    Store(Without(s.order, key), s.entries - {key})
  }

  function AfterGet(s: Store, key: string, now: int): Store {
    if key in s.entries && !Live(s.entries[key], now) then Removed(s, key) else s
  }

  /** The oldest key goes, unless it is the empty string. */
  function Evicted(s: Store): Store {
    if s.order != [] && s.order[0] != "" then Removed(s, s.order[0]) else s
  }

  /** A present key keeps its place. */
  function Put(s: Store, key: string, e: Entry): Store {
    Store(if key in s.entries then s.order else s.order + [key], s.entries[key := e])
  }

  function AfterSet(s: Store, maxKeys: int, key: string, e: Entry): Store {
    Put(if |s.order| >= maxKeys && key !in s.entries then Evicted(s) else s, key, e)
  }

  // ---------------------------------------------------------------- runs

  datatype State = State(now: int, store: Store, answers: seq<Option<string>>)

  datatype Action =
    | Clock(now: int)
    | Get(key: string)
    | Set(key: string, value: string, ttl: int)
    | Del(key: string)
    | Clear

  const EMPTY := Store([], map[])

  const INIT := State(0, EMPTY, [])

  function Step(maxKeys: int, s: State, a: Action): State {
    match a
    case Clock(now) => s.(now := now)
    case Get(key) =>
      s.(store := AfterGet(s.store, key, s.now), answers := s.answers + [Answer(s.store.entries, key, s.now)])
    case Set(key, value, ttl) => s.(store := AfterSet(s.store, maxKeys, key, Made(value, ttl, s.now)))
    case Del(key) => s.(store := Removed(s.store, key))
    case Clear => s.(store := EMPTY)
  }

  function Run(maxKeys: int, s: State, actions: seq<Action>): State {
    if actions == [] then s else Step(maxKeys, Run(maxKeys, s, actions[..|actions| - 1]), actions[|actions| - 1])
  }

  // ---------------------------------------------------------------- insertion order

  /** How many keys were inserted after this one. */
  function Behind(order: seq<string>, key: string): nat {
    if order == [] || order[|order| - 1] == key then 0 else 1 + Behind(order[..|order| - 1], key)
  }

  ghost predicate Distinct(order: seq<string>) {
    forall i, j :: 0 <= i < j < |order| ==> order[i] != order[j]
  }

  lemma {:induction false} WithoutMembers(order: seq<string>, key: string)
    requires Distinct(order)
    ensures Members(Without(order, key)) == Members(order) - {key} && Distinct(Without(order, key))
  {
    if order != [] {
      var init, x := order[..|order| - 1], order[|order| - 1];
      WithoutMembers(init, key);
      assert Members(order) == Members(init) + {x};
      assert x !in Members(init);
      var r := Without(init, key);
      assert Members(r + [x]) == Members(r) + {x};
      forall i | 0 <= i < |r|
        ensures r[i] != x
      {
        assert r[i] in Members(r);
      }
    }
  }

  lemma {:induction false} WithoutBehind(order: seq<string>, key: string, other: string)
    requires key != other && other in Members(order)
    ensures Behind(Without(order, key), other) <= Behind(order, other)
  {
    var init, x := order[..|order| - 1], order[|order| - 1];
    assert Members(order) == Members(init) + {x};
    if x == other {
      assert (Without(init, key) + [x])[|Without(init, key)|] == x;
    } else {
      WithoutBehind(init, key, other);
      if x != key { assert (Without(init, key) + [x])[..|Without(init, key)|] == Without(init, key); }
    }
  }

  /** The oldest key has all others behind it. */
  lemma {:induction false} OldestBehind(order: seq<string>)
    requires Distinct(order) && order != []
    ensures Behind(order, order[0]) == |order| - 1
  {
    if |order| > 1 { OldestBehind(order[..|order| - 1]); }
  }

  lemma {:induction false} WithoutOldest(order: seq<string>)
    requires Distinct(order) && order != []
    ensures Without(order, order[0]) == order[1..]
  {
    if |order| > 1 {
      WithoutOldest(order[..|order| - 1]);
    } else {
      assert order[..0] == [];
    }
  }

  lemma WithoutSize(order: seq<string>, key: string)
    requires Distinct(order)
    ensures |Without(order, key)| == |order| - if key in Members(order) then 1 else 0
  {
    WithoutMembers(order, key);
    MembersSize(order);
    MembersSize(Without(order, key));
  }

  lemma RemovedValid(s: Store, key: string)
    requires s.Valid()
    ensures Removed(s, key).Valid()
  {
    WithoutMembers(s.order, key);
  }

  lemma PutValid(s: Store, key: string, e: Entry)
    requires s.Valid()
    ensures Put(s, key, e).Valid()
  {
    assert Members(s.order + [key]) == Members(s.order) + {key};
    if key !in s.entries {
      forall i | 0 <= i < |s.order|
        ensures s.order[i] != key
      {
        assert s.order[i] in Members(s.order);
      }
    }
  }

  lemma StepKeepsValid(maxKeys: int, s: State, a: Action)
    requires s.store.Valid()
    ensures Step(maxKeys, s, a).store.Valid()
  {
    match a
    case Clock(_) =>
    case Get(key) => RemovedValid(s.store, key);
    case Set(key, value, ttl) => {
      if s.store.order != [] { RemovedValid(s.store, s.store.order[0]); }
      var t := if |s.store.order| >= maxKeys && key !in s.store.entries then Evicted(s.store) else s.store;
      PutValid(t, key, Made(value, ttl, s.now));
    }
    case Del(key) => RemovedValid(s.store, key);
    case Clear =>
  }

  lemma {:induction false} RunKeepsValid(maxKeys: int, s: State, actions: seq<Action>)
    requires s.store.Valid()
    ensures Run(maxKeys, s, actions).store.Valid()
  {
    if actions != [] {
      RunKeepsValid(maxKeys, s, actions[..|actions| - 1]);
      StepKeepsValid(maxKeys, Run(maxKeys, s, actions[..|actions| - 1]), actions[|actions| - 1]);
    }
  }

  // ---------------------------------------------------------------- the bound

  /** A set keeps the bound exactly unless a fresh key meets a full store that evicts nothing: one
      with no room at all, or one whose oldest key is "". */
  lemma SetKeepsBoundIff(s: Store, maxKeys: int, key: string, e: Entry)
    requires s.Valid() && |s.order| <= maxKeys
    ensures |AfterSet(s, maxKeys, key, e).order| <= maxKeys <==>
      key in s.entries || |s.order| < maxKeys || (maxKeys >= 1 && s.order[0] != "")
  {
    if s.order != [] {
      WithoutSize(s.order, s.order[0]);
      assert s.order[0] in Members(s.order);
    }
  }

  predicate Named(a: Action) {
    a.Set? ==> a.key != ""
  }

  ghost predicate AllNamed(actions: seq<Action>) {
    forall i :: 0 <= i < |actions| ==> Named(actions[i])
  }

  /** The bound that holds: even a store with no room takes one key. */
  function Room(maxKeys: int): int {
    if maxKeys < 1 then 1 else maxKeys
  }

  lemma NamedSetKeepsRoom(s: Store, maxKeys: int, key: string, e: Entry)
    requires s.Valid() && |s.order| <= Room(maxKeys) && "" !in s.entries
    ensures |AfterSet(s, maxKeys, key, e).order| <= Room(maxKeys)
  {
    if s.order != [] {
      assert s.order[0] in Members(s.order);
      WithoutSize(s.order, s.order[0]);
    }
  }

  /** Without the empty key no run ever holds more than the bound, or than one key. */
  lemma {:induction false} SizeIsBounded(maxKeys: int, actions: seq<Action>)
    requires AllNamed(actions)
    ensures var s := Run(maxKeys, INIT, actions).store;
      s.Valid() && |s.order| <= Room(maxKeys) && "" !in s.entries
  {
    if actions != [] {
      var n := |actions| - 1;
      SizeIsBounded(maxKeys, actions[..n]);
      var s, a := Run(maxKeys, INIT, actions[..n]), actions[n];
      StepKeepsValid(maxKeys, s, a);
      assert Named(a);
      match a
      case Set(key, value, ttl) => NamedSetKeepsRoom(s.store, maxKeys, key, Made(value, ttl, s.now));
      case Get(key) => WithoutSize(s.store.order, key);
      case Del(key) => WithoutSize(s.store.order, key);
      case _ =>
    }
  }

  ghost predicate StaysWithin(maxKeys: int, actions: seq<Action>) {
    AllNamed(actions) ==> |Run(maxKeys, INIT, actions).store.order| <= maxKeys
  }

  /** Without the empty key every run stays within maxKeys if and only if maxKeys is at least one. */
  lemma BoundHoldsIff(maxKeys: int)
    ensures (forall actions :: StaysWithin(maxKeys, actions)) <==> maxKeys >= 1
  {
    if maxKeys >= 1 {
      forall actions
        ensures StaysWithin(maxKeys, actions)
      {
        if AllNamed(actions) { SizeIsBounded(maxKeys, actions); }
      }
    } else {
      var a := Set("k", "", 0);
      assert [a][..0] == [] && Run(maxKeys, INIT, [a]) == Step(maxKeys, INIT, a);
      assert |Run(maxKeys, INIT, [a]).store.order| == 1;
      assert !StaysWithin(maxKeys, [a]);
    }
  }

  function Inserts(keys: seq<string>, value: string): seq<Action> {
    seq(|keys|, i requires 0 <= i < |keys| => Set(keys[i], value, 0))
  }

  lemma RunInserts(maxKeys: int, keys: seq<string>, value: string)
    requires keys != []
    ensures var n := |keys| - 1;
      Run(maxKeys, INIT, Inserts(keys, value)) ==
      Step(maxKeys, Run(maxKeys, INIT, Inserts(keys[..n], value)), Set(keys[n], value, 0))
  {
    var n := |keys| - 1;
    assert Inserts(keys, value)[..n] == Inserts(keys[..n], value);
  }

  lemma NeverEvicts(maxKeys: int, s: Store, key: string, e: Entry)
    requires s.Valid() && key !in s.entries && (s.order == [] || s.order[0] == "")
    ensures AfterSet(s, maxKeys, key, e).Valid() && AfterSet(s, maxKeys, key, e).order == s.order + [key]
  {
    PutValid(s, key, e);
  }

  /** An empty key at the front is never evicted, and then nothing is: the store grows without bound. */
  lemma {:induction false} EmptyKeyBreaksBound(maxKeys: int, keys: seq<string>, value: string)
    requires Distinct(keys) && keys != [] && keys[0] == ""
    ensures var s := Run(maxKeys, INIT, Inserts(keys, value)).store;
      s.Valid() && s.order == keys
  {
    var n := |keys| - 1;
    RunInserts(maxKeys, keys, value);
    var s := Run(maxKeys, INIT, Inserts(keys[..n], value));
    if n > 0 {
      EmptyKeyBreaksBound(maxKeys, keys[..n], value);
    }
    assert keys == keys[..n] + [keys[n]];
    assert s.store.order == keys[..n];
    assert keys[n] !in Members(keys[..n]);
    NeverEvicts(maxKeys, s.store, keys[n], Made(value, 0, s.now));
  }

  lemma EvictsOldest(maxKeys: int, s: Store, key: string, e: Entry)
    requires s.Valid() && key !in s.entries && "" !in s.entries
    ensures var t := AfterSet(s, maxKeys, key, e);
      t.Valid() && t.order == s.order[if s.order != [] && |s.order| >= maxKeys then 1 else 0..] + [key]
  {
    if s.order != [] && |s.order| >= maxKeys {
      assert s.order[0] in Members(s.order);
      WithoutOldest(s.order);
      RemovedValid(s, s.order[0]);
      PutValid(Evicted(s), key, e);
    } else {
      PutValid(s, key, e);
    }
  }

  function Newest(keys: seq<string>, maxKeys: nat): seq<string> {
    keys[if |keys| <= maxKeys then 0 else |keys| - maxKeys..]
  }

  lemma NamesNewest(keys: seq<string>, maxKeys: nat)
    requires "" !in Members(keys)
    ensures "" !in Members(Newest(keys, maxKeys))
  {
  }

  lemma NewestGrows(keys: seq<string>, maxKeys: nat)
    requires 0 < maxKeys && Distinct(keys) && keys != []
    ensures var old' := Newest(keys[..|keys| - 1], maxKeys);
      && keys[|keys| - 1] !in Members(old')
      && Newest(keys, maxKeys) == old'[if old' != [] && |old'| >= maxKeys then 1 else 0..] + [keys[|keys| - 1]]
  {
  }

  /** First in, first out: distinct insertions into an empty store leave exactly the newest. */
  lemma {:induction false} KeepsNewest(maxKeys: int, keys: seq<string>, value: string)
    requires 0 < maxKeys && Distinct(keys) && "" !in Members(keys)
    ensures var s := Run(maxKeys, INIT, Inserts(keys, value)).store;
      s.Valid() && s.order == Newest(keys, maxKeys)
  {
    if keys != [] {
      var n := |keys| - 1;
      RunInserts(maxKeys, keys, value);
      KeepsNewest(maxKeys, keys[..n], value);
      var s := Run(maxKeys, INIT, Inserts(keys[..n], value));
      NewestGrows(keys, maxKeys);
      NamesNewest(keys[..n], maxKeys);
      EvictsOldest(maxKeys, s.store, keys[n], Made(value, 0, s.now));
    }
  }

  // ---------------------------------------------------------------- an unbounded map

  /** A map that keeps everything it is given and never forgets on reading. */
  datatype Full = Full(now: int, entries: Entries, answers: seq<Option<string>>)

  function FullStep(f: Full, a: Action): Full {
    match a
    case Clock(now) => f.(now := now)
    case Get(key) => f.(answers := f.answers + [Answer(f.entries, key, f.now)])
    case Set(key, value, ttl) => f.(entries := f.entries[key := Made(value, ttl, f.now)])
    case Del(key) => f.(entries := f.entries - {key})
    case Clear => f.(entries := map[])
  }

  function FullRun(actions: seq<Action>): Full {
    if actions == [] then Full(0, map[], []) else FullStep(FullRun(actions[..|actions| - 1]), actions[|actions| - 1])
  }

  ghost predicate Within(s: State, f: Full) {
    && s.now == f.now && |s.answers| == |f.answers|
    && (forall k :: k in s.store.entries ==> k in f.entries && s.store.entries[k] == f.entries[k])
    && (forall i :: 0 <= i < |s.answers| ==> s.answers[i].Some? ==> s.answers[i] == f.answers[i])
  }

  /** A hit is what the unbounded map answers: the value last set, not deleted since and not expired.
      Under any run and any clock the store errs only by missing. */
  lemma {:induction false} HitsAreTheLastSet(maxKeys: int, actions: seq<Action>)
    ensures Within(Run(maxKeys, INIT, actions), FullRun(actions))
  {
    if actions != [] {
      HitsAreTheLastSet(maxKeys, actions[..|actions| - 1]);
    }
  }

  // ---------------------------------------------------------------- how long a key survives

  predicate IsFresh(s: State, a: Action) {
    a.Set? && a.key !in s.store.entries
  }

  /** The insertions of keys that were absent when they were set. */
  function FreshInsertions(maxKeys: int, s: State, actions: seq<Action>): nat {
    if actions == [] then
      0
    else
      FreshInsertions(maxKeys, s, actions[..|actions| - 1]) +
      if IsFresh(Run(maxKeys, s, actions[..|actions| - 1]), actions[|actions| - 1]) then 1 else 0
  }

  /** The action takes the key out by itself: it deletes or clears it, or reads it expired. */
  predicate TakesOut(s: State, a: Action, key: string) {
    match a
    case Del(k) => k == key
    case Clear => true
    case Get(k) => k == key && key in s.store.entries && !Live(s.store.entries[key], s.now)
    case _ => false
  }

  predicate Undisturbed(maxKeys: int, s: State, actions: seq<Action>, key: string) {
    actions == [] ||
    (&& Undisturbed(maxKeys, s, actions[..|actions| - 1], key)
     && !TakesOut(Run(maxKeys, s, actions[..|actions| - 1]), actions[|actions| - 1], key))
  }

  lemma SetBehind(s: Store, maxKeys: int, key: string, e: Entry, kept: string)
    requires s.Valid() && kept in s.entries && Behind(s.order, kept) + 1 < maxKeys + if key in s.entries then 1 else 0
    ensures var t := AfterSet(s, maxKeys, key, e);
      kept in t.entries && Behind(t.order, kept) <= Behind(s.order, kept) + if key in s.entries then 0 else 1
  {
    if key !in s.entries {
      var t := if |s.order| >= maxKeys then Evicted(s) else s;
      if t != s {
        OldestBehind(s.order);
        WithoutBehind(s.order, s.order[0], kept);
      }
      assert (t.order + [key])[..|t.order|] == t.order;
    }
  }

  lemma {:induction false} Survives(maxKeys: int, s: State, actions: seq<Action>, key: string)
    requires s.store.Valid() && key in s.store.entries && Undisturbed(maxKeys, s, actions, key)
    requires Behind(s.store.order, key) + FreshInsertions(maxKeys, s, actions) < maxKeys
    ensures var t := Run(maxKeys, s, actions).store;
      && t.Valid() && key in t.entries
      && Behind(t.order, key) <= Behind(s.store.order, key) + FreshInsertions(maxKeys, s, actions)
  {
    if actions != [] {
      var n := |actions| - 1;
      Survives(maxKeys, s, actions[..n], key);
      var t, a := Run(maxKeys, s, actions[..n]), actions[n];
      StepKeepsValid(maxKeys, t, a);
      match a
      case Set(k, value, ttl) => SetBehind(t.store, maxKeys, k, Made(value, ttl, t.now), key);
      case Get(k) => if k != key { WithoutBehind(t.store.order, k, key); }
      case Del(k) => WithoutBehind(t.store.order, k, key);
      case _ =>
    }
  }

  lemma {:induction false} RunAppend(maxKeys: int, s: State, first: seq<Action>, second: seq<Action>)
    ensures Run(maxKeys, s, first + second) == Run(maxKeys, Run(maxKeys, s, first), second)
  {
    if second == [] {
      assert first + second == first;
    } else {
      var n := |second| - 1;
      assert (first + second)[..|first| + n] == first + second[..n];
      RunAppend(maxKeys, s, first, second[..n]);
    }
  }

  lemma FreshIsNewest(maxKeys: int, s: Store, key: string, e: Entry)
    requires key !in s.entries
    ensures var t := AfterSet(s, maxKeys, key, e);
      key in t.entries && Behind(t.order, key) == 0
  {
  }

  /** A freshly inserted key survives the next maxKeys - 1 fresh insertions, whatever else happens,
      unless it is taken out; until then the store answers for it exactly as the unbounded map. */
  lemma FreshKeySurvives(maxKeys: int, before: seq<Action>, a: Action, after: seq<Action>)
    requires var s := Run(maxKeys, INIT, before);
      && IsFresh(s, a)
      && Undisturbed(maxKeys, Step(maxKeys, s, a), after, a.key)
      && FreshInsertions(maxKeys, Step(maxKeys, s, a), after) <= maxKeys - 1
    ensures var u, f := Run(maxKeys, INIT, before + [a] + after), FullRun(before + [a] + after);
      && a.key in u.store.entries
      && Answer(u.store.entries, a.key, u.now) == Answer(f.entries, a.key, f.now)
  {
    var s := Run(maxKeys, INIT, before);
    RunKeepsValid(maxKeys, INIT, before);
    RunStep(maxKeys, INIT, before, a);
    RunAppend(maxKeys, INIT, before + [a], after);
    FreshSurvives(maxKeys, s, a, after);
    HitsAreTheLastSet(maxKeys, before + [a] + after);
  }

  lemma RunStep(maxKeys: int, s: State, trace: seq<Action>, a: Action)
    ensures Run(maxKeys, s, trace + [a]) == Step(maxKeys, Run(maxKeys, s, trace), a)
  {
    assert (trace + [a])[..|trace|] == trace;
  }

  lemma FreshSurvives(maxKeys: int, s: State, a: Action, after: seq<Action>)
    requires s.store.Valid() && IsFresh(s, a)
    requires Undisturbed(maxKeys, Step(maxKeys, s, a), after, a.key)
    requires FreshInsertions(maxKeys, Step(maxKeys, s, a), after) <= maxKeys - 1
    ensures a.key in Run(maxKeys, Step(maxKeys, s, a), after).store.entries
  {
    StepKeepsValid(maxKeys, s, a);
    FreshIsNewest(maxKeys, s.store, a.key, Made(a.value, a.ttl, s.now));
    Survives(maxKeys, Step(maxKeys, s, a), after, a.key);
  }

  // ---------------------------------------------------------------- counters

  datatype Number = NaN | Int(n: int)

  function DigitOf(n: nat): (c: char)
    requires n < 10
    ensures IsDigit(c) && (c - '0') as nat == n
  {
    '0' + n as char
  }

  function Decimal(n: nat): string {
    if n < 10 then [DigitOf(n)] else Decimal(n / 10) + [DigitOf(n % 10)]
  }

  function Text(count: Number): string {
    match count
    case NaN => "NaN"
    case Int(n) => if n < 0 then "-" + Decimal(-n) else Decimal(n)
  }

  function Value(digits: string): nat
    requires AllDigits(digits)
  {
    if digits == "" then 0 else Value(digits[..|digits| - 1]) * 10 + (digits[|digits| - 1] - '0') as nat
  }

  lemma ValueAppend(digits: string, c: char)
    requires AllDigits(digits) && IsDigit(c)
    ensures AllDigits(digits + [c]) && Value(digits + [c]) == Value(digits) * 10 + (c - '0') as nat
  {
    assert (digits + [c])[..|digits|] == digits;
  }

  lemma {:induction false} DecimalValue(n: nat)
    ensures Decimal(n) != "" && AllDigits(Decimal(n)) && Value(Decimal(n)) == n
  {
    if n < 10 {
      ValueAppend("", DigitOf(n));
      assert "" + [DigitOf(n)] == Decimal(n);
    } else {
      DecimalValue(n / 10);
      ValueAppend(Decimal(n / 10), DigitOf(n % 10));
    }
  }

  function LeadingDigits(s: string): (d: string)
    ensures AllDigits(d)
  {
    if s == "" || !IsDigit(s[0]) then "" else [s[0]] + LeadingDigits(s[1..])
  }

  function Trimmed(s: string): string {
    if s != "" && s[0] in " \t\n\r" then Trimmed(s[1..]) else s
  }

  /** Base ten, as the language's parseInt: leading space, a sign, digits, and anything after. */
  function ParseInt(s: string): Number {
    var t := Trimmed(s);
    var signed := t != "" && (t[0] == '-' || t[0] == '+');
    var digits := LeadingDigits(if signed then t[1..] else t);
    if digits == "" then NaN else if signed && t[0] == '-' then Int(0 - Value(digits)) else Int(Value(digits))
  }

  lemma {:induction false} DigitsLead(s: string)
    requires AllDigits(s)
    ensures LeadingDigits(s) == s
  {
    if s != "" { DigitsLead(s[1..]); }
  }

  lemma ParsesDigits(d: string)
    requires AllDigits(d) && d != ""
    ensures ParseInt(d) == Int(Value(d))
  {
    DigitsLead(d);
    assert IsDigit(d[0]);
  }

  lemma ParsesNegative(d: string)
    requires AllDigits(d) && d != ""
    ensures ParseInt("-" + d) == Int(0 - Value(d))
  {
    DigitsLead(d);
    assert ("-" + d)[1..] == d;
  }

  /** Every count the store writes is read back as itself. */
  lemma CountRoundTrip(count: Number)
    ensures ParseInt(Text(count)) == count && Text(count) != ""
  {
    match count
    case NaN => assert LeadingDigits("NaN") == "";
    case Int(n) => {
      DecimalValue(if n < 0 then -n else n);
      if n < 0 { ParsesNegative(Decimal(-n)); } else { ParsesDigits(Decimal(n)); }
    }
  }

  function Next(current: Option<string>): Number {
    match current
    case None => Int(1)
    case Some(text) => if text == "" then Int(1) else if ParseInt(text).NaN? then NaN else Int(ParseInt(text).n + 1)
  }

  /** One increment reads the clock to get the old count and again to set the new one. */
  datatype Call = Call(read: int, stored: int)

  function Count(s: Store, key: string, call: Call): Number {
    Next(Answer(s.entries, key, call.read))
  }

  function AfterIncr(s: Store, maxKeys: int, key: string, ttl: int, call: Call): Store {
    AfterSet(AfterGet(s, key, call.read), maxKeys, key, Made(Text(Count(s, key, call)), ttl, call.stored))
  }

  function AfterIncrs(s: Store, maxKeys: int, key: string, ttl: int, calls: seq<Call>): Store {
    if calls == [] then
      s
    else
      AfterIncr(AfterIncrs(s, maxKeys, key, ttl, calls[..|calls| - 1]), maxKeys, key, ttl, calls[|calls| - 1])
  }

  /** The calls since the last gap that outlived the time to live. */
  function Streak(ttl: int, calls: seq<Call>): nat {
    if |calls| < 2 then
      |calls|
    else if Live(Made("", ttl, calls[|calls| - 2].stored), calls[|calls| - 1].read) then
      Streak(ttl, calls[..|calls| - 1]) + 1
    else
      1
  }

  /** Uninterrupted increments of an absent key count the calls since the last gap longer than the
      time to live: each one renews the expiry, so the window slides. */
  lemma {:induction false} IncrCountsStreak(s: Store, maxKeys: int, key: string, ttl: int, calls: seq<Call>)
    requires key !in s.entries && calls != []
    ensures var t := AfterIncrs(s, maxKeys, key, ttl, calls);
      && key in t.entries
      && t.entries[key] == Made(Text(Int(Streak(ttl, calls))), ttl, calls[|calls| - 1].stored)
  {
    var n := |calls| - 1;
    if n > 0 {
      IncrCountsStreak(s, maxKeys, key, ttl, calls[..n]);
      CountRoundTrip(Int(Streak(ttl, calls[..n])));
    }
  }

  // ---------------------------------------------------------------- the store object

  class MemoryStore {
    const maxKeys: int
    var order: seq<string>
    var entries: Entries

    constructor (maxKeys: Option<int>)
      ensures Contents() == EMPTY && Contents().Valid()
      ensures this.maxKeys == if maxKeys.Some? then maxKeys.value else 10_000
    {
      this.maxKeys := match maxKeys case Some(n) => n case None => 10_000;
      order, entries := [], map[];
    }

    function Contents(): Store
      reads this
    {
      Store(order, entries)
    }

    method Remove(key: string)
      requires Contents().Valid()
      modifies this
      ensures Contents() == Removed(old(Contents()), key) && Contents().Valid()
    {
      RemovedValid(Contents(), key);
      order, entries := Without(order, key), entries - {key};
    }

    method Get(key: string, now: int) returns (value: Option<string>)
      requires Contents().Valid()
      modifies this
      ensures Contents() == AfterGet(old(Contents()), key, now) && Contents().Valid()
      ensures value == Answer(old(entries), key, now)
    {
      if key !in entries {
        return None;
      }
      var entry := entries[key];
      if entry.expiresAt != 0 && entry.expiresAt < now {
        Remove(key);
        return None;
      }
      return Some(entry.value);
    }

    method Set(key: string, value: string, ttl: int, now: int)
      requires Contents().Valid()
      modifies this
      ensures Contents() == AfterSet(old(Contents()), maxKeys, key, Made(value, ttl, now)) && Contents().Valid()
      ensures key in entries && entries[key].value == value
    {
      if |order| >= maxKeys && key !in entries {
        if order != [] && order[0] != "" {
          Remove(order[0]);
        }
      }
      var entry := Entry(value, 0);
      if ttl != 0 {
        entry := entry.(expiresAt := now + ttl * 1000);
      }
      PutValid(Contents(), key, entry);
      if key !in entries {
        order := order + [key];
      }
      entries := entries[key := entry];
    }

    /** Sequentially: no other call of the store between its get and its set. */
    method Incr(key: string, ttl: int, call: Call) returns (count: Number)
      requires Contents().Valid()
      modifies this
      ensures Contents() == AfterIncr(old(Contents()), maxKeys, key, ttl, call) && Contents().Valid()
      ensures count == Count(old(Contents()), key, call)
    {
      var current := Get(key, call.read);
      count := Int(1);
      if current.Some? && current.value != "" {
        var number := ParseInt(current.value);
        count := if number.NaN? then NaN else Int(number.n + 1);
      }
      Set(key, Text(count), ttl, call.stored);
    }

    method Del(key: string)
      requires Contents().Valid()
      modifies this
      ensures Contents() == Removed(old(Contents()), key) && Contents().Valid()
      ensures key !in entries
    {
      Remove(key);
    }

    method Clear()
      modifies this
      ensures Contents() == EMPTY && Contents().Valid()
    {
      order, entries := [], map[];
    }

    method Size() returns (n: nat)
      requires Contents().Valid()
      ensures n == |entries|
    {
      MembersSize(order);
      n := |order|;
    }
  }
}
