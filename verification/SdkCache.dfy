/** The decision cache of the SDK: entries live for a time and are served for another minute while
    the control plane is unavailable; a background loop evicts. Times are milliseconds. */
module SdkCache {
  import opened Wrappers

  const GRACE := 60_000

  datatype Entry = Entry(value: bool, expiresAt: int)

  type Data = map<string, Entry>

  function Fresh(data: Data, key: string, now: int): Option<bool> {
    if key in data && !(now > data[key].expiresAt) then Some(data[key].value) else None
  }

  /** GetOrStale reads the clock twice; `later` is the second reading. */
  function FreshOrStale(data: Data, key: string, now: int, later: int): Option<bool> {
    if key !in data then None
    else if now < data[key].expiresAt then Some(data[key].value)
    else if later < data[key].expiresAt + GRACE then Some(data[key].value)
    else None
  }

  /** One pass of the eviction loop, for the clock value it read before it took the lock. */
  function Evicted(data: Data, sampled: int): Data {
    map k | k in data && !(data[k].expiresAt < sampled - GRACE) :: data[k]
  }

  // ---------------------------------------------------------------- runs, with and without eviction

  datatype State = State(now: int, data: Data, answers: seq<Option<bool>>)

  datatype Action =
    | Tick(elapsed: nat)
    | Set(key: string, value: bool)
    | Get(key: string)
    | GetOrStale(key: string, wait: nat)
    | Evict(delay: nat)

  const INIT := State(0, map[], [])

  function Step(ttl: nat, evicting: bool, s: State, a: Action): State {
    match a
    case Tick(elapsed) => s.(now := s.now + elapsed)
    case Set(key, value) => s.(data := s.data[key := Entry(value, s.now + ttl)])
    case Get(key) => s.(answers := s.answers + [Fresh(s.data, key, s.now)])
    case GetOrStale(key, wait) =>
      s.(now := s.now + wait, answers := s.answers + [FreshOrStale(s.data, key, s.now, s.now + wait)])
    case Evict(delay) => if evicting then s.(data := Evicted(s.data, s.now - delay)) else s
  }

  function Run(ttl: nat, evicting: bool, actions: seq<Action>): State {
    if actions == [] then
      INIT
    else
      Step(ttl, evicting, Run(ttl, evicting, actions[..|actions| - 1]), actions[|actions| - 1])
  }

  /** The evicting cache lacks only entries that are past their grace. */
  ghost predicate Lacks(s: State, full: State) {
    && s.now == full.now && s.answers == full.answers
    && (forall k :: k in s.data ==> k in full.data && s.data[k] == full.data[k])
    && (forall k :: k in full.data && k !in s.data ==> full.data[k].expiresAt + GRACE < s.now)
  }

  lemma {:induction false} RunsAgree(ttl: nat, actions: seq<Action>)
    ensures Lacks(Run(ttl, true, actions), Run(ttl, false, actions))
  {
    if actions != [] {
      RunsAgree(ttl, actions[..|actions| - 1]);
    }
  }

  /** Eviction is unobservable: under any interleaving of sets, reads and passes of the loop, every
      read answers as if nothing were ever evicted. */
  lemma EvictionIsUnobservable(ttl: nat, actions: seq<Action>)
    ensures Run(ttl, true, actions).answers == Run(ttl, false, actions).answers
  {
    RunsAgree(ttl, actions);
  }

  // ---------------------------------------------------------------- the cache object

  class LocalCache {
    const ttl: nat
    var data: Data

    constructor (ttl: nat)
      ensures this.ttl == ttl && data == map[]
    {
      this.ttl, data := ttl, map[];
    }

    method Get(key: string, now: int) returns (value: bool, ok: bool)
      ensures (if ok then Some(value) else None) == Fresh(data, key, now)
      ensures !ok ==> !value
    {
      if key !in data || now > data[key].expiresAt {
        return false, false;
      }
      return data[key].value, true;
    }

    method GetOrStale(key: string, now: int, later: int) returns (value: bool, ok: bool)
      ensures (if ok then Some(value) else None) == FreshOrStale(data, key, now, later)
      ensures !ok ==> !value
    {
      if key !in data {
        return false, false;
      }
      var entry := data[key];
      if now < entry.expiresAt {
        return entry.value, true;
      }
      if later < entry.expiresAt + GRACE {
        return entry.value, true;
      }
      return false, false;
    }

    method Set(key: string, value: bool, now: int)
      modifies this
      ensures data == old(data)[key := Entry(value, now + ttl)]
    {
      data := data[key := Entry(value, now + ttl)];
    }

    /** One pass: every key is looked at once, in any order. */
    method EvictExpired(now: int)
      modifies this
      ensures data == Evicted(old(data), now)
    {
      var cutoff := now - GRACE;
      var keys := data.Keys;
      while keys != {}
        invariant keys <= data.Keys <= old(data).Keys
        invariant forall k :: k in data ==> data[k] == old(data)[k]
        invariant forall k :: k in old(data) && k !in keys ==> (k in data <==> !(old(data)[k].expiresAt < cutoff))
        decreases keys
      {
        var k := Pick(keys);
        if data[k].expiresAt < cutoff {
          data := data - {k};
        }
        keys := keys - {k};
      }
    }
  }
}
