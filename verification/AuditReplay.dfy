/** Replaying the stored audit log in sequence order: when it recomputes the chain's head, and what
    two logs with one head have in common. */
module AuditReplay {
  import opened Wrappers
  import opened AuditChain

  // ---------------------------------------------------------------- replaying the log

  /** Recomputes the chain from "": the final hash, or None at the first link that does not fit. */
  function Replay(mac: Mac, log: seq<Link>): Option<string> {
    if log == [] then
      Some("")
    else
      var last := log[|log| - 1];
      match Replay(mac, log[..|log| - 1])
      case None => None
      case Some(prev) => if last.hash == Some(mac(last.event.id, prev)) then last.hash else None
  }

  lemma {:induction false} ReplayIsLinked(mac: Mac, log: seq<Link>)
    ensures Replay(mac, log).Some? <==> forall i :: 0 <= i < |log| ==> LinkedAt(mac, log, i, "")
    ensures Replay(mac, log).Some? ==> Replay(mac, log).value == HashAt(log, |log|)
  {
    if log != [] {
      var n := |log| - 1;
      var init := log[..n];
      ReplayIsLinked(mac, init);
      forall i | 0 <= i < n
        ensures LinkedAt(mac, log, i, "") == LinkedAt(mac, init, i, "")
      {
      }
      if forall i :: 0 <= i < |log| ==> LinkedAt(mac, log, i, "") {
        forall i | 0 <= i < n ensures LinkedAt(mac, init, i, "") {
          assert LinkedAt(mac, log, i, "");
        }
        assert LinkedAt(mac, log, n, "");
      }
      if Replay(mac, log).Some? {
        forall i | 0 <= i < |log| ensures LinkedAt(mac, log, i, "") {
          if i < n { assert LinkedAt(mac, init, i, ""); }
        }
      }
    }
  }

  /** Tamper evidence: two logs that replay to one head have the same length and, position by
      position, the same id texts and hashes. */
  lemma {:induction false} ReplayDeterminesLog(mac: Mac, a: seq<Link>, b: seq<Link>)
    requires Separates(mac)
    requires Replay(mac, a).Some? && Replay(mac, a) == Replay(mac, b)
    ensures |a| == |b|
    ensures forall i :: 0 <= i < |a| ==> a[i].hash == b[i].hash && IdText(a[i].event.id) == IdText(b[i].event.id)
  {
    ReplayStep(mac, a);
    ReplayStep(mac, b);
    if a != [] && b != [] {
      var m, n := |a| - 1, |b| - 1;
      assert InjectiveAt(mac, a[m].event.id, Replay(mac, a[..m]).value, b[n].event.id, Replay(mac, b[..n]).value);
      ReplayDeterminesLog(mac, a[..m], b[..n]);
      forall i | 0 <= i < |a|
        ensures a[i].hash == b[i].hash && IdText(a[i].event.id) == IdText(b[i].event.id)
      {
        if i < m { assert a[i] == a[..m][i] && b[i] == b[..n][i]; }
      }
    }
  }

  lemma ReplayStep(mac: Mac, log: seq<Link>)
    requires Separates(mac) && Replay(mac, log).Some?
    ensures '|' !in Replay(mac, log).value
    ensures log == [] <==> Replay(mac, log).value == ""
    ensures log != [] ==> Replay(mac, log[..|log| - 1]).Some? && '|' !in Replay(mac, log[..|log| - 1]).value
  {
    if log != [] {
      var init := log[..|log| - 1];
      assert CleanAt(mac, log[|log| - 1].event.id, Replay(mac, init).value);
      ReplayStep(mac, init);
    }
  }

  function Hashed(stored: seq<Link>): seq<Link> {
    if stored == [] then
      []
    else
      var rest, last := Hashed(stored[..|stored| - 1]), stored[|stored| - 1];
      if last.hash.Some? then rest + [last] else rest
  }

  /** The hashed documents read back in sequence order. */
  ghost predicate IsLog(log: seq<Link>, stored: seq<Link>) {
    && multiset(log) == multiset(Hashed(stored))
    && forall i, j :: 0 <= i < j < |log| ==> log[i].sequence <= log[j].sequence
  }

  lemma {:induction false} HashedMembers(stored: seq<Link>)
    ensures forall x :: x in Hashed(stored) <==> x in stored && x.hash.Some?
  {
    if stored != [] {
      HashedMembers(stored[..|stored| - 1]);
      assert stored == stored[..|stored| - 1] + [stored[|stored| - 1]];
    }
  }

  lemma {:induction false} HashedOnce(stored: seq<Link>, x: Link)
    requires forall i, j :: 0 <= i < j < |stored| && stored[i].hash.Some? ==> stored[i] != stored[j]
    ensures multiset(Hashed(stored))[x] <= 1
  {
    if stored != [] {
      HashedOnce(stored[..|stored| - 1], x);
      HashedMembers(stored[..|stored| - 1]);
    }
  }

  lemma OccursOnce(log: seq<Link>, i: nat, j: nat)
    requires i < j < |log| && multiset(log)[log[i]] <= 1
    ensures log[i] != log[j]
  {
    assert log == log[..j] + [log[j]] + log[j + 1..];
    assert log[i] in log[..j];
  }

  lemma HasMember(log: seq<Link>)
    requires log != []
    ensures log[0] in log
  {
  }

  lemma {:induction false} IncreasingUnique(a: seq<Link>, b: seq<Link>)
    requires Increasing(a) && Increasing(b)
    requires forall x :: x in a <==> x in b
    ensures a == b
  {
    if a == [] {
      if b != [] {
        HasMember(b);
        assert false;
      }
    } else {
      var m, n := |a| - 1, |b| - 1;
      assert a[m] in b && (n >= 0 ==> b[n] in a);
      forall x
        ensures x in a[..m] <==> x in b[..n]
      {
        assert x in a[..m] <==> x in a && x != a[m];
        assert x in b[..n] <==> x in b && x != b[n];
      }
      IncreasingUnique(a[..m], b[..n]);
      assert a == a[..m] + [a[m]] && b == b[..n] + [b[n]];
    }
  }

  ghost predicate AllStored(s: State) {
    forall k :: 0 <= k < |s.batches| ==> s.batches[k].lo + s.batches[k].stored == s.batches[k].hi
  }

  /** The stored log, in sequence order, is strictly increasing and consists of chain links. */
  lemma LogShape(mac: Mac, s: State, log: seq<Link>)
    requires Inv(mac, s) && IsLog(log, s.stored)
    ensures Increasing(log)
    ensures forall x :: x in log <==> x in s.stored && x.hash.Some?
    ensures forall x :: x in log ==> x in s.chain
  {
    HashedMembers(s.stored);
    forall x
      ensures x in log <==> x in s.stored && x.hash.Some?
    {
      assert x in log <==> x in multiset(log);
      assert x in Hashed(s.stored) <==> x in multiset(Hashed(s.stored));
    }
    forall x | x in log
      ensures x in s.chain
    {
      var k, i :| InPrefix(s.batches, k, i) && x == s.chain[i];
    }
    forall i, j | 0 <= i < j < |log|
      ensures log[i].sequence < log[j].sequence
    {
      HashedOnce(s.stored, log[i]);
      OccursOnce(log, i, j);
      assert log[i] in s.chain && log[j] in s.chain;
    }
  }

  lemma ChainReplays(mac: Mac, s: State)
    requires Inv(mac, s)
    ensures Replay(mac, s.chain) == Some(Head(s))
  {
    ReplayIsLinked(mac, s.chain);
  }

  lemma EveryPositionHasBatch(chain: seq<Link>, batches: seq<Batch>, i: nat, n: nat) returns (k: nat)
    requires Tiled(chain, batches) && n <= |batches|
    requires i < if n == 0 then 0 else batches[n - 1].hi
    ensures k < |batches| && batches[k].lo <= i < batches[k].hi
  {
    assert Adjacent(batches, n - 1);
    if batches[n - 1].lo <= i {
      k := n - 1;
    } else {
      k := EveryPositionHasBatch(chain, batches, i, n - 1);
    }
  }

  /** Replaying the stored log recomputes the head if and only if no committed event was lost:
      every batch whose swap was applied has been inserted to its end. */
  lemma LogReplaysIffComplete(hmac: string -> string, actions: seq<Action>, log: seq<Link>)
    requires CollisionFree(hmac)
    requires IsLog(log, Run(Keyed(hmac), INIT, actions).stored)
    ensures var s := Run(Keyed(hmac), INIT, actions);
      Replay(Keyed(hmac), log) == Some(Head(s)) <==> AllStored(s)
  {
    ReachableInv(hmac, actions);
    ReplaysIffComplete(Keyed(hmac), Run(Keyed(hmac), INIT, actions), log);
  }

  lemma ReplaysIffComplete(mac: Mac, s: State, log: seq<Link>)
    requires Separates(mac) && Inv(mac, s) && IsLog(log, s.stored)
    ensures Replay(mac, log) == Some(Head(s)) <==> AllStored(s)
  {
    LogShape(mac, s, log);
    ChainReplays(mac, s);
    if AllStored(s) {
      CompleteLogIsChain(mac, s, log);
    }
    if Replay(mac, log) == Some(Head(s)) {
      ReplayDeterminesLog(mac, log, s.chain);
      SameHashesSameLog(mac, s.chain, log);
      FullyStoredIsComplete(s);
    }
  }

  lemma CompleteLogIsChain(mac: Mac, s: State, log: seq<Link>)
    requires Inv(mac, s) && AllStored(s) && Increasing(log)
    requires forall x :: x in log <==> x in s.stored && x.hash.Some?
    requires forall x :: x in log ==> x in s.chain
    ensures log == s.chain
  {
    forall i | 0 <= i < |s.chain|
      ensures s.chain[i] in log
    {
      var k := EveryPositionHasBatch(s.chain, s.batches, i, |s.batches|);
      assert InPrefix(s.batches, k, i) && LinkedAt(mac, s.chain, i, "");
    }
    IncreasingUnique(log, s.chain);
  }

  lemma FullyStoredIsComplete(s: State)
    requires Tiled(s.chain, s.batches) && StoredPrefixes(s.chain, s.batches, s.stored) && Increasing(s.chain)
    requires forall i :: 0 <= i < |s.chain| ==> s.chain[i] in s.stored && s.chain[i].hash.Some?
    ensures AllStored(s)
  {
    forall k | 0 <= k < |s.batches|
      ensures s.batches[k].lo + s.batches[k].stored == s.batches[k].hi
    {
      var i := s.batches[k].lo + s.batches[k].stored;
      if i < s.batches[k].hi { StoredOnlyInPrefix(s, k, i); }
    }
  }

  lemma SameHashesSameLog(mac: Mac, chain: seq<Link>, log: seq<Link>)
    requires Separates(mac) && Linked(mac, chain)
    requires |log| == |chain| && forall i :: 0 <= i < |log| ==> log[i] in chain && log[i].hash == chain[i].hash
    ensures log == chain
  {
    forall i | 0 <= i < |log|
      ensures log[i] == chain[i]
    {
      SameHashSameLink(mac, chain, log[i], i);
    }
  }

  lemma StoredOnlyInPrefix(s: State, k: nat, i: nat)
    requires Tiled(s.chain, s.batches) && StoredPrefixes(s.chain, s.batches, s.stored) && Increasing(s.chain)
    requires k < |s.batches| && s.batches[k].lo <= i < s.batches[k].hi
    requires s.chain[i] in s.stored && s.chain[i].hash.Some?
    ensures InPrefix(s.batches, k, i)
  {
    var m, j :| InPrefix(s.batches, m, j) && s.chain[i] == s.chain[j];
    assert i == j;
    TilesDisjoint(s.chain, s.batches, k, m, i);
  }

  lemma SameHashSameLink(mac: Mac, chain: seq<Link>, x: Link, i: nat)
    requires Separates(mac) && Linked(mac, chain)
    requires x in chain && i < |chain| && x.hash == chain[i].hash
    ensures x == chain[i]
  {
    var j :| 0 <= j < |chain| && x == chain[j];
    assert LinkedAt(mac, chain, i, "") && LinkedAt(mac, chain, j, "");
    if i < j { HashesDistinct(mac, chain, i + 1, j + 1); }
    if j < i { HashesDistinct(mac, chain, j + 1, i + 1); }
  }
}
