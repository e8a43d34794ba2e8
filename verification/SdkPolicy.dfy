/** `Allow` of the SDK client: look in the cache, ask the server, keep its answer. Any number of calls
    of one client interleave. */
module SdkPolicy {
  import opened Wrappers
  import Cache = SdkCache

  datatype Request = Request(subject: string, action: string, resource: string)

  function CacheKey(org: string, req: Request): string {
    org + ":" + req.subject + ":" + req.action + ":" + req.resource
  }

  predicate Clean(s: string) {
    ':' !in s
  }

  // ---------------------------------------------------------------- when the joined key is injective

  /** The first separator of a joined string ends its first part. */
  lemma JoinInjective(a: string, x: string, b: string, y: string)
    requires Clean(a) && Clean(b) && a + ":" + x == b + ":" + y
    ensures a == b && x == y
  {
    var s := a + ":" + x;
    assert s[|a|] == ':' && s[|b|] == ':';
    assert s[..|a|] == a && s[..|b|] == b;
    assert s[|a| + 1..] == x && s[|b| + 1..] == y;
  }

  /** Without a separator in organisation, subject and action the four parts can be read back. */
  lemma KeyInjective(org: string, req: Request, org': string, req': Request)
    requires Clean(org) && Clean(req.subject) && Clean(req.action)
    requires Clean(org') && Clean(req'.subject) && Clean(req'.action)
    requires CacheKey(org, req) == CacheKey(org', req')
    ensures org == org' && req == req'
  {
    var tail, tail' := req.action + ":" + req.resource, req'.action + ":" + req'.resource;
    assert CacheKey(org, req) == org + ":" + (req.subject + ":" + tail);
    assert CacheKey(org', req') == org' + ":" + (req'.subject + ":" + tail');
    JoinInjective(org, req.subject + ":" + tail, org', req'.subject + ":" + tail');
    JoinInjective(req.subject, tail, req'.subject, tail');
    JoinInjective(req.action, req.resource, req'.action, req'.resource);
  }

  ghost predicate Collides(org: string, req: Request, other: Request) {
    other != req && CacheKey(org, other) == CacheKey(org, req)
  }

  function Colons(s: string): nat {
    if s == "" then 0 else Colons(s[..|s| - 1]) + if s[|s| - 1] == ':' then 1 else 0
  }

  lemma {:induction false} ColonsConcat(a: string, b: string)
    ensures Colons(a + b) == Colons(a) + Colons(b)
  {
    if b == "" {
      assert a + b == a;
    } else {
      assert (a + b)[..|a + b| - 1] == a + b[..|b| - 1];
      ColonsConcat(a, b[..|b| - 1]);
    }
  }

  lemma {:induction false} ColonsZero(s: string)
    ensures Colons(s) == 0 <==> Clean(s)
  {
    if s != "" {
      ColonsZero(s[..|s| - 1]);
      assert s == s[..|s| - 1] + [s[|s| - 1]];
    }
  }

  lemma ColonsOfKey(org: string, req: Request)
    ensures Colons(CacheKey(org, req)) ==
      Colons(org) + Colons(req.subject) + Colons(req.action) + Colons(req.resource) + 3
  {
    ColonsConcat(org + ":" + req.subject + ":" + req.action + ":", req.resource);
    ColonsConcat(org + ":" + req.subject + ":" + req.action, ":");
    ColonsConcat(org + ":" + req.subject + ":", req.action);
    ColonsConcat(org + ":" + req.subject, ":");
    ColonsConcat(org + ":", req.subject);
    ColonsConcat(org, ":");
    assert Colons(":") == 1;
  }

  lemma SplitAtColon(s: string) returns (left: string, right: string)
    requires !Clean(s)
    ensures s == left + ":" + right
  {
    var i :| 0 <= i < |s| && s[i] == ':';
    left, right := s[..i], s[i + 1..];
  }

  lemma SameOrgKeyInjective(org: string, req: Request, other: Request)
    requires Clean(req.subject) && Clean(req.action) && Clean(other.subject) && Clean(other.action)
    requires CacheKey(org, req) == CacheKey(org, other)
    ensures req == other
  {
    var x, y := req.action + ":" + req.resource, other.action + ":" + other.resource;
    assert CacheKey(org, req)[|org| + 1..] == req.subject + ":" + x;
    assert CacheKey(org, other)[|org| + 1..] == other.subject + ":" + y;
    JoinInjective(req.subject, x, other.subject, y);
    JoinInjective(req.action, req.resource, other.action, other.resource);
  }

  lemma CleanDoesNotCollide(org: string, req: Request, other: Request)
    requires Clean(req.subject) && Clean(req.action) && Clean(req.resource)
    ensures !Collides(org, req, other)
  {
    if CacheKey(org, other) == CacheKey(org, req) {
      ColonsOfKey(org, req);
      ColonsOfKey(org, other);
      ColonsZero(req.subject);
      ColonsZero(req.action);
      ColonsZero(req.resource);
      ColonsZero(other.subject);
      ColonsZero(other.action);
      SameOrgKeyInjective(org, req, other);
    }
  }

  /** The request a separator in one part makes the key ambiguous with. */
  lemma UncleanCollides(org: string, req: Request) returns (other: Request)
    requires !(Clean(req.subject) && Clean(req.action) && Clean(req.resource))
    ensures Collides(org, req, other)
  {
    var s, a, r := req.subject, req.action, req.resource;
    if !Clean(s) {
      var x, y := SplitAtColon(s);
      other := Request(x, y + ":" + a, r);
      assert org + ":" + x + ":" + (y + ":" + a) + ":" + r == org + ":" + (x + ":" + y) + ":" + a + ":" + r;
      assert |x| < |s|;
    } else if !Clean(a) {
      var x, y := SplitAtColon(a);
      other := Request(s + ":" + x, y, r);
      assert org + ":" + (s + ":" + x) + ":" + y + ":" + r == org + ":" + s + ":" + (x + ":" + y) + ":" + r;
      assert |y| < |a|;
    } else {
      var x, y := SplitAtColon(r);
      other := Request(s, a + ":" + x, y);
      assert org + ":" + s + ":" + (a + ":" + x) + ":" + y == org + ":" + s + ":" + a + ":" + (x + ":" + y);
      assert |y| < |r|;
    }
  }

  /** Within a client's organisation, the key of a request is shared with another request exactly when
      its subject, action or resource contains the separator. */
  lemma CollidesIff(org: string, req: Request)
    ensures (exists other :: Collides(org, req, other)) <==>
      !(Clean(req.subject) && Clean(req.action) && Clean(req.resource))
  {
    if Clean(req.subject) && Clean(req.action) && Clean(req.resource) {
      forall other
        ensures !Collides(org, req, other)
      {
        CleanDoesNotCollide(org, req, other);
      }
    } else {
      var other := UncleanCollides(org, req);
    }
  }

  // ---------------------------------------------------------------- what an allow rests on

  /** An answer of the server, kept at time `at`. */
  datatype Recorded = Recorded(req: Request, allowed: bool, at: int)

  datatype Grant = Grant(req: Request, allowed: bool, at: int)

  /** `recorded` and `grants` are history; `asking` are the calls waiting for the server. */
  datatype State = State(
    now: int,
    data: Cache.Data,
    asking: map<int, Request>,
    recorded: seq<Recorded>,
    grants: seq<Grant>)

  datatype Action =
    | Tick(elapsed: nat)
    | Lookup(c: int, req: Request, wait: nat)
    | Reply(c: int, answer: Option<bool>)
    | Evict(delay: nat)

  datatype Config = Config(org: string, ttl: nat, failOpen: bool)

  const INIT := State(0, map[], map[], [], [])

  function LookupStep(cfg: Config, s: State, c: int, req: Request, wait: nat): State {
    var key := CacheKey(cfg.org, req);
    var t := s.(now := s.now + wait);
    match Cache.FreshOrStale(s.data, key, s.now, t.now)
    case Some(allowed) =>
      t.(grants := t.grants + [Grant(req, allowed, if s.now < s.data[key].expiresAt then s.now else t.now)])
    case None => t.(asking := t.asking[c := req])
  }

  function ReplyStep(cfg: Config, s: State, c: int, answer: Option<bool>): State
    requires c in s.asking
  {
    var req, t := s.asking[c], s.(asking := s.asking - {c});
    match answer
    case None => t.(grants := t.grants + [Grant(req, cfg.failOpen, s.now)])
    case Some(allowed) =>
      t.(data := t.data[CacheKey(cfg.org, req) := Cache.Entry(allowed, s.now + cfg.ttl)],
         recorded := t.recorded + [Recorded(req, allowed, s.now)],
         grants := t.grants + [Grant(req, allowed, s.now)])
  }

  function Step(cfg: Config, s: State, a: Action): State {
    match a
    case Tick(elapsed) => s.(now := s.now + elapsed)
    case Lookup(c, req, wait) => if c in s.asking then s else LookupStep(cfg, s, c, req, wait)
    case Reply(c, answer) => if c in s.asking then ReplyStep(cfg, s, c, answer) else s
    case Evict(delay) => s.(data := Cache.Evicted(s.data, s.now - delay))
  }

  function Run(cfg: Config, s: State, actions: seq<Action>): State {
    if actions == [] then s else Step(cfg, Run(cfg, s, actions[..|actions| - 1]), actions[|actions| - 1])
  }

  /** No other request of the run shares the key of this one. */
  ghost predicate Unrivalled(cfg: Config, actions: seq<Action>, req: Request) {
    forall i :: 0 <= i < |actions| ==> NoRival(cfg, actions[i], req)
  }

  ghost predicate NoRival(cfg: Config, a: Action, req: Request) {
    a.Lookup? ==> !Collides(cfg.org, req, a.req)
  }

  predicate CleanRequest(req: Request) {
    Clean(req.subject) && Clean(req.action)
  }

  /** No request of the run has a separator in its subject or action. */
  ghost predicate CleanRun(actions: seq<Action>) {
    forall i :: 0 <= i < |actions| ==> actions[i].Lookup? ==> CleanRequest(actions[i].req)
  }

  /** The entry of the request is the server's answer to it, kept a lifetime before it expires. */
  predicate EntryOk(cfg: Config, s: State, req: Request) {
    var key := CacheKey(cfg.org, req);
    key in s.data ==> Recorded(req, s.data[key].value, s.data[key].expiresAt - cfg.ttl) in s.recorded
  }

  /** The server itself answered this request so, within the lifetime and the grace before `at`. */
  ghost predicate Backed(cfg: Config, s: State, g: Grant) {
    exists at :: at <= g.at < at + cfg.ttl + Cache.GRACE && Recorded(g.req, g.allowed, at) in s.recorded
  }

  ghost predicate GrantOk(cfg: Config, s: State, g: Grant, req: Request) {
    g.req == req ==> Backed(cfg, s, g) || g.allowed == cfg.failOpen
  }

  ghost predicate Inv(cfg: Config, s: State, req: Request) {
    && EntryOk(cfg, s, req)
    && (forall c :: c in s.asking ==> !Collides(cfg.org, req, s.asking[c]))
    && (forall i :: 0 <= i < |s.recorded| ==> s.recorded[i].at <= s.now)
    && (forall i :: 0 <= i < |s.grants| ==> GrantOk(cfg, s, s.grants[i], req))
  }

  /** History only grows and what rested on it still does. */
  lemma HistoryGrows(cfg: Config, s: State, t: State, req: Request)
    requires Inv(cfg, s, req) && s.recorded <= t.recorded && s.grants <= t.grants && s.now <= t.now
    requires EntryOk(cfg, t, req)
    requires forall c :: c in t.asking ==> !Collides(cfg.org, req, t.asking[c])
    requires forall i :: |s.recorded| <= i < |t.recorded| ==> t.recorded[i].at <= t.now
    requires forall i :: |s.grants| <= i < |t.grants| ==> GrantOk(cfg, t, t.grants[i], req)
    ensures Inv(cfg, t, req)
  {
    forall i | 0 <= i < |t.grants|
      ensures GrantOk(cfg, t, t.grants[i], req)
    {
      if i < |s.grants| { assert GrantOk(cfg, s, s.grants[i], req); }
    }
  }

  lemma LookupKeepsInv(cfg: Config, s: State, c: int, other: Request, wait: nat, req: Request)
    requires Inv(cfg, s, req) && !Collides(cfg.org, req, other)
    ensures Inv(cfg, LookupStep(cfg, s, c, other, wait), req)
  {
    var t, key := LookupStep(cfg, s, c, other, wait), CacheKey(cfg.org, other);
    if t.grants != s.grants && other == req {
      var r := Recorded(req, s.data[key].value, s.data[key].expiresAt - cfg.ttl);
      var i :| 0 <= i < |s.recorded| && s.recorded[i] == r;
      assert Backed(cfg, t, t.grants[|s.grants|]);
    }
    HistoryGrows(cfg, s, t, req);
  }

  lemma ReplyKeepsInv(cfg: Config, s: State, c: int, answer: Option<bool>, req: Request)
    requires Inv(cfg, s, req) && c in s.asking
    ensures Inv(cfg, ReplyStep(cfg, s, c, answer), req)
  {
    var t, asked := ReplyStep(cfg, s, c, answer), s.asking[c];
    if answer.Some? {
      assert t.recorded[|s.recorded|] == Recorded(asked, answer.value, s.now);
      assert Backed(cfg, t, Grant(asked, answer.value, s.now));
    }
    HistoryGrows(cfg, s, t, req);
  }

  lemma StepKeepsInv(cfg: Config, s: State, a: Action, req: Request)
    requires Inv(cfg, s, req) && NoRival(cfg, a, req)
    ensures Inv(cfg, Step(cfg, s, a), req)
  {
    match a
    case Lookup(c, other, wait) => if c !in s.asking { LookupKeepsInv(cfg, s, c, other, wait, req); }
    case Reply(c, answer) => if c in s.asking { ReplyKeepsInv(cfg, s, c, answer, req); }
    case _ => HistoryGrows(cfg, s, Step(cfg, s, a), req);
  }

  lemma {:induction false} RunKeepsInv(cfg: Config, s: State, actions: seq<Action>, req: Request)
    requires Inv(cfg, s, req) && Unrivalled(cfg, actions, req)
    ensures Inv(cfg, Run(cfg, s, actions), req)
  {
    if actions != [] {
      var n := |actions| - 1;
      RunKeepsInv(cfg, s, actions[..n], req);
      assert NoRival(cfg, actions[n], req);
      StepKeepsInv(cfg, Run(cfg, s, actions[..n]), actions[n], req);
    }
  }

  /** Fail-closed: whatever interleaves, an allow of a request whose key no other request of the run
      shares rests on the server's own allow of it, kept less than the lifetime and a minute ago. */
  lemma UnrivalledAllowIsBacked(cfg: Config, actions: seq<Action>, g: Grant)
    requires !cfg.failOpen && Unrivalled(cfg, actions, g.req)
    requires g in Run(cfg, INIT, actions).grants && g.allowed
    ensures Backed(cfg, Run(cfg, INIT, actions), g)
  {
    RunKeepsInv(cfg, INIT, actions, g.req);
    var s := Run(cfg, INIT, actions);
    var i :| 0 <= i < |s.grants| && s.grants[i] == g;
    assert GrantOk(cfg, s, g, g.req);
  }

  /** In particular in a run with no separator in subjects and actions. */
  lemma AllowsAreTheServers(cfg: Config, actions: seq<Action>, g: Grant)
    requires !cfg.failOpen && CleanRun(actions)
    requires g in Run(cfg, INIT, actions).grants && g.allowed
    ensures exists at ::
      at <= g.at < at + cfg.ttl + Cache.GRACE && Recorded(g.req, true, at) in Run(cfg, INIT, actions).recorded
  {
    GrantsWereAsked(cfg, actions, g);
    forall i | 0 <= i < |actions|
      ensures NoRival(cfg, actions[i], g.req)
    {
      if actions[i].Lookup? && CacheKey(cfg.org, actions[i].req) == CacheKey(cfg.org, g.req) {
        SameOrgKeyInjective(cfg.org, g.req, actions[i].req);
      }
    }
    UnrivalledAllowIsBacked(cfg, actions, g);
  }

  ghost predicate Asked(actions: seq<Action>, req: Request) {
    exists i :: 0 <= i < |actions| && actions[i].Lookup? && actions[i].req == req
  }

  /** Only requests of the run are waiting or answered. */
  ghost predicate AllAsked(actions: seq<Action>, s: State) {
    && (forall c :: c in s.asking ==> Asked(actions, s.asking[c]))
    && (forall i :: 0 <= i < |s.grants| ==> Asked(actions, s.grants[i].req))
  }

  lemma AskedStays(init: seq<Action>, a: Action, req: Request)
    requires Asked(init, req) || (a.Lookup? && a.req == req)
    ensures Asked(init + [a], req)
  {
    if i :| 0 <= i < |init| && init[i].Lookup? && init[i].req == req {
      assert (init + [a])[i] == init[i];
    } else {
      assert (init + [a])[|init|] == a;
    }
  }

  lemma {:induction false} RunAsks(cfg: Config, actions: seq<Action>)
    ensures AllAsked(actions, Run(cfg, INIT, actions))
  {
    if actions != [] {
      var init, a := actions[..|actions| - 1], actions[|actions| - 1];
      RunAsks(cfg, init);
      var s, t := Run(cfg, INIT, init), Run(cfg, INIT, actions);
      assert actions == init + [a];
      forall c | c in t.asking
        ensures Asked(actions, t.asking[c])
      {
        AskedStays(init, a, t.asking[c]);
      }
      forall i | 0 <= i < |t.grants|
        ensures Asked(actions, t.grants[i].req)
      {
        if i < |s.grants| { assert t.grants[i] == s.grants[i]; }
        AskedStays(init, a, t.grants[i].req);
      }
    }
  }

  lemma GrantsWereAsked(cfg: Config, actions: seq<Action>, g: Grant)
    requires CleanRun(actions) && g in Run(cfg, INIT, actions).grants
    ensures CleanRequest(g.req)
  {
    RunAsks(cfg, actions);
    var s := Run(cfg, INIT, actions);
    var i :| 0 <= i < |s.grants| && s.grants[i] == g;
    assert Asked(actions, s.grants[i].req);
  }

  // ---------------------------------------------------------------- exactly when allows can be trusted

  ghost predicate Trusted(cfg: Config, actions: seq<Action>, req: Request) {
    var s := Run(cfg, INIT, actions);
    forall g :: g in s.grants && g.req == req && g.allowed ==> Backed(cfg, s, g)
  }

  /** The separator matters: two requests of one key, and the second is allowed on the answer to the
      first though the server never allowed it. */
  lemma SharedKeyIsGranted(cfg: Config, req: Request, other: Request)
    requires Collides(cfg.org, req, other)
    ensures var s := Run(cfg, INIT, [Lookup(1, other, 0), Reply(1, Some(true)), Lookup(1, req, 0)]);
      s.grants == [Grant(other, true, 0), Grant(req, true, 0)] && s.recorded == [Recorded(other, true, 0)]
  {
    var run := [Lookup(1, other, 0), Reply(1, Some(true)), Lookup(1, req, 0)];
    assert run[..2][..1] == run[..1] && run[..1][..0] == [];
    var s1 := Step(cfg, INIT, run[0]);
    assert Run(cfg, INIT, run[..1]) == s1;
    var s2 := Step(cfg, s1, run[1]);
    assert Run(cfg, INIT, run[..2]) == s2;
    assert s2.data[CacheKey(cfg.org, req)] == Cache.Entry(true, cfg.ttl);
  }

  /** The exact condition, which a caller can check: in every run every allow of a request rests on
      the server's own recent allow of it if and only if its subject, action and resource are free of
      the separator. */
  lemma TrustedIff(cfg: Config, req: Request)
    requires !cfg.failOpen
    ensures (forall actions :: Trusted(cfg, actions, req)) <==>
      Clean(req.subject) && Clean(req.action) && Clean(req.resource)
  {
    if Clean(req.subject) && Clean(req.action) && Clean(req.resource) {
      forall actions
        ensures Trusted(cfg, actions, req)
      {
        CleanIsTrusted(cfg, actions, req);
      }
    } else {
      var other := UncleanCollides(cfg.org, req);
      var run := [Lookup(1, other, 0), Reply(1, Some(true)), Lookup(1, req, 0)];
      SharedKeyIsGranted(cfg, req, other);
      var g := Run(cfg, INIT, run).grants[1];
      assert g in Run(cfg, INIT, run).grants && !Backed(cfg, Run(cfg, INIT, run), g);
      assert !Trusted(cfg, run, req);
    }
  }

  lemma CleanIsTrusted(cfg: Config, actions: seq<Action>, req: Request)
    requires !cfg.failOpen && Clean(req.subject) && Clean(req.action) && Clean(req.resource)
    ensures Trusted(cfg, actions, req)
  {
    forall i | 0 <= i < |actions|
      ensures NoRival(cfg, actions[i], req)
    {
      if actions[i].Lookup? { CleanDoesNotCollide(cfg.org, req, actions[i].req); }
    }
    var s := Run(cfg, INIT, actions);
    forall g | g in s.grants && g.req == req && g.allowed
      ensures Backed(cfg, s, g)
    {
      UnrivalledAllowIsBacked(cfg, actions, g);
    }
  }

  // ---------------------------------------------------------------- the client

  predicate NotBy(c: int, a: Action) {
    match a
    case Lookup(d, _, _) => d != c
    case Reply(d, _) => d != c
    case _ => true
  }

  lemma {:induction false} OthersLeaveCall(cfg: Config, s: State, others: seq<Action>, c: int)
    requires forall i :: 0 <= i < |others| ==> NotBy(c, others[i])
    ensures var t := Run(cfg, s, others);
      (c in t.asking <==> c in s.asking) && (c in s.asking ==> t.asking[c] == s.asking[c])
  {
    if others != [] {
      OthersLeaveCall(cfg, s, others[..|others| - 1], c);
      assert NotBy(c, others[|others| - 1]);
    }
  }

  lemma RunOne(cfg: Config, s: State, a: Action)
    ensures Run(cfg, s, [a]) == Step(cfg, s, a)
  {
    assert [a][..0] == [];
  }

  lemma {:induction false} RunAppend(cfg: Config, s: State, a: seq<Action>, b: seq<Action>)
    ensures Run(cfg, s, a + b) == Run(cfg, Run(cfg, s, a), b)
  {
    if b == [] {
      assert a + b == a;
    } else {
      var n := |b| - 1;
      assert (a + b)[..|a + b| - 1] == a + b[..n];
      RunAppend(cfg, s, a, b[..n]);
    }
  }

  class Client {
    const cfg: Config
    var now: int
    var cache: Cache.LocalCache
    var asking: map<int, Request>
    var recorded: seq<Recorded>
    var grants: seq<Grant>

    constructor (cfg: Config)
      ensures this.cfg == cfg && Model() == INIT && cache.ttl == cfg.ttl && fresh(cache)
    {
      this.cfg := cfg;
      now, asking, recorded, grants := 0, map[], [], [];
      cache := new Cache.LocalCache(cfg.ttl);
    }

    function Model(): State
      reads this, cache
    {
      State(now, cache.data, asking, recorded, grants)
    }

    method Meanwhile(c: int, others: seq<Action>)
      requires forall i :: 0 <= i < |others| ==> NotBy(c, others[i])
      modifies this, cache
      ensures cache == old(cache) && Model() == Run(cfg, old(Model()), others)
      ensures c in asking <==> c in old(asking)
      ensures c in asking ==> asking[c] == old(asking)[c]
    {
      OthersLeaveCall(cfg, Model(), others, c);
      var t := Run(cfg, Model(), others);
      now, asking, recorded, grants := t.now, t.asking, t.recorded, t.grants;
      cache.data := t.data;
    }

    /** One call: the cache, or else the server while others go on, keeping its answer. */
    method Allow(c: int, req: Request, wait: nat, others: seq<Action>, answer: Option<bool>)
      returns (allowed: bool, ghost trace: seq<Action>)
      requires c !in asking && cache.ttl == cfg.ttl
      requires forall i :: 0 <= i < |others| ==> NotBy(c, others[i])
      modifies this, cache
      ensures cache == old(cache) && Model() == Run(cfg, old(Model()), trace)
      ensures c !in asking
      ensures |grants| > 0 && grants[|grants| - 1].req == req && grants[|grants| - 1].allowed == allowed
      ensures trace == [Lookup(c, req, wait)] || trace == [Lookup(c, req, wait)] + others + [Reply(c, answer)]
    {
      ghost var s0 := Model();
      RunOne(cfg, s0, Lookup(c, req, wait));
      var hit := LookUp(c, req, wait);
      if hit.Some? {
        return hit.value, [Lookup(c, req, wait)];
      }
      RunAppend(cfg, s0, [Lookup(c, req, wait)], others);
      Meanwhile(c, others);
      trace := [Lookup(c, req, wait)] + others;
      RunAppend(cfg, s0, trace, [Reply(c, answer)]);
      RunOne(cfg, Model(), Reply(c, answer));
      allowed := Receive(c, answer);
      trace := trace + [Reply(c, answer)];
    }

    method LookUp(c: int, req: Request, wait: nat) returns (hit: Option<bool>)
      requires c !in asking
      modifies this
      ensures cache == old(cache) && Model() == Step(cfg, old(Model()), Lookup(c, req, wait))
      ensures match hit
        case Some(allowed) =>
          && c !in asking && |grants| > 0
          && grants[|grants| - 1].req == req && grants[|grants| - 1].allowed == allowed
        case None => c in asking && asking[c] == req
    {
      var key := CacheKey(cfg.org, req);
      var value, ok := cache.GetOrStale(key, now, now + wait);
      if ok {
        grants := grants + [Grant(req, value, if now < cache.data[key].expiresAt then now else now + wait)];
        hit := Some(value);
      } else {
        asking := asking[c := req];
        hit := None;
      }
      now := now + wait;
    }

    method Receive(c: int, answer: Option<bool>) returns (allowed: bool)
      requires c in asking && cache.ttl == cfg.ttl
      modifies this, cache
      ensures cache == old(cache) && Model() == Step(cfg, old(Model()), Reply(c, answer))
      ensures c !in asking && |grants| > 0
      ensures grants[|grants| - 1].req == old(asking)[c] && grants[|grants| - 1].allowed == allowed
    {
      var req := asking[c];
      asking := asking - {c};
      match answer {
        case None =>
          allowed := cfg.failOpen;
        case Some(value) =>
          cache.Set(CacheKey(cfg.org, req), value, now);
          recorded := recorded + [Recorded(req, value, now)];
          allowed := value;
      }
      grants := grants + [Grant(req, allowed, now)];
    }
  }
}
