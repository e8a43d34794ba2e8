/** Refresh-token rotation with families (section 4.14.2 of RFC 9700). A refresh is several database
    calls: claim, then revoke the family or look at the risk, then issue; any number of refreshes and
    logins interleave. */
module RefreshTokens {
  import opened Wrappers

  const TOKEN_TTL := 7 * 24 * 3600
  const RISK_UA_FAMILY := 60
  const RISK_IP_SUBNET := 40
  const RISK_IP_HOST := 15
  const RISK_UA_VERSION := 20
  const RISK_REVOKE := 80

  /** Token hashes, families, users and organisations are opaque identifiers. */
  type Hash = int
  type Family = int

  datatype Owner = Owner(org: int, user: int)

  datatype Token = Token(owner: Owner, family: Family, expires: int, revoked: bool)

  /** Where one call stands. The last three states are a refresh that has claimed its token but not
      issued the next one; a login enters `Issuing` directly. */
  datatype Call =
    | Idle
    | Starting(hash: Hash)
    | Rejected(hash: Hash)
    | Claimed(owner: Owner, family: Family)
    | Risky(owner: Owner, family: Family)
    | Issuing(owner: Owner, family: Family)

  /** `owners` and `claims` are history: who each family was opened for, and how often each token
      was claimed. */
  datatype State = State(
    now: int,
    tokens: map<Hash, Token>,
    calls: map<int, Call>,
    owners: map<Family, Owner>,
    claims: map<Hash, nat>)

  datatype Device = Device(userAgent: string, ip: string)

  datatype Action =
    | Tick(elapsed: nat)
    | Login(c: int, owner: Owner, family: Family)
    | Refresh(c: int, hash: Hash)
    | Claim(c: int, outcome: Outcome)
    | RevokeByHash(c: int, applied: bool)
    | Assess(c: int, session: Option<Device>, current: Device)
    | RevokeFamily(c: int, applied: bool)
    | Issue(c: int, hash: Hash, outcome: Outcome)
    | Crash(c: int)

  const INIT := State(0, map[], map[], map[], map[])

  // ---------------------------------------------------------------- risk

  /** The parts of a user agent before and after its first slash, as far as the second. */
  function UntilSlash(s: string): string {
    if s == "" || s[0] == '/' then "" else [s[0]] + UntilSlash(s[1..])
  }

  function ParseUserAgent(ua: string): (string, string) {
    var family := UntilSlash(ua);
    if |family| < |ua| then (family, UntilSlash(ua[|family| + 1..])) else (ua, "0.0")
  }

  /** `subnet` stands for the first two octets of an IPv4 address, or the text itself. */
  function RiskScore(subnet: string -> string, stored: Device, current: Device): int {
    var (storedFamily, storedVersion) := ParseUserAgent(stored.userAgent);
    var (currentFamily, currentVersion) := ParseUserAgent(current.userAgent);
    (if storedFamily != currentFamily then RISK_UA_FAMILY
     else if storedVersion != currentVersion then RISK_UA_VERSION
     else 0) +
    (if subnet(stored.ip) != subnet(current.ip) then RISK_IP_SUBNET
     else if stored.ip != current.ip then RISK_IP_HOST
     else 0)
  }

  /** The score a refresh is judged by, of the session's device and the present one. */
  type Risk = (Device, Device) -> int

  function Scored(subnet: string -> string): Risk {
    (stored, current) => RiskScore(subnet, stored, current)
  }

  /** The thresholds mean: revoke when the browser family and the subnet have both changed. */
  lemma RevokesOnFamilyAndSubnet(subnet: string -> string, stored: Device, current: Device)
    ensures Scored(subnet)(stored, current) >= RISK_REVOKE <==>
      ParseUserAgent(stored.userAgent).0 != ParseUserAgent(current.userAgent).0
      && subnet(stored.ip) != subnet(current.ip)
  {
  }

  // ---------------------------------------------------------------- steps

  function CallOf(s: State, c: int): Call {
    if c in s.calls then s.calls[c] else Idle
  }

  function With(s: State, c: int, call: Call): State {
    s.(calls := s.calls[c := call])
  }

  predicate Claimable(s: State, hash: Hash) {
    hash in s.tokens && !s.tokens[hash].revoked && s.tokens[hash].expires > s.now
  }

  function Revoked(tokens: map<Hash, Token>, family: Family): map<Hash, Token> {
    map h | h in tokens :: if tokens[h].family == family then tokens[h].(revoked := true) else tokens[h]
  }

  function ClaimsOf(s: State, hash: Hash): nat {
    if hash in s.claims then s.claims[hash] else 0
  }

  function ClaimStep(s: State, c: int, hash: Hash, outcome: Outcome): State {
    if outcome == NotApplied || !Claimable(s, hash) then
      With(s, c, Rejected(hash))
    else
      var token := s.tokens[hash];
      var claimed := s.(tokens := s.tokens[hash := token.(revoked := true)],
                        claims := s.claims[hash := ClaimsOf(s, hash) + 1]);
      With(claimed, c, if outcome == Answered then Claimed(token.owner, token.family) else Rejected(hash))
  }

  /** One atomic step; an action that is not enabled changes nothing. Family ids are fresh; a token
      hash that exists already violates the unique index. */
  function Step(risk: Risk, s: State, a: Action): State {
    match a
    case Tick(elapsed) => s.(now := s.now + elapsed)
    case Login(c, owner, family) =>
      if CallOf(s, c).Idle? && family !in s.owners then
        With(s.(owners := s.owners[family := owner]), c, Issuing(owner, family))
      else s
    case Refresh(c, hash) =>
      if CallOf(s, c).Idle? then With(s, c, Starting(hash)) else s
    case Claim(c, outcome) =>
      if CallOf(s, c).Starting? then ClaimStep(s, c, CallOf(s, c).hash, outcome) else s
    case RevokeByHash(c, applied) =>
      var call := CallOf(s, c);
      if !call.Rejected? then s
      else if applied && call.hash in s.tokens then
        With(s.(tokens := Revoked(s.tokens, s.tokens[call.hash].family)), c, Idle)
      else With(s, c, Idle)
    case Assess(c, session, current) =>
      var call := CallOf(s, c);
      if !call.Claimed? then s
      else if session.Some? && risk(session.value, current) >= RISK_REVOKE then
        With(s, c, Risky(call.owner, call.family))
      else With(s, c, Issuing(call.owner, call.family))
    case RevokeFamily(c, applied) =>
      var call := CallOf(s, c);
      if !call.Risky? then s
      else With(if applied then s.(tokens := Revoked(s.tokens, call.family)) else s, c, Idle)
    case Issue(c, hash, outcome) =>
      var call := CallOf(s, c);
      if !call.Issuing? then s
      else if hash in s.tokens || outcome == NotApplied then With(s, c, Idle)
      else With(s.(tokens := s.tokens[hash := Token(call.owner, call.family, s.now + TOKEN_TTL, false)]), c, Idle)
    case Crash(c) => With(s, c, Idle)
  }

  function Run(risk: Risk, s: State, actions: seq<Action>): State {
    if actions == [] then
      s
    else
      Step(risk, Run(risk, s, actions[..|actions| - 1]), actions[|actions| - 1])
  }

  lemma {:induction false} RunAppend(risk: Risk, s: State, a: seq<Action>, b: seq<Action>)
    ensures Run(risk, s, a + b) == Run(risk, Run(risk, s, a), b)
  {
    if b == [] {
      assert a + b == a;
    } else {
      var n := |b| - 1;
      assert (a + b)[..|a + b| - 1] == a + b[..n];
      RunAppend(risk, s, a, b[..n]);
    }
  }

  // ---------------------------------------------------------------- invariant

  /** A call between claiming (or logging in) and issuing. */
  predicate InFlight(call: Call, family: Family) {
    (call.Claimed? || call.Risky? || call.Issuing?) && call.family == family
  }

  /** A family has at most one of: an unrevoked token, a call in flight. */
  ghost predicate AtMostOneLive(s: State) {
    && (forall h, g :: h in s.tokens && g in s.tokens && h != g && s.tokens[h].family == s.tokens[g].family ==>
          s.tokens[h].revoked || s.tokens[g].revoked)
    && (forall c, d, f :: c in s.calls && d in s.calls && InFlight(s.calls[c], f) && InFlight(s.calls[d], f) ==> c == d)
    && (forall c, h :: c in s.calls && h in s.tokens && InFlight(s.calls[c], s.tokens[h].family) ==>
          s.tokens[h].revoked)
  }

  /** All tokens and calls of a family belong to the owner it was opened for. */
  ghost predicate OneOwner(s: State) {
    && (forall h :: h in s.tokens ==>
          s.tokens[h].family in s.owners && s.owners[s.tokens[h].family] == s.tokens[h].owner)
    && (forall c, f :: c in s.calls && InFlight(s.calls[c], f) ==> f in s.owners && s.owners[f] == s.calls[c].owner)
  }

  ghost predicate ClaimedOnce(s: State) {
    forall h :: h in s.claims ==> s.claims[h] <= 1 && h in s.tokens && (s.claims[h] == 1 ==> s.tokens[h].revoked)
  }

  ghost predicate Inv(s: State) {
    AtMostOneLive(s) && OneOwner(s) && ClaimedOnce(s)
  }

  /** A step that revokes tokens, ends a call or moves it from one in-flight state to another. */
  lemma QuietStep(s: State, t: State, c: int)
    requires Inv(s)
    requires t.owners == s.owners && t.claims == s.claims && t.tokens.Keys == s.tokens.Keys
    requires forall h :: h in s.tokens ==> t.tokens[h] == s.tokens[h] || t.tokens[h] == s.tokens[h].(revoked := true)
    requires forall d :: d in t.calls && d != c ==> d in s.calls && t.calls[d] == s.calls[d]
    requires c in t.calls ==>
      forall f :: InFlight(t.calls[c], f) ==>
        c in s.calls && InFlight(s.calls[c], f) && t.calls[c].owner == s.calls[c].owner
    ensures Inv(t)
  {
  }

  lemma ClaimKeepsInv(s: State, c: int, hash: Hash, outcome: Outcome)
    requires Inv(s) && CallOf(s, c).Starting?
    ensures Inv(ClaimStep(s, c, hash, outcome))
  {
    if outcome == NotApplied || !Claimable(s, hash) {
      QuietStep(s, ClaimStep(s, c, hash, outcome), c);
    }
  }

  lemma StepKeepsInv(risk: Risk, s: State, a: Action)
    requires Inv(s)
    ensures Inv(Step(risk, s, a))
  {
    match a
    case Tick(_) =>
    case Login(c, owner, family) => LoginKeepsInv(risk, s, c, owner, family);
    case Claim(c, outcome) => if CallOf(s, c).Starting? { ClaimKeepsInv(s, c, CallOf(s, c).hash, outcome); }
    case Issue(c, hash, outcome) => IssueKeepsInv(risk, s, c, hash, outcome);
    case RevokeByHash(_, _) => RevokeKeepsInv(risk, s, a);
    case RevokeFamily(_, _) => RevokeKeepsInv(risk, s, a);
    case _ => CallKeepsInv(risk, s, a);
  }

  lemma RevokeKeepsInv(risk: Risk, s: State, a: Action)
    requires Inv(s) && (a.RevokeByHash? || a.RevokeFamily?)
    ensures Inv(Step(risk, s, a))
  {
    QuietStep(s, Step(risk, s, a), a.c);
  }

  lemma CallKeepsInv(risk: Risk, s: State, a: Action)
    requires Inv(s) && (a.Refresh? || a.Assess? || a.Crash?)
    ensures Inv(Step(risk, s, a))
  {
    QuietStep(s, Step(risk, s, a), a.c);
  }

  lemma LoginKeepsInv(risk: Risk, s: State, c: int, owner: Owner, family: Family)
    requires Inv(s)
    ensures Inv(Step(risk, s, Login(c, owner, family)))
  {
  }

  lemma IssueKeepsInv(risk: Risk, s: State, c: int, hash: Hash, outcome: Outcome)
    requires Inv(s)
    ensures Inv(Step(risk, s, Issue(c, hash, outcome)))
  {
    var call, t := CallOf(s, c), Step(risk, s, Issue(c, hash, outcome));
    if !call.Issuing? || hash in s.tokens || outcome == NotApplied {
      QuietStep(s, t, c);
    } else {
      IssuedKeepsInv(s, c, hash, call);
    }
  }

  lemma IssuedKeepsInv(s: State, c: int, hash: Hash, call: Call)
    requires Inv(s) && call == CallOf(s, c) && call.Issuing? && hash !in s.tokens
    ensures Inv(With(s.(tokens := s.tokens[hash := Token(call.owner, call.family, s.now + TOKEN_TTL, false)]), c, Idle))
  {
    assert InFlight(call, call.family);
  }

  lemma {:induction false} RunKeepsInv(risk: Risk, s: State, actions: seq<Action>)
    requires Inv(s)
    ensures Inv(Run(risk, s, actions))
  {
    if actions != [] {
      var n := |actions| - 1;
      RunKeepsInv(risk, s, actions[..n]);
      StepKeepsInv(risk, Run(risk, s, actions[..n]), actions[n]);
    }
  }

  /** In every interleaving of logins, refreshes, revocations and crashes: at most one live
      credential per family, no token claimed twice, and one owner per family. */
  lemma FamiliesStaySingle(risk: Risk, actions: seq<Action>)
    ensures var s := Run(risk, INIT, actions); AtMostOneLive(s) && OneOwner(s) && ClaimedOnce(s)
  {
    RunKeepsInv(risk, INIT, actions);
  }

  // ---------------------------------------------------------------- revocation is final

  ghost predicate AllRevoked(s: State, family: Family) {
    forall h :: h in s.tokens && s.tokens[h].family == family ==> s.tokens[h].revoked
  }

  /** A call past its claim that has not been judged risky: it may still issue. */
  predicate MayIssue(s: State, c: int, family: Family) {
    var call := CallOf(s, c);
    (call.Claimed? || call.Issuing?) && call.family == family
  }

  /** A closed family: everything is revoked and nobody is about to issue. */
  ghost predicate Closed(s: State, family: Family) {
    family in s.owners && AllRevoked(s, family) && forall c :: !MayIssue(s, c, family)
  }

  lemma {:induction false} ClosedForever(risk: Risk, s: State, family: Family, actions: seq<Action>)
    requires Closed(s, family)
    ensures Closed(Run(risk, s, actions), family)
  {
    if actions != [] {
      var n := |actions| - 1;
      ClosedForever(risk, s, family, actions[..n]);
      ClosedStep(risk, Run(risk, s, actions[..n]), family, actions[n]);
    }
  }

  lemma ClosedStep(risk: Risk, s: State, family: Family, a: Action)
    requires Closed(s, family)
    ensures Closed(Step(risk, s, a), family)
  {
    var t := Step(risk, s, a);
    forall c
      ensures !MayIssue(t, c, family)
    {
      assert !MayIssue(s, c, family);
    }
    forall h | h in t.tokens && t.tokens[h].family == family
      ensures t.tokens[h].revoked
    {
      if a.Issue? { assert !MayIssue(s, a.c, family); }
    }
  }

  /** What `RefreshToken` answers SESSION_COMPROMISED or SESSION_REVOKED_RISK by: the statement that
      revokes the family of a known token. */
  predicate Revokes(s: State, a: Action, family: Family) {
    match a
    case RevokeByHash(c, applied) =>
      applied && CallOf(s, c).Rejected? && CallOf(s, c).hash in s.tokens && s.tokens[CallOf(s, c).hash].family == family
    case RevokeFamily(c, applied) =>
      applied && CallOf(s, c).Risky? && CallOf(s, c).family == family
    case _ => false
  }

  /** Once a refresh has had the family revoked while no other refresh of it was past its claim, no
      later call on any token of the family is ever granted. */
  lemma RevocationIsFinal(risk: Risk, before: seq<Action>, a: Action, after: seq<Action>,
      family: Family, c: int, hash: Hash, outcome: Outcome)
    requires Revokes(Run(risk, INIT, before), a, family)
    requires forall d :: !MayIssue(Run(risk, INIT, before), d, family)
    ensures var t := Run(risk, INIT, before + [a] + after);
      && AllRevoked(t, family)
      && (CallOf(t, c) == Starting(hash) && hash in t.tokens && t.tokens[hash].family == family ==>
            CallOf(Step(risk, t, Claim(c, outcome)), c) == Rejected(hash))
  {
    var s := Run(risk, INIT, before);
    RunKeepsInv(risk, INIT, before);
    RevocationCloses(risk, s, a, family);
    assert (before + [a])[..|before|] == before;
    RunAppend(risk, INIT, before + [a], after);
    ClosedForever(risk, Run(risk, INIT, before + [a]), family, after);
  }

  lemma RevocationCloses(risk: Risk, s: State, a: Action, family: Family)
    requires Inv(s) && Revokes(s, a, family)
    ensures AllRevoked(Step(risk, s, a), family) && family in s.owners
    ensures forall d :: MayIssue(Step(risk, s, a), d, family) <==> MayIssue(s, d, family)
  {
    if a.RevokeFamily? { assert InFlight(CallOf(s, a.c), family); }
  }

  // ---------------------------------------------------------------- and exactly then

  lemma {:induction false} FreshHash(used: set<Hash>) returns (hash: Hash)
    ensures forall h :: h in used ==> h < hash
  {
    if used == {} {
      hash := 0;
    } else {
      var h := AnyOf(used);
      var rest := FreshHash(used - {h});
      hash := if h < rest then rest else h + 1;
      forall k | k in used
        ensures k < hash
      {
        assert k == h || k in used - {h};
      }
    }
  }

  ghost predicate Reopens(risk: Risk, s: State, family: Family, actions: seq<Action>) {
    !AllRevoked(Run(risk, s, actions), family)
  }

  /** The exact condition: a fully revoked family comes back in some continuation if and only if
      some call of it is past its claim and not judged risky. */
  lemma FamilyReopensIff(risk: Risk, s: State, family: Family)
    requires Inv(s) && family in s.owners && AllRevoked(s, family)
    ensures (exists actions :: Reopens(risk, s, family, actions)) <==> exists c :: MayIssue(s, c, family)
  {
    if c :| MayIssue(s, c, family) {
      var hash := FreshHash(s.tokens.Keys);
      var assess, issue := Assess(c, None, Device("", "")), Issue(c, hash, Answered);
      var t := Step(risk, s, assess);
      assert [assess, issue][..1] == [assess] && [assess][..0] == [] && Run(risk, s, []) == s;
      assert Run(risk, s, [assess]) == t;
      assert Run(risk, s, [assess, issue]) == Step(risk, t, issue);
      assert hash !in s.tokens && CallOf(t, c).Issuing? && CallOf(t, c).family == family;
      assert !Step(risk, t, issue).tokens[hash].revoked;
      assert Reopens(risk, s, family, [assess, issue]);
    } else {
      forall actions
        ensures !Reopens(risk, s, family, actions)
      {
        ClosedForever(risk, s, family, actions);
      }
    }
  }

  // ---------------------------------------------------------------- a family that comes back

  lemma RunStep(risk: Risk, s: State, trace: seq<Action>, a: Action)
    ensures Run(risk, s, trace + [a]) == Step(risk, Run(risk, s, trace), a)
  {
    assert (trace + [a])[..|trace|] == trace;
  }

  /** A login (call 0) issues a token; a refresh (call 1) claims it. */
  function LoginAndClaim(owner: Owner, family: Family, hash: Hash): seq<Action> {
    [] + [Login(0, owner, family)] + [Issue(0, hash, Answered)] + [Refresh(1, hash)] + [Claim(1, Answered)]
  }

  /** Another refresh (call 2) presents the same token and has the family revoked. */
  function Replay(hash: Hash): seq<Action> {
    [] + [Refresh(2, hash)] + [Claim(2, Answered)] + [RevokeByHash(2, true)]
  }

  /** The first refresh goes on: no session is found, and it issues. */
  function AssessAndIssue(next: Hash): seq<Action> {
    [] + [Assess(1, None, Device("", ""))] + [Issue(1, next, Answered)]
  }

  lemma ClaimedState(risk: Risk, owner: Owner, family: Family, hash: Hash)
    ensures Run(risk, INIT, LoginAndClaim(owner, family, hash)) == State(0,
      map[hash := Token(owner, family, TOKEN_TTL, true)],
      map[0 := Idle, 1 := Claimed(owner, family)], map[family := owner], map[hash := 1])
  {
    var t0 := [] + [Login(0, owner, family)];
    var t1 := t0 + [Issue(0, hash, Answered)];
    var t2 := t1 + [Refresh(1, hash)];
    RunStep(risk, INIT, [], Login(0, owner, family));
    RunStep(risk, INIT, t0, Issue(0, hash, Answered));
    RunStep(risk, INIT, t1, Refresh(1, hash));
    RunStep(risk, INIT, t2, Claim(1, Answered));
    assert Run(risk, INIT, t2) == State(0, map[hash := Token(owner, family, TOKEN_TTL, false)],
      map[0 := Idle, 1 := Starting(hash)], map[family := owner], map[]);
  }

  lemma ReplayedState(risk: Risk, s: State, owner: Owner, family: Family, hash: Hash)
    requires s.tokens == map[hash := Token(owner, family, TOKEN_TTL, true)]
    requires s.calls == map[0 := Idle, 1 := Claimed(owner, family)]
    ensures Run(risk, s, Replay(hash)) == s.(calls := s.calls[2 := Idle])
  {
    ReplayIsRejected(risk, s, owner, family, hash);
    assert Replay(hash) == Replay(hash)[..2] + [RevokeByHash(2, true)];
    RunStep(risk, s, Replay(hash)[..2], RevokeByHash(2, true));
    assert Revoked(s.tokens, family) == s.tokens;
  }

  lemma ReissuedState(risk: Risk, s: State, owner: Owner, family: Family, next: Hash)
    requires next !in s.tokens && CallOf(s, 1) == Claimed(owner, family)
    ensures var t := Run(risk, s, AssessAndIssue(next));
      next in t.tokens && t.tokens[next] == Token(owner, family, s.now + TOKEN_TTL, false)
  {
    RunStep(risk, s, [], Assess(1, None, Device("", "")));
    RunStep(risk, s, [] + [Assess(1, None, Device("", ""))], Issue(1, next, Answered));
  }

  /** A run the service can make: a token presented twice has its family revoked while its first
      refresh is past the claim, and that refresh then issues an unrevoked token of the family. */
  lemma RevokedFamilyComesBack(risk: Risk, owner: Owner, family: Family, hash: Hash, next: Hash)
    requires hash != next
    ensures var revoked := LoginAndClaim(owner, family, hash) + Replay(hash);
      && AllRevoked(Run(risk, INIT, revoked), family)
      && Revokes(Run(risk, INIT, LoginAndClaim(owner, family, hash) + Replay(hash)[..2]), RevokeByHash(2, true), family)
      && !AllRevoked(Run(risk, INIT, revoked + AssessAndIssue(next)), family)
  {
    var first := LoginAndClaim(owner, family, hash);
    var s := Run(risk, INIT, first);
    ClaimedState(risk, owner, family, hash);
    RunAppend(risk, INIT, first, Replay(hash));
    ReplayedState(risk, s, owner, family, hash);
    var t := Run(risk, INIT, first + Replay(hash));
    RunAppend(risk, INIT, first + Replay(hash), AssessAndIssue(next));
    ReissuedState(risk, t, owner, family, next);
    RunAppend(risk, INIT, first, Replay(hash)[..2]);
    ReplayIsRejected(risk, s, owner, family, hash);
  }

  lemma ReplayIsRejected(risk: Risk, s: State, owner: Owner, family: Family, hash: Hash)
    requires s.tokens == map[hash := Token(owner, family, TOKEN_TTL, true)]
    requires s.calls == map[0 := Idle, 1 := Claimed(owner, family)]
    ensures Run(risk, s, Replay(hash)[..2]) == s.(calls := s.calls[2 := Rejected(hash)])
  {
    var t0 := [] + [Refresh(2, hash)];
    assert Replay(hash)[..2] == t0 + [Claim(2, Answered)];
    RunStep(risk, s, [], Refresh(2, hash));
    RunStep(risk, s, t0, Claim(2, Answered));
  }
}
