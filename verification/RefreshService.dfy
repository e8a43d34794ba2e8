/** `RefreshToken` and the repository statements it makes, as imperative code over the live table.
    Between any two statements other calls may take any steps. */
module RefreshService {
  import opened Wrappers
  import opened RefreshTokens

  datatype Answer = Compromised | RevokedRisk | Failed | Issued(hash: Hash)

  /** What one refresh meets: the others' steps before each of its statements, and their outcomes. */
  datatype Env = Env(
    beforeClaim: seq<Action>, claim: Outcome,
    beforeRevoke: seq<Action>, revoke: bool,
    beforeAssess: seq<Action>, session: Option<Device>,
    beforeIssue: seq<Action>, sessionCreated: bool, newHash: Hash, issue: Outcome)

  predicate NotBy(c: int, a: Action) {
    a.Tick? || a.c != c
  }

  ghost predicate Leaves(c: int, others: seq<Action>) {
    forall a :: a in others ==> NotBy(c, a)
  }

  /** Tokens are never removed or un-revoked and keep their family and owner. */
  ghost predicate Preserved(before: map<Hash, Token>, after: map<Hash, Token>) {
    forall h :: h in before ==>
      h in after && (after[h] == before[h] || after[h] == before[h].(revoked := true))
  }

  lemma {:induction false} OthersLeaveCall(risk: Risk, s: State, others: seq<Action>, c: int)
    requires Leaves(c, others)
    ensures CallOf(Run(risk, s, others), c) == CallOf(s, c)
    ensures Preserved(s.tokens, Run(risk, s, others).tokens) && s.now <= Run(risk, s, others).now
  {
    if others != [] {
      var n := |others| - 1;
      var t := Run(risk, s, others[..n]);
      OthersLeaveCall(risk, s, others[..n], c);
      assert NotBy(c, others[n]);
      StepLeavesCall(risk, t, others[n], c);
      StepPreserves(risk, t, others[n]);
      PreservedTwice(s.tokens, t.tokens, Step(risk, t, others[n]).tokens);
    }
  }

  lemma PreservedTwice(a: map<Hash, Token>, b: map<Hash, Token>, c: map<Hash, Token>)
    requires Preserved(a, b) && Preserved(b, c)
    ensures Preserved(a, c)
  {
  }

  lemma StepLeavesCall(risk: Risk, s: State, a: Action, c: int)
    requires NotBy(c, a)
    ensures CallOf(Step(risk, s, a), c) == CallOf(s, c) && s.now <= Step(risk, s, a).now
  {
  }

  lemma StepPreserves(risk: Risk, s: State, a: Action)
    ensures Preserved(s.tokens, Step(risk, s, a).tokens)
  {
  }

  class TokenService {
    const risk: Risk
    var now: int
    var tokens: map<Hash, Token>
    var calls: map<int, Call>
    var owners: map<Family, Owner>
    var claims: map<Hash, nat>

    constructor (risk: Risk)
      ensures this.risk == risk && Model() == INIT
    {
      this.risk := risk;
      now, tokens, calls, owners, claims := 0, map[], map[], map[], map[];
    }

    function Model(): State
      reads this
    {
      State(now, tokens, calls, owners, claims)
    }

    method Meanwhile(c: int, others: seq<Action>)
      requires Inv(Model()) && Leaves(c, others)
      modifies this
      ensures Model() == Run(risk, old(Model()), others) && Inv(Model())
      ensures CallOf(Model(), c) == old(CallOf(Model(), c))
      ensures Preserved(old(tokens), tokens) && old(now) <= now
    {
      OthersLeaveCall(risk, Model(), others, c);
      RunKeepsInv(risk, Model(), others);
      var t := Run(risk, Model(), others);
      now, tokens, calls, owners, claims := t.now, t.tokens, t.calls, t.owners, t.claims;
    }

    /** UPDATE ... SET revoked = TRUE WHERE the token is unrevoked and unexpired, RETURNING the row. */
    method ClaimRefreshToken(c: int, outcome: Outcome) returns (row: Option<Token>)
      requires Inv(Model()) && CallOf(Model(), c).Starting?
      modifies this
      ensures Model() == Step(risk, old(Model()), Claim(c, outcome)) && Inv(Model())
      ensures var hash := old(CallOf(Model(), c)).hash;
        match row
        case Some(token) =>
          && old(Claimable(Model(), hash)) && token == old(tokens)[hash].(revoked := true)
          && hash in tokens && tokens[hash] == token
          && CallOf(Model(), c) == Claimed(token.owner, token.family)
        case None => CallOf(Model(), c) == Rejected(hash)
      ensures Preserved(old(tokens), tokens)
    {
      var hash := calls[c].hash;
      ClaimKeepsInv(Model(), c, hash, outcome);
      row := None;
      if outcome != NotApplied && hash in tokens && !tokens[hash].revoked && tokens[hash].expires > now {
        RevokeRow(hash);
        if outcome == Answered {
          row := Some(tokens[hash]);
        }
      }
      calls := calls[c := match row case Some(token) => Claimed(token.owner, token.family) case None => Rejected(hash)];
    }

    /** The claimed row is revoked; the claim is counted in the history. */
    method RevokeRow(hash: Hash)
      requires hash in tokens
      modifies this`tokens, this`claims
      ensures tokens == old(tokens)[hash := old(tokens)[hash].(revoked := true)]
      ensures claims == old(claims)[hash := ClaimsOf(old(Model()), hash) + 1]
    {
      tokens := tokens[hash := tokens[hash].(revoked := true)];
      claims := claims[hash := if hash in claims then claims[hash] + 1 else 1];
    }

    method RevokeRefreshTokenFamily(c: int, applied: bool)
      requires Inv(Model()) && CallOf(Model(), c).Risky?
      modifies this
      ensures Model() == Step(risk, old(Model()), Action.RevokeFamily(c, applied)) && Inv(Model())
      ensures CallOf(Model(), c) == Idle
      ensures applied ==> AllRevoked(Model(), old(CallOf(Model(), c)).family)
      ensures Preserved(old(tokens), tokens)
    {
      StepKeepsInv(risk, Model(), Action.RevokeFamily(c, applied));
      var family := calls[c].family;
      if applied {
        tokens := map h | h in tokens :: if tokens[h].family == family then tokens[h].(revoked := true) else tokens[h];
      }
      calls := calls[c := Idle];
    }

    method RevokeRefreshTokenFamilyByHash(c: int, applied: bool)
      requires Inv(Model()) && CallOf(Model(), c).Rejected?
      modifies this
      ensures Model() == Step(risk, old(Model()), Action.RevokeByHash(c, applied)) && Inv(Model())
      ensures CallOf(Model(), c) == Idle
      ensures var hash := old(CallOf(Model(), c)).hash;
        applied && hash in tokens ==> AllRevoked(Model(), tokens[hash].family)
      ensures Preserved(old(tokens), tokens)
    {
      StepKeepsInv(risk, Model(), Action.RevokeByHash(c, applied));
      var hash := calls[c].hash;
      if applied && hash in tokens {
        var family := tokens[hash].family;
        tokens := map h | h in tokens :: if tokens[h].family == family then tokens[h].(revoked := true) else tokens[h];
      }
      calls := calls[c := Idle];
    }

    /** INSERT of the next token; `hash` is refused if it exists. */
    method CreateRefreshToken(c: int, hash: Hash, outcome: Outcome) returns (ok: bool)
      requires Inv(Model()) && CallOf(Model(), c).Issuing?
      modifies this
      ensures Model() == Step(risk, old(Model()), Action.Issue(c, hash, outcome)) && Inv(Model())
      ensures CallOf(Model(), c) == Idle
      ensures ok <==> outcome == Answered && hash !in old(tokens)
      ensures var call := old(CallOf(Model(), c));
        ok ==> hash in tokens && tokens[hash] == Token(call.owner, call.family, now + TOKEN_TTL, false)
      ensures Preserved(old(tokens), tokens)
    {
      StepKeepsInv(risk, Model(), Action.Issue(c, hash, outcome));
      var call := calls[c];
      ok := outcome == Answered && hash !in tokens;
      if outcome != NotApplied && hash !in tokens {
        tokens := tokens[hash := Token(call.owner, call.family, now + TOKEN_TTL, false)];
      }
      calls := calls[c := Idle];
    }

    /** One refresh. Whatever happens in between, it is a run of the state machine; an issued token
        replaces one that was usable when the call began and is used up now, in the same family
        and for the same owner; a refusal leaves the whole family revoked if its statement applied. */
    method RefreshToken(c: int, hash: Hash, current: Device, env: Env)
      returns (answer: Answer, ghost trace: seq<Action>)
      requires Inv(Model()) && CallOf(Model(), c).Idle?
      requires Leaves(c, env.beforeClaim) && Leaves(c, env.beforeRevoke)
      requires Leaves(c, env.beforeAssess) && Leaves(c, env.beforeIssue)
      modifies this
      ensures Model() == Run(risk, old(Model()), trace) && Inv(Model())
      ensures CallOf(Model(), c).Idle? && Preserved(old(tokens), tokens)
      ensures match answer
        case Issued(next) =>
          && hash in tokens && tokens[hash].revoked && tokens[hash].expires > old(now)
          && (hash in old(tokens) ==> !old(tokens)[hash].revoked)
          && next !in old(tokens) && next in tokens && !tokens[next].revoked && tokens[next].expires == now + TOKEN_TTL
          && tokens[next].family == tokens[hash].family && tokens[next].owner == tokens[hash].owner
        case Compromised => env.revoke && hash in tokens ==> AllRevoked(Model(), tokens[hash].family)
        case RevokedRisk =>
          && hash in tokens && (env.revoke ==> AllRevoked(Model(), tokens[hash].family))
          && env.session.Some? && risk(env.session.value, current) >= RISK_REVOKE
        case Failed => hash in tokens && tokens[hash].revoked
    {
      ghost var s0 := Model();
      ghost var next;
      var row;
      row, trace := BeginAndClaim(c, hash, env);
      if row.None? {
        next := RefuseReuse(c, env);
        answer := Compromised;
      } else {
        answer, next := JudgeAndIssue(c, hash, current, env);
      }
      RunAppend(risk, s0, trace, next);
      trace := trace + next;
    }

    /** A refresh after its claim succeeded. */
    method JudgeAndIssue(c: int, hash: Hash, current: Device, env: Env)
      returns (answer: Answer, ghost trace: seq<Action>)
      requires Inv(Model()) && hash in tokens && tokens[hash].revoked
      requires CallOf(Model(), c) == Claimed(tokens[hash].owner, tokens[hash].family)
      requires Leaves(c, env.beforeRevoke) && Leaves(c, env.beforeAssess) && Leaves(c, env.beforeIssue)
      modifies this
      ensures Model() == Run(risk, old(Model()), trace) && Inv(Model())
      ensures CallOf(Model(), c).Idle? && Preserved(old(tokens), tokens)
      ensures match answer
        case Issued(next) =>
          && next !in old(tokens)
          && next in tokens && tokens[next] == Token(tokens[hash].owner, tokens[hash].family, now + TOKEN_TTL, false)
        case RevokedRisk =>
          && (env.revoke ==> AllRevoked(Model(), tokens[hash].family))
          && env.session.Some? && risk(env.session.value, current) >= RISK_REVOKE
        case Failed => true
        case Compromised => false
    {
      ghost var s0 := Model();
      ghost var next;
      var risky;
      risky, trace := LookAtRisk(c, current, env);
      if risky {
        next := RefuseRisk(c, env);
        answer := RevokedRisk;
      } else {
        var ok;
        ok, next := IssueTokens(c, env);
        answer := if ok then Issued(env.newHash) else Failed;
      }
      RunAppend(risk, s0, trace, next);
      trace := trace + next;
    }

    method BeginAndClaim(c: int, hash: Hash, env: Env) returns (row: Option<Token>, ghost trace: seq<Action>)
      requires Inv(Model()) && CallOf(Model(), c).Idle? && Leaves(c, env.beforeClaim)
      modifies this
      ensures Model() == Run(risk, old(Model()), trace) && Inv(Model()) && Preserved(old(tokens), tokens)
      ensures match row
        case None => CallOf(Model(), c) == Rejected(hash)
        case Some(token) =>
          && CallOf(Model(), c) == Claimed(token.owner, token.family)
          && hash in tokens && tokens[hash] == token && token.revoked && token.expires > old(now)
          && (hash in old(tokens) ==> !old(tokens)[hash].revoked)
    {
      ghost var s0 := Model();
      trace := Begin(c, hash, env);
      RunStep(risk, s0, trace, Claim(c, env.claim));
      row := ClaimRefreshToken(c, env.claim);
      trace := trace + [Claim(c, env.claim)];
    }

    /** The call starts, and others act before its claim. */
    method Begin(c: int, hash: Hash, env: Env) returns (ghost trace: seq<Action>)
      requires Inv(Model()) && CallOf(Model(), c).Idle? && Leaves(c, env.beforeClaim)
      modifies this
      ensures Model() == Run(risk, old(Model()), trace) && Inv(Model()) && Preserved(old(tokens), tokens)
      ensures CallOf(Model(), c) == Starting(hash) && old(now) <= now
    {
      ghost var s0 := Model();
      RunStep(risk, s0, [], Refresh(c, hash));
      StepKeepsInv(risk, s0, Refresh(c, hash));
      calls := calls[c := Starting(hash)];
      RunAppend(risk, s0, [Refresh(c, hash)], env.beforeClaim);
      Meanwhile(c, env.beforeClaim);
      trace := [] + [Refresh(c, hash)] + env.beforeClaim;
    }

    method RefuseReuse(c: int, env: Env) returns (ghost trace: seq<Action>)
      requires Inv(Model()) && CallOf(Model(), c).Rejected? && Leaves(c, env.beforeRevoke)
      modifies this
      ensures Model() == Run(risk, old(Model()), trace) && Inv(Model()) && Preserved(old(tokens), tokens)
      ensures CallOf(Model(), c).Idle?
      ensures var hash := old(CallOf(Model(), c)).hash;
        env.revoke && hash in tokens ==> AllRevoked(Model(), tokens[hash].family)
    {
      ghost var s0 := Model();
      Meanwhile(c, env.beforeRevoke);
      RunStep(risk, s0, env.beforeRevoke, Action.RevokeByHash(c, env.revoke));
      RevokeRefreshTokenFamilyByHash(c, env.revoke);
      trace := env.beforeRevoke + [Action.RevokeByHash(c, env.revoke)];
    }

    method LookAtRisk(c: int, current: Device, env: Env) returns (risky: bool, ghost trace: seq<Action>)
      requires Inv(Model()) && CallOf(Model(), c).Claimed? && Leaves(c, env.beforeAssess)
      modifies this
      ensures Model() == Run(risk, old(Model()), trace) && Inv(Model()) && Preserved(old(tokens), tokens)
      ensures risky <==> env.session.Some? && risk(env.session.value, current) >= RISK_REVOKE
      ensures var call := old(CallOf(Model(), c));
        CallOf(Model(), c) == if risky then Risky(call.owner, call.family) else Issuing(call.owner, call.family)
    {
      ghost var s0 := Model();
      Meanwhile(c, env.beforeAssess);
      RunStep(risk, s0, env.beforeAssess, Assess(c, env.session, current));
      risky := DecideRisk(c, env.session, current);
      trace := env.beforeAssess + [Assess(c, env.session, current)];
    }

    /** Compares the present device with the session's, if there is one. */
    method DecideRisk(c: int, session: Option<Device>, current: Device) returns (risky: bool)
      requires Inv(Model()) && CallOf(Model(), c).Claimed?
      modifies this`calls
      ensures Model() == Step(risk, old(Model()), Assess(c, session, current)) && Inv(Model())
      ensures risky <==> session.Some? && risk(session.value, current) >= RISK_REVOKE
      ensures var call := old(CallOf(Model(), c));
        CallOf(Model(), c) == if risky then Risky(call.owner, call.family) else Issuing(call.owner, call.family)
    {
      StepKeepsInv(risk, Model(), Assess(c, session, current));
      var call := calls[c];
      risky := session.Some? && risk(session.value, current) >= RISK_REVOKE;
      calls := calls[c := if risky then Risky(call.owner, call.family) else Issuing(call.owner, call.family)];
    }

    method RefuseRisk(c: int, env: Env) returns (ghost trace: seq<Action>)
      requires Inv(Model()) && CallOf(Model(), c).Risky? && Leaves(c, env.beforeRevoke)
      modifies this
      ensures Model() == Run(risk, old(Model()), trace) && Inv(Model()) && Preserved(old(tokens), tokens)
      ensures CallOf(Model(), c).Idle?
      ensures env.revoke ==> AllRevoked(Model(), old(CallOf(Model(), c)).family)
    {
      ghost var s0 := Model();
      Meanwhile(c, env.beforeRevoke);
      RunStep(risk, s0, env.beforeRevoke, Action.RevokeFamily(c, env.revoke));
      RevokeRefreshTokenFamily(c, env.revoke);
      trace := env.beforeRevoke + [Action.RevokeFamily(c, env.revoke)];
    }

    /** The session row, then the refresh token; nothing is inserted if the session fails. */
    method IssueTokens(c: int, env: Env) returns (ok: bool, ghost trace: seq<Action>)
      requires Inv(Model()) && CallOf(Model(), c).Issuing? && Leaves(c, env.beforeIssue)
      modifies this
      ensures Model() == Run(risk, old(Model()), trace) && Inv(Model()) && Preserved(old(tokens), tokens)
      ensures CallOf(Model(), c).Idle?
      ensures var call, next := old(CallOf(Model(), c)), env.newHash;
        ok ==>
          && next !in old(tokens) && next in tokens
          && tokens[next] == Token(call.owner, call.family, now + TOKEN_TTL, false)
    {
      ghost var s0 := Model();
      Meanwhile(c, env.beforeIssue);
      var outcome := if env.sessionCreated then env.issue else NotApplied;
      RunStep(risk, s0, env.beforeIssue, Action.Issue(c, env.newHash, outcome));
      ok := CreateRefreshToken(c, env.newHash, outcome);
      trace := env.beforeIssue + [Action.Issue(c, env.newHash, outcome)];
    }
  }
}
