/** The policy decision: glob matching, the deny-overrides evaluation of a policy list, and which
    policies of the database a request is evaluated against. */
module PolicyEvaluation {
  import opened Wrappers

  /** The parsed `logic` column; `Other` is an unknown type. */
  datatype Logic =
    | Unparsable
    | DenyAll
    | AllowAll
    | Rbac(subjects: seq<string>, actions: seq<string>, resources: seq<string>)
    | Cel(expression: string)
    | Other

  datatype Policy = Policy(id: string, version: int, logic: Logic)

  datatype Request = Request(org: string, subject: string, groups: seq<string>, action: string, resource: string)

  datatype Effect = Deny | Allow

  datatype Decision = Decision(effect: Effect, matched: seq<string>, maxVersion: int)

  /** A CEL expression's boolean result, or None when it does not compile, fails or is no boolean. */
  type CelEval = (string, Request) -> Option<bool>

  // ---------------------------------------------------------------- globs

  predicate HasPrefix(s: string, prefix: string) {
    |prefix| <= |s| && s[..|prefix|] == prefix
  }

  predicate HasSuffix(s: string, suffix: string) {
    |suffix| <= |s| && s[|s| - |suffix|..] == suffix
  }

  /** The language of one pattern. Without a final star it is the pattern itself; `q*` denotes
      everything `q` prefixes, and when `q` ends in a colon also `q` without it. */
  predicate Denotes(pattern: string, value: string) {
    if HasSuffix(pattern, "*") then
      var q := pattern[..|pattern| - 1];
      q <= value || q == value + ":"
    else
      pattern == value
  }

  predicate Matches(patterns: seq<string>, value: string) {
    exists p :: p in patterns && Denotes(p, value)
  }

  /** The same language by its three forms: exact, prefix, and the bare prefix of `q:*`. */
  lemma DenotesIffForms(pattern: string, value: string)
    ensures Denotes(pattern, value) <==>
      || pattern == value
      || (exists q: string :: pattern == q + "*" && q <= value)
      || pattern == value + ":*"
  {
    if HasSuffix(pattern, "*") {
      var q := pattern[..|pattern| - 1];
      assert pattern == q + "*";
      assert pattern == value ==> q <= value;
      assert q == value + ":" ==> pattern == value + ":*";
      assert pattern == value + ":*" ==> q == value + ":";
      forall r: string | pattern == r + "*"
        ensures r == q
      {
      }
    } else {
      forall r: string
        ensures pattern != r + "*" && pattern != value + ":*"
      {
        assert HasSuffix(r + "*", "*");
        assert (value + ":*")[|value + ":*"| - 1..] == "*";
      }
    }
  }

  lemma ColonStar(pattern: string, value: string)
    requires HasSuffix(pattern, ":*")
    ensures var prefix := pattern[..|pattern| - 2];
      HasSuffix(pattern, "*") && (Denotes(pattern, value) <==> HasPrefix(value, prefix + ":") || value == prefix)
  {
    var prefix := pattern[..|pattern| - 2];
    assert pattern[|pattern| - 2..] == ":*";
    assert pattern[|pattern| - 1..] == "*";
    assert pattern[..|pattern| - 1] == prefix + ":";
    assert prefix + ":" == value + ":" ==> (prefix + ":")[..|prefix|] == (value + ":")[..|value|];
  }

  method MatchesGlob(patterns: seq<string>, value: string) returns (b: bool)
    ensures b <==> Matches(patterns, value)
  {
    var i := 0;
    while i < |patterns|
      invariant 0 <= i <= |patterns|
      invariant forall j :: 0 <= j < i ==> !Denotes(patterns[j], value)
    {
      var p := patterns[i];
      if p == "*" || p == value {
        assert Denotes(p, value);
        return true;
      }
      if HasSuffix(p, ":*") {
        ColonStar(p, value);
        var prefix := p[..|p| - 2];
        if HasPrefix(value, prefix + ":") || value == prefix {
          return true;
        }
      }
      if HasSuffix(p, "*") {
        var prefix := p[..|p| - 1];
        if HasPrefix(value, prefix) {
          assert Denotes(p, value);
          return true;
        }
        if p[..|p| - 1] == value + ":" { BarePrefix(p, value); }
      }
      i := i + 1;
    }
    b := false;
  }

  /** The bare prefix is only ever matched through the colon form. */
  lemma BarePrefix(pattern: string, value: string)
    requires HasSuffix(pattern, "*") && pattern[..|pattern| - 1] == value + ":"
    ensures HasSuffix(pattern, ":*")
  {
    assert pattern[|pattern| - 2] == (value + ":")[|value|];
    assert pattern[|pattern| - 2..] == [pattern[|pattern| - 2]] + pattern[|pattern| - 1..];
  }

  // ---------------------------------------------------------------- what a list of policies means

  /** What one policy says about a request. */
  datatype Voice = Silent | Allows | Denies

  function VoiceOf(cel: CelEval, req: Request, p: Policy): Voice {
    match p.logic
    case DenyAll => Denies
    case AllowAll => Allows
    case Rbac(subjects, actions, resources) =>
      if Matches(subjects, req.subject) && Matches(actions, req.action) && Matches(resources, req.resource)
      then Allows else Silent
    case Cel(expression) => if expression != "" && cel(expression, req) == Some(true) then Allows else Silent
    case Unparsable => Silent
    case Other => Silent
  }

  predicate Speaks(cel: CelEval, req: Request, policies: seq<Policy>, voice: Voice) {
    exists p :: p in policies && VoiceOf(cel, req, p) == voice
  }

  /** The policies that match, in order. */
  function Matched(cel: CelEval, req: Request, policies: seq<Policy>): seq<Policy> {
    if policies == [] then
      []
    else
      var rest, last := Matched(cel, req, policies[..|policies| - 1]), policies[|policies| - 1];
      if VoiceOf(cel, req, last).Silent? then rest else rest + [last]
  }

  function Ids(policies: seq<Policy>): (ids: seq<string>)
    ensures |ids| == |policies|
  {
    seq(|policies|, i requires 0 <= i < |policies| => policies[i].id)
  }

  function MaxVersion(policies: seq<Policy>): int {
    if policies == [] then
      0
    else
      var rest, last := MaxVersion(policies[..|policies| - 1]), policies[|policies| - 1].version;
      if last > rest then last else rest
  }

  /** Deny overrides; without an explicit allow the answer is deny. */
  function Decide(cel: CelEval, req: Request, policies: seq<Policy>): Decision {
    var matched := Matched(cel, req, policies);
    Decision(
      if Speaks(cel, req, policies, Allows) && !Speaks(cel, req, policies, Denies) then Allow else Deny,
      Ids(matched),
      MaxVersion(matched))
  }

  method Evaluate(cel: CelEval, req: Request, policies: seq<Policy>) returns (d: Decision)
    ensures d == Decide(cel, req, policies)
  {
    var matchedIDs: seq<string> := [];
    var maxVersion := 0;
    var hasExplicitAllow, hasExplicitDeny := false, false;
    var i := 0;
    while i < |policies|
      invariant 0 <= i <= |policies|
      invariant hasExplicitAllow <==> Speaks(cel, req, policies[..i], Allows)
      invariant hasExplicitDeny <==> Speaks(cel, req, policies[..i], Denies)
      invariant matchedIDs == Ids(Matched(cel, req, policies[..i]))
      invariant maxVersion == MaxVersion(Matched(cel, req, policies[..i]))
    {
      var p := policies[i];
      assert policies[..i + 1] == policies[..i] + [p];
      assert policies[..i + 1][..i] == policies[..i];
      SpeaksStep(cel, req, policies[..i], p);
      MatchedStep(cel, req, policies[..i], p);
      OneMoreMatch(Matched(cel, req, policies[..i]), p);
      var voice := Hear(cel, req, p);
      if voice != Silent {
        matchedIDs := matchedIDs + [p.id];
        if voice == Denies {
          hasExplicitDeny := true;
        } else {
          hasExplicitAllow := true;
        }
        if p.version > maxVersion {
          maxVersion := p.version;
        }
      }
      i := i + 1;
    }
    assert policies[..i] == policies;
    if hasExplicitDeny {
      return Decision(Deny, matchedIDs, maxVersion);
    }
    d := Decision(if hasExplicitAllow then Allow else Deny, matchedIDs, maxVersion);
  }

  /** The switch over the policy's type. */
  method Hear(cel: CelEval, req: Request, p: Policy) returns (voice: Voice)
    ensures voice == VoiceOf(cel, req, p)
  {
    match p.logic
    case DenyAll => voice := Denies;
    case AllowAll => voice := Allows;
    case Rbac(subjects, actions, resources) =>
      var subjectMatch := MatchesGlob(subjects, req.subject);
      var actionMatch := MatchesGlob(actions, req.action);
      var resourceMatch := MatchesGlob(resources, req.resource);
      voice := if subjectMatch && actionMatch && resourceMatch then Allows else Silent;
    case Cel(expression) =>
      if expression == "" {
        return Silent;
      }
      voice := if cel(expression, req) == Some(true) then Allows else Silent;
    case Unparsable => voice := Silent;
    case Other => voice := Silent;
  }

  lemma SpeaksStep(cel: CelEval, req: Request, policies: seq<Policy>, p: Policy)
    ensures forall v ::
      Speaks(cel, req, policies + [p], v) <==> Speaks(cel, req, policies, v) || VoiceOf(cel, req, p) == v
  {
    forall v
      ensures Speaks(cel, req, policies + [p], v) <==> Speaks(cel, req, policies, v) || VoiceOf(cel, req, p) == v
    {
      if Speaks(cel, req, policies, v) {
        var q :| q in policies && VoiceOf(cel, req, q) == v;
        assert q in policies + [p];
      }
      assert p in policies + [p];
    }
  }

  lemma MatchedStep(cel: CelEval, req: Request, policies: seq<Policy>, p: Policy)
    ensures Matched(cel, req, policies + [p]) ==
      Matched(cel, req, policies) + if VoiceOf(cel, req, p).Silent? then [] else [p]
  {
    assert (policies + [p])[..|policies|] == policies;
  }

  lemma OneMoreMatch(matched: seq<Policy>, p: Policy)
    ensures MaxVersion(matched + [p]) == if p.version > MaxVersion(matched) then p.version else MaxVersion(matched)
    ensures Ids(matched + [p]) == Ids(matched) + [p.id]
  {
    assert (matched + [p])[..|matched|] == matched;
  }

  // ---------------------------------------------------------------- order does not matter

  function Max(a: int, b: int): int {
    if a > b then a else b
  }

  lemma {:induction false} MatchedConcat(cel: CelEval, req: Request, a: seq<Policy>, b: seq<Policy>)
    ensures Matched(cel, req, a + b) == Matched(cel, req, a) + Matched(cel, req, b)
  {
    if b == [] {
      assert a + b == a;
    } else {
      var n := |b| - 1;
      assert (a + b)[..|a + b| - 1] == a + b[..n];
      MatchedConcat(cel, req, a, b[..n]);
    }
  }

  lemma {:induction false} MaxVersionConcat(a: seq<Policy>, b: seq<Policy>)
    ensures MaxVersion(a + b) == Max(MaxVersion(a), MaxVersion(b))
    ensures MaxVersion(b) >= 0
  {
    if b == [] {
      assert a + b == a;
      MaxVersionNatural(a);
    } else {
      var n := |b| - 1;
      assert (a + b)[..|a + b| - 1] == a + b[..n];
      MaxVersionConcat(a, b[..n]);
    }
  }

  lemma {:induction false} MaxVersionNatural(a: seq<Policy>)
    ensures MaxVersion(a) >= 0
  {
    if a != [] { MaxVersionNatural(a[..|a| - 1]); }
  }

  lemma IdsConcat(a: seq<Policy>, b: seq<Policy>)
    ensures Ids(a + b) == Ids(a) + Ids(b)
  {
  }

  lemma SpeaksConcat(cel: CelEval, req: Request, a: seq<Policy>, b: seq<Policy>, v: Voice)
    ensures Speaks(cel, req, a + b, v) <==> Speaks(cel, req, a, v) || Speaks(cel, req, b, v)
  {
    if p :| p in a && VoiceOf(cel, req, p) == v { assert p in a + b; }
    if p :| p in b && VoiceOf(cel, req, p) == v { assert p in a + b; }
  }

  /** Evaluating a concatenation is combining the evaluations of the parts: the matches in order, the
      greater version, and an allow only where one part allows and neither denies explicitly. */
  lemma DecideConcat(cel: CelEval, req: Request, a: seq<Policy>, b: seq<Policy>)
    ensures var da, db, d := Decide(cel, req, a), Decide(cel, req, b), Decide(cel, req, a + b);
      && d.matched == da.matched + db.matched
      && d.maxVersion == Max(da.maxVersion, db.maxVersion)
      && (d.effect == Allow <==>
            && (da.effect == Allow || db.effect == Allow)
            && !Speaks(cel, req, a, Denies) && !Speaks(cel, req, b, Denies))
  {
    MatchedConcat(cel, req, a, b);
    IdsConcat(Matched(cel, req, a), Matched(cel, req, b));
    MaxVersionConcat(Matched(cel, req, a), Matched(cel, req, b));
    SpeaksConcat(cel, req, a, b, Allows);
    SpeaksConcat(cel, req, a, b, Denies);
  }

  /** The same effect and version, and the same matches up to order. */
  ghost predicate Agree(cel: CelEval, req: Request, a: seq<Policy>, b: seq<Policy>) {
    var da, db := Decide(cel, req, a), Decide(cel, req, b);
    && da.effect == db.effect && da.maxVersion == db.maxVersion && multiset(da.matched) == multiset(db.matched)
    && (Speaks(cel, req, a, Denies) <==> Speaks(cel, req, b, Denies))
  }

  /** Permuting the policies changes neither the effect nor the version, and permutes the matches. */
  lemma {:induction false} DecidePermuted(cel: CelEval, req: Request, a: seq<Policy>, b: seq<Policy>)
    requires multiset(a) == multiset(b)
    ensures Agree(cel, req, a, b)
  {
    if a == [] {
      assert |multiset(a)| == |multiset(b)|;
    } else {
      var n := |a| - 1;
      var left, right := SplitAt(b, a[n]);
      var rest := left + right;
      assert a == a[..n] + [a[n]];
      assert multiset(a[..n]) == multiset(a) - multiset{a[n]} == multiset(rest);
      DecidePermuted(cel, req, a[..n], rest);
      AgreeAppend(cel, req, a[..n], rest, a[n]);
      MoveToEnd(cel, req, left, a[n], right);
    }
  }

  lemma SplitAt(b: seq<Policy>, p: Policy) returns (left: seq<Policy>, right: seq<Policy>)
    requires p in multiset(b)
    ensures b == left + [p] + right
  {
    var j :| 0 <= j < |b| && b[j] == p;
    left, right := b[..j], b[j + 1..];
  }

  lemma AgreeAppend(cel: CelEval, req: Request, a: seq<Policy>, b: seq<Policy>, p: Policy)
    requires Agree(cel, req, a, b)
    ensures Agree(cel, req, a + [p], b + [p])
  {
    DecideConcat(cel, req, a, [p]);
    DecideConcat(cel, req, b, [p]);
    SpeaksConcat(cel, req, a, [p], Denies);
    SpeaksConcat(cel, req, b, [p], Denies);
  }

  lemma AgreePrepend(cel: CelEval, req: Request, left: seq<Policy>, a: seq<Policy>, b: seq<Policy>)
    requires Agree(cel, req, a, b)
    ensures Agree(cel, req, left + a, left + b)
  {
    DecideConcat(cel, req, left, a);
    DecideConcat(cel, req, left, b);
    SpeaksConcat(cel, req, left, a, Denies);
    SpeaksConcat(cel, req, left, b, Denies);
  }

  lemma AgreeSwapped(cel: CelEval, req: Request, a: seq<Policy>, b: seq<Policy>)
    ensures Agree(cel, req, a + b, b + a)
  {
    DecideConcat(cel, req, a, b);
    DecideConcat(cel, req, b, a);
    SpeaksConcat(cel, req, a, b, Denies);
    SpeaksConcat(cel, req, b, a, Denies);
  }

  lemma MoveToEnd(cel: CelEval, req: Request, left: seq<Policy>, p: Policy, right: seq<Policy>)
    ensures Agree(cel, req, left + right + [p], left + [p] + right)
  {
    AgreeSwapped(cel, req, right, [p]);
    AgreePrepend(cel, req, left, right + [p], [p] + right);
    assert left + (right + [p]) == left + right + [p] && left + ([p] + right) == left + [p] + right;
  }

  // ---------------------------------------------------------------- which policies apply

  datatype StoredPolicy = StoredPolicy(org: string, policy: Policy)

  datatype Assignment = Assignment(policyId: string, subject: string, isGroup: bool)

  /** The tables, policies in creation order. */
  datatype Db = Db(policies: seq<StoredPolicy>, assignments: seq<Assignment>)

  predicate Unassigned(db: Db, id: string) {
    forall a :: a in db.assignments ==> a.policyId != id
  }

  predicate AssignedTo(isUuid: string -> bool, req: Request, policyId: string, a: Assignment) {
    && a.policyId == policyId
    && if a.isGroup then isUuid(a.subject) && a.subject in req.groups else a.subject == req.subject
  }

  /** The WHERE clause: a policy of the organisation that is unassigned, or assigned to the subject
      or to one of its groups. Only UUIDs can be assigned to. */
  predicate Applies(isUuid: string -> bool, db: Db, req: Request, p: StoredPolicy) {
    && p.org == req.org
    && (|| Unassigned(db, p.policy.id)
        || (isUuid(req.subject) && exists a :: a in db.assignments && AssignedTo(isUuid, req, p.policy.id, a)))
  }

  function MatchingPolicies(isUuid: string -> bool, db: Db, req: Request, n: nat): seq<Policy>
    requires n <= |db.policies|
  {
    if n == 0 then
      []
    else
      var rest, p := MatchingPolicies(isUuid, db, req, n - 1), db.policies[n - 1];
      if Applies(isUuid, db, req, p) then rest + [p.policy] else rest
  }

  /** The decision the database gives a request. */
  function Decider(cel: CelEval, isUuid: string -> bool): (Db, Request) -> Decision {
    (db: Db, req: Request) => Decide(cel, req, MatchingPolicies(isUuid, db, req, |db.policies|))
  }
}
