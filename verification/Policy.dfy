/**
 The access-control engine: delegated roles and explicit rules under an owner.

 `Permits` is the deny-overrides formula; the engine evaluates it with ordered
 loops over its rules, its map of delegations and each owner's list of them.
 */
module Policy {
  import opened Base
  import opened Bytes
  import opened Envelope

  datatype Action = Read | Write | Delete | Audit | Grant | Admin

  datatype Role = Owner | Reader | Auditor | Writer | Administrator

  /** The actions a role grants on a tier, in the order the engine lists them. */
  function PermittedActions(role: Role, tier: DataTier): seq<Action> {
    match role
    case Owner => [Read, Write, Delete, Audit, Grant, Admin]
    case Reader => if tier == Critical then [] else [Read]
    case Auditor => [Audit]
    case Writer => if tier == Critical then [] else [Read, Write]
    case Administrator => [Read, Write, Delete, Audit]
  }

  datatype Delegation = Delegation(subject: Text, role: Role, expiresAt: u64, grantedBy: Text)

  /** Zero means the delegation never expires. */
  predicate IsExpired(d: Delegation, now: u64) {
    d.expiresAt != 0 && now > d.expiresAt
  }

  datatype RuleEffect = Allow | Deny

  datatype PolicyRule = PolicyRule(subject: Text, resource: Text, action: Action, effect: RuleEffect)

  /** "*" */
  function Star(): Text {
    [42]
  }

  datatype Request = Request(subject: Text, ownerId: Text, resource: Text, action: Action, tier: DataTier)

  predicate Matches(rule: PolicyRule, q: Request) {
    var subjectMatch := rule.subject == Star() || rule.subject == q.subject;
    var resourceMatch := rule.resource == Star() || rule.resource <= q.resource || rule.resource == q.resource;
    subjectMatch && resourceMatch && rule.action == q.action
  }

  datatype Reason =
    | OwnerBypass
    | CriticalRequiresOwner
    | ExplicitDeny(rule: PolicyRule)
    | RoleGrant(role: Role, grantedBy: Text)
    | AllowRule(rule: PolicyRule)
    | DefaultDeny

  datatype AccessDecision = Permitted(reason: Reason) | Denied(reason: Reason) | NotApplicable

  datatype Precheck = PermitOwner | DenyCritical | Continue

  function PolicyPrecheck(isOwner: bool, tier: DataTier): Precheck {
    if isOwner then PermitOwner else if tier == Critical then DenyCritical else Continue
  }

  // ---- The formula -------------------------------------------------------

  datatype Policies = Policies(delegations: map<Text, seq<Delegation>>, rules: seq<PolicyRule>)

  predicate Denies(rules: seq<PolicyRule>, q: Request) {
    exists rule | rule in rules :: rule.effect == Deny && Matches(rule, q)
  }

  predicate Allows(rules: seq<PolicyRule>, q: Request) {
    exists rule | rule in rules :: rule.effect == Allow && Matches(rule, q)
  }

  /** A live delegation to the subject whose role grants the action on the tier. */
  predicate Gives(d: Delegation, q: Request, now: u64) {
    d.subject == q.subject && !IsExpired(d, now) && q.action in PermittedActions(d.role, q.tier)
  }

  predicate Delegated(p: Policies, q: Request, now: u64) {
    q.ownerId in p.delegations && exists d | d in p.delegations[q.ownerId] :: Gives(d, q, now)
  }

  predicate Permits(p: Policies, q: Request, now: u64) {
    q.subject == q.ownerId
    || (q.tier != Critical && !Denies(p.rules, q) && (Delegated(p, q, now) || Allows(p.rules, q)))
  }

  /** The first rule of an effect that matches. */
  ghost predicate IsFirstRule(rules: seq<PolicyRule>, q: Request, effect: RuleEffect, rule: PolicyRule) {
    exists i | 0 <= i < |rules| ::
      rules[i] == rule && RuleApplies(rule, q, effect) && forall j | 0 <= j < i :: !RuleApplies(rules[j], q, effect)
  }

  predicate RuleApplies(rule: PolicyRule, q: Request, effect: RuleEffect) {
    rule.effect == effect && Covers(rule, q)
  }

  /** The first delegation of a list that gives what is asked. */
  ghost predicate IsFirstGiving(given: seq<Delegation>, q: Request, now: u64, d: Delegation) {
    exists i | 0 <= i < |given| ::
      given[i] == d && Gives(d, q, now) && forall j | 0 <= j < i :: !Gives(given[j], q, now)
  }

  /** The reason given is a true one: the first of the strongest kind that applies. */
  ghost predicate Justified(p: Policies, q: Request, now: u64, decision: AccessDecision) {
    match decision
    case Permitted(OwnerBypass) => q.subject == q.ownerId
    case Permitted(RoleGrant(role, grantedBy)) =>
      Permits(p, q, now) && q.subject != q.ownerId && q.ownerId in p.delegations
      && exists d :: IsFirstGiving(p.delegations[q.ownerId], q, now, d) && d.role == role && d.grantedBy == grantedBy
    case Permitted(AllowRule(rule)) =>
      Permits(p, q, now) && q.subject != q.ownerId && !Delegated(p, q, now) && IsFirstRule(p.rules, q, Allow, rule)
    case Denied(CriticalRequiresOwner) => q.subject != q.ownerId && q.tier == Critical
    case Denied(ExplicitDeny(rule)) => q.subject != q.ownerId && q.tier != Critical
      && IsFirstRule(p.rules, q, Deny, rule)
    case Denied(DefaultDeny) => !Permits(p, q, now) && q.tier != Critical && !Denies(p.rules, q)
    case _ => false
  }

  function WithDelegation(p: Policies, ownerId: Text, d: Delegation): Policies {
    var given := if ownerId in p.delegations then p.delegations[ownerId] else [];
    p.(delegations := p.delegations[ownerId := given + [d]])
  }

  function WithRule(p: Policies, rule: PolicyRule): Policies {
    p.(rules := p.rules + [rule])
  }

  class PolicyEngine {
    var delegations: map<Text, seq<Delegation>>
    var rules: seq<PolicyRule>

    constructor ()
      ensures State() == Policies(map[], [])
    {
      delegations, rules := map[], [];
    }

    ghost function State(): Policies
      reads this
    {
      Policies(delegations, rules)
    }

    method Delegate(ownerId: Text, delegation: Delegation)
      modifies this
      ensures State() == WithDelegation(old(State()), ownerId, delegation)
    {
      var given := [];
      if ownerId in delegations {
        given := delegations[ownerId];
      }
      delegations := delegations[ownerId := given + [delegation]];
    }

    method AddRule(rule: PolicyRule)
      modifies this
      ensures State() == WithRule(old(State()), rule)
    {
      rules := rules + [rule];
    }

    /** The first rule, if any, that matches with the effect. */
    method FirstRule(q: Request, effect: RuleEffect) returns (found: Option<PolicyRule>)
      ensures found.None? <==> forall rule | rule in rules :: !RuleApplies(rule, q, effect)
      ensures found.Some? ==> IsFirstRule(rules, q, effect, found.value)
    {
      for i := 0 to |rules|
        invariant forall j | 0 <= j < i :: !RuleApplies(rules[j], q, effect)
      {
        MatchesExactly(rules[i], q);
        if Matches(rules[i], q) && rules[i].effect == effect {
          assert RuleApplies(rules[i], q, effect) && rules[i] in rules;
          return Some(rules[i]);
        }
      }
      return None;
    }

    /** Walk the map of delegations in any order; only the owner's list counts. */
    method FindDelegation(q: Request, now: u64) returns (found: Option<Delegation>)
      ensures found.None? <==> !Delegated(State(), q, now)
      ensures found.Some? ==> q.ownerId in delegations && IsFirstGiving(delegations[q.ownerId], q, now, found.value)
    {
      hide IsExpired, PermittedActions;
      var owners := delegations.Keys;
      while owners != {}
        invariant owners <= delegations.Keys
        invariant q.ownerId in delegations && q.ownerId !in owners ==> !Delegated(State(), q, now)
      {
        var delOwner :| delOwner in owners;
        owners := owners - {delOwner};
        if delOwner != q.ownerId {
          continue;
        }
        var given := delegations[delOwner];
        for i := 0 to |given|
          invariant forall j | 0 <= j < i :: !Gives(given[j], q, now)
        {
          var del := given[i];
          if del.subject != q.subject {
            continue;
          }
          if IsExpired(del, now) {
            continue;
          }
          if q.action in PermittedActions(del.role, q.tier) {
            assert Gives(del, q, now) && del in delegations[q.ownerId];
            return Some(del);
          }
        }
      }
      return None;
    }

    /** The engine permits exactly what the formula permits, for a true reason. */
    method Evaluate(q: Request, now: u64) returns (decision: AccessDecision)
      ensures decision.Permitted? <==> Permits(State(), q, now)
      ensures decision.Denied? <==> !Permits(State(), q, now)
      ensures Justified(State(), q, now, decision)
    {
      hide Gives, Matches, Covers;
      DeniedExactly(State(), q);
      AllowedExactly(State(), q);
      match PolicyPrecheck(q.subject == q.ownerId, q.tier)
      case PermitOwner => return Permitted(OwnerBypass);
      case DenyCritical => return Denied(CriticalRequiresOwner);
      case Continue =>
      var deny := FirstRule(q, Deny);
      if deny.Some? {
        return Denied(ExplicitDeny(deny.value));
      }
      var del := FindDelegation(q, now);
      if del.Some? {
        return Permitted(RoleGrant(del.value.role, del.value.grantedBy));
      }
      var allow := FirstRule(q, Allow);
      if allow.Some? {
        return Permitted(AllowRule(allow.value));
      }
      return Denied(DefaultDeny);
    }
  }

  // ---- The formula, field by field ---------------------------------------

  /** A rule reaches a request by its subject, a prefix of the resource, and its action; "*" is 42. */
  predicate Covers(rule: PolicyRule, q: Request) {
    (rule.subject == [42] || rule.subject == q.subject) && (rule.resource == [42] || rule.resource <= q.resource)
    && rule.action == q.action
  }

  lemma MatchesExactly(rule: PolicyRule, q: Request)
    ensures Matches(rule, q) <==> Covers(rule, q)
  {
  }

  /** What a role allows on a tier. */
  predicate RoleAllows(role: Role, action: Action, tier: DataTier) {
    match role
    case Owner => true
    case Reader => action == Read && tier in {Personal, Noise}
    case Auditor => action == Audit
    case Writer => action in {Read, Write} && tier in {Personal, Noise}
    case Administrator => action in {Read, Write, Delete, Audit}
  }

  lemma RolesExactly(role: Role, action: Action, tier: DataTier)
    ensures action in PermittedActions(role, tier) <==> RoleAllows(role, action, tier)
  {
  }

  /** A delegation gives its subject what its role allows, until it expires; zero is never. */
  predicate Lends(d: Delegation, q: Request, now: u64) {
    d.subject == q.subject && (d.expiresAt == 0 || now <= d.expiresAt) && RoleAllows(d.role, q.action, q.tier)
  }

  lemma GivesExactly(d: Delegation, q: Request, now: u64)
    ensures Gives(d, q, now) <==> Lends(d, q, now)
  {
    hide PermittedActions, RoleAllows;
    RolesExactly(d.role, q.action, q.tier);
  }

  /** The owner may; below Critical so may whoever no deny rule covers and a delegation or an allow rule lets. */
  lemma PermitsExactly(p: Policies, q: Request, now: u64)
    ensures Permits(p, q, now) <==>
      q.subject == q.ownerId
      || (q.tier != Critical
          && !(exists rule | rule in p.rules :: rule.effect == Deny && Covers(rule, q))
          && ((q.ownerId in p.delegations && exists d | d in p.delegations[q.ownerId] :: Lends(d, q, now))
              || exists rule | rule in p.rules :: rule.effect == Allow && Covers(rule, q)))
  {
    hide Matches, Covers, Gives, Lends;
    forall rule: PolicyRule
      ensures Matches(rule, q) <==> Covers(rule, q)
    {
      MatchesExactly(rule, q);
    }
    forall d: Delegation
      ensures Gives(d, q, now) <==> Lends(d, q, now)
    {
      GivesExactly(d, q, now);
    }
  }

  // ---- What the formula guarantees ---------------------------------------

  /** The owner always may; nobody else ever may on Critical data, whatever is configured. */
  lemma TierCeiling(p: Policies, q: Request, now: u64)
    ensures q.subject == q.ownerId ==> Permits(p, q, now)
    ensures q.tier == Critical ==> (Permits(p, q, now) <==> q.subject == q.ownerId)
  {
  }

  ghost predicate SameDelegations(a: map<Text, seq<Delegation>>, b: map<Text, seq<Delegation>>) {
    a.Keys == b.Keys && forall k | k in a :: multiset(a[k]) == multiset(b[k])
  }

  lemma SameMembers<T>(a: seq<T>, b: seq<T>)
    requires multiset(a) == multiset(b)
    ensures forall x :: x in a <==> x in b
  {
    forall x
      ensures x in a <==> x in b
    {
      assert x in a <==> x in multiset(a);
      assert x in b <==> x in multiset(b);
    }
  }

  /** The order of rules and of delegations does not matter. */
  lemma OrderIrrelevant(p: Policies, r: Policies, q: Request, now: u64)
    requires multiset(p.rules) == multiset(r.rules) && SameDelegations(p.delegations, r.delegations)
    ensures Permits(p, q, now) <==> Permits(r, q, now)
  {
    hide Matches, Gives;
    SameMembers(p.rules, r.rules);
    if q.ownerId in p.delegations {
      SameMembers(p.delegations[q.ownerId], r.delegations[q.ownerId]);
    }
  }

  /** A new deny rule revokes exactly the requests it covers, the owner's excepted. */
  lemma DenyRevokes(p: Policies, rule: PolicyRule, q: Request, now: u64)
    requires rule.effect == Deny
    ensures Permits(WithRule(p, rule), q, now) <==> Permits(p, q, now) && (q.subject == q.ownerId || !Covers(rule, q))
  {
    hide Matches, Covers, Gives;
    MatchesExactly(rule, q);
    RuleAdded(p.rules, rule, q);
  }

  lemma RuleAdded(rules: seq<PolicyRule>, rule: PolicyRule, q: Request)
    ensures Denies(rules + [rule], q) <==> Denies(rules, q) || (rule.effect == Deny && Matches(rule, q))
    ensures Allows(rules + [rule], q) <==> Allows(rules, q) || (rule.effect == Allow && Matches(rule, q))
  {
    hide Matches;
    assert forall x :: x in rules + [rule] <==> x in rules || x == rule;
  }

  /** A new allow rule grants exactly the requests it covers that no deny rule covers, below Critical. */
  lemma AllowGrants(p: Policies, rule: PolicyRule, q: Request, now: u64)
    requires rule.effect == Allow
    ensures Permits(WithRule(p, rule), q, now)
       <==> Permits(p, q, now) || (q.tier != Critical && !DenyCovers(p, q) && Covers(rule, q))
  {
    hide Matches, Covers, Gives;
    MatchesExactly(rule, q);
    DeniedExactly(p, q);
    RuleAdded(p.rules, rule, q);
  }

  /** Some deny rule covers the request. */
  predicate DenyCovers(p: Policies, q: Request) {
    exists rule | rule in p.rules :: rule.effect == Deny && Covers(rule, q)
  }

  lemma DeniedExactly(p: Policies, q: Request)
    ensures Denies(p.rules, q) <==> DenyCovers(p, q)
  {
    hide Matches, Covers;
    forall rule: PolicyRule
      ensures Matches(rule, q) <==> Covers(rule, q)
    {
      MatchesExactly(rule, q);
    }
  }

  lemma AllowedExactly(p: Policies, q: Request)
    ensures Allows(p.rules, q) <==> exists rule | rule in p.rules :: RuleApplies(rule, q, Allow)
  {
    hide Matches, Covers;
    forall rule: PolicyRule
      ensures Matches(rule, q) <==> Covers(rule, q)
    {
      MatchesExactly(rule, q);
    }
  }

  /**
   A rule for another subject, for resources that do not begin as the one asked for
   does, or for another action changes nothing, whatever its effect.
   */
  lemma RuleElsewhere(p: Policies, rule: PolicyRule, q: Request, now: u64)
    requires (rule.subject != q.subject && rule.subject != [42])
          || (!(rule.resource <= q.resource) && rule.resource != [42])
          || rule.action != q.action
    ensures Permits(WithRule(p, rule), q, now) <==> Permits(p, q, now)
  {
    hide Matches, Gives, Permits, WithRule;
    if rule.effect == Deny {
      DenyRevokes(p, rule, q, now);
    } else {
      AllowGrants(p, rule, q, now);
    }
  }

  lemma DelegationAdded(p: Policies, ownerId: Text, d: Delegation, q: Request, now: u64)
    ensures Delegated(WithDelegation(p, ownerId, d), q, now)
      <==> Delegated(p, q, now) || (ownerId == q.ownerId && Gives(d, q, now))
  {
    hide Gives;
    var given := if ownerId in p.delegations then p.delegations[ownerId] else [];
    assert forall x :: x in given + [d] <==> x in given || x == d;
    if ownerId == q.ownerId {
      assert WithDelegation(p, ownerId, d).delegations[q.ownerId] == given + [d];
    }
  }

  /** The delegation gives its subject what is asked, and nothing stands above it. */
  predicate DelegationApplies(p: Policies, ownerId: Text, d: Delegation, q: Request, now: u64) {
    q.tier != Critical && !DenyCovers(p, q) && ownerId == q.ownerId && Lends(d, q, now)
  }

  /** A new delegation never revokes, and grants only what its role gives its subject on its owner's data. */
  lemma DelegationGrants(p: Policies, ownerId: Text, d: Delegation, q: Request, now: u64)
    ensures Permits(WithDelegation(p, ownerId, d), q, now)
      <==> Permits(p, q, now) || DelegationApplies(p, ownerId, d, q, now)
  {
    hide Matches, Covers, Gives, Lends, WithDelegation;
    DeniedExactly(p, q);
    GivesExactly(d, q, now);
    DelegationAdded(p, ownerId, d, q, now);
    assert WithDelegation(p, ownerId, d).rules == p.rules by { RulesKept(p, ownerId, d); }
  }

  lemma RulesKept(p: Policies, ownerId: Text, d: Delegation)
    ensures WithDelegation(p, ownerId, d).rules == p.rules
  {
  }

  /** Time only takes away. */
  lemma TimeRevokes(p: Policies, q: Request, now: u64, later: u64)
    requires now <= later && Permits(p, q, later)
    ensures Permits(p, q, now)
  {
    hide Matches, PermittedActions;
    if Delegated(p, q, later) {
      var d :| d in p.delegations[q.ownerId] && Gives(d, q, later);
      assert Gives(d, q, now);
    }
  }

  /** Roles are ordered: what a reader may do a writer may, an administrator and an owner. */
  lemma RolesNest(tier: DataTier, action: Action)
    ensures action in PermittedActions(Reader, tier) ==> action in PermittedActions(Writer, tier)
    ensures action in PermittedActions(Writer, tier) ==> action in PermittedActions(Administrator, tier)
    ensures action in PermittedActions(Auditor, tier) ==> action in PermittedActions(Administrator, tier)
    ensures action in PermittedActions(Administrator, tier)
      <==> action in PermittedActions(Owner, tier) && action != Grant && action != Admin
  {
  }

  /** The same delegations in the same places, whoever granted them. */
  ghost predicate SameButGrantors(p: Policies, r: Policies) {
    && p.rules == r.rules && p.delegations.Keys == r.delegations.Keys
    && forall owner | owner in p.delegations ::
      && |p.delegations[owner]| == |r.delegations[owner]|
      && forall i | 0 <= i < |p.delegations[owner]| :: SameGift(p.delegations[owner][i], r.delegations[owner][i])
  }

  predicate SameGift(d: Delegation, e: Delegation) {
    d.subject == e.subject && d.role == e.role && d.expiresAt == e.expiresAt
  }

  /** Who granted a delegation is never asked. */
  lemma GrantorUnchecked(p: Policies, r: Policies, q: Request, now: u64)
    requires SameButGrantors(p, r)
    ensures Permits(p, q, now) <==> Permits(r, q, now)
  {
    hide PermittedActions, Matches;
    if q.ownerId in p.delegations {
      var given, other := p.delegations[q.ownerId], r.delegations[q.ownerId];
      forall i | 0 <= i < |given|
        ensures Gives(given[i], q, now) <==> Gives(other[i], q, now)
      {
        assert SameGift(given[i], other[i]);
      }
      if d :| d in given && Gives(d, q, now) {
        var i :| 0 <= i < |given| && given[i] == d;
        assert other[i] in other;
      }
      if d :| d in other && Gives(d, q, now) {
        var i :| 0 <= i < |other| && other[i] == d;
        assert given[i] in given;
      }
    }
  }
}
