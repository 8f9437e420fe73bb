/** Tenant role permissions: `normalize_permission_code`, `get_role_permissions`, `get_service_permissions`. */
module Rbac {
  import opened Prelude
  import opened Text
  import Scopes

  // ---------------------------------------------------------------- permission codes

  function LowerChar(c: char): char {
    if 'A' <= c <= 'Z' then (c as int - 'A' as int + 'a' as int) as char else c
  }

  /** `.lower().replace(":", ".")`, character by character. */
  function FoldChar(c: char): char {
    if c == ':' then '.' else LowerChar(c)
  }

  function FoldCode(s: string): (r: string)
    ensures |r| == |s| && forall i | 0 <= i < |s| :: r[i] == FoldChar(s[i])
  {
    if s == "" then "" else [FoldChar(s[0])] + FoldCode(s[1..])
  }

  function NormalizePermissionCode(code: string): string {
    FoldCode(Strip(code))
  }

  /** Codes written through the serializer are stored in a form that reading leaves alone. */
  lemma NormalizeIsIdempotent(code: string)
    ensures NormalizePermissionCode(NormalizePermissionCode(code)) == NormalizePermissionCode(code)
    ensures ':' !in NormalizePermissionCode(code)
  {
    StripTrims(code);
    FoldKeepsTrim(Strip(code));
    StripTrims(FoldCode(Strip(code)));
    FoldIsIdempotent(Strip(code));
  }

  /** Codes that differ only in case, in colons for dots, and in surrounding space are one code. */
  predicate SpelledAlike(c: char, d: char) {
    c == d || LowerCaseOf(c, d) || LowerCaseOf(d, c) || (c == ':' && d == '.') || (c == '.' && d == ':')
  }

  predicate LowerCaseOf(upper: char, lower: char) {
    'A' <= upper <= 'Z' && lower as int - 'a' as int == upper as int - 'A' as int
  }

  lemma SpellingDoesNotMatter(a: string, b: string)
    requires |Strip(a)| == |Strip(b)|
    ensures NormalizePermissionCode(a) == NormalizePermissionCode(b) <==>
            forall i | 0 <= i < |Strip(a)| :: SpelledAlike(Strip(a)[i], Strip(b)[i])
  {
    var x, y := Strip(a), Strip(b);
    forall i | 0 <= i < |x| ensures FoldChar(x[i]) == FoldChar(y[i]) <==> SpelledAlike(x[i], y[i]) {
    }
    if FoldCode(x) == FoldCode(y) {
      forall i | 0 <= i < |x| ensures FoldChar(x[i]) == FoldChar(y[i]) {
        assert FoldCode(x)[i] == FoldCode(y)[i];
      }
    } else {
      assert exists i :: 0 <= i < |x| && FoldCode(x)[i] != FoldCode(y)[i];
    }
  }

  lemma FoldKeepsTrim(s: string)
    requires Trimmed(s)
    ensures Trimmed(FoldCode(s))
  {
  }

  lemma FoldIsIdempotent(s: string)
    ensures FoldCode(FoldCode(s)) == FoldCode(s) && ':' !in FoldCode(s)
  {
  }

  // ---------------------------------------------------------------- role grants

  datatype Effect = Allow | Deny

  datatype Policy = Policy(code: string, isActive: bool, expiresAt: Option<int>)

  /** A grant of the role being asked about, with its policy. */
  datatype Grant = Grant(policy: Policy, effect: Effect)

  datatype Role = Owner | Admin | Member | Viewer

  function Baseline(role: Role): set<string> {
    match role
    case Owner => {
      "org.read", "org.update", "org.delete",
      "members.read", "members.invite", "members.update", "members.remove",
      "billing.manage", "service_credentials.manage", "audit.read", "policies.read", "policies.manage"
    }
    case Admin => {
      "org.read", "org.update", "members.read", "members.invite", "members.update",
      "service_credentials.manage", "audit.read", "policies.read"
    }
    case Member => {"org.read", "members.read"}
    case Viewer => {"org.read"}
  }

  /** The grant counts at `now`: its policy is active and its expiry lies strictly in the future. */
  predicate IsLive(g: Grant, now: int) {
    g.policy.isActive && (g.policy.expiresAt.Some? ==> now < g.policy.expiresAt.value)
  }

  function CodeOf(g: Grant): string {
    NormalizePermissionCode(g.policy.code)
  }

  /** The ordered fold: each live grant adds or discards its code. */
  function FoldGrants(base: set<string>, grants: seq<Grant>, now: int): set<string> {
    if grants == [] then base
    else
      var before := FoldGrants(base, grants[..|grants| - 1], now);
      var g := grants[|grants| - 1];
      if !IsLive(g, now) then before
      else if g.effect == Allow then before + {CodeOf(g)}
      else before - {CodeOf(g)}
  }

  ghost function LiveCodes(grants: seq<Grant>, effect: Effect, now: int): set<string> {
    set i | 0 <= i < |grants| && IsLive(grants[i], now) && grants[i].effect == effect :: CodeOf(grants[i])
  }

  /** Effect of the last live grant for `code`, or None. */
  function LastLive(grants: seq<Grant>, code: string, now: int): Option<Effect> {
    if grants == [] then None
    else
      var g := grants[|grants| - 1];
      if IsLive(g, now) && CodeOf(g) == code then Some(g.effect)
      else LastLive(grants[..|grants| - 1], code, now)
  }

  /** With no assumption on the rows: the last live grant for a code decides it, and the baseline does if there is
      none. */
  lemma {:induction false} LastGrantWins(base: set<string>, grants: seq<Grant>, now: int, code: string)
    ensures code in FoldGrants(base, grants, now) <==>
            (match LastLive(grants, code, now) case Some(e) => e == Allow case None => code in base)
  {
    if grants != [] {
      LastGrantWins(base, grants[..|grants| - 1], now, code);
    }
  }

  /** A grant of an active policy is live exactly before its expiry, or for good without one; one of an inactive policy
      never is. */
  lemma LiveExactlyBeforeExpiry(g: Grant, now: int)
    ensures !g.policy.isActive ==> !IsLive(g, now)
    ensures g.policy.isActive ==>
              (IsLive(g, now) <==> g.policy.expiresAt.None? || now < g.policy.expiresAt.value)
  {
  }

  /** An expired or inactive grant has no effect, wherever it stands. */
  lemma {:induction false} DeadGrantHasNoEffect(base: set<string>, front: seq<Grant>, g: Grant, back: seq<Grant>,
                                                now: int)
    requires !g.policy.isActive || (g.policy.expiresAt.Some? && g.policy.expiresAt.value <= now)
    ensures FoldGrants(base, front + [g] + back, now) == FoldGrants(base, front + back, now)
  {
    if back == [] {
      assert (front + [g] + back)[..|front|] == front && front + back == front;
      assert front + [g] + back == front + [g];
    } else {
      var n := |back| - 1;
      DeadGrantHasNoEffect(base, front, g, back[..n], now);
      assert (front + [g] + back)[..|front| + 1 + n] == front + [g] + back[..n];
      assert (front + back)[..|front| + n] == front + back[..n];
    }
  }

  /** Each role has everything the role below it has, and more; only the owner may delete the organisation, manage
      billing, remove members and manage policies. */
  lemma RolesAreNested()
    ensures Baseline(Viewer) < Baseline(Member) < Baseline(Admin) < Baseline(Owner)
    ensures Baseline(Owner) - Baseline(Admin) == {"org.delete", "members.remove", "billing.manage", "policies.manage"}
    ensures Baseline(Viewer) == {"org.read"} && Baseline(Member) - Baseline(Viewer) == {"members.read"}
  {
    assert "members.read" !in Baseline(Viewer);
    assert "org.update" in Baseline(Admin) && "org.update" !in Baseline(Member);
    assert "org.delete" in Baseline(Owner) && "org.delete" !in Baseline(Admin);
    assert "members.remove" in Baseline(Owner) && "members.remove" !in Baseline(Admin);
    assert "billing.manage" in Baseline(Owner) && "billing.manage" !in Baseline(Admin);
    assert "policies.manage" in Baseline(Owner) && "policies.manage" !in Baseline(Admin);
  }

  /** No two grants are about the same normalised code. */
  ghost predicate DistinctCodes(grants: seq<Grant>) {
    forall i, j | 0 <= i < j < |grants| :: CodeOf(grants[i]) != CodeOf(grants[j])
  }

  /** The write path guarantees it: codes are stored normalised, an organisation has one policy per code, and a role has
      one grant per policy. */
  lemma WritePathKeepsCodesDistinct(grants: seq<Grant>)
    requires forall i | 0 <= i < |grants| :: exists x :: grants[i].policy.code == NormalizePermissionCode(x)
    requires forall i, j | 0 <= i < |grants| && 0 <= j < |grants| ::
               grants[i].policy.code == grants[j].policy.code ==> grants[i].policy == grants[j].policy
    requires forall i, j | 0 <= i < j < |grants| :: grants[i].policy != grants[j].policy
    ensures DistinctCodes(grants)
  {
    forall i | 0 <= i < |grants| ensures CodeOf(grants[i]) == grants[i].policy.code {
      var x :| grants[i].policy.code == NormalizePermissionCode(x);
      NormalizeIsIdempotent(x);
    }
  }

  lemma {:induction false} LastLiveIsTheOnlyOne(grants: seq<Grant>, code: string, now: int)
    requires DistinctCodes(grants)
    ensures forall e :: LastLive(grants, code, now) == Some(e) <==> code in LiveCodes(grants, e, now)
  {
    if grants != [] {
      var rest := grants[..|grants| - 1];
      var g := grants[|grants| - 1];
      LastLiveIsTheOnlyOne(rest, code, now);
      forall e ensures code in LiveCodes(grants, e, now) <==>
                         code in LiveCodes(rest, e, now) || (IsLive(g, now) && g.effect == e && CodeOf(g) == code)
      {
        if code in LiveCodes(grants, e, now) {
          var i :| 0 <= i < |grants| && IsLive(grants[i], now) && grants[i].effect == e && CodeOf(grants[i]) == code;
          assert i < |rest| ==> rest[i] == grants[i];
        }
        if code in LiveCodes(rest, e, now) {
          var i :| 0 <= i < |rest| && IsLive(rest[i], now) && rest[i].effect == e && CodeOf(rest[i]) == code;
          assert grants[i] == rest[i];
        }
      }
      if IsLive(g, now) && CodeOf(g) == code {
        forall e ensures code !in LiveCodes(rest, e, now) {
          forall i | 0 <= i < |rest| ensures CodeOf(rest[i]) != code {
            assert rest[i] == grants[i];
          }
        }
      }
    }
  }

  /** The fold is (baseline + live allows) - live denies. */
  lemma FoldIsSetExpression(base: set<string>, grants: seq<Grant>, now: int)
    requires DistinctCodes(grants)
    ensures FoldGrants(base, grants, now) == (base + LiveCodes(grants, Allow, now)) - LiveCodes(grants, Deny, now)
  {
    forall code ensures code in FoldGrants(base, grants, now) <==>
                          code in (base + LiveCodes(grants, Allow, now)) - LiveCodes(grants, Deny, now)
    {
      LastGrantWins(base, grants, now, code);
      LastLiveIsTheOnlyOne(grants, code, now);
      assert LastLive(grants, code, now) == Some(Allow) <==> code in LiveCodes(grants, Allow, now);
      assert LastLive(grants, code, now) == Some(Deny) <==> code in LiveCodes(grants, Deny, now);
    }
  }

  /** So the order in which the query returns the rows does not matter. */
  lemma GrantOrderIrrelevant(base: set<string>, a: seq<Grant>, b: seq<Grant>, now: int)
    requires DistinctCodes(a) && DistinctCodes(b)
    requires multiset(a) == multiset(b)
    ensures FoldGrants(base, a, now) == FoldGrants(base, b, now)
  {
    FoldIsSetExpression(base, a, now);
    FoldIsSetExpression(base, b, now);
    LiveCodesOfPermutation(a, b, now);
    LiveCodesOfPermutation(b, a, now);
  }

  lemma LiveCodesOfPermutation(a: seq<Grant>, b: seq<Grant>, now: int)
    requires multiset(a) == multiset(b)
    ensures forall e :: LiveCodes(a, e, now) <= LiveCodes(b, e, now)
  {
    forall e, code | code in LiveCodes(a, e, now) ensures code in LiveCodes(b, e, now) {
      var i :| 0 <= i < |a| && IsLive(a[i], now) && a[i].effect == e && CodeOf(a[i]) == code;
      assert a[i] in multiset(b);
      var j :| 0 <= j < |b| && b[j] == a[i];
    }
  }

  /** Without distinct codes the order does matter: "x" and "X" are two stored codes and one normalised code. */
  lemma OrderMattersForUnnormalisedCodes() returns (allow: Grant, deny: Grant)
    ensures allow.policy.code != deny.policy.code
    ensures "x" in FoldGrants({}, [deny, allow], 0)
    ensures "x" !in FoldGrants({}, [allow, deny], 0)
  {
    allow := Grant(Policy("x", true, None), Allow);
    deny := Grant(Policy("X", true, None), Deny);
    StripTrims("x");
    StripTrims("X");
    assert FoldCode("x") == "x" && FoldCode("X") == "x";
    LastGrantWins({}, [deny, allow], 0, "x");
    LastGrantWins({}, [allow, deny], 0, "x");
  }

  /** `get_role_permissions` over the grants of the organisation and role, in whatever order the query returns them. */
  method GetRolePermissions(role: Role, grants: seq<Grant>, now: int) returns (permissions: set<string>)
    ensures permissions == FoldGrants(Baseline(role), grants, now)
    ensures DistinctCodes(grants) ==>
              permissions == (Baseline(role) + LiveCodes(grants, Allow, now)) - LiveCodes(grants, Deny, now)
  {
    permissions := Baseline(role);
    for i := 0 to |grants|
      invariant permissions == FoldGrants(Baseline(role), grants[..i], now)
    {
      assert grants[..i + 1][..i] == grants[..i];
      var policy := grants[i].policy;
      // the query's filter on active policies
      if !policy.isActive {
        continue;
      }
      if policy.expiresAt.Some? && policy.expiresAt.value <= now {
        continue;
      }
      var code := NormalizePermissionCode(policy.code);
      match grants[i].effect
      case Allow => permissions := permissions + {code};
      case Deny => permissions := permissions - {code};
    }
    assert grants[..|grants|] == grants;
    if DistinctCodes(grants) {
      FoldIsSetExpression(Baseline(role), grants, now);
    }
  }

  // ---------------------------------------------------------------- service credentials

  function ScopePermissions(scope: string): set<string> {
    match scope
    case "org:read" => {"org.read"}
    case "org:write" => {"org.update"}
    case "members:read" => {"members.read"}
    case "members:write" => {"members.invite", "members.update", "members.remove"}
    case "users:read" => {"members.read"}
    case "audit:read" => {"audit.read"}
    case "policies:read" => {"policies.read"}
    case "policies:write" => {"policies.manage"}
    case _ => {}
  }

  /** The scopes that can be stored on a tenant credential are exactly those that grant something. */
  lemma TenantScopesAreTheGrantingOnes(scope: string)
    ensures ScopePermissions(scope) != {} <==> scope in Scopes.TENANT_SERVICE_SCOPES
  {
    if ScopePermissions(scope) != {} {
      var p :| p in ScopePermissions(scope);
    }
    assert "org.read" in ScopePermissions("org:read") && "org.update" in ScopePermissions("org:write");
    assert "members.read" in ScopePermissions("members:read") && "members.invite" in ScopePermissions("members:write");
    assert "members.read" in ScopePermissions("users:read") && "audit.read" in ScopePermissions("audit:read");
    assert "policies.read" in ScopePermissions("policies:read");
    assert "policies.manage" in ScopePermissions("policies:write");
  }

  /** Every scope of a stored tenant credential grants something. */
  lemma StoredScopesGrant(requested: string, scope: string)
    requires Scopes.ValidateTenantServiceScopes(requested).Ok?
    requires scope in Scopes.ParseScopes(Scopes.ValidateTenantServiceScopes(requested).value)
    ensures scope in Scopes.ParseScopes(requested) && ScopePermissions(scope) != {}
  {
    Scopes.ValidationDecides(requested, Scopes.TENANT_SERVICE_SCOPES);
    TenantScopesAreTheGrantingOnes(scope);
  }

  ghost predicate ServiceHas(scopes: set<string>, permission: string) {
    exists scope :: scope in scopes && permission in ScopePermissions(scope)
  }

  /** `get_service_permissions`, in whatever order the set is visited. */
  method GetServicePermissions(storedScopes: string) returns (permissions: set<string>)
    ensures forall p :: p in permissions <==> ServiceHas(Scopes.ParseScopes(storedScopes), p)
  {
    permissions := {};
    var scopes := Scopes.ParseScopes(storedScopes);
    var rest := scopes;
    while rest != {}
      invariant rest <= scopes
      invariant forall p :: p in permissions <==> ServiceHas(scopes - rest, p)
      decreases |rest|
    {
      var scope :| scope in rest;
      forall p ensures ServiceHas(scopes - (rest - {scope}), p) <==>
                         ServiceHas(scopes - rest, p) || p in ScopePermissions(scope)
      {
        assert scopes - (rest - {scope}) == (scopes - rest) + {scope};
        if p in ScopePermissions(scope) {
          assert scope in scopes - (rest - {scope});
        }
        if ServiceHas(scopes - rest, p) {
          var s :| s in scopes - rest && p in ScopePermissions(s);
          assert s in scopes - (rest - {scope});
        }
      }
      permissions := permissions + ScopePermissions(scope);
      rest := rest - {scope};
    }
    assert scopes - rest == scopes;
  }
}
