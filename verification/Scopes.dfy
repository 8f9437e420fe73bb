/** Scope strings: `parse_scopes`, `validate_service_scopes` and `validate_tenant_service_scopes`. */
module Scopes {
  import opened Prelude
  import opened Text

  const ALLOWED_SERVICE_SCOPES: set<string> := {
    "users:read", "users:write", "tokens:introspect", "tokens:revoke", "audit:read", "oauth:clients:read"
  }

  const TENANT_SERVICE_SCOPES: set<string> := {
    "org:read", "org:write", "members:read", "members:write",
    "users:read", "audit:read", "policies:read", "policies:write"
  }

  function ParseScopes(scopeString: string): set<string> {
    Elements(Split(scopeString))
  }

  /** `" ".join(sorted(requested))`, the stored form. */
  function Canonical(scopeString: string): string {
    Join(SortedDistinct(Split(scopeString)))
  }

  /** Both validators, which differ only in `allowed`; the error carries the unknown scopes. */
  function ValidateScopes(scopeString: string, allowed: set<string>): Result<string, set<string>> {
    var unknown := ParseScopes(scopeString) - allowed;
    if unknown != {} then Raised(unknown) else Ok(Canonical(scopeString))
  }

  lemma CanonicalTokens(s: string)
    ensures Split(Canonical(s)) == SortedDistinct(Split(s))
  {
    SplitGivesWords(s);
    SortedDistinctSorts(Split(s));
    forall t | t in SortedDistinct(Split(s)) ensures IsWord(t) {
      assert t in Elements(SortedDistinct(Split(s)));
    }
    SplitJoin(SortedDistinct(Split(s)));
  }

  /** Parsing the stored form gives the set of tokens of the input, and storing it again changes nothing. */
  lemma ScopesRoundTrip(s: string)
    ensures ParseScopes(Canonical(s)) == ParseScopes(s)
    ensures Canonical(Canonical(s)) == Canonical(s)
  {
    CanonicalTokens(s);
    var ts := SortedDistinct(Split(s));
    SortedDistinctSorts(Split(s));
    SortedDistinctSorts(ts);
    AscendingIsUnique(SortedDistinct(ts), ts);
  }

  /** The tokens of the stored form ascend: of two of them the first is smaller at the first character where they
      differ, or is a proper prefix of the second. */
  lemma StoredTokensAscend(s: string, i: nat, j: nat)
    requires i < j < |Split(Canonical(s))|
    ensures exists k: nat :: DiffersFirstAt(Split(Canonical(s))[i], Split(Canonical(s))[j], k)
  {
    CanonicalTokens(s);
    SortedDistinctSorts(Split(s));
    BelowAtFirstDifference(Split(Canonical(s))[i], Split(Canonical(s))[j]);
  }

  /** Any white-space character separates tokens. */
  lemma {:induction false} TokensSplitAtSpace(a: string, c: char, b: string)
    requires IsSpace(c)
    ensures Split(a + [c] + b) == Split(a) + Split(b)
    decreases |a|
  {
    var all := a + [c] + b;
    if a == "" {
      assert all[1..] == b;
    } else if IsSpace(a[0]) {
      assert all[1..] == a[1..] + [c] + b;
      TokensSplitAtSpace(a[1..], c, b);
    } else {
      var n := WordLength(a);
      WordEndsAtBreak(all, n);
      assert all[..n] == a[..n] && all[n..] == a[n..] + [c] + b;
      TokensSplitAtSpace(a[n..], c, b);
    }
  }

  lemma {:induction false} WordEndsAtBreak(s: string, n: nat)
    requires n < |s| && IsSpace(s[n]) && forall i | 0 <= i < n :: !IsSpace(s[i])
    ensures WordLength(s) == n
  {
    if n > 0 {
      WordEndsAtBreak(s[1..], n - 1);
    }
  }

  /** Two inputs have one stored form exactly when they name the same scopes. */
  lemma CanonicalIffSameScopes(a: string, b: string)
    ensures Canonical(a) == Canonical(b) <==> ParseScopes(a) == ParseScopes(b)
  {
    CanonicalTokens(a);
    CanonicalTokens(b);
    SortedDistinctSorts(Split(a));
    SortedDistinctSorts(Split(b));
    if ParseScopes(a) == ParseScopes(b) {
      AscendingIsUnique(SortedDistinct(Split(a)), SortedDistinct(Split(b)));
    }
  }

  /** The printer inverts the parser on every list of words already in stored order. */
  lemma PrintedScopesAreCanonical(words: seq<string>)
    requires AllWords(words) && Ascending(words)
    ensures Canonical(Join(words)) == Join(words)
    ensures ParseScopes(Join(words)) == Elements(words)
  {
    SplitJoin(words);
    SortedDistinctSorts(words);
    AscendingIsUnique(SortedDistinct(words), words);
  }

  /** `validate_service_scopes`. */
  function ValidateServiceScopes(scopeString: string): Result<string, set<string>> {
    ValidateScopes(scopeString, ALLOWED_SERVICE_SCOPES)
  }

  /** `validate_tenant_service_scopes`. */
  function ValidateTenantServiceScopes(scopeString: string): Result<string, set<string>> {
    ValidateScopes(scopeString, TENANT_SERVICE_SCOPES)
  }

  /** Validation fails exactly when some token is not allowed, and a validated string validates to itself. */
  lemma ValidationDecides(s: string, allowed: set<string>)
    ensures ValidateScopes(s, allowed).Raised? <==> exists t :: t in Split(s) && t !in allowed
    ensures ValidateScopes(s, allowed).Raised? ==>
              forall t :: t in ValidateScopes(s, allowed).error <==> t in Split(s) && t !in allowed
    ensures ValidateScopes(s, allowed).Ok? ==>
              var stored := ValidateScopes(s, allowed).value;
              && ParseScopes(stored) == ParseScopes(s) <= allowed
              && ValidateScopes(stored, allowed) == Ok(stored)
  {
    ScopesRoundTrip(s);
    var unknown := ParseScopes(s) - allowed;
    if unknown != {} {
      var t :| t in unknown;
      assert t in Split(s) && t !in allowed;
    } else {
      forall t | t in Split(s) ensures t in allowed {
        assert t in unknown || t in allowed;
      }
    }
  }

  lemma SharedScopes()
    ensures ALLOWED_SERVICE_SCOPES * TENANT_SERVICE_SCOPES == {"users:read", "audit:read"}
  {
  }

  /** The two validators accept a string in common exactly when it asks for nothing but the two shared scopes, and then
      both store it the same way. */
  lemma AcceptedByBothExactly(s: string)
    ensures ValidateServiceScopes(s).Ok? && ValidateTenantServiceScopes(s).Ok? <==>
            ParseScopes(s) <= {"users:read", "audit:read"}
    ensures ValidateServiceScopes(s).Ok? && ValidateTenantServiceScopes(s).Ok? ==>
              ValidateServiceScopes(s) == ValidateTenantServiceScopes(s)
  {
    SharedScopes();
    AcceptedWithin(s, ALLOWED_SERVICE_SCOPES, TENANT_SERVICE_SCOPES);
  }

  lemma AcceptedWithin(s: string, a: set<string>, b: set<string>)
    ensures ValidateScopes(s, a).Ok? && ValidateScopes(s, b).Ok? <==> ParseScopes(s) <= a * b
  {
    NothingLeft(ParseScopes(s), a);
    NothingLeft(ParseScopes(s), b);
  }

  lemma NothingLeft(scopes: set<string>, allowed: set<string>)
    ensures scopes - allowed == {} <==> scopes <= allowed
  {
    if scopes - allowed == {} {
      forall t | t in scopes ensures t in allowed {
        assert t !in scopes - allowed;
      }
    }
  }
}
