/** Bringing a UserSignup in line with the claims of the user's token (pkg/signup/service/signup_service.go). */
module Audit {
  import opened UserSignups

  /** A claim the token does not carry, or carries empty, leaves the old value. */
  function Newer(claim: string, existing: string): string {
    if claim != "" then claim else existing
  }

  /** `token` holds the claims of the access token, "" where it has none. */
  function AuditedClaims(token: Claims, c: Claims): Claims {
    Claims(
      Newer(token.sub, c.sub), Newer(token.userID, c.userID), Newer(token.accountID, c.accountID),
      Newer(token.accountNumber, c.accountNumber), Newer(token.originalSub, c.originalSub),
      Newer(token.email, c.email), Newer(token.preferredUsername, c.preferredUsername),
      Newer(token.givenName, c.givenName), Newer(token.familyName, c.familyName), Newer(token.company, c.company))
  }

  function Audited(w: World, token: Claims, s: UserSignup): UserSignup {
    var c := AuditedClaims(token, s.claims);
    s.(claims := c, labels := s.labels[EmailHash := w.hash(c.email)])
  }

  /** A claim or the email-hash label is not what the token says it should be. */
  predicate NeedsUpdate(w: World, token: Claims, s: UserSignup) {
    || AuditedClaims(token, s.claims) != s.claims
    || s.Label(EmailHash) != w.hash(AuditedClaims(token, s.claims).email)
  }

  method UpdateIfRequired(claim: string, existing: string, updated: bool) returns (value: string, changed: bool)
    ensures value == Newer(claim, existing)
    ensures changed <==> updated || value != existing
  {
    if |claim| > 0 && claim != existing {
      return claim, true;
    }
    return existing, updated;
  }

  method AuditUserSignupAgainstClaims(w: World, token: Claims, us: Resource) returns (updated: bool)
    requires w.Lawful()
    modifies us
    ensures us.Value() == Audited(w, token, old(us.Value()))
    ensures updated <==> NeedsUpdate(w, token, old(us.Value()))
  {
    updated := false;
    var c := us.claims;
    var sub, userID, accountID, accountNumber, originalSub;
    var email, preferredUsername, givenName, familyName, company;
    sub, updated := UpdateIfRequired(token.sub, c.sub, updated);
    userID, updated := UpdateIfRequired(token.userID, c.userID, updated);
    accountID, updated := UpdateIfRequired(token.accountID, c.accountID, updated);
    accountNumber, updated := UpdateIfRequired(token.accountNumber, c.accountNumber, updated);
    originalSub, updated := UpdateIfRequired(token.originalSub, c.originalSub, updated);
    email, updated := UpdateIfRequired(token.email, c.email, updated);
    preferredUsername, updated := UpdateIfRequired(token.preferredUsername, c.preferredUsername, updated);
    givenName, updated := UpdateIfRequired(token.givenName, c.givenName, updated);
    familyName, updated := UpdateIfRequired(token.familyName, c.familyName, updated);
    company, updated := UpdateIfRequired(token.company, c.company, updated);
    us.claims := Claims(sub, userID, accountID, accountNumber, originalSub,
                        email, preferredUsername, givenName, familyName, company);
    var emailHash := w.hash(us.claims.email);
    if us.Value().Label(EmailHash) != emailHash {
      us.labels := us.labels[EmailHash := emailHash];
      updated := true;
    } else {
      assert IsHash(emailHash);
      assert us.labels == us.labels[EmailHash := emailHash];
    }
  }

  // ----- what the audit promises -----

  /** Each claim afterwards is the token's, or the old one if the token has none; the email-hash label is the
      hash of the email as it then is. */
  lemma AuditTakesEachClaim(w: World, token: Claims, s: UserSignup)
    ensures var c := Audited(w, token, s).claims;
            && c.sub == (if token.sub == "" then s.claims.sub else token.sub)
            && c.userID == (if token.userID == "" then s.claims.userID else token.userID)
            && c.accountID == (if token.accountID == "" then s.claims.accountID else token.accountID)
            && c.accountNumber == (if token.accountNumber == "" then s.claims.accountNumber else token.accountNumber)
            && c.originalSub == (if token.originalSub == "" then s.claims.originalSub else token.originalSub)
            && c.email == (if token.email == "" then s.claims.email else token.email)
            && c.preferredUsername
               == (if token.preferredUsername == "" then s.claims.preferredUsername else token.preferredUsername)
            && c.givenName == (if token.givenName == "" then s.claims.givenName else token.givenName)
            && c.familyName == (if token.familyName == "" then s.claims.familyName else token.familyName)
            && c.company == (if token.company == "" then s.claims.company else token.company)
    ensures var t := Audited(w, token, s);
            EmailHash in t.labels && t.labels[EmailHash] == w.hash(t.claims.email)
  {
  }

  /** The flag says "changed" exactly when the audit changes the resource. */
  lemma FlagSaysChanged(w: World, token: Claims, s: UserSignup)
    requires w.Lawful()
    ensures NeedsUpdate(w, token, s) <==> Audited(w, token, s) != s
  {
    var c := AuditedClaims(token, s.claims);
    assert IsHash(w.hash(c.email));
    var t := Audited(w, token, s);
    assert t.claims == c && t.Label(EmailHash) == w.hash(c.email);
    if !NeedsUpdate(w, token, s) {
      assert s.labels[EmailHash := w.hash(c.email)] == s.labels;
    }
  }

  /** A second audit with the same token changes nothing and reports no update. */
  lemma AuditIsIdempotent(w: World, token: Claims, s: UserSignup)
    requires w.Lawful()
    ensures Audited(w, token, Audited(w, token, s)) == Audited(w, token, s)
    ensures !NeedsUpdate(w, token, Audited(w, token, s))
  {
    var once := Audited(w, token, s);
    assert AuditedClaims(token, once.claims) == once.claims;
    FlagSaysChanged(w, token, once);
  }

  predicate EmailHashMatches(w: World, s: UserSignup) {
    EmailHash in s.labels && s.labels[EmailHash] == w.hash(s.claims.email)
  }

  /** The audit touches the claims and the email-hash label and nothing else. */
  lemma AuditLeavesTheRest(w: World, token: Claims, s: UserSignup)
    ensures var t := Audited(w, token, s);
            && EmailHashMatches(w, t)
            && t.annotations == s.annotations && t.flags == s.flags
            && t.targetCluster == s.targetCluster && t.status == s.status
            && (forall key :: key != EmailHash ==> t.SameLabel(s, key))
  {
  }
}
