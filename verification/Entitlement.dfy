/**
 Who may register, and until when. What cryptography settles is given: what a signed text claims,
 whether its certificates lead to Apple at an instant, and the hash of a secret.
 */
module Entitlement {
  import opened Types
  import Store
  import Listing

  datatype Claims = Claims(
    bundleId: string,
    productId: string,
    kind: string,
    environment: string,
    expiresDate: int,
    revocationDate: int,
    signedDate: int)

  datatype Verifier = Verifier(productIds: seq<string>, grace: Time, allowSandbox: bool, maxSignedAge: Time)

  /**
   What a text signed by its own leaf certificate claims, if it is one; whether its certificates
   lead to Apple at an instant, which they do not before they are valid nor once they have expired;
   and how a secret is hashed.
   */
  datatype Crypto = Crypto(
    claims: string -> Option<Claims>,
    leadsToApple: (string, Time) -> bool,
    hash: string -> string)

  /** What a device shows of itself, at whatever instant. */
  datatype Request = Request(authorization: string, transaction: string, bundleId: string, sandbox: bool)

  datatype Policy = Policy(secret: string, apple: Option<Verifier>)

  datatype Transaction = Transaction(expires: Time, signed: Time)

  datatype Admission = Admission(expiresAt: Time, signed: Time)

  datatype Refusal =
    | WrongSecret
    | NotAuthentic
    | OtherApp
    | OtherProduct
    | NotASubscription
    | Revoked
    | NoExpiry
    | NotSigned
    | SignedTooLongAgo
    | SignedInTheFuture
    | OtherEnvironment
    | Expired
    | EitherProofNeeded
    | SubscriptionNeeded
    | SecretNeeded

  datatype Result<+T> = Granted(value: T) | Denied(why: Refusal)

  const SUBSCRIPTION := "Auto-Renewable Subscription"
  const BEARER := "Bearer "
  const A_DAY: Time := 86400.0

  /** The Unix epoch, counted from the zero time. */
  const EPOCH: Time := 62135596800.0

  function UnixMilli(ms: int): Time {
    EPOCH + ms as real / 1000.0
  }

  function Verify(v: Verifier, c: Claims, bundleId: string, sandbox: bool, now: Time): Result<Transaction> {
    var tx := Transaction(UnixMilli(c.expiresDate), if c.signedDate != 0 then UnixMilli(c.signedDate) else ZERO_TIME);
    if c.bundleId != bundleId then Denied(OtherApp)
    else if c.productId !in v.productIds then Denied(OtherProduct)
    else if c.kind != SUBSCRIPTION then Denied(NotASubscription)
    else if c.revocationDate != 0 then Denied(Revoked)
    else if c.expiresDate == 0 then Denied(NoExpiry)
    else if v.maxSignedAge > 0.0 && tx.signed == ZERO_TIME then Denied(NotSigned)
    else if v.maxSignedAge > 0.0 && now - tx.signed > v.maxSignedAge then Denied(SignedTooLongAgo)
    else if v.maxSignedAge > 0.0 && tx.signed > now + A_DAY then Denied(SignedInTheFuture)
    else if c.environment != (if sandbox then "Sandbox" else "Production")
            && !(v.allowSandbox && c.environment == "Sandbox") then Denied(OtherEnvironment)
    else if !(now < tx.expires + v.grace) then Denied(Expired)
    else Granted(tx)
  }

  predicate Open(p: Policy) {
    p.secret == "" && p.apple.None?
  }

  /** The claims of a text that is Apple's at this instant. */
  function Authentic(x: Crypto, transaction: string, now: Time): Option<Claims> {
    if x.leadsToApple(transaction, now) then x.claims(transaction) else None
  }

  predicate ShowsSecret(p: Policy, q: Request) {
    p.secret != "" && BEARER <= q.authorization
  }

  function Admit(p: Policy, x: Crypto, q: Request, now: Time): Result<Admission> {
    if Open(p) then Granted(Admission(ZERO_TIME, ZERO_TIME))
    else if ShowsSecret(p, q) then
      if x.hash(q.authorization[|BEARER|..]) == x.hash(p.secret) then Granted(Admission(ZERO_TIME, ZERO_TIME))
      else Denied(WrongSecret)
    else if p.apple.Some? && q.transaction != "" then
      match Authentic(x, q.transaction, now)
      case None => Denied(NotAuthentic)
      case Some(claims) =>
        match Verify(p.apple.value, claims, q.bundleId, q.sandbox, now)
        case Denied(why) => Denied(why)
        case Granted(tx) => Granted(Admission(tx.expires + p.apple.value.grace, tx.signed))
    else if p.apple.Some? && p.secret != "" then Denied(EitherProofNeeded)
    else if p.apple.Some? then Denied(SubscriptionNeeded)
    else Denied(SecretNeeded)
  }

  // ------------------------------------------------------------------ one half-open interval

  /** A live row of the admission: what registering with it stores, through any history. */
  ghost predicate StoredFrom(a: Admission, limits: Store.Limits, table: Listing.Table, r: Registration,
                             row: Registration)
  {
    && r.expiresAt == a.expiresAt
    && Store.PutVerdict(limits, table, r) == Store.Stored
    && r.token in Store.PutTable(table, r) && row == Store.PutTable(table, r)[r.token]
  }

  /**
   A transaction is accepted only before its expiry and grace are up. Its row is then not taken
   for one that never expires, and delivery serves it at exactly the instants before that end.
   */
  lemma AcceptedIsServedToTheEnd(p: Policy, v: Verifier, x: Crypto, q: Request, now: Time,
                                 limits: Store.Limits, table: Listing.Table,
                                 r: Registration, row: Registration, t: Time)
    requires p.apple == Some(v) && ZERO_TIME <= now && !ShowsSecret(p, q)
    requires Admit(p, x, q, now).Granted? && StoredFrom(Admit(p, x, q, now).value, limits, table, r, row)
    ensures x.claims(q.transaction).Some?
    ensures var end := UnixMilli(x.claims(q.transaction).value.expiresDate) + v.grace;
      && now < end && row.expiresAt == end && row.expiresAt != ZERO_TIME
      && (row.Lapsed(t) <==> end <= t)
  {
    assert !Open(p);
  }

  /** Where ages are bounded, a signature is neither too old at `t` nor more than a day ahead of it. */
  predicate AgeAllowed(v: Verifier, c: Claims, t: Time) {
    0.0 < v.maxSignedAge ==>
      t - UnixMilli(c.signedDate) <= v.maxSignedAge && UnixMilli(c.signedDate) <= t + A_DAY
  }

  /**
   Once a transaction has been accepted, what any other instant makes of it is settled by three
   things alone: whether its certificates lead to Apple then, whether the age of its signature is
   allowed then, and whether its end is still to come. With all three it is accepted as it was.
   */
  lemma AcceptedAgainExactlyIf(p: Policy, v: Verifier, x: Crypto, q: Request, now: Time, t: Time)
    requires p.apple == Some(v) && !ShowsSecret(p, q) && Admit(p, x, q, now).Granted?
    ensures x.claims(q.transaction).Some?
    ensures var c := x.claims(q.transaction).value;
      var end := UnixMilli(c.expiresDate) + v.grace;
      && Admit(p, x, q, now).value.expiresAt == end
      && Admit(p, x, q, t) ==
         if !x.leadsToApple(q.transaction, t) then Denied(NotAuthentic)
         else if !AgeAllowed(v, c, t) then
           Denied(if UnixMilli(c.signedDate) <= t + A_DAY then SignedTooLongAgo else SignedInTheFuture)
         else if end <= t then Denied(Expired)
         else Admit(p, x, q, now)
  {
  }

  /**
   Where a secret is set, one that is shown decides alone: no transaction, no verifier, no
   certificate, no app and no instant changes the answer, which is yes exactly for a secret with
   the same hash.
   */
  lemma AShownSecretDecides(p: Policy, p': Policy, x: Crypto, x': Crypto, q: Request, q': Request, presented: string,
                            now: Time, now': Time)
    requires p.secret != "" && p'.secret == p.secret && x'.hash == x.hash
    requires q.authorization == q'.authorization == BEARER + presented
    ensures Admit(p, x, q, now) == Admit(p', x', q', now')
    ensures Admit(p, x, q, now).Granted? <==> x.hash(presented) == x.hash(p.secret)
  {
    assert (BEARER + presented)[|BEARER|..] == presented;
  }

  /** Milliseconds since the Unix epoch, counted as the relay counts instants: from the year one. */
  function Since1970(ms: int): Time {
    62135596800.0 + ms as real / 1000.0
  }

  /** What a transaction claims is right: this app, one of these products, a subscription, not revoked. */
  ghost predicate ForThisApp(v: Verifier, c: Claims, q: Request) {
    && c.bundleId == q.bundleId && c.productId in v.productIds && c.kind == "Auto-Renewable Subscription"
    && c.revocationDate == 0 && c.expiresDate != 0
  }

  /** From the right environment; a sandbox transaction also where those are let in. */
  ghost predicate FromRightPlace(v: Verifier, c: Claims, q: Request) {
    || c.environment == (if q.sandbox then "Sandbox" else "Production")
    || (c.environment == "Sandbox" && v.allowSandbox)
  }

  /** Signed, where ages are bounded, at an instant not too far back and not a day ahead. */
  ghost predicate SignedInTime(v: Verifier, c: Claims, now: Time) {
    v.maxSignedAge <= 0.0
    || (c.signedDate != 0 && Since1970(c.signedDate) != 0.0
        && now - v.maxSignedAge <= Since1970(c.signedDate) <= now + 86400.0)
  }

  /**
   Who may register, in full: anyone if the relay asks for nothing; who shows the secret, if there
   is one; or, showing none, who brings a transaction that is Apple's now, right in what it
   claims, from the right place, signed in time and with its expiry and grace not yet up. Nobody
   else.
   */
  lemma AdmittedExactlyIf(p: Policy, x: Crypto, q: Request, now: Time)
    ensures Admit(p, x, q, now).Granted? <==>
      if p.secret == "" && p.apple.None? then true
      else if p.secret != "" && "Bearer " <= q.authorization then x.hash(q.authorization[7..]) == x.hash(p.secret)
      else
        && p.apple.Some? && q.transaction != "" && x.leadsToApple(q.transaction, now) && x.claims(q.transaction).Some?
        && var v, c := p.apple.value, x.claims(q.transaction).value;
           && ForThisApp(v, c, q) && FromRightPlace(v, c, q) && SignedInTime(v, c, now)
           && now < Since1970(c.expiresDate) + v.grace
  {
  }

  /** And with what: an expiry and an age from a transaction alone. */
  lemma AdmittedWith(p: Policy, x: Crypto, q: Request, now: Time)
    requires Admit(p, x, q, now).Granted?
    ensures var a := Admit(p, x, q, now).value;
      if p.apple.None? || (p.secret != "" && "Bearer " <= q.authorization) then a == Admission(0.0, 0.0)
      else
        var c := x.claims(q.transaction);
        && c.Some? && a.expiresAt == Since1970(c.value.expiresDate) + p.apple.value.grace
        && a.signed == if c.value.signedDate == 0 then 0.0 else Since1970(c.value.signedDate)
  {
  }

  /** The expiry half of pruning, with the half about not being seen left out of play. */
  predicate PrunedAsExpired(r: Registration, expiredBefore: Time) {
    Store.Stale(r, r.seenAt, expiredBefore)
  }

  /**
   Pruning for expiry takes exactly the rows delivery was already refusing at some instant before
   the cut, and delivery refuses those at the cut and at every instant after it.
   */
  lemma PruningFollowsDelivery(r: Registration, expiredBefore: Time, later: Time)
    requires expiredBefore <= later
    ensures PrunedAsExpired(r, expiredBefore) <==> exists u :: u < expiredBefore && r.Lapsed(u)
    ensures PrunedAsExpired(r, expiredBefore) ==> r.Lapsed(later)
  {
    if PrunedAsExpired(r, expiredBefore) {
      assert r.expiresAt < expiredBefore && r.Lapsed(r.expiresAt);
    }
  }
}
