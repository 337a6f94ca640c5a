/**
  Certificates, trust bundles and status conditions as the revocation controller sees them.
  X.509 path validation is a parameter (`Verifier`): a certificate, a root pool and an instant
  go in, and the verdict comes out.
 */
module Certificates {

  type Instant = int

  /** `raw` stands for the DER bytes; two certificates are the same when both fields agree. */
  datatype Certificate = Certificate(raw: nat, notBefore: Instant)

  type Verifier = (Certificate, set<Certificate>, Instant) -> bool

  /** A leaf certificate with the name of the secret that holds it. */
  datatype LeafSecret = LeafSecret(name: string, cert: Certificate)

  // ---- partitioning by validity ----

  predicate After(cert: Certificate, cutoff: Instant) {
    cert.notBefore > cutoff
  }

  predicate AllAfter(certs: seq<Certificate>, cutoff: Instant) {
    forall cert :: cert in certs ==> After(cert, cutoff)
  }

  /** The certificates with the wanted verdict, in order. */
  function Select(certs: seq<Certificate>, cutoff: Instant, after: bool): seq<Certificate> {
    if certs == [] then []
    else if After(certs[0], cutoff) == after then [certs[0]] + Select(certs[1..], cutoff, after)
    else Select(certs[1..], cutoff, after)
  }

  lemma {:induction false} SelectAppend(certs: seq<Certificate>, last: Certificate, cutoff: Instant, after: bool)
    ensures Select(certs + [last], cutoff, after)
         == Select(certs, cutoff, after) + (if After(last, cutoff) == after then [last] else [])
  {
    if certs == [] {
    } else {
      assert (certs + [last])[1..] == certs[1..] + [last];
      SelectAppend(certs[1..], last, cutoff, after);
    }
  }

  /** Selection keeps exactly the certificates with the wanted verdict, with their multiplicity. */
  lemma {:induction false} SelectContents(certs: seq<Certificate>, cutoff: Instant, after: bool, cert: Certificate)
    ensures multiset(Select(certs, cutoff, after))[cert]
         == if After(cert, cutoff) == after then multiset(certs)[cert] else 0
  {
    if certs == [] {
    } else {
      assert certs == [certs[0]] + certs[1..];
      SelectContents(certs[1..], cutoff, after, cert);
    }
  }

  lemma SelectMembers(certs: seq<Certificate>, cutoff: Instant, after: bool)
    ensures forall cert :: cert in Select(certs, cutoff, after) <==> cert in certs && After(cert, cutoff) == after
  {
    forall cert
      ensures cert in Select(certs, cutoff, after) <==> cert in certs && After(cert, cutoff) == after
    {
      SelectContents(certs, cutoff, after, cert);
      assert cert in certs <==> cert in multiset(certs);
      assert cert in Select(certs, cutoff, after) <==> cert in multiset(Select(certs, cutoff, after));
    }
  }

  /** The controller compares lengths to decide whether a bundle is already pruned. */
  lemma {:induction false} SelectLength(certs: seq<Certificate>, cutoff: Instant)
    ensures |Select(certs, cutoff, true)| + |Select(certs, cutoff, false)| == |certs|
    ensures |Select(certs, cutoff, true)| == |certs| <==> AllAfter(certs, cutoff)
    ensures AllAfter(certs, cutoff) ==> Select(certs, cutoff, true) == certs
  {
    if certs == [] {
    } else {
      SelectLength(certs[1..], cutoff);
      assert certs == [certs[0]] + certs[1..];
    }
  }

  method PartitionCertificatesByValidity(certs: seq<Certificate>, cutoff: Instant)
    returns (onlyAfter: seq<Certificate>, beforeAndDuring: seq<Certificate>)
    ensures onlyAfter == Select(certs, cutoff, true)
    ensures beforeAndDuring == Select(certs, cutoff, false)
    ensures multiset(onlyAfter) + multiset(beforeAndDuring) == multiset(certs)
    ensures forall cert :: cert in onlyAfter ==> cert.notBefore > cutoff
    ensures forall cert :: cert in beforeAndDuring ==> cert.notBefore <= cutoff
  {
    onlyAfter, beforeAndDuring := [], [];
    for i := 0 to |certs|
      invariant onlyAfter == Select(certs[..i], cutoff, true)
      invariant beforeAndDuring == Select(certs[..i], cutoff, false)
    {
      var cert := certs[i];
      assert certs[..i + 1] == certs[..i] + [cert];
      SelectAppend(certs[..i], cert, cutoff, true);
      SelectAppend(certs[..i], cert, cutoff, false);
      if cert.notBefore > cutoff {
        onlyAfter := onlyAfter + [cert];
      } else {
        beforeAndDuring := beforeAndDuring + [cert];
      }
    }
    assert certs[..|certs|] == certs;
    SelectMembers(certs, cutoff, true);
    SelectMembers(certs, cutoff, false);
    forall cert
      ensures (multiset(onlyAfter) + multiset(beforeAndDuring))[cert] == multiset(certs)[cert]
    {
      SelectContents(certs, cutoff, true, cert);
      SelectContents(certs, cutoff, false, cert);
    }
  }

  // ---- trust ----

  function Pool(bundle: seq<Certificate>): set<Certificate> {
    set cert | cert in bundle
  }

  /** The leaves that verify against a bundle, in order. */
  function Trusted(verify: Verifier, bundle: seq<Certificate>, leaves: seq<LeafSecret>, now: Instant): seq<LeafSecret> {
    if leaves == [] then []
    else
      var rest := Trusted(verify, bundle, leaves[1..], now);
      if verify(leaves[0].cert, Pool(bundle), now) then [leaves[0]] + rest else rest
  }

  lemma {:induction false} TrustedMembers(
      verify: Verifier, bundle: seq<Certificate>, leaves: seq<LeafSecret>, now: Instant)
    ensures forall leaf :: leaf in Trusted(verify, bundle, leaves, now)
                      <==> leaf in leaves && verify(leaf.cert, Pool(bundle), now)
  {
    if leaves == [] {
    } else {
      TrustedMembers(verify, bundle, leaves[1..], now);
      assert leaves == [leaves[0]] + leaves[1..];
    }
  }

  lemma {:induction false} TrustedAppend(
    verify: Verifier, bundle: seq<Certificate>, leaves: seq<LeafSecret>, last: LeafSecret, now: Instant)
    ensures Trusted(verify, bundle, leaves + [last], now)
         == Trusted(verify, bundle, leaves, now)
            + (if verify(last.cert, Pool(bundle), now) then [last] else [])
  {
    if leaves == [] {
    } else {
      assert (leaves + [last])[1..] == leaves[1..] + [last];
      TrustedAppend(verify, bundle, leaves[1..], last, now);
    }
  }

  method TrustedCertificates(verify: Verifier, trustBundle: seq<Certificate>, secrets: seq<LeafSecret>, now: Instant)
    returns (trusted: seq<LeafSecret>)
    ensures trusted == Trusted(verify, trustBundle, secrets, now)
    ensures forall leaf :: leaf in trusted
                      <==> leaf in secrets && verify(leaf.cert, (set root | root in trustBundle), now)
  {
    var trustPool: set<Certificate> := {};
    for i := 0 to |trustBundle|
      invariant trustPool == Pool(trustBundle[..i])
    {
      trustPool := trustPool + {trustBundle[i]};
    }
    assert trustBundle[..|trustBundle|] == trustBundle;
    trusted := [];
    for i := 0 to |secrets|
      invariant trusted == Trusted(verify, trustBundle, secrets[..i], now)
    {
      assert secrets[..i + 1] == secrets[..i] + [secrets[i]];
      TrustedAppend(verify, trustBundle, secrets[..i], secrets[i], now);
      if verify(secrets[i].cert, trustPool, now) {
        trusted := trusted + [secrets[i]];
      }
    }
    assert secrets[..|secrets|] == secrets;
    TrustedMembers(verify, trustBundle, secrets, now);
  }

  function Names(leaves: seq<LeafSecret>): set<string> {
    set leaf | leaf in leaves :: leaf.name
  }

  // ---- conditions ----

  datatype ConditionType =
    | SignerClassValid
    | RootCertificatesRegenerated
    | NewCertificatesTrusted
    | LeafCertificatesRegenerated
    | PreviousCertificatesRevoked

  datatype Condition = Condition(kind: ConditionType, status: bool, reason: string)

  function Kinds(conditions: seq<Condition>): set<ConditionType> {
    set condition | condition in conditions :: condition.kind
  }

  /** The condition types recorded as True. */
  function Truths(conditions: seq<Condition>): set<ConditionType> {
    set condition | condition in conditions && condition.status :: condition.kind
  }

  predicate UniqueKinds(conditions: seq<Condition>) {
    forall i, j :: 0 <= i < j < |conditions| ==> conditions[i].kind != conditions[j].kind
  }

  /** The True conditions are a prefix of the five protocol phases. */
  predicate IsPhasePrefix(truths: set<ConditionType>) {
    && (RootCertificatesRegenerated in truths ==> SignerClassValid in truths)
    && (NewCertificatesTrusted in truths ==> RootCertificatesRegenerated in truths)
    && (LeafCertificatesRegenerated in truths ==> NewCertificatesTrusted in truths)
    && (PreviousCertificatesRevoked in truths ==> LeafCertificatesRegenerated in truths)
  }

  /** The conditions whose type is not being overwritten, in order. */
  function Retained(existing: seq<Condition>, overwritten: set<ConditionType>): seq<Condition> {
    if existing == [] then []
    else if existing[0].kind in overwritten then Retained(existing[1..], overwritten)
    else [existing[0]] + Retained(existing[1..], overwritten)
  }

  function Merge(existing: seq<Condition>, updated: seq<Condition>): seq<Condition> {
    updated + Retained(existing, Kinds(updated))
  }

  lemma {:induction false} RetainedMembers(existing: seq<Condition>, overwritten: set<ConditionType>)
    ensures forall condition :: condition in Retained(existing, overwritten)
                           <==> condition in existing && condition.kind !in overwritten
    ensures UniqueKinds(existing) ==> UniqueKinds(Retained(existing, overwritten))
  {
    if existing == [] {
    } else {
      RetainedMembers(existing[1..], overwritten);
      assert existing == [existing[0]] + existing[1..];
      assert forall condition :: condition in existing[1..] ==>
          exists i :: 1 <= i < |existing| && existing[i] == condition;
    }
  }

  lemma {:induction false} RetainedAppend(existing: seq<Condition>, last: Condition, overwritten: set<ConditionType>)
    ensures Retained(existing + [last], overwritten)
         == Retained(existing, overwritten) + (if last.kind in overwritten then [] else [last])
  {
    if existing == [] {
    } else {
      assert (existing + [last])[1..] == existing[1..] + [last];
      RetainedAppend(existing[1..], last, overwritten);
    }
  }

  /**
    What one apply does to the recorded conditions: the updated types take their new value, every
    other recorded condition survives word for word, and no type appears twice.
   */
  lemma MergeEffect(existing: seq<Condition>, updated: seq<Condition>)
    ensures Kinds(Merge(existing, updated)) == Kinds(existing) + Kinds(updated)
    ensures Truths(Merge(existing, updated)) == (Truths(existing) - Kinds(updated)) + Truths(updated)
    ensures forall condition :: condition in existing && condition.kind !in Kinds(updated)
                           ==> condition in Merge(existing, updated)
    ensures forall condition :: condition in updated ==> condition in Merge(existing, updated)
    ensures UniqueKinds(existing) && UniqueKinds(updated) ==> UniqueKinds(Merge(existing, updated))
  {
    RetainedMembers(existing, Kinds(updated));
    var retained := Retained(existing, Kinds(updated));
    forall kind
      ensures kind in Truths(Merge(existing, updated))
         <==> kind in (Truths(existing) - Kinds(updated)) + Truths(updated)
    {
      if kind in Truths(existing) - Kinds(updated) {
        var condition :| condition in existing && condition.status && condition.kind == kind;
        assert condition in retained;
      }
    }
    forall kind | kind in Kinds(existing)
      ensures kind in Kinds(Merge(existing, updated))
    {
      var condition :| condition in existing && condition.kind == kind;
      if kind !in Kinds(updated) {
        assert condition in retained;
      }
    }
    assert forall condition :: condition in retained ==> condition.kind !in Kinds(updated);
    assert forall condition :: condition in updated ==> condition.kind in Kinds(updated);
  }

  method Conditions(existing: seq<Condition>, updated: seq<Condition>) returns (conditions: seq<Condition>)
    ensures conditions == Merge(existing, updated)
    ensures Kinds(conditions) == Kinds(existing) + Kinds(updated)
    ensures Truths(conditions) == (Truths(existing) - Kinds(updated)) + Truths(updated)
  {
    var updatedTypes: set<ConditionType> := {};
    for i := 0 to |updated|
      invariant updatedTypes == Kinds(updated[..i])
    {
      updatedTypes := updatedTypes + {updated[i].kind};
    }
    assert updated[..|updated|] == updated;
    conditions := updated;
    for i := 0 to |existing|
      invariant conditions == updated + Retained(existing[..i], updatedTypes)
    {
      assert existing[..i + 1] == existing[..i] + [existing[i]];
      RetainedAppend(existing[..i], existing[i], updatedTypes);
      if existing[i].kind !in updatedTypes {
        conditions := conditions + [existing[i]];
      }
    }
    assert existing[..|existing|] == existing;
    MergeEffect(existing, updated);
  }
}
