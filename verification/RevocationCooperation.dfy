/**
  Other controllers that do their part. The rotation controller renews what is marked, the
  target-config controller publishes the union of the class bundles, and the API server has loaded
  it. Their answers meet everything the protocol waits for, so the revocation completes.
 */
module RevocationCooperation {
  import opened Common
  import opened Certificates
  import opened Revocation
  import opened RevocationSafety
  import opened RevocationRuns
  import opened RevocationProgress

  /** Who issued a certificate; a signer issues itself. */
  type Issuance = Certificate -> Certificate

  /** While everything is within its validity, a certificate verifies exactly against its issuer. */
  ghost predicate VerifiesByIssuer(config: Config, issuerOf: Issuance) {
    forall cert, roots, now {:trigger config.verify(cert, roots, now)} ::
      config.verify(cert, roots, now) <==> issuerOf(cert) in roots
  }

  // ---- clusters in good order ----

  function OtherConfigMap(signerClass: string): string
    requires ValidSignerClass(signerClass)
  {
    if signerClass == CUSTOMER_BREAK_GLASS then "sre-system-admin-signer-ca" else "customer-system-admin-signer-ca"
  }

  function OtherBundle(cluster: Cluster, crr: Request): Load<seq<Certificate>>
    requires ValidSignerClass(crr.signerClass)
  {
    LoadTrustBundle(cluster, OtherConfigMap(crr.signerClass))
  }

  function Signer(crr: Request): string
    requires ValidSignerClass(crr.signerClass)
  {
    SecretForSignerClass(crr.signerClass)
  }

  /** The signer is one self-issued certificate with its key, and both class bundles can be read. */
  ghost predicate SignerSound(issuerOf: Issuance, cluster: Cluster, crr: Request)
    requires ValidSignerClass(crr.signerClass)
  {
    && Signer(crr) in cluster.secrets
    && var signer := cluster.secrets[Signer(crr)];
    && IsSelfIssued(issuerOf, signer)
    && signer.issuer.Some? && SignerIssuer(cluster, crr).Some?
    && ClassBundle(cluster, crr).Loaded? && signer.tlsCrt.certs[0] in ClassBundle(cluster, crr).value
    && OtherBundle(cluster, crr).Loaded? && signer.tlsCrt.certs[0] !in OtherBundle(cluster, crr).value
  }

  ghost predicate IsSelfIssued(issuerOf: Issuance, secret: Secret) {
    && secret.tlsCrt.Chain? && |secret.tlsCrt.certs| == 1 && issuerOf(secret.tlsCrt.certs[0]) == secret.tlsCrt.certs[0]
    && secret.tlsKey && !HasLeaf(secret)
  }

  /** What can be inspected can be read. */
  predicate IsReadable(secret: Secret) {
    || secret.tlsCrt.Absent? || secret.inspection.InspectionFailed? || secret.inspection.pairs == []
    || LoadPem(secret.tlsCrt).Loaded?
  }

  /** A leaf that the class bundle trusts says truly which generation of the signer issued it. */
  ghost predicate LeafSound(issuerOf: Issuance, cluster: Cluster, crr: Request, secret: Secret)
    requires ValidSignerClass(crr.signerClass) && SignerSound(issuerOf, cluster, crr)
  {
    HasLeaf(secret) && LoadPem(secret.tlsCrt).Loaded?
        && issuerOf(LoadPem(secret.tlsCrt).value[0]) in ClassBundle(cluster, crr).value ==>
      || IssuedByOlder(secret, SignerIssuer(cluster, crr).value)
      || (&& issuerOf(LoadPem(secret.tlsCrt).value[0]) == cluster.secrets[Signer(crr)].tlsCrt.certs[0]
          && secret.issuer == cluster.secrets[Signer(crr)].issuer)
  }

  ghost predicate SecretsSound(issuerOf: Issuance, cluster: Cluster, crr: Request)
    requires ValidSignerClass(crr.signerClass) && SignerSound(issuerOf, cluster, crr)
  {
    forall name :: name in cluster.secrets ==>
      && WellFormedIssuer(cluster.secrets[name]) && IsReadable(cluster.secrets[name])
      && LeafSound(issuerOf, cluster, crr, cluster.secrets[name])
  }

  /** The saved signer is an old one of this class. */
  ghost predicate CopySound(config: Config, issuerOf: Issuance, cluster: Cluster, crr: Request)
    requires ValidSignerClass(crr.signerClass)
  {
    config.copyName(crr.name) in cluster.secrets ==>
      var copy := cluster.secrets[config.copyName(crr.name)];
      && Started(crr) && IsSelfIssued(issuerOf, copy) && copy.issuer.None?
      && copy.tlsCrt.certs[0].notBefore <= crr.status.revocationTimestamp.value
      && OtherBundle(cluster, crr).Loaded? && copy.tlsCrt.certs[0] !in OtherBundle(cluster, crr).value
  }

  /** Nobody rotates the signer before its predecessor is recorded. */
  ghost predicate ReferenceSound(cluster: Cluster, crr: Request)
    requires ValidSignerClass(crr.signerClass)
  {
    Started(crr) && SignerNew(cluster, crr) ==> crr.status.previousSigner.Some?
  }

  ghost predicate Orderly(config: Config, issuerOf: Issuance, cluster: Cluster) {
    && cluster.crr.Some? && ValidSignerClass(cluster.crr.value.signerClass)
    && var crr := cluster.crr.value;
    && SignerSound(issuerOf, cluster, crr) && SecretsSound(issuerOf, cluster, crr)
    && CopySound(config, issuerOf, cluster, crr) && ReferenceSound(cluster, crr)
  }

  // ---- syncs keep the order ----

  /** The cutoff is not before the certificate of the signer that is to be revoked. */
  predicate ClockIsSane(cluster: Cluster, crr: Request, inputs: Inputs)
    requires ValidSignerClass(crr.signerClass)
  {
    SignerCerts(cluster, crr).Loaded? ==> SignerCerts(cluster, crr).value[0].notBefore <= inputs.commitTime
  }

  lemma StatusWriteKeepsOrder(
      config: Config, issuerOf: Issuance, cluster: Cluster, crr: Request, inputs: Inputs, write: Write)
    requires cluster.crr == Some(crr) && Orderly(config, issuerOf, cluster) && RequestInvariant(config, cluster, crr)
    requires PhaseFacts(config, cluster, crr, write) && IsStatusWrite(write) && ClockIsSane(cluster, crr, inputs)
    ensures Orderly(config, issuerOf, cluster.(crr := Some(crr.(status := Written(config, crr, inputs, write)))))
  {
    var written := crr.(status := Written(config, crr, inputs, write));
    var after := cluster.(crr := Some(written));
    assert SignerSound(issuerOf, after, written) && SecretsSound(issuerOf, after, written);
    assert CopySound(config, issuerOf, after, written);
    assert SignerCerts(after, written).value[0] in SignerCerts(after, written).value;
    assert ReferenceSound(after, written);
  }

  /** A copy of an old signer is a sound one. */
  lemma CopyKeepsOrder(config: Config, issuerOf: Issuance, cluster: Cluster, crr: Request, inputs: Inputs)
    requires ValidConfig(config) && cluster.crr == Some(crr) && Orderly(config, issuerOf, cluster)
    requires Due(config, cluster, crr, inputs, CopyOldSigner)
    ensures Orderly(config, issuerOf, Apply(cluster, WriteActions(config, cluster, crr, inputs, CopyOldSigner)))
  {
    CopyIsNotSigner(config, crr.name, crr.signerClass);
    var signer := cluster.secrets[Signer(crr)];
    var copy := Secret(signer.tlsCrt, signer.tlsKey, signer.inspection, None, false);
    var after := Apply(cluster, WriteActions(config, cluster, crr, inputs, CopyOldSigner));
    assert after == cluster.(secrets := cluster.secrets[config.copyName(crr.name) := copy]);
    assert HasLeaf(copy) <==> HasLeaf(signer);
    assert SignerSound(issuerOf, after, crr);
    assert SecretsSound(issuerOf, after, crr);
    assert CopySound(config, issuerOf, after, crr);
  }

  lemma MarkKeepsOrder(config: Config, issuerOf: Issuance, cluster: Cluster, crr: Request, name: string)
    requires cluster.crr == Some(crr) && Orderly(config, issuerOf, cluster) && name in cluster.secrets
    ensures Orderly(config, issuerOf, Marked(cluster, name))
  {
    var after := Marked(cluster, name);
    assert HasLeaf(after.secrets[name]) <==> HasLeaf(cluster.secrets[name]);
    assert SignerSound(issuerOf, after, crr);
    assert SecretsSound(issuerOf, after, crr);
    assert CopySound(config, issuerOf, after, crr);
    assert ReferenceSound(after, crr);
  }

  /** Pruning keeps the new signer in the bundle. */
  lemma PruneKeepsOrder(config: Config, issuerOf: Issuance, cluster: Cluster, crr: Request, inputs: Inputs)
    requires cluster.crr == Some(crr) && Orderly(config, issuerOf, cluster)
    requires Guard(config, cluster, crr, inputs, PruneBundle)
    ensures Orderly(config, issuerOf, Apply(cluster, WriteActions(config, cluster, crr, inputs, PruneBundle)))
  {
    var after := Apply(cluster, WriteActions(config, cluster, crr, inputs, PruneBundle));
    SelectMembers(ClassBundle(cluster, crr).value, crr.status.revocationTimestamp.value, true);
    ConfigMapsDiffer(crr.signerClass);
    assert ClassBundle(after, crr) == Loaded(PrunedBundle(cluster, crr));
    assert OtherBundle(after, crr) == OtherBundle(cluster, crr);
    assert SignerSound(issuerOf, after, crr);
    assert SecretsSound(issuerOf, after, crr);
    assert CopySound(config, issuerOf, after, crr);
    assert ReferenceSound(after, crr);
  }

  lemma ConfigMapsDiffer(signerClass: string)
    requires ValidSignerClass(signerClass)
    ensures ConfigMapForSignerClass(signerClass) != OtherConfigMap(signerClass)
    ensures TOTAL_CLIENT_CA != ConfigMapForSignerClass(signerClass) && TOTAL_CLIENT_CA != OtherConfigMap(signerClass)
  {
    assert "customer-system-admin-signer-ca"[0] == 'c' && "sre-system-admin-signer-ca"[0] == 's';
    assert TOTAL_CLIENT_CA[0] == 't';
  }

  lemma OtherWriteKeepsOrder(
      config: Config, issuerOf: Issuance, cluster: Cluster, crr: Request, inputs: Inputs, write: Write)
    requires ValidConfig(config) && cluster.crr == Some(crr) && Orderly(config, issuerOf, cluster)
    requires ListsSecrets(inputs, cluster) && Guard(config, cluster, crr, inputs, write) && !IsStatusWrite(write)
    ensures Orderly(config, issuerOf, Apply(cluster, WriteActions(config, cluster, crr, inputs, write)))
  {
    var actions := WriteActions(config, cluster, crr, inputs, write);
    if write.CopyOldSigner? {
      CopyKeepsOrder(config, issuerOf, cluster, crr, inputs);
    } else if write.MarkSigner? {
      MarkKeepsOrder(config, issuerOf, cluster, crr, Signer(crr));
      assert Apply(cluster, actions) == Marked(cluster, Signer(crr));
    } else if write.MarkLeaf? {
      ScanLeavesMeaning(cluster.secrets, inputs.listing, SignerIssuer(cluster, crr).value);
      MarkKeepsOrder(config, issuerOf, cluster, crr, write.name);
      assert Apply(cluster, actions) == Marked(cluster, write.name);
    } else {
      PruneKeepsOrder(config, issuerOf, cluster, crr, inputs);
    }
  }

  lemma WriteKeepsOrder(config: Config, issuerOf: Issuance, cluster: Cluster, inputs: Inputs, write: Write)
    requires ValidConfig(config) && Orderly(config, issuerOf, cluster) && Invariant(config, cluster)
    requires ClockIsSane(cluster, cluster.crr.value, inputs) && ListsSecrets(inputs, cluster)
    requires Guard(config, cluster, cluster.crr.value, inputs, write)
    ensures Orderly(config, issuerOf, Apply(cluster, WriteActions(config, cluster, cluster.crr.value, inputs, write)))
  {
    var crr := cluster.crr.value;
    if IsStatusWrite(write) {
      GuardPhases(config, cluster, crr, inputs, write);
      StatusWriteKeepsOrder(config, issuerOf, cluster, crr, inputs, write);
    } else {
      OtherWriteKeepsOrder(config, issuerOf, cluster, crr, inputs, write);
    }
  }

  lemma SyncKeepsOrder(config: Config, issuerOf: Issuance, cluster: Cluster, inputs: Inputs)
    requires ValidConfig(config) && Orderly(config, issuerOf, cluster) && Invariant(config, cluster)
    requires ClockIsSane(cluster, cluster.crr.value, inputs) && ListsSecrets(inputs, cluster)
    ensures Orderly(config, issuerOf, Sync(config, cluster, inputs))
  {
    if Process(config, cluster, inputs).Emitted? {
      var write := WriteHasGuard(config, cluster, inputs);
      WriteKeepsOrder(config, issuerOf, cluster, inputs, write);
    }
  }

  // ---- how the others respond ----

  /** A marked signer that is saved already is due for rotation. */
  ghost predicate AwaitsRotation(cluster: Cluster, crr: Request)
    requires ValidSignerClass(crr.signerClass)
  {
    Started(crr) && SignerOld(cluster, crr) && SignerMarked(cluster, crr) && crr.status.previousSigner.Some?
  }

  /** A later generation of the signer: a new self-issued certificate that has issued nothing yet. */
  ghost predicate IsRenewal(issuerOf: Issuance, cluster: Cluster, crr: Request, renewed: Secret)
    requires Started(crr) && SignerSound(issuerOf, cluster, crr)
  {
    var current := SignerIssuer(cluster, crr).value;
    && IsSelfIssued(issuerOf, renewed)
    && renewed.tlsCrt.certs[0].notBefore > crr.status.revocationTimestamp.value
    && renewed.tlsCrt.certs[0] !in OtherBundle(cluster, crr).value
    && renewed.issuer.Some?
    && (var issuer := ParseIssuer(renewed.issuer.value);
        issuer.Some? && issuer.value.name == current.name && issuer.value.seconds > current.seconds)
    && forall name :: name in cluster.secrets && LoadPem(cluster.secrets[name].tlsCrt).Loaded? ==>
         issuerOf(LoadPem(cluster.secrets[name].tlsCrt).value[0]) != renewed.tlsCrt.certs[0]
  }

  /** The rotation controller renews a signer that awaits it and adds its certificate to the class bundle. */
  ghost predicate RotatesSigner(issuerOf: Issuance, before: Cluster, crr: Request, after: Cluster)
    requires ValidSignerClass(crr.signerClass) && SignerSound(issuerOf, before, crr)
  {
    && Signer(crr) in after.secrets
    && if AwaitsRotation(before, crr) then
         && IsRenewal(issuerOf, before, crr, after.secrets[Signer(crr)])
         && ClassBundle(after, crr) == Loaded(after.secrets[Signer(crr)].tlsCrt.certs + ClassBundle(before, crr).value)
       else
         && after.secrets[Signer(crr)] == before.secrets[Signer(crr)]
         && ClassBundle(after, crr) == ClassBundle(before, crr)
  }

  /** A leaf issued by the current signer. */
  ghost predicate IsRenewedLeaf(issuerOf: Issuance, signer: Secret, leaf: Secret) {
    && LoadPem(leaf.tlsCrt).Loaded? && LoadPem(signer.tlsCrt).Loaded?
    && issuerOf(LoadPem(leaf.tlsCrt).value[0]) == LoadPem(signer.tlsCrt).value[0]
    && leaf.issuer == signer.issuer
  }

  predicate AwaitsRenewal(secret: Secret, current: Option<Issuer>) {
    current.Some? && secret.forceRegeneration && IssuedByOlder(secret, current.value)
  }

  /** The rotation controller renews marked leaves of older generations and leaves all other secrets alone. */
  ghost predicate RenewsLeaves(issuerOf: Issuance, before: Cluster, crr: Request, after: Cluster)
    requires ValidSignerClass(crr.signerClass)
  {
    && (forall name :: name in after.secrets <==> name in before.secrets)
    && forall name :: name in before.secrets && name in after.secrets && name != Signer(crr) ==>
         if AwaitsRenewal(before.secrets[name], SignerIssuer(after, crr))
         then Signer(crr) in after.secrets && IsRenewedLeaf(issuerOf, after.secrets[Signer(crr)], after.secrets[name])
         else after.secrets[name] == before.secrets[name]
  }

  /** The total bundle is the union of the class bundles. */
  predicate IsPublished(cluster: Cluster, crr: Request)
    requires ValidSignerClass(crr.signerClass)
  {
    && ClassBundle(cluster, crr).Loaded? && OtherBundle(cluster, crr).Loaded?
    && var total := LoadTrustBundle(cluster, TOTAL_CLIENT_CA);
       total.Loaded? && Pool(total.value)
           == Pool(ClassBundle(cluster, crr).value) + Pool(OtherBundle(cluster, crr).value)
  }

  ghost predicate Responds(issuerOf: Issuance, before: Cluster, after: Cluster) {
    && before.crr.Some? && after.crr == before.crr && ValidSignerClass(before.crr.value.signerClass)
    && var crr := before.crr.value;
    && SignerSound(issuerOf, before, crr)
    && RotatesSigner(issuerOf, before, crr, after) && RenewsLeaves(issuerOf, before, crr, after)
    && OtherBundle(after, crr) == OtherBundle(before, crr) && IsPublished(after, crr)
  }

  ghost function NextSigner(cluster: Cluster, crr: Request, renewed: Secret): Secret
    requires ValidSignerClass(crr.signerClass) && Signer(crr) in cluster.secrets
  {
    if AwaitsRotation(cluster, crr) then renewed else cluster.secrets[Signer(crr)]
  }

  ghost function NextBundle(cluster: Cluster, crr: Request, renewed: Secret): seq<Certificate>
    requires ValidSignerClass(crr.signerClass) && ClassBundle(cluster, crr).Loaded? && renewed.tlsCrt.Chain?
  {
    var current := ClassBundle(cluster, crr).value;
    if AwaitsRotation(cluster, crr) then renewed.tlsCrt.certs + current else current
  }

  ghost function NextSecrets(cluster: Cluster, crr: Request, signer: Secret, leaf: Secret): map<string, Secret>
    requires ValidSignerClass(crr.signerClass) && signer.issuer.Some?
  {
    map name | name in cluster.secrets ::
      if name == Signer(crr) then signer
      else if AwaitsRenewal(cluster.secrets[name], ParseIssuer(signer.issuer.value)) then leaf
      else cluster.secrets[name]
  }

  /** The response, given the certificates that the rotation controller makes. */
  ghost function Response(cluster: Cluster, crr: Request, renewed: Secret, leaf: Secret): Cluster
    requires ValidSignerClass(crr.signerClass) && Signer(crr) in cluster.secrets
    requires ClassBundle(cluster, crr).Loaded? && OtherBundle(cluster, crr).Loaded? && renewed.tlsCrt.Chain?
    requires NextSigner(cluster, crr, renewed).issuer.Some?
  {
    var bundle := NextBundle(cluster, crr, renewed);
    cluster.(
      secrets := NextSecrets(cluster, crr, NextSigner(cluster, crr, renewed), leaf),
      bundles := cluster.bundles[ConfigMapForSignerClass(crr.signerClass) := Chain(bundle)]
                                [TOTAL_CLIENT_CA := Chain(bundle + OtherBundle(cluster, crr).value)])
  }

  lemma ResponseBundles(cluster: Cluster, crr: Request, renewed: Secret, leaf: Secret)
    requires ValidSignerClass(crr.signerClass) && Signer(crr) in cluster.secrets
    requires ClassBundle(cluster, crr).Loaded? && OtherBundle(cluster, crr).Loaded? && renewed.tlsCrt.Chain?
    requires NextSigner(cluster, crr, renewed).issuer.Some?
    ensures var after := Response(cluster, crr, renewed, leaf);
            && ClassBundle(after, crr) == Loaded(NextBundle(cluster, crr, renewed))
            && OtherBundle(after, crr) == OtherBundle(cluster, crr) && IsPublished(after, crr)
  {
    ConfigMapsDiffer(crr.signerClass);
    var bundle, other := NextBundle(cluster, crr, renewed), OtherBundle(cluster, crr).value;
    assert Pool(bundle + other) == Pool(bundle) + Pool(other);
  }

  lemma ResponseSecrets(issuerOf: Issuance, cluster: Cluster, crr: Request, renewed: Secret, leaf: Secret)
    requires ValidSignerClass(crr.signerClass) && SignerSound(issuerOf, cluster, crr) && renewed.tlsCrt.Chain?
    requires NextSigner(cluster, crr, renewed).issuer.Some?
    requires IsRenewedLeaf(issuerOf, NextSigner(cluster, crr, renewed), leaf)
    ensures var after := Response(cluster, crr, renewed, leaf);
            && Signer(crr) in after.secrets && after.secrets[Signer(crr)] == NextSigner(cluster, crr, renewed)
            && RenewsLeaves(issuerOf, cluster, crr, after)
  {
    var after := Response(cluster, crr, renewed, leaf);
    assert SignerIssuer(after, crr) == ParseIssuer(NextSigner(cluster, crr, renewed).issuer.value);
  }

  /** A cluster in good order can always be responded to. */
  lemma ResponseResponds(issuerOf: Issuance, cluster: Cluster, crr: Request, renewed: Secret, leaf: Secret)
    requires cluster.crr == Some(crr) && ValidSignerClass(crr.signerClass) && SignerSound(issuerOf, cluster, crr)
    requires renewed.tlsCrt.Chain? && (AwaitsRotation(cluster, crr) ==> IsRenewal(issuerOf, cluster, crr, renewed))
    requires IsRenewedLeaf(issuerOf, NextSigner(cluster, crr, renewed), leaf)
    ensures NextSigner(cluster, crr, renewed).issuer.Some?
    ensures Responds(issuerOf, cluster, Response(cluster, crr, renewed, leaf))
  {
    ResponseBundles(cluster, crr, renewed, leaf);
    ResponseSecrets(issuerOf, cluster, crr, renewed, leaf);
    assert RotatesSigner(issuerOf, cluster, crr, Response(cluster, crr, renewed, leaf));
  }

  /** Nothing marked waits for a renewal, and the bundles are published. */
  ghost predicate Settled(cluster: Cluster, crr: Request)
    requires ValidSignerClass(crr.signerClass)
  {
    && !AwaitsRotation(cluster, crr) && IsPublished(cluster, crr)
    && forall name :: name in cluster.secrets ==> !AwaitsRenewal(cluster.secrets[name], SignerIssuer(cluster, crr))
  }

  lemma ResponseKeepsSigner(issuerOf: Issuance, before: Cluster, after: Cluster)
    requires Responds(issuerOf, before, after)
    ensures SignerSound(issuerOf, after, before.crr.value)
  {
    var crr := before.crr.value;
    if AwaitsRotation(before, crr) {
      var certs := after.secrets[Signer(crr)].tlsCrt.certs;
      assert certs[0] in certs;
    }
  }

  /** The leaves of the previous generation are older than the new one. */
  lemma OlderStaysOlder(issuerOf: Issuance, before: Cluster, after: Cluster, secret: Secret)
    requires Responds(issuerOf, before, after) && AwaitsRotation(before, before.crr.value)
    requires var crr := before.crr.value;
             IssuedByOlder(secret, SignerIssuer(before, crr).value)
                 || secret.issuer == before.secrets[Signer(crr)].issuer
    ensures SignerIssuer(after, before.crr.value).Some?
    ensures IssuedByOlder(secret, SignerIssuer(after, before.crr.value).value)
  {
  }

  lemma RotationKeepsLeaf(issuerOf: Issuance, before: Cluster, after: Cluster, name: string)
    requires Responds(issuerOf, before, after) && AwaitsRotation(before, before.crr.value) && name in before.secrets
    requires SignerSound(issuerOf, after, before.crr.value)
    requires LeafSound(issuerOf, before, before.crr.value, before.secrets[name])
    ensures LeafSound(issuerOf, after, before.crr.value, before.secrets[name])
  {
    var crr, secret := before.crr.value, before.secrets[name];
    if HasLeaf(secret) && LoadPem(secret.tlsCrt).Loaded? {
      var issuer := issuerOf(LoadPem(secret.tlsCrt).value[0]);
      if issuer in ClassBundle(after, crr).value {
        assert issuer in ClassBundle(before, crr).value;
        OlderStaysOlder(issuerOf, before, after, secret);
      }
    }
  }

  lemma UnrotatedKeepsLeaf(issuerOf: Issuance, before: Cluster, after: Cluster, secret: Secret)
    requires Responds(issuerOf, before, after) && !AwaitsRotation(before, before.crr.value)
    requires SignerSound(issuerOf, after, before.crr.value) && LeafSound(issuerOf, before, before.crr.value, secret)
    ensures LeafSound(issuerOf, after, before.crr.value, secret)
  {
  }

  lemma ResponseKeepsLeaf(issuerOf: Issuance, before: Cluster, after: Cluster, name: string)
    requires Responds(issuerOf, before, after) && SecretsSound(issuerOf, before, before.crr.value)
    requires name in after.secrets
    requires SignerSound(issuerOf, after, before.crr.value)
    ensures WellFormedIssuer(after.secrets[name]) && IsReadable(after.secrets[name])
    ensures LeafSound(issuerOf, after, before.crr.value, after.secrets[name])
  {
    var crr := before.crr.value;
    if name != Signer(crr) && !AwaitsRenewal(before.secrets[name], SignerIssuer(after, crr)) {
      assert after.secrets[name] == before.secrets[name];
      assert LeafSound(issuerOf, before, crr, before.secrets[name]);
      if AwaitsRotation(before, crr) {
        RotationKeepsLeaf(issuerOf, before, after, name);
      } else {
        UnrotatedKeepsLeaf(issuerOf, before, after, before.secrets[name]);
      }
    }
  }

  lemma ResponseKeepsCopy(config: Config, issuerOf: Issuance, before: Cluster, after: Cluster)
    requires ValidConfig(config) && Responds(issuerOf, before, after)
    requires CopySound(config, issuerOf, before, before.crr.value)
    ensures var copy := config.copyName(before.crr.value.name);
            (copy in after.secrets <==> copy in before.secrets)
                && (copy in before.secrets ==> after.secrets[copy] == before.secrets[copy])
  {
    CopyIsNotSigner(config, before.crr.value.name, before.crr.value.signerClass);
  }

  lemma ResponseKeepsOrder(config: Config, issuerOf: Issuance, before: Cluster, after: Cluster)
    requires ValidConfig(config) && Orderly(config, issuerOf, before) && Responds(issuerOf, before, after)
    ensures Orderly(config, issuerOf, after)
  {
    var crr := before.crr.value;
    ResponseKeepsSigner(issuerOf, before, after);
    forall name | name in after.secrets
      ensures WellFormedIssuer(after.secrets[name]) && IsReadable(after.secrets[name])
      ensures LeafSound(issuerOf, after, crr, after.secrets[name])
    {
      ResponseKeepsLeaf(issuerOf, before, after, name);
    }
    ResponseKeepsCopy(config, issuerOf, before, after);
    assert SecretsSound(issuerOf, after, crr) && CopySound(config, issuerOf, after, crr);
    assert ReferenceSound(after, crr);
  }

  lemma RenewalIsNew(issuerOf: Issuance, before: Cluster, crr: Request, after: Cluster)
    requires Started(crr) && SignerSound(issuerOf, before, crr) && Signer(crr) in after.secrets
    requires IsRenewal(issuerOf, before, crr, after.secrets[Signer(crr)])
    ensures SignerNew(after, crr)
  {
    assert SignerCerts(after, crr) == Loaded(after.secrets[Signer(crr)].tlsCrt.certs);
  }

  lemma ResponseSettles(issuerOf: Issuance, before: Cluster, after: Cluster)
    requires Responds(issuerOf, before, after)
    ensures Settled(after, before.crr.value)
  {
    var crr := before.crr.value;
    if AwaitsRotation(before, crr) {
      RenewalIsNew(issuerOf, before, crr, after);
    }
    forall name | name in after.secrets
      ensures !AwaitsRenewal(after.secrets[name], SignerIssuer(after, crr))
    {
      if name != Signer(crr) && AwaitsRenewal(before.secrets[name], SignerIssuer(after, crr)) {
        assert after.secrets[name].issuer == after.secrets[Signer(crr)].issuer;
      }
    }
  }

  lemma ResponseIsEnvironmentStep(config: Config, issuerOf: Issuance, before: Cluster, after: Cluster)
    requires ValidConfig(config) && Orderly(config, issuerOf, before) && Responds(issuerOf, before, after)
    ensures EnvironmentStep(config, before, after)
  {
    var crr := before.crr.value;
    ResponseKeepsCopy(config, issuerOf, before, after);
    if Started(crr) && BundleClean(before, crr.signerClass, crr.status.revocationTimestamp.value) {
      ResponseKeepsClean(issuerOf, before, after);
    }
  }

  lemma ResponseKeepsClean(issuerOf: Issuance, before: Cluster, after: Cluster)
    requires Responds(issuerOf, before, after) && Started(before.crr.value)
    ensures var crr := before.crr.value;
            var cutoff := crr.status.revocationTimestamp.value;
            BundleClean(before, crr.signerClass, cutoff) ==> BundleClean(after, crr.signerClass, cutoff)
  {
  }

  // ---- the rank ----

  lemma ResponseKeepsLeafRank(config: Config, issuerOf: Issuance, before: Cluster, after: Cluster)
    requires Orderly(config, issuerOf, before) && Responds(issuerOf, before, after)
    ensures LeafRank(after, before.crr.value) <= LeafRank(before, before.crr.value)
  {
    var crr := before.crr.value;
    ResponseKeepsIssued(issuerOf, before, after);
    UnmarkedAreIssued(after, crr);
    if Started(crr) && SignerNew(before, crr) {
      assert SignerIssuer(after, crr) == SignerIssuer(before, crr);
      assert UnmarkedLeaves(after, crr) <= UnmarkedLeaves(before, crr);
      SubsetSize(UnmarkedLeaves(after, crr), UnmarkedLeaves(before, crr));
    }
  }

  lemma ResponseKeepsIssued(issuerOf: Issuance, before: Cluster, after: Cluster)
    requires Responds(issuerOf, before, after)
    ensures Issued(after) == Issued(before)
  {
    var crr := before.crr.value;
    forall name | name in before.secrets
      ensures before.secrets[name].issuer.Some? <==> after.secrets[name].issuer.Some?
    {
      if name != Signer(crr) && AwaitsRenewal(before.secrets[name], SignerIssuer(after, crr)) {
        assert after.secrets[name].issuer == after.secrets[Signer(crr)].issuer;
      }
    }
  }

  lemma ResponseKeepsTheRank(config: Config, issuerOf: Issuance, before: Cluster, after: Cluster)
    requires ValidConfig(config) && Orderly(config, issuerOf, before) && Responds(issuerOf, before, after)
    ensures Rank(config, after, before.crr.value) <= Rank(config, before, before.crr.value)
    ensures AwaitsRotation(before, before.crr.value) ==>
              Rank(config, after, before.crr.value) < Rank(config, before, before.crr.value)
  {
    var crr := before.crr.value;
    ResponseKeepsLeafRank(config, issuerOf, before, after);
    ResponseKeepsCopy(config, issuerOf, before, after);
    if Started(crr) {
      ResponseKeepsClean(issuerOf, before, after);
      if AwaitsRotation(before, crr) {
        RenewalIsNew(issuerOf, before, crr, after);
      }
    }
  }

  // ---- their answers ----

  /** The API server has loaded what is published. */
  predicate IsPrompt(inputs: Inputs) {
    (inputs.newSignerReply.Skipped? || inputs.newSignerReply.Accepted?)
    && (inputs.oldSignerReply.Skipped? || inputs.oldSignerReply.Unauthorized?)
  }

  lemma NewSignerIsTrusted(config: Config, issuerOf: Issuance, cluster: Cluster, crr: Request, inputs: Inputs)
    requires VerifiesByIssuer(config, issuerOf) && cluster.crr == Some(crr) && Orderly(config, issuerOf, cluster)
    requires Settled(cluster, crr) && IsPrompt(inputs) && Started(crr) && SignerNew(cluster, crr)
    ensures NewSignerTrusted(config, cluster, crr, inputs)
  {
    var cert := cluster.secrets[Signer(crr)].tlsCrt.certs[0];
    var total := LoadTrustBundle(cluster, TOTAL_CLIENT_CA).value;
    assert cert in Pool(ClassBundle(cluster, crr).value);
    assert config.verify(cert, Pool(total), inputs.propagateTime);
  }

  lemma {:induction false} ReadableLeaves(secrets: map<string, Secret>, listing: seq<string>)
    requires forall name :: name in secrets ==> IsReadable(secrets[name])
    ensures ExistingLeaves(secrets, listing).Some?
  {
    if listing == [] {
    } else {
      ReadableLeaves(secrets, listing[1..]);
    }
  }

  /** Once no leaf is of an older generation, all trusted leaves hang on the new signer, which pruning keeps. */
  lemma PruningIsSafe(config: Config, issuerOf: Issuance, cluster: Cluster, crr: Request, inputs: Inputs)
    requires VerifiesByIssuer(config, issuerOf) && cluster.crr == Some(crr) && Orderly(config, issuerOf, cluster)
    requires Started(crr) && SignerNew(cluster, crr) && NoOlderLeaf(cluster, crr)
    ensures !PruningLosesTrust(config, cluster, crr, inputs)
  {
    var current, pruned := ClassBundle(cluster, crr).value, PrunedBundle(cluster, crr);
    var signer := cluster.secrets[Signer(crr)].tlsCrt.certs[0];
    SelectMembers(current, crr.status.revocationTimestamp.value, true);
    assert signer in SignerCerts(cluster, crr).value;
    forall name | name in cluster.secrets
      ensures !LosesTrust(config, cluster.secrets[name], current, pruned, inputs)
    {
      var secret := cluster.secrets[name];
      assert LeafSound(issuerOf, cluster, crr, secret);
      if HasLeaf(secret) && LoadPem(secret.tlsCrt).Loaded? {
        var leaf := LoadPem(secret.tlsCrt).value[0];
        assert config.verify(leaf, Pool(current), inputs.currentTrustTime) <==> issuerOf(leaf) in Pool(current);
        assert config.verify(leaf, Pool(pruned), inputs.futureTrustTime) <==> issuerOf(leaf) in Pool(pruned);
      }
    }
  }

  /** Once the class bundle is pruned, the published union does not hold the saved signer. */
  lemma OldSignerIsRejected(config: Config, issuerOf: Issuance, cluster: Cluster, crr: Request, inputs: Inputs)
    requires VerifiesByIssuer(config, issuerOf) && cluster.crr == Some(crr) && Orderly(config, issuerOf, cluster)
    requires RequestInvariant(config, cluster, crr) && Settled(cluster, crr) && IsPrompt(inputs)
    requires Started(crr) && crr.status.previousSigner.Some? && BundlePruned(cluster, crr)
    ensures OldSignerRejected(config, cluster, crr, inputs)
  {
    var saved := cluster.secrets[config.copyName(crr.name)].tlsCrt.certs[0];
    var total := LoadTrustBundle(cluster, TOTAL_CLIENT_CA).value;
    assert saved !in Pool(ClassBundle(cluster, crr).value) && saved !in Pool(OtherBundle(cluster, crr).value);
    assert !config.verify(saved, Pool(total), inputs.revokeTime);
  }

  /** Settled others have answered everything the protocol waits for. */
  lemma SettledIsAnswered(config: Config, issuerOf: Issuance, cluster: Cluster, crr: Request, inputs: Inputs)
    requires VerifiesByIssuer(config, issuerOf) && cluster.crr == Some(crr) && Orderly(config, issuerOf, cluster)
    requires RequestInvariant(config, cluster, crr) && Settled(cluster, crr) && IsPrompt(inputs)
    ensures Answered(config, cluster, crr, inputs)
  {
    if Started(crr) && SignerNew(cluster, crr) {
      NewSignerIsTrusted(config, issuerOf, cluster, crr, inputs);
      ReadableLeaves(cluster.secrets, inputs.listing);
      if NoOlderLeaf(cluster, crr) {
        PruningIsSafe(config, issuerOf, cluster, crr, inputs);
      }
      if BundlePruned(cluster, crr) {
        OldSignerIsRejected(config, issuerOf, cluster, crr, inputs);
      }
      assert LeavesAnswered(cluster, crr) && BundleAnswered(config, cluster, crr, inputs);
    }
  }

  // ---- completion ----

  /** A sync, and then the others' response. */
  ghost predicate CooperativeRound(
      config: Config, issuerOf: Issuance, before: Cluster, inputs: Inputs, after: Cluster)
  {
    && before.crr.Some? && ValidSignerClass(before.crr.value.signerClass)
    && ListsSecrets(inputs, before) && IsPrompt(inputs) && ClockIsSane(before, before.crr.value, inputs)
    && Responds(issuerOf, Sync(config, before, inputs), after)
  }

  ghost predicate Ready(config: Config, issuerOf: Issuance, cluster: Cluster) {
    Invariant(config, cluster) && Orderly(config, issuerOf, cluster) && Settled(cluster, cluster.crr.value)
  }

  lemma CooperativeRoundIsRound(config: Config, issuerOf: Issuance, before: Cluster, inputs: Inputs, after: Cluster)
    requires ValidConfig(config) && VerifiesByIssuer(config, issuerOf) && Ready(config, issuerOf, before)
    requires CooperativeRound(config, issuerOf, before, inputs, after)
    ensures Round(config, before, inputs, after) && Ready(config, issuerOf, after)
  {
    var synced := Sync(config, before, inputs);
    SyncKeeps(config, before, inputs);
    SyncKeepsOrder(config, issuerOf, before, inputs);
    ResponseKeepsOrder(config, issuerOf, synced, after);
    ResponseSettles(issuerOf, synced, after);
    ResponseIsEnvironmentStep(config, issuerOf, synced, after);
    ResponseKeepsTheRank(config, issuerOf, synced, after);
    SettledIsAnswered(config, issuerOf, before, before.crr.value, inputs);
    StepKeeps(config, synced, Environment, after);
  }

  ghost predicate AreCooperativeRounds(config: Config, issuerOf: Issuance, states: seq<Cluster>, rounds: seq<Inputs>) {
    && |states| == |rounds| + 1
    && forall k {:trigger rounds[k]} :: 0 <= k < |rounds| ==>
        CooperativeRound(config, issuerOf, states[k], rounds[k], states[k + 1])
  }

  lemma RoundAt(config: Config, issuerOf: Issuance, states: seq<Cluster>, rounds: seq<Inputs>, i: nat)
    requires ValidConfig(config) && VerifiesByIssuer(config, issuerOf)
    requires AreCooperativeRounds(config, issuerOf, states, rounds)
    requires i < |rounds| && Ready(config, issuerOf, states[i])
    ensures Round(config, states[i], rounds[i], states[i + 1]) && Ready(config, issuerOf, states[i + 1])
  {
    var inputs := rounds[i];
    CooperativeRoundIsRound(config, issuerOf, states[i], inputs, states[i + 1]);
  }

  lemma {:induction false} StaysReady(
      config: Config, issuerOf: Issuance, states: seq<Cluster>, rounds: seq<Inputs>, i: nat, j: nat)
    requires ValidConfig(config) && VerifiesByIssuer(config, issuerOf)
    requires AreCooperativeRounds(config, issuerOf, states, rounds)
    requires i <= j < |states| && Ready(config, issuerOf, states[i])
    ensures Ready(config, issuerOf, states[j])
    decreases j - i
  {
    if i < j {
      RoundAt(config, issuerOf, states, rounds, i);
      StaysReady(config, issuerOf, states, rounds, i + 1, j);
    }
  }

  /**
    From a cluster in good order, with others that respond to every sync, the revocation is recorded
    as complete within as many rounds as the rank, that is, ten plus the issued certificates.
   */
  lemma CooperationCompletes(config: Config, issuerOf: Issuance, states: seq<Cluster>, rounds: seq<Inputs>)
    returns (done: nat)
    requires ValidConfig(config) && VerifiesByIssuer(config, issuerOf)
    requires AreCooperativeRounds(config, issuerOf, states, rounds)
    requires Ready(config, issuerOf, states[0]) && |rounds| >= 10 + |Issued(states[0])|
    ensures done <= 10 + |Issued(states[0])| && done < |states|
    ensures states[done].crr.Some? && Recorded(states[done].crr.value.status, PreviousCertificatesRevoked)
  {
    forall k {:trigger rounds[k]} | 0 <= k < |rounds|
      ensures Round(config, states[k], rounds[k], states[k + 1])
    {
      StaysReady(config, issuerOf, states, rounds, 0, k);
      RoundAt(config, issuerOf, states, rounds, k);
    }
    RankBound(config, states[0], states[0].crr.value);
    done := CompletesWithinRank(config, states, rounds);
  }
}
