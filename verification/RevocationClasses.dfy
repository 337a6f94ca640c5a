/**
  Which objects a revocation reads and writes, by name: the signer and the CA bundle of its own
  class, and nothing of the other class.
 */
module RevocationClasses {
  import opened Common
  import opened Certificates
  import opened Revocation
  import opened RevocationSafety
  import opened RevocationProgress

  /** A signer class, its signer secret and its CA bundle. */
  predicate BelongTogether(signerClass: string, signer: string, bundle: string) {
    || (signerClass == "customer-break-glass"
        && signer == "customer-system-admin-signer" && bundle == "customer-system-admin-signer-ca")
    || (signerClass == "sre-break-glass"
        && signer == "sre-system-admin-signer" && bundle == "sre-system-admin-signer-ca")
  }

  lemma ClassNames(signerClass: string, signer: string, bundle: string)
    requires BelongTogether(signerClass, signer, bundle)
    ensures ValidSignerClass(signerClass)
    ensures SecretForSignerClass(signerClass) == signer && ConfigMapForSignerClass(signerClass) == bundle
  {
    assert |"customer-break-glass"| == 20 && |"sre-break-glass"| == 15;
  }

  ghost predicate IsSync(config: Config, cluster: Cluster, inputs: Inputs, signer: string, bundle: string) {
    && cluster.crr.Some? && ListsSecrets(inputs, cluster)
    && BelongTogether(cluster.crr.value.signerClass, signer, bundle)
  }

  /** The signer is there and holds a certificate that is valid from the cutoff or earlier. */
  ghost predicate IsOutdated(cluster: Cluster, signer: string, cutoff: Option<Instant>) {
    && cutoff.Some? && signer in cluster.secrets
    && var chain := cluster.secrets[signer].tlsCrt;
       chain.Chain? && exists i :: 0 <= i < |chain.certs| && chain.certs[i].notBefore <= cutoff.value
  }

  lemma OutdatedIsOld(cluster: Cluster, crr: Request, signer: string, bundle: string)
    requires BelongTogether(crr.signerClass, signer, bundle)
    ensures IsOutdated(cluster, signer, crr.status.revocationTimestamp) <==>
            Started(crr) && SignerOld(cluster, crr)
  {
    ClassNames(crr.signerClass, signer, bundle);
    if IsOutdated(cluster, signer, crr.status.revocationTimestamp) {
      var certs := cluster.secrets[signer].tlsCrt.certs;
      var i :| 0 <= i < |certs| && certs[i].notBefore <= crr.status.revocationTimestamp.value;
      assert certs[i] in certs && !After(certs[i], crr.status.revocationTimestamp.value);
    }
  }

  // ---- what is copied, marked and pruned ----

  function Copying(copy: string, secret: Secret): Outcome {
    Emitted(Actions(None, Some((copy, CopySigner(secret.tlsCrt, secret.tlsKey, secret.inspection))), None))
  }

  function Marking(name: string): Outcome {
    Emitted(Actions(None, Some((name, MarkForRegeneration)), None))
  }

  predicate IsCopying(outcome: Outcome) {
    outcome.Emitted? && outcome.actions.secret.Some? && outcome.actions.secret.value.1.CopySigner?
  }

  /** A sync copies a secret exactly if its own class's signer is outdated and not copied yet, and copies that one. */
  lemma CopiesOwnSigner(config: Config, cluster: Cluster, inputs: Inputs, signer: string, bundle: string)
    requires IsSync(config, cluster, inputs, signer, bundle)
    ensures var crr := cluster.crr.value;
            var outcome := Process(config, cluster, inputs);
            && (IsCopying(outcome) <==>
                  IsOutdated(cluster, signer, crr.status.revocationTimestamp)
                  && config.copyName(crr.name) !in cluster.secrets)
            && (IsCopying(outcome) ==> outcome == Copying(config.copyName(crr.name), cluster.secrets[signer]))
  {
    var crr := cluster.crr.value;
    ClassNames(crr.signerClass, signer, bundle);
    OutdatedIsOld(cluster, crr, signer, bundle);
    if Guard(config, cluster, crr, inputs, CopyOldSigner) {
      GuardDecides(config, cluster, inputs, CopyOldSigner);
    } else if Process(config, cluster, inputs).Emitted? {
      var write := WriteHasGuard(config, cluster, inputs);
    }
  }

  /** It marks its own class's signer exactly if that is outdated, copied, referred to and not marked yet. */
  lemma MarksOwnSigner(config: Config, cluster: Cluster, inputs: Inputs, signer: string, bundle: string)
    requires IsSync(config, cluster, inputs, signer, bundle)
    ensures var crr := cluster.crr.value;
            Process(config, cluster, inputs) == Marking(signer) <==>
            && IsOutdated(cluster, signer, crr.status.revocationTimestamp)
            && config.copyName(crr.name) in cluster.secrets && crr.status.previousSigner.Some?
            && !cluster.secrets[signer].forceRegeneration
  {
    var crr := cluster.crr.value;
    ClassNames(crr.signerClass, signer, bundle);
    OutdatedIsOld(cluster, crr, signer, bundle);
    if Guard(config, cluster, crr, inputs, MarkSigner) {
      GuardDecides(config, cluster, inputs, MarkSigner);
    } else if Process(config, cluster, inputs) == Marking(signer) {
      var write := WriteHasGuard(config, cluster, inputs);
      SignerIsNoOldLeaf(config, cluster, crr, inputs, signer, bundle, write);
    }
  }

  lemma SignerIsNoOldLeaf(
      config: Config, cluster: Cluster, crr: Request, inputs: Inputs, signer: string, bundle: string, write: Write)
    requires BelongTogether(crr.signerClass, signer, bundle)
    requires Due(config, cluster, crr, inputs, write) && write.MarkLeaf?
    ensures IsOlderLeaf(cluster, signer, write.name) && write.name != signer
  {
    ClassNames(crr.signerClass, signer, bundle);
    ScanLeavesMeaning(cluster.secrets, inputs.listing, SignerIssuer(cluster, crr).value);
  }

  /** Issued by the same name as the signer's certificate, and by an earlier generation. */
  predicate IsOlderLeaf(cluster: Cluster, signer: string, name: string) {
    && signer in cluster.secrets && cluster.secrets[signer].issuer.Some?
    && name in cluster.secrets && cluster.secrets[name].issuer.Some?
    && var current, issuer := ParseIssuer(cluster.secrets[signer].issuer.value),
         ParseIssuer(cluster.secrets[name].issuer.value);
       current.Some? && issuer.Some? && issuer.value.name == current.value.name
       && issuer.value.seconds < current.value.seconds
  }

  /** Whatever else it marks is an older leaf of that signer, and the bundle it prunes is its own class's. */
  lemma WritesOwnClass(config: Config, cluster: Cluster, inputs: Inputs, signer: string, bundle: string)
    requires IsSync(config, cluster, inputs, signer, bundle)
    ensures var outcome := Process(config, cluster, inputs);
            && (outcome.Emitted? && outcome.actions.cm.Some? ==> outcome.actions.cm.value.0 == bundle)
            && (forall name :: outcome == Marking(name) ==> name == signer || IsOlderLeaf(cluster, signer, name))
            && (outcome.Emitted? && outcome.actions.secret.Some? && !IsCopying(outcome) ==>
                  outcome == Marking(outcome.actions.secret.value.0))
  {
    var crr := cluster.crr.value;
    ClassNames(crr.signerClass, signer, bundle);
    if Process(config, cluster, inputs).Emitted? {
      var write := WriteHasGuard(config, cluster, inputs);
      if write.MarkLeaf? {
        SignerIsNoOldLeaf(config, cluster, crr, inputs, signer, bundle, write);
      }
    }
  }

  // ---- isolation ----

  ghost predicate SameSecret(before: Cluster, after: Cluster, name: string) {
    && (name in before.secrets <==> name in after.secrets)
    && (name in before.secrets ==> after.secrets[name] == before.secrets[name])
  }

  ghost predicate SameBundle(before: Cluster, after: Cluster, name: string) {
    && (name in before.bundles <==> name in after.bundles)
    && (name in before.bundles ==> after.bundles[name] == before.bundles[name])
  }

  /** The copy, the signer, or an older leaf of it. */
  predicate Concerns(config: Config, cluster: Cluster, signer: string, name: string)
    requires cluster.crr.Some?
  {
    name == config.copyName(cluster.crr.value.name) || name == signer || IsOlderLeaf(cluster, signer, name)
  }

  /** A sync changes nothing but its request's status, the copy, its signer, older leaves of it and its bundle. */
  lemma TouchesOwnClassOnly(config: Config, cluster: Cluster, inputs: Inputs, signer: string, bundle: string)
    requires IsSync(config, cluster, inputs, signer, bundle)
    ensures var after := Sync(config, cluster, inputs);
            && (forall name :: name != bundle ==> SameBundle(cluster, after, name))
            && (forall name :: !Concerns(config, cluster, signer, name) ==> SameSecret(cluster, after, name))
            && after.crr.Some? && after.crr.value.(status := cluster.crr.value.status) == cluster.crr.value
  {
    CopiesOwnSigner(config, cluster, inputs, signer, bundle);
    WritesOwnClass(config, cluster, inputs, signer, bundle);
    var outcome := Process(config, cluster, inputs);
    if outcome.Emitted? && outcome.actions.crr.None? && outcome.actions.secret.Some? {
      var name := outcome.actions.secret.value.0;
      assert Concerns(config, cluster, signer, name);
    }
  }

  /**
    Revoking one class leaves the other class's bundle alone. Its signer is at most marked for
    regeneration, and that exactly if it is not marked yet and comes up as a leaf of an older
    generation of the revoked signer.
   */
  lemma OtherClassUntouched(
      config: Config, cluster: Cluster, inputs: Inputs, signer: string, bundle: string, otherClass: string,
      otherSigner: string, otherBundle: string)
    requires ValidConfig(config) && IsSync(config, cluster, inputs, signer, bundle)
    requires BelongTogether(otherClass, otherSigner, otherBundle) && otherClass != cluster.crr.value.signerClass
    ensures var after := Sync(config, cluster, inputs);
            && SameBundle(cluster, after, otherBundle)
            && (SameSecret(cluster, after, otherSigner) <==>
                  !(Guard(config, cluster, cluster.crr.value, inputs, MarkLeaf(otherSigner))
                    && otherSigner in cluster.secrets && !cluster.secrets[otherSigner].forceRegeneration))
            && (!SameSecret(cluster, after, otherSigner) ==>
                  && IsOlderLeaf(cluster, signer, otherSigner) && otherSigner in after.secrets
                  && after.secrets[otherSigner] == cluster.secrets[otherSigner].(forceRegeneration := true))
  {
    OtherNames(cluster.crr.value.signerClass, signer, bundle, otherClass, otherSigner, otherBundle);
    TouchesOwnClassOnly(config, cluster, inputs, signer, bundle);
    CopyIsNotSigner(config, cluster.crr.value.name, otherClass);
    if Guard(config, cluster, cluster.crr.value, inputs, MarkLeaf(otherSigner)) {
      GuardDecides(config, cluster, inputs, MarkLeaf(otherSigner));
    }
    if !SameSecret(cluster, Sync(config, cluster, inputs), otherSigner) {
      OtherSignerMarked(config, cluster, inputs, signer, bundle, otherSigner);
    }
  }

  lemma OtherNames(
      signerClass: string, signer: string, bundle: string, otherClass: string, otherSigner: string,
      otherBundle: string)
    requires BelongTogether(signerClass, signer, bundle) && BelongTogether(otherClass, otherSigner, otherBundle)
    requires signerClass != otherClass
    ensures signer != otherSigner && bundle != otherBundle
    ensures ValidSignerClass(otherClass) && SecretForSignerClass(otherClass) == otherSigner
  {
    ClassNames(otherClass, otherSigner, otherBundle);
    assert |"customer-system-admin-signer"| == 28 && |"sre-system-admin-signer"| == 23;
    assert |"customer-system-admin-signer-ca"| == 31 && |"sre-system-admin-signer-ca"| == 26;
  }

  /** A secret that is neither copy nor signer changes only by being marked as a leaf. */
  lemma OtherSignerMarked(
      config: Config, cluster: Cluster, inputs: Inputs, signer: string, bundle: string, name: string)
    requires IsSync(config, cluster, inputs, signer, bundle)
    requires name != signer && name != config.copyName(cluster.crr.value.name)
    requires !SameSecret(cluster, Sync(config, cluster, inputs), name)
    ensures Guard(config, cluster, cluster.crr.value, inputs, MarkLeaf(name))
    ensures name in cluster.secrets && !cluster.secrets[name].forceRegeneration
    ensures Process(config, cluster, inputs) == Marking(name)
  {
    var write := WriteHasGuard(config, cluster, inputs);
    ClassNames(cluster.crr.value.signerClass, signer, bundle);
  }

  // ---- completion ----

  ghost predicate HasTrueCondition(conditions: seq<Condition>, kind: ConditionType) {
    exists i :: 0 <= i < |conditions| && conditions[i].kind == kind && conditions[i].status
  }

  lemma RecordedMeaning(status: Status, kind: ConditionType)
    ensures Recorded(status, kind) <==> HasTrueCondition(status.conditions, kind)
  {
    if Recorded(status, kind) {
      var condition :| condition in status.conditions && condition.kind == kind && condition.status;
      var i :| 0 <= i < |status.conditions| && status.conditions[i] == condition;
    }
  }

  /** The certificates under a name: of a secret's chain, or of a bundle. */
  ghost predicate HoldsOnlyNewer(pem: Pem, cutoff: Instant) {
    pem.Chain? && pem.certs != [] && forall i :: 0 <= i < |pem.certs| ==> pem.certs[i].notBefore > cutoff
  }

  lemma HoldsOnlyNewerMeaning(pem: Pem, cutoff: Instant)
    ensures HoldsOnlyNewer(pem, cutoff) <==> LoadPem(pem).Loaded? && AllAfter(LoadPem(pem).value, cutoff)
  {
    if pem.Chain? && AllAfter(pem.certs, cutoff) {
      forall i | 0 <= i < |pem.certs|
        ensures pem.certs[i].notBefore > cutoff
      {
        assert pem.certs[i] in pem.certs;
      }
    }
  }

  /** The named certificate verifies against the certificates of the total bundle. */
  ghost predicate VerifiesInTotal(config: Config, cluster: Cluster, name: string, now: Instant)
    requires name in cluster.secrets && cluster.secrets[name].tlsCrt.Chain? && cluster.secrets[name].tlsCrt.certs != []
    requires "total-client-ca" in cluster.bundles && cluster.bundles["total-client-ca"].Chain?
  {
    var total := cluster.bundles["total-client-ca"].certs;
    config.verify(cluster.secrets[name].tlsCrt.certs[0], set i | 0 <= i < |total| :: total[i], now)
  }

  ghost predicate IsComplete(
      config: Config, cluster: Cluster, inputs: Inputs, signer: string, bundle: string, saved: string, cutoff: Instant)
  {
    && signer in cluster.secrets && cluster.secrets[signer].tlsKey && saved in cluster.secrets
    && HoldsOnlyNewer(cluster.secrets[signer].tlsCrt, cutoff)
    && cluster.secrets[saved].tlsKey
    && cluster.secrets[saved].tlsCrt.Chain? && cluster.secrets[saved].tlsCrt.certs != []
    && bundle in cluster.bundles && HoldsOnlyNewer(cluster.bundles[bundle], cutoff)
    && "total-client-ca" in cluster.bundles && cluster.bundles["total-client-ca"].Chain?
    && cluster.bundles["total-client-ca"].certs != []
    && VerifiesInTotal(config, cluster, signer, inputs.propagateTime)
    && !VerifiesInTotal(config, cluster, saved, inputs.revokeTime)
    && (inputs.newSignerReply.Skipped? || inputs.newSignerReply.Accepted?)
    && (inputs.oldSignerReply.Skipped? || inputs.oldSignerReply.Unauthorized?)
    && LeavesAreCurrent(cluster, signer)
  }

  ghost predicate LeavesAreCurrent(cluster: Cluster, signer: string)
    requires signer in cluster.secrets
  {
    && cluster.secrets[signer].issuer.Some?
    && forall name :: name in cluster.secrets && cluster.secrets[name].issuer.Some? ==>
         ParseIssuer(cluster.secrets[name].issuer.value).Some? && !IsOlderLeaf(cluster, signer, name)
  }

  lemma LeavesAreCurrentMeaning(cluster: Cluster, crr: Request, signer: string, bundle: string)
    requires BelongTogether(crr.signerClass, signer, bundle) && signer in cluster.secrets
    ensures ValidSignerClass(crr.signerClass)
    ensures LeavesAreCurrent(cluster, signer) <==> NoOlderLeaf(cluster, crr)
  {
    ClassNames(crr.signerClass, signer, bundle);
    assert ParseIssuer("").None?;
  }

  lemma CompleteMeaning(
      config: Config, cluster: Cluster, crr: Request, inputs: Inputs, signer: string, bundle: string)
    requires BelongTogether(crr.signerClass, signer, bundle) && Started(crr)
    ensures RevocationComplete(config, cluster, crr, inputs) <==>
            crr.status.previousSigner.Some?
            && IsComplete(config, cluster, inputs, signer, bundle, crr.status.previousSigner.value,
                          crr.status.revocationTimestamp.value)
  {
    ClassNames(crr.signerClass, signer, bundle);
    if signer in cluster.secrets {
      LeavesAreCurrentMeaning(cluster, crr, signer, bundle);
      HoldsOnlyNewerMeaning(cluster.secrets[signer].tlsCrt, crr.status.revocationTimestamp.value);
    }
    if bundle in cluster.bundles {
      HoldsOnlyNewerMeaning(cluster.bundles[bundle], crr.status.revocationTimestamp.value);
    }
    if "total-client-ca" in cluster.bundles && cluster.bundles["total-client-ca"].Chain? {
      var total := cluster.bundles["total-client-ca"].certs;
      assert Pool(total) == set i | 0 <= i < |total| :: total[i];
    }
  }

  /**
    A sync declares the revocation complete exactly if the three phases before are recorded, the
    class's own signer and bundle hold newer certificates only, no older leaf is left, and the total
    bundle verifies the new signer and not the saved one.
   */
  lemma CompletesExactlyWhen(config: Config, cluster: Cluster, inputs: Inputs, signer: string, bundle: string)
    requires IsSync(config, cluster, inputs, signer, bundle)
    ensures var status := cluster.crr.value.status;
            EmitsTruth(config, cluster, inputs, PreviousCertificatesRevoked) <==>
            && HasTrueCondition(status.conditions, RootCertificatesRegenerated)
            && HasTrueCondition(status.conditions, NewCertificatesTrusted)
            && HasTrueCondition(status.conditions, LeafCertificatesRegenerated)
            && !HasTrueCondition(status.conditions, PreviousCertificatesRevoked)
            && status.revocationTimestamp.Some? && status.previousSigner.Some?
            && IsComplete(config, cluster, inputs, signer, bundle, status.previousSigner.value,
                          status.revocationTimestamp.value)
  {
    var crr := cluster.crr.value;
    ClassNames(crr.signerClass, signer, bundle);
    RevokedExactlyWhenComplete(config, cluster, inputs);
    RecordedMeaning(crr.status, RootCertificatesRegenerated);
    RecordedMeaning(crr.status, NewCertificatesTrusted);
    RecordedMeaning(crr.status, LeafCertificatesRegenerated);
    RecordedMeaning(crr.status, PreviousCertificatesRevoked);
    if Started(crr) {
      CompleteMeaning(config, cluster, crr, inputs, signer, bundle);
    }
  }
}
