/**
  What a sync of the revocation controller may conclude from the state it observes. Each of its
  twelve possible writes has a guard in terms of the protocol (is the signer new, is it trusted,
  is a leaf left over, is the bundle pruned), and a sync performs a write exactly under its guard.
 */
module RevocationSafety {
  import opened Common
  import opened Certificates
  import opened Revocation

  // ---- the facts the protocol turns on ----

  ghost predicate Started(crr: Request) {
    ValidSignerClass(crr.signerClass) && crr.status.revocationTimestamp.Some?
  }

  function SignerCerts(cluster: Cluster, crr: Request): Load<seq<Certificate>>
    requires ValidSignerClass(crr.signerClass)
  {
    LoadCertificateSecret(cluster, SecretForSignerClass(crr.signerClass))
  }

  function ClassBundle(cluster: Cluster, crr: Request): Load<seq<Certificate>>
    requires ValidSignerClass(crr.signerClass)
  {
    LoadTrustBundle(cluster, ConfigMapForSignerClass(crr.signerClass))
  }

  ghost predicate SignerNew(cluster: Cluster, crr: Request)
    requires Started(crr)
  {
    SignerCerts(cluster, crr).Loaded? && AllAfter(SignerCerts(cluster, crr).value, crr.status.revocationTimestamp.value)
  }

  ghost predicate SignerOld(cluster: Cluster, crr: Request)
    requires Started(crr)
  {
    SignerCerts(cluster, crr).Loaded?
        && !AllAfter(SignerCerts(cluster, crr).value, crr.status.revocationTimestamp.value)
  }

  /** The total bundle verifies the new signer and the API server does not refuse it. */
  ghost predicate NewSignerTrusted(config: Config, cluster: Cluster, crr: Request, inputs: Inputs)
    requires Started(crr)
  {
    var total := LoadTrustBundle(cluster, TOTAL_CLIENT_CA);
    && SignerNew(cluster, crr)
    && cluster.secrets[SecretForSignerClass(crr.signerClass)].tlsKey
    && total.Loaded?
    && config.verify(SignerCerts(cluster, crr).value[0], Pool(total.value), inputs.propagateTime)
    && (inputs.newSignerReply.Skipped? || inputs.newSignerReply.Accepted?)
  }

  /** A secret issued by an older generation of the current signer. */
  predicate IssuedByOlder(secret: Secret, current: Issuer) {
    && secret.issuer.Some?
    && var issuer := ParseIssuer(secret.issuer.value);
       issuer.Some? && issuer.value.name == current.name && issuer.value.seconds < current.seconds
  }

  predicate WellFormedIssuer(secret: Secret) {
    secret.issuer.Some? ==> ParseIssuer(secret.issuer.value).Some?
  }

  function SignerIssuer(cluster: Cluster, crr: Request): Option<Issuer>
    requires ValidSignerClass(crr.signerClass)
  {
    ParseIssuer(CurrentIssuer(cluster, SecretForSignerClass(crr.signerClass)))
  }

  ghost predicate NoOlderLeaf(cluster: Cluster, crr: Request)
    requires ValidSignerClass(crr.signerClass)
  {
    && SignerIssuer(cluster, crr).Some?
    && forall name :: name in cluster.secrets ==>
         WellFormedIssuer(cluster.secrets[name])
             && !IssuedByOlder(cluster.secrets[name], SignerIssuer(cluster, crr).value)
  }

  ghost predicate BundlePruned(cluster: Cluster, crr: Request)
    requires Started(crr)
  {
    ClassBundle(cluster, crr).Loaded? && AllAfter(ClassBundle(cluster, crr).value, crr.status.revocationTimestamp.value)
  }

  ghost predicate BundleUnpruned(cluster: Cluster, crr: Request)
    requires Started(crr)
  {
    ClassBundle(cluster, crr).Loaded?
        && !AllAfter(ClassBundle(cluster, crr).value, crr.status.revocationTimestamp.value)
  }

  function PrunedBundle(cluster: Cluster, crr: Request): seq<Certificate>
    requires Started(crr) && ClassBundle(cluster, crr).Loaded?
  {
    Select(ClassBundle(cluster, crr).value, crr.status.revocationTimestamp.value, true)
  }

  predicate HasLeaf(secret: Secret) {
    && !secret.tlsCrt.Absent?
    && secret.inspection.Inspected?
    && exists pair :: pair in secret.inspection.pairs && IsLeafCertificate(pair)
  }

  /** The secret holds a leaf that verifies against the one bundle and not against the other. */
  predicate LosesTrust(
      config: Config, secret: Secret, current: seq<Certificate>, pruned: seq<Certificate>, inputs: Inputs)
  {
    && HasLeaf(secret)
    && LoadPem(secret.tlsCrt).Loaded?
    && config.verify(LoadPem(secret.tlsCrt).value[0], Pool(current), inputs.currentTrustTime)
    && !config.verify(LoadPem(secret.tlsCrt).value[0], Pool(pruned), inputs.futureTrustTime)
  }

  ghost predicate PruningLosesTrust(config: Config, cluster: Cluster, crr: Request, inputs: Inputs)
    requires Started(crr) && ClassBundle(cluster, crr).Loaded?
  {
    exists name :: name in cluster.secrets
      && LosesTrust(config, cluster.secrets[name], ClassBundle(cluster, crr).value, PrunedBundle(cluster, crr), inputs)
  }

  /** The total bundle does not verify the saved signer and the API server does not accept it. */
  predicate OldSignerRejected(config: Config, cluster: Cluster, crr: Request, inputs: Inputs) {
    && crr.status.previousSigner.Some?
    && var saved := LoadCertificateSecret(cluster, crr.status.previousSigner.value);
       var total := LoadTrustBundle(cluster, TOTAL_CLIENT_CA);
       && saved.Loaded? && total.Loaded?
       && cluster.secrets[crr.status.previousSigner.value].tlsKey
       && !config.verify(saved.value[0], Pool(total.value), inputs.revokeTime)
       && (inputs.oldSignerReply.Skipped? || inputs.oldSignerReply.Unauthorized?)
  }

  // ---- the writes and their guards ----

  datatype Write =
    | ReportUnknownClass
    | CommitTimestamp
    | CopyOldSigner
    | RecordCopy
    | MarkSigner
    | RecordNewSigner
    | RecordTrust
    | MarkLeaf(name: string)
    | ReportStaleLeaves
    | PruneBundle
    | RecordPruned
    | RecordRevoked

  ghost predicate TrustRecorded(config: Config, cluster: Cluster, crr: Request, inputs: Inputs)
    requires Started(crr)
  {
    && NewSignerTrusted(config, cluster, crr, inputs)
    && Recorded(crr.status, RootCertificatesRegenerated)
    && Recorded(crr.status, NewCertificatesTrusted)
  }

  /** The earlier steps all hand off. */
  ghost predicate Reached(config: Config, cluster: Cluster, crr: Request, inputs: Inputs, write: Write) {
    match write
    case ReportUnknownClass => true
    case CommitTimestamp => true
    case CopyOldSigner => true
    case RecordCopy => true
    case MarkSigner => true
    case RecordNewSigner => true
    case RecordTrust => Started(crr) && SignerNew(cluster, crr) && Recorded(crr.status, RootCertificatesRegenerated)
    case MarkLeaf(_) => Started(crr) && TrustRecorded(config, cluster, crr, inputs)
    case ReportStaleLeaves => Started(crr) && TrustRecorded(config, cluster, crr, inputs) && NoOlderLeaf(cluster, crr)
    case PruneBundle => Started(crr) && TrustRecorded(config, cluster, crr, inputs) && NoOlderLeaf(cluster, crr)
    case RecordPruned => Started(crr) && TrustRecorded(config, cluster, crr, inputs) && NoOlderLeaf(cluster, crr)
    case RecordRevoked =>
      Started(crr) && TrustRecorded(config, cluster, crr, inputs) && NoOlderLeaf(cluster, crr)
      && BundlePruned(cluster, crr) && Recorded(crr.status, LeafCertificatesRegenerated)
  }

  /** The step itself calls for the write. */
  ghost predicate Due(config: Config, cluster: Cluster, crr: Request, inputs: Inputs, write: Write) {
    match write
    case ReportUnknownClass => !ValidSignerClass(crr.signerClass)
    case CommitTimestamp => ValidSignerClass(crr.signerClass) && crr.status.revocationTimestamp.None?
    case CopyOldSigner =>
      Started(crr) && SignerOld(cluster, crr) && config.copyName(crr.name) !in cluster.secrets
    case RecordCopy =>
      Started(crr) && (SignerOld(cluster, crr) || SignerCerts(cluster, crr).NotFound?)
      && config.copyName(crr.name) in cluster.secrets && crr.status.previousSigner.None?
    case MarkSigner =>
      Started(crr) && SignerOld(cluster, crr)
      && config.copyName(crr.name) in cluster.secrets && crr.status.previousSigner.Some?
      && !cluster.secrets[SecretForSignerClass(crr.signerClass)].forceRegeneration
    case RecordNewSigner =>
      Started(crr) && SignerNew(cluster, crr) && crr.status.previousSigner.Some?
      && !Recorded(crr.status, RootCertificatesRegenerated)
    case RecordTrust =>
      Started(crr) && NewSignerTrusted(config, cluster, crr, inputs) && crr.status.previousSigner.Some?
      && !Recorded(crr.status, NewCertificatesTrusted)
    case MarkLeaf(name) =>
      Started(crr) && SignerIssuer(cluster, crr).Some?
      && ScanLeaves(cluster.secrets, inputs.listing, SignerIssuer(cluster, crr).value) == StaleLeaf(name)
    case ReportStaleLeaves =>
      Started(crr) && BundleUnpruned(cluster, crr) && ExistingLeaves(cluster.secrets, inputs.listing).Some?
      && PruningLosesTrust(config, cluster, crr, inputs) && crr.status.previousSigner.Some?
    case PruneBundle =>
      Started(crr) && BundleUnpruned(cluster, crr) && ExistingLeaves(cluster.secrets, inputs.listing).Some?
      && !PruningLosesTrust(config, cluster, crr, inputs)
    case RecordPruned =>
      Started(crr) && BundlePruned(cluster, crr) && crr.status.previousSigner.Some?
      && !Recorded(crr.status, LeafCertificatesRegenerated)
    case RecordRevoked =>
      Started(crr) && OldSignerRejected(config, cluster, crr, inputs)
      && !Recorded(crr.status, PreviousCertificatesRevoked)
  }

  ghost predicate Guard(config: Config, cluster: Cluster, crr: Request, inputs: Inputs, write: Write) {
    Reached(config, cluster, crr, inputs, write) && Due(config, cluster, crr, inputs, write)
  }

  predicate IsStatusWrite(write: Write) {
    !(write.CopyOldSigner? || write.MarkSigner? || write.MarkLeaf? || write.PruneBundle?)
  }

  function Updated(write: Write): seq<Condition> {
    match write
    case ReportUnknownClass => [Condition(SignerClassValid, false, "SignerClassUnknown")]
    case CommitTimestamp => [Condition(SignerClassValid, true, "AsExpected")]
    case RecordCopy => [Condition(RootCertificatesRegenerated, false, "RootCertificatesStale")]
    case RecordNewSigner => [Condition(RootCertificatesRegenerated, true, "AsExpected"),
                             Condition(NewCertificatesTrusted, false, "WaitingForAvailable")]
    case RecordTrust => [Condition(NewCertificatesTrusted, true, "AsExpected")]
    case ReportStaleLeaves => [Condition(LeafCertificatesRegenerated, false, "LeafCertificatesStale")]
    case RecordPruned => [Condition(LeafCertificatesRegenerated, true, "AsExpected"),
                          Condition(PreviousCertificatesRevoked, false, "WaitingForAvailable")]
    case RecordRevoked => [Condition(PreviousCertificatesRevoked, true, "AsExpected")]
    case _ => []
  }

  /** The status a status write sends. */
  function Written(config: Config, crr: Request, inputs: Inputs, write: Write): Status {
    Status(
      match write
      case ReportUnknownClass => None
      case CommitTimestamp => Some(inputs.commitTime)
      case _ => crr.status.revocationTimestamp,
      match write
      case ReportUnknownClass => None
      case CommitTimestamp => None
      case RecordCopy => Some(config.copyName(crr.name))
      case _ => crr.status.previousSigner,
      Merge(crr.status.conditions, Updated(write)))
  }

  ghost function WriteActions(config: Config, cluster: Cluster, crr: Request, inputs: Inputs, write: Write): Actions
    requires Due(config, cluster, crr, inputs, write)
  {
    match write
    case CopyOldSigner =>
      var signer := cluster.secrets[SecretForSignerClass(crr.signerClass)];
      Actions(None, Some((config.copyName(crr.name), CopySigner(signer.tlsCrt, signer.tlsKey, signer.inspection))),
          None)
    case MarkSigner => Actions(None, Some((SecretForSignerClass(crr.signerClass), MarkForRegeneration)), None)
    case MarkLeaf(name) => Actions(None, Some((name, MarkForRegeneration)), None)
    case PruneBundle => Actions(None, None,
        Some((ConfigMapForSignerClass(crr.signerClass), PrunedBundle(cluster, crr))))
    case _ => Actions(Some(Written(config, crr, inputs, write)), None, None)
  }

  // ---- what the scans find ----

  lemma {:induction false} ScanLeavesMeaning(secrets: map<string, Secret>, listing: seq<string>, current: Issuer)
    ensures ScanLeaves(secrets, listing, current).NoStaleLeaf? <==>
            forall name :: name in listing && name in secrets
                     ==> WellFormedIssuer(secrets[name]) && !IssuedByOlder(secrets[name], current)
    ensures match ScanLeaves(secrets, listing, current)
            case StaleLeaf(name) => name in listing && name in secrets && IssuedByOlder(secrets[name], current)
            case MalformedIssuer => exists name ::
                name in listing && name in secrets && !WellFormedIssuer(secrets[name])
            case NoStaleLeaf => true
  {
    if listing == [] {
    } else {
      ScanLeavesMeaning(secrets, listing[1..], current);
      assert listing == [listing[0]] + listing[1..];
    }
  }

  lemma {:induction false} LeafEntriesMembers(name: string, cert: Certificate, pairs: seq<CertKeyPair>)
    ensures forall leaf :: leaf in LeafEntries(name, cert, pairs)
                      <==> leaf == LeafSecret(name, cert) && exists pair :: pair in pairs && IsLeafCertificate(pair)
  {
    if pairs == [] {
    } else {
      LeafEntriesMembers(name, cert, pairs[1..]);
      assert pairs == [pairs[0]] + pairs[1..];
    }
  }

  /** The collected leaves are exactly the first certificates of the secrets that hold a leaf. */
  lemma {:induction false} ExistingLeavesMembers(secrets: map<string, Secret>, listing: seq<string>)
    requires ExistingLeaves(secrets, listing).Some?
    ensures forall leaf :: leaf in ExistingLeaves(secrets, listing).value <==>
              leaf.name in listing && leaf.name in secrets && HasLeaf(secrets[leaf.name])
              && LoadPem(secrets[leaf.name].tlsCrt).Loaded? && leaf.cert == LoadPem(secrets[leaf.name].tlsCrt).value[0]
    ensures forall name :: name in listing && name in secrets && HasLeaf(secrets[name])
              ==> LoadPem(secrets[name].tlsCrt).Loaded?
  {
    if listing == [] {
    } else {
      var name := listing[0];
      assert listing == [name] + listing[1..];
      ExistingLeavesMembers(secrets, listing[1..]);
      if name !in secrets || secrets[name].tlsCrt.Absent? || secrets[name].inspection.InspectionFailed?
         || secrets[name].inspection.pairs == [] {
      } else {
        LeafEntriesMembers(name, LoadPem(secrets[name].tlsCrt).value[0], secrets[name].inspection.pairs);
      }
    }
  }

  /** Comparing secret names decides whether any leaf certificate loses trust. */
  lemma NamesDecideTrust(
      config: Config, cluster: Cluster, inputs: Inputs, current: seq<Certificate>, pruned: seq<Certificate>)
    requires ListsSecrets(inputs, cluster) && ExistingLeaves(cluster.secrets, inputs.listing).Some?
    ensures KeepsTrust(config, current, pruned, ExistingLeaves(cluster.secrets, inputs.listing).value, inputs)
            <==> forall name :: name in cluster.secrets
                   ==> !LosesTrust(config, cluster.secrets[name], current, pruned, inputs)
  {
    var leaves := ExistingLeaves(cluster.secrets, inputs.listing).value;
    ExistingLeavesMembers(cluster.secrets, inputs.listing);
    TrustedMembers(config.verify, current, leaves, inputs.currentTrustTime);
    TrustedMembers(config.verify, pruned, leaves, inputs.futureTrustTime);
    var before := Trusted(config.verify, current, leaves, inputs.currentTrustTime);
    var after := Trusted(config.verify, pruned, leaves, inputs.futureTrustTime);
    if Names(before) <= Names(after) {
      forall name | name in cluster.secrets && HasLeaf(cluster.secrets[name])
                    && config.verify(LoadPem(cluster.secrets[name].tlsCrt).value[0], Pool(current),
                        inputs.currentTrustTime)
        ensures config.verify(LoadPem(cluster.secrets[name].tlsCrt).value[0], Pool(pruned), inputs.futureTrustTime)
      {
        assert LeafSecret(name, LoadPem(cluster.secrets[name].tlsCrt).value[0]) in before;
        assert name in Names(before);
        var kept :| kept in after && kept.name == name;
      }
    }
    if forall name :: name in cluster.secrets ==> !LosesTrust(config, cluster.secrets[name], current, pruned, inputs) {
      forall name | name in Names(before)
        ensures name in Names(after)
      {
        var leaf :| leaf in before && leaf.name == name;
        assert !LosesTrust(config, cluster.secrets[leaf.name], current, pruned, inputs);
        assert leaf in after;
      }
    }
  }

  lemma StaleMeansOldCertificate(certs: seq<Certificate>, cutoff: Instant)
    requires certs != []
    ensures NeedsRegeneration(certs, cutoff) <==> !AllAfter(certs, cutoff)
  {
    SelectLength(certs, cutoff);
  }

  // ---- each step against the guards ----

  ghost predicate Settles(
      config: Config, cluster: Cluster, crr: Request, inputs: Inputs, write: Write, result: StepResult)
  {
    Due(config, cluster, crr, inputs, write)
    && result == Done(Emitted(WriteActions(config, cluster, crr, inputs, write)))
  }

  lemma GenerateStep(config: Config, cluster: Cluster, crr: Request, inputs: Inputs)
    requires Started(crr)
    ensures var result := GenerateNewSignerCertificate(config, cluster, crr);
            && (result.HandOff? <==> SignerNew(cluster, crr) && Recorded(crr.status, RootCertificatesRegenerated))
            && (Due(config, cluster, crr, inputs, CopyOldSigner) ==>
                Settles(config, cluster, crr, inputs, CopyOldSigner, result))
            && (Due(config, cluster, crr, inputs, RecordCopy) ==>
                Settles(config, cluster, crr, inputs, RecordCopy, result))
            && (Due(config, cluster, crr, inputs, MarkSigner) ==>
                Settles(config, cluster, crr, inputs, MarkSigner, result))
            && (Due(config, cluster, crr, inputs, RecordNewSigner) ==>
                Settles(config, cluster, crr, inputs, RecordNewSigner, result))
            && (result.Done? && result.outcome.Emitted? ==>
                  || Due(config, cluster, crr, inputs, CopyOldSigner)
                  || Due(config, cluster, crr, inputs, RecordCopy)
                  || Due(config, cluster, crr, inputs, MarkSigner)
                  || Due(config, cluster, crr, inputs, RecordNewSigner))
            && (result == Done(Panicked) <==>
                  || (SignerCerts(cluster, crr).NotFound?
                      && (config.copyName(crr.name) !in cluster.secrets || crr.status.previousSigner.Some?))
                  || (SignerNew(cluster, crr) && crr.status.previousSigner.None?
                      && !Recorded(crr.status, RootCertificatesRegenerated)))
  {
    var signer := SignerCerts(cluster, crr);
    if signer.Loaded? { StaleMeansOldCertificate(signer.value, crr.status.revocationTimestamp.value); }
  }

  lemma PropagateStep(config: Config, cluster: Cluster, crr: Request, inputs: Inputs)
    requires Started(crr) && SignerNew(cluster, crr)
    ensures var result := EnsureNewSignerCertificatePropagated(config, cluster, crr, inputs);
            && (result.HandOff? <==>
                NewSignerTrusted(config, cluster, crr, inputs) && Recorded(crr.status, NewCertificatesTrusted))
            && (Due(config, cluster, crr, inputs, RecordTrust) ==>
                Settles(config, cluster, crr, inputs, RecordTrust, result))
            && (result.Done? && result.outcome.Emitted? ==> Due(config, cluster, crr, inputs, RecordTrust))
            && (result == Done(Panicked) ==> crr.status.previousSigner.None?)
  {
  }

  lemma LeavesHandOff(cluster: Cluster, crr: Request, inputs: Inputs)
    requires Started(crr) && ListsSecrets(inputs, cluster)
    ensures GenerateNewLeafCertificates(cluster, crr, inputs).HandOff? <==> NoOlderLeaf(cluster, crr)
  {
    var current := SignerIssuer(cluster, crr);
    if current.Some? {
      ScanLeavesMeaning(cluster.secrets, inputs.listing, current.value);
    }
  }

  lemma LeavesWrite(config: Config, cluster: Cluster, crr: Request, inputs: Inputs)
    requires Started(crr)
    ensures var result := GenerateNewLeafCertificates(cluster, crr, inputs);
            && (forall name :: Due(config, cluster, crr, inputs, MarkLeaf(name)) ==>
                               Settles(config, cluster, crr, inputs, MarkLeaf(name), result))
            && (result.Done? && result.outcome.Emitted? ==>
                  exists name :: Due(config, cluster, crr, inputs, MarkLeaf(name)))
            && result != Done(Panicked)
  {
    var current := SignerIssuer(cluster, crr);
    if current.Some? {
      var scan := ScanLeaves(cluster.secrets, inputs.listing, current.value);
      if scan.StaleLeaf? { assert Due(config, cluster, crr, inputs, MarkLeaf(scan.name)); }
    }
  }

  lemma LeavesStep(config: Config, cluster: Cluster, crr: Request, inputs: Inputs)
    requires Started(crr) && ListsSecrets(inputs, cluster)
    ensures var result := GenerateNewLeafCertificates(cluster, crr, inputs);
            && (result.HandOff? <==> NoOlderLeaf(cluster, crr))
            && (forall name :: Due(config, cluster, crr, inputs, MarkLeaf(name)) ==>
                               Settles(config, cluster, crr, inputs, MarkLeaf(name), result))
            && (result.Done? && result.outcome.Emitted? ==>
                  exists name :: Due(config, cluster, crr, inputs, MarkLeaf(name)))
            && result != Done(Panicked)
  {
    LeavesHandOff(cluster, crr, inputs);
    LeavesWrite(config, cluster, crr, inputs);
  }

  /** With the bundle already pruned there is nothing to compare. */
  lemma PruneWhenPruned(config: Config, cluster: Cluster, crr: Request, inputs: Inputs)
    requires Started(crr) && !BundleUnpruned(cluster, crr)
    ensures PrunePreviousSignerCertificates(config, cluster, crr, inputs)
         == if !BundlePruned(cluster, crr) then Done(if ClassBundle(cluster, crr).NotFound? then Nothing else Errored)
            else if Recorded(crr.status, LeafCertificatesRegenerated) then HandOff
            else if crr.status.previousSigner.None? then Done(Panicked)
            else EmitStatus(Resend(crr.status, Updated(RecordPruned)))
  {
    var bundle := ClassBundle(cluster, crr);
    if bundle.Loaded? { SelectLength(bundle.value, crr.status.revocationTimestamp.value); }
  }

  lemma PruningDecided(config: Config, cluster: Cluster, crr: Request, inputs: Inputs)
    requires Started(crr) && ClassBundle(cluster, crr).Loaded? && ListsSecrets(inputs, cluster)
    requires ExistingLeaves(cluster.secrets, inputs.listing).Some?
    ensures KeepsTrust(config, ClassBundle(cluster, crr).value, PrunedBundle(cluster, crr),
                       ExistingLeaves(cluster.secrets, inputs.listing).value, inputs)
       <==> !PruningLosesTrust(config, cluster, crr, inputs)
  {
    NamesDecideTrust(config, cluster, inputs, ClassBundle(cluster, crr).value, PrunedBundle(cluster, crr));
  }

  /** The step in terms of the pruned bundle, before trust is looked at. */
  lemma PruneUnprunedBundle(config: Config, cluster: Cluster, crr: Request, inputs: Inputs)
    requires Started(crr) && BundleUnpruned(cluster, crr)
    ensures PrunePreviousSignerCertificates(config, cluster, crr, inputs)
         == var leaves := ExistingLeaves(cluster.secrets, inputs.listing);
            if leaves.None? then Done(Errored)
            else if KeepsTrust(config, ClassBundle(cluster, crr).value, PrunedBundle(cluster, crr), leaves.value,
                inputs)
            then EmitBundle(ConfigMapForSignerClass(crr.signerClass), PrunedBundle(cluster, crr))
            else if crr.status.previousSigner.None? then Done(Panicked)
            else EmitStatus(Resend(crr.status, Updated(ReportStaleLeaves)))
  {
    SelectLength(ClassBundle(cluster, crr).value, crr.status.revocationTimestamp.value);
  }

  lemma PruneWhenUnpruned(config: Config, cluster: Cluster, crr: Request, inputs: Inputs)
    requires Started(crr) && BundleUnpruned(cluster, crr) && ListsSecrets(inputs, cluster)
    ensures PrunePreviousSignerCertificates(config, cluster, crr, inputs)
         == if ExistingLeaves(cluster.secrets, inputs.listing).None? then Done(Errored)
            else if !PruningLosesTrust(config, cluster, crr, inputs)
            then EmitBundle(ConfigMapForSignerClass(crr.signerClass), PrunedBundle(cluster, crr))
            else if crr.status.previousSigner.None? then Done(Panicked)
            else EmitStatus(Resend(crr.status, Updated(ReportStaleLeaves)))
  {
    PruneUnprunedBundle(config, cluster, crr, inputs);
    if ExistingLeaves(cluster.secrets, inputs.listing).Some? {
      PruningDecided(config, cluster, crr, inputs);
    }
  }

  /** What the pruning step comes to, in terms of its three writes. */
  ghost predicate PruneMeets(config: Config, cluster: Cluster, crr: Request, inputs: Inputs, result: StepResult)
    requires Started(crr)
  {
    && (result.HandOff? <==> BundlePruned(cluster, crr) && Recorded(crr.status, LeafCertificatesRegenerated))
    && (Due(config, cluster, crr, inputs, ReportStaleLeaves) ==>
          Settles(config, cluster, crr, inputs, ReportStaleLeaves, result))
    && (Due(config, cluster, crr, inputs, PruneBundle) ==>
          Settles(config, cluster, crr, inputs, PruneBundle, result))
    && (Due(config, cluster, crr, inputs, RecordPruned) ==>
          Settles(config, cluster, crr, inputs, RecordPruned, result))
    && (result.Done? && result.outcome.Emitted? ==>
          || Due(config, cluster, crr, inputs, ReportStaleLeaves)
          || Due(config, cluster, crr, inputs, PruneBundle)
          || Due(config, cluster, crr, inputs, RecordPruned))
    && (result == Done(Panicked) ==> crr.status.previousSigner.None?)
  }

  lemma PruneStepUnpruned(config: Config, cluster: Cluster, crr: Request, inputs: Inputs)
    requires Started(crr) && ListsSecrets(inputs, cluster) && BundleUnpruned(cluster, crr)
    ensures PruneMeets(config, cluster, crr, inputs, PrunePreviousSignerCertificates(config, cluster, crr, inputs))
  {
    PruneWhenUnpruned(config, cluster, crr, inputs);
  }

  lemma PruneStepPruned(config: Config, cluster: Cluster, crr: Request, inputs: Inputs, result: StepResult)
    requires Started(crr) && !BundleUnpruned(cluster, crr)
    requires result
          == if !BundlePruned(cluster, crr) then Done(if ClassBundle(cluster, crr).NotFound? then Nothing else Errored)
             else if Recorded(crr.status, LeafCertificatesRegenerated) then HandOff
             else if crr.status.previousSigner.None? then Done(Panicked)
             else EmitStatus(Resend(crr.status, Updated(RecordPruned)))
    ensures PruneMeets(config, cluster, crr, inputs, result)
  {
  }

  lemma PruneStep(config: Config, cluster: Cluster, crr: Request, inputs: Inputs)
    requires Started(crr) && ListsSecrets(inputs, cluster)
    ensures PruneMeets(config, cluster, crr, inputs, PrunePreviousSignerCertificates(config, cluster, crr, inputs))
  {
    if BundleUnpruned(cluster, crr) {
      PruneStepUnpruned(config, cluster, crr, inputs);
    } else {
      PruneWhenPruned(config, cluster, crr, inputs);
      PruneStepPruned(config, cluster, crr, inputs, PrunePreviousSignerCertificates(config, cluster, crr, inputs));
    }
  }

  lemma RevokeStep(config: Config, cluster: Cluster, crr: Request, inputs: Inputs)
    requires Started(crr)
    ensures var result := EnsureOldSignerCertificateRevoked(config, cluster, crr, inputs);
            && (Due(config, cluster, crr, inputs, RecordRevoked) ==>
                Settles(config, cluster, crr, inputs, RecordRevoked, result))
            && (result.Done? && result.outcome.Emitted? ==> Due(config, cluster, crr, inputs, RecordRevoked))
            && (result == Done(Panicked) <==> crr.status.previousSigner.None?)
  {
  }

  // ---- the sync as a whole ----

  lemma ProcessTrustedWrites(config: Config, cluster: Cluster, crr: Request, inputs: Inputs, write: Write)
    requires Started(crr) && ListsSecrets(inputs, cluster) && TrustRecorded(config, cluster, crr, inputs)
    requires Guard(config, cluster, crr, inputs, write)
    ensures ProcessTrusted(config, cluster, crr, inputs) == Emitted(WriteActions(config, cluster, crr, inputs, write))
  {
    LeavesStep(config, cluster, crr, inputs);
    if NoOlderLeaf(cluster, crr) {
      PruneStep(config, cluster, crr, inputs);
      if BundlePruned(cluster, crr) && Recorded(crr.status, LeafCertificatesRegenerated) {
        RevokeStep(config, cluster, crr, inputs);
      }
    }
  }

  /** A sync performs a write whenever the write's guard holds. */
  lemma GuardDecides(config: Config, cluster: Cluster, inputs: Inputs, write: Write)
    requires cluster.crr.Some? && ListsSecrets(inputs, cluster)
    requires Guard(config, cluster, cluster.crr.value, inputs, write)
    ensures Process(config, cluster, inputs) == Emitted(WriteActions(config, cluster, cluster.crr.value, inputs, write))
  {
    var crr := cluster.crr.value;
    if Started(crr) {
      GenerateStep(config, cluster, crr, inputs);
      if SignerNew(cluster, crr) && Recorded(crr.status, RootCertificatesRegenerated) {
        PropagateStep(config, cluster, crr, inputs);
        if TrustRecorded(config, cluster, crr, inputs) {
          ProcessTrustedWrites(config, cluster, crr, inputs, write);
        }
      }
    }
  }

  lemma TrustedWriteHasGuard(config: Config, cluster: Cluster, crr: Request, inputs: Inputs) returns (write: Write)
    requires Started(crr) && ListsSecrets(inputs, cluster) && TrustRecorded(config, cluster, crr, inputs)
    requires ProcessTrusted(config, cluster, crr, inputs).Emitted?
    ensures Guard(config, cluster, crr, inputs, write)
    ensures ProcessTrusted(config, cluster, crr, inputs) == Emitted(WriteActions(config, cluster, crr, inputs, write))
  {
    LeavesStep(config, cluster, crr, inputs);
    var leaves := GenerateNewLeafCertificates(cluster, crr, inputs);
    if leaves.Done? {
      var name :| Due(config, cluster, crr, inputs, MarkLeaf(name));
      write := MarkLeaf(name);
    } else {
      PruneStep(config, cluster, crr, inputs);
      var prune := PrunePreviousSignerCertificates(config, cluster, crr, inputs);
      if prune.Done? {
        write := if Due(config, cluster, crr, inputs, ReportStaleLeaves) then ReportStaleLeaves
                 else if Due(config, cluster, crr, inputs, PruneBundle) then PruneBundle
                 else RecordPruned;
      } else {
        RevokeStep(config, cluster, crr, inputs);
        write := RecordRevoked;
      }
    }
  }

  /** Every sync that acts performs one of the twelve writes, under its guard. */
  lemma WriteHasGuard(config: Config, cluster: Cluster, inputs: Inputs) returns (write: Write)
    requires ListsSecrets(inputs, cluster) && Process(config, cluster, inputs).Emitted?
    ensures cluster.crr.Some?
    ensures Guard(config, cluster, cluster.crr.value, inputs, write)
    ensures Process(config, cluster, inputs) == Emitted(WriteActions(config, cluster, cluster.crr.value, inputs, write))
  {
    var crr := cluster.crr.value;
    if !ValidSignerClass(crr.signerClass) {
      write := ReportUnknownClass;
    } else if crr.status.revocationTimestamp.None? {
      write := CommitTimestamp;
    } else {
      GenerateStep(config, cluster, crr, inputs);
      var generate := GenerateNewSignerCertificate(config, cluster, crr);
      if generate.Done? {
        write := if Due(config, cluster, crr, inputs, CopyOldSigner) then CopyOldSigner
                 else if Due(config, cluster, crr, inputs, RecordCopy) then RecordCopy
                 else if Due(config, cluster, crr, inputs, MarkSigner) then MarkSigner
                 else RecordNewSigner;
      } else {
        PropagateStep(config, cluster, crr, inputs);
        if EnsureNewSignerCertificatePropagated(config, cluster, crr, inputs).Done? {
          write := RecordTrust;
        } else {
          write := TrustedWriteHasGuard(config, cluster, crr, inputs);
        }
      }
    }
  }

  /** Every sync that acts sets exactly one of the three writes, so `actions.validate` never fails. */
  lemma ExactlyOneWrite(config: Config, cluster: Cluster, inputs: Inputs)
    requires ListsSecrets(inputs, cluster) && Process(config, cluster, inputs).Emitted?
    ensures WriteCount(Process(config, cluster, inputs).actions) == 1
  {
    var write := WriteHasGuard(config, cluster, inputs);
  }

  // ---- what a write does to the recorded conditions ----

  function UpdatedKinds(write: Write): set<ConditionType> {
    match write
    case ReportUnknownClass => {SignerClassValid}
    case CommitTimestamp => {SignerClassValid}
    case RecordCopy => {RootCertificatesRegenerated}
    case RecordNewSigner => {RootCertificatesRegenerated, NewCertificatesTrusted}
    case RecordTrust => {NewCertificatesTrusted}
    case ReportStaleLeaves => {LeafCertificatesRegenerated}
    case RecordPruned => {LeafCertificatesRegenerated, PreviousCertificatesRevoked}
    case RecordRevoked => {PreviousCertificatesRevoked}
    case _ => {}
  }

  function UpdatedTruths(write: Write): set<ConditionType> {
    match write
    case CommitTimestamp => {SignerClassValid}
    case RecordNewSigner => {RootCertificatesRegenerated}
    case RecordTrust => {NewCertificatesTrusted}
    case RecordPruned => {LeafCertificatesRegenerated}
    case RecordRevoked => {PreviousCertificatesRevoked}
    case _ => {}
  }

  lemma UpdatedMeaning(write: Write)
    ensures Kinds(Updated(write)) == UpdatedKinds(write)
    ensures Truths(Updated(write)) == UpdatedTruths(write)
    ensures UniqueKinds(Updated(write))
  {
    var updated := Updated(write);
    if updated != [] {
      assert updated[0] in updated && updated[|updated| - 1] in updated;
    }
  }

  lemma WrittenConditions(config: Config, crr: Request, inputs: Inputs, write: Write)
    ensures var existing := crr.status.conditions;
            var written := Written(config, crr, inputs, write).conditions;
            && Kinds(written) == Kinds(existing) + UpdatedKinds(write)
            && Truths(written) == (Truths(existing) - UpdatedKinds(write)) + UpdatedTruths(write)
            && (UniqueKinds(existing) ==> UniqueKinds(written))
  {
    MergeEffect(crr.status.conditions, Updated(write));
    UpdatedMeaning(write);
  }

  // ---- declaring revocation complete ----

  predicate EmitsTruth(config: Config, cluster: Cluster, inputs: Inputs, kind: ConditionType) {
    && cluster.crr.Some?
    && Process(config, cluster, inputs).Emitted?
    && var actions := Process(config, cluster, inputs).actions;
       actions.crr.Some? && Recorded(actions.crr.value, kind) && !Recorded(cluster.crr.value.status, kind)
  }

  /** Everything the completion condition stands for, read off one cluster state. */
  ghost predicate RevocationComplete(config: Config, cluster: Cluster, crr: Request, inputs: Inputs)
    requires Started(crr)
  {
    && NewSignerTrusted(config, cluster, crr, inputs)
    && NoOlderLeaf(cluster, crr)
    && BundlePruned(cluster, crr)
    && OldSignerRejected(config, cluster, crr, inputs)
  }

  /**
    A sync turns PreviousCertificatesRevoked True exactly when the three earlier phases are
    recorded and every fact that makes the revocation complete holds in the state it observed.
   */
  lemma RevokedExactlyWhenComplete(config: Config, cluster: Cluster, inputs: Inputs)
    requires ListsSecrets(inputs, cluster)
    ensures EmitsTruth(config, cluster, inputs, PreviousCertificatesRevoked) <==>
            && cluster.crr.Some?
            && Started(cluster.crr.value)
            && Recorded(cluster.crr.value.status, RootCertificatesRegenerated)
            && Recorded(cluster.crr.value.status, NewCertificatesTrusted)
            && Recorded(cluster.crr.value.status, LeafCertificatesRegenerated)
            && !Recorded(cluster.crr.value.status, PreviousCertificatesRevoked)
            && RevocationComplete(config, cluster, cluster.crr.value, inputs)
  {
    if EmitsTruth(config, cluster, inputs, PreviousCertificatesRevoked) {
      RevokedIsGuarded(config, cluster, inputs);
    } else if cluster.crr.Some? && Guard(config, cluster, cluster.crr.value, inputs, RecordRevoked) {
      GuardRevokes(config, cluster, inputs);
    }
  }

  lemma RevokedIsGuarded(config: Config, cluster: Cluster, inputs: Inputs)
    requires ListsSecrets(inputs, cluster) && EmitsTruth(config, cluster, inputs, PreviousCertificatesRevoked)
    ensures Guard(config, cluster, cluster.crr.value, inputs, RecordRevoked)
  {
    var write := WriteHasGuard(config, cluster, inputs);
    OnlyRecordRevoked(config, cluster, cluster.crr.value, inputs, write);
  }

  lemma OnlyRecordRevoked(config: Config, cluster: Cluster, crr: Request, inputs: Inputs, write: Write)
    requires Due(config, cluster, crr, inputs, write)
    requires WriteActions(config, cluster, crr, inputs, write).crr.Some?
    requires Recorded(WriteActions(config, cluster, crr, inputs, write).crr.value, PreviousCertificatesRevoked)
    requires !Recorded(crr.status, PreviousCertificatesRevoked)
    ensures write == RecordRevoked
  {
    WrittenConditions(config, crr, inputs, write);
  }

  lemma GuardRevokes(config: Config, cluster: Cluster, inputs: Inputs)
    requires cluster.crr.Some? && ListsSecrets(inputs, cluster)
    requires Guard(config, cluster, cluster.crr.value, inputs, RecordRevoked)
    ensures EmitsTruth(config, cluster, inputs, PreviousCertificatesRevoked)
  {
    GuardDecides(config, cluster, inputs, RecordRevoked);
    WrittenConditions(config, cluster.crr.value, inputs, RecordRevoked);
  }

  // ---- pruning ----

  /**
    Whenever a sync writes a bundle, it is the class bundle without exactly the certificates that
    were valid at or before the cutoff, and no inspectable leaf loses trust by it.
   */
  lemma PruningKeepsTrust(config: Config, cluster: Cluster, inputs: Inputs)
    requires ListsSecrets(inputs, cluster)
    requires Process(config, cluster, inputs).Emitted? && Process(config, cluster, inputs).actions.cm.Some?
    ensures cluster.crr.Some? && Started(cluster.crr.value)
    ensures var crr := cluster.crr.value;
            var (name, pruned) := Process(config, cluster, inputs).actions.cm.value;
            && name == ConfigMapForSignerClass(crr.signerClass)
            && ClassBundle(cluster, crr).Loaded?
            && (forall cert :: cert in pruned <==>
                  cert in ClassBundle(cluster, crr).value && cert.notBefore > crr.status.revocationTimestamp.value)
            && |pruned| < |ClassBundle(cluster, crr).value|
            && (forall secret :: secret in cluster.secrets
                  ==> !LosesTrust(config, cluster.secrets[secret], ClassBundle(cluster, crr).value, pruned, inputs))
            && NewSignerTrusted(config, cluster, crr, inputs) && NoOlderLeaf(cluster, crr)
  {
    var write := WriteHasGuard(config, cluster, inputs);
    assert write == PruneBundle;
    var crr := cluster.crr.value;
    SelectMembers(ClassBundle(cluster, crr).value, crr.status.revocationTimestamp.value, true);
    SelectLength(ClassBundle(cluster, crr).value, crr.status.revocationTimestamp.value);
  }

  // ---- when a sync panics ----

  /** The sync comes to a point at which it needs the reference to the previous signer. */
  ghost predicate NeedsReference(config: Config, cluster: Cluster, crr: Request, inputs: Inputs)
    requires Started(crr)
  {
    || !Recorded(crr.status, RootCertificatesRegenerated)
    || (NewSignerTrusted(config, cluster, crr, inputs)
        && (|| !Recorded(crr.status, NewCertificatesTrusted)
            || (NoOlderLeaf(cluster, crr) && ComparesOldSigner(config, cluster, crr, inputs))))
  }

  /** The class bundle is pruned, or pruning it would lose trust. */
  ghost predicate ComparesOldSigner(config: Config, cluster: Cluster, crr: Request, inputs: Inputs)
    requires Started(crr)
  {
    || BundlePruned(cluster, crr)
    || (BundleUnpruned(cluster, crr) && ExistingLeaves(cluster.secrets, inputs.listing).Some?
        && PruningLosesTrust(config, cluster, crr, inputs))
  }

  lemma PropagatePanics(config: Config, cluster: Cluster, crr: Request, inputs: Inputs)
    requires Started(crr) && SignerNew(cluster, crr)
    ensures EnsureNewSignerCertificatePropagated(config, cluster, crr, inputs) == Done(Panicked) <==>
            crr.status.previousSigner.None? && NewSignerTrusted(config, cluster, crr, inputs)
            && !Recorded(crr.status, NewCertificatesTrusted)
  {
  }

  lemma TrustedPanics(config: Config, cluster: Cluster, crr: Request, inputs: Inputs)
    requires Started(crr) && ListsSecrets(inputs, cluster)
    ensures ProcessTrusted(config, cluster, crr, inputs).Panicked? <==>
            crr.status.previousSigner.None? && NoOlderLeaf(cluster, crr)
                && ComparesOldSigner(config, cluster, crr, inputs)
  {
    LeavesHandOff(cluster, crr, inputs);
    LeavesWrite(config, cluster, crr, inputs);
    if BundleUnpruned(cluster, crr) {
      PruneWhenUnpruned(config, cluster, crr, inputs);
    } else {
      PruneWhenPruned(config, cluster, crr, inputs);
      RevokeStep(config, cluster, crr, inputs);
    }
  }

  /**
    The sync dereferences a missing object in exactly two situations: it needs a signer that is not
    there, or it needs the reference to the previous signer before that was recorded.
   */
  lemma PanicsExactlyWhen(config: Config, cluster: Cluster, inputs: Inputs)
    requires cluster.crr.Some? && ListsSecrets(inputs, cluster)
    ensures Process(config, cluster, inputs).Panicked? <==>
            && Started(cluster.crr.value)
            && var crr := cluster.crr.value;
               || (SignerCerts(cluster, crr).NotFound?
                   && (config.copyName(crr.name) !in cluster.secrets || crr.status.previousSigner.Some?))
               || (SignerNew(cluster, crr) && crr.status.previousSigner.None?
                   && NeedsReference(config, cluster, crr, inputs))
  {
    var crr := cluster.crr.value;
    if Started(crr) {
      GenerateStep(config, cluster, crr, inputs);
      if SignerNew(cluster, crr) && Recorded(crr.status, RootCertificatesRegenerated) {
        PropagatePanics(config, cluster, crr, inputs);
        PropagateStep(config, cluster, crr, inputs);
        if TrustRecorded(config, cluster, crr, inputs) {
          TrustedPanics(config, cluster, crr, inputs);
        }
      }
    }
  }
}
