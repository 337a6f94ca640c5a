/**
  Runs of the revocation protocol: syncs interleaved with everything else that changes the
  cluster. The status only ever moves forward, and completion means that the very signer that was
  current before the cutoff is the one now rejected.
 */
module RevocationRuns {
  import opened Common
  import opened Certificates
  import opened Revocation
  import opened RevocationSafety

  // ---- the transition system ----

  predicate BundleClean(cluster: Cluster, signerClass: string, cutoff: Instant)
    requires ValidSignerClass(signerClass)
  {
    var name := ConfigMapForSignerClass(signerClass);
    name in cluster.bundles && cluster.bundles[name].Chain? ==> AllAfter(cluster.bundles[name].certs, cutoff)
  }

  /**
    Any change by other actors, except that they leave the request's status and the signer copy
    alone, never change a signer class, and put no old certificate back into a class bundle once
    its leaves are recorded as regenerated. The request may be deleted at any time.
   */
  ghost predicate EnvironmentStep(config: Config, before: Cluster, after: Cluster) {
    && (after.crr == before.crr || after.crr.None?)
    && (before.crr.Some? ==>
          var copy := config.copyName(before.crr.value.name);
          && (copy in before.secrets <==> copy in after.secrets)
          && (copy in before.secrets ==> after.secrets[copy] == before.secrets[copy]))
    && (before.crr.Some? ==>
          var crr := before.crr.value;
          ValidSignerClass(crr.signerClass) && crr.status.revocationTimestamp.Some?
          && Recorded(crr.status, LeafCertificatesRegenerated)
          && BundleClean(before, crr.signerClass, crr.status.revocationTimestamp.value)
          ==> BundleClean(after, crr.signerClass, crr.status.revocationTimestamp.value))
  }

  /** A sync may see its write refused; then the cluster stays as it was. */
  datatype Step = Controller(inputs: Inputs, applied: bool) | Environment

  ghost predicate Next(config: Config, before: Cluster, step: Step, after: Cluster) {
    match step
    case Controller(inputs, applied) =>
      ListsSecrets(inputs, before) && after == if applied then Sync(config, before, inputs) else before
    case Environment => EnvironmentStep(config, before, after)
  }

  ghost predicate Initial(config: Config, cluster: Cluster) {
    && cluster.crr.Some?
    && cluster.crr.value.status == Status(None, None, [])
    && config.copyName(cluster.crr.value.name) !in cluster.secrets
  }

  ghost predicate IsRun(config: Config, states: seq<Cluster>, steps: seq<Step>) {
    && |states| == |steps| + 1
    && Initial(config, states[0])
    && forall i {:trigger steps[i]} :: 0 <= i < |steps| ==> Next(config, states[i], steps[i], states[i + 1])
  }

  // ---- the invariant ----

  ghost predicate Invariant(config: Config, cluster: Cluster) {
    cluster.crr.Some? ==> RequestInvariant(config, cluster, cluster.crr.value)
  }

  ghost predicate RequestInvariant(config: Config, cluster: Cluster, crr: Request) {
    && StatusInvariant(config, cluster, crr)
    && (LeafCertificatesRegenerated in Truths(crr.status.conditions) ==>
          crr.status.revocationTimestamp.Some?
          && ValidSignerClass(crr.signerClass)
          && BundleClean(cluster, crr.signerClass, crr.status.revocationTimestamp.value))
  }

  /** What holds of the status whatever others do to the bundles. */
  ghost predicate StatusInvariant(config: Config, cluster: Cluster, crr: Request) {
    var truths := Truths(crr.status.conditions);
    && UniqueKinds(crr.status.conditions)
    && IsPhasePrefix(truths)
    && (!ValidSignerClass(crr.signerClass) ==>
          crr.status.revocationTimestamp.None? && truths == {})
    && (crr.status.revocationTimestamp.None? ==> crr.status.previousSigner.None? && truths == {})
    && (crr.status.revocationTimestamp.Some? ==> SignerClassValid in truths)
    && (crr.status.previousSigner.Some? ==>
          && crr.status.previousSigner.value == config.copyName(crr.name)
          && config.copyName(crr.name) in cluster.secrets)
    && (RootCertificatesRegenerated in truths ==> crr.status.previousSigner.Some?)
  }

  /** What may happen to the status in one step: nothing that was recorded is taken back. */
  ghost predicate StatusForward(before: Status, after: Status) {
    && (before.revocationTimestamp.Some? ==> after.revocationTimestamp == before.revocationTimestamp)
    && (before.previousSigner.Some? ==> after.previousSigner == before.previousSigner)
    && Kinds(before.conditions) <= Kinds(after.conditions)
    && Truths(before.conditions) <= Truths(after.conditions)
  }

  /** What the guard of a write says about the phases already recorded. */
  ghost predicate PhaseFacts(config: Config, cluster: Cluster, crr: Request, write: Write) {
    match write
    case ReportUnknownClass => !ValidSignerClass(crr.signerClass)
    case CommitTimestamp => ValidSignerClass(crr.signerClass) && crr.status.revocationTimestamp.None?
    case RecordCopy =>
      Started(crr) && crr.status.previousSigner.None? && config.copyName(crr.name) in cluster.secrets
    case RecordNewSigner =>
      Started(crr) && crr.status.previousSigner.Some? && !Recorded(crr.status, RootCertificatesRegenerated)
    case RecordTrust =>
      Started(crr) && crr.status.previousSigner.Some?
      && Recorded(crr.status, RootCertificatesRegenerated) && !Recorded(crr.status, NewCertificatesTrusted)
    case ReportStaleLeaves =>
      Started(crr) && crr.status.previousSigner.Some? && Recorded(crr.status, NewCertificatesTrusted)
      && !BundleClean(cluster, crr.signerClass, crr.status.revocationTimestamp.value)
    case RecordPruned =>
      Started(crr) && crr.status.previousSigner.Some?
      && Recorded(crr.status, NewCertificatesTrusted) && !Recorded(crr.status, LeafCertificatesRegenerated)
      && BundleClean(cluster, crr.signerClass, crr.status.revocationTimestamp.value)
    case RecordRevoked =>
      Started(crr) && crr.status.previousSigner.Some?
      && Recorded(crr.status, LeafCertificatesRegenerated) && !Recorded(crr.status, PreviousCertificatesRevoked)
    case _ => Started(crr)
  }

  lemma GuardPhases(config: Config, cluster: Cluster, crr: Request, inputs: Inputs, write: Write)
    requires Guard(config, cluster, crr, inputs, write)
    ensures PhaseFacts(config, cluster, crr, write)
  {
  }

  lemma StatusWriteKeeps(config: Config, cluster: Cluster, crr: Request, inputs: Inputs, write: Write)
    requires RequestInvariant(config, cluster, crr)
    requires PhaseFacts(config, cluster, crr, write) && IsStatusWrite(write)
    ensures RequestInvariant(config, cluster, crr.(status := Written(config, crr, inputs, write)))
    ensures StatusForward(crr.status, Written(config, crr, inputs, write))
  {
    WrittenConditions(config, crr, inputs, write);
  }

  /** A secret or bundle write leaves everything the invariant says about the request in place. */
  lemma OtherWriteKeeps(config: Config, cluster: Cluster, crr: Request, inputs: Inputs, write: Write)
    requires RequestInvariant(config, cluster, crr)
    requires Guard(config, cluster, crr, inputs, write) && !IsStatusWrite(write)
    ensures RequestInvariant(config, Apply(cluster, WriteActions(config, cluster, crr, inputs, write)), crr)
  {
    if write.PruneBundle? {
      SelectMembers(ClassBundle(cluster, crr).value, crr.status.revocationTimestamp.value, true);
    }
  }

  lemma ApplyKeeps(config: Config, cluster: Cluster, inputs: Inputs, write: Write)
    requires Invariant(config, cluster) && cluster.crr.Some? && Guard(config, cluster, cluster.crr.value, inputs, write)
    ensures var after := Apply(cluster, WriteActions(config, cluster, cluster.crr.value, inputs, write));
            && Invariant(config, after)
            && after.crr.Some?
            && StatusForward(cluster.crr.value.status, after.crr.value.status)
            && after.crr.value == cluster.crr.value.(status := after.crr.value.status)
  {
    var crr := cluster.crr.value;
    GuardPhases(config, cluster, crr, inputs, write);
    if IsStatusWrite(write) {
      StatusWriteKeeps(config, cluster, crr, inputs, write);
    } else {
      OtherWriteKeeps(config, cluster, crr, inputs, write);
    }
  }

  lemma SyncKeeps(config: Config, cluster: Cluster, inputs: Inputs)
    requires Invariant(config, cluster) && ListsSecrets(inputs, cluster)
    ensures var after := Sync(config, cluster, inputs);
            && Invariant(config, after)
            && (cluster.crr.Some? <==> after.crr.Some?)
            && (cluster.crr.Some? ==>
                  && StatusForward(cluster.crr.value.status, after.crr.value.status)
                  && after.crr.value == cluster.crr.value.(status := after.crr.value.status))
  {
    if Process(config, cluster, inputs).Emitted? {
      var write := WriteHasGuard(config, cluster, inputs);
      ApplyKeeps(config, cluster, inputs, write);
    }
  }

  lemma StepKeeps(config: Config, before: Cluster, step: Step, after: Cluster)
    requires Invariant(config, before) && Next(config, before, step, after)
    ensures Invariant(config, after)
    ensures after.crr.Some? ==>
              && before.crr.Some?
              && StatusForward(before.crr.value.status, after.crr.value.status)
              && after.crr.value.name == before.crr.value.name
              && after.crr.value.signerClass == before.crr.value.signerClass
  {
    if step.Controller? {
      SyncKeeps(config, before, step.inputs);
    }
  }

  lemma {:induction false} RunKeepsInvariant(config: Config, states: seq<Cluster>, steps: seq<Step>, i: nat)
    requires IsRun(config, states, steps) && i < |states|
    ensures Invariant(config, states[i])
  {
    if i == 0 {
    } else {
      RunKeepsInvariant(config, states, steps, i - 1);
      assert Next(config, states[i - 1], steps[i - 1], states[i]);
      StepKeeps(config, states[i - 1], steps[i - 1], states[i]);
    }
  }

  lemma RunStepForward(config: Config, states: seq<Cluster>, steps: seq<Step>, i: nat)
    requires IsRun(config, states, steps) && i < |steps| && states[i + 1].crr.Some?
    ensures states[i].crr.Some?
    ensures StatusForward(states[i].crr.value.status, states[i + 1].crr.value.status)
    ensures states[i + 1].crr.value.name == states[i].crr.value.name
    ensures states[i + 1].crr.value.signerClass == states[i].crr.value.signerClass
  {
    RunKeepsInvariant(config, states, steps, i);
    assert Next(config, states[i], steps[i], states[i + 1]);
    StepKeeps(config, states[i], steps[i], states[i + 1]);
  }

  lemma InvariantOrdersStatus(config: Config, cluster: Cluster)
    requires Invariant(config, cluster) && cluster.crr.Some?
    ensures UniqueKinds(cluster.crr.value.status.conditions)
    ensures IsPhasePrefix(Truths(cluster.crr.value.status.conditions))
  {
  }

  /**
    Over every run: the revocation timestamp and the reference to the previous signer never change
    or vanish once set, no condition type is lost or duplicated, nothing recorded True becomes
    False, and the True conditions are always a prefix of the five phases.
   */
  lemma {:induction false} StatusNeverGoesBack(config: Config, states: seq<Cluster>, steps: seq<Step>, i: nat, j: nat)
    requires IsRun(config, states, steps) && i <= j < |states|
    requires states[j].crr.Some?
    ensures states[i].crr.Some?
    ensures states[j].crr.value.name == states[i].crr.value.name
    ensures states[j].crr.value.signerClass == states[i].crr.value.signerClass
    ensures StatusForward(states[i].crr.value.status, states[j].crr.value.status)
    ensures UniqueKinds(states[j].crr.value.status.conditions)
    ensures IsPhasePrefix(Truths(states[j].crr.value.status.conditions))
    decreases j - i
  {
    RunKeepsInvariant(config, states, steps, j);
    InvariantOrdersStatus(config, states[j]);
    if i == j {
    } else {
      RunStepForward(config, states, steps, j - 1);
      StatusNeverGoesBack(config, states, steps, i, j - 1);
      ForwardTransitive(states[i].crr.value.status, states[j - 1].crr.value.status, states[j].crr.value.status);
    }
  }

  lemma ForwardTransitive(a: Status, b: Status, c: Status)
    requires StatusForward(a, b) && StatusForward(b, c)
    ensures StatusForward(a, c)
  {
  }

  // ---- certificates put back ----

  lemma StatusWriteBreaksPrefix(config: Config, cluster: Cluster, crr: Request, inputs: Inputs, write: Write)
    requires StatusInvariant(config, cluster, crr) && PhaseFacts(config, cluster, crr, write) && IsStatusWrite(write)
    ensures !IsPhasePrefix(Truths(Written(config, crr, inputs, write).conditions)) <==>
            write.ReportStaleLeaves? && Recorded(crr.status, PreviousCertificatesRevoked)
  {
    WrittenConditions(config, crr, inputs, write);
  }

  lemma StaleLeavesBreakPrefix(config: Config, cluster: Cluster, inputs: Inputs)
    requires cluster.crr.Some? && ListsSecrets(inputs, cluster)
    requires Guard(config, cluster, cluster.crr.value, inputs, ReportStaleLeaves)
    requires Recorded(cluster.crr.value.status, PreviousCertificatesRevoked)
    ensures Sync(config, cluster, inputs).crr.Some?
    ensures !IsPhasePrefix(Truths(Sync(config, cluster, inputs).crr.value.status.conditions))
  {
    GuardDecides(config, cluster, inputs, ReportStaleLeaves);
    WrittenConditions(config, cluster.crr.value, inputs, ReportStaleLeaves);
  }

  lemma BreakHasStaleLeaves(config: Config, cluster: Cluster, inputs: Inputs)
    requires cluster.crr.Some? && ListsSecrets(inputs, cluster) && StatusInvariant(config, cluster, cluster.crr.value)
    ensures var after := Sync(config, cluster, inputs);
            after.crr.Some?
            && (!IsPhasePrefix(Truths(after.crr.value.status.conditions)) ==>
                  && Guard(config, cluster, cluster.crr.value, inputs, ReportStaleLeaves)
                  && Recorded(cluster.crr.value.status, PreviousCertificatesRevoked))
  {
    if Process(config, cluster, inputs).Emitted? {
      var write := WriteHasGuard(config, cluster, inputs);
      GuardPhases(config, cluster, cluster.crr.value, inputs, write);
      if IsStatusWrite(write) {
        StatusWriteBreaksPrefix(config, cluster, cluster.crr.value, inputs, write);
      }
    }
  }

  /**
    Why the environment must not put old certificates back: from a status that is in order, a sync
    breaks the prefix exactly when it finds leaves that depend on such certificates after the
    request was recorded as revoked.
   */
  lemma PrefixBreaksExactlyWhen(config: Config, cluster: Cluster, inputs: Inputs)
    requires cluster.crr.Some? && ListsSecrets(inputs, cluster) && StatusInvariant(config, cluster, cluster.crr.value)
    ensures Sync(config, cluster, inputs).crr.Some?
    ensures !IsPhasePrefix(Truths(Sync(config, cluster, inputs).crr.value.status.conditions)) <==>
            && Guard(config, cluster, cluster.crr.value, inputs, ReportStaleLeaves)
            && Recorded(cluster.crr.value.status, PreviousCertificatesRevoked)
  {
    BreakHasStaleLeaves(config, cluster, inputs);
    if Guard(config, cluster, cluster.crr.value, inputs, ReportStaleLeaves)
       && Recorded(cluster.crr.value.status, PreviousCertificatesRevoked) {
      StaleLeavesBreakPrefix(config, cluster, inputs);
    }
  }

  // ---- the saved signer ----

  /** At step j a sync copied the signer, which then still held a certificate from before the cutoff. */
  ghost predicate CopiedAt(
      config: Config, states: seq<Cluster>, steps: seq<Step>, j: nat, copy: Secret, cutoff: Instant)
    requires |states| == |steps| + 1 && j < |steps|
  {
    && states[j].crr.Some?
    && var crr := states[j].crr.value;
    && Started(crr)
    && crr.status.revocationTimestamp == Some(cutoff)
    && SignerOld(states[j], crr)
    && var signer := SecretForSignerClass(crr.signerClass);
    && copy.tlsCrt == states[j].secrets[signer].tlsCrt
    && copy.tlsKey == states[j].secrets[signer].tlsKey
    && steps[j].Controller?
  }

  lemma {:induction false} CopyHasOrigin(config: Config, states: seq<Cluster>, steps: seq<Step>, i: nat)
    returns (j: nat)
    requires IsRun(config, states, steps) && i < |states|
    requires states[i].crr.Some? && config.copyName(states[i].crr.value.name) in states[i].secrets
    ensures states[i].crr.value.status.revocationTimestamp.Some?
    ensures j < i && CopiedAt(config, states, steps, j, states[i].secrets[config.copyName(states[i].crr.value.name)],
                              states[i].crr.value.status.revocationTimestamp.value)
  {
    var before, after := states[i - 1], states[i];
    assert Next(config, before, steps[i - 1], after);
    RunKeepsInvariant(config, states, steps, i - 1);
    StepKeeps(config, before, steps[i - 1], after);
    var copy := config.copyName(after.crr.value.name);
    if copy !in before.secrets {
      var write := WriteHasGuard(config, before, steps[i - 1].inputs);
      assert write.CopyOldSigner?;
      j := i - 1;
    } else {
      j := CopyHasOrigin(config, states, steps, i - 1);
      CopyUnchanged(config, before, steps[i - 1], after);
    }
  }

  /** Once it exists, the copy keeps its certificate and key: marks touch other secrets' annotations only. */
  lemma CopyUnchanged(config: Config, before: Cluster, step: Step, after: Cluster)
    requires Invariant(config, before) && Next(config, before, step, after)
    requires before.crr.Some? && config.copyName(before.crr.value.name) in before.secrets
    ensures config.copyName(before.crr.value.name) in after.secrets
    ensures var copy := config.copyName(before.crr.value.name);
            after.secrets[copy].tlsCrt == before.secrets[copy].tlsCrt
            && after.secrets[copy].tlsKey == before.secrets[copy].tlsKey
  {
    if step.Controller? && Process(config, before, step.inputs).Emitted? {
      var write := WriteHasGuard(config, before, step.inputs);
    }
  }

  /**
    The main theorem. Whenever a sync of a run declares the previous certificates revoked, the state
    it observed has a new, trusted signer, no leaf of an older generation, a class bundle without
    old certificates, and a total bundle that rejects the certificate which was the signer's own
    at an earlier point of this run, when it still was in use from before the cutoff.
   */
  lemma RevokedSignerIsTheOldOne(config: Config, states: seq<Cluster>, steps: seq<Step>, i: nat)
    returns (j: nat)
    requires IsRun(config, states, steps) && i < |steps|
    requires steps[i].Controller?
    requires EmitsTruth(config, states[i], steps[i].inputs, PreviousCertificatesRevoked)
    ensures states[i].crr.Some? && Started(states[i].crr.value)
    ensures RevocationComplete(config, states[i], states[i].crr.value, steps[i].inputs)
    ensures j < i && states[j].crr.Some? && states[j].crr.value.signerClass == states[i].crr.value.signerClass
    ensures states[j].crr.value.status.revocationTimestamp == states[i].crr.value.status.revocationTimestamp
    ensures var cutoff := states[i].crr.value.status.revocationTimestamp.value;
            var original := SignerCerts(states[j], states[j].crr.value);
            var total := LoadTrustBundle(states[i], TOTAL_CLIENT_CA);
            && original.Loaded? && total.Loaded?
            && (exists cert :: cert in original.value && cert.notBefore <= cutoff)
            && !config.verify(original.value[0], Pool(total.value), steps[i].inputs.revokeTime)
  {
    assert Next(config, states[i], steps[i], states[i + 1]);
    RevokedExactlyWhenComplete(config, states[i], steps[i].inputs);
    RunKeepsInvariant(config, states, steps, i);
    j := CopyHasOrigin(config, states, steps, i);
    StatusNeverGoesBack(config, states, steps, j, i);
  }

  /** A request recorded as revoked keeps a clean class bundle in every later state of the run. */
  lemma RevokedStaysClean(config: Config, states: seq<Cluster>, steps: seq<Step>, i: nat, j: nat)
    requires IsRun(config, states, steps) && i <= j < |states|
    requires states[j].crr.Some?
    requires states[i].crr.Some? && Recorded(states[i].crr.value.status, PreviousCertificatesRevoked)
    ensures states[j].crr.value.status.revocationTimestamp == states[i].crr.value.status.revocationTimestamp
    ensures ValidSignerClass(states[j].crr.value.signerClass) && states[j].crr.value.status.revocationTimestamp.Some?
    ensures BundleClean(states[j], states[j].crr.value.signerClass,
            states[j].crr.value.status.revocationTimestamp.value)
  {
    StatusNeverGoesBack(config, states, steps, i, j);
    RunKeepsInvariant(config, states, steps, i);
    RunKeepsInvariant(config, states, steps, j);
  }
}
