/**
  Progress of the revocation protocol. A rank counts what is left to do; no write of the
  controller raises it, and all but the two kinds of waiting write lower it. When the other
  controllers answer between syncs, the revocation completes within as many rounds as the rank.
 */
module RevocationProgress {
  import opened Common
  import opened Certificates
  import opened Revocation
  import opened RevocationSafety
  import opened RevocationRuns

  /** A base-36 numeral has no '-', so the copy never collides with a signer secret. */
  ghost predicate ValidConfig(config: Config) {
    forall name :: '-' !in config.copyName(name)
  }

  // ---- the rank ----

  ghost predicate SignerMarked(cluster: Cluster, crr: Request)
    requires ValidSignerClass(crr.signerClass)
  {
    var signer := SecretForSignerClass(crr.signerClass);
    signer in cluster.secrets && cluster.secrets[signer].forceRegeneration
  }

  ghost function SignerRank(cluster: Cluster, crr: Request): nat
    requires ValidSignerClass(crr.signerClass)
  {
    if Started(crr) && SignerNew(cluster, crr) then 0
    else if Started(crr) && SignerMarked(cluster, crr) then 1
    else 2
  }

  ghost function BundleRank(cluster: Cluster, crr: Request): nat
    requires ValidSignerClass(crr.signerClass)
  {
    if Started(crr) && BundleClean(cluster, crr.signerClass, crr.status.revocationTimestamp.value) then 0 else 1
  }

  function CopyRank(config: Config, cluster: Cluster, crr: Request): nat {
    if config.copyName(crr.name) in cluster.secrets then 0 else 1
  }

  /** The leaves of an older generation that nobody has asked to regenerate yet. */
  function UnmarkedLeaves(cluster: Cluster, crr: Request): set<string>
    requires ValidSignerClass(crr.signerClass)
  {
    if SignerIssuer(cluster, crr).None? then {}
    else set name | name in cluster.secrets
                    && IssuedByOlder(cluster.secrets[name], SignerIssuer(cluster, crr).value)
                    && !cluster.secrets[name].forceRegeneration
  }

  function Issued(cluster: Cluster): set<string> {
    set name | name in cluster.secrets && cluster.secrets[name].issuer.Some?
  }

  /** Until the signer is new, any issued certificate may turn out to be of an older generation. */
  ghost function LeafRank(cluster: Cluster, crr: Request): nat
    requires ValidSignerClass(crr.signerClass)
  {
    if Started(crr) && SignerNew(cluster, crr) then |UnmarkedLeaves(cluster, crr)| else |Issued(cluster)|
  }

  function StatusRank(status: Status): nat {
    (if status.revocationTimestamp.None? then 1 else 0)
    + (if status.previousSigner.None? then 1 else 0)
    + (if Recorded(status, RootCertificatesRegenerated) then 0 else 1)
    + (if Recorded(status, NewCertificatesTrusted) then 0 else 1)
    + (if Recorded(status, LeafCertificatesRegenerated) then 0 else 1)
    + (if Recorded(status, PreviousCertificatesRevoked) then 0 else 1)
  }

  ghost function Rank(config: Config, cluster: Cluster, crr: Request): nat
    requires ValidSignerClass(crr.signerClass)
  {
    StatusRank(crr.status) + CopyRank(config, cluster, crr) + SignerRank(cluster, crr)
    + BundleRank(cluster, crr) + LeafRank(cluster, crr)
  }

  lemma UnmarkedAreIssued(cluster: Cluster, crr: Request)
    requires ValidSignerClass(crr.signerClass)
    ensures |UnmarkedLeaves(cluster, crr)| <= |Issued(cluster)|
  {
    SubsetSize(UnmarkedLeaves(cluster, crr), Issued(cluster));
  }

  /** Any request is at most ten steps, plus one per issued certificate, away from completion. */
  lemma RankBound(config: Config, cluster: Cluster, crr: Request)
    requires ValidSignerClass(crr.signerClass)
    ensures Rank(config, cluster, crr) <= 10 + |Issued(cluster)|
  {
    UnmarkedAreIssued(cluster, crr);
  }

  // ---- how each write moves the rank ----

  /** Writes that may be repeated while the controller waits for other actors. */
  predicate IsWaiting(cluster: Cluster, write: Write) {
    || write.ReportStaleLeaves?
    || (write.MarkLeaf? && write.name in cluster.secrets && cluster.secrets[write.name].forceRegeneration)
  }

  lemma StatusWriteRank(config: Config, cluster: Cluster, crr: Request, inputs: Inputs, write: Write)
    requires RequestInvariant(config, cluster, crr) && ValidSignerClass(crr.signerClass)
    requires PhaseFacts(config, cluster, crr, write) && IsStatusWrite(write)
    ensures StatusRank(Written(config, crr, inputs, write)) <= StatusRank(crr.status)
    ensures write.ReportStaleLeaves? || StatusRank(Written(config, crr, inputs, write)) < StatusRank(crr.status)
  {
    WrittenConditions(config, crr, inputs, write);
  }

  /** A status write leaves the parts of the rank that read secrets and bundles alone, or lowers them. */
  lemma StatusWriteElsewhere(config: Config, cluster: Cluster, crr: Request, written: Status)
    requires ValidSignerClass(crr.signerClass)
    requires crr.status.revocationTimestamp.Some? ==> written.revocationTimestamp == crr.status.revocationTimestamp
    ensures var after := crr.(status := written);
            && CopyRank(config, cluster, after) == CopyRank(config, cluster, crr)
            && SignerRank(cluster, after) <= SignerRank(cluster, crr)
            && BundleRank(cluster, after) <= BundleRank(cluster, crr)
            && LeafRank(cluster, after) <= LeafRank(cluster, crr)
  {
    var after := crr.(status := written);
    assert UnmarkedLeaves(cluster, after) == UnmarkedLeaves(cluster, crr);
    UnmarkedAreIssued(cluster, crr);
  }

  /** The rank reads the request it is given, not the one stored in the cluster. */
  lemma StoredRequestUnread(config: Config, before: Cluster, after: Cluster, crr: Request)
    requires ValidSignerClass(crr.signerClass)
    requires after.secrets == before.secrets && after.bundles == before.bundles
    ensures Rank(config, after, crr) == Rank(config, before, crr)
  {
    assert UnmarkedLeaves(after, crr) == UnmarkedLeaves(before, crr);
    assert Issued(after) == Issued(before);
  }

  lemma CopyIsNotSigner(config: Config, name: string, signerClass: string)
    requires ValidConfig(config) && ValidSignerClass(signerClass)
    ensures config.copyName(name) != SecretForSignerClass(signerClass)
  {
    var signer := SecretForSignerClass(signerClass);
    assert '-' !in config.copyName(name);
    assert signer[if signerClass == CUSTOMER_BREAK_GLASS then 8 else 3] == '-';
  }

  /** Copying the signer adds one secret without an issuer: one item less to do. */
  lemma CopyWriteRank(config: Config, cluster: Cluster, crr: Request, copy: Secret)
    requires ValidConfig(config) && ValidSignerClass(crr.signerClass)
    requires config.copyName(crr.name) !in cluster.secrets && copy.issuer.None?
    ensures var after := cluster.(secrets := cluster.secrets[config.copyName(crr.name) := copy]);
            Rank(config, after, crr) < Rank(config, cluster, crr)
  {
    CopyIsNotSigner(config, crr.name, crr.signerClass);
    var after := cluster.(secrets := cluster.secrets[config.copyName(crr.name) := copy]);
    assert UnmarkedLeaves(after, crr) == UnmarkedLeaves(cluster, crr);
    assert Issued(after) == Issued(cluster);
  }

  function Marked(cluster: Cluster, name: string): Cluster
    requires name in cluster.secrets
  {
    cluster.(secrets := cluster.secrets[name := cluster.secrets[name].(forceRegeneration := true)])
  }

  /** A mark changes no certificate and no issuer. */
  lemma MarkKeeps(config: Config, cluster: Cluster, crr: Request, name: string)
    requires ValidSignerClass(crr.signerClass) && name in cluster.secrets
    ensures CopyRank(config, Marked(cluster, name), crr) == CopyRank(config, cluster, crr)
    ensures BundleRank(Marked(cluster, name), crr) == BundleRank(cluster, crr)
    ensures Started(crr) ==> SignerNew(Marked(cluster, name), crr) == SignerNew(cluster, crr)
    ensures Issued(Marked(cluster, name)) == Issued(cluster)
    ensures UnmarkedLeaves(Marked(cluster, name), crr) == UnmarkedLeaves(cluster, crr) - {name}
  {
  }

  /** Marking the signer, or a leaf of an older generation, that was not marked yet: one item less. */
  lemma MarkWriteRank(config: Config, cluster: Cluster, crr: Request, name: string)
    requires Started(crr) && name in cluster.secrets
    ensures Rank(config, Marked(cluster, name), crr) <= Rank(config, cluster, crr)
    ensures SignerNew(cluster, crr) && name in UnmarkedLeaves(cluster, crr)
            ==> Rank(config, Marked(cluster, name), crr) < Rank(config, cluster, crr)
    ensures name == SecretForSignerClass(crr.signerClass) && SignerRank(cluster, crr) == 2
            ==> Rank(config, Marked(cluster, name), crr) < Rank(config, cluster, crr)
  {
    MarkKeeps(config, cluster, crr, name);
    if name in UnmarkedLeaves(cluster, crr) {
      assert |UnmarkedLeaves(cluster, crr) - {name}| == |UnmarkedLeaves(cluster, crr)| - 1;
    } else {
      assert UnmarkedLeaves(cluster, crr) - {name} == UnmarkedLeaves(cluster, crr);
    }
  }

  lemma PruneWriteRank(config: Config, cluster: Cluster, crr: Request)
    requires Started(crr) && BundleUnpruned(cluster, crr)
    ensures var after := cluster.(bundles := cluster.bundles[ConfigMapForSignerClass(crr.signerClass)
                                                             := Chain(PrunedBundle(cluster, crr))]);
            Rank(config, after, crr) < Rank(config, cluster, crr)
  {
    SelectMembers(ClassBundle(cluster, crr).value, crr.status.revocationTimestamp.value, true);
    var after := cluster.(bundles := cluster.bundles[ConfigMapForSignerClass(crr.signerClass)
                                                     := Chain(PrunedBundle(cluster, crr))]);
    assert UnmarkedLeaves(after, crr) == UnmarkedLeaves(cluster, crr);
    assert Issued(after) == Issued(cluster);
  }

  lemma StatusWriteLowers(config: Config, cluster: Cluster, crr: Request, inputs: Inputs, write: Write)
    requires RequestInvariant(config, cluster, crr) && ValidSignerClass(crr.signerClass)
    requires PhaseFacts(config, cluster, crr, write) && IsStatusWrite(write)
    ensures var written := crr.(status := Written(config, crr, inputs, write));
            var after := cluster.(crr := Some(written));
            && Rank(config, after, written) <= Rank(config, cluster, crr)
            && (write.ReportStaleLeaves? || Rank(config, after, written) < Rank(config, cluster, crr))
  {
    var written := crr.(status := Written(config, crr, inputs, write));
    StatusWriteRank(config, cluster, crr, inputs, write);
    StatusWriteElsewhere(config, cluster, crr, written.status);
    StoredRequestUnread(config, cluster, cluster.(crr := Some(written)), written);
  }

  lemma LeafMarkLowers(config: Config, cluster: Cluster, crr: Request, inputs: Inputs, name: string)
    requires Started(crr) && SignerNew(cluster, crr) && Due(config, cluster, crr, inputs, MarkLeaf(name))
    ensures name in cluster.secrets
    ensures Rank(config, Marked(cluster, name), crr) <= Rank(config, cluster, crr)
    ensures cluster.secrets[name].forceRegeneration
            || Rank(config, Marked(cluster, name), crr) < Rank(config, cluster, crr)
  {
    ScanLeavesMeaning(cluster.secrets, inputs.listing, SignerIssuer(cluster, crr).value);
    MarkWriteRank(config, cluster, crr, name);
  }

  /**
    No write of the controller raises the rank, and every write lowers it except the two that wait:
    the "leaves are stale" status and a mark sent to a leaf that already carries it.
   */
  lemma WritesLowerTheRank(config: Config, cluster: Cluster, inputs: Inputs, write: Write)
    requires ValidConfig(config) && Invariant(config, cluster)
    requires cluster.crr.Some? && ValidSignerClass(cluster.crr.value.signerClass)
    requires Guard(config, cluster, cluster.crr.value, inputs, write)
    ensures var after := Apply(cluster, WriteActions(config, cluster, cluster.crr.value, inputs, write));
            && after.crr.Some? && after.crr.value.signerClass == cluster.crr.value.signerClass
            && Rank(config, after, after.crr.value) <= Rank(config, cluster, cluster.crr.value)
            && (!IsWaiting(cluster, write) ==>
                Rank(config, after, after.crr.value) < Rank(config, cluster, cluster.crr.value))
  {
    var crr := cluster.crr.value;
    if IsStatusWrite(write) {
      GuardPhases(config, cluster, crr, inputs, write);
      StatusWriteLowers(config, cluster, crr, inputs, write);
    } else if write.CopyOldSigner? {
      var signer := cluster.secrets[SecretForSignerClass(crr.signerClass)];
      CopyWriteRank(config, cluster, crr, Secret(signer.tlsCrt, signer.tlsKey, signer.inspection, None, false));
    } else if write.MarkSigner? {
      MarkWriteRank(config, cluster, crr, SecretForSignerClass(crr.signerClass));
    } else if write.MarkLeaf? {
      LeafMarkLowers(config, cluster, crr, inputs, write.name);
    } else {
      PruneWriteRank(config, cluster, crr);
    }
  }

  // ---- completion ----

  /** Issuers parse, and no leaf of an older generation is still waiting with its mark on. */
  ghost predicate LeavesAnswered(cluster: Cluster, crr: Request)
    requires ValidSignerClass(crr.signerClass)
  {
    && SignerIssuer(cluster, crr).Some?
    && forall name :: name in cluster.secrets ==>
         && WellFormedIssuer(cluster.secrets[name])
         && !(IssuedByOlder(cluster.secrets[name], SignerIssuer(cluster, crr).value)
              && cluster.secrets[name].forceRegeneration)
  }

  ghost predicate BundleAnswered(config: Config, cluster: Cluster, crr: Request, inputs: Inputs)
    requires Started(crr)
  {
    && ClassBundle(cluster, crr).Loaded?
    && (NoOlderLeaf(cluster, crr) && BundleUnpruned(cluster, crr) ==>
          ExistingLeaves(cluster.secrets, inputs.listing).Some? && !PruningLosesTrust(config, cluster, crr, inputs))
    && (BundlePruned(cluster, crr) ==> OldSignerRejected(config, cluster, crr, inputs))
  }

  /**
    The other controllers have answered what the protocol is waiting for: marked certificates are
    regenerated, the bundles are published and the API server has loaded them.
   */
  ghost predicate Answered(config: Config, cluster: Cluster, crr: Request, inputs: Inputs)
    requires ValidSignerClass(crr.signerClass)
  {
    Started(crr) ==>
      && SignerCerts(cluster, crr).Loaded?
      && (SignerOld(cluster, crr) && crr.status.previousSigner.Some? ==> !SignerMarked(cluster, crr))
      && (SignerNew(cluster, crr) ==>
            && crr.status.previousSigner.Some?
            && NewSignerTrusted(config, cluster, crr, inputs)
            && LeavesAnswered(cluster, crr)
            && BundleAnswered(config, cluster, crr, inputs))
  }

  /** With every answer in, an incomplete revocation has a write to make, and not one that waits. */
  lemma AnsweredHasWrite(config: Config, cluster: Cluster, crr: Request, inputs: Inputs) returns (write: Write)
    requires RequestInvariant(config, cluster, crr) && ListsSecrets(inputs, cluster)
    requires ValidSignerClass(crr.signerClass) && Answered(config, cluster, crr, inputs)
    requires !Recorded(crr.status, PreviousCertificatesRevoked)
    ensures Guard(config, cluster, crr, inputs, write) && !IsWaiting(cluster, write)
  {
    if !Started(crr) {
      write := CommitTimestamp;
    } else if SignerOld(cluster, crr) {
      write := if config.copyName(crr.name) !in cluster.secrets then CopyOldSigner
               else if crr.status.previousSigner.None? then RecordCopy
               else MarkSigner;
    } else if !Recorded(crr.status, RootCertificatesRegenerated) {
      write := RecordNewSigner;
    } else if !Recorded(crr.status, NewCertificatesTrusted) {
      write := RecordTrust;
    } else if !NoOlderLeaf(cluster, crr) {
      var current := SignerIssuer(cluster, crr).value;
      ScanLeavesMeaning(cluster.secrets, inputs.listing, current);
      write := MarkLeaf(ScanLeaves(cluster.secrets, inputs.listing, current).name);
    } else {
      write := if BundleUnpruned(cluster, crr) then PruneBundle
               else if !Recorded(crr.status, LeafCertificatesRegenerated) then RecordPruned
               else RecordRevoked;
    }
  }

  /** A round: a sync with every answer in, then other actors' changes that undo no progress. */
  ghost predicate Round(config: Config, before: Cluster, inputs: Inputs, after: Cluster) {
    && before.crr.Some? && after.crr.Some?
    && ValidSignerClass(before.crr.value.signerClass)
    && ListsSecrets(inputs, before)
    && Answered(config, before, before.crr.value, inputs)
    && EnvironmentStep(config, Sync(config, before, inputs), after)
    && Sync(config, before, inputs).crr == after.crr
    && ValidSignerClass(after.crr.value.signerClass)
    && Rank(config, after, after.crr.value) <= Rank(config, Sync(config, before, inputs), after.crr.value)
  }

  lemma RoundLowersRank(config: Config, before: Cluster, inputs: Inputs, after: Cluster)
    requires ValidConfig(config) && Invariant(config, before) && Round(config, before, inputs, after)
    ensures Invariant(config, after)
    ensures !Recorded(before.crr.value.status, PreviousCertificatesRevoked)
            ==> Rank(config, after, after.crr.value) < Rank(config, before, before.crr.value)
  {
    SyncKeeps(config, before, inputs);
    StepKeeps(config, Sync(config, before, inputs), Environment, after);
    if !Recorded(before.crr.value.status, PreviousCertificatesRevoked) {
      var write := AnsweredHasWrite(config, before, before.crr.value, inputs);
      GuardDecides(config, before, inputs, write);
      WritesLowerTheRank(config, before, inputs, write);
    }
  }

  /** Any sequence of rounds as long as the rank it starts from passes through completion. */
  lemma {:induction false} CompletesWithinRank(config: Config, states: seq<Cluster>, rounds: seq<Inputs>)
    returns (done: nat)
    requires ValidConfig(config) && |states| == |rounds| + 1 && Invariant(config, states[0])
    requires forall i {:trigger rounds[i]} :: 0 <= i < |rounds| ==> Round(config, states[i], rounds[i], states[i + 1])
    requires states[0].crr.Some? && ValidSignerClass(states[0].crr.value.signerClass)
    requires |rounds| >= Rank(config, states[0], states[0].crr.value)
    ensures done <= Rank(config, states[0], states[0].crr.value) && done < |states|
    ensures states[done].crr.Some? && Recorded(states[done].crr.value.status, PreviousCertificatesRevoked)
    decreases |rounds|
  {
    if Recorded(states[0].crr.value.status, PreviousCertificatesRevoked) {
      done := 0;
    } else {
      assert Rank(config, states[0], states[0].crr.value) >= 1;
      assert Round(config, states[0], rounds[0], states[1]);
      RoundLowersRank(config, states[0], rounds[0], states[1]);
      forall i | 0 <= i < |rounds[1..]|
        ensures Round(config, states[1..][i], rounds[1..][i], states[1..][i + 1])
      {
        assert Round(config, states[i + 1], rounds[i + 1], states[i + 2]);
      }
      var rest := CompletesWithinRank(config, states[1..], rounds[1..]);
      done := rest + 1;
    }
  }
}
