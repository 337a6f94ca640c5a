/** Sample clusters: one whose class bundle got an old certificate back, and one in good order. */
module RevocationExample {
  import opened Common
  import opened Certificates
  import opened Revocation
  import opened RevocationSafety
  import opened RevocationRuns
  import opened RevocationProgress
  import opened RevocationCooperation
  import opened RevocationClasses
  import Strings

  const CUTOFF: Instant := 5
  const NEW_SIGNER := Certificate(1, 10)
  const OLD_SIGNER := Certificate(2, 1)
  const LEAF := Certificate(3, 2)

  /** Signers verify against themselves, and the leaf against the old signer. */
  function Verify(cert: Certificate, roots: set<Certificate>, now: Instant): bool {
    cert in roots || (cert == LEAF && OLD_SIGNER in roots)
  }

  function CopyName(name: string): string {
    "copy"
  }

  const CONFIG := Config(Verify, CopyName)

  const CONDITIONS := [
    Condition(SignerClassValid, true, "AsExpected"),
    Condition(RootCertificatesRegenerated, true, "AsExpected"),
    Condition(NewCertificatesTrusted, true, "AsExpected"),
    Condition(LeafCertificatesRegenerated, true, "AsExpected"),
    Condition(PreviousCertificatesRevoked, true, "AsExpected")]

  const REQUEST := Request("r", CUSTOMER_BREAK_GLASS, Status(Some(CUTOFF), Some("copy"), CONDITIONS))

  const SIGNER_SECRET := Secret(Chain([NEW_SIGNER]), true, InspectionFailed, Some("s@0"), false)
  const COPY_SECRET := Secret(Chain([OLD_SIGNER]), true, InspectionFailed, None, false)
  const LEAF_SECRET := Secret(Chain([LEAF]), true, Inspected([CertKeyPair(false, Some("ca"), "user")]), None, false)

  const DIRTY := Cluster(
    Some(REQUEST),
    map["customer-system-admin-signer" := SIGNER_SECRET, "copy" := COPY_SECRET, "leaf" := LEAF_SECRET],
    map["customer-system-admin-signer-ca" := Chain([NEW_SIGNER, OLD_SIGNER]), TOTAL_CLIENT_CA := Chain([NEW_SIGNER])])

  const INPUTS := Inputs(["customer-system-admin-signer", "copy", "leaf"], 20, 20, 20, 20, 20, Skipped, Skipped)

  lemma DirtyNames()
    ensures ListsSecrets(INPUTS, DIRTY)
    ensures SecretForSignerClass(REQUEST.signerClass) == "customer-system-admin-signer"
    ensures ConfigMapForSignerClass(REQUEST.signerClass) == "customer-system-admin-signer-ca"
    ensures DIRTY.secrets["customer-system-admin-signer"] == SIGNER_SECRET
    ensures DIRTY.secrets["copy"] == COPY_SECRET && DIRTY.secrets["leaf"] == LEAF_SECRET
    ensures DIRTY.bundles["customer-system-admin-signer-ca"] == Chain([NEW_SIGNER, OLD_SIGNER])
    ensures DIRTY.bundles[TOTAL_CLIENT_CA] == Chain([NEW_SIGNER])
  {
    assert |"customer-system-admin-signer"| == 28 && |"copy"| == 4 && "copy"[0] != "leaf"[0];
    assert |"customer-system-admin-signer-ca"| == 31 && |TOTAL_CLIENT_CA| == 15;
    assert INPUTS.listing[0] in INPUTS.listing && INPUTS.listing[1] in INPUTS.listing;
    assert INPUTS.listing[2] in INPUTS.listing;
  }

  lemma DirtyTruths()
    ensures Truths(CONDITIONS) == {SignerClassValid, RootCertificatesRegenerated, NewCertificatesTrusted,
                                   LeafCertificatesRegenerated, PreviousCertificatesRevoked}
    ensures UniqueKinds(CONDITIONS)
  {
    assert CONDITIONS[0] in CONDITIONS && CONDITIONS[1] in CONDITIONS && CONDITIONS[2] in CONDITIONS;
    assert CONDITIONS[3] in CONDITIONS && CONDITIONS[4] in CONDITIONS;
  }

  lemma DirtyIssuer()
    ensures ParseIssuer("s@0") == Some(Issuer("s", 0))
  {
    assert "s@0" == "s" + "@" + "0";
    assert "s"[0] == 's' && "0"[0] == '0';
    assert Strings.Value("0") == 10 * Strings.Value("0"[..0]) + 0;
    ParseIssuerExact("s@0", "s", "0");
  }

  lemma DirtyLeaves()
    ensures ExistingLeaves(DIRTY.secrets, INPUTS.listing).Some?
  {
    DirtyNames();
    var listing := INPUTS.listing;
    assert listing[1..] == ["copy", "leaf"] && listing[1..][1..] == ["leaf"] && listing[1..][1..][1..] == [];
    assert ExistingLeaves(DIRTY.secrets, ["leaf"]).Some?;
    assert ExistingLeaves(DIRTY.secrets, ["copy", "leaf"]).Some?;
  }

  lemma DirtyLosesTrust()
    ensures Started(REQUEST) && ClassBundle(DIRTY, REQUEST) == Loaded([NEW_SIGNER, OLD_SIGNER])
    ensures PruningLosesTrust(CONFIG, DIRTY, REQUEST, INPUTS)
  {
    DirtyNames();
    var current := [NEW_SIGNER, OLD_SIGNER];
    SelectMembers(current, CUTOFF, true);
    var pruned := PrunedBundle(DIRTY, REQUEST);
    assert current[1] in current;
    assert LEAF_SECRET.inspection.pairs[0] in LEAF_SECRET.inspection.pairs;
    assert CONFIG.verify(LEAF, Pool(current), 20) && !CONFIG.verify(LEAF, Pool(pruned), 20);
    assert LosesTrust(CONFIG, DIRTY.secrets["leaf"], current, pruned, INPUTS);
  }

  lemma DirtyTrusted()
    ensures Started(REQUEST) && NewSignerTrusted(CONFIG, DIRTY, REQUEST, INPUTS)
  {
    DirtyNames();
    assert [NEW_SIGNER][0] in [NEW_SIGNER];
    assert CONFIG.verify(NEW_SIGNER, Pool([NEW_SIGNER]), 20);
  }

  lemma DirtyHasNoOlderLeaf()
    ensures NoOlderLeaf(DIRTY, REQUEST)
  {
    DirtyNames();
    DirtyIssuer();
  }

  lemma DirtyUnpruned()
    ensures Started(REQUEST) && BundleUnpruned(DIRTY, REQUEST)
  {
    DirtyLosesTrust();
    assert [NEW_SIGNER, OLD_SIGNER][1] == OLD_SIGNER;
  }

  lemma DirtyStatus()
    ensures StatusInvariant(CONFIG, DIRTY, REQUEST) && TrustPhases(REQUEST.status)
  {
    DirtyNames();
    DirtyTruths();
  }

  ghost predicate TrustPhases(status: Status) {
    && Recorded(status, RootCertificatesRegenerated) && Recorded(status, NewCertificatesTrusted)
    && Recorded(status, PreviousCertificatesRevoked)
  }

  lemma DirtyGuard()
    ensures Guard(CONFIG, DIRTY, REQUEST, INPUTS, ReportStaleLeaves)
  {
    DirtyTrusted();
    DirtyHasNoOlderLeaf();
    DirtyUnpruned();
    DirtyLeaves();
    DirtyLosesTrust();
    DirtyStatus();
  }

  /** A status in order with every phase recorded, which the next sync breaks. */
  lemma DirtyBundleBreaksPrefix()
    ensures ListsSecrets(INPUTS, DIRTY) && DIRTY.crr == Some(REQUEST) && StatusInvariant(CONFIG, DIRTY, REQUEST)
    ensures Recorded(REQUEST.status, PreviousCertificatesRevoked)
    ensures Sync(CONFIG, DIRTY, INPUTS).crr.Some?
    ensures !IsPhasePrefix(Truths(Sync(CONFIG, DIRTY, INPUTS).crr.value.status.conditions))
  {
    DirtyNames();
    DirtyStatus();
    DirtyGuard();
    StaleLeavesBreakPrefix(CONFIG, DIRTY, INPUTS);
  }

  // ---- a cluster in good order ----

  const OTHER_SIGNER := Certificate(4, 1)

  function IssuerOf(cert: Certificate): Certificate {
    if cert == LEAF then OLD_SIGNER else cert
  }

  function VerifyByIssuer(cert: Certificate, roots: set<Certificate>, now: Instant): bool {
    IssuerOf(cert) in roots
  }

  const IDEAL := Config(VerifyByIssuer, CopyName)

  const NEW_REQUEST := Request("r", CUSTOMER_BREAK_GLASS, Status(None, None, []))

  const OLD_SIGNER_SECRET := Secret(Chain([OLD_SIGNER]), true, InspectionFailed, Some("s@0"), false)
  const ISSUED_LEAF_SECRET := Secret(Chain([LEAF]), true, Inspected([CertKeyPair(false, Some("ca"), "user")]),
      Some("s@0"), false)

  /** The signer is in use, has issued a leaf, and both class bundles are published. */
  const TIDY := Cluster(
    Some(NEW_REQUEST),
    map["customer-system-admin-signer" := OLD_SIGNER_SECRET, "leaf" := ISSUED_LEAF_SECRET],
    map["customer-system-admin-signer-ca" := Chain([OLD_SIGNER]), "sre-system-admin-signer-ca" := Chain([OTHER_SIGNER]),
        TOTAL_CLIENT_CA := Chain([OLD_SIGNER, OTHER_SIGNER])])

  lemma TidyNames()
    ensures Signer(NEW_REQUEST) == "customer-system-admin-signer"
    ensures OtherConfigMap(NEW_REQUEST.signerClass) == "sre-system-admin-signer-ca"
    ensures ConfigMapForSignerClass(NEW_REQUEST.signerClass) == "customer-system-admin-signer-ca"
    ensures TIDY.secrets["customer-system-admin-signer"] == OLD_SIGNER_SECRET
    ensures TIDY.secrets["leaf"] == ISSUED_LEAF_SECRET
    ensures TIDY.bundles["customer-system-admin-signer-ca"] == Chain([OLD_SIGNER])
    ensures TIDY.bundles["sre-system-admin-signer-ca"] == Chain([OTHER_SIGNER])
    ensures TIDY.bundles[TOTAL_CLIENT_CA] == Chain([OLD_SIGNER, OTHER_SIGNER])
    ensures "copy" !in TIDY.secrets && '-' !in "copy"
  {
    assert |"customer-system-admin-signer"| == 28 && |"copy"| == 4 && "copy"[0] != "leaf"[0];
    assert |"customer-system-admin-signer-ca"| == 31 && |"sre-system-admin-signer-ca"| == 26 && |TOTAL_CLIENT_CA| == 15;
  }

  lemma TidySigner()
    ensures SignerSound(IssuerOf, TIDY, NEW_REQUEST)
  {
    TidyNames();
    DirtyIssuer();
    assert [OLD_SIGNER][0] == OLD_SIGNER;
  }

  lemma TidySecrets()
    ensures SignerSound(IssuerOf, TIDY, NEW_REQUEST) && SecretsSound(IssuerOf, TIDY, NEW_REQUEST)
  {
    TidyNames();
    TidySigner();
    DirtyIssuer();
  }

  lemma TidySettled()
    ensures Settled(TIDY, NEW_REQUEST)
  {
    TidyNames();
    assert Pool([OLD_SIGNER, OTHER_SIGNER]) == Pool([OLD_SIGNER]) + Pool([OTHER_SIGNER]) by {
      assert [OLD_SIGNER, OTHER_SIGNER] == [OLD_SIGNER] + [OTHER_SIGNER];
    }
  }

  /** The facts from which cooperation completes are met by a cluster at the start of a revocation. */
  lemma TidyIsReady()
    ensures ValidConfig(IDEAL) && VerifiesByIssuer(IDEAL, IssuerOf) && Initial(IDEAL, TIDY)
    ensures Ready(IDEAL, IssuerOf, TIDY)
  {
    TidyNames();
    TidySecrets();
    TidySettled();
  }

  // ---- a signer rotated too early ----

  const COMMITTED := TIDY.(crr := Some(NEW_REQUEST.(
    status := Status(Some(CUTOFF), None, [Condition(SignerClassValid, true, "AsExpected")]))))

  const ROTATED := COMMITTED.(secrets := COMMITTED.secrets["customer-system-admin-signer" := SIGNER_SECRET])

  const TIDY_INPUTS := Inputs(["customer-system-admin-signer", "leaf"], CUTOFF, 20, 20, 20, 20, Skipped, Skipped)

  lemma TidyIsListed()
    ensures ListsSecrets(TIDY_INPUTS, TIDY) && ListsSecrets(TIDY_INPUTS, ROTATED)
  {
    TidyNames();
    var listing := TIDY_INPUTS.listing;
    assert listing[0] in listing && listing[1] in listing && |listing[0]| == 28 && |listing[1]| == 4;
  }

  /** The first sync commits the timestamp. */
  lemma TidyCommits()
    ensures Sync(IDEAL, TIDY, TIDY_INPUTS) == COMMITTED
  {
    assert Merge([], [Condition(SignerClassValid, true, "AsExpected")])
        == [Condition(SignerClassValid, true, "AsExpected")];
  }

  /**
    If others rotate the signer before the second sync has copied it, that sync needs the reference
    to a previous signer that was never recorded, and panics.
   */
  lemma EarlyRotationPanics()
    ensures IsRun(IDEAL, [TIDY, COMMITTED, ROTATED], [Controller(TIDY_INPUTS, true), Environment])
    ensures ListsSecrets(TIDY_INPUTS, ROTATED) && Process(IDEAL, ROTATED, TIDY_INPUTS).Panicked?
  {
    TidyNames();
    TidyIsListed();
    TidyIsReady();
    TidyCommits();
    var crr := ROTATED.crr.value;
    assert NEW_SIGNER == [NEW_SIGNER][0];
    assert SignerCerts(ROTATED, crr) == Loaded([NEW_SIGNER]) && SignerNew(ROTATED, crr);
    assert !Recorded(crr.status, RootCertificatesRegenerated) && !Recorded(crr.status, LeafCertificatesRegenerated);
    PanicsExactlyWhen(IDEAL, ROTATED, TIDY_INPUTS);
    var states, steps := [TIDY, COMMITTED, ROTATED], [Controller(TIDY_INPUTS, true), Environment];
    assert Next(IDEAL, states[0], steps[0], states[1]);
    assert Next(IDEAL, states[1], steps[1], states[2]);
  }

  // ---- a signer of the other class that claims the wrong issuer ----

  const FOREIGN_SECRET := Secret(Chain([OTHER_SIGNER]), true, InspectionFailed, Some("s@-1"), false)

  /** The other class's signer is annotated as issued by an earlier generation of the revoked one. */
  const FOREIGN := Cluster(
    Some(REQUEST),
    map["sre-system-admin-signer" := FOREIGN_SECRET, "customer-system-admin-signer" := SIGNER_SECRET],
    map[TOTAL_CLIENT_CA := Chain([NEW_SIGNER])])

  const FOREIGN_INPUTS :=
    Inputs(["sre-system-admin-signer", "customer-system-admin-signer"], 20, 20, 20, 20, 20, Skipped, Skipped)

  lemma ForeignNames()
    ensures ListsSecrets(FOREIGN_INPUTS, FOREIGN)
    ensures FOREIGN.secrets["customer-system-admin-signer"] == SIGNER_SECRET
    ensures FOREIGN.secrets["sre-system-admin-signer"] == FOREIGN_SECRET
  {
    var listing := FOREIGN_INPUTS.listing;
    assert listing[0] in listing && listing[1] in listing && |listing[0]| == 23 && |listing[1]| == 28;
  }

  lemma ForeignIssuer()
    ensures ParseIssuer("s@-1") == Some(Issuer("s", -1))
  {
    Strings.ParsePrinted(-1);
    assert Strings.PrintDigits(1) == "1" && "-" + "1" == "-1";
    assert "s@-1" == "s" + "@" + "-1";
    assert "s"[0] == 's' && "-1"[0] == '-' && "-1"[1] == '1';
    ParseIssuerExact("s@-1", "s", "-1");
  }

  lemma ForeignTrusted()
    ensures Started(REQUEST) && TrustRecorded(CONFIG, FOREIGN, REQUEST, FOREIGN_INPUTS)
  {
    ForeignNames();
    DirtyTruths();
    ClassNames(REQUEST.signerClass, "customer-system-admin-signer", "customer-system-admin-signer-ca");
    assert [NEW_SIGNER][0] in [NEW_SIGNER];
    assert CONFIG.verify(NEW_SIGNER, Pool([NEW_SIGNER]), 20);
  }

  lemma ForeignIsStale()
    ensures ValidSignerClass(REQUEST.signerClass) && SignerIssuer(FOREIGN, REQUEST) == Some(Issuer("s", 0))
    ensures ScanLeaves(FOREIGN.secrets, FOREIGN_INPUTS.listing, Issuer("s", 0)) == StaleLeaf("sre-system-admin-signer")
  {
    ForeignNames();
    ForeignIssuer();
    DirtyIssuer();
    ClassNames(REQUEST.signerClass, "customer-system-admin-signer", "customer-system-admin-signer-ca");
  }

  /** Revoking the customer class then marks the signer of the other class for regeneration. */
  lemma ForeignSignerIsMarked()
    ensures FOREIGN.crr == Some(REQUEST) && REQUEST.signerClass == "customer-break-glass"
    ensures ListsSecrets(FOREIGN_INPUTS, FOREIGN)
    ensures Process(CONFIG, FOREIGN, FOREIGN_INPUTS) == Marking("sre-system-admin-signer")
  {
    ForeignNames();
    ForeignTrusted();
    ForeignIsStale();
    var write := MarkLeaf("sre-system-admin-signer");
    assert Guard(CONFIG, FOREIGN, REQUEST, FOREIGN_INPUTS, write);
    GuardDecides(CONFIG, FOREIGN, FOREIGN_INPUTS, write);
  }
}
