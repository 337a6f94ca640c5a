/**
  The certificate revocation controller: six steps, each a decision over the observed cluster that
  either hands off to the next step or settles the sync with at most one write.
 */
module Revocation {
  import opened Common
  import opened Certificates
  import Strings

  // ---- observed objects ----

  /** PEM data under a key: missing, not parseable as certificates, or a list of certificates. */
  datatype Pem = Absent | Malformed | Chain(certs: seq<Certificate>)

  datatype CertKeyPair = CertKeyPair(signerDetails: bool, issuer: Option<string>, commonName: string)

  /** The result of inspecting a secret's certificate and key. */
  datatype Inspection = InspectionFailed | Inspected(pairs: seq<CertKeyPair>)

  datatype Secret = Secret(
    tlsCrt: Pem,
    tlsKey: bool,
    inspection: Inspection,
    issuer: Option<string>,
    forceRegeneration: bool)

  datatype Status = Status(
    revocationTimestamp: Option<Instant>,
    previousSigner: Option<string>,
    conditions: seq<Condition>)

  datatype Request = Request(name: string, signerClass: string, status: Status)

  /** One hosted control plane namespace. `bundles` are the configmaps holding a CA bundle. */
  datatype Cluster = Cluster(crr: Option<Request>, secrets: map<string, Secret>, bundles: map<string, Pem>)

  /** What the protocol treats as given: path validation, and the name a request's signer copy gets. */
  datatype Config = Config(verify: Verifier, copyName: string -> string)

  datatype KasReply = Skipped | Accepted | Unauthorized | Failed

  /** What one sync gets from outside the cluster: list order, clock readings, API server replies. */
  datatype Inputs = Inputs(
    listing: seq<string>,
    commitTime: Instant,
    propagateTime: Instant,
    currentTrustTime: Instant,
    futureTrustTime: Instant,
    revokeTime: Instant,
    newSignerReply: KasReply,
    oldSignerReply: KasReply)

  ghost predicate ListsSecrets(inputs: Inputs, cluster: Cluster) {
    forall name :: name in inputs.listing <==> name in cluster.secrets
  }

  // ---- names ----

  const CUSTOMER_BREAK_GLASS := "customer-break-glass"
  const SRE_BREAK_GLASS := "sre-break-glass"
  const TOTAL_CLIENT_CA := "total-client-ca"

  predicate ValidSignerClass(signerClass: string) {
    signerClass == CUSTOMER_BREAK_GLASS || signerClass == SRE_BREAK_GLASS
  }

  function SecretForSignerClass(signerClass: string): string
    requires ValidSignerClass(signerClass)
  {
    if signerClass == CUSTOMER_BREAK_GLASS then "customer-system-admin-signer" else "sre-system-admin-signer"
  }

  function ConfigMapForSignerClass(signerClass: string): string
    requires ValidSignerClass(signerClass)
  {
    if signerClass == CUSTOMER_BREAK_GLASS then "customer-system-admin-signer-ca" else "sre-system-admin-signer-ca"
  }

  // ---- writes ----

  datatype SecretWrite = CopySigner(tlsCrt: Pem, tlsKey: bool, inspection: Inspection) | MarkForRegeneration

  /** As in the source, three optional writes of which at most one may be set. */
  datatype Actions = Actions(
    crr: Option<Status>,
    secret: Option<(string, SecretWrite)>,
    cm: Option<(string, seq<Certificate>)>)

  datatype Outcome = Panicked | Errored | Requeued | Nothing | Emitted(actions: Actions)

  datatype StepResult = HandOff | Done(outcome: Outcome)

  function WriteCount(actions: Actions): nat {
    (if actions.crr.Some? then 1 else 0) + (if actions.cm.Some? then 1 else 0) + (if actions.secret.Some? then 1 else 0)
  }

  function EmitStatus(status: Status): StepResult {
    Done(Emitted(Actions(Some(status), None, None)))
  }

  function EmitSecret(name: string, write: SecretWrite): StepResult {
    Done(Emitted(Actions(None, Some((name, write)), None)))
  }

  function EmitBundle(name: string, certs: seq<Certificate>): StepResult {
    Done(Emitted(Actions(None, None, Some((name, certs)))))
  }

  /** The next status: timestamp and reference re-sent, conditions merged. */
  function Resend(status: Status, updated: seq<Condition>): Status {
    Status(status.revocationTimestamp, status.previousSigner, Merge(status.conditions, updated))
  }

  // ---- reads ----

  datatype Load<T> = NotFound | LoadError | Loaded(value: T)

  function LoadPem(pem: Pem): Load<seq<Certificate>> {
    if pem.Chain? && pem.certs != [] then Loaded(pem.certs) else LoadError
  }

  function LoadCertificateSecret(cluster: Cluster, name: string): Load<seq<Certificate>> {
    if name !in cluster.secrets then NotFound else LoadPem(cluster.secrets[name].tlsCrt)
  }

  function LoadTrustBundle(cluster: Cluster, name: string): Load<seq<Certificate>> {
    if name !in cluster.bundles then NotFound else LoadPem(cluster.bundles[name])
  }

  predicate Recorded(status: Status, kind: ConditionType) {
    kind in Truths(status.conditions)
  }

  datatype Issuer = Issuer(name: string, seconds: int)

  /** "namespace_name@1705510729": the issuer's name and the unix second it was created. */
  function ParseIssuer(issuer: string): Option<Issuer> {
    var parts := Strings.Split(issuer, '@');
    if |parts| != 2 then None
    else
      var seconds := Strings.ParseInt(parts[1]);
      if seconds.None? then None else Some(Issuer(parts[0], seconds.value))
  }

  /** Parsing succeeds exactly on a name and a 64-bit number joined by one '@'. */
  lemma ParseIssuerExact(issuer: string, name: string, digits: string)
    requires '@' !in name && '@' !in digits
    requires issuer == name + "@" + digits
    ensures ParseIssuer(issuer) == match Strings.ParseInt(digits)
                                   case None => None
                                   case Some(seconds) => Some(Issuer(name, seconds))
  {
    assert Strings.Join([name, digits], '@') == issuer;
    Strings.SplitJoin([name, digits], '@');
  }

  lemma ParseIssuerShape(issuer: string)
    requires ParseIssuer(issuer).Some?
    ensures exists digits :: issuer == ParseIssuer(issuer).value.name + "@" + digits
                          && Strings.ParseInt(digits) == Some(ParseIssuer(issuer).value.seconds)
  {
    var parts := Strings.Split(issuer, '@');
    Strings.JoinSplit(issuer, '@');
    assert Strings.Join(parts, '@') == parts[0] + "@" + parts[1];
  }

  // ---- the six steps ----

  function CommitRevocationTimestamp(crr: Request, inputs: Inputs): StepResult {
    if !ValidSignerClass(crr.signerClass) then
      EmitStatus(Status(None, None,
        Merge(crr.status.conditions, [Condition(SignerClassValid, false, "SignerClassUnknown")])))
    else if crr.status.revocationTimestamp.None? then
      EmitStatus(Status(Some(inputs.commitTime), None,
        Merge(crr.status.conditions, [Condition(SignerClassValid, true, "AsExpected")])))
    else HandOff
  }

  /** The signer has to be regenerated unless it exists and every certificate in it is new. */
  predicate NeedsRegeneration(certs: seq<Certificate>, cutoff: Instant) {
    |Select(certs, cutoff, false)| > 0 || |Select(certs, cutoff, true)| == 0
  }

  function GenerateNewSignerCertificate(config: Config, cluster: Cluster, crr: Request): StepResult
    requires ValidSignerClass(crr.signerClass) && crr.status.revocationTimestamp.Some?
  {
    var signer := SecretForSignerClass(crr.signerClass);
    var loaded := LoadCertificateSecret(cluster, signer);
    if loaded.LoadError? then Done(Errored)
    else if loaded.NotFound? || NeedsRegeneration(loaded.value, crr.status.revocationTimestamp.value) then
      var copy := config.copyName(crr.name);
      if copy !in cluster.secrets then
        if loaded.NotFound? then Done(Panicked)
        else
          var current := cluster.secrets[signer];
          EmitSecret(copy, CopySigner(current.tlsCrt, current.tlsKey, current.inspection))
      else if crr.status.previousSigner.None? then
        EmitStatus(Status(crr.status.revocationTimestamp, Some(copy),
          Merge(crr.status.conditions, [Condition(RootCertificatesRegenerated, false, "RootCertificatesStale")])))
      else if loaded.NotFound? then Done(Panicked)
      else if !cluster.secrets[signer].forceRegeneration then EmitSecret(signer, MarkForRegeneration)
      else Done(Nothing)
    else if !Recorded(crr.status, RootCertificatesRegenerated) then
      if crr.status.previousSigner.None? then Done(Panicked)
      else EmitStatus(Resend(crr.status, [
        Condition(RootCertificatesRegenerated, true, "AsExpected"),
        Condition(NewCertificatesTrusted, false, "WaitingForAvailable")]))
    else HandOff
  }

  function EnsureNewSignerCertificatePropagated(
      config: Config, cluster: Cluster, crr: Request, inputs: Inputs): StepResult
    requires ValidSignerClass(crr.signerClass) && crr.status.revocationTimestamp.Some?
  {
    var signer := SecretForSignerClass(crr.signerClass);
    var loaded := LoadCertificateSecret(cluster, signer);
    if loaded.LoadError? then Done(Errored)
    else if loaded.NotFound? then Done(Nothing)
    else if !cluster.secrets[signer].tlsKey then Done(Errored)
    else
      var total := LoadTrustBundle(cluster, TOTAL_CLIENT_CA);
      if total.LoadError? then Done(Errored)
      else if total.NotFound? then Done(Nothing)
      else if !config.verify(loaded.value[0], Pool(total.value), inputs.propagateTime) then Done(Nothing)
      else if inputs.newSignerReply.Unauthorized? then Done(Requeued)
      else if inputs.newSignerReply.Failed? then Done(Errored)
      else if !Recorded(crr.status, NewCertificatesTrusted) then
        if crr.status.previousSigner.None? then Done(Panicked)
        else EmitStatus(Resend(crr.status, [Condition(NewCertificatesTrusted, true, "AsExpected")]))
      else HandOff
  }

  datatype LeafScan = NoStaleLeaf | MalformedIssuer | StaleLeaf(name: string)

  /** The first listed secret whose issuer is an older generation of the current one. */
  function ScanLeaves(secrets: map<string, Secret>, listing: seq<string>, current: Issuer): LeafScan {
    if listing == [] then NoStaleLeaf
    else if listing[0] !in secrets || secrets[listing[0]].issuer.None? then ScanLeaves(secrets, listing[1..], current)
    else
      var issuer := ParseIssuer(secrets[listing[0]].issuer.value);
      if issuer.None? then MalformedIssuer
      else if issuer.value.name == current.name && issuer.value.seconds < current.seconds then StaleLeaf(listing[0])
      else ScanLeaves(secrets, listing[1..], current)
  }

  /** The issuer annotation of the signer; a missing secret or annotation reads as the empty string. */
  function CurrentIssuer(cluster: Cluster, signer: string): string {
    if signer in cluster.secrets && cluster.secrets[signer].issuer.Some?
    then cluster.secrets[signer].issuer.value
    else ""
  }

  function GenerateNewLeafCertificates(cluster: Cluster, crr: Request, inputs: Inputs): StepResult
    requires ValidSignerClass(crr.signerClass)
  {
    var current := ParseIssuer(CurrentIssuer(cluster, SecretForSignerClass(crr.signerClass)));
    if current.None? then Done(Errored)
    else match ScanLeaves(cluster.secrets, inputs.listing, current.value)
      case MalformedIssuer => Done(Errored)
      case StaleLeaf(name) => EmitSecret(name, MarkForRegeneration)
      case NoStaleLeaf => HandOff
  }

  predicate IsLeafCertificate(pair: CertKeyPair) {
    !pair.signerDetails && pair.issuer.Some? && pair.issuer.value != pair.commonName
  }

  function LeafEntries(name: string, cert: Certificate, pairs: seq<CertKeyPair>): seq<LeafSecret> {
    if pairs == [] then []
    else (if IsLeafCertificate(pairs[0]) then [LeafSecret(name, cert)] else []) + LeafEntries(name, cert, pairs[1..])
  }

  /** The leaves the controller can inspect; None when an inspectable secret does not parse. */
  function ExistingLeaves(secrets: map<string, Secret>, listing: seq<string>): Option<seq<LeafSecret>> {
    if listing == [] then Some([])
    else
      var name := listing[0];
      if name !in secrets || secrets[name].tlsCrt.Absent? || secrets[name].inspection.InspectionFailed?
         || secrets[name].inspection.pairs == []
      then ExistingLeaves(secrets, listing[1..])
      else
        var certs := LoadPem(secrets[name].tlsCrt);
        if !certs.Loaded? then None
        else
          var rest := ExistingLeaves(secrets, listing[1..]);
          if rest.None? then None
          else Some(LeafEntries(name, certs.value[0], secrets[name].inspection.pairs) + rest.value)
  }

  /** Every secret trusted by the current bundle is trusted by the pruned one. */
  predicate KeepsTrust(
      config: Config, current: seq<Certificate>, pruned: seq<Certificate>, leaves: seq<LeafSecret>, inputs: Inputs)
  {
    Names(Trusted(config.verify, current, leaves, inputs.currentTrustTime))
      <= Names(Trusted(config.verify, pruned, leaves, inputs.futureTrustTime))
  }

  function PrunePreviousSignerCertificates(config: Config, cluster: Cluster, crr: Request, inputs: Inputs): StepResult
    requires ValidSignerClass(crr.signerClass) && crr.status.revocationTimestamp.Some?
  {
    var bundleName := ConfigMapForSignerClass(crr.signerClass);
    var loaded := LoadTrustBundle(cluster, bundleName);
    if loaded.LoadError? then Done(Errored)
    else if loaded.NotFound? then Done(Nothing)
    else
      var current := loaded.value;
      var onlyAfter := Select(current, crr.status.revocationTimestamp.value, true);
      if |onlyAfter| != |current| then
        var leaves := ExistingLeaves(cluster.secrets, inputs.listing);
        if leaves.None? then Done(Errored)
        else if !KeepsTrust(config, current, onlyAfter, leaves.value, inputs) then
          if crr.status.previousSigner.None? then Done(Panicked)
          else EmitStatus(Resend(crr.status, [Condition(LeafCertificatesRegenerated, false, "LeafCertificatesStale")]))
        else EmitBundle(bundleName, onlyAfter)
      else if !Recorded(crr.status, LeafCertificatesRegenerated) then
        if crr.status.previousSigner.None? then Done(Panicked)
        else EmitStatus(Resend(crr.status, [
          Condition(LeafCertificatesRegenerated, true, "AsExpected"),
          Condition(PreviousCertificatesRevoked, false, "WaitingForAvailable")]))
      else HandOff
  }

  function EnsureOldSignerCertificateRevoked(
      config: Config, cluster: Cluster, crr: Request, inputs: Inputs): StepResult
  {
    if crr.status.previousSigner.None? then Done(Panicked)
    else
      var saved := LoadCertificateSecret(cluster, crr.status.previousSigner.value);
      if !saved.Loaded? || !cluster.secrets[crr.status.previousSigner.value].tlsKey then Done(Errored)
      else
        var total := LoadTrustBundle(cluster, TOTAL_CLIENT_CA);
        if total.LoadError? then Done(Errored)
        else if total.NotFound? then Done(Nothing)
        else if config.verify(saved.value[0], Pool(total.value), inputs.revokeTime) then Done(Nothing)
        else if inputs.oldSignerReply.Accepted? then Done(Requeued)
        else if inputs.oldSignerReply.Failed? then Done(Errored)
        else if !Recorded(crr.status, PreviousCertificatesRevoked) then
          EmitStatus(Resend(crr.status, [Condition(PreviousCertificatesRevoked, true, "AsExpected")]))
        else HandOff
  }

  /** The steps once the new signer is trusted. */
  function ProcessTrusted(config: Config, cluster: Cluster, crr: Request, inputs: Inputs): Outcome
    requires ValidSignerClass(crr.signerClass) && crr.status.revocationTimestamp.Some?
  {
    var leaves := GenerateNewLeafCertificates(cluster, crr, inputs);
    if leaves.Done? then leaves.outcome
    else
      var prune := PrunePreviousSignerCertificates(config, cluster, crr, inputs);
      if prune.Done? then prune.outcome
      else
        var revoke := EnsureOldSignerCertificateRevoked(config, cluster, crr, inputs);
        if revoke.Done? then revoke.outcome else Nothing
  }

  /** One sync: the first step that does not hand off decides. */
  function Process(config: Config, cluster: Cluster, inputs: Inputs): Outcome {
    if cluster.crr.None? then Nothing
    else
      var crr := cluster.crr.value;
      var commit := CommitRevocationTimestamp(crr, inputs);
      if commit.Done? then commit.outcome
      else
        var generate := GenerateNewSignerCertificate(config, cluster, crr);
        if generate.Done? then generate.outcome
        else
          var propagate := EnsureNewSignerCertificatePropagated(config, cluster, crr, inputs);
          if propagate.Done? then propagate.outcome
          else ProcessTrusted(config, cluster, crr, inputs)
  }

  /** Server-side apply by the only field manager of the status: what is not sent is removed. */
  function Apply(cluster: Cluster, actions: Actions): Cluster {
    if actions.crr.Some? then
      if cluster.crr.Some? then cluster.(crr := Some(cluster.crr.value.(status := actions.crr.value))) else cluster
    else if actions.secret.Some? then
      var (name, write) := actions.secret.value;
      match write
      case CopySigner(tlsCrt, tlsKey, inspection) =>
        cluster.(secrets := cluster.secrets[name := Secret(tlsCrt, tlsKey, inspection, None, false)])
      case MarkForRegeneration =>
        if name in cluster.secrets
        then cluster.(secrets := cluster.secrets[name := cluster.secrets[name].(forceRegeneration := true)])
        else cluster
    else if actions.cm.Some? then
      var (name, certs) := actions.cm.value;
      cluster.(bundles := cluster.bundles[name := Chain(certs)])
    else cluster
  }

  /** The cluster after one sync whose write, if any, is accepted. */
  function Sync(config: Config, cluster: Cluster, inputs: Inputs): Cluster {
    match Process(config, cluster, inputs)
    case Emitted(actions) => Apply(cluster, actions)
    case _ => cluster
  }
}
