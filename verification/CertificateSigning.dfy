/**
  Approval and signing of break-glass certificate signing requests, by one controller of each kind per signer class.
 */
module CertificateSigning {
  import opened Common

  // ---- data ----

  datatype SignerClass = CustomerBreakGlass | SreBreakGlass

  datatype ConditionType = Approved | Denied | Failed | OtherType(name: string)

  datatype Condition = Condition(kind: ConditionType, status: string)

  datatype X509Request = X509Request(
    commonName: string, dnsNames: seq<string>, emailAddresses: seq<string>, ipAddresses: seq<string>, uris: seq<string>)

  /** Times count nanoseconds from the zero time. */
  datatype Certificate = Certificate(
    issuer: SignerClass, request: X509Request, usages: seq<string>, notBefore: int, notAfter: int)

  /** `request` is none when it cannot be parsed. */
  datatype Csr = Csr(
    signerName: string, usages: seq<string>, expirationSeconds: Option<int>, request: Option<X509Request>,
    conditions: seq<Condition>, certificate: Option<Certificate>)

  datatype Setting = Setting(namespace: string, certTtl: int)

  function ClassName(signer: SignerClass): string {
    match signer
    case CustomerBreakGlass => "customer-break-glass"
    case SreBreakGlass => "sre-break-glass"
  }

  function SignerName(namespace: string, signer: SignerClass): string {
    "hypershift.openshift.io/" + namespace + "." + ClassName(signer)
  }

  // ---- conditions ----

  ghost predicate HasCondition(conditions: seq<Condition>, kind: ConditionType) {
    exists i :: 0 <= i < |conditions| && conditions[i].kind == kind
  }

  predicate CountsAsTrue(condition: Condition) {
    condition.status == "" || condition.status == "True"
  }

  ghost predicate HasTrue(conditions: seq<Condition>, kind: ConditionType) {
    exists i :: 0 <= i < |conditions| && conditions[i].kind == kind && CountsAsTrue(conditions[i])
  }

  /** An approval counts whatever its status says. */
  method GetCertApprovalCondition(conditions: seq<Condition>) returns (approved: bool, denied: bool)
    ensures approved == HasCondition(conditions, Approved)
    ensures denied == HasCondition(conditions, Denied)
  {
    approved, denied := false, false;
    for i := 0 to |conditions|
      invariant approved == HasCondition(conditions[..i], Approved)
      invariant denied == HasCondition(conditions[..i], Denied)
    {
      HasConditionAppend(conditions[..i], conditions[i], Approved);
      HasConditionAppend(conditions[..i], conditions[i], Denied);
      assert conditions[..i + 1] == conditions[..i] + [conditions[i]];
      if conditions[i].kind == Approved {
        approved := true;
      }
      if conditions[i].kind == Denied {
        denied := true;
      }
    }
    assert conditions[..|conditions|] == conditions;
  }

  lemma HasConditionAppend(conditions: seq<Condition>, last: Condition, kind: ConditionType)
    ensures HasCondition(conditions + [last], kind) <==> HasCondition(conditions, kind) || last.kind == kind
  {
    var longer := conditions + [last];
    if i :| 0 <= i < |conditions| && conditions[i].kind == kind {
      assert longer[i].kind == kind;
    }
    assert longer[|conditions|] == last;
  }

  method HasTrueCondition(conditions: seq<Condition>, kind: ConditionType) returns (found: bool)
    ensures found == HasTrue(conditions, kind)
  {
    for i := 0 to |conditions|
      invariant forall j :: 0 <= j < i ==> !(conditions[j].kind == kind && CountsAsTrue(conditions[j]))
    {
      if conditions[i].kind == kind && CountsAsTrue(conditions[i]) {
        return true;
      }
    }
    return false;
  }

  // ---- validation ----

  const REQUIRED_USAGES := {"client auth"}
  const OPTIONAL_USAGES := {"digital signature", "key encipherment"}

  function UsageSet(usages: seq<string>): set<string> {
    set usage | usage in usages
  }

  predicate Validates(namespace: string, signer: SignerClass, csr: Csr, request: X509Request) {
    && csr.signerName == SignerName(namespace, signer)
    && "system:" + ClassName(signer) + ":" <= request.commonName
    && REQUIRED_USAGES <= UsageSet(csr.usages) <= REQUIRED_USAGES + OPTIONAL_USAGES
    && request.dnsNames == [] && request.emailAddresses == [] && request.ipAddresses == [] && request.uris == []
  }

  function SpelledSignerName(namespace: string, signer: SignerClass): string {
    "hypershift.openshift.io/" + namespace + "."
    + if signer == CustomerBreakGlass then "customer-break-glass" else "sre-break-glass"
  }

  function RequiredPrefix(signer: SignerClass): string {
    match signer
    case CustomerBreakGlass => "system:customer-break-glass:"
    case SreBreakGlass => "system:sre-break-glass:"
  }

  /** A subject of the class, for client authentication and nothing beyond it, without alternative names. */
  ghost predicate IsProper(signer: SignerClass, usages: seq<string>, request: X509Request) {
    && RequiredPrefix(signer) <= request.commonName
    && (exists i :: 0 <= i < |usages| && usages[i] == "client auth")
    && (forall i :: 0 <= i < |usages| ==>
          usages[i] == "client auth" || usages[i] == "digital signature" || usages[i] == "key encipherment")
    && |request.dnsNames| == |request.emailAddresses| == |request.ipAddresses| == |request.uris| == 0
  }

  lemma NamesSpelled(namespace: string, signer: SignerClass)
    ensures SignerName(namespace, signer) == SpelledSignerName(namespace, signer)
    ensures "system:" + ClassName(signer) + ":" == RequiredPrefix(signer)
  {
    match signer
    case CustomerBreakGlass => assert "system:" + "customer-break-glass" + ":" == "system:customer-break-glass:";
    case SreBreakGlass => assert "system:" + "sre-break-glass" + ":" == "system:sre-break-glass:";
  }

  /** Validation passes exactly the proper requests that name the signer. */
  lemma ValidatesExactlyWhen(namespace: string, signer: SignerClass, csr: Csr, request: X509Request)
    ensures Validates(namespace, signer, csr, request) <==>
            csr.signerName == SpelledSignerName(namespace, signer) && IsProper(signer, csr.usages, request)
  {
    NamesSpelled(namespace, signer);
    var usages := csr.usages;
    if REQUIRED_USAGES <= UsageSet(usages) {
      assert "client auth" in UsageSet(usages);
    }
    if UsageSet(usages) <= REQUIRED_USAGES + OPTIONAL_USAGES {
      forall i | 0 <= i < |usages|
        ensures usages[i] == "client auth" || usages[i] == "digital signature" || usages[i] == "key encipherment"
      {
        assert usages[i] in UsageSet(usages);
      }
    }
  }

  // ---- validity ----

  const SECOND: int := 1_000_000_000
  const BACKDATE: int := 5 * 60 * SECOND
  const HORIZON: int := 100 * BACKDATE
  const ZERO_TIME: int := 0

  function Duration(certTtl: int, expirationSeconds: Option<int>): int {
    if expirationSeconds.None? then certTtl
    else
      var requested := expirationSeconds.value * SECOND;
      if requested > certTtl then certTtl
      else if requested < 2 * BACKDATE then 2 * BACKDATE
      else requested
  }

  function Max(a: int, b: int): int {
    if a < b then b else a
  }

  function Min(a: int, b: int): int {
    if a < b then a else b
  }

  /** The end of validity, unless the signer has expired. */
  function Boundaries(now: int, ttl: int, signerNotAfter: int): Option<(int, int)> {
    var end := Min(if ttl < HORIZON then now + ttl else now + ttl - BACKDATE, signerNotAfter);
    if ZERO_TIME >= signerNotAfter || now >= signerNotAfter then None else Some((ZERO_TIME, end))
  }

  method ComputeBoundaries(now: int, ttl: int, signerNotAfter: int) returns (bounds: Option<(int, int)>)
    ensures bounds == Boundaries(now, ttl, signerNotAfter)
  {
    var notBefore, notAfter := ZERO_TIME, 0;
    if ttl < HORIZON {
      notAfter := now + ttl;
    } else {
      notAfter := now + (ttl - BACKDATE);
    }
    if !(notAfter < signerNotAfter) {
      notAfter := signerNotAfter;
    }
    if !(notBefore < signerNotAfter) {
      return None;
    }
    if !(now < signerNotAfter) {
      return None;
    }
    return Some((notBefore, notAfter));
  }

  /** The certificate ends within the signer's validity and the larger of the TTL and ten minutes. */
  lemma EndsInTime(now: int, certTtl: int, expirationSeconds: Option<int>, signerNotAfter: int)
    requires Boundaries(now, Duration(certTtl, expirationSeconds), signerNotAfter).Some?
    ensures var end := Boundaries(now, Duration(certTtl, expirationSeconds), signerNotAfter).value.1;
            && end <= signerNotAfter
            && end <= now + Max(certTtl, 600_000_000_000)
            && (end > now <==>
                  certTtl > 0 || (expirationSeconds.Some? && expirationSeconds.value * 1_000_000_000 <= certTtl))
  {
  }

  /** Five minutes less for a lifetime of 30000 seconds or more, and never beyond the signer. */
  function EndOf(now: int, lifetime: int, signerNotAfter: int): int {
    var end := if lifetime < 30_000_000_000_000 then now + lifetime else now + lifetime - 300_000_000_000;
    if end < signerNotAfter then end else signerNotAfter
  }

  /** Without a request, or with one above the TTL, the certificate lives for the TTL. */
  lemma TtlByDefault(now: int, certTtl: int, expirationSeconds: Option<int>, signerNotAfter: int)
    requires expirationSeconds.Some? ==> expirationSeconds.value * 1_000_000_000 > certTtl
    requires now < signerNotAfter && 0 < signerNotAfter
    ensures Boundaries(now, Duration(certTtl, expirationSeconds), signerNotAfter)
         == Some((0, EndOf(now, certTtl, signerNotAfter)))
  {
  }

  /** A request up to the TTL is honoured to the nanosecond from ten minutes on, and raised to ten minutes below. */
  lemma RequestHonoured(now: int, certTtl: int, seconds: int, signerNotAfter: int)
    requires seconds * 1_000_000_000 <= certTtl && now < signerNotAfter && 0 < signerNotAfter
    ensures var requested := seconds * 1_000_000_000;
            Boundaries(now, Duration(certTtl, Some(seconds)), signerNotAfter)
            == Some((0, EndOf(now, if requested < 600_000_000_000 then 600_000_000_000 else requested, signerNotAfter)))
  {
  }

  /** Nothing is signed exactly if the signer has expired, or ends before time begins. */
  lemma RefusedExactlyWhen(now: int, certTtl: int, expirationSeconds: Option<int>, signerNotAfter: int)
    ensures Boundaries(now, Duration(certTtl, expirationSeconds), signerNotAfter).None? <==>
            signerNotAfter <= now || signerNotAfter <= 0
  {
  }

  // ---- the two controllers ----

  /** The approval controller's decision, given whether the approval resource of this name exists. */
  ghost predicate Approves(setting: Setting, signer: SignerClass, csr: Csr, approvalExists: bool) {
    && csr.signerName == SignerName(setting.namespace, signer)
    && !HasCondition(csr.conditions, Approved) && !HasCondition(csr.conditions, Denied)
    && approvalExists
  }

  /** Of this class, and neither approved nor denied. */
  ghost predicate AwaitsApproval(setting: Setting, signer: SignerClass, csr: Csr) {
    && csr.signerName == SpelledSignerName(setting.namespace, signer)
    && forall i :: 0 <= i < |csr.conditions| ==> csr.conditions[i].kind != Approved && csr.conditions[i].kind != Denied
  }

  lemma ApprovesExactlyWhen(setting: Setting, signer: SignerClass, csr: Csr, approvalExists: bool)
    ensures Approves(setting, signer, csr, approvalExists) <==> AwaitsApproval(setting, signer, csr) && approvalExists
  {
    NamesSpelled(setting.namespace, signer);
  }

  function Approve(csr: Csr): Csr {
    csr.(conditions := csr.conditions + [Condition(Approved, "True")])
  }

  method ProcessApproval(setting: Setting, signer: SignerClass, csr: Csr, approvalExists: bool)
    returns (update: Option<Csr>)
    ensures update == if Approves(setting, signer, csr, approvalExists) then Some(Approve(csr)) else None
  {
    if csr.signerName != SignerName(setting.namespace, signer) {
      return None;
    }
    var approved, denied := GetCertApprovalCondition(csr.conditions);
    if approved || denied {
      return None;
    }
    if !approvalExists {
      return None;
    }
    return Some(csr.(conditions := csr.conditions + [Condition(Approved, "True")]));
  }

  /** What signing meets: the clock, the signer's end of validity, and whether the cryptography succeeds. */
  datatype Signing = Signing(now: int, signerNotAfter: Option<int>, succeeds: bool)

  datatype Decision = Ignore | Error | MarkFailed | Issue(certificate: Certificate)

  ghost predicate IsSignable(setting: Setting, signer: SignerClass, csr: Csr) {
    && HasCondition(csr.conditions, Approved) && !HasCondition(csr.conditions, Denied)
    && !HasTrue(csr.conditions, Failed)
    && csr.signerName == SignerName(setting.namespace, signer)
    && csr.certificate.None?
  }

  ghost function Decide(setting: Setting, signer: SignerClass, csr: Csr, signing: Signing): Decision {
    if !IsSignable(setting, signer, csr) then Ignore
    else if csr.request.None? then Error
    else if !Validates(setting.namespace, signer, csr, csr.request.value) then MarkFailed
    else if signing.signerNotAfter.None? || !signing.succeeds then Error
    else
      match Boundaries(signing.now, Duration(setting.certTtl, csr.expirationSeconds), signing.signerNotAfter.value)
      case None => Error
      case Some(bounds) => Issue(Certificate(signer, csr.request.value, csr.usages, bounds.0, bounds.1))
  }

  method ProcessSigning(setting: Setting, signer: SignerClass, csr: Csr, signing: Signing) returns (decision: Decision)
    ensures decision == Decide(setting, signer, csr, signing)
  {
    var approved, denied := GetCertApprovalCondition(csr.conditions);
    var failed := HasTrueCondition(csr.conditions, Failed);
    if !(approved && !denied) || failed || csr.signerName != SignerName(setting.namespace, signer)
        || csr.certificate.Some? {
      return Ignore;
    }
    if csr.request.None? {
      return Error;
    }
    if !Validates(setting.namespace, signer, csr, csr.request.value) {
      return MarkFailed;
    }
    if signing.signerNotAfter.None? {
      return Error;
    }
    if !signing.succeeds {
      return Error;
    }
    var bounds := ComputeBoundaries(signing.now, Duration(setting.certTtl, csr.expirationSeconds),
        signing.signerNotAfter.value);
    if bounds.None? {
      return Error;
    }
    return Issue(Certificate(signer, csr.request.value, csr.usages, bounds.value.0, bounds.value.1));
  }

  /** Approved, not denied, not failed, of this class and not signed yet. */
  ghost predicate AwaitsSigning(setting: Setting, signer: SignerClass, csr: Csr) {
    && csr.signerName == SpelledSignerName(setting.namespace, signer) && csr.certificate.None?
    && (exists i :: 0 <= i < |csr.conditions| && csr.conditions[i].kind == Approved)
    && (forall i :: 0 <= i < |csr.conditions| ==> csr.conditions[i].kind != Denied)
    && (forall i :: 0 <= i < |csr.conditions| && csr.conditions[i].kind == Failed ==>
          csr.conditions[i].status != "" && csr.conditions[i].status != "True")
  }

  /**
    A request that awaits signing and can be parsed is marked as failed exactly if it is not proper,
    and issued exactly if it is, the signer can be loaded, has not expired, and signing succeeds.
   */
  lemma DecidesExactlyWhen(setting: Setting, signer: SignerClass, csr: Csr, signing: Signing)
    ensures var decision := Decide(setting, signer, csr, signing);
            && (decision.Ignore? <==> !AwaitsSigning(setting, signer, csr))
            && (decision.MarkFailed? <==>
                  AwaitsSigning(setting, signer, csr) && csr.request.Some?
                  && !IsProper(signer, csr.usages, csr.request.value))
            && (decision.Issue? <==>
                  AwaitsSigning(setting, signer, csr) && csr.request.Some?
                  && IsProper(signer, csr.usages, csr.request.value) && signing.succeeds
                  && signing.signerNotAfter.Some? && signing.now < signing.signerNotAfter.value
                  && 0 < signing.signerNotAfter.value)
            && (decision.Issue? ==>
                  && decision.certificate.issuer == signer && decision.certificate.request == csr.request.value
                  && decision.certificate.usages == csr.usages
                  && Some((decision.certificate.notBefore, decision.certificate.notAfter))
                     == Boundaries(signing.now, Duration(setting.certTtl, csr.expirationSeconds),
                                   signing.signerNotAfter.value))
  {
    NamesSpelled(setting.namespace, signer);
    assert IsSignable(setting, signer, csr) <==> AwaitsSigning(setting, signer, csr);
    if csr.request.Some? {
      ValidatesExactlyWhen(setting.namespace, signer, csr, csr.request.value);
    }
  }

  /** Applying a condition replaces the one of its type, or adds it. */
  function ApplyFailed(conditions: seq<Condition>): seq<Condition> {
    if conditions == [] then [Condition(Failed, "True")]
    else if conditions[0].kind == Failed then [Condition(Failed, "True")] + conditions[1..]
    else [conditions[0]] + ApplyFailed(conditions[1..])
  }

  function Applied(csr: Csr, decision: Decision): Csr {
    match decision
    case Ignore => csr
    case Error => csr
    case MarkFailed => csr.(conditions := ApplyFailed(csr.conditions))
    case Issue(certificate) => csr.(certificate := Some(certificate))
  }

  /** Two classes never share a signer name, not even across namespaces. */
  lemma SignerNameNamesClass(namespace: string, other: string, a: SignerClass, b: SignerClass)
    requires SignerName(namespace, a) == SignerName(other, b)
    ensures a == b
  {
    var name := SignerName(namespace, a);
    assert name[|name| - 13] == ClassName(a)[|ClassName(a)| - 13];
    assert name[|name| - 13] == ClassName(b)[|ClassName(b)| - 13];
    assert "customer-break-glass"[7] == 'r' && "sre-break-glass"[2] == 'e';
  }

  // ---- runs ----

  /** An approval on its way: the version it was read at, and the request to send back. */
  datatype Approval = Approval(revision: nat, updated: Csr)

  /**
    A request and the syncs in flight: a controller works on one sync of a request at a time, and
    what it is about to write was decided on the request as it was read. A decision is stale if that
    request has since been replaced by another one of its name.
   */
  datatype System = System(
    csr: Csr, revision: nat, approvals: map<SignerClass, Approval>, decisions: map<SignerClass, Decision>,
    stale: set<SignerClass>)

  /**
    Reads and writes of either controller of either class, writes of others, who leave the
    specification, the certificate and failure alone, and a request deleted and created anew under
    its name. A write may fail. An approval is refused if the request has changed since it was read;
    a status is applied by name, without a version, and never refused.
   */
  datatype Step =
    | ApprovalRead(signer: SignerClass, approvalExists: bool)
    | ApprovalWrite(signer: SignerClass, arrives: bool)
    | SigningRead(signer: SignerClass, signing: Signing)
    | SigningWrite(signer: SignerClass, arrives: bool)
    | OtherWrite
    | Recreate(csr: Csr)

  function Changed(s: System, csr: Csr): System {
    s.(csr := csr, revision := s.revision + 1)
  }

  /** The approval arrives and the request is still as it was read. */
  predicate ApprovalLands(s: System, step: Step) {
    && step.ApprovalWrite? && step.signer in s.approvals && step.arrives
    && s.approvals[step.signer].revision == s.revision
  }

  /**
    The API server's rule for conditions: approval and denial exclude each other, and neither can be
    removed once added.
   */
  ghost predicate IsAdmissible(before: seq<Condition>, after: seq<Condition>) {
    && (HasCondition(before, Approved) ==> HasCondition(after, Approved))
    && (HasCondition(before, Denied) ==> HasCondition(after, Denied))
    && (HasCondition(after, Approved) && HasCondition(after, Denied) ==>
          HasCondition(before, Approved) && HasCondition(before, Denied))
  }

  ghost predicate Next(setting: Setting, s: System, step: Step, t: System) {
    match step
    case ApprovalRead(signer, approvalExists) =>
      && signer !in s.approvals
      && t == if Approves(setting, signer, s.csr, approvalExists)
              then s.(approvals := s.approvals[signer := Approval(s.revision, Approve(s.csr))]) else s
    case ApprovalWrite(signer, arrives) =>
      && signer in s.approvals
      && var done := s.(approvals := s.approvals - {signer});
         t == if ApprovalLands(s, step)
              then Changed(done, s.csr.(conditions := s.approvals[signer].updated.conditions)) else done
    case SigningRead(signer, signing) =>
      && signer !in s.decisions
      && var decision := Decide(setting, signer, s.csr, signing);
         t == if decision.MarkFailed? || decision.Issue? then s.(decisions := s.decisions[signer := decision]) else s
    case SigningWrite(signer, arrives) =>
      && signer in s.decisions
      && var done := s.(decisions := s.decisions - {signer}, stale := s.stale - {signer});
         t == if arrives then Changed(done, Applied(s.csr, s.decisions[signer])) else done
    case OtherWrite =>
      && t == Changed(s, t.csr)
      && t.csr.(conditions := s.csr.conditions) == s.csr
      && (HasTrue(t.csr.conditions, Failed) <==> HasTrue(s.csr.conditions, Failed))
      && IsAdmissible(s.csr.conditions, t.csr.conditions)
    case Recreate(csr) =>
      csr.conditions == [] && csr.certificate.None? && t == Changed(s, csr).(stale := s.decisions.Keys)
  }

  ghost predicate IsRun(setting: Setting, states: seq<System>, steps: seq<Step>) {
    && |states| == |steps| + 1
    && states[0].csr.certificate.None? && states[0].approvals == map[]
    && states[0].decisions == map[] && states[0].stale == {}
    && forall i {:trigger steps[i]} :: 0 <= i < |steps| ==> Next(setting, states[i], steps[i], states[i + 1])
  }

  /** The write of a stale decision arrives, at a request it was not decided on. */
  predicate Strays(s: System, step: Step) {
    step.SigningWrite? && step.arrives && step.signer in s.stale
  }

  ghost predicate NoneStrays(states: seq<System>, steps: seq<Step>)
    requires |states| == |steps| + 1
  {
    forall i {:trigger steps[i]} :: 0 <= i < |steps| ==> !Strays(states[i], steps[i])
  }

  /** The same request throughout. */
  predicate SameLife(steps: seq<Step>, i: nat, j: nat)
    requires j <= |steps|
  {
    forall k :: i <= k < j ==> !steps[k].Recreate?
  }

  /** The step that puts a certificate into the request. */
  predicate Issues(s: System, step: Step) {
    step.SigningWrite? && step.arrives && step.signer in s.decisions && s.decisions[step.signer].Issue?
  }

  // ---- what every step keeps ----

  /** Signed means validated by the class that the request names, and not failed. */
  ghost predicate SignedInvariant(setting: Setting, csr: Csr) {
    csr.certificate.Some? ==>
      && !HasTrue(csr.conditions, Failed)
      && csr.request.Some?
      && csr.certificate.value.request == csr.request.value
      && Validates(setting.namespace, csr.certificate.value.issuer, csr, csr.request.value)
  }

  /** A decision in flight still fits: nobody but its own class could have signed or failed the request. */
  ghost predicate Fits(setting: Setting, csr: Csr, signer: SignerClass, decision: Decision) {
    && csr.signerName == SignerName(setting.namespace, signer)
    && csr.certificate.None? && !HasTrue(csr.conditions, Failed) && csr.request.Some?
    && (decision.Issue? || decision.MarkFailed?)
    && (decision.Issue? <==> Validates(setting.namespace, signer, csr, csr.request.value))
    && (decision.Issue? ==> decision.certificate.issuer == signer && decision.certificate.request == csr.request.value)
  }

  ghost predicate DecisionsFit(setting: Setting, s: System) {
    forall signer :: signer in s.decisions && signer !in s.stale ==> Fits(setting, s.csr, signer, s.decisions[signer])
  }

  /** An approval whose version is still current is the current request, approved, and that request awaits it. */
  ghost predicate ApprovalsFit(setting: Setting, s: System) {
    forall signer :: signer in s.approvals ==>
      && s.approvals[signer].revision <= s.revision
      && (s.approvals[signer].revision == s.revision ==>
            s.approvals[signer].updated == Approve(s.csr) && AwaitsApproval(setting, signer, s.csr))
  }

  ghost predicate Invariant(setting: Setting, s: System) {
    SignedInvariant(setting, s.csr) && DecisionsFit(setting, s) && ApprovalsFit(setting, s)
  }

  lemma ApprovingIsNotFailing(conditions: seq<Condition>)
    ensures HasTrue(conditions + [Condition(Approved, "True")], Failed) <==> HasTrue(conditions, Failed)
  {
    var longer := conditions + [Condition(Approved, "True")];
    if i :| 0 <= i < |conditions| && conditions[i].kind == Failed && CountsAsTrue(conditions[i]) {
      assert longer[i].kind == Failed;
    }
  }

  lemma ReadKeeps(setting: Setting, s: System, step: Step, t: System)
    requires Invariant(setting, s) && Next(setting, s, step, t) && (step.ApprovalRead? || step.SigningRead?)
    ensures Invariant(setting, t)
  {
  }

  lemma RecreationKeeps(setting: Setting, s: System, step: Step, t: System)
    requires Invariant(setting, s) && Next(setting, s, step, t) && step.Recreate?
    ensures Invariant(setting, t)
  {
  }

  lemma ApprovalWriteKeeps(setting: Setting, s: System, step: Step, t: System)
    requires Invariant(setting, s) && Next(setting, s, step, t) && step.ApprovalWrite?
    ensures Invariant(setting, t)
  {
    ApprovingIsNotFailing(s.csr.conditions);
  }

  /** While one class has a decision on the current request in flight, the other has none. */
  lemma OneDecision(setting: Setting, s: System, a: SignerClass, b: SignerClass)
    requires DecisionsFit(setting, s) && a in s.decisions.Keys - s.stale && b in s.decisions.Keys - s.stale
    ensures a == b
  {
    SignerNameNamesClass(setting.namespace, setting.namespace, a, b);
  }

  lemma SigningWriteKeeps(setting: Setting, s: System, step: Step, t: System)
    requires Invariant(setting, s) && Next(setting, s, step, t) && step.SigningWrite? && !Strays(s, step)
    ensures Invariant(setting, t)
  {
    if step.arrives {
      forall other | other in t.decisions
        ensures other in t.stale
      {
        if other !in s.stale {
          OneDecision(setting, s, other, step.signer);
        }
      }
    }
  }

  lemma StepKeeps(setting: Setting, s: System, step: Step, t: System)
    requires Invariant(setting, s) && Next(setting, s, step, t) && !Strays(s, step)
    ensures Invariant(setting, t)
    ensures Issues(s, step) ==> s.csr.certificate.None? && t.csr.certificate.Some?
    ensures !step.Recreate? ==>
              && (s.csr.certificate.Some? ==> t.csr.certificate == s.csr.certificate)
              && (HasTrue(s.csr.conditions, Failed) ==> HasTrue(t.csr.conditions, Failed))
              && t.csr.(conditions := s.csr.conditions, certificate := s.csr.certificate) == s.csr
  {
    match step
    case ApprovalRead(_, _) => ReadKeeps(setting, s, step, t);
    case SigningRead(_, _) => ReadKeeps(setting, s, step, t);
    case ApprovalWrite(_, _) =>
      ApprovalWriteKeeps(setting, s, step, t);
      ApprovingIsNotFailing(s.csr.conditions);
    case SigningWrite(signer, arrives) =>
      SigningWriteKeeps(setting, s, step, t);
      assert arrives ==> Fits(setting, s.csr, signer, s.decisions[signer]);
    case OtherWrite =>
    case Recreate(_) => RecreationKeeps(setting, s, step, t);
  }

  lemma {:induction false} RunKeepsInvariant(setting: Setting, states: seq<System>, steps: seq<Step>, i: nat)
    requires IsRun(setting, states, steps) && NoneStrays(states, steps) && i < |states|
    ensures Invariant(setting, states[i])
  {
    if i == 0 {
    } else {
      RunKeepsInvariant(setting, states, steps, i - 1);
      StepKeeps(setting, states[i - 1], steps[i - 1], states[i]);
    }
  }

  // ---- signed by the right class, never after failure ----

  /** No request is ever both signed and failed, and only the class it names signs it. */
  lemma SignedIsRight(setting: Setting, states: seq<System>, steps: seq<Step>, i: nat)
    requires IsRun(setting, states, steps) && NoneStrays(states, steps)
    requires i < |states| && states[i].csr.certificate.Some?
    ensures !HasTrue(states[i].csr.conditions, Failed)
    ensures forall signer :: states[i].csr.signerName == SignerName(setting.namespace, signer) <==>
                             signer == states[i].csr.certificate.value.issuer
  {
    RunKeepsInvariant(setting, states, steps, i);
    forall signer | states[i].csr.signerName == SignerName(setting.namespace, signer)
      ensures signer == states[i].csr.certificate.value.issuer
    {
      SignerNameNamesClass(setting.namespace, setting.namespace, signer, states[i].csr.certificate.value.issuer);
    }
  }

  lemma {:induction false} FailedStaysUnsigned(setting: Setting, states: seq<System>, steps: seq<Step>, i: nat, j: nat)
    requires IsRun(setting, states, steps) && NoneStrays(states, steps)
    requires i <= j < |states| && SameLife(steps, i, j) && HasTrue(states[i].csr.conditions, Failed)
    ensures HasTrue(states[j].csr.conditions, Failed) && states[j].csr.certificate.None?
  {
    RunKeepsInvariant(setting, states, steps, j);
    if i < j {
      FailedStaysUnsigned(setting, states, steps, i, j - 1);
      RunKeepsInvariant(setting, states, steps, j - 1);
      StepKeeps(setting, states[j - 1], steps[j - 1], states[j]);
    }
  }

  lemma {:induction false} ApplyFailedFails(conditions: seq<Condition>)
    ensures HasTrue(ApplyFailed(conditions), Failed)
  {
    var applied := ApplyFailed(conditions);
    if conditions == [] || conditions[0].kind == Failed {
      assert applied[0] == Condition(Failed, "True");
    } else {
      ApplyFailedFails(conditions[1..]);
      var i :| 0 <= i < |applied[1..]| && applied[1..][i].kind == Failed && CountsAsTrue(applied[1..][i]);
      assert applied[i + 1] == applied[1..][i];
    }
  }

  /** A request that a class finds invalid is marked when the write arrives, and never signed afterwards. */
  lemma InvalidIsNeverSigned(setting: Setting, states: seq<System>, steps: seq<Step>, i: nat, j: nat)
    requires IsRun(setting, states, steps) && NoneStrays(states, steps)
    requires i < j < |states| && SameLife(steps, i, j)
    requires steps[i].SigningWrite? && steps[i].arrives && steps[i].signer in states[i].decisions
    requires states[i].decisions[steps[i].signer].MarkFailed?
    ensures HasTrue(states[j].csr.conditions, Failed) && states[j].csr.certificate.None?
  {
    assert Next(setting, states[i], steps[i], states[i + 1]);
    ApplyFailedFails(states[i].csr.conditions);
    FailedStaysUnsigned(setting, states, steps, i + 1, j);
  }

  // ---- on what a certificate is issued ----

  /** Step r reads the request and takes the decision that is still in flight in state i. */
  ghost predicate DecidedAt(
      setting: Setting, states: seq<System>, steps: seq<Step>, r: nat, i: nat, signer: SignerClass)
    requires |states| == |steps| + 1 && r < i < |states| && signer in states[i].decisions
  {
    && steps[r].SigningRead? && steps[r].signer == signer
    && Decide(setting, signer, states[r].csr, steps[r].signing) == states[i].decisions[signer]
    && forall k :: r < k <= i ==>
         signer in states[k].decisions && states[k].decisions[signer] == states[i].decisions[signer]
  }

  lemma {:induction false} DecisionHasRead(
      setting: Setting, states: seq<System>, steps: seq<Step>, i: nat, signer: SignerClass)
    returns (r: nat)
    requires IsRun(setting, states, steps) && i < |states| && signer in states[i].decisions
    ensures r < i && DecidedAt(setting, states, steps, r, i, signer)
  {
    assert Next(setting, states[i - 1], steps[i - 1], states[i]);
    DecisionStep(setting, states[i - 1], steps[i - 1], states[i], signer);
    if signer in states[i - 1].decisions {
      r := DecisionHasRead(setting, states, steps, i - 1, signer);
    } else {
      r := i - 1;
    }
  }

  /** A decision in flight was so before, unchanged, or is taken by this step. */
  lemma DecisionStep(setting: Setting, s: System, step: Step, t: System, signer: SignerClass)
    requires Next(setting, s, step, t) && signer in t.decisions
    ensures if signer in s.decisions then t.decisions[signer] == s.decisions[signer]
            else step.SigningRead? && step.signer == signer
                 && Decide(setting, signer, s.csr, step.signing) == t.decisions[signer]
  {
  }

  /** Approved and not denied. */
  ghost predicate IsApproved(csr: Csr) {
    HasCondition(csr.conditions, Approved) && !HasCondition(csr.conditions, Denied)
  }

  /** The read behind a certificate. */
  lemma IssuedOnRead(setting: Setting, states: seq<System>, steps: seq<Step>, w: nat) returns (r: nat)
    requires IsRun(setting, states, steps) && w < |steps| && Issues(states[w], steps[w])
    ensures r < w && DecidedAt(setting, states, steps, r, w, steps[w].signer) && IsApproved(states[r].csr)
  {
    r := DecisionHasRead(setting, states, steps, w, steps[w].signer);
  }

  /**
    A certificate is issued on a read of the request that found it approved, not denied, not failed
    and valid, and ends within its bounds from the time of that read.
   */
  lemma IssuedProperly(setting: Setting, states: seq<System>, steps: seq<Step>, w: nat) returns (r: nat)
    requires IsRun(setting, states, steps) && w < |steps| && Issues(states[w], steps[w])
    ensures r < w && DecidedAt(setting, states, steps, r, w, steps[w].signer)
    ensures var csr := states[r].csr;
            && IsApproved(csr) && !HasTrue(csr.conditions, Failed)
            && csr.request.Some? && Validates(setting.namespace, steps[w].signer, csr, csr.request.value)
            && IsProper(steps[w].signer, csr.usages, csr.request.value)
    ensures states[w + 1].csr.certificate.Some?
    ensures var end := states[w + 1].csr.certificate.value.notAfter;
            var signing := steps[r].signing;
            && signing.signerNotAfter.Some?
            && end <= signing.signerNotAfter.value
            && end <= signing.now + Max(setting.certTtl, 600_000_000_000)
            && (setting.certTtl > 0 ==> end > signing.now)
  {
    assert Next(setting, states[w], steps[w], states[w + 1]);
    r := IssuedOnRead(setting, states, steps, w);
    var signing := steps[r].signing;
    ValidatesExactlyWhen(setting.namespace, steps[w].signer, states[r].csr, states[r].csr.request.value);
    EndsInTime(signing.now, setting.certTtl, states[r].csr.expirationSeconds, signing.signerNotAfter.value);
  }

  lemma ApprovedByApproval(csr: Csr)
    requires !HasCondition(csr.conditions, Denied)
    ensures IsApproved(Approve(csr))
  {
    HasConditionAppend(csr.conditions, Condition(Approved, "True"), Approved);
    HasConditionAppend(csr.conditions, Condition(Approved, "True"), Denied);
  }

  lemma {:induction false} ApplyFailedKeeps(conditions: seq<Condition>, kind: ConditionType)
    requires kind != Failed
    ensures HasCondition(ApplyFailed(conditions), kind) <==> HasCondition(conditions, kind)
  {
    if conditions == [] {
    } else {
      var first, rest := conditions[0], conditions[1..];
      HasConditionPrepend(first, rest, kind);
      if first.kind == Failed {
        HasConditionPrepend(Condition(Failed, "True"), rest, kind);
      } else {
        HasConditionPrepend(first, ApplyFailed(rest), kind);
        ApplyFailedKeeps(rest, kind);
      }
      assert conditions == [first] + rest;
    }
  }

  lemma HasConditionPrepend(first: Condition, rest: seq<Condition>, kind: ConditionType)
    ensures HasCondition([first] + rest, kind) <==> first.kind == kind || HasCondition(rest, kind)
  {
    var longer := [first] + rest;
    assert longer[0] == first;
    if i :| 0 <= i < |rest| && rest[i].kind == kind {
      assert longer[i + 1].kind == kind;
    }
  }

  lemma {:induction false} RunKeepsApprovals(setting: Setting, states: seq<System>, steps: seq<Step>, i: nat)
    requires IsRun(setting, states, steps) && i < |states|
    ensures ApprovalsFit(setting, states[i])
  {
    if i == 0 {
    } else {
      RunKeepsApprovals(setting, states, steps, i - 1);
      assert Next(setting, states[i - 1], steps[i - 1], states[i]);
    }
  }

  lemma {:induction false} ApprovalHasRead(
      setting: Setting, states: seq<System>, steps: seq<Step>, i: nat, signer: SignerClass)
    returns (r: nat)
    requires IsRun(setting, states, steps) && i < |states| && signer in states[i].approvals
    ensures r < i && steps[r] == ApprovalRead(signer, true)
  {
    assert Next(setting, states[i - 1], steps[i - 1], states[i]);
    if signer in states[i - 1].approvals {
      r := ApprovalHasRead(setting, states, steps, i - 1, signer);
    } else {
      r := i - 1;
    }
  }

  /**
    An approval that lands was sent because the approval resource existed, and finds a request of
    that class that nobody has approved or denied; it adds the approval and changes nothing else.
   */
  lemma ApprovalIsDeserved(setting: Setting, states: seq<System>, steps: seq<Step>, w: nat) returns (r: nat)
    requires IsRun(setting, states, steps) && w < |steps| && ApprovalLands(states[w], steps[w])
    ensures r < w && steps[r] == ApprovalRead(steps[w].signer, true)
    ensures AwaitsApproval(setting, steps[w].signer, states[w].csr)
    ensures states[w + 1].csr
         == states[w].csr.(conditions := states[w].csr.conditions + [Condition(Approved, "True")])
  {
    r := ApprovalHasRead(setting, states, steps, w, steps[w].signer);
    RunKeepsApprovals(setting, states, steps, w);
    assert Next(setting, states[w], steps[w], states[w + 1]);
  }

  /** An approval reaches the request, the controllers' own or one of others. */
  ghost predicate GetsApproved(s: System, step: Step, t: System) {
    ApprovalLands(s, step) || (step.OtherWrite? && !IsApproved(s.csr) && IsApproved(t.csr))
  }

  /** Approval is gained by such a step only, and lost by nothing that can happen to a request. */
  lemma ApprovalStep(setting: Setting, s: System, step: Step, t: System)
    requires ApprovalsFit(setting, s) && Next(setting, s, step, t) && !step.Recreate?
    ensures IsApproved(t.csr) <==> IsApproved(s.csr) || GetsApproved(s, step, t)
  {
    match step
    case ApprovalWrite(_, _) =>
      if ApprovalLands(s, step) {
        ApprovedByApproval(s.csr);
      }
    case SigningWrite(_, _) =>
      ApplyFailedKeeps(s.csr.conditions, Approved);
      ApplyFailedKeeps(s.csr.conditions, Denied);
    case _ =>
  }

  ghost predicate ApprovedBetween(states: seq<System>, steps: seq<Step>, i: nat, j: nat)
    requires |states| == |steps| + 1 && j < |states|
  {
    i < j && (GetsApproved(states[j - 1], steps[j - 1], states[j]) || ApprovedBetween(states, steps, i, j - 1))
  }

  lemma {:induction false} ApprovedBetweenMeaning(states: seq<System>, steps: seq<Step>, i: nat, j: nat)
    requires |states| == |steps| + 1 && j < |states|
    ensures ApprovedBetween(states, steps, i, j) <==>
            exists k {:trigger steps[k]} :: i <= k < j && GetsApproved(states[k], steps[k], states[k + 1])
  {
    if i < j {
      ApprovedBetweenMeaning(states, steps, i, j - 1);
      assert steps[j - 1] == steps[j - 1];
    }
  }

  lemma {:induction false} ApprovalOverLife(setting: Setting, states: seq<System>, steps: seq<Step>, i: nat, j: nat)
    requires IsRun(setting, states, steps) && i <= j < |states| && SameLife(steps, i, j)
    ensures IsApproved(states[j].csr) <==> IsApproved(states[i].csr) || ApprovedBetween(states, steps, i, j)
  {
    if i < j {
      ApprovalOverLife(setting, states, steps, i, j - 1);
      RunKeepsApprovals(setting, states, steps, j - 1);
      ApprovalStep(setting, states[j - 1], steps[j - 1], states[j]);
    }
  }

  lemma {:induction false} StaleMeaning(
      setting: Setting, states: seq<System>, steps: seq<Step>, r: nat, w: nat, signer: SignerClass)
    requires IsRun(setting, states, steps) && r < w < |states| && signer !in states[r].decisions
    requires steps[r].SigningRead? && forall k :: r < k <= w ==> signer in states[k].decisions
    ensures signer in states[w].stale <==> !SameLife(steps, r, w)
  {
    assert Next(setting, states[w - 1], steps[w - 1], states[w]);
    if w == r + 1 {
      RunKeepsStale(setting, states, steps, r);
    } else {
      StaleMeaning(setting, states, steps, r, w - 1, signer);
    }
  }

  lemma {:induction false} RunKeepsStale(setting: Setting, states: seq<System>, steps: seq<Step>, i: nat)
    requires IsRun(setting, states, steps) && i < |states|
    ensures states[i].stale <= states[i].decisions.Keys
  {
    if i == 0 {
    } else {
      RunKeepsStale(setting, states, steps, i - 1);
      assert Next(setting, states[i - 1], steps[i - 1], states[i]);
    }
  }

  /**
    The request is still approved and not denied when its certificate is written, whatever happens
    to it between read and write: only a stray write can sign a request that is not approved.
   */
  lemma SignedWhileApproved(setting: Setting, states: seq<System>, steps: seq<Step>, w: nat)
    requires IsRun(setting, states, steps) && w < |steps| && Issues(states[w], steps[w])
    ensures IsApproved(states[w].csr) || Strays(states[w], steps[w])
  {
    var r := IssuedOnRead(setting, states, steps, w);
    assert Next(setting, states[r], steps[r], states[r + 1]);
    StaleMeaning(setting, states, steps, r, w, steps[w].signer);
    if SameLife(steps, r, w) {
      ApprovalOverLife(setting, states, steps, r, w);
    }
  }

  /** In its life a request keeps its specification, and once signed it stays signed. */
  lemma {:induction false} LifeKeeps(setting: Setting, states: seq<System>, steps: seq<Step>, i: nat, j: nat)
    requires IsRun(setting, states, steps) && i <= j < |states| && SameLife(steps, i, j)
    ensures var s, t := states[i].csr, states[j].csr;
            && t.(conditions := s.conditions, certificate := s.certificate) == s
            && (s.certificate.Some? ==> t.certificate.Some?)
  {
    if i < j {
      LifeKeeps(setting, states, steps, i, j - 1);
      assert Next(setting, states[j - 1], steps[j - 1], states[j]);
    }
  }

  /** The read behind a write that does not stray is in the same life, and nothing else was in flight. */
  lemma ReadInSameLife(setting: Setting, states: seq<System>, steps: seq<Step>, w: nat) returns (r: nat)
    requires IsRun(setting, states, steps) && w < |steps| && Issues(states[w], steps[w]) && !Strays(states[w], steps[w])
    ensures r < w && SameLife(steps, r, w) && steps[w].signer !in states[r].decisions
    ensures forall k :: r < k <= w ==> steps[w].signer in states[k].decisions
    ensures states[r].csr.certificate.None?
    ensures states[r].csr.signerName == SignerName(setting.namespace, steps[w].signer)
    ensures states[r].csr.request.Some?
    ensures Validates(setting.namespace, steps[w].signer, states[r].csr, states[r].csr.request.value)
    ensures var certificate := states[w].decisions[steps[w].signer].certificate;
            && certificate.issuer == steps[w].signer && certificate.request == states[r].csr.request.value
            && certificate.usages == states[r].csr.usages
  {
    r := IssuedProperly(setting, states, steps, w);
    assert Next(setting, states[r], steps[r], states[r + 1]);
    StaleMeaning(setting, states, steps, r, w, steps[w].signer);
  }

  /** In every run, what is signed by a write that does not stray is valid for the class that signs it. */
  lemma SignedIsValid(setting: Setting, states: seq<System>, steps: seq<Step>, w: nat)
    requires IsRun(setting, states, steps) && w < |steps| && Issues(states[w], steps[w]) && !Strays(states[w], steps[w])
    ensures var csr := states[w].csr;
            && csr.request.Some?
            && csr.signerName == SpelledSignerName(setting.namespace, steps[w].signer)
            && IsProper(steps[w].signer, csr.usages, csr.request.value)
    ensures var csr := states[w + 1].csr;
            && csr.certificate.Some?
            && csr.certificate.value.issuer == steps[w].signer
            && Some(csr.certificate.value.request) == csr.request && csr.certificate.value.usages == csr.usages
  {
    var r := ReadInSameLife(setting, states, steps, w);
    LifeKeeps(setting, states, steps, r, w);
    ValidatesExactlyWhen(setting.namespace, steps[w].signer, states[w].csr, states[w].csr.request.value);
    assert Next(setting, states[w], steps[w], states[w + 1]);
  }

  /**
    In every run a request is signed at most once in its life, stray writes aside, although no write
    checks that the request still is unsigned.
   */
  lemma SignedOnce(setting: Setting, states: seq<System>, steps: seq<Step>, i: nat, j: nat)
    requires IsRun(setting, states, steps) && i <= j < |steps| && SameLife(steps, i, j)
    requires Issues(states[i], steps[i]) && !Strays(states[i], steps[i])
    requires Issues(states[j], steps[j]) && !Strays(states[j], steps[j])
    ensures i == j
  {
    var p := ReadInSameLife(setting, states, steps, i);
    var q := ReadInSameLife(setting, states, steps, j);
    SameSigner(setting, states, steps, p, q, i, j);
    assert Next(setting, states[i], steps[i], states[i + 1]);
    if i < j {
      assert q > i by {
        assert steps[i].signer !in states[i + 1].decisions;
      }
      LifeKeeps(setting, states, steps, i + 1, q);
    }
  }

  lemma SameSigner(setting: Setting, states: seq<System>, steps: seq<Step>, p: nat, q: nat, i: nat, j: nat)
    requires IsRun(setting, states, steps) && p < i <= j < |steps| && q < j
    requires SameLife(steps, p, i) && SameLife(steps, i, j) && SameLife(steps, q, j)
    requires steps[i].SigningWrite? && steps[j].SigningWrite?
    requires states[p].csr.signerName == SignerName(setting.namespace, steps[i].signer)
    requires states[q].csr.signerName == SignerName(setting.namespace, steps[j].signer)
    ensures steps[i].signer == steps[j].signer
  {
    assert SameLife(steps, p, j);
    LifeKeeps(setting, states, steps, p, j);
    LifeKeeps(setting, states, steps, q, j);
    SignerNameNamesClass(setting.namespace, setting.namespace, steps[i].signer, steps[j].signer);
  }

  /** The state in which the current life of the request began, or r if that is earlier. */
  function LifeStart(steps: seq<Step>, r: nat, w: nat): (l: nat)
    requires r <= w <= |steps|
    ensures r <= l <= w && SameLife(steps, l, w) && (l > r ==> steps[l - 1].Recreate?)
    ensures l == r <==> SameLife(steps, r, w)
  {
    if r == w || steps[w - 1].Recreate? then w else LifeStart(steps, r, w - 1)
  }

  /**
    In general, the request that gets a certificate is approved exactly if it is the one that was
    read, or an approval has reached it since it was created.
   */
  lemma ApprovedAtWriteExactlyWhen(setting: Setting, states: seq<System>, steps: seq<Step>, w: nat) returns (r: nat)
    requires IsRun(setting, states, steps) && w < |steps| && Issues(states[w], steps[w])
    ensures r < w && DecidedAt(setting, states, steps, r, w, steps[w].signer)
    ensures var born := LifeStart(steps, r, w);
            IsApproved(states[w].csr) <==> born == r || ApprovedBetween(states, steps, born, w)
  {
    r := IssuedOnRead(setting, states, steps, w);
    var born := LifeStart(steps, r, w);
    ApprovalOverLife(setting, states, steps, born, w);
    if born > r {
      assert Next(setting, states[born - 1], steps[born - 1], states[born]);
    }
  }

  // ---- a request created anew ----

  function SampleRequest(): X509Request {
    X509Request("system:customer-break-glass:user", [], [], [], [])
  }

  /** A valid, approved request of the customer class. */
  function SampleCsr(setting: Setting): Csr {
    Csr(SignerName(setting.namespace, CustomerBreakGlass), ["client auth"], None, Some(SampleRequest()),
        [Condition(Approved, "True")], None)
  }

  lemma SampleIsProper(setting: Setting)
    ensures IsProper(CustomerBreakGlass, SampleCsr(setting).usages, SampleRequest())
  {
    assert SampleRequest().commonName[..28] == "system:customer-break-glass:";
    assert SampleCsr(setting).usages[0] == "client auth";
  }

  lemma SampleIsSigned(setting: Setting, now: int, signerNotAfter: int)
    requires now < signerNotAfter && 0 < signerNotAfter
    ensures Decide(setting, CustomerBreakGlass, SampleCsr(setting), Signing(now, Some(signerNotAfter), true)).Issue?
  {
    var csr := SampleCsr(setting);
    assert csr.conditions[0].kind == Approved;
    SampleIsProper(setting);
    NamesSpelled(setting.namespace, CustomerBreakGlass);
    DecidesExactlyWhen(setting, CustomerBreakGlass, csr, Signing(now, Some(signerNotAfter), true));
  }

  /** Created anew between read and write, a request that nobody approved is signed. */
  lemma SuccessorIsSigned(setting: Setting, now: int, signerNotAfter: int)
    returns (states: seq<System>, steps: seq<Step>)
    requires now < signerNotAfter && 0 < signerNotAfter
    ensures IsRun(setting, states, steps) && |steps| == 3 && Issues(states[2], steps[2])
    ensures Strays(states[2], steps[2])
    ensures states[2].csr.conditions == [] && states[3].csr.certificate.Some? && !IsApproved(states[3].csr)
  {
    var csr := SampleCsr(setting);
    var signing := Signing(now, Some(signerNotAfter), true);
    var decision := Decide(setting, CustomerBreakGlass, csr, signing);
    SampleIsSigned(setting, now, signerNotAfter);
    var successor := csr.(conditions := []);
    var s0 := System(csr, 0, map[], map[], {});
    var s1 := s0.(decisions := map[CustomerBreakGlass := decision]);
    var s2 := System(successor, 1, map[], map[CustomerBreakGlass := decision], {CustomerBreakGlass});
    var s3 := System(Applied(successor, decision), 2, map[], map[], {});
    states := [s0, s1, s2, s3];
    steps := [SigningRead(CustomerBreakGlass, signing), Recreate(successor), SigningWrite(CustomerBreakGlass, true)];
    assert s2.decisions - {CustomerBreakGlass} == map[];
    assert Next(setting, s0, steps[0], s1);
    assert Next(setting, s1, steps[1], s2);
    assert Next(setting, s2, steps[2], s3);
  }

  // ---- an ordinary life ----

  function SeenCsr(setting: Setting): Csr {
    SampleCsr(setting).(conditions := [Condition(OtherType("Seen"), "True")])
  }

  lemma SeenThenApproved(setting: Setting, csr: Csr, seen: Csr, s0: System, s1: System, s2: System, s3: System)
    requires seen == SeenCsr(setting) && csr == seen.(conditions := [])
    requires s0 == System(csr, 0, map[], map[], {}) && s1 == System(seen, 1, map[], map[], {})
    requires s2 == s1.(approvals := map[CustomerBreakGlass := Approval(1, Approve(seen))])
    requires s3 == System(Approve(seen), 2, map[], map[], {})
    ensures Next(setting, s0, OtherWrite, s1) && Next(setting, s1, ApprovalRead(CustomerBreakGlass, true), s2)
    ensures Next(setting, s2, ApprovalWrite(CustomerBreakGlass, true), s3)
    ensures ApprovalLands(s2, ApprovalWrite(CustomerBreakGlass, true))
  {
    SeenIsApproved(setting, seen);
    assert s2.approvals - {CustomerBreakGlass} == map[];
  }

  /** Noticed by others, approved by the controller of its class and signed. */
  lemma OrdinaryLife(setting: Setting, now: int, signerNotAfter: int)
    returns (states: seq<System>, steps: seq<Step>)
    requires now < signerNotAfter && 0 < signerNotAfter
    ensures IsRun(setting, states, steps) && |steps| == 5 && NoneStrays(states, steps)
    ensures states[0].csr.conditions == [] && steps[0] == OtherWrite
    ensures ApprovalLands(states[2], steps[2]) && Issues(states[4], steps[4])
    ensures states[5].approvals == map[] && states[5].decisions == map[]
  {
    var signing := Signing(now, Some(signerNotAfter), true);
    var seen := SeenCsr(setting);
    var csr, approved := seen.(conditions := []), Approve(seen);
    var decision := Decide(setting, CustomerBreakGlass, approved, signing);
    ApprovedIsSigned(setting, seen, signing);
    var s0, s1 := System(csr, 0, map[], map[], {}), System(seen, 1, map[], map[], {});
    var s2 := s1.(approvals := map[CustomerBreakGlass := Approval(1, approved)]);
    var s3 := System(approved, 2, map[], map[], {});
    var s4 := s3.(decisions := map[CustomerBreakGlass := decision]);
    var s5 := System(Applied(approved, decision), 3, map[], map[], {});
    states := [s0, s1, s2, s3, s4, s5];
    steps := [OtherWrite, ApprovalRead(CustomerBreakGlass, true), ApprovalWrite(CustomerBreakGlass, true),
              SigningRead(CustomerBreakGlass, signing), SigningWrite(CustomerBreakGlass, true)];
    SeenThenApproved(setting, csr, seen, s0, s1, s2, s3);
    assert s4.decisions - {CustomerBreakGlass} == map[];
    assert Next(setting, s3, steps[3], s4);
    assert Next(setting, s4, steps[4], s5);
  }

  lemma SeenIsApproved(setting: Setting, seen: Csr)
    requires seen == SeenCsr(setting)
    ensures Approves(setting, CustomerBreakGlass, seen, true)
  {
    NamesSpelled(setting.namespace, CustomerBreakGlass);
    ApprovesExactlyWhen(setting, CustomerBreakGlass, seen, true);
  }

  lemma ApprovedIsSigned(setting: Setting, seen: Csr, signing: Signing)
    requires seen == SeenCsr(setting)
    requires signing.succeeds && signing.signerNotAfter.Some?
    requires signing.now < signing.signerNotAfter.value && 0 < signing.signerNotAfter.value
    ensures Decide(setting, CustomerBreakGlass, Approve(seen), signing).Issue?
  {
    var csr := Approve(seen);
    assert csr.conditions[1].kind == Approved;
    SampleIsProper(setting);
    NamesSpelled(setting.namespace, CustomerBreakGlass);
    DecidesExactlyWhen(setting, CustomerBreakGlass, csr, signing);
  }
}
