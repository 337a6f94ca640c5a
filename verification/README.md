# HyperShift control loops, verified

A Dafny model of the parts of HyperShift whose correctness depends on whole runs: controllers that re-derive their phase
from what they observe, caches and pools under concurrency, and the parsers and arithmetic they rely on. Requests to
Kubernetes, etcd, the registry, HAProxy and the clock are parameters or steps of an environment; a failed request is one
of their answers. `dafny verify dfyconfig.toml` checks everything.

| files | subject |
|---|---|
| Certificates, Revocation, RevocationSafety, RevocationRuns, RevocationProgress, RevocationCooperation, RevocationClasses, RevocationExample | the six-step certificate revocation protocol |
| ExpiringCaches, TokenSecrets, TokenRuns, TokenOutcomes, TokenDrops | ignition tokens, their rotation and their expiring payload store |
| EtcdPool | the etcd client pool |
| FeatureGates, FeatureGateRuns | kas-bootstrap's feature-gate merge under optimistic locking |
| Defrag, Recovery | etcd defragmentation and etcd recovery |
| Cron, CronGrammar, CronVerbs | validation of backup schedules |
| ImageFileCache | the ignition server's cache of image files |
| SharedIngressConfig, SharedIngressContents, SharedIngress | the shared ingress configuration and its reload loop |
| CertificateSigning | approval and signing of break-glass certificate requests |
| IssuerUrl | OIDC issuer URLs |
| Common, Strings, Sorting | shared definitions |

## How to read it

**Revocation.** X.509 path validation (section 6.1 of RFC 5280) is an uninterpreted predicate over a leaf, a set of
roots and a time. The six steps are functions of the observed cluster; `RevocationSafety` gives each of the twelve
possible writes a guard in the protocol's own terms and shows that a sync performs a write exactly under its guard. A
run interleaves syncs (whose write may be refused) with arbitrary changes by others. Assumed of them: reads are current;
the signer class is immutable; nobody else touches the request's status or the saved signer; once leaves are recorded as
regenerated nobody puts an old certificate back into a pruned class bundle (`PrefixBreaksExactlyWhen` says exactly what
happens otherwise, `DirtyBundleBreaksPrefix` gives a cluster). That the signer exists and is not rotated on its own
before its predecessor is recorded is not assumed: `PanicsExactlyWhen` says when the code dereferences a missing object,
and `EarlyRotationPanics` is a run that comes to it. `RevocationClasses` puts signers and bundles by name: what a sync
copies, marks and prunes is its own class's, and the other class is left alone, up to the exception that
`OtherClassUntouched` states exactly and `ForeignSignerIsMarked` exhibits. `RevocationCooperation` models the others'
response to a sync: marked certificates are renewed, the union of the class bundles is published and the API server has
loaded it. There, a certificate verifies exactly against the certificate that issued it, and leaves name the generation
of the signer that issued them.

**Tokens.** One clock; a patch that reports an error was not applied; tokens are never reused; the payload of a secret
is a function of its content. `Get` does not renew an entry, contrary to the comment at
`ignition-server/controllers/cache.go:26`; the model follows the code. A second replica may rotate any secret. A token
resolves at every instant before its time to live has passed. At the last instant it resolves if and only if no
reconciliation has dropped it (`InstalledTokenResolves`); `DroppedAtLastInstant` is a run in which one has.

**Pool.** Every channel operation is a step, and callers interleave at each of them. A permit is handed back before its
client is closed, so the bound is on permits, idle clients and callers holding either; `OpenClientsBound` states what
that leaves for open clients, and `ElevenOpen` is a run with eleven of them.

**Feature gates.** The status list is replaced whole (section 2 of RFC 7396), guarded by the resource version. That a
further reconcile of an unchanged status writes nothing is true of the replica that wrote last and false of any other:
comparison is by order, and `OtherReplicaReorders` gives the input. `NothingToWrite` is the exact condition.

**Defragmentation.** Percentages are computed over the reals with rounding half away from zero. A member without client
URL makes the first logging loop panic; that is an outcome of the model, not a precondition.

**Recovery.** A member is broken if its pod is the only one with a failing etcd container, or else if it is missing, and
not two different ones are; `ActionsExactly` says what is done to it. Two of three members stay healthy exactly under
the condition of `TwoStayHealthyExactlyWhen`; `OneMayBeLeft` is an input outside it, where the failing pod is not the
unhealthy member. Polling stops at a status that is not unhealthy without asking whether it is recoverable;
`PollAcceptsBrokenCluster` is an input.

**Cron.** The comments at `cmd/oadp/schedule.go:337` and `cmd/oadp/schedule.go:443` promise `1-10/2`. The code looks for
a hyphen first and rejects it, and every other mixture of a range with a list or a step (`MixedRangeRejected`). Lower
case is modelled as far as it can produce an ASCII letter, which is all a verb consists of. A schedule fires at a time
if each of its five fields does; no verb restricts day and weekday together, where cron dialects differ.

**Image files.** Checksums are free of collisions and a temporary file name is never reused. Files may be changed or
removed by anybody, except between a caller's check, or record, and its copy. That a caller gets the registry's content
is then true if and only if its file was intact when its checksum was computed (`ReturnsRecordedContent`);
`EarlyChangeIsReturned` is a run in which it was not.

**Shared ingress.** `SharedIngressContents` says which backends there are and what each of them says, without reference
to the functions that compute them. HAProxy loads the file exactly when it answers with success. When no answer arrives,
it is assumed not to have loaded it; `LostAnswerLeavesStale` shows why. Hashes are free of collisions.

**Signing.** A sync reads the request and writes later; in between, anything may happen to the request except a second
sync of it by the same controller. An approval is sent with the version it was read at; a certificate or a failure is
applied by name, without one. Others leave specification, certificate and failure alone and keep to the API server's
rule that approval and denial exclude each other and are never removed
(`vendor/k8s.io/api/certificates/v1/types.go:248-249`). A request may be deleted and created anew under its name at any
time. Only the write of a decision that was taken on the predecessor can then sign a request that is not approved:
`SuccessorIsSigned` is a run, `SignedWhileApproved` says that there is no other way, and `ApprovedAtWriteExactlyWhen` is
the exact condition. Signing once and validly is proved of every write but such stray ones, in every run; never after
failure, of runs in which none arrives. The comment above `boundaries` promises a back-dated `NotBefore`; the code never
assigns it, and the model leaves it at the zero time.

## Model

| member | source | states |
|---|---|---|
| Certificates.PartitionCertificatesByValidity | control-plane-pki-operator/certificaterevocationcontroller/certificaterevocationcontroller.go:1008-1019 | splits a bundle, multiplicities kept, into certificates valid only after the cutoff and the rest |
| Certificates.SelectLength | control-plane-pki-operator/certificaterevocationcontroller/certificaterevocationcontroller.go:702-703 | comparing lengths is the same as asking whether every certificate is newer than the cutoff |
| Certificates.TrustedCertificates | control-plane-pki-operator/certificaterevocationcontroller/certificaterevocationcontroller.go:984-1004 | exactly the secrets whose leaf verifies against the set of roots of the bundle |
| Certificates.MergeEffect | control-plane-pki-operator/certificaterevocationcontroller/certificaterevocationcontroller.go:1027-1049 | one apply loses no condition type, duplicates none, and changes only the updated types |
| Certificates.Conditions | control-plane-pki-operator/certificaterevocationcontroller/certificaterevocationcontroller.go:1027-1049 | the loop merges as specified |
| Revocation.ParseIssuerExact | control-plane-pki-operator/certificaterevocationcontroller/certificaterevocationcontroller.go:1055-1066 | a name and a number joined by one `@` are read back, and fail exactly if the number does not parse |
| Revocation.ParseIssuerShape | control-plane-pki-operator/certificaterevocationcontroller/certificaterevocationcontroller.go:1055-1066 | whatever parses is the name, `@` and a numeral of the seconds |
| RevocationSafety.ScanLeavesMeaning | control-plane-pki-operator/certificaterevocationcontroller/certificaterevocationcontroller.go:641-685 | the scan finds a leaf of an older generation, a malformed issuer, or proves that there is neither |
| RevocationSafety.NamesDecideTrust | control-plane-pki-operator/certificaterevocationcontroller/certificaterevocationcontroller.go:743-748 | comparing the name sets of trusted leaves decides whether pruning makes a leaf lose trust |
| RevocationSafety.GuardDecides | control-plane-pki-operator/certificaterevocationcontroller/certificaterevocationcontroller.go:351-386 | a sync performs a write whenever the write's guard holds |
| RevocationSafety.WriteHasGuard | control-plane-pki-operator/certificaterevocationcontroller/certificaterevocationcontroller.go:351-386 | a sync that acts performs one of the twelve writes, under that write's guard |
| RevocationSafety.ExactlyOneWrite | control-plane-pki-operator/certificaterevocationcontroller/certificaterevocationcontroller.go:314-336 | every sync that acts makes exactly one write, so the validation of actions never fails |
| RevocationSafety.RevokedExactlyWhenComplete | control-plane-pki-operator/certificaterevocationcontroller/certificaterevocationcontroller.go:815-911 | completion is declared if and only if the earlier phases are recorded and the observed state has a new trusted signer, no older leaf, a pruned bundle and a rejected old signer |
| RevocationSafety.PruningKeepsTrust | control-plane-pki-operator/certificaterevocationcontroller/certificaterevocationcontroller.go:702-776 | a written bundle drops exactly the certificates from up to the cutoff, and no inspectable leaf loses trust |
| RevocationClasses.CopiesOwnSigner | control-plane-pki-operator/certificaterevocationcontroller/certificaterevocationcontroller.go:424-473 | a sync copies a secret if and only if the signer secret of its own class, named per class, holds a certificate from up to the cutoff and there is no copy yet; and it copies that secret |
| RevocationClasses.MarksOwnSigner | control-plane-pki-operator/certificaterevocationcontroller/certificaterevocationcontroller.go:491-502 | that signer is marked for regeneration if and only if it is outdated, copied, referred to and not marked yet |
| RevocationClasses.WritesOwnClass | control-plane-pki-operator/certificaterevocationcontroller/certificaterevocationcontroller.go:641-810 | whatever else is marked is an older leaf of that signer, and the bundle written is the one of the class |
| RevocationClasses.TouchesOwnClassOnly | control-plane-pki-operator/certificaterevocationcontroller/certificaterevocationcontroller.go:276-312 | a sync changes nothing but the status, the copy, its signer, older leaves of it and its bundle |
| RevocationClasses.OtherClassUntouched | control-plane-pki-operator/certificaterevocationcontroller/certificaterevocationcontroller.go:209-274 | revoking one class leaves the other class's bundle alone; its signer is at most marked, and that if and only if it comes up unmarked as a leaf of an older generation of the revoked signer |
| RevocationExample.ForeignSignerIsMarked | control-plane-pki-operator/certificaterevocationcontroller/certificaterevocationcontroller.go:641-685 | a cluster in which the other class's signer is annotated so, and is marked |
| RevocationClasses.CompletesExactlyWhen | control-plane-pki-operator/certificaterevocationcontroller/certificaterevocationcontroller.go:815-911 | the same as `RevokedExactlyWhenComplete`, in the names of signer, class bundle and `total-client-ca` |
| RevocationSafety.PanicsExactlyWhen | control-plane-pki-operator/certificaterevocationcontroller/certificaterevocationcontroller.go:424-533 | a sync dereferences a missing object if and only if it needs a signer that is not there, or the reference to the previous signer before that was recorded |
| RevocationExample.EarlyRotationPanics | control-plane-pki-operator/certificaterevocationcontroller/certificaterevocationcontroller.go:504-520 | a run in which others rotate the signer before it is copied, and the next sync panics |
| RevocationRuns.StepKeeps | control-plane-pki-operator/certificaterevocationcontroller/certificaterevocationcontroller.go:276-312 | every step of the controller and of others keeps the protocol's invariant and only moves the status forward |
| RevocationRuns.StatusNeverGoesBack | control-plane-pki-operator/certificaterevocationcontroller/certificaterevocationcontroller.go:390-422 | over every run, timestamp and reference never change once set, no condition is lost, duplicated or taken back, and the True ones are a prefix of the five phases |
| RevocationRuns.PrefixBreaksExactlyWhen | control-plane-pki-operator/certificaterevocationcontroller/certificaterevocationcontroller.go:743-764 | from a status in order, a sync breaks the prefix if and only if it reports stale leaves of a request already recorded as revoked |
| RevocationExample.DirtyBundleBreaksPrefix | control-plane-pki-operator/certificaterevocationcontroller/certificaterevocationcontroller.go:743-764 | a concrete cluster with an old certificate put back, whose next sync breaks the prefix |
| RevocationRuns.CopyHasOrigin | control-plane-pki-operator/certificaterevocationcontroller/certificaterevocationcontroller.go:445-473 | the saved signer is a copy that an earlier sync of the run took while the signer was still from before the cutoff |
| RevocationRuns.RevokedSignerIsTheOldOne | control-plane-pki-operator/certificaterevocationcontroller/certificaterevocationcontroller.go:351-386 | over every run, when completion is declared the total bundle rejects the certificate that was the signer's own at an earlier state of that run, and everything else the revocation promises holds |
| RevocationRuns.RevokedStaysClean | control-plane-pki-operator/certificaterevocationcontroller/certificaterevocationcontroller.go:687-810 | a request recorded as revoked keeps its cutoff and a class bundle without older certificates in all later states |
| RevocationProgress.WritesLowerTheRank | control-plane-pki-operator/certificaterevocationcontroller/certificaterevocationcontroller.go:445-502 | no write raises the rank, and all but repeated leaf marks and the waiting status lower it |
| RevocationProgress.RankBound | control-plane-pki-operator/certificaterevocationcontroller/certificaterevocationcontroller.go:351-386 | the rank is at most ten plus the number of issued certificates |
| RevocationProgress.AnsweredHasWrite | control-plane-pki-operator/certificaterevocationcontroller/certificaterevocationcontroller.go:351-386 | once the others have answered, an incomplete revocation always has a write to make that is not a waiting one |
| RevocationProgress.CompletesWithinRank | control-plane-pki-operator/certificaterevocationcontroller/certificaterevocationcontroller.go:351-386 | if the others have answered at every sync and undo no progress, completion comes within as many rounds as the initial rank |
| RevocationCooperation.SyncKeepsOrder | control-plane-pki-operator/certificaterevocationcontroller/certificaterevocationcontroller.go:351-386 | every sync keeps the facts about signers, copies and leaves that the others rely on |
| RevocationCooperation.ResponseResponds | control-plane-pki-operator/targetconfigcontroller/targetconfigcontroller.go:103-131 | to a cluster in good order there always is such a response |
| RevocationCooperation.ResponseKeepsTheRank | control-plane-pki-operator/targetconfigcontroller/targetconfigcontroller.go:103-131 | renewing what is marked and publishing the union of the class bundles undoes no progress, and rotating the signer lowers the rank |
| RevocationCooperation.PruningIsSafe | control-plane-pki-operator/certificaterevocationcontroller/certificaterevocationcontroller.go:743-764 | once no leaf is of an older generation, pruning makes no leaf lose trust |
| RevocationCooperation.OldSignerIsRejected | control-plane-pki-operator/certificaterevocationcontroller/certificaterevocationcontroller.go:815-911 | once the class bundle is pruned, the published union rejects the saved signer |
| RevocationCooperation.SettledIsAnswered | control-plane-pki-operator/certificaterevocationcontroller/certificaterevocationcontroller.go:538-911 | after their response, everything the protocol waits for is answered |
| RevocationCooperation.CooperationCompletes | control-plane-pki-operator/certificaterevocationcontroller/certificaterevocationcontroller.go:351-386 | with others that respond to every sync, completion comes within ten rounds plus one per issued certificate |
| RevocationExample.TidyIsReady | control-plane-pki-operator/certificaterevocationcontroller/certificaterevocationcontroller.go:351-386 | a concrete cluster at the start of a revocation meets the facts from which cooperation completes |
| ExpiringCaches.ExpiringCache.GarbageCollect | ignition-server/controllers/cache.go:88-94 | removes exactly the expired entries |
| ExpiringCaches.ExpiringCache.Get | ignition-server/controllers/cache.go:44-56 | collects, and yields the unexpired value of the key if there is one |
| ExpiringCaches.ExpiringCache.Set | ignition-server/controllers/cache.go:58-68 | stores the value with a fresh expiry |
| ExpiringCaches.ExpiringCache.Delete | ignition-server/controllers/cache.go:70-75 | removes exactly this key |
| ExpiringCaches.ExpiringCache.Keys | ignition-server/controllers/cache.go:77-86 | lists every key once |
| ExpiringCaches.ReadsAreTimedMap | ignition-server/controllers/cache.go:44-94 | after any history, a read yields a value exactly when the last Set stored it at most the time to live ago and no Delete followed |
| TokenSecrets.TokenSecretReconciler.RotateToken | ignition-server/controllers/tokensecret_controller.go:367-399 | new token stored, then the secret patched; on a failed patch the new token is withdrawn and the old one stored again |
| TokenSecrets.TokenSecretReconciler.ProcessExpiredToken | ignition-server/controllers/tokensecret_controller.go:163-174 | both tokens leave the store, then the secret is deleted |
| TokenSecrets.TokenSecretReconciler.PurgeSecret | ignition-server/controllers/tokensecret_controller.go:186-212 | the loop removes exactly the secret's own entries and the expired ones |
| TokenSecrets.TokenSecretReconciler.FillStore | ignition-server/controllers/tokensecret_controller.go:304-330 | a generated payload is stored under both tokens, then reported in the secret |
| TokenSecrets.TokenSecretReconciler.ServeSecret | ignition-server/controllers/tokensecret_controller.go:228-330 | hit, rotation, copy from the old token or generation, as specified |
| TokenSecrets.TokenSecretReconciler.Reconcile | ignition-server/controllers/tokensecret_controller.go:176-334 | secrets, store and result are those of the specification function that all theorems on runs and outcomes are about |
| TokenRuns.StepKeeps | ignition-server/controllers/tokensecret_controller.go:176-330 | every step keeps tokens with their secret and right payloads in the store |
| TokenRuns.StoredPayloadsAreRight | ignition-server/controllers/tokensecret_controller.go:228-310 | in every reachable state each entry holds the payload of the secret it is tagged with |
| TokenRuns.SuccessfulReconcileServesToken | ignition-server/controllers/tokensecret_controller.go:228-310 | after an error-free reconcile of a live secret its current token resolves to its own payload, whatever failed before |
| TokenRuns.MissingSecretIsPurged | ignition-server/controllers/tokensecret_controller.go:186-212 | reconciling a missing or deleting secret removes exactly its entries and the expired ones |
| TokenRuns.RemovedExactlyWhenLapsed | ignition-server/controllers/tokensecret_controller.go:146-174 | a secret is removed if and only if its expiration is malformed or in the past; then both its tokens leave the store and every other entry stays |
| TokenRuns.RetiredNeverResolves | ignition-server/controllers/tokensecret_controller.go:163-220 | over every run, once a lapsed or missing secret has been reconciled its tokens never resolve again |
| TokenOutcomes.RequeuedAtHalfLife | ignition-server/controllers/tokensecret_controller.go:239-334 | a success asks to come back when half of the eleven hours since the last rotation have passed |
| TokenOutcomes.YoungTokenKept | ignition-server/controllers/tokensecret_controller.go:228-240 | before that a token that resolves is left alone |
| TokenOutcomes.AgedTokenRotated | ignition-server/controllers/tokensecret_controller.go:357-399 | from then on the new token holds the payload for eleven hours, the current one stays and the one before goes |
| TokenOutcomes.FailedRotationUndone | ignition-server/controllers/tokensecret_controller.go:386-396 | if the patch fails the secret stays as it is and the new token is gone again |
| TokenOutcomes.OldTokenTakenOver | ignition-server/controllers/tokensecret_controller.go:242-249 | a token unknown here takes the payload over from the old one |
| TokenOutcomes.PayloadGenerated | ignition-server/controllers/tokensecret_controller.go:300-334 | if neither resolves, the payload is held under both for eleven hours and reported as the kind of upgrade wants it |
| TokenOutcomes.FailureReported | ignition-server/controllers/tokensecret_controller.go:281-297 | a payload that cannot be generated leaves reason and message in the secret and nothing in the store |
| TokenOutcomes.UnreadableLeftAlone | ignition-server/controllers/tokensecret_controller.go:176-226 | a failed read or a malformed generation time changes nothing |
| TokenRuns.InstalledTokenResolves | ignition-server/controllers/tokensecret_controller.go:222-249 | over every run, while its secret lives and the server is not restarted, an installed token resolves to its payload up to its time to live if and only if no reconciliation dropped it, which none does before the last instant |
| TokenRuns.StepStanding | ignition-server/controllers/tokensecret_controller.go:367-399 | every step keeps an installed token stored, or is the one that drops it |
| TokenDrops.DroppedAtLastInstant | ignition-server/controllers/tokensecret_controller.go:367-399 | a run in which a second rotation at exactly the time to live drops the token |
| EtcdPool.NewPool | pkg/etcdcli/etcdcli_pool.go:165-185 | a new pool has all permits and no client |
| EtcdPool.CountKept | pkg/etcdcli/etcdcli_pool.go:48-135 | every step keeps permits, idle clients and occupants at ten together, and a released permit arrives |
| EtcdPool.ExclusiveKept | pkg/etcdcli/etcdcli_pool.go:48-128 | every step keeps each client in one place |
| EtcdPool.RunKeepsInvariant | pkg/etcdcli/etcdcli_pool.go:48-135 | for every interleaving: the count, no client held twice, every leased client healthy with the desired endpoints |
| EtcdPool.NothingLeaks | pkg/etcdcli/etcdcli_pool.go:48-135 | with no caller inside, every permit is back or stands for an idle client |
| EtcdPool.OpenClientsBound | pkg/etcdcli/etcdcli_pool.go:97-122 | clients open at one time are at most ten plus those being closed |
| EtcdPool.ElevenOpen | pkg/etcdcli/etcdcli_pool.go:97-98 | a run with eleven clients open at one time |
| EtcdPool.PermitsNeverDropped | pkg/etcdcli/etcdcli_pool.go:130-135 | the non-blocking send of a permit always finds room |
| EtcdPool.AtMostThreeAttempts | pkg/etcdcli/etcdcli_pool.go:54-110 | in every run a caller makes at most three attempts |
| EtcdPool.GivesUpAfterThree | pkg/etcdcli/etcdcli_pool.go:54-110 | a call gives up exactly when three of its attempts have failed |
| EtcdPool.NeverStuck | pkg/etcdcli/etcdcli_pool.go:48-128 | in every run each caller can always take a step, and one that waits for a permit takes it if there is one |
| EtcdPool.CheckedAtEveryLease | pkg/etcdcli/etcdcli_pool.go:93-106 | a client counts as healthy only while it is leased, so every lease begins with a check of its own |
| FeatureGates.ReadKnownVersions | kas-bootstrap/kas_boostrap.go:117-135 | the loop computes the known versions, empty exactly if the cluster version cannot be read |
| FeatureGates.RecentVersionsMeaning | kas-bootstrap/kas_boostrap.go:126-134 | a version counts exactly if an entry of it comes before or at the first completed update |
| FeatureGates.DesiredFeatureGates | kas-bootstrap/kas_boostrap.go:142-153 | the loop computes the merged list |
| FeatureGates.MergeByVersion | kas-bootstrap/kas_boostrap.go:142-153 | under its own version a replica leaves exactly what it rendered; another version keeps all its entries if known, none otherwise |
| FeatureGates.NothingToWrite | kas-bootstrap/kas_boostrap.go:155-158 | nothing is written if and only if the rendered entries lead the list and all later ones are of other, known versions |
| FeatureGates.ReconcileIsIdempotent | kas-bootstrap/kas_boostrap.go:142-158 | the replica that wrote last finds nothing to write |
| FeatureGates.OtherReplicaReorders | kas-bootstrap/kas_boostrap.go:142-158 | another replica reorders an unchanged status: the input on which a further reconcile writes |
| FeatureGateRuns.StepKeeps | kas-bootstrap/kas_boostrap.go:84-93 | every read, write, conflict, lost reply, restart and foreign write keeps the invariant |
| FeatureGateRuns.SucceededEntriesStay | kas-bootstrap/kas_boostrap.go:84-166 | over every run, from a replica's success on the status holds its rendered entries, each as often as rendered |
| FeatureGateRuns.ConflictsAreBounded | kas-bootstrap/kas_boostrap.go:84-166 | in every run a replica meets at most as many conflicts as there are writes; undisturbed, at most N - 1 before it succeeds |
| Defrag.FragmentedExactly | etcd-defrag/etcddefrag_controller.go:251-267 | the rounded 45% test is 20000 * (disk - inuse) >= 8999 * disk, and the size at least 104857600 |
| Defrag.FilterLearners | etcd-defrag/etcddefrag_controller.go:144-150 | the loop leaves out exactly the learners and keeps every other member as often as listed |
| Defrag.TakeTurns | etcd-defrag/etcddefrag_controller.go:176-231 | the loop over the statuses makes the calls and counts of the specification |
| Defrag.CollectStatuses | etcd-defrag/etcddefrag_controller.go:152-174 | the statuses in order with the first self-declared leader last, or an error |
| Defrag.GetMemberFromStatus | etcd-defrag/etcddefrag_controller.go:269-279 | the first member with the ID of the status header |
| Defrag.DefragController.RunDefrag | etcd-defrag/etcddefrag_controller.go:117-246 | outcome, calls and failure count of a pass are those of the specification |
| Defrag.CollectMeaning | etcd-defrag/etcddefrag_controller.go:152-174 | collection succeeds exactly if every voter answers, and sets apart the first self-declared leader |
| Defrag.CallsDueVotersOnceLeaderLast | etcd-defrag/etcddefrag_controller.go:144-231 | Defragment is called exactly on the voters over the threshold, once each, never on a learner, leader last |
| Defrag.ErrorExactlyWhenTurnFails | etcd-defrag/etcddefrag_controller.go:176-246 | past its gates a pass returns an error and counts a failure if and only if one of its calls fails or a status names no voter |
| Defrag.GatedPass | etcd-defrag/etcddefrag_controller.go:117-168 | stopped at a gate, a pass calls nothing and counts nothing; it panics if and only if a listed member has no client URL |
| Recovery.MissingMember | etcd-recovery/etcdrecovery.go:247-258 | one of the three expected names that neither member has always exists, and is found |
| Recovery.IsRecoverableMemberHealth | etcd-recovery/etcdrecovery.go:509-534 | two members and both healthy, or three and at most one unhealthy |
| Recovery.FindFailingPods | etcd-recovery/etcdrecovery.go:319-332 | the nested loops list the pods of waiting, restarted etcd containers |
| Recovery.CheckEtcdStatus | etcd-recovery/etcdrecovery.go:260-344 | the status, or an error, of the specification |
| Recovery.WaitForHealthyCluster | etcd-recovery/etcdrecovery.go:210-226 | polling succeeds exactly if a status that is not unhealthy comes before any error |
| Recovery.RunRecovery | etcd-recovery/etcdrecovery.go:183-208 | result and actions of the specification that `ActionsExactly` and `SucceedsExactlyWhen` are about |
| Recovery.ActionsExactly | etcd-recovery/etcdrecovery.go:346-397 | the actions are, as far as the requests before succeed, to add the broken member if and only if it is missing and to delete `data-` its name and its pod, and none without a broken member |
| Recovery.RecoverableExactlyWhen | etcd-recovery/etcdrecovery.go:509-534 | distinct members are recoverable if and only if they are two healthy ones or three of which no two are unhealthy |
| Recovery.NoPodListed | etcd-recovery/etcdrecovery.go:319-332 | no failing pod is found if and only if no etcd container is waiting after a restart |
| Recovery.OnlyPodListed | etcd-recovery/etcdrecovery.go:319-337 | if exactly one container fails, its pod is the failing one |
| Recovery.OnePodListed | etcd-recovery/etcdrecovery.go:319-337 | and only then is there one |
| Recovery.TwoStayHealthyExactlyWhen | etcd-recovery/etcdrecovery.go:346-397 | whenever a pod is deleted, two members stay healthy if and only if the deleted one is not listed, is itself unhealthy, or all three are healthy |
| Recovery.MissingMemberIsDeleted | etcd-recovery/etcdrecovery.go:131-142 | with two distinct members the actions are to add the missing one and delete its volume and pod, and both others are healthy |
| Recovery.FailingPodIsDeleted | etcd-recovery/etcdrecovery.go:131-142 | otherwise they are to delete volume and pod of the one pod with a failing container |
| Recovery.OneMayBeLeft | etcd-recovery/etcdrecovery.go:260-397 | an input on which only one healthy member is left |
| Recovery.SuccessEndsNotUnhealthy | etcd-recovery/etcdrecovery.go:183-226 | success means that the last status looked at is not unhealthy and all earlier ones were |
| Recovery.PollSucceedsExactlyWhen | etcd-recovery/etcdrecovery.go:210-226 | polling succeeds if and only if some check passes and every check before it finds something without error |
| Recovery.SucceedsExactlyWhen | etcd-recovery/etcdrecovery.go:183-208 | the command succeeds if and only if there is nothing to recover, or a member to recover, its requests succeed and polling does |
| Recovery.NotUnhealthyMeaning | etcd-recovery/etcdrecovery.go:117-129 | a status that is not unhealthy has at most one unhealthy member of three and no failing pod if and only if it is recoverable too |
| Recovery.PollAcceptsBrokenCluster | etcd-recovery/etcdrecovery.go:210-226 | an input on which polling succeeds with two of three endpoints down |
| Cron.ValidateList | cmd/oadp/schedule.go:390-419 | accepts exactly if every trimmed part is an accepted range, step or number |
| Cron.ValidateCronField | cmd/oadp/schedule.go:306-344 | the decision by first matching form |
| Cron.CreateOptions.ValidateSchedulePace | cmd/oadp/schedule.go:274-303 | stores the normalised schedule and accepts exactly the valid ones |
| Cron.NormalizeIdempotent | cmd/oadp/schedule.go:468-512 | normalising twice is normalising once |
| CronVerbs.VerbFiresAt | cmd/oadp/schedule.go:468-512 | each of the 22 verbs, in any case and with white space around it, becomes its expression, which is accepted and fires exactly at the times the verb means |
| CronVerbs.MeaningHasVerb | cmd/oadp/schedule.go:473-503 | every verb with a meaning is in the table |
| CronVerbs.OtherwiseUnchanged | cmd/oadp/schedule.go:505-512 | any other schedule is left as it is |
| CronVerbs.WordsOfSpacing | cmd/oadp/schedule.go:286 | words with white space around and between them are the fields of the text |
| CronVerbs.SpacingExists | cmd/oadp/schedule.go:286 | every text is its fields with such white space |
| Strings.ParsePrinted | cmd/oadp/schedule.go:347-350 | a printed integer is read back if and only if it fits 64 bits |
| Strings.ValueIsSumOfPlaces | cmd/oadp/schedule.go:347-350 | a numeral is worth the sum of its digits times their powers of ten |
| Strings.TrimOf | cmd/oadp/schedule.go:398 | trimming takes off the white space around a text and nothing else |
| CronGrammar.AcceptsExactlyTheGrammar | cmd/oadp/schedule.go:306-450 | a field is accepted if and only if it spells an expression of the grammar within bounds |
| CronGrammar.Unambiguous | cmd/oadp/schedule.go:306-450 | no field spells two expressions |
| CronGrammar.DenotesWithinField | cmd/oadp/schedule.go:306-450 | an accepted expression fires at some value and only at values of its field |
| CronGrammar.MixedRangeRejected | cmd/oadp/schedule.go:327-340 | a hyphen together with a comma or a slash is rejected |
| CronGrammar.ScheduleAccepted | cmd/oadp/schedule.go:274-323 | a schedule is accepted if and only if it has five words that each spell an expression that fires, within 0-59, 0-23, 1-31, 1-12 and 0-6 |
| ImageFileCache.LockKept | ignition-server/controllers/image_file_cache.go:60-77 | a caller is in the critical section exactly if it holds the lock |
| ImageFileCache.RunKeepsRecorded | ignition-server/controllers/image_file_cache.go:57-94 | every entry has the step that computed its checksum, and a file about to be copied has the content it had then |
| ImageFileCache.ReturnsRecordedContent | ignition-server/controllers/image_file_cache.go:57-157 | over every interleaving, with no change between check and copy, a caller gets exactly what its file held at the one step that computed its checksum, so the registry's content if and only if the file was intact then |
| ImageFileCache.RecordedOnce | ignition-server/controllers/image_file_cache.go:85-90 | the checksum of a file is computed at most once |
| ImageFileCache.ReturnsRegistryContent | ignition-server/controllers/image_file_cache.go:57-157 | if the files of a key were intact when recorded, returned bytes are the registry's |
| ImageFileCache.SparedIsIntact | ignition-server/controllers/image_file_cache.go:80-90 | if nobody changes a file from its download to its checksum, every file is recorded intact |
| ImageFileCache.EarlyChangeIsReturned | ignition-server/controllers/image_file_cache.go:80-93 | a run, quiet between check and copy, in which a change before the checksum is returned as the registry's content |
| ImageFileCache.OneDownloadInFlight | ignition-server/controllers/image_file_cache.go:69-83 | at most one download is in flight, under any corruption |
| ImageFileCache.DownloadedOnce | ignition-server/controllers/image_file_cache.go:73-77 | without outside changes, what is cached is never downloaded again |
| SharedIngressConfig.FilterCidrs | sharedingress-config-generator/config.go:110-117 | drops exactly the empty blocks |
| SharedIngressConfig.GetBackendsForHostedCluster | sharedingress-config-generator/config.go:106-200 | the backends of the specification that `InternalExactly` and `ExternalExactly` are about, or an error |
| SharedIngressConfig.GenerateRouterConfig | sharedingress-config-generator/config.go:60-104 | the concatenated contributions of the sorted clusters |
| SharedIngressConfig.FailsExactlyWhen | sharedingress-config-generator/config.go:119-157 | a cluster fails if and only if its API server service, its routes or a routed service cannot be read |
| SharedIngressContents.InternalExactly | sharedingress-config-generator/config.go:119-134 | the internal backends are exactly those of the listed clusters that are not being deleted, can be read and are not private, with the address of their API server service, their ID and their blocks |
| SharedIngressContents.ExternalExactly | sharedingress-config-generator/config.go:136-198 | the external backends are exactly those of the four exposed routes of such clusters, with host, address and port 6443, 443, 8091 or 6443, and those of nonempty DNS names |
| SharedIngressContents.CidrsExactly | sharedingress-config-generator/config.go:110-117 | the allowed blocks are the nonempty ones, each as often as listed |
| SharedIngressContents.InternalNamesDiffer | sharedingress-config-generator/config.go:126-134 | with distinct keys no two internal backends share a name |
| SharedIngressContents.ExternalNamesDiffer | sharedingress-config-generator/config.go:159-198 | with distinct keys and distinct route names no two external backends do |
| SharedIngressConfig.FailureIsIsolated | sharedingress-config-generator/config.go:84-98 | whatever happens in one cluster's namespace, all other backends stay the same and in place |
| SharedIngressConfig.ConfigIgnoresListingOrder | sharedingress-config-generator/config.go:73-78 | with distinct keys the configuration does not depend on the order of listed clusters and routes |
| Sorting.SortingIsUnique | sharedingress-config-generator/config.go:73-78 | with distinct keys any two sorted permutations are equal, so the sorting algorithm does not matter |
| SharedIngress.SharedIngressConfigReconciler.SendReloadCommand | sharedingress-config-generator/controller.go:151-170 | success exactly on an answer whose first line says so |
| SharedIngress.SharedIngressConfigReconciler.Reconcile | sharedingress-config-generator/controller.go:72-129 | file, running configuration, remembered hash and result of the specification |
| SharedIngress.ReconciledIsLoaded | sharedingress-config-generator/controller.go:72-129 | after any history, a reconcile without error leaves the file and HAProxy with the configuration rendered from the listed clusters |
| SharedIngress.LoadedIgnoresListingOrder | sharedingress-config-generator/controller.go:72-129 | what HAProxy ends up with does not depend on the listing order |
| SharedIngress.LoadedExactlyWhen | sharedingress-config-generator/controller.go:115-126 | from any state, HAProxy ends with the generated configuration if and only if it reloads now or already ran it |
| SharedIngress.OutcomeExactly | sharedingress-config-generator/controller.go:72-129 | from any state: when a reconcile succeeds, and what file, running configuration and remembered hash are after it |
| SharedIngress.LostAnswerLeavesStale | sharedingress-config-generator/controller.go:115-126 | a history with one lost answer after which a reconcile without error leaves HAProxy with another configuration |
| SharedIngress.SuccessExactlyWhen | sharedingress-config-generator/controller.go:161-167 | any response reports success if and only if, white space around it aside, its first line is `Success=1` |
| CertificateSigning.GetCertApprovalCondition | control-plane-pki-operator/certificates/conditions.go:35-45 | approved and denied mean that such a condition exists, whatever its status |
| CertificateSigning.HasTrueCondition | control-plane-pki-operator/certificates/conditions.go:19-26 | a condition of the type with status True or empty exists |
| CertificateSigning.ProcessApproval | control-plane-pki-operator/certificatesigningrequestapprovalcontroller/certificatesigningrequestapprovalcontroller.go:106-141 | appends an approval exactly if the class matches, nothing was decided and the approval resource exists |
| CertificateSigning.ApprovesExactlyWhen | control-plane-pki-operator/certificatesigningrequestapprovalcontroller/certificatesigningrequestapprovalcontroller.go:106-130 | a request is approved if and only if it names the class, has neither approval nor denial, and the approval resource exists |
| CertificateSigning.ApprovalIsDeserved | control-plane-pki-operator/certificatesigningrequestapprovalcontroller/certificatesigningrequestapprovalcontroller.go:106-141 | over every run, an approval that lands finds such a request, was sent because the resource existed, and only adds the approval |
| CertificateSigning.ComputeBoundaries | control-plane-pki-operator/certificatesigningcontroller/certificatesigningcontroller.go:226-256 | the boundaries, or an error if the signer has expired |
| CertificateSigning.EndsInTime | control-plane-pki-operator/certificatesigningcontroller/certificatesigningcontroller.go:202-256 | NotAfter is within the signer's and within the larger of TTL and ten minutes, and in the future if and only if the TTL is positive or a request below it was made (section 4.1.2.5 of RFC 5280) |
| CertificateSigning.RequestHonoured | control-plane-pki-operator/certificatesigningcontroller/certificatesigningcontroller.go:202-256 | a requested duration up to the TTL is honoured to the nanosecond from ten minutes on and raised to ten minutes below, five minutes less from 30000 seconds on |
| CertificateSigning.TtlByDefault | control-plane-pki-operator/certificatesigningcontroller/certificatesigningcontroller.go:202-256 | without a request, or with one above the TTL, the certificate ends after exactly the TTL, within the signer's validity |
| CertificateSigning.RefusedExactlyWhen | control-plane-pki-operator/certificatesigningcontroller/certificatesigningcontroller.go:246-252 | validity bounds are refused if and only if the signer has expired, or ends at or before the zero time |
| CertificateSigning.ProcessSigning | control-plane-pki-operator/certificatesigningcontroller/certificatesigningcontroller.go:110-157 | the decision of the specification that `DecidesExactlyWhen` is about |
| CertificateSigning.ValidatesExactlyWhen | control-plane-pki-operator/certificates/validation.go:66-115 | validation passes exactly requests that name the signer, have a common name with the prefix of the class, client authentication and at most two more usages, and no alternative names |
| CertificateSigning.DecidesExactlyWhen | control-plane-pki-operator/certificatesigningcontroller/certificatesigningcontroller.go:110-157 | a request that awaits signing is marked as failed if and only if it is not valid, and issued if and only if it is and the signer can sign |
| CertificateSigning.SignedOnce | control-plane-pki-operator/certificatesigningcontroller/certificatesigningcontroller.go:79-157 | over every interleaving of reads and writes of both controllers of both classes, stray writes aside, a request is signed at most once in its life |
| CertificateSigning.SignedIsValid | control-plane-pki-operator/certificatesigningcontroller/certificatesigningcontroller.go:119-157 | in every run a write that does not stray signs only a request that names the signing class and is valid for it at the write, and the certificate has its subject and usages |
| CertificateSigning.SignedIsRight | control-plane-pki-operator/certificatesigningcontroller/certificatesigningcontroller.go:119-124 | a signed request is never failed, and its issuer is exactly the class it names |
| CertificateSigning.IssuedProperly | control-plane-pki-operator/certificatesigningcontroller/certificatesigningcontroller.go:119-157 | a certificate is issued on a read that found the request approved, not denied, not failed and valid, and its NotAfter is bounded from that read |
| CertificateSigning.SignedWhileApproved | control-plane-pki-operator/certificatesigningcontroller/certificatesigningcontroller.go:92-103 | when a certificate is written the request is approved and not denied, unless the write was decided on a predecessor of the same name |
| CertificateSigning.ApprovedAtWriteExactlyWhen | control-plane-pki-operator/certificatesigningcontroller/certificatesigningcontroller.go:92-103 | in every run the request that gets a certificate is approved if and only if it is the one that was read, or an approval has reached it since it was created |
| CertificateSigning.ApprovalStep | control-plane-pki-operator/certificatesigningcontroller/certificatesigningcontroller.go:92-103 | no step of a request's life loses its approval, and only approvals gain it |
| CertificateSigning.SuccessorIsSigned | control-plane-pki-operator/certificatesigningcontroller/certificatesigningcontroller.go:92-103 | a run in which a request created anew between read and write is signed without any approval |
| CertificateSigning.OrdinaryLife | control-plane-pki-operator/certificatesigningcontroller/certificatesigningcontroller.go:79-157 | a run in which a request is approved by the controller of its class and signed |
| CertificateSigning.StepKeeps | control-plane-pki-operator/certificatesigningcontroller/certificatesigningcontroller.go:79-106 | every read and write but a stray one keeps the certificate, failure and the fit of all decisions in flight |
| CertificateSigning.SignerNameNamesClass | control-plane-pki-operator/certificates/validation.go:47-49 | two classes never share a signer name, not even across namespaces |
| CertificateSigning.InvalidIsNeverSigned | control-plane-pki-operator/certificatesigningcontroller/certificatesigningcontroller.go:131-142 | a request marked as failing validation stays failed and unsigned |
| IssuerUrl.BucketRoundTrip | cmd/fix/dr_oidc_iam.go:330-338 | the printed bucket is read back if and only if it does not start like a URL and the mark does not occur earlier |
| IssuerUrl.RegionRoundTrip | cmd/fix/dr_oidc_iam.go:342-357 | after a readable bucket the region is read back if and only if the domain does not occur earlier |
| IssuerUrl.RoundTrip | cmd/fix/dr_oidc_iam.go:331-357 | both are read back if and only if both are readable |
| IssuerUrl.EndsAtMeaning | cmd/fix/dr_oidc_iam.go:333-357 | a mark does not occur earlier if and only if no position of the text before it starts an occurrence |
| IssuerUrl.PlainNamesRoundTrip | cmd/fix/dr_oidc_iam.go:908-910 | names without dots, and without colon in the bucket, are read back |

## Left out

- PEM and DER parsing, signatures, key usages in certificates, SHA-256 and token generation: uninterpreted, with the injectivity and freshness stated above.
- The rotation and target-config controllers themselves: they appear as steps of the environment and as the response to a sync.
- Stale informer caches: every read sees the current state; only the signing and feature-gate models put other steps between a sync's read and its write.
- The payload provider's process execution and file handling, and the encoding of configuration and payload in the secret: a function of the secret's content.
- The cache-size gauge of the payload store: it counts overwrites and deletes of absent keys, so it is not a size.
- Etcd health probing, stabilisation waits and alarms: verdicts given by the environment; a pass goes on after a stabilisation timeout, so nothing is claimed about health between calls.
- Floating-point rounding in the fragmentation percentage: computed over the reals.
- 64-bit overflow of durations and of database sizes: integers are unbounded.
- The text of the HAProxy template: the configuration is the list of backends it is rendered from.
- Services with no port, which would make the configuration generator panic: a service has a first port.
- SharedIngressConfig.ConfigIgnoresListingOrder: says nothing about clusters whose namespace and name join to the same key, because the order of equal keys is up to the sorting algorithm.
- CertificateSigning.SignedIsRight: is about runs in which no write decided on a predecessor of the same name arrives, because such a write can sign a failed request.
- CertificateSigning.InvalidIsNeverSigned: is about the same runs, for the same reason.
- CertificateSigning.EndsInTime: says nothing about NotBefore, which the code leaves at the zero time.
- Schedule names and the schedule object: names are checked by the Kubernetes validation library, and the object copies option fields into a template.
- Command-line wiring, events, logging and metrics.
- cmd/install, support/awsapi, generated clients and manifest builders.
