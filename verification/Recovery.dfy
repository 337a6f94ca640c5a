/** The etcd recovery command: it diagnoses the cluster and deletes the pod and volume of one member. */
module Recovery {
  import opened Common

  /** A member as listed by etcd, with the verdict of the health check on its endpoint. */
  datatype Member = Member(name: string, clientUrls: seq<string>, endpointHealthy: bool)

  datatype StatefulSet = StatefulSet(currentRevision: string, updateRevision: string)

  predicate IsUpdating(statefulSet: StatefulSet) {
    statefulSet.currentRevision != statefulSet.updateRevision
  }

  datatype Container = Container(name: string, waiting: bool, restartCount: int)

  datatype Pod = Pod(name: string, containers: seq<Container>)

  /** What one status check reads; `None` is a failed request. */
  datatype Observation = Observation(
    members: Option<seq<Member>>, statefulSet: Option<StatefulSet>, pods: Option<seq<Pod>>)

  datatype EtcdStatus = EtcdStatus(failingPod: Option<string>, missingMember: Option<string>, recoverable: bool)

  predicate IsUnhealthy(status: EtcdStatus) {
    status.missingMember.Some? || status.failingPod.Some?
  }

  predicate IsRecoverable(status: EtcdStatus) {
    && status.recoverable
    && (status.failingPod.Some? && status.missingMember.Some? ==> status.failingPod == status.missingMember)
  }

  function MemberToRecover(status: EtcdStatus): string {
    if !IsRecoverable(status) then ""
    else if status.failingPod.Some? then status.failingPod.value
    else if status.missingMember.Some? then status.missingMember.value
    else ""
  }

  // ---- diagnosis ----

  const EXPECTED := ["etcd-0", "etcd-1", "etcd-2"]

  function FirstAbsent(expected: seq<string>, present: set<string>): Option<string> {
    if expected == [] then None
    else if expected[0] !in present then Some(expected[0])
    else FirstAbsent(expected[1..], present)
  }

  method MissingMember(first: Member, second: Member) returns (missing: Option<string>)
    ensures missing == FirstAbsent(EXPECTED, {first.name, second.name})
    ensures missing.Some? && missing.value in EXPECTED && missing.value !in {first.name, second.name}
  {
    var present := {first.name, second.name};
    for i := 0 to |EXPECTED|
      invariant FirstAbsent(EXPECTED, present) == FirstAbsent(EXPECTED[i..], present)
      invariant forall j :: 0 <= j < i ==> EXPECTED[j] in present
    {
      if EXPECTED[i] !in present {
        return Some(EXPECTED[i]);
      }
    }
    missing := None;
    OneIsAbsent(first.name, second.name);
  }

  /** Two names cannot cover the three expected ones. */
  lemma OneIsAbsent(a: string, b: string)
    ensures var missing := FirstAbsent(EXPECTED, {a, b});
            missing.Some? && missing.value in EXPECTED && missing.value !in {a, b}
  {
    var present := {a, b};
    var two, one := ["etcd-1", "etcd-2"], ["etcd-2"];
    assert EXPECTED[1..] == two && two[1..] == one;
    assert "etcd-0"[5] == '0' && "etcd-1"[5] == '1' && "etcd-2"[5] == '2';
    assert EXPECTED[0] in EXPECTED && EXPECTED[1] in EXPECTED && EXPECTED[2] in EXPECTED;
    assert FirstAbsent(one, present) == if one[0] !in present then Some(one[0]) else FirstAbsent(one[1..], present);
    assert FirstAbsent(two, present) == if two[0] !in present then Some(two[0]) else FirstAbsent(one, present);
  }

  /** The health by name; none if a member does not have exactly one client URL. */
  function Health(members: seq<Member>): Option<map<string, bool>> {
    if members == [] then Some(map[])
    else
      var last := members[|members| - 1];
      var before := Health(members[..|members| - 1]);
      if before.None? || |last.clientUrls| != 1 then None
      else Some(before.value[last.name := last.endpointHealthy])
  }

  ghost function Unhealthy(health: map<string, bool>): set<string> {
    set name | name in health && !health[name]
  }

  /** One absent or failing member of three at most. */
  ghost predicate RecoverableHealth(health: map<string, bool>) {
    || (|health| == 2 && Unhealthy(health) == {})
    || (|health| == 3 && |Unhealthy(health)| <= 1)
  }

  method AllHealthy(health: map<string, bool>) returns (healthy: bool)
    ensures healthy <==> Unhealthy(health) == {}
  {
    var names := health.Keys;
    while names != {}
      invariant names <= health.Keys
      invariant Unhealthy(health) <= names
      decreases |names|
    {
      var name :| name in names;
      if !health[name] {
        assert name in Unhealthy(health);
        return false;
      }
      names := names - {name};
    }
    return true;
  }

  method CountUnhealthy(health: map<string, bool>) returns (count: nat)
    ensures count == |Unhealthy(health)|
  {
    var names := health.Keys;
    count := 0;
    ghost var met: set<string> := {};
    while names != {}
      invariant names <= health.Keys
      invariant met == Unhealthy(health) - names
      invariant count == |met|
      decreases |names|
    {
      var name :| name in names;
      if !health[name] {
        count := count + 1;
        met := met + {name};
      }
      names := names - {name};
    }
    assert met == Unhealthy(health);
  }

  method IsRecoverableMemberHealth(health: map<string, bool>) returns (recoverable: bool)
    ensures recoverable <==> RecoverableHealth(health)
  {
    if |health| == 2 {
      recoverable := AllHealthy(health);
    } else if |health| == 3 {
      var unhealthyCount := CountUnhealthy(health);
      recoverable := unhealthyCount <= 1;
    } else {
      recoverable := false;
    }
  }

  predicate IsFailing(container: Container) {
    container.name == "etcd" && container.waiting && container.restartCount > 0
  }

  /** The pod's name, once for each failing etcd container. */
  function FailingContainers(pod: Pod, n: nat): seq<string>
    requires n <= |pod.containers|
  {
    if n == 0 then []
    else FailingContainers(pod, n - 1) + if IsFailing(pod.containers[n - 1]) then [pod.name] else []
  }

  function FailingPods(pods: seq<Pod>, n: nat): seq<string>
    requires n <= |pods|
  {
    if n == 0 then []
    else FailingPods(pods, n - 1) + FailingContainers(pods[n - 1], |pods[n - 1].containers|)
  }

  method FindFailingPods(pods: seq<Pod>) returns (failing: seq<string>)
    ensures failing == FailingPods(pods, |pods|)
  {
    failing := [];
    for i := 0 to |pods|
      invariant failing == FailingPods(pods, i)
    {
      var containers := pods[i].containers;
      for j := 0 to |containers|
        invariant failing == FailingPods(pods, i) + FailingContainers(pods[i], j)
      {
        if containers[j].name != "etcd" {
          continue;
        }
        if containers[j].waiting && containers[j].restartCount > 0 {
          failing := failing + [pods[i].name];
        }
      }
    }
  }

  function Missing(members: seq<Member>): Option<string> {
    if |members| == 2 then FirstAbsent(EXPECTED, {members[0].name, members[1].name}) else None
  }

  /** The status, or none when the check ends in an error. */
  ghost function Status(seen: Observation): Option<EtcdStatus> {
    if seen.members.None? || |seen.members.value| < 2 then None
    else
      var missing := Missing(seen.members.value);
      match Health(seen.members.value)
      case None => None
      case Some(health) =>
        if !RecoverableHealth(health) then Some(EtcdStatus(None, missing, false))
        else if seen.statefulSet.None? || IsUpdating(seen.statefulSet.value) then None
        else if seen.pods.None? then None
        else
          var failing := FailingPods(seen.pods.value, |seen.pods.value|);
          if failing == [] then Some(EtcdStatus(None, missing, true))
          else if |failing| == 1 then Some(EtcdStatus(Some(failing[0]), missing, true))
          else Some(EtcdStatus(None, missing, false))
  }

  method CheckEtcdStatus(seen: Observation) returns (status: Option<EtcdStatus>)
    ensures status == Status(seen)
  {
    if seen.members.None? {
      return None;
    }
    var members := seen.members.value;
    var missing: Option<string> := None;
    if |members| < 2 {
      return None;
    } else if |members| == 2 {
      missing := MissingMember(members[0], members[1]);
    }
    var health: map<string, bool> := map[];
    for i := 0 to |members|
      invariant Health(members[..i]) == Some(health)
    {
      assert members[..i + 1][..i] == members[..i];
      if |members[i].clientUrls| != 1 {
        HealthFails(members, i);
        return None;
      }
      health := health[members[i].name := members[i].endpointHealthy];
    }
    assert members[..|members|] == members;
    var recoverable := IsRecoverableMemberHealth(health);
    if !recoverable {
      return Some(EtcdStatus(None, missing, false));
    }
    if seen.statefulSet.None? || IsUpdating(seen.statefulSet.value) {
      return None;
    }
    if seen.pods.None? {
      return None;
    }
    var failing := FindFailingPods(seen.pods.value);
    if |failing| == 0 {
      return Some(EtcdStatus(None, missing, true));
    } else if |failing| == 1 {
      return Some(EtcdStatus(Some(failing[0]), missing, true));
    }
    return Some(EtcdStatus(None, missing, false));
  }

  lemma {:induction false} HealthFails(members: seq<Member>, i: nat)
    requires i < |members| && |members[i].clientUrls| != 1
    ensures Health(members) == None
  {
    if i == |members| - 1 {
    } else {
      HealthFails(members[..|members| - 1], i);
    }
  }

  // ---- recovery ----

  datatype Action = AddMember(name: string) | DeleteVolume(name: string) | DeletePod(name: string)

  /** Which of the requests of a recovery succeed. Failed deletions are only logged. */
  datatype Replies = Replies(etcdClient: bool, memberAdd: bool, kubeClient: bool)

  function Recover(status: EtcdStatus, replies: Replies): (r: (bool, seq<Action>)) {
    if !replies.etcdClient then (false, [])
    else
      var added := if status.missingMember.Some? then [AddMember(status.missingMember.value)] else [];
      if status.missingMember.Some? && !replies.memberAdd then (false, added)
      else if !replies.kubeClient then (false, added)
      else
        var member := MemberToRecover(status);
        (true, added + [DeleteVolume("data-" + member), DeletePod(member)])
  }

  /** Polling stops at the first error or at the first status that is not unhealthy, or times out. */
  ghost predicate PollSucceeds(polls: seq<Observation>) {
    && polls != []
    && Status(polls[0]).Some?
    && (IsUnhealthy(Status(polls[0]).value) ==> PollSucceeds(polls[1..]))
  }

  method WaitForHealthyCluster(polls: seq<Observation>) returns (ok: bool)
    ensures ok == PollSucceeds(polls)
  {
    for i := 0 to |polls|
      invariant PollSucceeds(polls) == PollSucceeds(polls[i..])
    {
      var status := CheckEtcdStatus(polls[i]);
      if status.None? {
        return false;
      }
      if !IsUnhealthy(status.value) {
        return true;
      }
    }
    return false;
  }

  method RunRecovery(seen: Observation, replies: Replies, polls: seq<Observation>)
    returns (ok: bool, actions: seq<Action>)
    ensures ok == Recovers(seen, replies, polls)
    ensures actions == Actions(seen, replies)
  {
    var status := CheckEtcdStatus(seen);
    if status.None? {
      return false, [];
    }
    if !IsRecoverable(status.value) {
      return false, [];
    }
    if !IsUnhealthy(status.value) {
      return true, [];
    }
    var recovered := Recover(status.value, replies);
    actions := recovered.1;
    if !recovered.0 {
      return false, actions;
    }
    ok := WaitForHealthyCluster(polls);
  }

  /** The check that precedes every action. */
  ghost predicate Acts(seen: Observation) {
    Status(seen).Some? && IsRecoverable(Status(seen).value) && IsUnhealthy(Status(seen).value)
  }

  ghost function Actions(seen: Observation, replies: Replies): seq<Action> {
    if Acts(seen) then Recover(Status(seen).value, replies).1 else []
  }

  ghost predicate Recovers(seen: Observation, replies: Replies, polls: seq<Observation>) {
    && Status(seen).Some? && IsRecoverable(Status(seen).value)
    && (IsUnhealthy(Status(seen).value) ==> Recover(Status(seen).value, replies).0 && PollSucceeds(polls))
  }

  // ---- which actions are taken ----

  /** Container j of pod i is an etcd container that is waiting after a restart. */
  predicate FailsAt(pods: seq<Pod>, i: int, j: int) {
    && 0 <= i < |pods| && 0 <= j < |pods[i].containers|
    && var container := pods[i].containers[j];
       container.name == "etcd" && container.waiting && container.restartCount >= 1
  }

  /** No container of the first n pods fails. */
  ghost predicate NoneFails(pods: seq<Pod>, n: nat) {
    forall i, j :: i < n ==> !FailsAt(pods, i, j)
  }

  /** Exactly this container of the first n pods fails. */
  ghost predicate OnlyFails(pods: seq<Pod>, n: nat, i: int, j: int) {
    FailsAt(pods, i, j) && i < n && forall k, l :: k < n && FailsAt(pods, k, l) ==> k == i && l == j
  }

  lemma {:induction false} NoContainerListed(pods: seq<Pod>, i: nat, n: nat)
    requires i < |pods| && n <= |pods[i].containers|
    ensures FailingContainers(pods[i], n) == [] <==> forall j :: j < n ==> !FailsAt(pods, i, j)
  {
    if n > 0 {
      NoContainerListed(pods, i, n - 1);
      assert IsFailing(pods[i].containers[n - 1]) <==> FailsAt(pods, i, n - 1);
    }
  }

  lemma {:induction false} OneContainerListed(pods: seq<Pod>, i: nat, n: nat) returns (j: int)
    requires i < |pods| && n <= |pods[i].containers| && |FailingContainers(pods[i], n)| == 1
    ensures FailingContainers(pods[i], n) == [pods[i].name]
    ensures FailsAt(pods, i, j) && j < n && forall l :: l < n && FailsAt(pods, i, l) ==> l == j
  {
    assert IsFailing(pods[i].containers[n - 1]) <==> FailsAt(pods, i, n - 1);
    if FailsAt(pods, i, n - 1) {
      NoContainerListed(pods, i, n - 1);
      j := n - 1;
    } else {
      j := OneContainerListed(pods, i, n - 1);
    }
  }

  lemma {:induction false} ListedOnce(pods: seq<Pod>, i: nat, n: nat, j: int)
    requires i < |pods| && n <= |pods[i].containers|
    requires FailsAt(pods, i, j) && j < n && forall l :: l < n && FailsAt(pods, i, l) ==> l == j
    ensures FailingContainers(pods[i], n) == [pods[i].name]
  {
    assert IsFailing(pods[i].containers[n - 1]) <==> FailsAt(pods, i, n - 1);
    if j == n - 1 {
      NoContainerListed(pods, i, n - 1);
    } else {
      ListedOnce(pods, i, n - 1, j);
    }
  }

  /** No pod is listed exactly if no container fails. */
  lemma {:induction false} NoPodListed(pods: seq<Pod>, n: nat)
    requires n <= |pods|
    ensures FailingPods(pods, n) == [] <==> NoneFails(pods, n)
  {
    if n > 0 {
      NoPodListed(pods, n - 1);
      NoContainerListed(pods, n - 1, |pods[n - 1].containers|);
    }
  }

  /** One pod is listed if exactly one container fails, and it is the pod of that container. */
  lemma {:induction false} OnlyPodListed(pods: seq<Pod>, n: nat, i: int, j: int)
    requires n <= |pods| && OnlyFails(pods, n, i, j)
    ensures FailingPods(pods, n) == [pods[i].name]
  {
    if i == n - 1 {
      NoPodListed(pods, n - 1);
      ListedOnce(pods, i, |pods[i].containers|, j);
    } else {
      OnlyPodListed(pods, n - 1, i, j);
      NoContainerListed(pods, n - 1, |pods[n - 1].containers|);
    }
  }

  /** And only then. */
  lemma {:induction false} OnePodListed(pods: seq<Pod>, n: nat) returns (i: int, j: int)
    requires n <= |pods| && |FailingPods(pods, n)| == 1
    ensures OnlyFails(pods, n, i, j) && FailingPods(pods, n) == [pods[i].name]
  {
    var last := FailingContainers(pods[n - 1], |pods[n - 1].containers|);
    assert FailingPods(pods, n) == FailingPods(pods, n - 1) + last;
    if last == [] {
      NoContainerListed(pods, n - 1, |pods[n - 1].containers|);
      i, j := OnePodListed(pods, n - 1);
      assert OnlyFails(pods, n, i, j);
    } else {
      assert FailingPods(pods, n - 1) == [] && |last| == 1;
      NoPodListed(pods, n - 1);
      i := n - 1;
      j := OneContainerListed(pods, n - 1, |pods[n - 1].containers|);
    }
  }

  lemma {:induction false} HealthKeys(members: seq<Member>)
    requires Health(members).Some?
    ensures forall name :: name in Health(members).value <==> exists i :: 0 <= i < |members| && members[i].name == name
  {
    if members == [] {
    } else {
      var n := |members| - 1;
      HealthKeys(members[..n]);
      forall name | name in Health(members).value
        ensures exists i :: 0 <= i < |members| && members[i].name == name
      {
        if name == members[n].name {
        } else {
          var i :| 0 <= i < n && members[..n][i].name == name;
          assert members[i].name == name;
        }
      }
      forall i | 0 <= i < |members|
        ensures members[i].name in Health(members).value
      {
        if i < n {
          assert members[..n][i].name == members[i].name;
        }
      }
    }
  }

  /** The health under a name is the verdict on the last member listed with it. */
  lemma {:induction false} HealthIsLastVerdict(members: seq<Member>, i: nat)
    requires Health(members).Some? && i < |members|
    requires forall j :: i < j < |members| ==> members[j].name != members[i].name
    ensures members[i].name in Health(members).value
    ensures Health(members).value[members[i].name] == members[i].endpointHealthy
  {
    if i < |members| - 1 {
      HealthIsLastVerdict(members[..|members| - 1], i);
    }
  }

  /** The first of the three expected names that neither of two members has. */
  predicate IsMissing(members: seq<Member>, name: string) {
    && |members| == 2
    && var present := {members[0].name, members[1].name};
       && name !in present
       && (|| name == "etcd-0"
           || (name == "etcd-1" && "etcd-0" in present)
           || (name == "etcd-2" && "etcd-0" in present && "etcd-1" in present))
  }

  lemma MissingMeaning(members: seq<Member>)
    ensures |members| != 2 ==> Missing(members).None?
    ensures |members| == 2 ==> Missing(members).Some?
    ensures forall name :: Missing(members) == Some(name) <==> IsMissing(members, name)
  {
    if |members| == 2 {
      OneIsAbsent(members[0].name, members[1].name);
    }
  }

  ghost predicate DistinctNames(members: seq<Member>) {
    forall i, j :: 0 <= i < j < |members| ==> members[i].name != members[j].name
  }

  lemma {:induction false} HealthSize(members: seq<Member>)
    requires Health(members).Some? && DistinctNames(members)
    ensures |Health(members).value| == |members|
  {
    if members == [] {
    } else {
      var n := |members| - 1;
      HealthSize(members[..n]);
      HealthKeys(members[..n]);
      assert members[n].name !in Health(members[..n]).value;
    }
  }

  lemma UnhealthyMembers(members: seq<Member>)
    requires Health(members).Some? && DistinctNames(members)
    ensures forall name :: name in Unhealthy(Health(members).value) <==>
              exists i :: 0 <= i < |members| && members[i].name == name && !members[i].endpointHealthy
  {
    HealthKeys(members);
    forall i | 0 <= i < |members|
      ensures members[i].name in Health(members).value
      ensures Health(members).value[members[i].name] == members[i].endpointHealthy
    {
      HealthIsLastVerdict(members, i);
    }
  }

  lemma AtMostOne(names: set<string>)
    ensures |names| <= 1 <==> forall a, b :: a in names && b in names ==> a == b
  {
    if a, b :| a in names && b in names && a != b {
      SubsetSize({a, b}, names);
    } else if names != {} {
      var a :| a in names;
      assert names == {a};
    }
  }

  /** Among distinct members, recoverable are two healthy ones, and three of which no two are unhealthy. */
  lemma RecoverableExactlyWhen(members: seq<Member>)
    requires Health(members).Some? && DistinctNames(members)
    ensures RecoverableHealth(Health(members).value) <==>
            || (|members| == 2 && members[0].endpointHealthy && members[1].endpointHealthy)
            || (|members| == 3
                && forall i, j :: 0 <= i < j < 3 ==> members[i].endpointHealthy || members[j].endpointHealthy)
  {
    var unhealthy := Unhealthy(Health(members).value);
    HealthSize(members);
    UnhealthyMembers(members);
    AtMostOne(unhealthy);
    if |members| == 3 {
      forall i, j | 0 <= i < j < 3 && !members[i].endpointHealthy && !members[j].endpointHealthy
        ensures members[i].name in unhealthy && members[j].name in unhealthy && members[i].name != members[j].name
      {
      }
    } else if |members| == 2 {
      assert unhealthy == {} <==> members[0].endpointHealthy && members[1].endpointHealthy by {
        assert !members[0].endpointHealthy ==> members[0].name in unhealthy;
        assert !members[1].endpointHealthy ==> members[1].name in unhealthy;
      }
    }
  }

  /** The check comes to its end: it gets all its answers, and health and stateful set allow a recovery. */
  ghost predicate IsExamined(seen: Observation) {
    && seen.members.Some? && |seen.members.value| >= 2
    && (forall i :: 0 <= i < |seen.members.value| ==> |seen.members.value[i].clientUrls| == 1)
    && Health(seen.members.value).Some? && RecoverableHealth(Health(seen.members.value).value)
    && seen.statefulSet.Some? && seen.statefulSet.value.currentRevision == seen.statefulSet.value.updateRevision
    && seen.pods.Some?
  }

  /** This member is the broken one: the only failing pod, or else the missing member, and not two different ones. */
  ghost predicate IsBroken(seen: Observation, name: string)
    requires seen.members.Some? && seen.pods.Some?
  {
    var members, pods := seen.members.value, seen.pods.value;
    || (NoneFails(pods, |pods|) && IsMissing(members, name))
    || ((exists i, j :: OnlyFails(pods, |pods|, i, j) && pods[i].name == name)
        && (|members| == 2 ==> IsMissing(members, name)))
  }

  lemma ExaminedStatus(seen: Observation)
    ensures IsExamined(seen) <==> Status(seen).Some? && RecoverableHealth(Health(seen.members.value).value)
    ensures IsExamined(seen) ==>
            var failing := FailingPods(seen.pods.value, |seen.pods.value|);
            && Status(seen).value.missingMember == Missing(seen.members.value)
            && (Status(seen).value.recoverable <==> |failing| <= 1)
            && (Status(seen).value.failingPod == if |failing| == 1 then Some(failing[0]) else None)
  {
    if seen.members.Some? {
      HealthExists(seen.members.value);
    }
  }

  lemma {:induction false} HealthExists(members: seq<Member>)
    ensures Health(members).Some? <==> forall i :: 0 <= i < |members| ==> |members[i].clientUrls| == 1
  {
    if members == [] {
    } else {
      HealthExists(members[..|members| - 1]);
      assert members == members[..|members| - 1] + [members[|members| - 1]];
    }
  }

  lemma ActsOnTheBroken(seen: Observation, name: string)
    requires IsExamined(seen) && IsBroken(seen, name)
    ensures Acts(seen) && MemberToRecover(Status(seen).value) == name
    ensures |seen.members.value| == 2 ==> Status(seen).value.missingMember == Some(name)
  {
    var pods := seen.pods.value;
    ExaminedStatus(seen);
    MissingMeaning(seen.members.value);
    NoPodListed(pods, |pods|);
    if i, j :| OnlyFails(pods, |pods|, i, j) && pods[i].name == name {
      OnlyPodListed(pods, |pods|, i, j);
    }
  }

  lemma ActsOnOne(seen: Observation) returns (name: string)
    requires Acts(seen)
    ensures IsExamined(seen) && IsBroken(seen, name)
  {
    ExaminedStatus(seen);
    MissingMeaning(seen.members.value);
    var pods := seen.pods.value;
    name := MemberToRecover(Status(seen).value);
    NoPodListed(pods, |pods|);
    if |FailingPods(pods, |pods|)| == 1 {
      var i, j := OnePodListed(pods, |pods|);
    }
  }

  /** The requests a recovery depends on: an etcd client, the addition of a missing member, a Kubernetes client. */
  predicate Succeeds(replies: Replies, adds: bool) {
    replies.etcdClient && replies.kubeClient && (adds ==> replies.memberAdd)
  }

  /**
    Recovery adds the broken member exactly if it is missing, and then deletes its volume and its
    pod and no other, provided the requests before succeed. Without a broken member it does nothing.
   */
  lemma ActionsExactly(seen: Observation, replies: Replies)
    ensures forall name :: IsExamined(seen) && IsBroken(seen, name) ==>
              var adds := |seen.members.value| == 2;
              Actions(seen, replies)
              == (if adds && replies.etcdClient then [AddMember(name)] else [])
                 + (if Succeeds(replies, adds) then [DeleteVolume("data-" + name), DeletePod(name)] else [])
    ensures !(IsExamined(seen) && exists name :: IsBroken(seen, name)) ==> Actions(seen, replies) == []
  {
    if IsExamined(seen) {
      MissingMeaning(seen.members.value);
      ExaminedStatus(seen);
    }
    forall name | IsExamined(seen) && IsBroken(seen, name)
      ensures var adds := |seen.members.value| == 2;
              Actions(seen, replies)
              == (if adds && replies.etcdClient then [AddMember(name)] else [])
                 + (if Succeeds(replies, adds) then [DeleteVolume("data-" + name), DeletePod(name)] else [])
    {
      ActsOnTheBroken(seen, name);
    }
    if Acts(seen) {
      var name := ActsOnOne(seen);
    }
  }

  /** So a pod that is deleted is that of the broken member. */
  lemma DeletedIsBroken(seen: Observation, replies: Replies, name: string)
    requires DeletePod(name) in Actions(seen, replies)
    ensures IsExamined(seen) && IsBroken(seen, name)
  {
    ActionsExactly(seen, replies);
    var broken := ActsOnOne(seen);
  }

  // ---- what recovery keeps ----

  /** The healthy members that are left once this member has lost its pod and volume. */
  ghost function HealthyWithout(health: map<string, bool>, name: string): set<string> {
    set n | n in health && health[n] && n != name
  }

  lemma HealthySize(health: map<string, bool>, name: string)
    ensures |HealthyWithout(health, name)| + |Unhealthy(health)| + (if name in health && health[name] then 1 else 0)
            == |health|
  {
    var healthy := set n | n in health && health[n];
    assert health.Keys == healthy + Unhealthy(health);
    if name in healthy {
      assert HealthyWithout(health, name) == healthy - {name};
    } else {
      assert HealthyWithout(health, name) == healthy;
    }
  }

  /**
    Whenever recovery deletes a pod, two members stay healthy exactly when the deleted one is no
    listed member, or is itself unhealthy, or all of three members are healthy.
   */
  lemma TwoStayHealthyExactlyWhen(seen: Observation, replies: Replies, deleted: string)
    requires DeletePod(deleted) in Actions(seen, replies)
    ensures seen.members.Some? && Health(seen.members.value).Some?
    ensures var health := Health(seen.members.value).value;
            |HealthyWithout(health, deleted)| >= 2 <==>
            || deleted !in health
            || !health[deleted]
            || (|health| == 3 && Unhealthy(health) == {})
  {
    DeletedIsBroken(seen, replies, deleted);
    HealthySize(Health(seen.members.value).value, deleted);
  }

  lemma TwoHealthy(members: seq<Member>, missing: string)
    requires |members| == 2 && members[0].name != members[1].name && missing !in {members[0].name, members[1].name}
    requires Health(members).Some? && RecoverableHealth(Health(members).value)
    ensures HealthyWithout(Health(members).value, missing) == {members[0].name, members[1].name}
  {
    var health := Health(members).value;
    HealthKeys(members);
    assert health.Keys == {members[0].name, members[1].name};
    assert |health| == |health.Keys|;
  }

  /** With one member missing, that member is added and deleted, and both others are healthy. */
  lemma MissingMemberIsDeleted(seen: Observation, replies: Replies, deleted: string)
    requires DeletePod(deleted) in Actions(seen, replies)
    requires |seen.members.value| == 2 && seen.members.value[0].name != seen.members.value[1].name
    ensures var members := seen.members.value;
            && IsMissing(members, deleted)
            && Actions(seen, replies) == [AddMember(deleted), DeleteVolume("data-" + deleted), DeletePod(deleted)]
            && HealthyWithout(Health(members).value, deleted) == {members[0].name, members[1].name}
  {
    DeletedIsBroken(seen, replies, deleted);
    ActionsExactly(seen, replies);
    TwoHealthy(seen.members.value, deleted);
  }

  /** Otherwise the only failing pod is deleted, which is harmless if it is the unhealthy member. */
  lemma FailingPodIsDeleted(seen: Observation, replies: Replies, deleted: string) returns (i: int, j: int)
    requires DeletePod(deleted) in Actions(seen, replies) && |seen.members.value| != 2
    ensures seen.pods.Some? && OnlyFails(seen.pods.value, |seen.pods.value|, i, j)
    ensures seen.pods.value[i].name == deleted
    ensures Actions(seen, replies) == [DeleteVolume("data-" + deleted), DeletePod(deleted)]
  {
    DeletedIsBroken(seen, replies, deleted);
    ActionsExactly(seen, replies);
    var pods := seen.pods.value;
    i, j :| OnlyFails(pods, |pods|, i, j) && pods[i].name == deleted;
  }

  const THREE_UP_TO_ONE := [
    Member("etcd-0", ["u"], true), Member("etcd-1", ["u"], true), Member("etcd-2", ["u"], false)]

  const OTHER_POD_FAILS := Observation(
    Some(THREE_UP_TO_ONE), Some(StatefulSet("r", "r")), Some([Pod("etcd-0", [Container("etcd", true, 1)])]))

  lemma ThreeUpToOne()
    ensures Health(THREE_UP_TO_ONE) == Some(map["etcd-0" := true, "etcd-1" := true, "etcd-2" := false])
    ensures RecoverableHealth(Health(THREE_UP_TO_ONE).value)
    ensures HealthyWithout(Health(THREE_UP_TO_ONE).value, "etcd-0") == {"etcd-1"}
  {
    var members := THREE_UP_TO_ONE;
    var first, second := members[0], members[1];
    assert "etcd-0"[5] == '0' && "etcd-1"[5] == '1' && "etcd-2"[5] == '2';
    assert members[..2] == [first, second] && [first, second][..1] == [first] && [first][..0] == [];
    assert Health([first]) == Some(map["etcd-0" := true]);
    assert Health([first, second]) == Some(map["etcd-0" := true, "etcd-1" := true]);
    var health := map["etcd-0" := true, "etcd-1" := true, "etcd-2" := false];
    assert Health(members) == Some(health);
    assert health.Keys == {"etcd-0", "etcd-1", "etcd-2"};
    assert |health| == |health.Keys| == 3;
    assert Unhealthy(health) == {"etcd-2"};
  }

  /** A failing pod need not be the unhealthy member; then only one healthy member is left. */
  lemma OneMayBeLeft(replies: Replies)
    requires Succeeds(replies, false)
    ensures Actions(OTHER_POD_FAILS, replies) == [DeleteVolume("data-etcd-0"), DeletePod("etcd-0")]
    ensures HealthyWithout(Health(THREE_UP_TO_ONE).value, "etcd-0") == {"etcd-1"}
  {
    ThreeUpToOne();
    var pods := OTHER_POD_FAILS.pods.value;
    assert OnlyFails(pods, 1, 0, 0);
    assert IsBroken(OTHER_POD_FAILS, "etcd-0");
    ActionsExactly(OTHER_POD_FAILS, replies);
    assert "data-" + "etcd-0" == "data-etcd-0";
  }

  // ---- when recovery reports success ----

  /** A status check that ends polling: no error, and neither a missing member nor a failing pod to report. */
  ghost predicate Passes(seen: Observation) {
    Status(seen).Some? && Status(seen).value.missingMember.None? && Status(seen).value.failingPod.None?
  }

  /** The first check that passes is the one at i, and none before it ends in an error. */
  ghost predicate FirstPasses(polls: seq<Observation>, i: int) {
    0 <= i < |polls| && Passes(polls[i]) && forall j :: 0 <= j < i ==> Status(polls[j]).Some? && !Passes(polls[j])
  }

  lemma PollStep(polls: seq<Observation>)
    requires polls != []
    ensures PollSucceeds(polls) <==> Passes(polls[0]) || (Status(polls[0]).Some? && PollSucceeds(polls[1..]))
  {
  }

  lemma {:induction false} PollEnds(polls: seq<Observation>) returns (i: int)
    requires PollSucceeds(polls)
    ensures FirstPasses(polls, i)
  {
    PollStep(polls);
    if Passes(polls[0]) {
      i := 0;
    } else {
      var rest := polls[1..];
      var k := PollEnds(rest);
      i := k + 1;
      forall j | 0 <= j < i
        ensures Status(polls[j]).Some? && !Passes(polls[j])
      {
        assert j > 0 ==> polls[j] == rest[j - 1];
      }
    }
  }

  lemma {:induction false} PollEndsWell(polls: seq<Observation>, i: int)
    requires FirstPasses(polls, i)
    ensures PollSucceeds(polls)
    decreases i
  {
    PollStep(polls);
    if i > 0 {
      assert FirstPasses(polls[1..], i - 1);
      PollEndsWell(polls[1..], i - 1);
    }
  }

  /** Polling succeeds exactly if some check passes, and every check before it finds something without error. */
  lemma PollSucceedsExactlyWhen(polls: seq<Observation>)
    ensures PollSucceeds(polls) <==> exists i :: FirstPasses(polls, i)
  {
    if PollSucceeds(polls) {
      var i := PollEnds(polls);
    } else if i :| FirstPasses(polls, i) {
      PollEndsWell(polls, i);
    }
  }

  /**
    The command reports success exactly if there was nothing to recover, or its requests succeed and
    polling does.
   */
  lemma SucceedsExactlyWhen(seen: Observation, replies: Replies, polls: seq<Observation>)
    ensures Recovers(seen, replies, polls) <==>
            && IsExamined(seen)
            && var members, pods := seen.members.value, seen.pods.value;
               || (NoneFails(pods, |pods|) && |members| != 2)
               || ((exists name :: IsBroken(seen, name)) && Succeeds(replies, |members| == 2) && PollSucceeds(polls))
  {
    ExaminedStatus(seen);
    if IsExamined(seen) {
      var members, pods := seen.members.value, seen.pods.value;
      MissingMeaning(members);
      NoPodListed(pods, |pods|);
      if name :| IsBroken(seen, name) {
        ActsOnTheBroken(seen, name);
      } else if Acts(seen) {
        var broken := ActsOnOne(seen);
      }
    }
  }

  /** Success means that the last status looked at passes, and that all before it did not. */
  lemma SuccessEndsNotUnhealthy(seen: Observation, replies: Replies, polls: seq<Observation>)
    returns (looked: seq<Observation>)
    requires Recovers(seen, replies, polls)
    ensures looked != [] && looked <= [seen] + polls && Passes(looked[|looked| - 1])
    ensures forall i :: 0 <= i < |looked| - 1 ==> Status(looked[i]).Some? && !Passes(looked[i])
  {
    if IsUnhealthy(Status(seen).value) {
      var i := PollEnds(polls);
      looked := [seen] + polls[..i + 1];
    } else {
      looked := [seen];
    }
  }

  /**
    A check that passes shows a healthy cluster exactly when the status is also recoverable, which
    polling does not ask: then at most one of three members is unhealthy and no pod fails.
   */
  lemma NotUnhealthyMeaning(seen: Observation)
    requires Passes(seen)
    ensures |seen.members.value| >= 3 && Health(seen.members.value).Some?
    ensures Status(seen).value.recoverable <==>
            && RecoverableHealth(Health(seen.members.value).value)
            && seen.pods.Some?
            && NoneFails(seen.pods.value, |seen.pods.value|)
  {
    MissingMeaning(seen.members.value);
    if seen.pods.Some? {
      NoPodListed(seen.pods.value, |seen.pods.value|);
    }
  }

  const TWO_DOWN := [Member("etcd-0", ["u"], true), Member("etcd-1", ["u"], false), Member("etcd-2", ["u"], false)]

  /** Polling accepts a cluster of which two endpoints of three are down. */
  lemma PollAcceptsBrokenCluster()
    ensures PollSucceeds([Observation(Some(TWO_DOWN), None, None)])
    ensures |HealthyWithout(Health(TWO_DOWN).value, "")| == 1
  {
    var members := TWO_DOWN;
    var first, second := members[0], members[1];
    assert "etcd-0"[5] == '0' && "etcd-1"[5] == '1' && "etcd-2"[5] == '2';
    assert members[..2] == [first, second] && [first, second][..1] == [first] && [first][..0] == [];
    assert Health([first]) == Some(map["etcd-0" := true]);
    assert Health([first, second]) == Some(map["etcd-0" := true, "etcd-1" := false]);
    var health := map["etcd-0" := true, "etcd-1" := false, "etcd-2" := false];
    assert Health(members) == Some(health);
    assert health.Keys == {"etcd-0", "etcd-1", "etcd-2"};
    assert |health| == |health.Keys| == 3;
    assert Unhealthy(health) == {"etcd-1", "etcd-2"};
    assert HealthyWithout(health, "") == {"etcd-0"};
  }
}
