/** The etcd defragmentation controller: one pass over the members, learners excluded, leader last. */
module Defrag {
  import opened Common

  const MIN_DEFRAG_BYTES := 100 * 1024 * 1024
  const MAX_FRAGMENTED_PERCENTAGE := 45.0

  datatype Member = Member(id: nat, name: string, isLearner: bool, clientUrls: seq<string>)

  datatype Status = Status(memberId: nat, leader: nat, dbSize: int, dbSizeInUse: int)

  /** What etcd answers to Defragment and to the health polls that follow a success. */
  datatype Reply = Reply(defragmented: bool, stabilised: bool)

  /**
    The answers of etcd during one pass. `status(i)` answers the status call for the i-th voting
    member, `reply(i)` the i-th turn of the defragmentation loop.
   */
  datatype Environment = Environment(
    members: Option<seq<Member>>, healthy: Option<bool>, status: nat -> Option<Status>, reply: nat -> Reply)

  datatype Error = NoMember(id: nat) | DefragmentFailed(id: nat) | NotStabilised(id: nat)

  /** How a pass ends. A member without client URL makes the first logging loop panic. */
  datatype Outcome = Panicked | Failed | Succeeded

  datatype Pass = Pass(outcome: Outcome, counted: bool, calls: seq<Member>)

  // ---- the threshold ----

  /** Rounding half away from zero. */
  function Round(x: real): int {
    if x >= 0.0 then (x + 0.5).Floor else -(0.5 - x).Floor
  }

  function FragmentationPercentage(onDisk: int, inUse: int): real
    requires onDisk != 0
  {
    Round((onDisk - inUse) as real / onDisk as real * 100.0 * 100.0) as real / 100.0
  }

  /** An empty database divides by zero; the quotient then fails one of the two comparisons. */
  predicate IsFragmented(status: Status) {
    && status.dbSize != 0
    && FragmentationPercentage(status.dbSize, status.dbSizeInUse) >= MAX_FRAGMENTED_PERCENTAGE
    && status.dbSize >= MIN_DEFRAG_BYTES
  }

  lemma RoundAtLeast(x: real, n: int)
    requires n > 0
    ensures Round(x) >= n <==> x >= n as real - 0.5
  {
    assert (x + 0.5).Floor as real <= x + 0.5 < (x + 0.5).Floor as real + 1.0;
    if x + 0.5 >= n as real {
      assert (x + 0.5).Floor as real > (n - 1) as real;
    }
    if x < 0.0 {
      assert (0.5 - x).Floor as real <= 0.5 - x < (0.5 - x).Floor as real + 1.0;
      assert (0.5 - x).Floor >= 0;
    }
  }

  lemma ScaledAtLeast(diff: real, disk: real, bound: real)
    requires disk > 0.0
    ensures diff / disk * 100.0 * 100.0 >= bound <==> 10000.0 * diff >= bound * disk
  {
    var quotient := diff / disk;
    assert quotient * disk == diff;
    var slack := quotient * 100.0 * 100.0 - bound;
    assert slack * disk == 10000.0 * diff - bound * disk;
    assert slack >= 0.0 <==> slack * disk >= 0.0;
  }

  /** The rounded 45% test in integers. */
  lemma FragmentedExactly(status: Status)
    ensures IsFragmented(status) <==>
            status.dbSize >= 104857600 && 20000 * (status.dbSize - status.dbSizeInUse) >= 8999 * status.dbSize
  {
    if status.dbSize >= MIN_DEFRAG_BYTES {
      var disk := status.dbSize as real;
      var diff := (status.dbSize - status.dbSizeInUse) as real;
      RoundAtLeast(diff / disk * 100.0 * 100.0, 4500);
      ScaledAtLeast(diff, disk, 4499.5);
    }
  }

  // ---- one pass ----

  function Voters(members: seq<Member>): (voters: seq<Member>)
    ensures forall i :: 0 <= i < |voters| ==> voters[i] in members && !voters[i].isLearner
  {
    if members == [] then []
    else
      var last := members[|members| - 1];
      Voters(members[..|members| - 1]) + (if last.isLearner then [] else [last])
  }

  /** Exactly the learners are left out, each other member kept as often as listed. */
  lemma {:induction false} VotersMeaning(members: seq<Member>, member: Member)
    ensures multiset(Voters(members))[member] == if member.isLearner then 0 else multiset(members)[member]
  {
    if members == [] {
    } else {
      var n := |members| - 1;
      VotersMeaning(members[..n], member);
      assert members == members[..n] + [members[n]];
    }
  }

  datatype Collected = Collected(rest: seq<Status>, leader: Option<Status>)

  /** The statuses of the first n voters, the first self-declared leader set apart. */
  function Collect(voters: seq<Member>, status: nat -> Option<Status>, n: nat): Option<Collected>
    requires n <= |voters|
  {
    if n == 0 then Some(Collected([], None))
    else
      var before := Collect(voters, status, n - 1);
      if before.None? || voters[n - 1].clientUrls == [] then before
      else
        match status(n - 1)
        case None => None
        case Some(s) =>
          if before.value.leader.None? && s.leader == voters[n - 1].id
          then Some(before.value.(leader := Some(s)))
          else Some(before.value.(rest := before.value.rest + [s]))
  }

  function EndpointStatus(collected: Collected): seq<Status> {
    collected.rest + if collected.leader.Some? then [collected.leader.value] else []
  }

  function MemberFromStatus(voters: seq<Member>, status: Status): Option<Member> {
    if voters == [] then None
    else if voters[0].id == status.memberId then Some(voters[0])
    else MemberFromStatus(voters[1..], status)
  }

  datatype Progress = Progress(successes: nat, errors: seq<Error>, calls: seq<Member>)

  function Turn(voters: seq<Member>, status: Status, reply: Reply, before: Progress): Progress {
    match MemberFromStatus(voters, status)
    case None => before.(errors := before.errors + [NoMember(status.memberId)])
    case Some(member) =>
      if !IsFragmented(status) then before.(successes := before.successes + 1)
      else
        var called := before.(calls := before.calls + [member]);
        if !reply.defragmented then called.(errors := called.errors + [DefragmentFailed(member.id)])
        else if reply.stabilised then called.(successes := called.successes + 1)
        else called.(successes := called.successes + 1, errors := called.errors + [NotStabilised(member.id)])
  }

  function Turns(voters: seq<Member>, statuses: seq<Status>, reply: nat -> Reply, n: nat): Progress
    requires n <= |statuses|
  {
    if n == 0 then Progress(0, [], [])
    else Turn(voters, statuses[n - 1], reply(n - 1), Turns(voters, statuses, reply, n - 1))
  }

  predicate AllReachable(members: seq<Member>) {
    forall i :: 0 <= i < |members| ==> members[i].clientUrls != []
  }

  function Run(env: Environment): Pass {
    if env.members.None? then Pass(Failed, false, [])
    else if !AllReachable(env.members.value) then Pass(Panicked, false, [])
    else if env.healthy != Some(true) then Pass(Failed, false, [])
    else
      var voters := Voters(env.members.value);
      match Collect(voters, env.status, |voters|)
      case None => Pass(Failed, false, [])
      case Some(collected) =>
        var statuses := EndpointStatus(collected);
        var progress := Turns(voters, statuses, env.reply, |statuses|);
        if progress.successes == |statuses| then Pass(Succeeded, false, progress.calls)
        else Pass(if progress.errors == [] then Succeeded else Failed, true, progress.calls)
  }

  method FilterLearners(members: seq<Member>) returns (voters: seq<Member>)
    ensures voters == Voters(members)
    ensures forall member :: multiset(voters)[member] == if member.isLearner then 0 else multiset(members)[member]
  {
    voters := [];
    for i := 0 to |members|
      invariant voters == Voters(members[..i])
    {
      assert members[..i + 1][..i] == members[..i];
      if !members[i].isLearner {
        voters := voters + [members[i]];
      }
    }
    assert members[..|members|] == members;
    forall member
      ensures multiset(voters)[member] == if member.isLearner then 0 else multiset(members)[member]
    {
      VotersMeaning(members, member);
    }
  }

  method CollectStatuses(voters: seq<Member>, status: nat -> Option<Status>) returns (statuses: Option<seq<Status>>)
    ensures var collected := Collect(voters, status, |voters|);
            statuses == if collected.None? then None else Some(EndpointStatus(collected.value))
  {
    var rest: seq<Status> := [];
    var leader: Option<Status> := None;
    for i := 0 to |voters|
      invariant Collect(voters, status, i) == Some(Collected(rest, leader))
    {
      if voters[i].clientUrls == [] {
        continue;
      }
      var reply := status(i);
      if reply.None? {
        CollectFails(voters, status, i + 1, |voters|);
        return None;
      }
      if leader.None? && reply.value.leader == voters[i].id {
        leader := reply;
        continue;
      }
      rest := rest + [reply.value];
    }
    return Some(rest + if leader.Some? then [leader.value] else []);
  }

  lemma {:induction false} CollectFails(voters: seq<Member>, status: nat -> Option<Status>, n: nat, m: nat)
    requires n <= m <= |voters| && Collect(voters, status, n) == None
    ensures Collect(voters, status, m) == None
  {
    if n == m {
    } else {
      CollectFails(voters, status, n, m - 1);
    }
  }

  method GetMemberFromStatus(voters: seq<Member>, status: Status) returns (member: Option<Member>)
    ensures member == MemberFromStatus(voters, status)
  {
    for i := 0 to |voters|
      invariant MemberFromStatus(voters, status) == MemberFromStatus(voters[i..], status)
    {
      if voters[i].id == status.memberId {
        return Some(voters[i]);
      }
    }
    return None;
  }

  method TakeTurns(voters: seq<Member>, statuses: seq<Status>, reply: nat -> Reply)
    returns (successes: nat, errors: seq<Error>, calls: seq<Member>)
    ensures Progress(successes, errors, calls) == Turns(voters, statuses, reply, |statuses|)
  {
    successes, errors, calls := 0, [], [];
    for i := 0 to |statuses|
      invariant Progress(successes, errors, calls) == Turns(voters, statuses, reply, i)
    {
      var member := GetMemberFromStatus(voters, statuses[i]);
      if member.None? {
        errors := errors + [NoMember(statuses[i].memberId)];
        continue;
      }
      if IsFragmented(statuses[i]) {
        calls := calls + [member.value];
        if !reply(i).defragmented {
          errors := errors + [DefragmentFailed(member.value.id)];
          continue;
        }
        successes := successes + 1;
        if !reply(i).stabilised {
          errors := errors + [NotStabilised(member.value.id)];
        }
      } else {
        successes := successes + 1;
      }
    }
  }

  class DefragController {
    var numDefragFailures: nat

    constructor ()
      ensures numDefragFailures == 0
    {
      numDefragFailures := 0;
    }

    method RunDefrag(env: Environment) returns (outcome: Outcome, calls: seq<Member>)
      modifies this
      ensures outcome == Run(env).outcome && calls == Run(env).calls
      ensures numDefragFailures == old(numDefragFailures) + if Run(env).counted then 1 else 0
    {
      if env.members.None? {
        return Failed, [];
      }
      var members := env.members.value;
      for i := 0 to |members|
        invariant AllReachable(members[..i])
      {
        if members[i].clientUrls == [] {
          return Panicked, [];
        }
      }
      assert members[..|members|] == members;
      if env.healthy != Some(true) {
        return Failed, [];
      }
      var voters := FilterLearners(members);
      var collected := CollectStatuses(voters, env.status);
      if collected.None? {
        return Failed, [];
      }
      var statuses := collected.value;
      var successes, errors;
      successes, errors, calls := TakeTurns(voters, statuses, env.reply);
      if successes != |statuses| {
        numDefragFailures := numDefragFailures + 1;
        return if errors == [] then Succeeded else Failed, calls;
      }
      return Succeeded, calls;
    }
  }

  // ---- whose turn it is ----

  predicate IsLeader(voters: seq<Member>, status: nat -> Option<Status>, i: nat)
    requires i < |voters|
  {
    status(i).Some? && status(i).value.leader == voters[i].id
  }

  /** The first of the first n voters that declares itself leader, or n. */
  function FirstLeader(voters: seq<Member>, status: nat -> Option<Status>, n: nat): (leader: nat)
    requires n <= |voters|
    ensures leader <= n
    ensures leader < n ==> IsLeader(voters, status, leader)
    ensures forall i :: 0 <= i < leader ==> !IsLeader(voters, status, i)
  {
    if n == 0 then 0
    else
      var before := FirstLeader(voters, status, n - 1);
      if before < n - 1 || IsLeader(voters, status, n - 1) then before else n
  }

  /** The voter whose turn is the i-th: in listing order, but the leader after all others. */
  function VoterAt(count: nat, leader: nat, i: nat): (voter: nat)
    requires i < count && leader <= count
    ensures voter < count
  {
    if i < leader then i else if i < count - 1 then i + 1 else leader
  }

  function TurnOf(count: nat, leader: nat, voter: nat): (turn: nat)
    requires voter < count && leader <= count
    ensures turn < count && VoterAt(count, leader, turn) == voter
  {
    if voter < leader then voter else if voter == leader then count - 1 else voter - 1
  }

  function Scheduled(count: nat, leader: nat, turns: seq<nat>): (voters: seq<nat>)
    requires leader <= count && forall p :: 0 <= p < |turns| ==> turns[p] < count
    ensures |voters| == |turns| && forall p :: 0 <= p < |turns| ==> voters[p] == VoterAt(count, leader, turns[p])
  {
    seq(|turns|, p requires 0 <= p < |turns| => VoterAt(count, leader, turns[p]))
  }

  /** Voters met in increasing turns are distinct, and only the last of them can be the leader. */
  lemma ScheduledDistinct(count: nat, leader: nat, turns: seq<nat>)
    requires leader <= count && forall p :: 0 <= p < |turns| ==> turns[p] < count
    requires forall p, q :: 0 <= p < q < |turns| ==> turns[p] < turns[q]
    ensures var voters := Scheduled(count, leader, turns);
            forall p, q :: 0 <= p < q < |voters| ==> voters[p] != voters[q] && voters[p] != leader
  {
    var voters := Scheduled(count, leader, turns);
    forall p, q | 0 <= p < q < |voters|
      ensures voters[p] != voters[q] && voters[p] != leader
    {
      assert turns[p] < turns[q] < count;
    }
  }

  lemma {:induction false} CollectMeaning(voters: seq<Member>, status: nat -> Option<Status>, n: nat)
    requires n <= |voters| && AllReachable(voters)
    ensures Collect(voters, status, n).Some? <==> forall i :: 0 <= i < n ==> status(i).Some?
    ensures Collect(voters, status, n).Some? ==>
              var collected := Collect(voters, status, n).value;
              var leader := FirstLeader(voters, status, n);
              && collected.leader == (if leader < n then status(leader) else None)
              && |collected.rest| == (if leader < n then n - 1 else n)
              && forall i :: 0 <= i < |collected.rest| ==>
                  Some(collected.rest[i]) == status(if i < leader then i else i + 1)
  {
    if n == 0 {
    } else {
      CollectMeaning(voters, status, n - 1);
    }
  }

  lemma EndpointStatusMeaning(voters: seq<Member>, status: nat -> Option<Status>)
    requires AllReachable(voters) && Collect(voters, status, |voters|).Some?
    ensures var statuses := EndpointStatus(Collect(voters, status, |voters|).value);
            var leader := FirstLeader(voters, status, |voters|);
            && |statuses| == |voters|
            && forall i :: 0 <= i < |voters| ==> Some(statuses[i]) == status(VoterAt(|voters|, leader, i))
  {
    CollectMeaning(voters, status, |voters|);
  }

  // ---- what a pass does ----

  /** Past the gates: members listed, reachable and healthy, and every voter told its status. */
  predicate PassesGates(env: Environment) {
    && env.members.Some? && AllReachable(env.members.value) && env.healthy == Some(true)
    && var voters := Voters(env.members.value);
    forall i :: 0 <= i < |voters| ==> env.status(i).Some?
  }

  /** etcd gives every member its own ID and has a status response name the member that sent it. */
  predicate WellIdentified(voters: seq<Member>, status: nat -> Option<Status>) {
    && (forall i, j :: 0 <= i < j < |voters| ==> voters[i].id != voters[j].id)
    && (forall i :: 0 <= i < |voters| && status(i).Some? ==> status(i).value.memberId == voters[i].id)
  }

  /** The turns among the first n in which a fragmented member is met. */
  function DueTurns(statuses: seq<Status>, n: nat): (turns: seq<nat>)
    requires n <= |statuses|
    ensures forall p :: 0 <= p < |turns| ==> turns[p] < n
  {
    if n == 0 then []
    else DueTurns(statuses, n - 1) + if IsFragmented(statuses[n - 1]) then [n - 1] else []
  }

  lemma {:induction false} DueTurnsMeaning(statuses: seq<Status>, n: nat)
    requires n <= |statuses|
    ensures var turns := DueTurns(statuses, n);
            && (forall p, q :: 0 <= p < q < |turns| ==> turns[p] < turns[q])
            && (forall i :: 0 <= i < n ==> (IsFragmented(statuses[i]) <==> i in turns))
  {
    if n == 0 {
    } else {
      DueTurnsMeaning(statuses, n - 1);
    }
  }

  lemma {:induction false} StatusFindsItsMember(voters: seq<Member>, status: Status, i: nat)
    requires i < |voters| && status.memberId == voters[i].id
    requires forall j, k :: 0 <= j < k < |voters| ==> voters[j].id != voters[k].id
    ensures MemberFromStatus(voters, status) == Some(voters[i])
  {
    if i == 0 {
    } else {
      StatusFindsItsMember(voters[1..], status, i - 1);
    }
  }

  /** The statuses are those of the voters, in order of turn, and each finds its voter. */
  predicate InTurn(voters: seq<Member>, statuses: seq<Status>, leader: nat) {
    && |statuses| == |voters| && leader <= |voters|
    && forall i :: 0 <= i < |voters| ==>
         MemberFromStatus(voters, statuses[i]) == Some(voters[VoterAt(|voters|, leader, i)])
  }

  /** The voters met in these turns. */
  function VotersMet(voters: seq<Member>, leader: nat, turns: seq<nat>): (met: seq<Member>)
    requires leader <= |voters| && forall p :: 0 <= p < |turns| ==> turns[p] < |voters|
    ensures |met| == |turns| && forall p :: 0 <= p < |turns| ==> met[p] == voters[VoterAt(|voters|, leader, turns[p])]
  {
    seq(|turns|, p requires 0 <= p < |turns| => voters[VoterAt(|voters|, leader, turns[p])])
  }

  /** A turn calls Defragment on its voter if the voter is due, and on nobody otherwise. */
  lemma TurnCalls(voters: seq<Member>, statuses: seq<Status>, reply: nat -> Reply, leader: nat, n: nat)
    requires InTurn(voters, statuses, leader) && n < |statuses|
    ensures Turns(voters, statuses, reply, n + 1).calls
         == Turns(voters, statuses, reply, n).calls
            + if IsFragmented(statuses[n]) then [voters[VoterAt(|voters|, leader, n)]] else []
  {
    assert MemberFromStatus(voters, statuses[n]) == Some(voters[VoterAt(|voters|, leader, n)]);
  }

  lemma {:induction false} TurnsCalls(
      voters: seq<Member>, statuses: seq<Status>, reply: nat -> Reply, leader: nat, n: nat)
    requires InTurn(voters, statuses, leader) && n <= |statuses|
    ensures Turns(voters, statuses, reply, n).calls == VotersMet(voters, leader, DueTurns(statuses, n))
  {
    if n == 0 {
    } else {
      TurnsCalls(voters, statuses, reply, leader, n - 1);
      TurnCalls(voters, statuses, reply, leader, n - 1);
      var turns := DueTurns(statuses, n - 1);
      assert VotersMet(voters, leader, turns + [n - 1])
          == VotersMet(voters, leader, turns) + [voters[VoterAt(|voters|, leader, n - 1)]];
    }
  }

  /** No voter has the ID in this status. */
  predicate IsStray(voters: seq<Member>, status: Status) {
    forall i :: 0 <= i < |voters| ==> voters[i].id != status.memberId
  }

  lemma {:induction false} StrayFindsNobody(voters: seq<Member>, status: Status)
    ensures MemberFromStatus(voters, status).None? <==> IsStray(voters, status)
  {
    if voters == [] {
    } else {
      StrayFindsNobody(voters[1..], status);
      assert forall i :: 0 < i < |voters| ==> voters[i] == voters[1..][i - 1];
    }
  }

  predicate Fails(voters: seq<Member>, statuses: seq<Status>, reply: nat -> Reply, i: nat)
    requires i < |statuses|
  {
    IsStray(voters, statuses[i]) || (IsFragmented(statuses[i]) && !reply(i).defragmented)
  }

  lemma {:induction false} TurnsSuccesses(voters: seq<Member>, statuses: seq<Status>, reply: nat -> Reply, n: nat)
    requires n <= |statuses|
    ensures var progress := Turns(voters, statuses, reply, n);
            && progress.successes <= n
            && (progress.successes < n <==> exists i :: 0 <= i < n && Fails(voters, statuses, reply, i))
            && (progress.successes < n ==> progress.errors != [])
  {
    if n == 0 {
    } else {
      TurnsSuccesses(voters, statuses, reply, n - 1);
      StrayFindsNobody(voters, statuses[n - 1]);
      var before, after := Turns(voters, statuses, reply, n - 1), Turns(voters, statuses, reply, n);
      assert |before.errors| <= |after.errors|;
      assert after.successes == before.successes + if Fails(voters, statuses, reply, n - 1) then 0 else 1;
    }
  }

  function Leader(env: Environment): (leader: nat)
    requires env.members.Some?
    ensures leader <= |Voters(env.members.value)|
  {
    var voters := Voters(env.members.value);
    FirstLeader(voters, env.status, |voters|)
  }

  /** The member at this position of the voters is due for defragmentation. */
  predicate IsDue(env: Environment, voter: nat)
    requires PassesGates(env) && voter < |Voters(env.members.value)|
  {
    var status := env.status(voter).value;
    status.dbSize >= 104857600 && 20000 * (status.dbSize - status.dbSizeInUse) >= 8999 * status.dbSize
  }

  /** The Defragment call of the i-th turn is due and fails, or the turn finds nobody to call. */
  predicate TurnFails(env: Environment, i: nat)
    requires PassesGates(env) && i < |Voters(env.members.value)|
  {
    var voters := Voters(env.members.value);
    var voter := VoterAt(|voters|, Leader(env), i);
    IsStray(voters, env.status(voter).value) || (IsDue(env, voter) && !env.reply(i).defragmented)
  }

  lemma StatusesInTurn(voters: seq<Member>, status: nat -> Option<Status>, statuses: seq<Status>, leader: nat)
    requires |statuses| == |voters| && leader <= |voters| && WellIdentified(voters, status)
    requires forall i :: 0 <= i < |voters| ==> Some(statuses[i]) == status(VoterAt(|voters|, leader, i))
    ensures InTurn(voters, statuses, leader)
  {
    forall i | 0 <= i < |voters|
      ensures MemberFromStatus(voters, statuses[i]) == Some(voters[VoterAt(|voters|, leader, i)])
    {
      var voter := VoterAt(|voters|, leader, i);
      assert Some(statuses[i]) == status(voter);
      StatusFindsItsMember(voters, statuses[i], voter);
    }
  }

  /** Past the gates the loop goes through the voters' statuses, the leader's last. */
  lemma PassTakesTurns(env: Environment) returns (statuses: seq<Status>)
    requires PassesGates(env)
    ensures var voters := Voters(env.members.value);
            && |statuses| == |voters|
            && (forall i :: 0 <= i < |voters| ==> Some(statuses[i]) == env.status(VoterAt(|voters|, Leader(env), i)))
            && var progress := Turns(voters, statuses, env.reply, |voters|);
            && Run(env).calls == progress.calls
            && Run(env).counted == (progress.successes < |voters|)
            && Run(env).outcome == if progress.successes < |voters| && progress.errors != [] then Failed else Succeeded
  {
    var voters := Voters(env.members.value);
    assert AllReachable(voters);
    assert Collect(voters, env.status, |voters|).Some? by {
      CollectMeaning(voters, env.status, |voters|);
    }
    EndpointStatusMeaning(voters, env.status);
    statuses := EndpointStatus(Collect(voters, env.status, |voters|).value);
    TurnsSuccesses(voters, statuses, env.reply, |voters|);
  }

  lemma AllDue(statuses: seq<Status>)
    ensures forall i :: 0 <= i < |statuses| ==>
              var status := statuses[i];
              IsFragmented(status) <==>
              status.dbSize >= 104857600 && 20000 * (status.dbSize - status.dbSizeInUse) >= 8999 * status.dbSize
  {
    forall i | 0 <= i < |statuses|
      ensures var status := statuses[i];
              IsFragmented(status) <==>
              status.dbSize >= 104857600 && 20000 * (status.dbSize - status.dbSizeInUse) >= 8999 * status.dbSize
    {
      FragmentedExactly(statuses[i]);
    }
  }

  /** The calls of a pass are the voters met in the turns in which one is due. */
  lemma PassCalls(env: Environment) returns (turns: seq<nat>)
    requires PassesGates(env) && WellIdentified(Voters(env.members.value), env.status)
    ensures var voters := Voters(env.members.value);
            && (forall p :: 0 <= p < |turns| ==> turns[p] < |voters|)
            && (forall p, q :: 0 <= p < q < |turns| ==> turns[p] < turns[q])
            && (forall i :: 0 <= i < |voters| ==> (IsDue(env, VoterAt(|voters|, Leader(env), i)) <==> i in turns))
            && Run(env).calls == VotersMet(voters, Leader(env), turns)
  {
    var voters, leader := Voters(env.members.value), Leader(env);
    var statuses := PassTakesTurns(env);
    StatusesInTurn(voters, env.status, statuses, leader);
    TurnsCalls(voters, statuses, env.reply, leader, |voters|);
    turns := DueTurns(statuses, |voters|);
    DueTurnsMeaning(statuses, |voters|);
    AllDue(statuses);
  }

  /**
    A pass that gets past its gates calls Defragment exactly on the due voters, each once, the first
    self-declared leader after all others.
   */
  lemma CallsDueVotersOnceLeaderLast(env: Environment) returns (called: seq<nat>)
    requires PassesGates(env) && WellIdentified(Voters(env.members.value), env.status)
    ensures var voters := Voters(env.members.value);
            && |called| == |Run(env).calls|
            && (forall p :: 0 <= p < |called| ==>
                  called[p] < |voters| && IsDue(env, called[p]) && Run(env).calls[p] == voters[called[p]])
            && (forall voter :: 0 <= voter < |voters| && IsDue(env, voter) ==> voter in called)
    ensures forall p, q :: 0 <= p < q < |called| ==> called[p] != called[q] && called[p] != Leader(env)
  {
    var n, leader := |Voters(env.members.value)|, Leader(env);
    var turns := PassCalls(env);
    called := Scheduled(n, leader, turns);
    ScheduledDistinct(n, leader, turns);
    forall p | 0 <= p < |called|
      ensures IsDue(env, called[p])
    {
      assert turns[p] in turns;
    }
    forall voter | 0 <= voter < n && IsDue(env, voter)
      ensures voter in called
    {
      var i := TurnOf(n, leader, voter);
      var p :| 0 <= p < |turns| && turns[p] == i;
      assert called[p] == voter;
    }
  }

  /** Past its gates, a pass returns an error and counts a failure exactly when one of its turns fails. */
  lemma ErrorExactlyWhenTurnFails(env: Environment)
    requires PassesGates(env)
    ensures Run(env).counted <==> exists i :: 0 <= i < |Voters(env.members.value)| && TurnFails(env, i)
    ensures Run(env).outcome == if Run(env).counted then Failed else Succeeded
  {
    var voters := Voters(env.members.value);
    var statuses := PassTakesTurns(env);
    TurnsSuccesses(voters, statuses, env.reply, |voters|);
    AllDue(statuses);
    assert forall i :: 0 <= i < |voters| ==> (Fails(voters, statuses, env.reply, i) <==> TurnFails(env, i));
  }

  /** A pass stopped at a gate calls nothing and counts nothing; it panics exactly if a member has no client URL. */
  lemma GatedPass(env: Environment)
    requires !PassesGates(env)
    ensures Run(env).calls == [] && !Run(env).counted
    ensures Run(env).outcome
         == if env.members.Some? && exists i :: 0 <= i < |env.members.value| && env.members.value[i].clientUrls == []
            then Panicked else Failed
  {
    if env.members.Some? && AllReachable(env.members.value) {
      var voters := Voters(env.members.value);
      assert AllReachable(voters);
      CollectMeaning(voters, env.status, |voters|);
    }
  }
}
