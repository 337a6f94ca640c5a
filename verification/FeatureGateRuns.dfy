/** Several kas-bootstrap replicas reconciling one feature-gate status under optimistic locking. */
module FeatureGateRuns {
  import opened Common
  import opened FeatureGates

  type Replica = nat

  /** Where a replica is in its retry loop. `Computed` carries what the attempt read. */
  datatype Phase =
    | Polling
    | Versioned(known: set<string>)
    | Computed(known: set<string>, revision: nat, existing: seq<Gates>)
    | Finished

  datatype State = State(
    revision: nat, gates: seq<Gates>, phases: seq<Phase>, succeeded: set<Replica>, conflicts: seq<nat>)

  datatype Step =
    | ReadVersions(replica: Replica, known: set<string>)
    | ReadGates(replica: Replica)
    | Reconcile(replica: Replica)
    | RequestFails(replica: Replica)
    | ReplyLost(replica: Replica)
    | Restart(replica: Replica)
    | OtherWrite

  ghost predicate ValidRendered(rendered: seq<seq<Gates>>) {
    && (forall r :: 0 <= r < |rendered| ==> SingleVersion(rendered[r]))
    && (forall r, q :: 0 <= r < q < |rendered| ==> rendered[r][0].version != rendered[q][0].version)
  }

  /** No rendered version is unknown to a replica that knows any version at all. */
  ghost predicate AllKnown(rendered: seq<seq<Gates>>, known: set<string>)
    requires ValidRendered(rendered)
  {
    known == {} || forall r :: 0 <= r < |rendered| ==> rendered[r][0].version in known
  }

  function At(s: State, replica: Replica, phase: Phase): State
    requires replica < |s.phases|
  {
    s.(phases := s.phases[replica := phase])
  }

  /** The status patch: applied only if nobody wrote since the replica read. */
  function Patched(s: State, rendered: seq<Gates>, replica: Replica): State
    requires replica < |s.phases| && s.phases[replica].Computed? && rendered != []
  {
    var attempt := s.phases[replica];
    s.(gates := Desired(attempt.existing, rendered, attempt.known), revision := s.revision + 1)
  }

  function Finish(s: State, replica: Replica): State
    requires replica < |s.phases|
  {
    At(s, replica, Finished).(succeeded := s.succeeded + {replica})
  }

  ghost predicate Next(rendered: seq<seq<Gates>>, s: State, step: Step, t: State)
    requires ValidRendered(rendered)
  {
    if step.OtherWrite? then t == s.(revision := s.revision + 1)
    else
      var r := step.replica;
      && r < |rendered| == |s.phases| == |s.conflicts|
      && var phase := s.phases[r];
      match step
      case ReadVersions(_, known) => phase.Polling? && t == At(s, r, Versioned(known))
      case ReadGates(_) => phase.Versioned? && t == At(s, r, Computed(phase.known, s.revision, s.gates))
      case Reconcile(_) =>
        && phase.Computed?
        && (if Desired(phase.existing, rendered[r], phase.known) == phase.existing then t == Finish(s, r)
            else if phase.revision == s.revision then t == Finish(Patched(s, rendered[r], r), r)
            else t == At(s, r, Polling).(conflicts := s.conflicts[r := s.conflicts[r] + 1]))
      case RequestFails(_) => !phase.Finished? && t == At(s, r, Polling)
      case ReplyLost(_) => phase.Computed? && phase.revision == s.revision
          && t == At(Patched(s, rendered[r], r), r, Polling)
      case Restart(_) => t == At(s, r, Polling)
      case OtherWrite => false
  }

  /** The status holds, under this replica's version, exactly what it rendered. */
  ghost predicate Present(gates: seq<Gates>, rendered: seq<Gates>)
    requires rendered != []
  {
    OfVersion(gates, rendered[0].version) == rendered
  }

  ghost predicate PhaseInvariant(rendered: seq<seq<Gates>>, s: State, r: Replica)
    requires ValidRendered(rendered) && r < |rendered| == |s.phases| == |s.conflicts|
  {
    var phase := s.phases[r];
    && (phase.Versioned? || phase.Computed? ==> AllKnown(rendered, phase.known))
    && (r in s.succeeded ==> Present(s.gates, rendered[r]))
    && (phase.Computed? ==>
          && (phase.revision == s.revision ==> phase.existing == s.gates)
          && phase.revision <= s.revision
          && (Present(phase.existing, rendered[r]) ==> Present(s.gates, rendered[r])))
  }

  ghost predicate Invariant(rendered: seq<seq<Gates>>, s: State) {
    && ValidRendered(rendered)
    && |rendered| == |s.phases| == |s.conflicts|
    && forall r :: 0 <= r < |rendered| ==> PhaseInvariant(rendered, s, r)
  }

  /** A write based on the current status establishes its writer's entries and keeps everyone else's. */
  lemma PatchKeepsOthers(rendered: seq<seq<Gates>>, gates: seq<Gates>, known: set<string>, r: Replica, q: Replica)
    requires ValidRendered(rendered) && r < |rendered| && q < |rendered| && AllKnown(rendered, known)
    ensures Present(Desired(gates, rendered[r], known), rendered[r])
    ensures Present(gates, rendered[q]) ==> Present(Desired(gates, rendered[r], known), rendered[q])
  {
    MergeByVersion(gates, rendered[r], known, rendered[r][0].version);
    MergeByVersion(gates, rendered[r], known, rendered[q][0].version);
  }

  lemma PatchKeeps(rendered: seq<seq<Gates>>, s: State, r: Replica)
    requires Invariant(rendered, s) && r < |rendered|
    requires s.phases[r].Computed? && s.phases[r].revision == s.revision
    ensures Invariant(rendered, At(Patched(s, rendered[r], r), r, Polling))
    ensures Present(Patched(s, rendered[r], r).gates, rendered[r])
  {
    var t := At(Patched(s, rendered[r], r), r, Polling);
    assert PhaseInvariant(rendered, s, r);
    var known := s.phases[r].known;
    forall q | 0 <= q < |rendered|
      ensures PhaseInvariant(rendered, t, q)
    {
      assert PhaseInvariant(rendered, s, q);
      PatchKeepsOthers(rendered, s.gates, known, r, q);
    }
    PatchKeepsOthers(rendered, s.gates, known, r, r);
  }

  lemma FinishKeeps(rendered: seq<seq<Gates>>, s: State, r: Replica)
    requires Invariant(rendered, s) && r < |rendered| && Present(s.gates, rendered[r])
    ensures Invariant(rendered, Finish(s, r))
  {
    var t := Finish(s, r);
    forall q | 0 <= q < |rendered|
      ensures PhaseInvariant(rendered, t, q)
    {
      assert PhaseInvariant(rendered, s, q);
    }
  }

  /** Finding nothing to write means that the replica's entries were already there. */
  lemma UnchangedIsPresent(existing: seq<Gates>, rendered: seq<Gates>, known: set<string>)
    requires SingleVersion(rendered) && Desired(existing, rendered, known) == existing
    ensures Present(existing, rendered)
  {
    MergeByVersion(existing, rendered, known, rendered[0].version);
  }

  lemma ReconcileKeeps(rendered: seq<seq<Gates>>, s: State, r: Replica, t: State)
    requires Invariant(rendered, s) && Next(rendered, s, Reconcile(r), t)
    ensures Invariant(rendered, t)
  {
    var phase := s.phases[r];
    assert PhaseInvariant(rendered, s, r);
    if Desired(phase.existing, rendered[r], phase.known) == phase.existing {
      UnchangedIsPresent(phase.existing, rendered[r], phase.known);
      FinishKeeps(rendered, s, r);
    } else if phase.revision == s.revision {
      PatchKeeps(rendered, s, r);
      var polling := At(Patched(s, rendered[r], r), r, Polling);
      FinishKeeps(rendered, polling, r);
      assert Finish(polling, r) == t;
    } else {
      forall q | 0 <= q < |rendered|
        ensures PhaseInvariant(rendered, t, q)
      {
        assert PhaseInvariant(rendered, s, q);
      }
    }
  }

  lemma StepKeeps(rendered: seq<seq<Gates>>, s: State, step: Step, t: State)
    requires Invariant(rendered, s) && Next(rendered, s, step, t)
    requires step.ReadVersions? ==> AllKnown(rendered, step.known)
    ensures Invariant(rendered, t)
  {
    match step
    case Reconcile(r) => ReconcileKeeps(rendered, s, r, t);
    case ReplyLost(r) => PatchKeeps(rendered, s, r);
    case _ =>
      forall q | 0 <= q < |rendered|
        ensures PhaseInvariant(rendered, t, q)
      {
        assert PhaseInvariant(rendered, s, q);
      }
  }

  // ---- runs ----

  ghost predicate Initial(rendered: seq<seq<Gates>>, s: State) {
    && |rendered| == |s.phases| == |s.conflicts|
    && s.succeeded == {}
    && s.revision == 0
    && forall r :: 0 <= r < |rendered| ==> s.phases[r] == Polling && s.conflicts[r] == 0
  }

  ghost predicate IsRun(rendered: seq<seq<Gates>>, states: seq<State>, steps: seq<Step>)
    requires ValidRendered(rendered)
  {
    && |states| == |steps| + 1
    && Initial(rendered, states[0])
    && forall i {:trigger steps[i]} :: 0 <= i < |steps| ==> Next(rendered, states[i], steps[i], states[i + 1])
  }

  /** Whenever a replica reads the cluster version, it learns all rendered versions or none at all. */
  ghost predicate VersionsKnown(rendered: seq<seq<Gates>>, steps: seq<Step>)
    requires ValidRendered(rendered)
  {
    forall i :: 0 <= i < |steps| && steps[i].ReadVersions? ==> AllKnown(rendered, steps[i].known)
  }

  lemma {:induction false} RunKeepsInvariant(rendered: seq<seq<Gates>>, states: seq<State>, steps: seq<Step>, i: nat)
    requires ValidRendered(rendered) && IsRun(rendered, states, steps) && VersionsKnown(rendered, steps) && i < |states|
    ensures Invariant(rendered, states[i])
  {
    if i == 0 {
    } else {
      RunKeepsInvariant(rendered, states, steps, i - 1);
      StepKeeps(rendered, states[i - 1], steps[i - 1], states[i]);
    }
  }

  lemma {:induction false} CountOfVersion(gates: seq<Gates>, entry: Gates)
    ensures multiset(OfVersion(gates, entry.version))[entry] == multiset(gates)[entry]
  {
    if gates == [] {
    } else {
      CountOfVersion(gates[1..], entry);
      assert gates == [gates[0]] + gates[1..];
    }
  }

  /**
    From the moment a replica has succeeded, the status holds exactly its rendered entries under its
    version, each as often as rendered, whatever the other replicas, lost replies, restarts and other
    writers do.
   */
  lemma SucceededEntriesStay(
      rendered: seq<seq<Gates>>, states: seq<State>, steps: seq<Step>, i: nat, r: Replica, entry: Gates)
    requires ValidRendered(rendered) && IsRun(rendered, states, steps) && VersionsKnown(rendered, steps) && i < |states|
    requires r in states[i].succeeded && r < |rendered| && entry.version == rendered[r][0].version
    ensures OfVersion(states[i].gates, rendered[r][0].version) == rendered[r]
    ensures multiset(states[i].gates)[entry] == multiset(rendered[r])[entry]
  {
    RunKeepsInvariant(rendered, states, steps, i);
    assert PhaseInvariant(rendered, states[i], r);
    CountOfVersion(states[i].gates, entry);
  }

  // ---- retries ----

  /** Steps of a run without lost replies, restarts and other writers. */
  predicate IsUndisturbed(step: Step) {
    !step.ReplyLost? && !step.Restart? && !step.OtherWrite?
  }

  ghost predicate FinishedOnce(rendered: seq<seq<Gates>>, s: State) {
    && |rendered| == |s.phases|
    && s.revision <= |s.succeeded|
    && (forall r :: r in s.succeeded <==> 0 <= r < |s.phases| && s.phases[r].Finished?)
  }

  lemma StepFinishesOnce(rendered: seq<seq<Gates>>, s: State, step: Step, t: State)
    requires ValidRendered(rendered) && FinishedOnce(rendered, s) && Next(rendered, s, step, t) && IsUndisturbed(step)
    ensures FinishedOnce(rendered, t)
  {
    var r := step.replica;
    assert r !in s.succeeded;
    assert t.phases == s.phases[r := t.phases[r]];
    assert t.succeeded == (if t.phases[r].Finished? then s.succeeded + {r} else s.succeeded);
    assert t.revision <= if t.phases[r].Finished? then s.revision + 1 else s.revision;
  }

  lemma {:induction false} RunFinishesOnce(rendered: seq<seq<Gates>>, states: seq<State>, steps: seq<Step>, i: nat)
    requires ValidRendered(rendered) && IsRun(rendered, states, steps) && i < |states|
    requires forall j :: 0 <= j < |steps| ==> IsUndisturbed(steps[j])
    ensures FinishedOnce(rendered, states[i])
  {
    if i == 0 {
      assert forall r: Replica :: r < |states[0].phases| ==> states[0].phases[r] == Polling;
    } else {
      RunFinishesOnce(rendered, states, steps, i - 1);
      StepFinishesOnce(rendered, states[i - 1], steps[i - 1], states[i]);
    }
  }

  /** A replica's conflicts are no more than the writes up to its last read. */
  ghost predicate ConflictsPaid(rendered: seq<seq<Gates>>, s: State) {
    && |rendered| == |s.phases| == |s.conflicts|
    && forall r :: 0 <= r < |rendered| ==>
         && (s.phases[r].Computed? ==> s.phases[r].revision <= s.revision)
         && s.conflicts[r] <= (if s.phases[r].Computed? then s.phases[r].revision else s.revision)
  }

  lemma {:induction false} RunPaysConflicts(rendered: seq<seq<Gates>>, states: seq<State>, steps: seq<Step>, i: nat)
    requires ValidRendered(rendered) && IsRun(rendered, states, steps) && i < |states|
    ensures ConflictsPaid(rendered, states[i])
  {
    if i == 0 {
    } else {
      RunPaysConflicts(rendered, states, steps, i - 1);
      assert Next(rendered, states[i - 1], steps[i - 1], states[i]);
    }
  }

  /** The replica has something to write, and somebody has written since it read. */
  predicate IsConflict(rendered: seq<seq<Gates>>, s: State, step: Step, r: Replica) {
    && step == Reconcile(r) && r < |rendered| && r < |s.phases| && rendered[r] != [] && s.phases[r].Computed?
    && s.phases[r].revision != s.revision
    && Desired(s.phases[r].existing, rendered[r], s.phases[r].known) != s.phases[r].existing
  }

  /** A write that is applied: of a replica that has something to write and read the current status, or of others. */
  predicate IsWrite(rendered: seq<seq<Gates>>, s: State, step: Step) {
    || step.OtherWrite? || step.ReplyLost?
    || (&& step.Reconcile? && step.replica < |rendered| && step.replica < |s.phases| && rendered[step.replica] != []
        && var phase := s.phases[step.replica];
           && phase.Computed? && phase.revision == s.revision
           && Desired(phase.existing, rendered[step.replica], phase.known) != phase.existing)
  }

  function Conflicts(rendered: seq<seq<Gates>>, states: seq<State>, steps: seq<Step>, n: nat, r: Replica): nat
    requires n <= |steps| && |states| == |steps| + 1
  {
    if n == 0 then 0
    else Conflicts(rendered, states, steps, n - 1, r)
         + if IsConflict(rendered, states[n - 1], steps[n - 1], r) then 1 else 0
  }

  function Writes(rendered: seq<seq<Gates>>, states: seq<State>, steps: seq<Step>, n: nat): nat
    requires n <= |steps| && |states| == |steps| + 1
  {
    if n == 0 then 0
    else Writes(rendered, states, steps, n - 1)
         + if IsWrite(rendered, states[n - 1], steps[n - 1]) then 1 else 0
  }

  lemma StepCounts(rendered: seq<seq<Gates>>, s: State, step: Step, t: State, r: Replica)
    requires ValidRendered(rendered) && Next(rendered, s, step, t) && r < |rendered| == |s.conflicts|
    ensures |t.conflicts| == |s.conflicts|
    ensures t.conflicts[r] == s.conflicts[r] + if IsConflict(rendered, s, step, r) then 1 else 0
    ensures t.revision == s.revision + if IsWrite(rendered, s, step) then 1 else 0
  {
  }

  lemma {:induction false} RunCounts(
      rendered: seq<seq<Gates>>, states: seq<State>, steps: seq<Step>, n: nat, r: Replica)
    requires ValidRendered(rendered) && IsRun(rendered, states, steps) && n <= |steps| && r < |rendered|
    ensures |states[n].conflicts| == |rendered|
    ensures states[n].conflicts[r] == Conflicts(rendered, states, steps, n, r)
    ensures states[n].revision == Writes(rendered, states, steps, n)
  {
    if n == 0 {
    } else {
      RunCounts(rendered, states, steps, n - 1, r);
      assert Next(rendered, states[n - 1], steps[n - 1], states[n]);
      StepCounts(rendered, states[n - 1], steps[n - 1], states[n], r);
    }
  }

  /**
    Every conflict of a replica is paid for by another write. Undisturbed, a replica of N that has not
    succeeded yet has met at most N - 1 conflicts.
   */
  lemma ConflictsAreBounded(rendered: seq<seq<Gates>>, states: seq<State>, steps: seq<Step>, n: nat, r: Replica)
    requires ValidRendered(rendered) && IsRun(rendered, states, steps) && n <= |steps| && r < |rendered|
    ensures Conflicts(rendered, states, steps, n, r) <= Writes(rendered, states, steps, n)
    ensures (forall j :: 0 <= j < |steps| ==> IsUndisturbed(steps[j])) && r !in states[n].succeeded ==>
              Conflicts(rendered, states, steps, n, r) <= |rendered| - 1
  {
    var s := states[n];
    RunCounts(rendered, states, steps, n, r);
    RunPaysConflicts(rendered, states, steps, n);
    if (forall j :: 0 <= j < |steps| ==> IsUndisturbed(steps[j])) && r !in s.succeeded {
      RunFinishesOnce(rendered, states, steps, n);
      SubsetSize(s.succeeded + {r}, Below(|rendered|));
    }
  }

  function Below(n: nat): (s: set<Replica>)
    ensures |s| == n && forall r :: r in s <==> 0 <= r < n
  {
    if n == 0 then {} else Below(n - 1) + {n - 1}
  }
}
