/**
  kas-bootstrap's merge of feature gates: each replica puts the gates rendered for its own version
  in front of the gates of the other known versions, under optimistic locking.
 */
module FeatureGates {
  import opened Common

  datatype Gates = Gates(version: string, features: string)

  datatype HistoryEntry = HistoryEntry(version: string, completed: bool)

  datatype ClusterVersion = ClusterVersion(desired: string, history: seq<HistoryEntry>)

  // ---- known versions ----

  /** The versions of the history up to and including the first completed update. */
  function RecentVersions(history: seq<HistoryEntry>): set<string> {
    if history == [] then {}
    else {history[0].version} + (if history[0].completed then {} else RecentVersions(history[1..]))
  }

  /** The empty set when there is no cluster version to read. */
  function KnownVersions(clusterVersion: Option<ClusterVersion>): set<string> {
    if clusterVersion.None? then {}
    else {clusterVersion.value.desired} + RecentVersions(clusterVersion.value.history)
  }

  /** This entry is of the version, and no later update (they are listed newest first) completed. */
  predicate IsRecentEntry(history: seq<HistoryEntry>, i: nat, version: string)
    requires i < |history|
  {
    history[i].version == version && forall j :: 0 <= j < i ==> !history[j].completed
  }

  lemma {:induction false} RecentVersionsMeaning(history: seq<HistoryEntry>, version: string)
    ensures version in RecentVersions(history) <==>
            exists i :: 0 <= i < |history| && IsRecentEntry(history, i, version)
  {
    if history == [] {
    } else {
      RecentVersionsMeaning(history[1..], version);
      if version in RecentVersions(history) && version != history[0].version {
        var i :| 0 <= i < |history[1..]| && IsRecentEntry(history[1..], i, version);
        assert forall j :: 0 < j < i + 1 ==> history[j] == history[1..][j - 1];
        assert IsRecentEntry(history, i + 1, version);
      }
      if i :| 0 < i < |history| && IsRecentEntry(history, i, version) {
        assert IsRecentEntry(history[1..], i - 1, version);
      }
      if version == history[0].version {
        assert IsRecentEntry(history, 0, version);
      }
    }
  }

  // ---- one reconciliation ----

  predicate Keeps(gates: Gates, currentVersion: string, known: set<string>) {
    gates.version != currentVersion && (known == {} || gates.version in known)
  }

  function Kept(existing: seq<Gates>, currentVersion: string, known: set<string>): seq<Gates> {
    if existing == [] then []
    else
      var rest := Kept(existing[1..], currentVersion, known);
      if Keeps(existing[0], currentVersion, known) then [existing[0]] + rest else rest
  }

  function Desired(existing: seq<Gates>, rendered: seq<Gates>, known: set<string>): seq<Gates>
    requires rendered != []
  {
    rendered + Kept(existing, rendered[0].version, known)
  }

  lemma KeptAppend(existing: seq<Gates>, last: Gates, currentVersion: string, known: set<string>)
    ensures Kept(existing + [last], currentVersion, known)
         == Kept(existing, currentVersion, known) + (if Keeps(last, currentVersion, known) then [last] else [])
  {
    KeptConcat(existing, [last], currentVersion, known);
  }

  method ReadKnownVersions(clusterVersion: Option<ClusterVersion>) returns (known: set<string>)
    ensures known == KnownVersions(clusterVersion)
    ensures known == {} <==> clusterVersion.None?
    ensures forall version :: version in known <==>
              && clusterVersion.Some?
              && (|| version == clusterVersion.value.desired
                  || exists i :: 0 <= i < |clusterVersion.value.history|
                                 && IsRecentEntry(clusterVersion.value.history, i, version))
  {
    if clusterVersion.Some? {
      forall version
        ensures version in RecentVersions(clusterVersion.value.history) <==>
                exists i :: 0 <= i < |clusterVersion.value.history|
                            && IsRecentEntry(clusterVersion.value.history, i, version)
      {
        RecentVersionsMeaning(clusterVersion.value.history, version);
      }
    }
    known := {};
    if clusterVersion.Some? {
      var history := clusterVersion.value.history;
      known := {clusterVersion.value.desired};
      var i := 0;
      while i < |history|
        invariant 0 <= i <= |history|
        invariant known + RecentVersions(history[i..]) == KnownVersions(clusterVersion)
        invariant clusterVersion.value.desired in known
      {
        known := known + {history[i].version};
        if history[i].completed {
          break;
        }
        i := i + 1;
      }
    }
  }

  method DesiredFeatureGates(existing: seq<Gates>, rendered: seq<Gates>, known: set<string>)
    returns (desired: seq<Gates>)
    requires rendered != []
    ensures desired == Desired(existing, rendered, known)
  {
    desired := rendered;
    var currentVersion := rendered[0].version;
    for i := 0 to |existing|
      invariant desired == rendered + Kept(existing[..i], currentVersion, known)
    {
      assert existing[..i + 1] == existing[..i] + [existing[i]];
      KeptAppend(existing[..i], existing[i], currentVersion, known);
      if existing[i].version == currentVersion {
        continue;
      }
      if known != {} && existing[i].version !in known {
        continue;
      }
      desired := desired + [existing[i]];
    }
    assert existing[..|existing|] == existing;
  }

  // ---- what a merge keeps ----

  /** The entries of one version, in order. */
  function OfVersion(gates: seq<Gates>, version: string): seq<Gates> {
    if gates == [] then []
    else
      var rest := OfVersion(gates[1..], version);
      if gates[0].version == version then [gates[0]] + rest else rest
  }

  predicate SingleVersion(gates: seq<Gates>) {
    gates != [] && forall i :: 0 <= i < |gates| ==> gates[i].version == gates[0].version
  }

  lemma {:induction false} OfVersionConcat(a: seq<Gates>, b: seq<Gates>, version: string)
    ensures OfVersion(a + b, version) == OfVersion(a, version) + OfVersion(b, version)
  {
    if a == [] {
      assert a + b == b;
    } else {
      OfVersionConcat(a[1..], b, version);
      assert (a + b)[1..] == a[1..] + b;
    }
  }

  lemma {:induction false} OfVersionUniform(gates: seq<Gates>, of: string, version: string)
    requires forall i :: 0 <= i < |gates| ==> gates[i].version == of
    ensures OfVersion(gates, version) == if version == of then gates else []
  {
    if gates == [] {
    } else {
      OfVersionUniform(gates[1..], of, version);
      assert gates == [gates[0]] + gates[1..];
    }
  }

  lemma {:induction false} OfVersionKept(
      existing: seq<Gates>, currentVersion: string, known: set<string>, version: string)
    ensures OfVersion(Kept(existing, currentVersion, known), version)
         == if Keeps(Gates(version, ""), currentVersion, known) then OfVersion(existing, version) else []
  {
    if existing == [] {
    } else {
      OfVersionKept(existing[1..], currentVersion, known, version);
    }
  }

  /**
    A merge puts exactly the rendered entries under the replica's own version; under any other
    version it keeps all entries if the version is known, or nothing is known, and none otherwise.
   */
  lemma MergeByVersion(existing: seq<Gates>, rendered: seq<Gates>, known: set<string>, version: string)
    requires SingleVersion(rendered)
    ensures OfVersion(Desired(existing, rendered, known), version)
         == if version == rendered[0].version then rendered
            else if known == {} || version in known then OfVersion(existing, version)
            else []
  {
    OfVersionConcat(rendered, Kept(existing, rendered[0].version, known), version);
    OfVersionUniform(rendered, rendered[0].version, version);
    OfVersionKept(existing, rendered[0].version, known, version);
  }

  predicate AllKept(gates: seq<Gates>, currentVersion: string, known: set<string>) {
    forall i :: 0 <= i < |gates| ==> Keeps(gates[i], currentVersion, known)
  }

  lemma {:induction false} KeptAll(existing: seq<Gates>, currentVersion: string, known: set<string>)
    ensures |Kept(existing, currentVersion, known)| <= |existing|
    ensures Kept(existing, currentVersion, known) == existing <==> AllKept(existing, currentVersion, known)
  {
    if existing == [] {
    } else {
      KeptAll(existing[1..], currentVersion, known);
      assert existing == [existing[0]] + existing[1..];
    }
  }

  lemma {:induction false} KeptConcat(a: seq<Gates>, b: seq<Gates>, currentVersion: string, known: set<string>)
    ensures Kept(a + b, currentVersion, known) == Kept(a, currentVersion, known) + Kept(b, currentVersion, known)
  {
    if a == [] {
      assert a + b == b;
    } else {
      KeptConcat(a[1..], b, currentVersion, known);
      assert (a + b)[1..] == a[1..] + b;
    }
  }

  /**
    A replica finds nothing to write exactly when its rendered entries lead the list and every
    entry after them is of another, still known version.
   */
  lemma NothingToWrite(existing: seq<Gates>, rendered: seq<Gates>, known: set<string>)
    requires SingleVersion(rendered)
    ensures Desired(existing, rendered, known) == existing <==>
            rendered <= existing && AllKept(existing[|rendered|..], rendered[0].version, known)
  {
    var current := rendered[0].version;
    if rendered <= existing {
      var rest := existing[|rendered|..];
      assert existing == rendered + rest;
      KeptConcat(rendered, rest, current, known);
      KeptNone(rendered, current, known);
      KeptAll(rest, current, known);
    }
  }

  lemma {:induction false} KeptNone(gates: seq<Gates>, currentVersion: string, known: set<string>)
    requires forall i :: 0 <= i < |gates| ==> gates[i].version == currentVersion
    ensures Kept(gates, currentVersion, known) == []
  {
    if gates == [] {
    } else {
      KeptNone(gates[1..], currentVersion, known);
    }
  }

  /** Reconciling again, by the same replica and with the same known versions, writes nothing. */
  lemma ReconcileIsIdempotent(existing: seq<Gates>, rendered: seq<Gates>, known: set<string>)
    requires SingleVersion(rendered)
    ensures Desired(Desired(existing, rendered, known), rendered, known) == Desired(existing, rendered, known)
  {
    var desired := Desired(existing, rendered, known);
    KeptMembers(existing, rendered[0].version, known);
    assert desired[|rendered|..] == Kept(existing, rendered[0].version, known);
    NothingToWrite(desired, rendered, known);
  }

  lemma {:induction false} KeptMembers(existing: seq<Gates>, currentVersion: string, known: set<string>)
    ensures AllKept(Kept(existing, currentVersion, known), currentVersion, known)
  {
    if existing == [] {
    } else {
      KeptMembers(existing[1..], currentVersion, known);
    }
  }

  /** Another replica, though, moves its own entries to the front again. */
  lemma OtherReplicaReorders()
    ensures var first := [Gates("4.19", "a")];
            var second := [Gates("4.20", "b")];
            var status := Desired(Desired([], first, {}), second, {});
            status == second + first && Desired(status, first, {}) == first + second && first + second != status
  {
    var first := [Gates("4.19", "a")];
    var second := [Gates("4.20", "b")];
    assert Desired([], first, {}) == first;
    assert (first + second)[0] != (second + first)[0];
  }
}
