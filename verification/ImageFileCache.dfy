/**
  The ignition server's cache of image files: concurrent callers over a map guarded by a read-write
  mutex, with cached files that anybody may corrupt or remove.
 */
module ImageFileCache {
  import opened Common

  type Bytes = string
  type Caller = nat

  datatype Key = Key(imageRef: string, imageFile: string)

  datatype Entry = Entry(fileName: string, fileSha: Bytes)

  /** The registry's content of each image file, and the checksum, taken to be free of collisions. */
  datatype Setting = Setting(registry: Key -> Bytes, sha: Bytes -> Bytes)

  ghost predicate CollisionFree(setting: Setting) {
    forall a, b :: setting.sha(a) == setting.sha(b) ==> a == b
  }

  /** Where a caller of extractImageFile is. From `Locked` to `Recorded` it holds the write lock. */
  datatype Phase =
    | Idle
    | LookedUp(key: Key, entry: Option<Entry>)
    | Checked(key: Key, fileName: string)
    | Waiting(key: Key)
    | Locked(key: Key)
    | LockedChecked(key: Key, fileName: string)
    | Missed(key: Key)
    | Downloading(key: Key, fileName: string)
    | Downloaded(key: Key, fileName: string)
    | Recorded(key: Key, fileName: string)
    | Returned(key: Key, bytes: Bytes)
    | Failed(key: Key)

  predicate HoldsLock(phase: Phase) {
    || phase.Locked? || phase.LockedChecked? || phase.Missed?
    || phase.Downloading? || phase.Downloaded? || phase.Recorded?
  }

  /** `created` holds the names of all cache files ever created: a temporary name is never reused. */
  datatype State = State(
    cacheMap: map<Key, Entry>, files: map<string, Bytes>, created: set<string>, holder: Option<Caller>,
    callers: seq<Phase>)

  datatype Step =
    | LookUp(caller: Caller, key: Key)
    | Check(caller: Caller)
    | Acquire(caller: Caller)
    | CheckAgain(caller: Caller)
    | CreateFile(caller: Caller, fileName: string)
    | Download(caller: Caller)
    | DownloadFails(caller: Caller, partial: Bytes)
    | Record(caller: Caller)
    | Copy(caller: Caller)
    | Fail(caller: Caller)
    | Change(fileName: string, content: Option<Bytes>)

  predicate IsValid(setting: Setting, s: State, entry: Entry) {
    entry.fileName in s.files && setting.sha(s.files[entry.fileName]) == entry.fileSha
  }

  function At(s: State, c: Caller, phase: Phase): State
    requires c < |s.callers|
  {
    s.(callers := s.callers[c := phase])
  }

  /** The call ends, and the deferred unlock releases the lock if the caller holds it. */
  function Finish(s: State, c: Caller, phase: Phase): State
    requires c < |s.callers|
  {
    At(s, c, phase).(holder := if HoldsLock(s.callers[c]) then None else s.holder)
  }

  predicate Copies(phase: Phase) {
    phase.Checked? || phase.LockedChecked? || phase.Recorded?
  }

  ghost predicate Next(setting: Setting, s: State, step: Step, t: State) {
    if step.Change? then
      t == s.(files := if step.content.Some? then s.files[step.fileName := step.content.value]
          else s.files - {step.fileName})
    else
      var c := step.caller;
      && c < |s.callers|
      && var phase := s.callers[c];
      match step
      case LookUp(_, key) =>
        && (phase.Idle? || phase.Returned? || phase.Failed?)
        && s.holder.None?
        && t == At(s, c, LookedUp(key, if key in s.cacheMap then Some(s.cacheMap[key]) else None))
      case Check(_) =>
        && phase.LookedUp?
        && t == At(s, c, if phase.entry.Some? && IsValid(setting, s, phase.entry.value)
                         then Checked(phase.key, phase.entry.value.fileName) else Waiting(phase.key))
      case Acquire(_) => phase.Waiting? && s.holder.None? && t == At(s, c, Locked(phase.key)).(holder := Some(c))
      case CheckAgain(_) =>
        && phase.Locked?
        && t == At(s, c, if phase.key in s.cacheMap && IsValid(setting, s, s.cacheMap[phase.key])
                         then LockedChecked(phase.key, s.cacheMap[phase.key].fileName) else Missed(phase.key))
      case CreateFile(_, name) =>
        && phase.Missed? && name !in s.files && name !in s.created
        && t == At(s, c, Downloading(phase.key, name)).(files := s.files[name := ""], created := s.created + {name})
      case Download(_) =>
        && phase.Downloading?
        && t == At(s, c, Downloaded(phase.key, phase.fileName)).(
                files := if phase.fileName in s.files then s.files[phase.fileName := setting.registry(phase.key)]
                    else s.files)
      case DownloadFails(_, partial) =>
        && phase.Downloading?
        && t == Finish(s, c, Failed(phase.key)).(
                files := if phase.fileName in s.files then s.files[phase.fileName := partial] else s.files)
      case Record(_) =>
        && phase.Downloaded?
        && phase.fileName in s.files
        && t == At(s, c, Recorded(phase.key, phase.fileName)).(
                cacheMap := s.cacheMap[phase.key := Entry(phase.fileName, setting.sha(s.files[phase.fileName]))])
      case Copy(_) =>
        && Copies(phase)
        && phase.fileName in s.files
        && t == Finish(s, c, Returned(phase.key, s.files[phase.fileName]))
      case Fail(_) => (Copies(phase) || phase.Missed? || phase.Downloaded?) && t == Finish(s, c, Failed(phase.key))
      case Change(_, _) => false
  }

  // ---- locks and names ----

  ghost predicate LockInvariant(s: State) {
    forall c :: 0 <= c < |s.callers| ==> (HoldsLock(s.callers[c]) <==> s.holder == Some(c))
  }

  lemma LockKept(setting: Setting, s: State, step: Step, t: State)
    requires LockInvariant(s) && Next(setting, s, step, t)
    ensures LockInvariant(t)
  {
  }

  function FileOf(phase: Phase): Option<string> {
    if phase.LookedUp? then (if phase.entry.Some? then Some(phase.entry.value.fileName) else None)
    else if Copies(phase) || phase.Downloading? || phase.Downloaded? then Some(phase.fileName)
    else None
  }

  /** Only created files are mentioned. */
  ghost predicate NamesCreated(s: State) {
    && (forall key :: key in s.cacheMap ==> s.cacheMap[key].fileName in s.created)
    && (forall c :: 0 <= c < |s.callers| && FileOf(s.callers[c]).Some? ==> FileOf(s.callers[c]).value in s.created)
  }

  /** A file that is being downloaded is known to nobody else yet. */
  ghost predicate OwnFile(s: State) {
    forall c :: 0 <= c < |s.callers| && s.callers[c].Downloading? ==>
      && (forall key :: key in s.cacheMap ==> s.cacheMap[key].fileName != s.callers[c].fileName)
      && (forall d :: 0 <= d < |s.callers| && d != c ==> FileOf(s.callers[d]) != Some(s.callers[c].fileName))
  }

  lemma NamesCreatedKept(setting: Setting, s: State, step: Step, t: State)
    requires NamesCreated(s) && Next(setting, s, step, t)
    ensures NamesCreated(t)
  {
    if step.Change? {
    } else {
      var c := step.caller;
      assert t.callers == s.callers[c := t.callers[c]];
      assert FileOf(t.callers[c]).Some? ==> FileOf(t.callers[c]).value in t.created;
    }
  }

  lemma OwnFileKept(setting: Setting, s: State, step: Step, t: State)
    requires NamesCreated(s) && OwnFile(s) && LockInvariant(s) && Next(setting, s, step, t)
    ensures OwnFile(t)
  {
    if step.Change? {
    } else {
      var c := step.caller;
      assert t.callers == s.callers[c := t.callers[c]];
      forall d | 0 <= d < |t.callers| && t.callers[d].Downloading?
        ensures forall key :: key in t.cacheMap ==> t.cacheMap[key].fileName != t.callers[d].fileName
        ensures forall e :: 0 <= e < |t.callers| && e != d ==> FileOf(t.callers[e]) != Some(t.callers[d].fileName)
      {
        if d != c {
          assert s.holder == Some(d) && !HoldsLock(s.callers[c]);
          assert FileOf(s.callers[c]) != Some(s.callers[d].fileName);
        }
      }
    }
  }

  // ---- runs ----

  ghost predicate Initial(s: State) {
    && s.cacheMap == map[] && s.files == map[] && s.created == {} && s.holder == None
    && forall c :: 0 <= c < |s.callers| ==> s.callers[c] == Idle
  }

  ghost predicate IsRun(setting: Setting, states: seq<State>, steps: seq<Step>) {
    && |states| == |steps| + 1
    && Initial(states[0])
    && forall i {:trigger steps[i]} :: 0 <= i < |steps| ==> Next(setting, states[i], steps[i], states[i + 1])
  }

  lemma {:induction false} RunKeepsNames(setting: Setting, states: seq<State>, steps: seq<Step>, i: nat)
    requires IsRun(setting, states, steps) && i < |states|
    ensures LockInvariant(states[i]) && NamesCreated(states[i]) && OwnFile(states[i])
  {
    if i == 0 {
    } else {
      RunKeepsNames(setting, states, steps, i - 1);
      LockKept(setting, states[i - 1], steps[i - 1], states[i]);
      NamesCreatedKept(setting, states[i - 1], steps[i - 1], states[i]);
      OwnFileKept(setting, states[i - 1], steps[i - 1], states[i]);
    }
  }

  /** Even under arbitrary corruption, at most one download is in flight. */
  lemma OneDownloadInFlight(setting: Setting, states: seq<State>, steps: seq<Step>, i: nat, c: Caller, d: Caller)
    requires IsRun(setting, states, steps) && i < |states| && c < |states[i].callers| && d < |states[i].callers|
    requires states[i].callers[c].Downloading? && states[i].callers[d].Downloading?
    ensures c == d
  {
    RunKeepsNames(setting, states, steps, i);
  }

  // ---- what a caller gets ----

  /** Nobody outside changes a file between a caller's check, or record, and its copy. */
  predicate IsQuiet(s: State, step: Step) {
    step.Change? ==> forall c :: 0 <= c < |s.callers| && Copies(s.callers[c]) ==> s.callers[c].fileName != step.fileName
  }

  ghost predicate Quiet(states: seq<State>, steps: seq<Step>)
    requires |states| == |steps| + 1
  {
    forall i {:trigger steps[i]} :: 0 <= i < |steps| ==> IsQuiet(states[i], steps[i])
  }

  /** Step r computes the checksum of this file for this key. */
  ghost predicate Records(states: seq<State>, steps: seq<Step>, r: nat, key: Key, fileName: string)
    requires |states| == |steps| + 1
  {
    && r < |steps| && steps[r].Record? && steps[r].caller < |states[r].callers|
    && states[r].callers[steps[r].caller] == Downloaded(key, fileName)
    && fileName in states[r].files
  }

  /** The entry's checksum was computed by step r. */
  ghost predicate RecordedBy(setting: Setting, states: seq<State>, steps: seq<Step>, r: nat, key: Key, entry: Entry)
    requires |states| == |steps| + 1
  {
    Records(states, steps, r, key, entry.fileName) && entry.fileSha == setting.sha(states[r].files[entry.fileName])
  }

  ghost predicate HasRecord(setting: Setting, states: seq<State>, steps: seq<Step>, i: nat, key: Key, entry: Entry)
    requires |states| == |steps| + 1
  {
    exists r :: 0 <= r < i && RecordedBy(setting, states, steps, r, key, entry)
  }

  /** The file has the content it had when its checksum was computed. */
  ghost predicate AsRecorded(states: seq<State>, steps: seq<Step>, i: nat, key: Key, fileName: string)
    requires |states| == |steps| + 1 && i < |states|
  {
    && fileName in states[i].files
    && exists r :: 0 <= r < i && Records(states, steps, r, key, fileName)
        && states[r].files[fileName] == states[i].files[fileName]
  }

  predicate HasEntry(phase: Phase) {
    phase.LookedUp? && phase.entry.Some?
  }

  predicate Downloads(phase: Phase) {
    phase.Downloading? || phase.Downloaded?
  }

  ghost predicate EntriesRecorded(setting: Setting, states: seq<State>, steps: seq<Step>, i: nat)
    requires |states| == |steps| + 1 && i < |states|
  {
    && (forall key :: key in states[i].cacheMap ==> HasRecord(setting, states, steps, i, key, states[i].cacheMap[key]))
    && (forall c :: 0 <= c < |states[i].callers| && HasEntry(states[i].callers[c]) ==>
          HasRecord(setting, states, steps, i, states[i].callers[c].key, states[i].callers[c].entry.value))
  }

  ghost predicate CopiesRecorded(states: seq<State>, steps: seq<Step>, i: nat)
    requires |states| == |steps| + 1 && i < |states|
  {
    forall c :: 0 <= c < |states[i].callers| && Copies(states[i].callers[c]) ==>
      AsRecorded(states, steps, i, states[i].callers[c].key, states[i].callers[c].fileName)
  }

  lemma HasRecordLater(setting: Setting, states: seq<State>, steps: seq<Step>, i: nat, key: Key, entry: Entry)
    requires |states| == |steps| + 1 && i < |steps| && HasRecord(setting, states, steps, i, key, entry)
    ensures HasRecord(setting, states, steps, i + 1, key, entry)
  {
    var r :| 0 <= r < i && RecordedBy(setting, states, steps, r, key, entry);
  }

  lemma EntriesRecordedKept(setting: Setting, states: seq<State>, steps: seq<Step>, i: nat)
    requires IsRun(setting, states, steps) && i < |steps| && EntriesRecorded(setting, states, steps, i)
    ensures EntriesRecorded(setting, states, steps, i + 1)
  {
    var s, step, t := states[i], steps[i], states[i + 1];
    assert Next(setting, s, step, t);
    forall key | key in t.cacheMap
      ensures HasRecord(setting, states, steps, i + 1, key, t.cacheMap[key])
    {
      if step.Record? && key == s.callers[step.caller].key {
        assert RecordedBy(setting, states, steps, i, key, t.cacheMap[key]);
      } else {
        HasRecordLater(setting, states, steps, i, key, t.cacheMap[key]);
      }
    }
    forall c | 0 <= c < |t.callers| && t.callers[c].LookedUp? && t.callers[c].entry.Some?
      ensures HasRecord(setting, states, steps, i + 1, t.callers[c].key, t.callers[c].entry.value)
    {
      HasRecordLater(setting, states, steps, i, t.callers[c].key, t.callers[c].entry.value);
    }
  }

  /** A valid entry's file is as it was recorded: a checksum decides the content. */
  lemma ValidIsAsRecorded(setting: Setting, states: seq<State>, steps: seq<Step>, i: nat, key: Key, entry: Entry)
    requires CollisionFree(setting) && |states| == |steps| + 1 && i < |states|
    requires HasRecord(setting, states, steps, i, key, entry) && IsValid(setting, states[i], entry)
    ensures AsRecorded(states, steps, i, key, entry.fileName)
  {
    var r :| 0 <= r < i && RecordedBy(setting, states, steps, r, key, entry);
    assert Records(states, steps, r, key, entry.fileName);
  }

  lemma AsRecordedLater(states: seq<State>, steps: seq<Step>, i: nat, key: Key, fileName: string)
    requires |states| == |steps| + 1 && i < |steps| && AsRecorded(states, steps, i, key, fileName)
    requires fileName in states[i + 1].files && states[i + 1].files[fileName] == states[i].files[fileName]
    ensures AsRecorded(states, steps, i + 1, key, fileName)
  {
    var r :| 0 <= r < i && Records(states, steps, r, key, fileName)
        && states[r].files[fileName] == states[i].files[fileName];
  }

  /** A file that a caller is about to copy keeps its content in every quiet step. */
  lemma CopiedFileKept(setting: Setting, s: State, step: Step, t: State, c: Caller)
    requires NamesCreated(s) && OwnFile(s) && Next(setting, s, step, t) && IsQuiet(s, step)
    requires c < |s.callers| && Copies(s.callers[c]) && s.callers[c].fileName in s.files
    ensures var name := s.callers[c].fileName; name in t.files && t.files[name] == s.files[name]
  {
    assert FileOf(s.callers[c]) == Some(s.callers[c].fileName);
  }

  lemma CopiesRecordedKept(setting: Setting, states: seq<State>, steps: seq<Step>, i: nat)
    requires CollisionFree(setting) && IsRun(setting, states, steps) && Quiet(states, steps) && i < |steps|
    requires NamesCreated(states[i]) && OwnFile(states[i])
    requires EntriesRecorded(setting, states, steps, i) && CopiesRecorded(states, steps, i)
    ensures CopiesRecorded(states, steps, i + 1)
  {
    var s, step, t := states[i], steps[i], states[i + 1];
    assert Next(setting, s, step, t) && IsQuiet(s, step);
    forall c | 0 <= c < |t.callers| && Copies(t.callers[c])
      ensures AsRecorded(states, steps, i + 1, t.callers[c].key, t.callers[c].fileName)
    {
      var key, name := t.callers[c].key, t.callers[c].fileName;
      if t.callers[c] == s.callers[c] {
        CopiedFileKept(setting, s, step, t, c);
        AsRecordedLater(states, steps, i, key, name);
      } else if step.Record? {
        assert Records(states, steps, i, key, name);
      } else {
        var entry := if step.Check? then s.callers[c].entry.value else s.cacheMap[key];
        ValidIsAsRecorded(setting, states, steps, i, key, entry);
        AsRecordedLater(states, steps, i, key, name);
      }
    }
  }

  lemma {:induction false} RunKeepsRecorded(setting: Setting, states: seq<State>, steps: seq<Step>, i: nat)
    requires CollisionFree(setting) && IsRun(setting, states, steps) && Quiet(states, steps) && i < |states|
    ensures EntriesRecorded(setting, states, steps, i) && CopiesRecorded(states, steps, i)
  {
    if i == 0 {
    } else {
      RunKeepsRecorded(setting, states, steps, i - 1);
      RunKeepsNames(setting, states, steps, i - 1);
      EntriesRecordedKept(setting, states, steps, i - 1);
      CopiesRecordedKept(setting, states, steps, i - 1);
    }
  }

  lemma {:induction false} NeverDownloadedAgain(
      setting: Setting, states: seq<State>, steps: seq<Step>, r: nat, i: nat, key: Key, name: string)
    requires IsRun(setting, states, steps) && Records(states, steps, r, key, name) && r < i < |states|
    ensures name in states[i].created
    ensures forall c :: 0 <= c < |states[i].callers| && Downloads(states[i].callers[c]) ==>
              states[i].callers[c].fileName != name
  {
    assert Next(setting, states[i - 1], steps[i - 1], states[i]);
    if i == r + 1 {
      RunKeepsNames(setting, states, steps, r);
      var recorder := steps[r].caller;
      assert FileOf(states[r].callers[recorder]) == Some(name) && HoldsLock(states[r].callers[recorder]);
    } else {
      NeverDownloadedAgain(setting, states, steps, r, i - 1, key, name);
    }
  }

  /** The checksum of a file is computed once. */
  lemma RecordedOnce(
      setting: Setting, states: seq<State>, steps: seq<Step>, r: nat, q: nat, key: Key, other: Key, name: string)
    requires IsRun(setting, states, steps) && Records(states, steps, r, key, name)
    requires Records(states, steps, q, other, name)
    ensures r == q
  {
    if r < q {
      NeverDownloadedAgain(setting, states, steps, r, q, key, name);
    } else if q < r {
      NeverDownloadedAgain(setting, states, steps, q, r, other, name);
    }
  }

  /**
    A caller gets exactly the content that its file had when the file's checksum was computed, and
    therefore the registry's content if and only if the file was intact at that one step.
   */
  lemma ReturnsRecordedContent(setting: Setting, states: seq<State>, steps: seq<Step>, i: nat) returns (r: nat)
    requires CollisionFree(setting) && IsRun(setting, states, steps) && Quiet(states, steps)
    requires i < |steps| && steps[i].Copy?
    ensures steps[i].caller < |states[i].callers| && Copies(states[i].callers[steps[i].caller])
    ensures var c := steps[i].caller;
            var key, name := states[i].callers[c].key, states[i].callers[c].fileName;
            && r < i && Records(states, steps, r, key, name)
            && (forall q: nat, other :: Records(states, steps, q, other, name) ==> q == r)
            && c < |states[i + 1].callers| && states[i + 1].callers[c] == Returned(key, states[r].files[name])
            && (states[i + 1].callers[c].bytes == setting.registry(key) <==>
                states[r].files[name] == setting.registry(key))
  {
    assert Next(setting, states[i], steps[i], states[i + 1]);
    RunKeepsRecorded(setting, states, steps, i);
    var c := steps[i].caller;
    var key, name := states[i].callers[c].key, states[i].callers[c].fileName;
    assert AsRecorded(states, steps, i, key, name);
    r :| 0 <= r < i && Records(states, steps, r, key, name) && states[r].files[name] == states[i].files[name];
    forall q: nat, other | Records(states, steps, q, other, name)
      ensures q == r
    {
      RecordedOnce(setting, states, steps, r, q, key, other, name);
    }
  }

  /** No file of this key was changed between its download and its checksum. */
  ghost predicate RecordedIntact(setting: Setting, states: seq<State>, steps: seq<Step>, key: Key)
    requires |states| == |steps| + 1
  {
    forall r: nat, name :: Records(states, steps, r, key, name) ==> states[r].files[name] == setting.registry(key)
  }

  /** So whatever is returned for a key whose files were intact when recorded is the registry's content. */
  lemma ReturnsRegistryContent(setting: Setting, states: seq<State>, steps: seq<Step>, i: nat)
    requires CollisionFree(setting) && IsRun(setting, states, steps) && Quiet(states, steps)
    requires i < |steps| && steps[i].Copy? && steps[i].caller < |states[i].callers|
    requires Copies(states[i].callers[steps[i].caller])
    requires RecordedIntact(setting, states, steps, states[i].callers[steps[i].caller].key)
    ensures var c := steps[i].caller;
            c < |states[i + 1].callers| && states[i + 1].callers[c].Returned?
            && states[i + 1].callers[c].bytes == setting.registry(states[i].callers[c].key)
  {
    var r := ReturnsRecordedContent(setting, states, steps, i);
  }

  /** Nobody outside changes a file from the start of its download to its checksum. */
  predicate SparesDownloads(s: State, step: Step) {
    step.Change? ==> forall c :: 0 <= c < |s.callers| && (s.callers[c].Downloading? || s.callers[c].Downloaded?) ==>
                       s.callers[c].fileName != step.fileName
  }

  ghost predicate DownloadIntact(setting: Setting, s: State) {
    && (forall c :: 0 <= c < |s.callers| && s.callers[c].Downloading? ==> s.callers[c].fileName in s.files)
    && (forall c :: 0 <= c < |s.callers| && s.callers[c].Downloaded? ==>
          s.callers[c].fileName in s.files && s.files[s.callers[c].fileName] == setting.registry(s.callers[c].key))
  }

  lemma DownloadIntactKept(setting: Setting, s: State, step: Step, t: State)
    requires LockInvariant(s) && DownloadIntact(setting, s) && Next(setting, s, step, t) && SparesDownloads(s, step)
    ensures DownloadIntact(setting, t)
  {
    forall c | 0 <= c < |t.callers| && (t.callers[c].Downloading? || t.callers[c].Downloaded?)
      ensures t.callers[c].fileName in t.files
      ensures t.callers[c].Downloaded? ==> t.files[t.callers[c].fileName] == setting.registry(t.callers[c].key)
    {
      if !step.Change? && step.caller != c {
        assert s.holder == Some(c) && !HoldsLock(s.callers[step.caller]);
      }
    }
  }

  lemma {:induction false} RunKeepsDownloadIntact(setting: Setting, states: seq<State>, steps: seq<Step>, i: nat)
    requires IsRun(setting, states, steps) && i < |states|
    requires forall k {:trigger steps[k]} :: 0 <= k < |steps| ==> SparesDownloads(states[k], steps[k])
    ensures DownloadIntact(setting, states[i])
  {
    if i == 0 {
    } else {
      RunKeepsDownloadIntact(setting, states, steps, i - 1);
      RunKeepsNames(setting, states, steps, i - 1);
      DownloadIntactKept(setting, states[i - 1], steps[i - 1], states[i]);
    }
  }

  /** If downloads are spared, every file is recorded intact. */
  lemma SparedIsIntact(setting: Setting, states: seq<State>, steps: seq<Step>, key: Key)
    requires IsRun(setting, states, steps)
    requires forall k {:trigger steps[k]} :: 0 <= k < |steps| ==> SparesDownloads(states[k], steps[k])
    ensures RecordedIntact(setting, states, steps, key)
  {
    forall r: nat, name | Records(states, steps, r, key, name)
      ensures states[r].files[name] == setting.registry(key)
    {
      RunKeepsDownloadIntact(setting, states, steps, r);
    }
  }

  lemma ExtendRun(setting: Setting, states: seq<State>, steps: seq<Step>, step: Step, t: State)
    requires IsRun(setting, states, steps) && Next(setting, states[|steps|], step, t)
    ensures IsRun(setting, states + [t], steps + [step])
  {
    var longer, more := states + [t], steps + [step];
    forall i {:trigger more[i]} | 0 <= i < |more|
      ensures Next(setting, longer[i], more[i], longer[i + 1])
    {
      if i < |steps| {
        assert more[i] == steps[i];
      }
    }
  }

  /** The state after a first download of this image file into a file named "f". */
  function FirstDownload(setting: Setting, key: Key): State {
    State(map[], map["f" := setting.registry(key)], {"f"}, Some(0), [Downloaded(key, "f")])
  }

  lemma FirstDownloadRun(setting: Setting, key: Key) returns (states: seq<State>, steps: seq<Step>)
    ensures IsRun(setting, states, steps) && states[|steps|] == FirstDownload(setting, key)
    ensures forall i :: 0 <= i < |steps| ==> !steps[i].Change?
  {
    var s := State(map[], map[], {}, None, [Idle]);
    states, steps := [s], [];
    var t := s.(callers := [LookedUp(key, None)]);
    ExtendRun(setting, states, steps, LookUp(0, key), t);
    states, steps, s := states + [t], steps + [LookUp(0, key)], t;
    t := s.(callers := [Waiting(key)]);
    ExtendRun(setting, states, steps, Check(0), t);
    states, steps, s := states + [t], steps + [Check(0)], t;
    t := s.(callers := [Locked(key)], holder := Some(0));
    ExtendRun(setting, states, steps, Acquire(0), t);
    states, steps, s := states + [t], steps + [Acquire(0)], t;
    t := s.(callers := [Missed(key)]);
    ExtendRun(setting, states, steps, CheckAgain(0), t);
    states, steps, s := states + [t], steps + [CheckAgain(0)], t;
    t := s.(callers := [Downloading(key, "f")], files := map["f" := ""], created := {"f"});
    ExtendRun(setting, states, steps, CreateFile(0, "f"), t);
    states, steps, s := states + [t], steps + [CreateFile(0, "f")], t;
    t := FirstDownload(setting, key);
    ExtendRun(setting, states, steps, Download(0), t);
    states, steps := states + [t], steps + [Download(0)];
  }

  /** A change between download and checksum is taken for the registry's content, however quiet the copy is. */
  lemma EarlyChangeIsReturned(setting: Setting, key: Key, bad: Bytes) returns (states: seq<State>, steps: seq<Step>)
    ensures IsRun(setting, states, steps) && Quiet(states, steps)
    ensures states[|steps|].callers == [Returned(key, bad)]
  {
    states, steps := FirstDownloadRun(setting, key);
    var s := FirstDownload(setting, key);
    var t := s.(files := map["f" := bad]);
    ExtendRun(setting, states, steps, Change("f", Some(bad)), t);
    states, steps, s := states + [t], steps + [Change("f", Some(bad))], t;
    t := s.(callers := [Recorded(key, "f")], cacheMap := map[key := Entry("f", setting.sha(bad))]);
    ExtendRun(setting, states, steps, Record(0), t);
    states, steps, s := states + [t], steps + [Record(0)], t;
    t := s.(callers := [Returned(key, bad)], holder := None);
    ExtendRun(setting, states, steps, Copy(0), t);
    states, steps := states + [t], steps + [Copy(0)];
  }

  // ---- caching ----

  /** Without outside changes the cached files stay intact, and only what is missing is downloaded. */
  ghost predicate Intact(setting: Setting, s: State) {
    && (forall key :: key in s.cacheMap ==> IsValid(setting, s, s.cacheMap[key]))
    && (forall c :: 0 <= c < |s.callers| && (s.callers[c].Missed? || Downloads(s.callers[c])) ==>
          s.callers[c].key !in s.cacheMap)
  }

  lemma IntactKept(setting: Setting, s: State, step: Step, t: State)
    requires LockInvariant(s) && NamesCreated(s) && OwnFile(s) && Intact(setting, s)
    requires Next(setting, s, step, t) && !step.Change?
    ensures Intact(setting, t)
  {
    var c := step.caller;
    assert t.callers == s.callers[c := t.callers[c]];
    forall key | key in t.cacheMap
      ensures IsValid(setting, t, t.cacheMap[key])
    {
      if key in s.cacheMap {
        assert IsValid(setting, s, s.cacheMap[key]);
      }
    }
    forall d | 0 <= d < |t.callers| && (t.callers[d].Missed? || t.callers[d].Downloading? || t.callers[d].Downloaded?)
      ensures t.callers[d].key !in t.cacheMap
    {
      assert HoldsLock(t.callers[d]);
      if d != c {
        assert HoldsLock(s.callers[d]);
      }
    }
  }

  lemma {:induction false} RunKeepsIntact(setting: Setting, states: seq<State>, steps: seq<Step>, i: nat)
    requires IsRun(setting, states, steps) && i < |states|
    requires forall j :: 0 <= j < |steps| ==> !steps[j].Change?
    ensures Intact(setting, states[i])
  {
    if i == 0 {
    } else {
      RunKeepsIntact(setting, states, steps, i - 1);
      RunKeepsNames(setting, states, steps, i - 1);
      IntactKept(setting, states[i - 1], steps[i - 1], states[i]);
    }
  }

  lemma {:induction false} EntriesStay(setting: Setting, states: seq<State>, steps: seq<Step>, i: nat, j: nat, key: Key)
    requires IsRun(setting, states, steps) && i <= j < |states| && key in states[i].cacheMap
    ensures key in states[j].cacheMap
  {
    if i == j {
    } else {
      EntriesStay(setting, states, steps, i, j - 1, key);
      assert Next(setting, states[j - 1], steps[j - 1], states[j]);
    }
  }

  /** Without outside changes, no image file is downloaded again once it was cached. */
  lemma DownloadedOnce(setting: Setting, states: seq<State>, steps: seq<Step>, i: nat, j: nat, key: Key)
    requires IsRun(setting, states, steps) && forall k :: 0 <= k < |steps| ==> !steps[k].Change?
    requires i <= j < |steps| && key in states[i].cacheMap && steps[j].Download?
    ensures states[j].callers[steps[j].caller].key != key
  {
    RunKeepsIntact(setting, states, steps, j);
    assert Next(setting, states[j], steps[j], states[j + 1]);
    EntriesStay(setting, states, steps, i, j, key);
  }
}
