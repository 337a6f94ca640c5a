/** The shared ingress loop: write the configuration file, then have HAProxy reload it. */
module SharedIngress {
  import opened Common
  import opened Strings
  import Sorting
  import Router = SharedIngressConfig

  type Config = string
  type Hash = string

  ghost predicate CollisionFree(sha: Config -> Hash) {
    forall a, b :: sha(a) == sha(b) ==> a == b
  }

  /**
    HAProxy's answer to the reload command. It loads the file exactly when it answers with success;
    when the connection fails, the caller cannot tell whether HAProxy loaded the file.
   */
  datatype Reload = NoAnswer(loads: bool) | Answer(response: string)

  predicate ReportsSuccess(response: string) {
    response != "" && Split(TrimSpace(response), '\n')[0] == "Success=1"
  }

  predicate Loads(reload: Reload) {
    if reload.NoAnswer? then reload.loads else ReportsSuccess(reload.response)
  }

  predicate Succeeds(reload: Reload) {
    reload.Answer? && ReportsSuccess(reload.response)
  }

  /** What the API server tells the generator: its answers, and the listed hosted clusters. */
  datatype Sources = Sources(api: Router.Api, listed: Option<seq<Router.HostedCluster>>)

  /** The template turns the backends of the listed clusters into the configuration. */
  type Template = Router.Backends -> Config

  function Generated(render: Template, sources: Sources): Option<Config> {
    if sources.listed.None? then None else Some(render(Router.RouterConfig(sources.api, sources.listed.value)))
  }

  /** What the file system and HAProxy do during one reconciliation. */
  datatype Replies = Replies(readable: bool, temporary: bool, synced: bool, renamed: bool, reload: Reload)

  /** The file, the configuration HAProxy runs, and the hash of the last one it reported to have loaded. */
  datatype Ingress = Ingress(file: Option<Config>, loaded: Option<Config>, lastReloadedHash: Option<Hash>)

  predicate NeedsWrite(sha: Config -> Hash, s: Ingress, config: Config) {
    s.file.None? || sha(s.file.value) != sha(config)
  }

  predicate NeedsReload(sha: Config -> Hash, s: Ingress, config: Config) {
    s.lastReloadedHash != Some(sha(config))
  }

  function Written(sha: Config -> Hash, s: Ingress, config: Config): Ingress {
    if NeedsWrite(sha, s, config) then s.(file := Some(config)) else s
  }

  function Reloaded(sha: Config -> Hash, s: Ingress, config: Config, reload: Reload): Ingress {
    if !NeedsReload(sha, s, config) then s
    else Ingress(s.file,
                 if Loads(reload) then s.file else s.loaded,
                 if Succeeds(reload) then Some(sha(config)) else s.lastReloadedHash)
  }

  predicate CanWrite(replies: Replies) {
    replies.synced && replies.renamed
  }

  predicate Reconciles(sha: Config -> Hash, s: Ingress, generated: Option<Config>, replies: Replies) {
    && replies.readable && replies.temporary && generated.Some?
    && (NeedsWrite(sha, s, generated.value) ==> CanWrite(replies))
    && (NeedsReload(sha, s, generated.value) ==> Succeeds(replies.reload))
  }

  function Reconciled(sha: Config -> Hash, s: Ingress, generated: Option<Config>, replies: Replies): Ingress {
    if !replies.readable || !replies.temporary || generated.None? then s
    else
      var config := generated.value;
      if NeedsWrite(sha, s, config) && !CanWrite(replies) then s
      else Reloaded(sha, Written(sha, s, config), config, replies.reload)
  }

  class SharedIngressConfigReconciler {
    const sha: Config -> Hash
    const render: Template
    var file: Option<Config>
    var loaded: Option<Config>
    var lastReloadedHash: Option<Hash>

    function State(): Ingress
      reads this
    {
      Ingress(file, loaded, lastReloadedHash)
    }

    constructor (sha: Config -> Hash, render: Template, file: Option<Config>, loaded: Option<Config>)
      ensures this.sha == sha && this.render == render && State() == Ingress(file, loaded, None)
    {
      this.sha := sha;
      this.render := render;
      this.file := file;
      this.loaded := loaded;
      this.lastReloadedHash := None;
    }

    method CurrentConfigHash(readable: bool) returns (hash: Option<Option<Hash>>)
      ensures hash == if !readable then None else Some(if file.Some? then Some(sha(file.value)) else None)
    {
      if !readable {
        return None;
      }
      if file.None? {
        return Some(None);
      }
      return Some(Some(sha(file.value)));
    }

    method SendReloadCommand(reload: Reload) returns (ok: bool)
      modifies `loaded
      ensures ok == Succeeds(reload)
      ensures loaded == if Loads(reload) then file else old(loaded)
    {
      if Loads(reload) {
        loaded := file;
      }
      if reload.NoAnswer? {
        return false;
      }
      if reload.response == "" {
        return false;
      }
      var lines := Split(TrimSpace(reload.response), '\n');
      return lines[0] == "Success=1";
    }

    method Reconcile(sources: Sources, replies: Replies) returns (ok: bool)
      modifies this
      ensures ok == Reconciles(sha, old(State()), Generated(render, sources), replies)
      ensures State() == Reconciled(sha, old(State()), Generated(render, sources), replies)
    {
      var currentHash := CurrentConfigHash(replies.readable);
      if currentHash.None? {
        return false;
      }
      if !replies.temporary {
        return false;
      }
      var params := Router.GenerateRouterConfig(sources.api, sources.listed);
      if params.None? {
        return false;
      }
      var config := render(params.value);
      var newHash := sha(config);
      if currentHash.value.None? || currentHash.value.value != newHash {
        if !replies.synced {
          return false;
        }
        if !replies.renamed {
          return false;
        }
        file := Some(config);
      }
      if lastReloadedHash != Some(newHash) {
        var reloaded := SendReloadCommand(replies.reload);
        if !reloaded {
          return false;
        }
        lastReloadedHash := Some(newHash);
      }
      return true;
    }
  }

  // ---- runs ----

  /** Between reconciliations, anybody may change or remove the file. */
  datatype Event = Reconciliation(sources: Sources, replies: Replies) | FileChange(file: Option<Config>)

  datatype Setting = Setting(sha: Config -> Hash, render: Template)

  function After(setting: Setting, s: Ingress, event: Event): Ingress {
    match event
    case Reconciliation(sources, replies) => Reconciled(setting.sha, s, Generated(setting.render, sources), replies)
    case FileChange(file) => s.(file := file)
  }

  function Run(setting: Setting, s: Ingress, events: seq<Event>): Ingress {
    if events == [] then s else After(setting, Run(setting, s, events[..|events| - 1]), events[|events| - 1])
  }

  /** A failed connection leaves HAProxy unchanged. */
  predicate IsCertain(event: Event) {
    event.Reconciliation? && event.replies.reload.NoAnswer? ==> !event.replies.reload.loads
  }

  /** What is remembered as reloaded is what HAProxy runs. */
  predicate Remembers(sha: Config -> Hash, s: Ingress) {
    s.lastReloadedHash.Some? ==> s.loaded.Some? && sha(s.loaded.value) == s.lastReloadedHash.value
  }

  lemma FileIsWritten(sha: Config -> Hash, s: Ingress, config: Config)
    requires CollisionFree(sha)
    ensures Written(sha, s, config).file == Some(config)
  {
  }

  lemma RememberingKept(setting: Setting, s: Ingress, event: Event)
    requires CollisionFree(setting.sha) && Remembers(setting.sha, s) && IsCertain(event)
    ensures Remembers(setting.sha, After(setting, s, event))
  {
    if event.Reconciliation? && event.sources.listed.Some? {
      FileIsWritten(setting.sha, s, Generated(setting.render, event.sources).value);
    }
  }

  lemma {:induction false} RunRemembers(setting: Setting, s: Ingress, events: seq<Event>)
    requires CollisionFree(setting.sha) && s.lastReloadedHash.None? && forall i :: 0 <= i < |events| ==>
             IsCertain(events[i])
    ensures Remembers(setting.sha, Run(setting, s, events))
  {
    if events == [] {
    } else {
      var n := |events| - 1;
      RunRemembers(setting, s, events[..n]);
      RememberingKept(setting, Run(setting, s, events[..n]), events[n]);
    }
  }

  /**
    After any history of failed and successful reconciliations and of changes to the file, one that
    returns no error leaves the file and HAProxy with the configuration of the listed clusters.
   */
  lemma ReconciledIsLoaded(setting: Setting, initial: Ingress, events: seq<Event>, sources: Sources, replies: Replies)
    requires CollisionFree(setting.sha) && initial.lastReloadedHash.None? && forall i :: 0 <= i < |events| ==>
             IsCertain(events[i])
    requires Reconciles(setting.sha, Run(setting, initial, events), Generated(setting.render, sources), replies)
    ensures sources.listed.Some?
    ensures var final := Reconciled(setting.sha, Run(setting, initial, events), Generated(setting.render, sources),
            replies);
            final.file == final.loaded == Some(setting.render(Router.RouterConfig(sources.api, sources.listed.value)))
  {
    var s := Run(setting, initial, events);
    RunRemembers(setting, initial, events);
    FileIsWritten(setting.sha, s, Generated(setting.render, sources).value);
  }

  /** What HAProxy ends up with does not depend on the order in which clusters and routes are listed. */
  lemma LoadedIgnoresListingOrder(
      setting: Setting, initial: Ingress, events: seq<Event>, sources: Sources, relisted: Sources, replies: Replies)
    requires CollisionFree(setting.sha) && initial.lastReloadedHash.None? && forall i :: 0 <= i < |events| ==>
             IsCertain(events[i])
    requires sources.listed.Some? && relisted.listed.Some? && Router.SameAnswers(sources.api, relisted.api)
    requires Sorting.DistinctKeys(sources.listed.value, Router.ControlPlane)
    requires multiset(sources.listed.value) == multiset(relisted.listed.value)
    requires Reconciles(setting.sha, Run(setting, initial, events), Generated(setting.render, relisted), replies)
    ensures Reconciled(setting.sha, Run(setting, initial, events), Generated(setting.render, relisted), replies).loaded
         == Generated(setting.render, sources)
  {
    ReconciledIsLoaded(setting, initial, events, relisted, replies);
    Router.ConfigIgnoresListingOrder(sources.api, relisted.api, sources.listed.value, relisted.listed.value);
  }

  /** In general: HAProxy is left with the generated configuration exactly if it reloads or already ran it. */
  lemma LoadedExactlyWhen(sha: Config -> Hash, s: Ingress, generated: Option<Config>, replies: Replies)
    requires CollisionFree(sha) && Reconciles(sha, s, generated, replies)
    ensures Reconciled(sha, s, generated, replies).file == generated
    ensures Reconciled(sha, s, generated, replies).loaded == generated <==>
            s.lastReloadedHash != Some(sha(generated.value)) || s.loaded == generated
  {
    FileIsWritten(sha, s, generated.value);
  }

  /** If a reload whose answer got lost took effect, going back to the previous configuration is not reloaded. */
  lemma LostAnswerLeavesStale(setting: Setting, a: Sources, b: Sources)
    requires CollisionFree(setting.sha) && a.listed.Some? && b.listed.Some?
    requires Generated(setting.render, a) != Generated(setting.render, b)
    ensures var fine := Replies(true, true, true, true, Answer("Success=1\n"));
            var events := [Reconciliation(a, fine), Reconciliation(b, fine.(reload := NoAnswer(true)))];
            var s := Run(setting, Ingress(None, None, None), events);
            && Reconciles(setting.sha, s, Generated(setting.render, a), fine)
            && var final := Reconciled(setting.sha, s, Generated(setting.render, a), fine);
               final.file == Generated(setting.render, a) && final.loaded == Generated(setting.render, b)
  {
    var fine := Replies(true, true, true, true, Answer("Success=1\n"));
    SuccessLine();
    var configA, configB := Generated(setting.render, a), Generated(setting.render, b);
    var start := Ingress(None, None, None);
    RunTwo(setting, start, Reconciliation(a, fine), Reconciliation(b, fine.(reload := NoAnswer(true))));
    var loaded := Ingress(configA, configA, Some(setting.sha(configA.value)));
    assert After(setting, start, Reconciliation(a, fine)) == loaded;
    assert setting.sha(configA.value) != setting.sha(configB.value);
    assert After(setting, loaded, Reconciliation(b, fine.(reload := NoAnswer(true))))
        == Ingress(configB, configB, Some(setting.sha(configA.value)));
  }

  lemma RunTwo(setting: Setting, s: Ingress, first: Event, second: Event)
    ensures Run(setting, s, [first, second]) == After(setting, After(setting, s, first), second)
  {
    assert [first, second][..1] == [first] && [first][..0] == [];
    assert Run(setting, s, [first]) == After(setting, Run(setting, s, []), first);
  }

  // ---- what counts as success ----

  /** White space, the line, and then nothing but white space or a new line at once. */
  predicate SaysLine(response: string, line: string, lead: string, rest: string) {
    && response == lead + line + rest
    && AllSpace(lead)
    && (AllSpace(rest) || rest[0] == '\n')
  }

  lemma {:induction false} TrimLeftLeaves(s: string) returns (lead: string)
    ensures s == lead + TrimLeft(s) && AllSpace(lead)
  {
    if s != [] && IsSpace(s[0]) {
      var shorter := TrimLeftLeaves(s[1..]);
      lead := [s[0]] + shorter;
      assert s == [s[0]] + s[1..];
    } else {
      lead := [];
    }
  }

  lemma {:induction false} TrimRightLeaves(s: string) returns (tail: string)
    ensures s == TrimRight(s) + tail && AllSpace(tail)
  {
    if s != [] && IsSpace(s[|s| - 1]) {
      var shorter := TrimRightLeaves(s[..|s| - 1]);
      tail := shorter + [s[|s| - 1]];
      assert s == s[..|s| - 1] + [s[|s| - 1]];
    } else {
      tail := [];
    }
  }

  lemma {:induction false} TrimRightKeeps(s: string, i: nat)
    requires i < |s| && !IsSpace(s[i])
    ensures TrimRight(s) <= s && i < |TrimRight(s)|
  {
    if IsSpace(s[|s| - 1]) {
      TrimRightKeeps(s[..|s| - 1], i);
    }
  }

  /** The first line, whether or not others follow. */
  lemma FirstLine(s: string, first: string)
    requires '\n' !in first
    ensures Split(s, '\n')[0] == first <==> s == first || first + "\n" <= s
  {
    var parts := Split(s, '\n');
    JoinSplit(s, '\n');
    if parts[0] == first {
      if |parts| > 1 {
        assert s == first + "\n" + Join(parts[1..], '\n');
      }
    }
    if s == first {
      SplitHead(first, [], '\n');
    }
    if first + "\n" <= s {
      var tail := s[|first| + 1..];
      assert s == first + "\n" + tail;
      SplitHead(first, tail, '\n');
    }
  }

  lemma FirstLineIsSaid(response: string, line: string) returns (lead: string, rest: string)
    requires '\n' !in line && Split(TrimSpace(response), '\n')[0] == line
    ensures SaysLine(response, line, lead, rest)
  {
    lead := TrimLeftLeaves(response);
    var tail := TrimRightLeaves(TrimLeft(response));
    var trimmed := TrimSpace(response);
    FirstLine(trimmed, line);
    var more := trimmed[|line|..];
    assert trimmed == line + more;
    rest := more + tail;
    Regroup(lead, line, more, tail);
    if trimmed == line {
      assert rest == tail;
    } else {
      assert rest[0] == trimmed[|line|] == (line + "\n")[|line|];
    }
  }

  lemma Regroup(a: string, b: string, c: string, d: string)
    ensures a + ((b + c) + d) == a + b + (c + d)
  {
  }

  lemma SaidIsFirstLine(response: string, line: string, lead: string, rest: string)
    requires '\n' !in line && line != [] && !IsSpace(line[0]) && !IsSpace(line[|line| - 1])
    requires SaysLine(response, line, lead, rest)
    ensures Split(TrimSpace(response), '\n')[0] == line
  {
    var body := line + rest;
    assert response == lead + body;
    TrimLeftOf(lead, body);
    if AllSpace(rest) {
      TrimRightOf(line, rest);
    } else {
      var i :| 0 <= i < |rest| && !IsSpace(rest[i]);
      assert body[|line| + i] == rest[i];
      TrimRightKeeps(body, |line| + i);
      assert (line + "\n") <= body;
    }
    FirstLine(TrimRight(body), line);
  }

  /** A response reports success exactly if its first line says so, leading and trailing white space aside. */
  lemma SuccessExactlyWhen(response: string)
    ensures ReportsSuccess(response) <==> exists lead, rest :: SaysLine(response, "Success=1", lead, rest)
  {
    var line := "Success=1";
    assert line[0] == 'S' && line[8] == '1';
    if ReportsSuccess(response) {
      var lead, rest := FirstLineIsSaid(response, line);
    }
    if lead, rest :| SaysLine(response, line, lead, rest) {
      SaidIsFirstLine(response, line, lead, rest);
    }
  }

  /** HAProxy answers, and says that it has loaded the file. */
  ghost predicate Confirms(reload: Reload) {
    reload.Answer? && exists lead, rest :: SaysLine(reload.response, "Success=1", lead, rest)
  }

  /** The file is the generated configuration already, or is replaced by it. */
  predicate GetsFile(s: Ingress, generated: Option<Config>, replies: Replies) {
    && replies.readable && replies.temporary && generated.Some?
    && (s.file == generated || (replies.synced && replies.renamed))
  }

  /**
    One reconciliation from any state. It succeeds exactly if the file can be had as generated and
    HAProxy confirms it or is remembered to have done so. HAProxy is asked only once the file is
    there, and only if it is not remembered; what it loads is the file, and what is remembered is
    what it confirms.
   */
  lemma OutcomeExactly(sha: Config -> Hash, s: Ingress, generated: Option<Config>, replies: Replies)
    requires CollisionFree(sha)
    ensures var t := Reconciled(sha, s, generated, replies);
            var asks := GetsFile(s, generated, replies) && s.lastReloadedHash != Some(sha(generated.value));
            && (Reconciles(sha, s, generated, replies) <==>
                  GetsFile(s, generated, replies) && (asks ==> Confirms(replies.reload)))
            && t.file == (if GetsFile(s, generated, replies) then generated else s.file)
            && t.loaded == (if asks && (Confirms(replies.reload) || replies.reload == NoAnswer(true)) then generated
                            else s.loaded)
            && t.lastReloadedHash == (if asks && Confirms(replies.reload) then Some(sha(generated.value))
                                      else s.lastReloadedHash)
  {
    if replies.reload.Answer? {
      SuccessExactlyWhen(replies.reload.response);
    }
    if generated.Some? {
      FileIsWritten(sha, s, generated.value);
    }
  }

  lemma SuccessLine()
    ensures ReportsSuccess("Success=1\n")
  {
    SuccessExactlyWhen("Success=1\n");
    assert "Success=1\n" == "" + "Success=1" + "\n";
    assert SaysLine("Success=1\n", "Success=1", "", "\n");
  }
}
