/** A run in which a token stops resolving at the very instant its time to live ends. */
module TokenDrops {
  import opened Common
  import opened ExpiringCaches
  import opened TokenSecrets
  import opened TokenRuns

  lemma ExtendRun(setting: Setting, worlds: seq<World>, steps: seq<Step>, step: Step, after: World)
    requires IsRun(setting, worlds, steps) && Next(setting, worlds[|steps|], step, after)
    ensures IsRun(setting, worlds + [after], steps + [step])
  {
    var longer, more := worlds + [after], steps + [step];
    forall i {:trigger more[i]} | 0 <= i < |more|
      ensures Next(setting, longer[i], more[i], longer[i + 1])
    {
      if i < |steps| {
        assert more[i] == steps[i];
      }
    }
  }

  /** The store that holds the payload of the secret "s" under these tokens. */
  function Holding(payload: string, expiries: map<string, Instant>): Store {
    map key | key in expiries :: Entry(CacheValue(payload, "s"), expiries[key])
  }

  function Sample(
      now: Instant, secret: TokenSecret, payload: string, expiries: map<string, Instant>,
      owners: map<string, string>): World
  {
    World(now, State(map["s" := secret], Holding(payload, expiries)), owners)
  }

  function Sync(now: Instant, newToken: string): Request {
    Request("s", now, newToken, false, false, false)
  }

  predicate IsOrdinary(secret: TokenSecret) {
    secret.expiration.NoExpiration? && !secret.deleting && !secret.generation.MalformedGeneration?
  }

  function Left(secret: TokenSecret, expiries: map<string, Instant>): map<string, Instant> {
    if secret.oldToken.Some? then expiries - {secret.oldToken.value} else expiries
  }

  lemma StoreAfterRotation(
      secret: TokenSecret, payload: string, expiries: map<string, Instant>, now: Instant, newToken: string)
    requires forall key :: key in expiries ==> expiries[key] >= now
    ensures Collected(Holding(payload, expiries), now) == Holding(payload, expiries)
    ensures Stored(WithoutOldToken(Holding(payload, expiries), secret), TTL, newToken, CacheValue(payload, "s"), now)
         == Holding(payload, Left(secret, expiries)[newToken := now + TTL])
  {
  }

  /** How one rotation moves such a world on. */
  lemma SampleRotates(
      setting: Setting, now: Instant, secret: TokenSecret, payload: string, expiries: map<string, Instant>,
      owners: map<string, string>, newToken: string)
    requires IsOrdinary(secret) && secret.token in expiries && forall key :: key in expiries ==> expiries[key] >= now
    requires TokenNeedRotation(TimeLived(secret, now)) && newToken != "" && newToken !in owners
    ensures Next(setting, Sample(now, secret, payload, expiries, owners), Reconcile(Sync(now, newToken)),
                 Sample(now, Rotated(secret, newToken, now), payload, Left(secret, expiries)[newToken := now + TTL],
                        owners[newToken := "s"]))
  {
    StoreAfterRotation(secret, payload, expiries, now, newToken);
    var state := Sample(now, secret, payload, expiries, owners).state;
    assert Lookup(state.store, secret.token, now) == Some(CacheValue(payload, "s"));
  }

  function Secret0(content: string): TokenSecret {
    TokenSecret(content, "a", None, NeverRotated, NoExpiration, false, OtherUpgrade, None, "", "")
  }

  function Secret1(content: string): TokenSecret {
    Secret0(content).(reason := AS_EXPECTED, message := GENERATED_MESSAGE)
  }

  /** The secret is created, its payload is built, and its token is rotated at time zero. */
  lemma SampleFills(setting: Setting, payload: string)
    requires setting.provider(setting.contentOf("s")) == Built(payload)
    ensures Next(setting, Sample(0, Secret0(setting.contentOf("s")), payload, map[], map["a" := "s"]),
            Reconcile(Sync(0, "x")),
                 Sample(0, Secret1(setting.contentOf("s")), payload, map["a" := TTL], map["a" := "s", "x" := "s"]))
  {
    var secret := Secret0(setting.contentOf("s"));
    var before := Sample(0, secret, payload, map[], map["a" := "s"]);
    assert "a"[0] != "x"[0];
    assert Collected(before.state.store, 0) == before.state.store == map[];
    assert Fill(before.state, Sync(0, "x"), secret, payload).0.store == Holding(payload, map["a" := TTL]);
  }

  lemma SampleStart(setting: Setting, payload: string) returns (worlds: seq<World>, steps: seq<Step>)
    requires setting.provider(setting.contentOf("s")) == Built(payload)
    ensures IsRun(setting, worlds, steps) && |steps| == 2
    ensures worlds[2] == Sample(0, Secret1(setting.contentOf("s")), payload, map["a" := TTL],
            map["a" := "s", "x" := "s"])
  {
    var secret := Secret0(setting.contentOf("s"));
    var w0 := World(0, State(map[], map[]), map[]);
    var w1 := Sample(0, secret, payload, map[], map["a" := "s"]);
    worlds, steps := [w0], [];
    ExtendRun(setting, worlds, steps, CreateSecret("s", secret), w1);
    worlds, steps := worlds + [w1], steps + [CreateSecret("s", secret)];
    SampleFills(setting, payload);
    var w2 := Sample(0, Secret1(setting.contentOf("s")), payload, map["a" := TTL], map["a" := "s", "x" := "s"]);
    ExtendRun(setting, worlds, steps, Reconcile(Sync(0, "x")), w2);
    worlds, steps := worlds + [w2], steps + [Reconcile(Sync(0, "x"))];
  }

  /** A rotation followed by a wait, at the end of a run. */
  lemma RotateAndWait(
      setting: Setting, worlds: seq<World>, steps: seq<Step>, now: Instant, secret: TokenSecret, payload: string,
      expiries: map<string, Instant>, owners: map<string, string>, newToken: string, until: Instant)
    returns (longer: seq<World>, more: seq<Step>)
    requires IsRun(setting, worlds, steps) && worlds[|steps|] == Sample(now, secret, payload, expiries, owners)
    requires IsOrdinary(secret) && secret.token in expiries && forall key :: key in expiries ==> expiries[key] >= now
    requires TokenNeedRotation(TimeLived(secret, now)) && newToken != "" && newToken !in owners && now <= until
    ensures IsRun(setting, longer, more) && |more| == |steps| + 2 && worlds <= longer && steps <= more
    ensures more[|steps|] == Reconcile(Sync(now, newToken)) && more[|steps| + 1] == Wait(until)
    ensures var rotated := Sample(now, Rotated(secret, newToken, now), payload,
            Left(secret, expiries)[newToken := now + TTL],
                                  owners[newToken := "s"]);
            longer[|steps| + 1] == rotated && longer[|steps| + 2] == rotated.(now := until)
  {
    var rotated := Sample(now, Rotated(secret, newToken, now), payload, Left(secret, expiries)[newToken := now + TTL],
                          owners[newToken := "s"]);
    SampleRotates(setting, now, secret, payload, expiries, owners, newToken);
    ExtendRun(setting, worlds, steps, Reconcile(Sync(now, newToken)), rotated);
    longer, more := worlds + [rotated], steps + [Reconcile(Sync(now, newToken))];
    ExtendRun(setting, longer, more, Wait(until), rotated.(now := until));
    longer, more := longer + [rotated.(now := until)], more + [Wait(until)];
  }

  // The secret after each rotation, and the expiries and owners that go with it.

  function Secret2(content: string): TokenSecret {
    Rotated(Secret1(content), "b", 0)
  }

  function Secret3(content: string): TokenSecret {
    Rotated(Secret2(content), "c", TTL / 2)
  }

  function Secret4(content: string): TokenSecret {
    Rotated(Secret3(content), "d", TTL)
  }

  const EXPIRIES1: map<string, Instant> := map["a" := TTL]
  const EXPIRIES2: map<string, Instant> := map["a" := TTL, "b" := TTL]
  const EXPIRIES3: map<string, Instant> := map["b" := TTL, "c" := TTL / 2 + TTL]
  const EXPIRIES4: map<string, Instant> := map["c" := TTL / 2 + TTL, "d" := TTL + TTL]
  const OWNERS1: map<string, string> := map["a" := "s", "x" := "s"]
  const OWNERS2: map<string, string> := OWNERS1["b" := "s"]
  const OWNERS3: map<string, string> := OWNERS2["c" := "s"]
  const OWNERS4: map<string, string> := OWNERS3["d" := "s"]

  lemma FirstFollows(content: string)
    ensures Left(Secret1(content), EXPIRIES1)["b" := 0 + TTL] == EXPIRIES2 && "b" !in OWNERS1
  {
    assert "a"[0] == 'a' && "b"[0] == 'b' && "x"[0] == 'x';
  }

  lemma SecondFollows(content: string)
    ensures Left(Secret2(content), EXPIRIES2)["c" := TTL / 2 + TTL] == EXPIRIES3 && "c" !in OWNERS2
  {
    assert "a"[0] == 'a' && "b"[0] == 'b' && "c"[0] == 'c' && "x"[0] == 'x';
  }

  lemma ThirdFollows(content: string)
    ensures Left(Secret3(content), EXPIRIES3)["d" := TTL + TTL] == EXPIRIES4 && "d" !in OWNERS3
  {
    assert "a"[0] == 'a' && "b"[0] == 'b' && "c"[0] == 'c' && "d"[0] == 'd' && "x"[0] == 'x';
  }

  /** Live since the installation by step 2, without a restart. */
  ghost predicate LiveSinceInstalled(worlds: seq<World>, steps: seq<Step>)
    requires |worlds| == |steps| + 1
  {
    && (forall k :: 2 < k <= |steps| ==> IsLive(worlds[k], "s"))
    && (forall k {:trigger steps[k]} :: 2 < k < |steps| ==> steps[k] != Restart)
  }

  lemma SampleIsLive(
      now: Instant, secret: TokenSecret, payload: string, expiries: map<string, Instant>, owners: map<string, string>)
    requires IsOrdinary(secret)
    ensures IsLive(Sample(now, secret, payload, expiries, owners), "s")
  {
  }

  lemma StaysLive(worlds: seq<World>, steps: seq<Step>, longer: seq<World>, more: seq<Step>)
    requires |worlds| == |steps| + 1 && |longer| == |more| + 1 && worlds <= longer && steps <= more
    requires |more| == |steps| + 2
    requires |steps| >= 2 && LiveSinceInstalled(worlds, steps)
    requires IsLive(longer[|steps| + 1], "s") && IsLive(longer[|steps| + 2], "s")
    requires more[|steps|] != Restart && more[|steps| + 1] != Restart
    ensures LiveSinceInstalled(longer, more)
  {
    forall k | 2 < k <= |more|
      ensures IsLive(longer[k], "s")
    {
      if k <= |steps| {
        assert longer[k] == worlds[k];
      }
    }
  }

  lemma SampleInstalls(setting: Setting, payload: string) returns (worlds: seq<World>, steps: seq<Step>)
    requires setting.provider(setting.contentOf("s")) == Built(payload)
    ensures IsRun(setting, worlds, steps) && |steps| == 4 && LiveSinceInstalled(worlds, steps)
    ensures worlds[2].now == 0 && InstallsToken(setting, worlds, steps, 2, "s", "b")
    ensures worlds[4] == Sample(TTL / 2, Secret2(setting.contentOf("s")), payload, EXPIRIES2, OWNERS2)
  {
    var content := setting.contentOf("s");
    var before, during := SampleStart(setting, payload);
    FirstFollows(content);
    worlds, steps := RotateAndWait(setting, before, during, 0, Secret1(content), payload, EXPIRIES1, OWNERS1, "b",
        TTL / 2);
    SampleIsLive(0, Secret2(content), payload, EXPIRIES2, OWNERS2);
    SampleIsLive(TTL / 2, Secret2(content), payload, EXPIRIES2, OWNERS2);
    StaysLive(before, during, worlds, steps);
  }

  lemma SampleRotatesTwice(setting: Setting, payload: string) returns (worlds: seq<World>, steps: seq<Step>)
    requires setting.provider(setting.contentOf("s")) == Built(payload)
    ensures IsRun(setting, worlds, steps) && |steps| == 6 && LiveSinceInstalled(worlds, steps)
    ensures worlds[2].now == 0 && InstallsToken(setting, worlds, steps, 2, "s", "b")
    ensures worlds[6] == Sample(TTL, Secret3(setting.contentOf("s")), payload, EXPIRIES3, OWNERS3)
  {
    var content := setting.contentOf("s");
    var before, during := SampleInstalls(setting, payload);
    SecondFollows(content);
    worlds, steps := RotateAndWait(setting, before, during, TTL / 2, Secret2(content), payload, EXPIRIES2, OWNERS2,
        "c", TTL);
    SampleIsLive(TTL / 2, Secret3(content), payload, EXPIRIES3, OWNERS3);
    SampleIsLive(TTL, Secret3(content), payload, EXPIRIES3, OWNERS3);
    StaysLive(before, during, worlds, steps);
  }

  lemma SampleDrops(content: string, payload: string)
    ensures Drops(Sample(TTL, Secret3(content), payload, EXPIRIES3, OWNERS3), Reconcile(Sync(TTL, "d")), "s", "b")
    ensures "b" !in Holding(payload, EXPIRIES4)
  {
    assert "b"[0] == 'b' && "c"[0] == 'c' && "d"[0] == 'd';
  }

  /**
    The token installed at time zero is the previous one after a rotation at half the time to live,
    and a second rotation at exactly the time to live drops it: it does not resolve at that instant.
   */
  lemma DroppedAtLastInstant(setting: Setting, payload: string) returns (worlds: seq<World>, steps: seq<Step>)
    requires setting.provider(setting.contentOf("s")) == Built(payload)
    ensures IsRun(setting, worlds, steps) && |steps| == 7 && Undisturbed(worlds, steps, 3, 7, "s")
    ensures InstallsToken(setting, worlds, steps, 2, "s", "b") && worlds[7].now == worlds[2].now + TTL
    ensures Drops(worlds[6], steps[6], "s", "b") && Lookup(worlds[7].state.store, "b", worlds[7].now).None?
  {
    var content := setting.contentOf("s");
    var before, during := SampleRotatesTwice(setting, payload);
    ThirdFollows(content);
    var last := Sample(TTL, Secret4(content), payload, EXPIRIES4, OWNERS4);
    SampleRotates(setting, TTL, Secret3(content), payload, EXPIRIES3, OWNERS3, "d");
    ExtendRun(setting, before, during, Reconcile(Sync(TTL, "d")), last);
    worlds, steps := before + [last], during + [Reconcile(Sync(TTL, "d"))];
    SampleDrops(content, payload);
    SampleIsLive(TTL, Secret4(content), payload, EXPIRIES4, OWNERS4);
    UndisturbedMeaning(worlds, steps, 3, 7, "s");
  }
}
