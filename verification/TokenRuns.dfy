/**
  Runs of the ignition server: reconciliations of many token secrets, rotations by another
  replica, secrets created and deleted, restarts, and time passing.
 */
module TokenRuns {
  import opened Common
  import opened ExpiringCaches
  import opened TokenSecrets

  /**
    The whole system. `owners` remembers every token ever issued and the secret it was issued for;
    the content of a secret is fixed by its name.
   */
  datatype World = World(now: Instant, state: State, owners: map<string, string>)

  datatype Setting = Setting(provider: Provider, contentOf: string -> string)

  datatype Step =
    | Reconcile(request: Request)
    | OtherReplicaRotates(name: string, newToken: string)
    | CreateSecret(name: string, secret: TokenSecret)
    | DeleteSecret(name: string)
    | SetExpiration(name: string, expiration: Expiration)
    | Restart
    | Wait(until: Instant)

  /** A token that was never issued before. */
  predicate IsFresh(world: World, token: string) {
    token != "" && token !in world.owners
  }

  ghost predicate Next(setting: Setting, before: World, step: Step, after: World) {
    match step
    case Reconcile(request) =>
      && request.now == before.now == after.now
      && IsFresh(before, request.newToken)
      && after.state == Reconciled(setting.provider, before.state, request).0
      && after.owners == before.owners[request.newToken := request.name]
    case OtherReplicaRotates(name, newToken) =>
      && after.now == before.now
      && name in before.state.secrets && IsFresh(before, newToken)
      && var secret := before.state.secrets[name];
      && !secret.generation.MalformedGeneration?
      && TokenNeedRotation(TimeLived(secret, before.now))
      && after.state == State(before.state.secrets[name := Rotated(secret, newToken, before.now)], before.state.store)
      && after.owners == before.owners[newToken := name]
    case CreateSecret(name, secret) =>
      && after.now == before.now
      && name !in before.state.secrets && IsFresh(before, secret.token)
      && secret.content == setting.contentOf(name) && secret.oldToken.None?
      && (secret.generation.Generated? ==> secret.generation.time <= before.now)
      && after.state == State(before.state.secrets[name := secret], before.state.store)
      && after.owners == before.owners[secret.token := name]
    case DeleteSecret(name) =>
      && after.now == before.now && after.owners == before.owners
      && name in before.state.secrets
      && (|| after.state == State(before.state.secrets - {name}, before.state.store)
          || after.state == State(before.state.secrets[name := before.state.secrets[name].(deleting := true)],
              before.state.store))
    case SetExpiration(name, expiration) =>
      && after.now == before.now && after.owners == before.owners
      && name in before.state.secrets
      && after.state == State(before.state.secrets[name := before.state.secrets[name].(expiration := expiration)],
          before.state.store)
    case Restart => after == before.(state := before.state.(store := map[]))
    case Wait(until) => before.now <= until && after == before.(now := until)
  }

  ghost predicate IsRun(setting: Setting, worlds: seq<World>, steps: seq<Step>) {
    && |worlds| == |steps| + 1
    && worlds[0].state == State(map[], map[]) && worlds[0].owners == map[]
    && forall i {:trigger steps[i]} :: 0 <= i < |steps| ==> Next(setting, worlds[i], steps[i], worlds[i + 1])
  }

  // ---- every stored payload is the right one ----

  ghost predicate SecretOwnsTokens(
      setting: Setting, now: Instant, owners: map<string, string>, name: string, secret: TokenSecret)
  {
    && secret.content == setting.contentOf(name)
    && secret.token != "" && secret.token in owners && owners[secret.token] == name
    && (secret.oldToken.Some? ==>
          && secret.oldToken.value != "" && secret.oldToken.value != secret.token
          && secret.oldToken.value in owners && owners[secret.oldToken.value] == name)
    && (secret.generation.Generated? ==> secret.generation.time <= now)
  }

  ghost predicate SecretsOwnTokens(
      setting: Setting, now: Instant, owners: map<string, string>, secrets: map<string, TokenSecret>)
  {
    forall name :: name in secrets ==> SecretOwnsTokens(setting, now, owners, name, secrets[name])
  }

  /** An entry belongs to the secret its key was issued for and holds that secret's payload. */
  ghost predicate EntryIsRight(setting: Setting, owners: map<string, string>, key: string, value: CacheValue) {
    && setting.provider(setting.contentOf(value.secretName)) == Built(value.payload)
    && (key != "" ==> key in owners && owners[key] == value.secretName)
  }

  ghost predicate StoreIsRight(setting: Setting, owners: map<string, string>, store: Store) {
    forall key :: key in store ==> EntryIsRight(setting, owners, key, store[key].value)
  }

  ghost predicate Invariant(setting: Setting, world: World) {
    && "" !in world.owners
    && SecretsOwnTokens(setting, world.now, world.owners, world.state.secrets)
    && StoreIsRight(setting, world.owners, world.state.store)
  }

  lemma SetKeepsStoreRight(
      setting: Setting, owners: map<string, string>, store: Store, key: string, value: CacheValue, now: Instant)
    requires StoreIsRight(setting, owners, store) && EntryIsRight(setting, owners, key, value)
    ensures StoreIsRight(setting, owners, Stored(store, TTL, key, value, now))
  {
  }

  lemma IssueKeeps(setting: Setting, world: World, token: string, name: string)
    requires Invariant(setting, world) && IsFresh(world, token)
    ensures Invariant(setting, world.(owners := world.owners[token := name]))
  {
    var owners := world.owners[token := name];
    forall other | other in world.state.secrets
      ensures SecretOwnsTokens(setting, world.now, owners, other, world.state.secrets[other])
    {
      assert SecretOwnsTokens(setting, world.now, world.owners, other, world.state.secrets[other]);
    }
    forall key | key in world.state.store
      ensures EntryIsRight(setting, owners, key, world.state.store[key].value)
    {
      assert EntryIsRight(setting, world.owners, key, world.state.store[key].value);
    }
  }

  lemma RotateKeeps(setting: Setting, world: World, request: Request, secret: TokenSecret, value: CacheValue)
    requires Invariant(setting, world) && request.now == world.now
    requires request.name in world.state.secrets && world.state.secrets[request.name] == secret
    requires request.newToken in world.owners && world.owners[request.newToken] == request.name
    requires request.newToken != "" && request.newToken != secret.token
    requires EntryIsRight(setting, world.owners, secret.token, value)
    ensures Invariant(setting, world.(state := Rotate(world.state, request, secret, value).0))
  {
    assert SecretOwnsTokens(setting, world.now, world.owners, request.name, secret);
    var without := WithoutOldToken(world.state.store, secret);
    assert StoreIsRight(setting, world.owners, without);
    SetKeepsStoreRight(setting, world.owners, without, request.newToken, value, request.now);
    var store := Stored(without, TTL, request.newToken, value, request.now);
    SetKeepsStoreRight(setting, world.owners, Removed(store, request.newToken), OldTokenKey(secret), value,
        request.now);
  }

  lemma FillKeeps(setting: Setting, world: World, request: Request, secret: TokenSecret, payload: string)
    requires Invariant(setting, world)
    requires request.name in world.state.secrets && world.state.secrets[request.name] == secret
    requires setting.provider(secret.content) == Built(payload)
    ensures Invariant(setting, world.(state := Fill(world.state, request, secret, payload).0))
  {
    assert SecretOwnsTokens(setting, world.now, world.owners, request.name, secret);
    var value := CacheValue(payload, request.name);
    SetKeepsStoreRight(setting, world.owners, world.state.store, secret.token, value, request.now);
    if secret.oldToken.Some? {
      var withToken := Stored(world.state.store, TTL, secret.token, value, request.now);
      SetKeepsStoreRight(setting, world.owners, withToken, secret.oldToken.value, value, request.now);
    }
  }

  lemma ServeKeeps(setting: Setting, world: World, request: Request, secret: TokenSecret)
    requires Invariant(setting, world) && request.now == world.now
    requires request.name in world.state.secrets && world.state.secrets[request.name] == secret
    requires request.newToken in world.owners && world.owners[request.newToken] == request.name
    requires request.newToken != "" && request.newToken != secret.token
    ensures Invariant(setting, world.(state := Serve(setting.provider, world.state, request, secret).0))
  {
    assert SecretOwnsTokens(setting, world.now, world.owners, request.name, secret);
    var store := world.state.store;
    var collected := world.(state := world.state.(store := Collected(store, request.now)));
    var hit := Lookup(store, secret.token, request.now);
    if secret.generation.MalformedGeneration? {
    } else if hit.Some? {
      assert EntryIsRight(setting, world.owners, secret.token, hit.value);
      RotateKeeps(setting, collected, request, secret, hit.value);
    } else {
      var oldHit := if secret.oldToken.Some? then Lookup(store, secret.oldToken.value, request.now) else None;
      if oldHit.Some? {
        assert EntryIsRight(setting, world.owners, secret.oldToken.value, oldHit.value);
        SetKeepsStoreRight(setting, world.owners, collected.state.store, secret.token, oldHit.value, request.now);
      } else if setting.provider(secret.content).Built? {
        FillKeeps(setting, collected, request, secret, setting.provider(secret.content).payload);
      }
    }
  }

  lemma ReconcileKeeps(setting: Setting, before: World, request: Request, after: World)
    requires Invariant(setting, before) && Next(setting, before, Reconcile(request), after)
    ensures Invariant(setting, after)
  {
    IssueKeeps(setting, before, request.newToken, request.name);
    var issued := before.(owners := after.owners);
    if request.readFails || request.name !in before.state.secrets || before.state.secrets[request.name].deleting {
    } else {
      var secret := before.state.secrets[request.name];
      assert SecretOwnsTokens(setting, before.now, before.owners, request.name, secret);
      if !IsTokenExpired(secret, request.now) {
        ServeKeeps(setting, issued, request, secret);
      }
    }
  }

  lemma StepKeeps(setting: Setting, before: World, step: Step, after: World)
    requires Invariant(setting, before) && Next(setting, before, step, after)
    ensures Invariant(setting, after)
  {
    match step
    case Reconcile(request) =>
      ReconcileKeeps(setting, before, request, after);
    case OtherReplicaRotates(name, newToken) =>
      IssueKeeps(setting, before, newToken, name);
      assert SecretOwnsTokens(setting, before.now, before.owners, name, before.state.secrets[name]);
    case CreateSecret(name, secret) =>
      IssueKeeps(setting, before, secret.token, name);
    case DeleteSecret(name) =>
      assert SecretOwnsTokens(setting, before.now, before.owners, name, before.state.secrets[name]);
    case SetExpiration(name, expiration) =>
      assert SecretOwnsTokens(setting, before.now, before.owners, name, before.state.secrets[name]);
    case Restart =>
    case Wait(until) =>
  }

  lemma {:induction false} RunKeeps(setting: Setting, worlds: seq<World>, steps: seq<Step>, i: nat)
    requires IsRun(setting, worlds, steps) && i < |worlds|
    ensures Invariant(setting, worlds[i])
  {
    if i == 0 {
    } else {
      RunKeeps(setting, worlds, steps, i - 1);
      assert Next(setting, worlds[i - 1], steps[i - 1], worlds[i]);
      StepKeeps(setting, worlds[i - 1], steps[i - 1], worlds[i]);
    }
  }

  /** In every reachable state, an entry tagged with a secret holds the provider's payload for it. */
  lemma StoredPayloadsAreRight(setting: Setting, worlds: seq<World>, steps: seq<Step>, i: nat, key: string)
    requires IsRun(setting, worlds, steps) && i < |worlds| && key in worlds[i].state.store
    ensures var value := worlds[i].state.store[key].value;
            setting.provider(setting.contentOf(value.secretName)) == Built(value.payload)
  {
    RunKeeps(setting, worlds, steps, i);
    assert EntryIsRight(setting, worlds[i].owners, key, worlds[i].state.store[key].value);
  }

  /**
    After a reconciliation of a live, unexpired secret that reports no error, the secret's current
    token, rotated or not, resolves to the payload of that very secret.
   */
  lemma SuccessfulReconcileServesToken(setting: Setting, worlds: seq<World>, steps: seq<Step>, i: nat)
    requires IsRun(setting, worlds, steps) && i < |steps| && steps[i].Reconcile?
    requires var request := steps[i].request;
             && IsLive(worlds[i], request.name)
             && Reconciled(setting.provider, worlds[i].state, request).1.Success?
    ensures var name := steps[i].request.name;
            var after := worlds[i + 1];
            && name in after.state.secrets
            && var found := Lookup(after.state.store, after.state.secrets[name].token, after.now);
               found.Some? && found.value.secretName == name
               && setting.provider(setting.contentOf(name)) == Built(found.value.payload)
  {
    RunKeeps(setting, worlds, steps, i);
    assert Next(setting, worlds[i], steps[i], worlds[i + 1]);
    StepKeeps(setting, worlds[i], steps[i], worlds[i + 1]);
    var request := steps[i].request;
    var secret := worlds[i].state.secrets[request.name];
    assert SecretOwnsTokens(setting, worlds[i].now, worlds[i].owners, request.name, secret);
    ServedTokenIsStored(setting.provider, worlds[i].state, request, secret);
    var after := worlds[i + 1].state;
    var token := after.secrets[request.name].token;
    assert SecretOwnsTokens(setting, worlds[i + 1].now, worlds[i + 1].owners, request.name,
        after.secrets[request.name]);
    assert EntryIsRight(setting, worlds[i + 1].owners, token, after.store[token].value);
  }

  lemma ServedTokenIsStored(provider: Provider, state: State, request: Request, secret: TokenSecret)
    requires request.name in state.secrets && state.secrets[request.name] == secret
    requires secret.oldToken.Some? ==> secret.oldToken.value != secret.token
    requires Serve(provider, state, request, secret).1.Success?
    ensures var after := Serve(provider, state, request, secret).0;
            request.name in after.secrets
            && Lookup(after.store, after.secrets[request.name].token, request.now).Some?
  {
  }

  // ---- reconciling an expired secret ----

  /** The annotation is there and its time is in the past or cannot be read. */
  predicate HasLapsed(expiration: Expiration, now: Instant) {
    expiration == MalformedExpiration || (expiration.ExpiresAt? && now > expiration.time)
  }

  /**
    Reconciling a secret that is not being deleted removes it exactly if its expiration has lapsed.
    Then both its tokens leave the store, whether or not the deletion succeeds, and nothing else does.
   */
  lemma RemovedExactlyWhenLapsed(provider: Provider, state: State, request: Request)
    requires !request.readFails && request.name in state.secrets && !state.secrets[request.name].deleting
    ensures var secret := state.secrets[request.name];
            var (after, result) := Reconciled(provider, state, request);
            && (request.name !in after.secrets <==> HasLapsed(secret.expiration, request.now) && !request.deleteFails)
            && (HasLapsed(secret.expiration, request.now) ==>
                  && (result == if request.deleteFails then Failure else Success(None))
                  && (forall key :: key in after.store <==>
                        key in state.store && key != secret.token && secret.oldToken != Some(key))
                  && (forall key :: key in after.store ==> after.store[key] == state.store[key])
                  && (forall name :: name in after.secrets ==>
                        name in state.secrets && after.secrets[name] == state.secrets[name])
                  && (forall name :: name in state.secrets && name != request.name ==> name in after.secrets))
  {
  }

  // ---- reconciling a missing secret ----

  /** A missing or deleting secret loses all its entries; other secrets' unexpired entries stay. */
  lemma MissingSecretIsPurged(provider: Provider, state: State, request: Request, key: string)
    requires !request.readFails
    requires request.name !in state.secrets || state.secrets[request.name].deleting
    ensures var after := Reconciled(provider, state, request).0;
            && after.secrets == state.secrets
            && (key in after.store <==>
                  key in state.store && request.now <= state.store[key].expiry
                  && state.store[key].value.secretName != request.name)
            && (key in after.store ==> after.store[key] == state.store[key])
  {
  }

  // ---- how long a token resolves ----

  /** The secret is still there, is not being deleted, and has no expiration or one still to come. */
  predicate IsLive(world: World, name: string) {
    && name in world.state.secrets
    && !world.state.secrets[name].deleting
    && !HasLapsed(world.state.secrets[name].expiration, world.now)
  }

  /** This step rotates the secret's previous token out of the secret and the store. */
  predicate Drops(world: World, step: Step, name: string, token: string) {
    && step.Reconcile? && step.request.name == name
    && !step.request.readFails && !step.request.patchFails
    && IsLive(world, name)
    && var secret := world.state.secrets[name];
    && secret.oldToken == Some(token)
    && !secret.generation.MalformedGeneration? && TokenNeedRotation(TimeLived(secret, world.now))
    && Lookup(world.state.store, secret.token, world.now).Some?
  }

  /** Where a token installed at `installed` can be: current, previous, or rotated out at the last instant. */
  predicate IsPlaced(secret: TokenSecret, token: string, installed: Instant) {
    && secret.generation.Generated?
    && (|| (secret.token == token && secret.generation.time == installed)
        || (secret.oldToken == Some(token) && secret.generation.time >= installed + TTL / 2)
        || IsRotatedOut(secret, token, installed))
  }

  predicate IsRotatedOut(secret: TokenSecret, token: string, installed: Instant) {
    && secret.token != token && secret.oldToken != Some(token)
    && secret.generation.Generated? && secret.generation.time >= installed + TTL
  }

  /** What holds of an installed token until its time to live has passed, dropped or not. */
  ghost predicate Standing(world: World, name: string, token: string, installed: Instant, dropped: bool) {
    && installed <= world.now
    && name in world.state.secrets
    && token != "" && token in world.owners && world.owners[token] == name
    && (world.now <= installed + TTL ==>
          var secret := world.state.secrets[name];
          && IsPlaced(secret, token, installed)
          && if dropped then IsRotatedOut(secret, token, installed) && token !in world.state.store
             else token in world.state.store && world.state.store[token].expiry >= installed + TTL)
  }

  /** A reconciliation of the secret itself, once it comes to a rotation. */
  lemma RotationStanding(
    setting: Setting, before: World, request: Request, token: string, installed: Instant, dropped: bool, after: World)
    requires Invariant(setting, before) && Standing(before, request.name, token, installed, dropped)
    requires IsLive(before, request.name) && !request.readFails
    requires request.now == before.now == after.now && IsFresh(before, request.newToken)
    requires var secret := before.state.secrets[request.name];
             var hit := Lookup(before.state.store, secret.token, request.now);
             && hit.Some?
             && !secret.generation.MalformedGeneration?
             && TokenNeedRotation(TimeLived(secret, request.now))
             && after.state == Rotate(before.state.(store := Collected(before.state.store, request.now)), request,
                 secret, hit.value).0
    requires after.owners == before.owners[request.newToken := request.name]
    ensures Standing(after, request.name, token, installed, dropped
            || Drops(before, Reconcile(request), request.name, token))
  {
    var secret := before.state.secrets[request.name];
    assert SecretOwnsTokens(setting, before.now, before.owners, request.name, secret);
  }

  lemma OwnReconcileStanding(
    setting: Setting, before: World, request: Request, token: string, installed: Instant, dropped: bool, after: World)
    requires Invariant(setting, before) && Standing(before, request.name, token, installed, dropped)
    requires IsLive(before, request.name) && Next(setting, before, Reconcile(request), after)
    ensures Standing(after, request.name, token, installed, dropped
            || Drops(before, Reconcile(request), request.name, token))
  {
    var secret := before.state.secrets[request.name];
    assert SecretOwnsTokens(setting, before.now, before.owners, request.name, secret);
    var hit := Lookup(before.state.store, secret.token, request.now);
    if !request.readFails && !secret.generation.MalformedGeneration? && hit.Some?
       && TokenNeedRotation(TimeLived(secret, request.now)) {
      RotationStanding(setting, before, request, token, installed, dropped, after);
    }
  }

  /** Under a key that is no token of the reconciled secret, an unexpired or absent entry is left alone. */
  lemma ForeignEntryUntouched(provider: Provider, state: State, request: Request, key: string)
    requires key in state.store ==>
             !Expired(state.store[key], request.now) && state.store[key].value.secretName != request.name
    requires key != "" && key != request.newToken
    requires request.name in state.secrets ==>
               key != state.secrets[request.name].token && state.secrets[request.name].oldToken != Some(key)
    ensures var after := Reconciled(provider, state, request).0;
            (key in after.store <==> key in state.store)
                && (key in state.store ==> after.store[key] == state.store[key])
  {
  }

  /** Reconciling one secret changes no other. */
  lemma ForeignSecretUntouched(provider: Provider, state: State, request: Request, name: string)
    requires name != request.name
    ensures var after := Reconciled(provider, state, request).0;
            (name in after.secrets <==> name in state.secrets)
            && (name in state.secrets ==> after.secrets[name] == state.secrets[name])
  {
  }

  lemma OtherReconcileStanding(
    setting: Setting, before: World, request: Request, name: string, token: string, installed: Instant, dropped: bool,
    after: World)
    requires Invariant(setting, before) && Standing(before, name, token, installed, dropped)
    requires request.name != name && Next(setting, before, Reconcile(request), after)
    ensures Standing(after, name, token, installed, dropped)
  {
    var state := before.state;
    ForeignSecretUntouched(setting.provider, state, request, name);
    if request.name in state.secrets {
      assert SecretOwnsTokens(setting, before.now, before.owners, request.name, state.secrets[request.name]);
    }
    if before.now <= installed + TTL {
      if token in state.store {
        assert EntryIsRight(setting, before.owners, token, state.store[token].value);
      }
      ForeignEntryUntouched(setting.provider, state, request, token);
    }
  }

  lemma StepStanding(
    setting: Setting, before: World, step: Step, name: string, token: string, installed: Instant, dropped: bool,
    after: World)
    requires Invariant(setting, before) && Standing(before, name, token, installed, dropped)
    requires Next(setting, before, step, after) && IsLive(before, name) && name in after.state.secrets
    requires step != Restart
    ensures Standing(after, name, token, installed, dropped || Drops(before, step, name, token))
  {
    match step
    case Reconcile(request) =>
      if request.name == name {
        OwnReconcileStanding(setting, before, request, token, installed, dropped, after);
      } else {
        OtherReconcileStanding(setting, before, request, name, token, installed, dropped, after);
      }
    case OtherReplicaRotates(other, newToken) =>
      assert SecretOwnsTokens(setting, before.now, before.owners, name, before.state.secrets[name]);
    case _ =>
  }

  /** Step i reconciles the secret, rotates its token and gets the patch through. */
  ghost predicate InstallsToken(
      setting: Setting, worlds: seq<World>, steps: seq<Step>, i: nat, name: string, token: string)
    requires |worlds| == |steps| + 1 && i < |steps|
  {
    && steps[i].Reconcile? && steps[i].request.name == name && steps[i].request.newToken == token
    && name in worlds[i + 1].state.secrets
    && worlds[i + 1].state.secrets[name].token == token
  }

  lemma InstalledStands(setting: Setting, worlds: seq<World>, steps: seq<Step>, i: nat, name: string, token: string)
    requires IsRun(setting, worlds, steps) && i < |steps| && InstallsToken(setting, worlds, steps, i, name, token)
    ensures Standing(worlds[i + 1], name, token, worlds[i].now, false)
  {
    RunKeeps(setting, worlds, steps, i);
    assert Next(setting, worlds[i], steps[i], worlds[i + 1]);
    var secret := worlds[i].state.secrets[name];
    assert SecretOwnsTokens(setting, worlds[i].now, worlds[i].owners, name, secret);
  }

  /** Some step from i up to j drops the token. */
  predicate DropsBetween(worlds: seq<World>, steps: seq<Step>, i: nat, j: nat, name: string, token: string)
    requires |worlds| == |steps| + 1 && j < |worlds|
  {
    i < j && (Drops(worlds[j - 1], steps[j - 1], name, token) || DropsBetween(worlds, steps, i, j - 1, name, token))
  }

  lemma {:induction false} DropsBetweenMeaning(
      worlds: seq<World>, steps: seq<Step>, i: nat, j: nat, name: string, token: string)
    requires |worlds| == |steps| + 1 && j < |worlds|
    ensures DropsBetween(worlds, steps, i, j, name, token) <==>
            exists k :: i <= k < j && Drops(worlds[k], steps[k], name, token)
  {
    if i < j {
      DropsBetweenMeaning(worlds, steps, i, j - 1, name, token);
    }
  }

  lemma RunStepStanding(
    setting: Setting, worlds: seq<World>, steps: seq<Step>, j: nat, name: string, token: string, installed: Instant,
    dropped: bool)
    requires IsRun(setting, worlds, steps) && j < |steps| && steps[j] != Restart
    requires IsLive(worlds[j], name) && IsLive(worlds[j + 1], name)
    requires Standing(worlds[j], name, token, installed, dropped)
    ensures Standing(worlds[j + 1], name, token, installed, dropped || Drops(worlds[j], steps[j], name, token))
  {
    RunKeeps(setting, worlds, steps, j);
    assert Next(setting, worlds[j], steps[j], worlds[j + 1]);
    StepStanding(setting, worlds[j], steps[j], name, token, installed, dropped, worlds[j + 1]);
  }

  /** From i to j the secret is live and the server is not restarted. */
  predicate Undisturbed(worlds: seq<World>, steps: seq<Step>, i: nat, j: nat, name: string)
    requires |worlds| == |steps| + 1 && j < |worlds|
  {
    IsLive(worlds[j], name) && (i < j ==> steps[j - 1] != Restart && Undisturbed(worlds, steps, i, j - 1, name))
  }

  lemma {:induction false} UndisturbedMeaning(worlds: seq<World>, steps: seq<Step>, i: nat, j: nat, name: string)
    requires |worlds| == |steps| + 1 && i <= j < |worlds|
    ensures Undisturbed(worlds, steps, i, j, name) <==>
            && (forall k :: i <= k <= j ==> IsLive(worlds[k], name))
            && (forall k {:trigger steps[k]} :: i <= k < j ==> steps[k] != Restart)
  {
    if i < j {
      UndisturbedMeaning(worlds, steps, i, j - 1, name);
      assert steps[j - 1] == steps[j - 1];
    }
  }

  lemma {:induction false} KeepsStanding(
    setting: Setting, worlds: seq<World>, steps: seq<Step>, i: nat, j: nat, name: string, token: string,
    installed: Instant)
    requires IsRun(setting, worlds, steps) && i <= j < |worlds| && Standing(worlds[i], name, token, installed, false)
    requires Undisturbed(worlds, steps, i, j, name)
    ensures Standing(worlds[j], name, token, installed, DropsBetween(worlds, steps, i, j, name, token))
    decreases j
  {
    if i == j {
    } else {
      KeepsStanding(setting, worlds, steps, i, j - 1, name, token, installed);
      RunStepStanding(setting, worlds, steps, j - 1, name, token, installed,
          DropsBetween(worlds, steps, i, j - 1, name, token));
    }
  }

  lemma InstalledKeepsStanding(
    setting: Setting, worlds: seq<World>, steps: seq<Step>, i: nat, j: nat, name: string, token: string)
    requires IsRun(setting, worlds, steps) && i < j < |worlds| && InstallsToken(setting, worlds, steps, i, name, token)
    requires Undisturbed(worlds, steps, i + 1, j, name)
    ensures Invariant(setting, worlds[j])
    ensures Standing(worlds[j], name, token, worlds[i].now, DropsBetween(worlds, steps, i + 1, j, name, token))
  {
    InstalledStands(setting, worlds, steps, i, name, token);
    KeepsStanding(setting, worlds, steps, i + 1, j, name, token, worlds[i].now);
    RunKeeps(setting, worlds, steps, j);
  }

  lemma StandingResolves(
    setting: Setting, world: World, name: string, token: string, installed: Instant, dropped: bool)
    requires Invariant(setting, world) && Standing(world, name, token, installed, dropped)
    requires world.now <= installed + TTL
    ensures var found := Lookup(world.state.store, token, world.now);
            && (found.Some? <==> !dropped)
            && (found.Some? ==>
                  found.value.secretName == name
                      && setting.provider(setting.contentOf(name)) == Built(found.value.payload))
    ensures world.now < installed + TTL ==> !dropped
  {
    assert SecretOwnsTokens(setting, world.now, world.owners, name, world.state.secrets[name]);
    if token in world.state.store {
      assert EntryIsRight(setting, world.owners, token, world.state.store[token].value);
    }
  }

  /**
    A token installed by a successful rotation resolves to its secret's payload over every run of
    later rotations (here or on another replica), failed patches, reads and collections, while the
    secret is live and the server is not restarted: at every instant before its time to live has
    passed, and at the last instant itself exactly if no reconciliation has dropped it.
   */
  lemma InstalledTokenResolves(
    setting: Setting, worlds: seq<World>, steps: seq<Step>, i: nat, j: nat, name: string, token: string)
    requires IsRun(setting, worlds, steps) && i < j < |worlds| && InstallsToken(setting, worlds, steps, i, name, token)
    requires Undisturbed(worlds, steps, i + 1, j, name) && worlds[j].now <= worlds[i].now + TTL
    ensures var found := Lookup(worlds[j].state.store, token, worlds[j].now);
            && (found.Some? <==> !DropsBetween(worlds, steps, i + 1, j, name, token))
            && (found.Some? ==>
                  found.value.secretName == name
                      && setting.provider(setting.contentOf(name)) == Built(found.value.payload))
    ensures worlds[j].now < worlds[i].now + TTL ==> !DropsBetween(worlds, steps, i + 1, j, name, token)
  {
    InstalledKeepsStanding(setting, worlds, steps, i, j, name, token);
    StandingResolves(setting, worlds[j], name, token, worlds[i].now,
        DropsBetween(worlds, steps, i + 1, j, name, token));
  }

  // ---- tokens that are gone ----

  /** The token was issued, and neither a secret nor the store has it any more. */
  ghost predicate IsRetired(world: World, token: string) {
    && token != "" && token in world.owners && token !in world.state.store
    && forall name :: name in world.state.secrets ==>
         world.state.secrets[name].token != token && world.state.secrets[name].oldToken != Some(token)
  }

  lemma RetiredStays(setting: Setting, before: World, step: Step, token: string, after: World)
    requires Invariant(setting, before) && Next(setting, before, step, after) && IsRetired(before, token)
    ensures IsRetired(after, token)
  {
    if step.Reconcile? {
      ForeignEntryUntouched(setting.provider, before.state, step.request, token);
      OwnSecretUnlessRotated(setting.provider, before.state, step.request);
      forall name | name in after.state.secrets
        ensures after.state.secrets[name].token != token && after.state.secrets[name].oldToken != Some(token)
      {
        if name != step.request.name {
          ForeignSecretUntouched(setting.provider, before.state, step.request, name);
        }
      }
    }
  }

  /** A reconciled secret keeps its tokens or moves on to the new one. */
  lemma OwnSecretUnlessRotated(provider: Provider, state: State, request: Request)
    ensures var after := Reconciled(provider, state, request).0;
            request.name in after.secrets ==>
            && request.name in state.secrets
            && var was, now := state.secrets[request.name], after.secrets[request.name];
               || (now.token == was.token && now.oldToken == was.oldToken)
               || (now.token == request.newToken && now.oldToken == Some(was.token))
  {
  }

  lemma {:induction false} StaysRetired(
      setting: Setting, worlds: seq<World>, steps: seq<Step>, i: nat, j: nat, token: string)
    requires IsRun(setting, worlds, steps) && i <= j < |worlds| && IsRetired(worlds[i], token)
    ensures IsRetired(worlds[j], token)
  {
    if i < j {
      StaysRetired(setting, worlds, steps, i, j - 1, token);
      RunKeeps(setting, worlds, steps, j - 1);
      assert Next(setting, worlds[j - 1], steps[j - 1], worlds[j]);
      RetiredStays(setting, worlds[j - 1], steps[j - 1], token, worlds[j]);
    }
  }

  /** The step reconciles a secret that is gone, or one that has lapsed and is deleted. */
  ghost predicate Retires(world: World, step: Step, token: string) {
    && step.Reconcile? && !step.request.readFails
    && token in world.owners && world.owners[token] == step.request.name
    && (step.request.name in world.state.secrets ==>
          && !world.state.secrets[step.request.name].deleting && !step.request.deleteFails
          && HasLapsed(world.state.secrets[step.request.name].expiration, world.now)
          && (|| world.state.secrets[step.request.name].token == token
              || world.state.secrets[step.request.name].oldToken == Some(token)))
  }

  lemma RetiringStep(setting: Setting, before: World, step: Step, token: string, after: World)
    requires Invariant(setting, before) && Next(setting, before, step, after) && Retires(before, step, token)
    ensures IsRetired(after, token)
  {
    var request := step.request;
    forall name | name in before.state.secrets && name != request.name
      ensures before.state.secrets[name].token != token && before.state.secrets[name].oldToken != Some(token)
    {
      assert SecretOwnsTokens(setting, before.now, before.owners, name, before.state.secrets[name]);
    }
    if request.name in before.state.secrets {
      RemovedExactlyWhenLapsed(setting.provider, before.state, request);
    } else {
      MissingSecretIsPurged(setting.provider, before.state, request, token);
      if token in before.state.store {
        assert EntryIsRight(setting, before.owners, token, before.state.store[token].value);
      }
    }
  }

  /** Once a lapsed or missing secret has been reconciled, its tokens never resolve again. */
  lemma RetiredNeverResolves(setting: Setting, worlds: seq<World>, steps: seq<Step>, i: nat, j: nat, token: string)
    requires IsRun(setting, worlds, steps) && i < j < |worlds| && Retires(worlds[i], steps[i], token)
    ensures Lookup(worlds[j].state.store, token, worlds[j].now).None?
  {
    RunKeeps(setting, worlds, steps, i);
    assert Next(setting, worlds[i], steps[i], worlds[i + 1]);
    RetiringStep(setting, worlds[i], steps[i], token, worlds[i + 1]);
    StaysRetired(setting, worlds, steps, i + 1, j, token);
  }
}
