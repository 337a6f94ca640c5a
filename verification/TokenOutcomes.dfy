/** What one reconciliation of a live token secret comes to, case by case, in times and entries. */
module TokenOutcomes {
  import opened Common
  import opened ExpiringCaches
  import opened TokenSecrets
  import opened TokenRuns

  /** Eleven hours and half of them, in nanoseconds. */
  const LIFE: int := 39_600_000_000_000
  const HALF_LIFE: int := 19_800_000_000_000

  /** The reconciliation reads a live secret whose generation time, if any, can be read. */
  predicate IsServed(state: State, request: Request) {
    && !request.readFails && request.name in state.secrets
    && var secret := state.secrets[request.name];
       !secret.deleting && !HasLapsed(secret.expiration, request.now) && secret.generation != MalformedGeneration
  }

  predicate Resolves(store: Store, key: string, now: Instant) {
    key in store && now <= store[key].expiry
  }

  /** Never rotated, or half its life ago or longer. */
  predicate IsAged(secret: TokenSecret, now: Instant) {
    secret.generation == NeverRotated || (secret.generation.Generated? && now >= secret.generation.time + HALF_LIFE)
  }

  predicate HasOld(secret: TokenSecret, key: string) {
    secret.oldToken == Some(key)
  }

  /** Apart from these keys, exactly the unexpired entries stay, as they are. */
  ghost predicate KeepsOthers(before: Store, after: Store, touched: set<string>, now: Instant) {
    forall key :: key !in touched ==>
      && (key in after <==> Resolves(before, key, now))
      && (key in after ==> after[key] == before[key])
  }

  ghost predicate Holds(store: Store, key: string, value: CacheValue, expiry: Instant) {
    key in store && store[key] == Entry(value, expiry)
  }

  /** Success asks to come back when half the token's life has passed; half a life from now if it was never rotated. */
  lemma RequeuedAtHalfLife(provider: Provider, state: State, request: Request)
    requires IsServed(state, request) && Reconciled(provider, state, request).1.Success?
    ensures var requeue := Reconciled(provider, state, request).1.requeueAfter;
            && requeue.Some?
            && match state.secrets[request.name].generation
               case Generated(time) => request.now + requeue.value == time + HALF_LIFE
               case _ => requeue.value == HALF_LIFE
  {
  }

  /** Before half its life a token that resolves is left alone. */
  lemma YoungTokenKept(provider: Provider, state: State, request: Request)
    requires IsServed(state, request)
    requires Resolves(state.store, state.secrets[request.name].token, request.now)
    requires !IsAged(state.secrets[request.name], request.now)
    ensures var (after, result) := Reconciled(provider, state, request);
            result.Success? && after.secrets == state.secrets
            && KeepsOthers(state.store, after.store, {}, request.now)
  {
  }

  /**
    From then on it is rotated: the new token holds the payload for a whole life, the old one is
    kept as it is, the one before leaves the store.
   */
  lemma AgedTokenRotated(provider: Provider, state: State, request: Request)
    requires IsServed(state, request) && IsAged(state.secrets[request.name], request.now) && !request.patchFails
    requires Resolves(state.store, state.secrets[request.name].token, request.now)
    requires !HasOld(state.secrets[request.name], request.newToken)
    ensures var secret := state.secrets[request.name];
            var (after, result) := Reconciled(provider, state, request);
            && result.Success?
            && after.secrets == state.secrets[request.name := secret.(
                 token := request.newToken, oldToken := Some(secret.token), generation := Generated(request.now))]
            && Holds(after.store, request.newToken, state.store[secret.token].value, request.now + LIFE)
            && (forall key :: HasOld(secret, key) ==> key !in after.store)
            && KeepsOthers(state.store, after.store, {request.newToken} + OldTokens(secret), request.now)
  {
  }

  function OldTokens(secret: TokenSecret): set<string> {
    if secret.oldToken.Some? then {secret.oldToken.value} else {}
  }

  /** If the secret cannot be patched, it stays as it is, and the new token leaves the store again. */
  lemma FailedRotationUndone(provider: Provider, state: State, request: Request)
    requires IsServed(state, request) && IsAged(state.secrets[request.name], request.now) && request.patchFails
    requires Resolves(state.store, state.secrets[request.name].token, request.now)
    requires !HasOld(state.secrets[request.name], request.newToken) && request.newToken != ""
    ensures var secret := state.secrets[request.name];
            var restored := if secret.oldToken.Some? then secret.oldToken.value else "";
            var (after, result) := Reconciled(provider, state, request);
            && result.Failure? && after.secrets == state.secrets
            && request.newToken !in after.store
            && Holds(after.store, restored, state.store[secret.token].value, request.now + LIFE)
            && KeepsOthers(state.store, after.store, {request.newToken, restored}, request.now)
  {
  }

  /** A token unknown to this server, rotated by another, takes the payload over from the old one. */
  lemma OldTokenTakenOver(provider: Provider, state: State, request: Request)
    requires IsServed(state, request)
    requires !Resolves(state.store, state.secrets[request.name].token, request.now)
    requires state.secrets[request.name].oldToken.Some?
    requires Resolves(state.store, state.secrets[request.name].oldToken.value, request.now)
    ensures var secret := state.secrets[request.name];
            var (after, result) := Reconciled(provider, state, request);
            && result.Success? && after.secrets == state.secrets
            && Holds(after.store, secret.token, state.store[secret.oldToken.value].value, request.now + LIFE)
            && KeepsOthers(state.store, after.store, {secret.token}, request.now)
  {
  }

  /** Neither token resolves here. */
  predicate IsUnknown(state: State, request: Request)
    requires IsServed(state, request)
  {
    var secret := state.secrets[request.name];
    && !Resolves(state.store, secret.token, request.now)
    && (secret.oldToken.Some? ==> !Resolves(state.store, secret.oldToken.value, request.now))
  }

  /** What an upgrade in place, by replacement or of any other kind leaves under the payload key. */
  function PayloadKept(secret: TokenSecret, payload: string): Option<string> {
    if secret.upgradeType == InPlace then Some(payload)
    else if secret.upgradeType == Replace then None
    else secret.payload
  }

  /**
    If neither token resolves, the payload is generated and held under both of them for a whole
    life, whether or not the secret can then be patched.
   */
  lemma PayloadGenerated(provider: Provider, state: State, request: Request, payload: string)
    requires IsServed(state, request) && IsUnknown(state, request)
    requires provider(state.secrets[request.name].content) == Built(payload)
    ensures var secret := state.secrets[request.name];
            var (after, result) := Reconciled(provider, state, request);
            && (result.Success? <==> !request.patchFails)
            && (forall key :: key in {secret.token} + OldTokens(secret) ==>
                  Holds(after.store, key, CacheValue(payload, request.name), request.now + LIFE))
            && KeepsOthers(state.store, after.store, {secret.token} + OldTokens(secret), request.now)
            && after.secrets == if request.patchFails then state.secrets else state.secrets[request.name := secret.(
                 payload := PayloadKept(secret, payload), reason := "AsExpected",
                 message := "Payload generated successfully")]
  {
  }

  /** If it cannot be generated, the secret says why, and nothing is stored. */
  lemma FailureReported(provider: Provider, state: State, request: Request, message: string)
    requires IsServed(state, request) && IsUnknown(state, request)
    requires provider(state.secrets[request.name].content) == Failed(message)
    ensures var secret := state.secrets[request.name];
            var (after, result) := Reconciled(provider, state, request);
            && result.Failure? && KeepsOthers(state.store, after.store, {}, request.now)
            && after.secrets == if request.patchFails then state.secrets else state.secrets[request.name := secret.(
                 reason := "InvalidConfig", message := message)]
  {
  }

  /** A secret that cannot be read, or whose generation time cannot be, is left alone with an error. */
  lemma UnreadableLeftAlone(provider: Provider, state: State, request: Request)
    requires || request.readFails
             || (request.name in state.secrets && state.secrets[request.name].generation == MalformedGeneration
                 && !state.secrets[request.name].deleting
                 && !HasLapsed(state.secrets[request.name].expiration, request.now))
    ensures Reconciled(provider, state, request) == (state, Failure)
  {
  }
}
