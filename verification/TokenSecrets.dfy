/**
  Token secrets and their reconciler: each sync looks the secret's token up in the payload store,
  rotates it when half the time to live has passed, and otherwise fills the store.
 */
module TokenSecrets {
  import opened Common
  import opened ExpiringCaches

  /** Eleven hours, in nanoseconds. */
  const TTL: int := 11 * 3600 * 1_000_000_000

  datatype Generation = NeverRotated | MalformedGeneration | Generated(time: Instant)

  datatype Expiration = NoExpiration | MalformedExpiration | ExpiresAt(time: Instant)

  datatype UpgradeType = InPlace | Replace | OtherUpgrade

  /** `content` stands for the release, config and hashes the payload is made from. */
  datatype TokenSecret = TokenSecret(
    content: string,
    token: string,
    oldToken: Option<string>,
    generation: Generation,
    expiration: Expiration,
    deleting: bool,
    upgradeType: UpgradeType,
    payload: Option<string>,
    reason: string,
    message: string)

  /** What the ignition provider makes of a content; failures carry their message. */
  datatype Payload = Failed(message: string) | Built(payload: string)

  type Provider = string -> Payload

  /** The API server's secrets and the server's own payload store. */
  datatype State = State(secrets: map<string, TokenSecret>, store: Store)

  datatype Request = Request(
    name: string,
    now: Instant,
    newToken: string,
    readFails: bool,
    patchFails: bool,
    deleteFails: bool)

  datatype Result = Failure | Success(requeueAfter: Option<int>)

  // ---- pure parts of the source ----

  predicate IsTokenExpired(secret: TokenSecret, now: Instant) {
    match secret.expiration
    case NoExpiration => false
    case MalformedExpiration => true
    case ExpiresAt(time) => now > time
  }

  function TimeLived(secret: TokenSecret, now: Instant): Option<int> {
    if secret.generation.Generated? then Some(now - secret.generation.time) else None
  }

  predicate TokenNeedRotation(timeLived: Option<int>) {
    timeLived.None? || timeLived.value >= TTL / 2
  }

  function RequeueAfter(timeLived: Option<int>): Option<int> {
    Some(TTL / 2 - (if timeLived.None? then 0 else timeLived.value))
  }

  const INVALID_CONFIG := "InvalidConfig"
  const AS_EXPECTED := "AsExpected"
  const GENERATED_MESSAGE := "Payload generated successfully"

  // ---- the reconciliation as a function of the state ----

  /** A missing old token is the empty string, as converting absent data to a string makes it. */
  function OldTokenKey(secret: TokenSecret): string {
    if secret.oldToken.Some? then secret.oldToken.value else ""
  }

  function WithoutOldToken(store: Store, secret: TokenSecret): Store {
    if secret.oldToken.Some? then Removed(store, secret.oldToken.value) else store
  }

  function Rotated(secret: TokenSecret, newToken: string, now: Instant): TokenSecret {
    secret.(oldToken := Some(secret.token), token := newToken, generation := Generated(now))
  }

  function Rotate(state: State, request: Request, secret: TokenSecret, value: CacheValue): (State, bool) {
    var store := Stored(WithoutOldToken(state.store, secret), TTL, request.newToken, value, request.now);
    if request.patchFails then
      (state.(store := Stored(Removed(store, request.newToken), TTL, OldTokenKey(secret), value, request.now)), false)
    else
      (State(state.secrets[request.name := Rotated(secret, request.newToken, request.now)], store), true)
  }

  function ReportFailure(state: State, request: Request, secret: TokenSecret, message: string): State {
    if (secret.reason == INVALID_CONFIG && secret.message == message) || request.patchFails then state
    else state.(secrets := state.secrets[request.name := secret.(reason := INVALID_CONFIG, message := message)])
  }

  function WithPayload(secret: TokenSecret, payload: string): TokenSecret {
    secret.(
      payload := match secret.upgradeType
                 case InPlace => Some(payload)
                 case Replace => None
                 case OtherUpgrade => secret.payload,
      reason := AS_EXPECTED,
      message := GENERATED_MESSAGE)
  }

  function Fill(state: State, request: Request, secret: TokenSecret, payload: string): (State, bool) {
    var value := CacheValue(payload, request.name);
    var withToken := Stored(state.store, TTL, secret.token, value, request.now);
    var store := if secret.oldToken.Some? then Stored(withToken, TTL, secret.oldToken.value, value, request.now)
        else withToken;
    if request.patchFails then (state.(store := store), false)
    else (State(state.secrets[request.name := WithPayload(secret, payload)], store), true)
  }

  function Finish(outcome: (State, bool), timeLived: Option<int>): (State, Result) {
    (outcome.0, if outcome.1 then Success(RequeueAfter(timeLived)) else Failure)
  }

  /** A live secret: rotate on a hit, else copy the old token's value, else generate. */
  function Serve(provider: Provider, state: State, request: Request, secret: TokenSecret): (State, Result) {
    if secret.generation.MalformedGeneration? then (state, Failure)
    else
      var timeLived := TimeLived(secret, request.now);
      var collected := state.(store := Collected(state.store, request.now));
      var hit := Lookup(state.store, secret.token, request.now);
      if hit.Some? then
        if TokenNeedRotation(timeLived) then Finish(Rotate(collected, request, secret, hit.value), timeLived)
        else (collected, Success(RequeueAfter(timeLived)))
      else
        var oldHit := if secret.oldToken.Some? then Lookup(state.store, secret.oldToken.value, request.now) else None;
        if oldHit.Some? then
          (collected.(store := Stored(collected.store, TTL, secret.token, oldHit.value, request.now)),
           Success(RequeueAfter(timeLived)))
        else match provider(secret.content)
          case Failed(message) => (ReportFailure(collected, request, secret, message), Failure)
          case Built(payload) => Finish(Fill(collected, request, secret, payload), timeLived)
  }

  function Expire(state: State, request: Request, secret: TokenSecret): (State, Result) {
    var store := Removed(WithoutOldToken(state.store, secret), secret.token);
    if request.deleteFails then (State(state.secrets, store), Failure)
    else (State(map name | name in state.secrets && name != request.name :: state.secrets[name], store), Success(None))
  }

  function Reconciled(provider: Provider, state: State, request: Request): (State, Result) {
    if request.readFails then (state, Failure)
    else if request.name !in state.secrets || state.secrets[request.name].deleting then
      (state.(store := Purged(state.store, request.name, request.now)), Success(None))
    else
      var secret := state.secrets[request.name];
      if IsTokenExpired(secret, request.now) then Expire(state, request, secret)
      else Serve(provider, state, request, secret)
  }

  // ---- the reconciler object ----

  class TokenSecretReconciler {
    var secrets: map<string, TokenSecret>
    const payloadStore: ExpiringCache
    const provider: Provider

    constructor (provider: Provider, secrets: map<string, TokenSecret>)
      ensures fresh(payloadStore) && payloadStore.ttl == TTL
      ensures this.provider == provider && Current() == State(secrets, map[])
    {
      this.provider := provider;
      this.secrets := secrets;
      payloadStore := new ExpiringCache(TTL);
    }

    ghost function Current(): State
      reads this, payloadStore
    {
      State(secrets, payloadStore.cache)
    }

    method RotateToken(request: Request, secret: TokenSecret, value: CacheValue) returns (ok: bool)
      requires payloadStore.ttl == TTL
      modifies this, payloadStore
      ensures (Current(), ok) == Rotate(old(Current()), request, secret, value)
    {
      if secret.oldToken.Some? {
        payloadStore.Delete(secret.oldToken.value);
      }
      // The new token is in the store before the secret names it.
      payloadStore.Set(request.newToken, value, request.now);
      if request.patchFails {
        payloadStore.Delete(request.newToken);
        payloadStore.Set(OldTokenKey(secret), value, request.now);
        return false;
      }
      secrets := secrets[request.name := Rotated(secret, request.newToken, request.now)];
      return true;
    }

    method ProcessExpiredToken(request: Request, secret: TokenSecret) returns (result: Result)
      modifies this, payloadStore
      ensures (Current(), result) == Expire(old(Current()), request, secret)
    {
      if secret.oldToken.Some? {
        payloadStore.Delete(secret.oldToken.value);
      }
      payloadStore.Delete(secret.token);
      if request.deleteFails {
        return Failure;
      }
      secrets := map name | name in secrets && name != request.name :: secrets[name];
      return Success(None);
    }

    method PurgeSecret(name: string, now: Instant)
      modifies payloadStore
      ensures payloadStore.cache == Purged(old(payloadStore.cache), name, now)
    {
      var keys := payloadStore.Keys();
      ghost var before := payloadStore.cache;
      for i := 0 to |keys|
        invariant forall key :: key in payloadStore.cache ==> key in before && payloadStore.cache[key] == before[key]
        invariant forall key :: key in before && key !in payloadStore.cache ==>
                    Expired(before[key], now) || before[key].value.secretName == name
        invariant forall j :: 0 <= j < i && keys[j] in payloadStore.cache ==>
                    !Expired(before[keys[j]], now) && before[keys[j]].value.secretName != name
      {
        var value := payloadStore.Get(keys[i], now);
        if value.Some? && value.value.secretName == name {
          payloadStore.Delete(keys[i]);
        }
      }
    }

    method FillStore(request: Request, secret: TokenSecret, payload: string) returns (ok: bool)
      requires payloadStore.ttl == TTL
      modifies this, payloadStore
      ensures (Current(), ok) == Fill(old(Current()), request, secret, payload)
    {
      var value := CacheValue(payload, request.name);
      payloadStore.Set(secret.token, value, request.now);
      if secret.oldToken.Some? {
        payloadStore.Set(secret.oldToken.value, value, request.now);
      }
      if request.patchFails {
        return false;
      }
      secrets := secrets[request.name := WithPayload(secret, payload)];
      return true;
    }

    method Reconcile(request: Request) returns (result: Result)
      requires payloadStore.ttl == TTL
      modifies this, payloadStore
      ensures (Current(), result) == Reconciled(provider, old(Current()), request)
    {
      if request.readFails {
        return Failure;
      }
      if request.name !in secrets || secrets[request.name].deleting {
        PurgeSecret(request.name, request.now);
        return Success(None);
      }
      var secret := secrets[request.name];
      if IsTokenExpired(secret, request.now) {
        result := ProcessExpiredToken(request, secret);
        return;
      }
      if secret.generation.MalformedGeneration? {
        return Failure;
      }
      result := ServeSecret(request, secret);
    }

    method ServeSecret(request: Request, secret: TokenSecret) returns (result: Result)
      requires payloadStore.ttl == TTL
      requires !secret.generation.MalformedGeneration?
      modifies this, payloadStore
      ensures (Current(), result) == Serve(provider, old(Current()), request, secret)
    {
      var timeLived := TimeLived(secret, request.now);
      var hit := payloadStore.Get(secret.token, request.now);
      if hit.Some? {
        if TokenNeedRotation(timeLived) {
          var ok := RotateToken(request, secret, hit.value);
          if !ok {
            return Failure;
          }
        }
        return Success(RequeueAfter(timeLived));
      }
      if secret.oldToken.Some? {
        CollectedTwice(old(payloadStore.cache), secret.oldToken.value, request.now);
        var oldHit := payloadStore.Get(secret.oldToken.value, request.now);
        if oldHit.Some? {
          payloadStore.Set(secret.token, oldHit.value, request.now);
          return Success(RequeueAfter(timeLived));
        }
      }
      match provider(secret.content)
      case Failed(message) =>
        if !(secret.reason == INVALID_CONFIG && secret.message == message) && !request.patchFails {
          secrets := secrets[request.name := secret.(reason := INVALID_CONFIG, message := message)];
        }
        return Failure;
      case Built(payload) =>
        var ok := FillStore(request, secret, payload);
        return if ok then Success(RequeueAfter(timeLived)) else Failure;
    }
  }

  lemma CollectedTwice(store: Store, key: string, now: Instant)
    ensures Collected(Collected(store, now), now) == Collected(store, now)
    ensures Lookup(Collected(store, now), key, now) == Lookup(store, key, now)
  {
  }
}
