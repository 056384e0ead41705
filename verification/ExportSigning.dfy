/**
 Per-workspace signing keys for exports: minted on first use, rotated with a 14-day grace window for
 the previous key, stored append-only with the last record of a tenant winning.

 The message authentication code is a parameter; nothing is assumed about it.
 */
module ExportSigning {
  import opened Options
  import opened Texts

  const GRACE_SECONDS := (14 * 24 * 3600) as real

  datatype SigningKey = SigningKey(
    tenant: string,
    keyId: string,
    secret: string,
    createdAt: real,
    createdBy: string,
    rotatedAt: real,
    priorKeyId: string,
    priorSecret: string,
    priorExpiresAt: real)

  type Store = map<string, SigningKey>

  /** The signed bytes bind the manifest digest to the tenant and the whole second of generation. */
  datatype Message = Message(manifest: string, tenant: string, generatedAt: int)

  type Mac = (string, Message) -> string

  /** Python's `int(x)`: towards zero. */
  function Trunc(x: real): int {
    if x >= 0.0 then x.Floor else -((-x).Floor)
  }

  function MessageOf(manifest: string, tenant: string, generatedAt: real): Message {
    Message(manifest, tenant, Trunc(generatedAt))
  }

  // ---------------------------------------------------------------- the store

  function ApplyRecord(store: Store, k: SigningKey): Store {
    if k.tenant == "" then store else store[k.tenant := k]
  }

  function Replay(log: seq<SigningKey>): Store {
    if log == [] then map[] else ApplyRecord(Replay(log[..|log| - 1]), log[|log| - 1])
  }

  function Creator(who: string, default: string): string {
    Or(Cut(Strip(Or(who, default)), 64), default)
  }

  function Minted(tenant: string, keyId: string, secret: string, who: string, now: real): SigningKey {
    SigningKey(tenant, keyId, secret, now, Creator(who, "system"), 0.0, "", "", 0.0)
  }

  /** The record of a rotation; without a previous key it is a first mint. */
  function Rotated(prior: Option<SigningKey>, tenant: string, keyId: string, secret: string, who: string,
                   now: real): SigningKey {
    match prior
    case None => SigningKey(tenant, keyId, secret, now, Creator(who, "unknown"), 0.0, "", "", 0.0)
    case Some(k) =>
      SigningKey(tenant, keyId, secret, now, Creator(who, "unknown"), now, k.keyId, k.secret, now + GRACE_SECONDS)
  }

  function KeyOf(store: Store, tenant: string): Option<SigningKey> {
    if tenant in store then Some(store[tenant]) else None
  }

  /** The secrets `verify_export` tries for a key id at a time. */
  function Candidates(k: SigningKey, keyId: string, ts: real): seq<string> {
    (if k.keyId == keyId && k.secret != "" then [k.secret] else [])
    + (if k.priorKeyId != "" && k.priorKeyId == keyId && k.priorSecret != "" && ts < k.priorExpiresAt
       then [k.priorSecret] else [])
  }

  predicate Verifies(mac: Mac, store: Store, tenant: string, keyId: string, signature: string, manifest: string,
                     generatedAt: real, ts: real) {
    && tenant != "" && keyId != "" && signature != "" && manifest != ""
    && tenant in store
    && exists i :: 0 <= i < |Candidates(store[tenant], keyId, ts)|
                   && mac(Candidates(store[tenant], keyId, ts)[i], MessageOf(manifest, tenant, generatedAt))
                      == signature
  }

  class KeyStore {
    const mac: Mac
    var log: seq<SigningKey>
    var cache: Option<Store>

    constructor (mac: Mac)
      ensures this.mac == mac && Valid() && log == []
    {
      this.mac, log, cache := mac, [], None;
    }

    /** The cache agrees with a replay of the log. */
    ghost predicate Valid()
      reads this
    {
      cache.Some? ==> cache.value == Replay(log)
    }

    method ResetCache()
      modifies this`cache
      ensures Valid()
    {
      cache := None;
    }

    method Load() returns (store: Store)
      requires Valid()
      modifies this`cache
      ensures Valid() && store == Replay(log) && cache == Some(store)
    {
      if cache.Some? {
        return cache.value;
      }
      store := map[];
      var i := 0;
      while i < |log|
        invariant 0 <= i <= |log| && store == Replay(log[..i])
      {
        assert log[..i + 1][..i] == log[..i];
        store := ApplyRecord(store, log[i]);
        i := i + 1;
      }
      assert log[..i] == log;
      cache := Some(store);
    }

    /** Append a record and put it in the cache. */
    method Persist(k: SigningKey, store: Store)
      requires store == Replay(log) && k.tenant != ""
      modifies this
      ensures Valid() && log == old(log) + [k]
    {
      assert (log + [k])[..|log|] == log;
      log := log + [k];
      cache := Some(store[k.tenant := k]);
    }

    /**
     `ensure_key` with the id and secret it would mint; none for an empty tenant name.  The secret is
     handed out exactly when this call minted it.
     */
    method EnsureKey(tenant: string, keyId: string, secret: string, who: string, now: real)
      returns (k: Option<SigningKey>, minted: Option<string>)
      requires Valid()
      modifies this
      ensures Valid() && log == LogAfter(old(log), Timed(Ensure(tenant, keyId, secret, who), now))
      ensures k == KeyOf(Replay(log), tenant)
      ensures minted == if tenant != "" && tenant !in Replay(old(log)) then Some(secret) else None
    {
      if tenant == "" {
        NoKeyWithoutTenant(log);
        return None, None;
      }
      var store := Load();
      if tenant in store {
        return Some(store[tenant]), None;
      }
      var key := Minted(tenant, keyId, secret, who, now);
      Persist(key, store);
      ReplaySnoc(old(log), key);
      k, minted := Some(key), Some(secret);
    }

    /** `rotate`. */
    method Rotate(tenant: string, keyId: string, secret: string, who: string, now: real) returns (k: Option<SigningKey>)
      requires Valid()
      modifies this
      ensures Valid() && log == LogAfter(old(log), Timed(Rotation(tenant, keyId, secret, who), now))
      ensures k == KeyOf(Replay(log), tenant)
    {
      if tenant == "" {
        NoKeyWithoutTenant(log);
        return None;
      }
      var store := Load();
      var key := Rotated(KeyOf(store, tenant), tenant, keyId, secret, who, now);
      Persist(key, store);
      ReplaySnoc(old(log), key);
      k := Some(key);
    }

    /** `sign_export`: the key id and signature under the active key, minted when there is none. */
    method SignExport(tenant: string, manifest: string, generatedAt: real, keyId: string, secret: string, now: real)
      returns (r: Option<(string, string)>)
      requires Valid()
      modifies this
      ensures Valid() && log == LogAfter(old(log), Timed(Ensure(tenant, keyId, secret, "export.auto"), now))
      ensures r == Signature(mac, Replay(log), tenant, manifest, generatedAt)
    {
      var k, minted := EnsureKey(tenant, keyId, secret, "export.auto", now);
      if k.None? {
        return None;
      }
      r := Some((k.value.keyId, mac(k.value.secret, MessageOf(manifest, tenant, generatedAt))));
    }

    /** `verify_export`. */
    method VerifyExport(tenant: string, keyId: string, signature: string, manifest: string, generatedAt: real,
                        ts: real) returns (ok: bool)
      requires Valid()
      modifies this`cache
      ensures Valid() && ok == Verifies(mac, Replay(log), tenant, keyId, signature, manifest, generatedAt, ts)
    {
      if tenant == "" || keyId == "" || signature == "" || manifest == "" {
        return false;
      }
      var store := Load();
      if tenant !in store {
        return false;
      }
      var message, candidates := MessageOf(manifest, tenant, generatedAt), Candidates(store[tenant], keyId, ts);
      var i := 0;
      while i < |candidates|
        invariant 0 <= i <= |candidates|
        invariant forall j :: 0 <= j < i ==> mac(candidates[j], message) != signature
      {
        if mac(candidates[i], message) == signature {
          return true;
        }
        i := i + 1;
      }
      ok := false;
    }
  }

  function Signature(mac: Mac, store: Store, tenant: string, manifest: string, generatedAt: real)
    : Option<(string, string)>
  {
    if tenant !in store then None
    else Some((store[tenant].keyId, mac(store[tenant].secret, MessageOf(manifest, tenant, generatedAt))))
  }

  // ---------------------------------------------------------------- runs

  datatype Command =
    | Ensure(tenant: string, keyId: string, secret: string, who: string)
    | Rotation(tenant: string, keyId: string, secret: string, who: string)

  datatype Timed = Timed(command: Command, now: real)

  function LogAfter(log: seq<SigningKey>, t: Timed): seq<SigningKey> {
    var c := t.command;
    var prior := KeyOf(Replay(log), c.tenant);
    if c.tenant == "" then log
    else if c.Ensure? then (if prior.Some? then log else log + [Minted(c.tenant, c.keyId, c.secret, c.who, t.now)])
    else log + [Rotated(prior, c.tenant, c.keyId, c.secret, c.who, t.now)]
  }

  function Run(log: seq<SigningKey>, ts: seq<Timed>): seq<SigningKey>
    decreases |ts|
  {
    if ts == [] then log else Run(LogAfter(log, ts[0]), ts[1..])
  }

  /** Key ids and secrets drawn for the commands are non-empty, and an id is never drawn twice. */
  ghost predicate FreshIds(log: seq<SigningKey>, ts: seq<Timed>)
    decreases |ts|
  {
    ts == [] || (
      && ts[0].command.keyId != "" && ts[0].command.secret != ""
      && !Drawn(log, ts[0].command.keyId)
      && FreshIds(LogAfter(log, ts[0]), ts[1..]))
  }

  /** When the tenant's key was rotated during the run. */
  function RotationTimes(ts: seq<Timed>, tenant: string): seq<real> {
    if ts == [] then []
    else (if ts[0].command.Rotation? && ts[0].command.tenant == tenant then [ts[0].now] else [])
         + RotationTimes(ts[1..], tenant)
  }

  lemma ReplaySnoc(log: seq<SigningKey>, k: SigningKey)
    ensures Replay(log + [k]) == ApplyRecord(Replay(log), k)
  {
    assert (log + [k])[..|log|] == log;
  }

  lemma {:induction false} NoKeyWithoutTenant(log: seq<SigningKey>)
    ensures "" !in Replay(log)
  {
    if log != [] {
      NoKeyWithoutTenant(log[..|log| - 1]);
    }
  }

  /** Where key `k` stands after the given rotations: active, previous, or gone. */
  ghost predicate Stands(current: SigningKey, k: SigningKey, rotations: seq<real>) {
    if rotations == [] then current.keyId == k.keyId && current.secret == k.secret && current.priorKeyId != k.keyId
    else if |rotations| == 1 then
      && current.keyId != k.keyId && current.priorKeyId == k.keyId && current.priorSecret == k.secret
      && current.priorExpiresAt == rotations[0] + GRACE_SECONDS
    else current.keyId != k.keyId && current.priorKeyId != k.keyId
  }

  /** No other tenant's current key knows the id, as its own or as its previous one. */
  ghost predicate ForeignKeysDiffer(store: Store, k: SigningKey) {
    forall t :: t in store && t != k.tenant ==> store[t].keyId != k.keyId && store[t].priorKeyId != k.keyId
  }

  ghost predicate Tracked(log: seq<SigningKey>, k: SigningKey, rotations: seq<real>) {
    && k.tenant != "" && k.keyId != "" && k.secret != ""
    && k.tenant in Replay(log) && Stands(Replay(log)[k.tenant], k, rotations)
    && Drawn(log, k.keyId)
    && ForeignKeysDiffer(Replay(log), k)
  }

  /** The rotations so far after one more command. */
  function More(rotations: seq<real>, t: Timed, tenant: string): seq<real> {
    if t.command.Rotation? && t.command.tenant == tenant then rotations + [t.now] else rotations
  }

  lemma TrackStep(log: seq<SigningKey>, t: Timed, k: SigningKey, rotations: seq<real>)
    requires Tracked(log, k, rotations) && t.command.keyId != ""
    requires !Drawn(log, t.command.keyId)
    ensures Tracked(LogAfter(log, t), k, More(rotations, t, k.tenant))
  {
    var after := LogAfter(log, t);
    if after != log {
      var rec := after[|log|];
      assert after == log + [rec];
      ReplaySnoc(log, rec);
      DrawnSnoc(log, rec, k.keyId);
    }
  }

  lemma MoreThenRest(rotations: seq<real>, ts: seq<Timed>, tenant: string)
    requires ts != []
    ensures More(rotations, ts[0], tenant) + RotationTimes(ts[1..], tenant) == rotations + RotationTimes(ts, tenant)
  {
  }

  lemma {:induction false} TrackRun(log: seq<SigningKey>, ts: seq<Timed>, k: SigningKey, rotations: seq<real>)
    requires Tracked(log, k, rotations) && FreshIds(log, ts)
    ensures Tracked(Run(log, ts), k, rotations + RotationTimes(ts, k.tenant))
    decreases |ts|
  {
    if ts == [] {
      assert rotations + [] == rotations;
    } else {
      MoreThenRest(rotations, ts, k.tenant);
      TrackStep(log, ts[0], k, rotations);
      TrackRun(LogAfter(log, ts[0]), ts[1..], k, More(rotations, ts[0], k.tenant));
    }
  }

  /** A signature under `k` verifies exactly while `k` is active, or previous and within its grace window. */
  lemma {:induction false} VerifiesWhereItStands(mac: Mac, store: Store, k: SigningKey, rotations: seq<real>,
                                                 manifest: string, signedAt: real, askedAt: real, ts: real)
    requires k.tenant != "" && k.keyId != "" && k.secret != "" && manifest != ""
    requires k.tenant in store && Stands(store[k.tenant], k, rotations)
    requires Trunc(askedAt) == Trunc(signedAt) && mac(k.secret, MessageOf(manifest, k.tenant, signedAt)) != ""
    ensures var signature := mac(k.secret, MessageOf(manifest, k.tenant, signedAt));
            Verifies(mac, store, k.tenant, k.keyId, signature, manifest, askedAt, ts)
            <==> rotations == [] || (|rotations| == 1 && ts < rotations[0] + GRACE_SECONDS)
  {
    var c := Candidates(store[k.tenant], k.keyId, ts);
    if rotations == [] || (|rotations| == 1 && ts < rotations[0] + GRACE_SECONDS) {
      assert c[0] == k.secret;
    } else {
      assert c == [];
    }
  }

  /**
   A signature made under the tenant's active key verifies, in every later state and for every
   generation time in the same second, exactly when there was no rotation of that tenant's key
   since, or exactly one and it is less than the grace window ago.
   */
  lemma {:induction false} SignatureLifetime(mac: Mac, log: seq<SigningKey>, ts: seq<Timed>, k: SigningKey,
                                             manifest: string, signedAt: real, askedAt: real, at: real)
    requires Tracked(log, k, []) && FreshIds(log, ts)
    requires manifest != "" && Trunc(askedAt) == Trunc(signedAt)
             && mac(k.secret, MessageOf(manifest, k.tenant, signedAt)) != ""
    ensures var signature := mac(k.secret, MessageOf(manifest, k.tenant, signedAt));
            var rotations := RotationTimes(ts, k.tenant);
            Verifies(mac, Replay(Run(log, ts)), k.tenant, k.keyId, signature, manifest, askedAt, at)
            <==> rotations == [] || (|rotations| == 1 && at < rotations[0] + GRACE_SECONDS)
  {
    TrackRun(log, ts, k, []);
    assert [] + RotationTimes(ts, k.tenant) == RotationTimes(ts, k.tenant);
    VerifiesWhereItStands(mac, Replay(Run(log, ts)), k, RotationTimes(ts, k.tenant), manifest, signedAt, askedAt, at);
  }

  /** Once a key has left its grace window there is no secret to try for its id. */
  lemma {:induction false} NothingToTry(current: SigningKey, k: SigningKey, rotations: seq<real>, at: real)
    requires k.keyId != "" && Stands(current, k, rotations)
    requires |rotations| >= 2 || (|rotations| == 1 && rotations[0] + GRACE_SECONDS <= at)
    ensures Candidates(current, k.keyId, at) == []
  {
  }

  /**
   After a second rotation, or a first one whose grace window is over, the key id itself is rejected:
   whatever the signature, the manifest and the generation time.
   */
  lemma {:induction false} RetiredKeyIsRejected(mac: Mac, log: seq<SigningKey>, ts: seq<Timed>, k: SigningKey,
                                                signature: string, manifest: string, askedAt: real, at: real)
    requires Tracked(log, k, []) && FreshIds(log, ts)
    requires var rotations := RotationTimes(ts, k.tenant);
             |rotations| >= 2 || (|rotations| == 1 && rotations[0] + GRACE_SECONDS <= at)
    ensures !Verifies(mac, Replay(Run(log, ts)), k.tenant, k.keyId, signature, manifest, askedAt, at)
  {
    TrackRun(log, ts, k, []);
    assert [] + RotationTimes(ts, k.tenant) == RotationTimes(ts, k.tenant);
    NothingToTry(Replay(Run(log, ts))[k.tenant], k, RotationTimes(ts, k.tenant), at);
  }

  /** A signature never verifies for another tenant, in any later state. */
  lemma {:induction false} NeverVerifiesElsewhere(mac: Mac, log: seq<SigningKey>, ts: seq<Timed>, k: SigningKey,
                                                  other: string, signature: string, manifest: string, askedAt: real,
                                                  at: real)
    requires Tracked(log, k, []) && FreshIds(log, ts) && other != k.tenant
    ensures !Verifies(mac, Replay(Run(log, ts)), other, k.keyId, signature, manifest, askedAt, at)
  {
    TrackRun(log, ts, k, []);
    var store := Replay(Run(log, ts));
    if other in store {
      assert Candidates(store[other], k.keyId, at) == [];
    }
  }

  // ---------------------------------------------------------------- what a signature vouches for

  /** `second` is the whole second of `x`, towards zero. */
  ghost predicate InSecond(x: real, second: int) {
    if x >= 0.0 then second as real <= x < second as real + 1.0 else second as real - 1.0 < x <= second as real
  }

  lemma {:induction false} TruncIsSecond(x: real, second: int)
    requires InSecond(x, second)
    ensures Trunc(x) == second
  {
  }

  /** `k` is active, or was rotated once and less than 14 days ago. */
  ghost predicate InUse(rotations: seq<real>, at: real) {
    rotations == [] || (|rotations| == 1 && at < rotations[0] + 1209600.0)
  }

  lemma {:induction false} TriedSecret(current: SigningKey, k: SigningKey, rotations: seq<real>, at: real)
    requires k.keyId != "" && k.secret != "" && Stands(current, k, rotations) && InUse(rotations, at)
    ensures Candidates(current, k.keyId, at) == [k.secret]
  {
  }

  /** `sign_export` signs the manifest, the tenant and the second, and names the active key. */
  lemma {:induction false} SignsManifest(mac: Mac, store: Store, tenant: string, manifest: string, signedAt: real,
                                         second: int)
    requires tenant in store && InSecond(signedAt, second)
    ensures Signature(mac, store, tenant, manifest, signedAt)
         == Some((store[tenant].keyId, mac(store[tenant].secret, Message(manifest, tenant, second))))
  {
    TruncIsSecond(signedAt, second);
  }

  /** While a key is in use, exactly its code for the manifest, the tenant and the second is accepted. */
  lemma {:induction false} AcceptsExactly(mac: Mac, log: seq<SigningKey>, ts: seq<Timed>, k: SigningKey,
                                          signature: string, manifest: string, askedAt: real, second: int, at: real)
    requires Tracked(log, k, []) && FreshIds(log, ts) && InUse(RotationTimes(ts, k.tenant), at)
    requires InSecond(askedAt, second)
    ensures Verifies(mac, Replay(Run(log, ts)), k.tenant, k.keyId, signature, manifest, askedAt, at)
            <==> signature != "" && manifest != "" && signature == mac(k.secret, Message(manifest, k.tenant, second))
  {
    TrackRun(log, ts, k, []);
    assert [] + RotationTimes(ts, k.tenant) == RotationTimes(ts, k.tenant);
    TriedSecret(Replay(Run(log, ts))[k.tenant], k, RotationTimes(ts, k.tenant), at);
    TruncIsSecond(askedAt, second);
    assert [k.secret][0] == k.secret;
  }

  /** Two different messages have one code under the secret. */
  ghost predicate Collide(mac: Mac, secret: string, a: Message, b: Message) {
    a != b && mac(secret, a) == mac(secret, b)
  }

  /**
   What `sign_export` returned for one manifest and second, in any later state in which the key is still
   in use: it verifies for another manifest and second exactly when they are the same, or the two
   messages are different ones with one code.
   */
  lemma {:induction false} SignatureVouchesExactly(mac: Mac, log: seq<SigningKey>, ts: seq<Timed>, k: SigningKey,
                                                   signed: string, signedAt: real, second: int, asked: string,
                                                   askedAt: real, second': int, at: real)
    requires Tracked(log, k, []) && Replay(log)[k.tenant] == k && FreshIds(log, ts)
    requires InUse(RotationTimes(ts, k.tenant), at) && asked != ""
    requires InSecond(signedAt, second) && InSecond(askedAt, second')
    requires Signature(mac, Replay(log), k.tenant, signed, signedAt).value.1 != ""
    ensures var (keyId, signature) := Signature(mac, Replay(log), k.tenant, signed, signedAt).value;
            Verifies(mac, Replay(Run(log, ts)), k.tenant, keyId, signature, asked, askedAt, at)
            <==> (asked == signed && second' == second)
                 || Collide(mac, k.secret, Message(signed, k.tenant, second), Message(asked, k.tenant, second'))
  {
    SignsManifest(mac, Replay(log), k.tenant, signed, signedAt, second);
    var signature := mac(k.secret, Message(signed, k.tenant, second));
    AcceptsExactly(mac, log, ts, k, signature, asked, askedAt, second', at);
  }

  /** A blank tenant, key id, signature or manifest is never accepted, and a tenant without a key has no signature. */
  lemma {:induction false} BlanksAreRejected(mac: Mac, log: seq<SigningKey>, tenant: string, keyId: string,
                                             signature: string, manifest: string, askedAt: real, at: real)
    requires tenant == "" || keyId == "" || signature == "" || manifest == ""
             || forall i :: 0 <= i < |log| ==> log[i].tenant != tenant
    ensures !Verifies(mac, Replay(log), tenant, keyId, signature, manifest, askedAt, at)
  {
    if tenant in Replay(log) {
      OnlyLogged(log, tenant);
    }
  }

  lemma {:induction false} OnlyLogged(log: seq<SigningKey>, tenant: string)
    requires tenant in Replay(log)
    ensures exists i :: 0 <= i < |log| && log[i].tenant == tenant
  {
    var n := |log| - 1;
    if log[n].tenant != tenant {
      OnlyLogged(log[..n], tenant);
      var i :| 0 <= i < n && log[..n][i].tenant == tenant;
      assert log[i].tenant == tenant;
    }
  }

  /** The name is the trimmed one, cut at 64 characters; a blank one gives the default. */
  ghost predicate NamedBy(name: string, who: string, default: string) {
    var trimmed := Strip(who);
    if who == "" || trimmed == "" then name == default
    else name == trimmed[..if |trimmed| < 64 then |trimmed| else 64]
  }

  /** The key a tenant has after a command: the one it had, or a new one that remembers at most that one. */
  lemma {:induction false} KeyAfter(log: seq<SigningKey>, t: Timed)
    requires t.command.tenant != ""
    ensures var c, before := t.command, Replay(log);
            var after := Replay(LogAfter(log, t));
            && c.tenant in after
            && (c.Ensure? && c.tenant in before ==> after == before)
            && (c.Rotation? || c.tenant !in before ==>
                  var k := after[c.tenant];
                  && k.tenant == c.tenant && k.keyId == c.keyId && k.secret == c.secret && k.createdAt == t.now
                  && NamedBy(k.createdBy, c.who, if c.Ensure? then "system" else "unknown")
                  && if c.tenant in before
                     then k.rotatedAt == t.now && k.priorKeyId == before[c.tenant].keyId
                          && k.priorSecret == before[c.tenant].secret && k.priorExpiresAt == t.now + 1209600.0
                     else k.rotatedAt == 0.0 && k.priorKeyId == "" && k.priorSecret == "" && k.priorExpiresAt == 0.0)
  {
    if LogAfter(log, t) != log {
      ReplaySnoc(log, LogAfter(log, t)[|log|]);
      assert LogAfter(log, t) == log + [LogAfter(log, t)[|log|]];
    }
  }

  // ---------------------------------------------------------------- every active key is tracked

  predicate Drawn(log: seq<SigningKey>, keyId: string) {
    exists i :: 0 <= i < |log| && log[i].keyId == keyId
  }

  /** Every id a current key mentions was drawn for some record. */
  ghost predicate IdsKnown(log: seq<SigningKey>) {
    forall t :: t in Replay(log) ==>
      Drawn(log, Replay(log)[t].keyId) && (Replay(log)[t].priorKeyId == "" || Drawn(log, Replay(log)[t].priorKeyId))
  }

  /** The active key of every tenant is unrotated, non-empty and known to no other tenant. */
  ghost predicate AllTracked(log: seq<SigningKey>) {
    IdsKnown(log) && forall t :: t in Replay(log) ==> Replay(log)[t].tenant == t && Tracked(log, Replay(log)[t], [])
  }

  lemma DrawnSnoc(log: seq<SigningKey>, k: SigningKey, keyId: string)
    ensures Drawn(log + [k], keyId) <==> Drawn(log, keyId) || k.keyId == keyId
  {
    var after := log + [k];
    assert after[|log|] == k;
    assert forall i :: 0 <= i < |log| ==> after[i] == log[i];
  }

  /** The record a command appends: for its tenant, under the drawn id, with at most the old key as the previous one. */
  lemma AppendedKey(log: seq<SigningKey>, t: Timed)
    requires LogAfter(log, t) != log
    ensures t.command.tenant != ""
    ensures var rec := LogAfter(log, t)[|log|];
            && LogAfter(log, t) == log + [rec]
            && rec.tenant == t.command.tenant && rec.keyId == t.command.keyId && rec.secret == t.command.secret
            && (rec.priorKeyId == "" || (rec.tenant in Replay(log) && rec.priorKeyId == Replay(log)[rec.tenant].keyId))
  {
  }

  lemma ForeignToNew(store: Store, rec: SigningKey, log: seq<SigningKey>)
    requires IdsKnown(log) && store == Replay(log)[rec.tenant := rec] && rec.keyId != "" && !Drawn(log, rec.keyId)
    ensures ForeignKeysDiffer(store, rec)
  {
    forall t | t in store && t != rec.tenant ensures store[t].keyId != rec.keyId && store[t].priorKeyId != rec.keyId {
      assert t in Replay(log);
    }
  }

  lemma NewKeyIsTracked(log: seq<SigningKey>, t: Timed)
    requires IdsKnown(log) && LogAfter(log, t) != log
    requires t.command.keyId != "" && t.command.secret != "" && !Drawn(log, t.command.keyId)
    ensures var after := Replay(LogAfter(log, t));
            t.command.tenant in after && after[t.command.tenant].tenant == t.command.tenant
            && Tracked(LogAfter(log, t), after[t.command.tenant], [])
  {
    AppendedKey(log, t);
    var rec := LogAfter(log, t)[|log|];
    ReplaySnoc(log, rec);
    DrawnSnoc(log, rec, rec.keyId);
    ForeignToNew(Replay(LogAfter(log, t)), rec, log);
    assert rec.priorKeyId != rec.keyId;
  }

  lemma AllTrackedStep(log: seq<SigningKey>, t: Timed)
    requires AllTracked(log) && t.command.keyId != "" && t.command.secret != "" && !Drawn(log, t.command.keyId)
    ensures AllTracked(LogAfter(log, t))
  {
    var after := LogAfter(log, t);
    if after != log {
      var rec := after[|log|];
      assert after == log + [rec];
      ReplaySnoc(log, rec);
      forall o | o in Replay(after)
        ensures Replay(after)[o].tenant == o && Tracked(after, Replay(after)[o], [])
        ensures Drawn(after, Replay(after)[o].keyId)
                && (Replay(after)[o].priorKeyId == "" || Drawn(after, Replay(after)[o].priorKeyId))
      {
        DrawnSnoc(log, rec, Replay(after)[o].keyId);
        DrawnSnoc(log, rec, Replay(after)[o].priorKeyId);
        if o == t.command.tenant {
          NewKeyIsTracked(log, t);
        } else {
          TrackStep(log, t, Replay(log)[o], []);
        }
      }
    }
  }

  /** In every reachable state, the key `sign_export` uses meets what `SignatureLifetime` asks of it. */
  lemma {:induction false} ActiveKeysAreTracked(log: seq<SigningKey>, ts: seq<Timed>)
    requires AllTracked(log) && FreshIds(log, ts)
    ensures AllTracked(Run(log, ts))
    decreases |ts|
  {
    if ts != [] {
      AllTrackedStep(log, ts[0]);
      ActiveKeysAreTracked(LogAfter(log, ts[0]), ts[1..]);
    }
  }

  lemma StartTracked()
    ensures AllTracked([])
  {
  }
}
