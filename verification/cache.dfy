/** The reader of Kubernetes Secrets with its cache of one minute. */
module SecretCache {
  import opened Wrappers

  const MAX_AGE := 60

  type Data = map<string, string>

  datatype Id = Id(namespace: string, name: string)

  datatype Entry = Entry(data: Data, timestamp: int)

  type Cache = map<Id, Entry>

  /** What the API server holds; `None` where the request fails. */
  type Live = Option<Data>

  /** Base64 and UTF-8, as far as the value can be decoded. */
  type Decoder = string -> Option<string>

  ghost function Decoded(data: Data, key: string, decode: Decoder): Result<string>
    requires key in data
  {
    match decode(data[key])
    case Some(v) => Success(v)
    case None => Failure("Could not base64 decode key")
  }

  ghost predicate FreshHit(cache: Cache, id: Id, key: string, now: int) {
    id in cache && now - cache[id].timestamp < MAX_AGE && key in cache[id].data
  }

  /** A direct look at the API server. */
  ghost function ReadLive(live: Live, key: string, decode: Decoder): Result<string> {
    match live
    case None => Failure("Failed to read secret from Kubernetes API")
    case Some(data) =>
      if data == map[] then Failure("Secret has no data")
      else if key !in data then Failure("Key not found in secret")
      else Decoded(data, key, decode)
  }

  ghost function ReadResult(cache: Cache, live: Live, id: Id, key: string, now: int, decode: Decoder): Result<string> {
    if FreshHit(cache, id, key, now) then Decoded(cache[id].data, key, decode) else ReadLive(live, key, decode)
  }

  ghost function CacheAfter(cache: Cache, live: Live, id: Id, key: string, now: int): Cache {
    if FreshHit(cache, id, key, now) || live.None? || live.value == map[] then cache
    else cache[id := Entry(live.value, now)]
  }

  class SecretReader {
    var cache: Cache

    constructor ()
      ensures cache == map[]
    {
      cache := map[];
    }

    /** `_read_k8s_secret_tls_value`; `live` is what the API server would answer now. */
    method Read(id: Id, key: string, now: int, live: Live, decode: Decoder) returns (r: Result<string>)
      modifies this
      ensures r == ReadResult(old(cache), live, id, key, now, decode)
      ensures cache == CacheAfter(old(cache), live, id, key, now)
    {
      if id in cache {
        var entry := cache[id];
        if now - entry.timestamp < MAX_AGE {
          if key in entry.data {
            r := Decode(entry.data[key], decode);
            return;
          }
        }
      }
      if live.None? {
        return Failure("Failed to read secret from Kubernetes API");
      }
      if live.value == map[] {
        return Failure("Secret has no data");
      }
      cache := cache[id := Entry(live.value, now)];
      if key !in live.value {
        return Failure("Key not found in secret");
      }
      r := Decode(live.value[key], decode);
    }

    /** `base64.b64decode(...).decode("utf-8")`, which may raise. */
    method Decode(encoded: string, decode: Decoder) returns (r: Result<string>)
      ensures r.Success? <==> decode(encoded).Some?
      ensures if r.Success? then decode(encoded) == Some(r.value) else r == Failure("Could not base64 decode key")
    {
      match decode(encoded) {
        case Some(v) => return Success(v);
        case None => return Failure("Could not base64 decode key");
      }
    }
  }

  // ----- Runs of reads and updates -----

  /** At `now` a value is read, or somebody changes, creates or deletes a Secret. */
  datatype Event =
    | Read(id: Id, key: string, now: int)
    | Update(secrets: map<Id, Data>)

  datatype State = State(secrets: map<Id, Data>, cache: Cache)

  function Held(secrets: map<Id, Data>, id: Id): Live { if id in secrets then Some(secrets[id]) else None }

  ghost function Step(s: State, e: Event): State {
    match e
    case Read(id, key, now) => s.(cache := CacheAfter(s.cache, Held(s.secrets, id), id, key, now))
    case Update(secrets) => s.(secrets := secrets)
  }

  /** The state before event `n`. */
  ghost function At(init: State, events: seq<Event>, n: nat): State
    requires n <= |events|
  {
    if n == 0 then init else Step(At(init, events, n - 1), events[n - 1])
  }

  ghost function ResultAt(init: State, events: seq<Event>, n: nat, decode: Decoder): Result<string>
    requires n < |events| && events[n].Read?
  {
    var s := At(init, events, n);
    ReadResult(s.cache, Held(s.secrets, events[n].id), events[n].id, events[n].key, events[n].now, decode)
  }

  /** Event `m` is a read at the time `at`, when the API server held `data` under `id`. */
  ghost predicate HeldWhenRead(init: State, events: seq<Event>, id: Id, data: Data, at: int, m: int) {
    && 0 <= m < |events| && events[m].Read? && events[m].id == id && events[m].now == at
    && Held(At(init, events, m).secrets, id) == Some(data)
  }

  /** Every cached copy was what the API server held at its timestamp. */
  lemma {:induction false} CachedWasHeld(init: State, events: seq<Event>, n: nat, id: Id)
    requires n <= |events| && init.cache == map[] && id in At(init, events, n).cache
    ensures var entry := At(init, events, n).cache[id];
      exists m :: m < n && HeldWhenRead(init, events, id, entry.data, entry.timestamp, m)
  {
    var before, e := At(init, events, n - 1), events[n - 1];
    if id in before.cache && At(init, events, n).cache[id] == before.cache[id] {
      CachedWasHeld(init, events, n - 1, id);
    } else {
      assert e.Read? && e.id == id;
      var entry := At(init, events, n).cache[id];
      assert HeldWhenRead(init, events, id, entry.data, entry.timestamp, n - 1);
    }
  }

  /**
    Staleness: every value returned is one that the Secret held under this key at a read less than a minute before,
    or at this one.
   */
  lemma StalenessBound(init: State, events: seq<Event>, n: nat, decode: Decoder)
    requires init.cache == map[] && n < |events| && events[n].Read? && ResultAt(init, events, n, decode).Success?
    ensures exists m, at, data ::
      (HeldWhenRead(init, events, events[n].id, data, at, m) && Explains(events[n], n, data, at, m)
       && decode(data[events[n].key]) == Some(ResultAt(init, events, n, decode).value))
  {
    var s, id, key, now := At(init, events, n), events[n].id, events[n].key, events[n].now;
    if FreshHit(s.cache, id, key, now) {
      CachedWasHeld(init, events, n, id);
      var entry := s.cache[id];
      var m :| m < n && HeldWhenRead(init, events, id, entry.data, entry.timestamp, m);
      assert Explains(events[n], n, entry.data, entry.timestamp, m);
    } else {
      var data := Held(s.secrets, id).value;
      assert HeldWhenRead(init, events, id, data, now, n);
      assert Explains(events[n], n, data, now, n);
    }
  }

  /** The data of event `m` has the key, and event `m` is the read `e` itself or less than a minute older. */
  predicate Explains(e: Event, n: nat, data: Data, at: int, m: int) {
    e.Read? && e.key in data && (m == n || (m < n && e.now - at < 60))
  }

  /** A key that the cached copy lacks is always looked up live, and so is everything once the copy is a minute old. */
  lemma AbsentKeyReadsLive(init: State, events: seq<Event>, n: nat, decode: Decoder)
    requires n < |events| && events[n].Read?
    requires var s := At(init, events, n); events[n].id in s.cache ==>
      (events[n].key !in s.cache[events[n].id].data || events[n].now - s.cache[events[n].id].timestamp >= MAX_AGE)
    ensures ResultAt(init, events, n, decode)
      == ReadLive(Held(At(init, events, n).secrets, events[n].id), events[n].key, decode)
  {
  }

  predicate Caches(s: State, id: Id, data: Data, at: int) { id in s.cache && s.cache[id] == Entry(data, at) }

  /** The event does not make the reader look at the API server again for this Secret. */
  ghost predicate LeavesCopy(e: Event, id: Id, data: Data, at: int) {
    e.Read? && e.id == id ==> e.key in data && e.now - at < 60
  }

  /**
    Certificate and key belong together: what is read from one Secret within a minute of a look at the API server
    comes from the version found then, whatever updates happen in between.
   */
  lemma {:induction false} OneVersion(init: State, events: seq<Event>, m: nat, n: nat, data: Data, decode: Decoder)
    requires m < n < |events| && events[m].Read? && events[n].Read? && events[n].id == events[m].id
    requires Caches(At(init, events, m + 1), events[m].id, data, events[m].now)
    requires forall j :: m < j <= n ==> LeavesCopy(events[j], events[m].id, data, events[m].now)
    ensures events[n].key in data
    ensures if decode(data[events[n].key]).Some?
            then ResultAt(init, events, n, decode) == Success(decode(data[events[n].key]).value)
            else ResultAt(init, events, n, decode).Failure?
  {
    CopyStays(init, events, m, n, data);
    assert LeavesCopy(events[n], events[m].id, data, events[m].now);
  }

  lemma {:induction false} CopyStays(init: State, events: seq<Event>, m: nat, n: nat, data: Data)
    requires m < n <= |events| && events[m].Read?
    requires Caches(At(init, events, m + 1), events[m].id, data, events[m].now)
    requires forall j :: m < j < n ==> LeavesCopy(events[j], events[m].id, data, events[m].now)
    ensures Caches(At(init, events, n), events[m].id, data, events[m].now)
  {
    if n > m + 1 {
      CopyStays(init, events, m, n - 1, data);
      assert LeavesCopy(events[n - 1], events[m].id, data, events[m].now);
    }
  }
}
