/** The cache of token-signing keys: a lookup answers from the last fetched key document
    while it is young enough, and fetches otherwise. */
module KeyCache {
  import opened Wrappers
  import opened Text
  import opened GoTime

  newtype Byte = b: int | 0 <= b < 256

  datatype Jwk = Jwk(kty: string, use: string, alg: string, kid: string, n: string, e: string)

  datatype RsaKey = RsaKey(modulus: int, exponent: int)

  type Keys = map<string, RsaKey>

  /** base64.RawURLEncoding.DecodeString, left open. */
  type Decoder = string -> Option<seq<Byte>>

  /** The cached document and when its fetch was complete; nothing before the first one. */
  datatype Cache = Cache(keys: Option<Keys>, fetchedAt: Time)

  const EMPTY_CACHE := Cache(None, ZERO)

  /** What the network does when a lookup fetches. */
  datatype Fetch = FetchFailed | Fetched(document: seq<Jwk>, completedAt: Time)

  const DEFAULT_TTL: int := 5 * MINUTE

  function EffectiveTtl(ttl: int): int {
    if ttl <= 0 then DEFAULT_TTL else ttl
  }

  // ---------- keys ----------

  function BigEndian(bytes: seq<Byte>): nat {
    if bytes == [] then 0 else BigEndian(bytes[..|bytes| - 1]) * 256 + bytes[|bytes| - 1] as int
  }

  /** rsaKey */
  function KeyOf(decode: Decoder, n: string, e: string): Option<RsaKey> {
    if decode(n).None? || decode(n).value == [] then None
    else if decode(e).None? || decode(e).value == [] || |decode(e).value| > 4 then None
    else if BigEndian(decode(e).value) < 3 then None
    else Some(RsaKey(BigEndian(decode(n).value), BigEndian(decode(e).value)))
  }

  /** The two texts decode to bytes, one to four for the exponent, and the key is their
      values; an exponent below three is no key. */
  ghost predicate IsKey(decode: Decoder, n: string, e: string, key: RsaKey) {
    && decode(n).Some? && |decode(n).value| >= 1 && key.modulus == BigEndian(decode(n).value)
    && decode(e).Some? && 1 <= |decode(e).value| <= 4 && key.exponent == BigEndian(decode(e).value) >= 3
  }

  /** The exponent is folded byte by byte. */
  method ParseKey(decode: Decoder, n: string, e: string) returns (key: Option<RsaKey>)
    ensures key == KeyOf(decode, n, e)
    ensures key.Some? ==> IsKey(decode, n, e, key.value)
    ensures key.None? ==> forall k :: !IsKey(decode, n, e, k)
  {
    var modulus := decode(n);
    if modulus.None? || |modulus.value| == 0 {
      return None;
    }
    var exponent := decode(e);
    if exponent.None? || |exponent.value| == 0 || |exponent.value| > 4 {
      return None;
    }
    var x := 0;
    for i := 0 to |exponent.value|
      invariant x == BigEndian(exponent.value[..i])
    {
      assert exponent.value[..i + 1][..i] == exponent.value[..i];
      x := x * 256 + exponent.value[i] as int;
    }
    assert exponent.value[..|exponent.value|] == exponent.value;
    if x < 3 {
      return None;
    }
    return Some(RsaKey(BigEndian(modulus.value), x));
  }

  function Weight(position: nat): nat {
    if position == 0 then 1 else 256 * Weight(position - 1)
  }

  /** The first byte weighs most: a power of 256 for each byte after it. */
  lemma {:induction false} FirstByteWeighs(first: Byte, rest: seq<Byte>)
    ensures BigEndian([first] + rest) == first as int * Weight(|rest|) + BigEndian(rest)
  {
    var all: seq<Byte> := [first] + rest;
    if rest == [] {
      assert all[..0] == [];
    } else {
      var front := rest[..|rest| - 1];
      assert all[..|all| - 1] == [first] + front;
      FirstByteWeighs(first, front);
      assert first as int * Weight(|rest|) == first as int * Weight(|front|) * 256;
    }
  }

  /** Leading zero bytes do not change an exponent, so the four-byte limit is on the
      encoding and not on the number. */
  lemma LeadingZero(bytes: seq<Byte>)
    ensures BigEndian([0] + bytes) == BigEndian(bytes)
  {
    FirstByteWeighs(0, bytes);
  }

  /** An entry a signature may be checked with. */
  function UsableKey(decode: Decoder, item: Jwk): Option<RsaKey> {
    if item.kty != "RSA" || TrimSpace(item.kid) == "" || item.n == "" || item.e == "" then None
    else if item.alg != "" && item.alg != "RS256" then None
    else if item.use != "" && item.use != "sig" then None
    else KeyOf(decode, item.n, item.e)
  }

  /** A usable entry: an RSA key with an id that is not blank, for RS256 and for signatures as
      far as it says, whose numbers make a key. */
  ghost predicate Usable(decode: Decoder, item: Jwk, key: RsaKey) {
    && item.kty == "RSA" && TrimSpace(item.kid) != "" && "" !in [item.n, item.e]
    && item.alg in ["", "RS256"] && item.use in ["", "sig"]
    && IsKey(decode, item.n, item.e, key)
  }

  lemma UsableMeans(decode: Decoder, item: Jwk, key: RsaKey)
    ensures UsableKey(decode, item) == Some(key) <==> Usable(decode, item, key)
  {
    hide BigEndian, TrimSpace;
  }

  /** key is that of the i-th entry, which has the id, and no later entry with it is usable. */
  ghost predicate IsLastAt(decode: Decoder, document: seq<Jwk>, kid: string, key: RsaKey, i: int) {
    && 0 <= i < |document| && document[i].kid == kid && Usable(decode, document[i], key)
    && forall j, other :: i < j < |document| && document[j].kid == kid ==> !Usable(decode, document[j], other)
  }

  ghost predicate IsLast(decode: Decoder, document: seq<Jwk>, kid: string, key: RsaKey) {
    exists i :: IsLastAt(decode, document, kid, key, i)
  }

  /** The last usable entry of a document for a key id. */
  function LastUsable(decode: Decoder, document: seq<Jwk>, kid: string): Option<RsaKey> {
    if document == [] then None
    else
      var last := document[|document| - 1];
      if last.kid == kid && UsableKey(decode, last).Some? then UsableKey(decode, last)
      else LastUsable(decode, document[..|document| - 1], kid)
  }

  /** Which key the id gets: that of the last usable entry, if there is one. */
  lemma {:induction false} LastUsableMeans(decode: Decoder, document: seq<Jwk>, kid: string, key: RsaKey)
    ensures LastUsable(decode, document, kid) == Some(key) <==> IsLast(decode, document, kid, key)
    ensures LastUsable(decode, document, kid).None? ==>
              forall i :: 0 <= i < |document| && document[i].kid == kid ==> !Usable(decode, document[i], key)
  {
    hide UsableKey, Usable;
    if document != [] {
      var n := |document| - 1;
      var front, last := document[..n], document[n];
      LastUsableMeans(decode, front, kid, key);
      forall k { UsableMeans(decode, last, k); }
      UsableMeans(decode, last, key);
      if last.kid == kid && UsableKey(decode, last).Some? {
        UsableMeans(decode, last, UsableKey(decode, last).value);
        assert IsLastAt(decode, document, kid, UsableKey(decode, last).value, n);
        if i :| IsLastAt(decode, document, kid, key, i) { assert i == n; }
      } else {
        if i :| IsLastAt(decode, front, kid, key, i) { assert IsLastAt(decode, document, kid, key, i); }
        if i :| IsLastAt(decode, document, kid, key, i) { assert IsLastAt(decode, front, kid, key, i); }
      }
    }
  }

  /** keys is the table of the last usable entries. */
  ghost predicate IsTable(decode: Decoder, document: seq<Jwk>, keys: Keys) {
    forall kid :: if kid in keys then LastUsable(decode, document, kid) == Some(keys[kid]) else LastUsable(decode, document, kid) == None
  }

  function TableOf(decode: Decoder, document: seq<Jwk>): Keys {
    if document == [] then map[]
    else
      var last, rest := document[|document| - 1], TableOf(decode, document[..|document| - 1]);
      if UsableKey(decode, last).Some? then rest[last.kid := UsableKey(decode, last).value] else rest
  }

  lemma {:induction false} TableOfIsTable(decode: Decoder, document: seq<Jwk>)
    ensures IsTable(decode, document, TableOf(decode, document))
  {
    hide UsableKey;
    if document != [] {
      TableOfIsTable(decode, document[..|document| - 1]);
    }
  }

  /** The table on the entries: every id has the key of its last usable entry. */
  lemma TableMeans(decode: Decoder, document: seq<Jwk>)
    ensures forall kid, key :: (kid in TableOf(decode, document) && TableOf(decode, document)[kid] == key) <==> IsLast(decode, document, kid, key)
  {
    TableOfIsTable(decode, document);
    forall kid, key { LastUsableMeans(decode, document, kid, key); }
    hide TableOf, LastUsable, IsLast;
  }

  method ParseDocument(decode: Decoder, document: seq<Jwk>) returns (keys: Keys)
    ensures keys == TableOf(decode, document)
    ensures forall kid, key :: (kid in keys && keys[kid] == key) <==> IsLast(decode, document, kid, key)
  {
    TableMeans(decode, document);
    hide IsLast, IsKey;
    keys := map[];
    for i := 0 to |document|
      invariant keys == TableOf(decode, document[..i])
    {
      assert document[..i + 1][..i] == document[..i];
      var item := document[i];
      if item.kty != "RSA" || TrimSpace(item.kid) == "" || item.n == "" || item.e == "" {
        continue;
      }
      if item.alg != "" && item.alg != "RS256" {
        continue;
      }
      if item.use != "" && item.use != "sig" {
        continue;
      }
      var key := ParseKey(decode, item.n, item.e);
      if key.None? {
        continue;
      }
      keys := keys[item.kid := key.value];
    }
    assert document[..|document|] == document;
  }

  // ---------- lookups ----------

  /** A fetch counts only if its document has a usable key. */
  predicate Useful(decode: Decoder, fetch: Fetch) {
    fetch.Fetched? && TableOf(decode, fetch.document) != map[]
  }

  /** It has one exactly when some entry is usable. */
  lemma UsefulMeans(decode: Decoder, fetch: Fetch)
    ensures Useful(decode, fetch) <==> fetch.Fetched? && exists item, key :: item in fetch.document && Usable(decode, item, key)
  {
    hide Usable;
    if fetch.Fetched? {
      SomeUsable(decode, fetch.document);
    }
  }

  lemma {:induction false} SomeUsable(decode: Decoder, document: seq<Jwk>)
    ensures TableOf(decode, document) != map[] <==> exists item, key :: item in document && Usable(decode, item, key)
  {
    hide UsableKey, Usable;
    if document != [] {
      var n := |document| - 1;
      var last := document[n];
      SomeUsable(decode, document[..n]);
      assert document == document[..n] + [last];
      forall key { UsableMeans(decode, last, key); }
      if UsableKey(decode, last).Some? {
        UsableMeans(decode, last, UsableKey(decode, last).value);
        assert last.kid in TableOf(decode, document);
      }
    }
  }

  function Refreshed(c: Cache, decode: Decoder, fetch: Fetch): Cache {
    if Useful(decode, fetch) then Cache(Some(TableOf(decode, fetch.document)), fetch.completedAt) else c
  }

  function Find(c: Cache, kid: string): Option<RsaKey> {
    if c.keys.Some? && kid in c.keys.value then Some(c.keys.value[kid]) else None
  }

  /** The cached document may answer. */
  predicate Hit(c: Cache, ttl: int, kid: string, force: bool, now: Time) {
    !force && c.keys.Some? && now.Sub(c.fetchedAt) < EffectiveTtl(ttl) && kid in c.keys.value
  }

  /** keyFor: the cache afterwards, the key if any, and the number of fetches. */
  function Lookup(c: Cache, decode: Decoder, ttl: int, kid: string, force: bool, now: Time, fetch: Fetch): (Cache, Option<RsaKey>, nat) {
    if Hit(c, ttl, kid, force, now) then (c, Find(c, kid), 0)
    else if !Useful(decode, fetch) then (c, None, 1)
    else (Refreshed(c, decode, fetch), Find(Refreshed(c, decode, fetch), kid), 1)
  }

  class Verifier {
    const decode: Decoder
    const ttl: int
    var keys: Option<Keys>
    var fetchedAt: Time

    constructor (decode: Decoder, ttl: int)
      ensures this.decode == decode && this.ttl == ttl && State() == EMPTY_CACHE
    {
      this.decode, this.ttl, keys, fetchedAt := decode, ttl, None, ZERO;
    }

    function State(): Cache
      reads this
    {
      Cache(keys, fetchedAt)
    }

    /** refreshKeysLocked: anything that goes wrong leaves keys and time alone. */
    method RefreshKeysLocked(fetch: Fetch) returns (ok: bool)
      modifies this
      ensures ok == Useful(decode, fetch)
      ensures ok <==> fetch.Fetched? && exists item, key :: item in fetch.document && Usable(decode, item, key)
      ensures State() == Refreshed(old(State()), decode, fetch)
      ensures !ok ==> keys == old(keys) && fetchedAt == old(fetchedAt)
      ensures ok ==> && keys.Some? && fetchedAt == fetch.completedAt
                     && forall kid, key :: (kid in keys.value && keys.value[kid] == key) <==> IsLast(decode, fetch.document, kid, key)
    {
      UsefulMeans(decode, fetch);
      hide Usable, IsLast, TableOf;
      if fetch.FetchFailed? {
        return false;
      }
      var table := ParseDocument(decode, fetch.document);
      if table == map[] {
        return false;
      }
      keys, fetchedAt := Some(table), fetch.completedAt;
      return true;
    }

    /** keyFor */
    method KeyFor(kid: string, force: bool, now: Time, fetch: Fetch) returns (key: Option<RsaKey>, ghost fetches: nat)
      modifies this
      ensures (State(), key, fetches) == Lookup(old(State()), decode, ttl, kid, force, now, fetch)
      ensures fetches == 0 || fetches == 1
      ensures fetches == 0 <==>
                && !force && old(keys).Some? && kid in old(keys).value
                && now.instant - old(fetchedAt).instant < (if ttl > 0 then ttl else 5 * 60 * 1_000_000_000)
      ensures fetches == 0 ==> key == Some(old(keys).value[kid]) && keys == old(keys) && fetchedAt == old(fetchedAt)
      ensures fetches == 1 ==> forall k :: key == Some(k) <==> fetch.Fetched? && IsLast(decode, fetch.document, kid, k)
    {
      if fetch.Fetched? { TableMeans(decode, fetch.document); }
      hide IsLast, TableOf, Usable;
      var cacheTtl := if ttl <= 0 then DEFAULT_TTL else ttl;
      if !force && keys.Some? && now.Sub(fetchedAt) < cacheTtl {
        if kid in keys.value {
          return Some(keys.value[kid]), 0;
        }
      }
      var ok := RefreshKeysLocked(fetch);
      if !ok {
        return None, 1;
      }
      if kid in keys.value {
        return Some(keys.value[kid]), 1;
      }
      return None, 1;
    }

    /** The key part of Verify: a second, forced attempt when the first finds nothing. */
    method FindKey(kid: string, now: Time, fetch: Fetch, later: Time, refetch: Fetch) returns (key: Option<RsaKey>, ghost fetches: nat)
      modifies this
      ensures fetches <= 2
      ensures fetches == 0 <==> Hit(old(State()), ttl, kid, false, now)
      ensures fetches == 2 <==>
                !Hit(old(State()), ttl, kid, false, now) && !(Useful(decode, fetch) && LastUsable(decode, fetch.document, kid).Some?)
      ensures State() ==
              if fetches == 0 then old(State())
              else if fetches == 1 then Refreshed(old(State()), decode, fetch)
              else Refreshed(Refreshed(old(State()), decode, fetch), decode, refetch)
      ensures key == if Hit(old(State()), ttl, kid, false, now) then Find(old(State()), kid)
                     else if Useful(decode, fetch) && LastUsable(decode, fetch.document, kid).Some? then LastUsable(decode, fetch.document, kid)
                     else if Useful(decode, refetch) then LastUsable(decode, refetch.document, kid)
                     else None
    {
      if fetch.Fetched? { TableOfIsTable(decode, fetch.document); }
      if refetch.Fetched? { TableOfIsTable(decode, refetch.document); }
      hide LastUsable, TableOf;
      ghost var again: nat := 0;
      key, fetches := KeyFor(kid, false, now, fetch);
      if key.None? {
        key, again := KeyFor(kid, true, later, refetch);
        fetches := fetches + again;
      }
    }
  }

  // ---------- runs ----------

  datatype Call = Call(kid: string, force: bool, now: Time, fetch: Fetch)

  /** Every lookup holds the mutex throughout, so any concurrent use is such a sequence. */
  ghost predicate IsRun(decode: Decoder, ttl: int, trace: seq<Cache>, calls: seq<Call>) {
    && |trace| == |calls| + 1
    && trace[0] == EMPTY_CACHE
    && forall i :: 0 <= i < |calls| ==>
         trace[i + 1] == Lookup(trace[i], decode, ttl, calls[i].kid, calls[i].force, calls[i].now, calls[i].fetch).0
  }

  function Answer(decode: Decoder, ttl: int, c: Cache, call: Call): Option<RsaKey> {
    Lookup(c, decode, ttl, call.kid, call.force, call.now, call.fetch).1
  }

  /** The call replaced the cached document. */
  predicate Replaces(decode: Decoder, ttl: int, c: Cache, call: Call) {
    !Hit(c, ttl, call.kid, call.force, call.now) && Useful(decode, call.fetch)
  }

  /** Call j is the last before position i that replaced the document, and the cache at i
      is what it fetched. */
  ghost predicate CameFrom(decode: Decoder, ttl: int, trace: seq<Cache>, calls: seq<Call>, i: nat, j: nat)
    requires IsRun(decode, ttl, trace, calls) && i <= |calls|
  {
    && j < i
    && Replaces(decode, ttl, trace[j], calls[j])
    && trace[i] == Cache(Some(TableOf(decode, calls[j].fetch.document)), calls[j].fetch.completedAt)
    && forall k :: j < k < i ==> !Replaces(decode, ttl, trace[k], calls[k])
  }

  lemma {:induction false} CacheOrigin(decode: Decoder, ttl: int, trace: seq<Cache>, calls: seq<Call>, i: nat) returns (j: nat)
    requires IsRun(decode, ttl, trace, calls) && i <= |calls|
    ensures trace[i].keys.None? ==> trace[i] == EMPTY_CACHE
    ensures trace[i].keys.Some? ==> CameFrom(decode, ttl, trace, calls, i, j)
  {
    hide TableOf;
    j := 0;
    if i > 0 {
      j := CacheOrigin(decode, ttl, trace, calls, i - 1);
      if Replaces(decode, ttl, trace[i - 1], calls[i - 1]) {
        j := i - 1;
      }
    }
  }

  /** In any run, a key that is returned is the last usable entry for its id in the last
      document that was fetched, and either this very call fetched it or the fetch was
      complete less than the TTL before the call. */
  lemma KeysAreRecent(decode: Decoder, ttl: int, trace: seq<Cache>, calls: seq<Call>, i: nat) returns (j: nat)
    requires IsRun(decode, ttl, trace, calls) && i < |calls|
    requires Answer(decode, ttl, trace[i], calls[i]).Some?
    ensures j <= i && Replaces(decode, ttl, trace[j], calls[j])
    ensures Answer(decode, ttl, trace[i], calls[i]) == LastUsable(decode, calls[j].fetch.document, calls[i].kid)
    ensures j == i || calls[i].now.Sub(calls[j].fetch.completedAt) < EffectiveTtl(ttl)
    ensures forall k :: j < k <= i ==> !Replaces(decode, ttl, trace[k], calls[k])
  {
    if Replaces(decode, ttl, trace[i], calls[i]) {
      j := i;
    } else {
      j := CacheOrigin(decode, ttl, trace, calls, i);
    }
    TableOfIsTable(decode, calls[j].fetch.document);
    hide TableOf, LastUsable;
  }

  /** A lookup answers exactly when the cached document may answer, or else the fetch brings
      a document with a usable entry for the id. */
  lemma AnswersExactly(decode: Decoder, ttl: int, c: Cache, call: Call)
    ensures Answer(decode, ttl, c, call).Some? <==>
            || Hit(c, ttl, call.kid, call.force, call.now)
            || (call.fetch.Fetched? && LastUsable(decode, call.fetch.document, call.kid).Some?)
  {
    if call.fetch.Fetched? {
      TableOfIsTable(decode, call.fetch.document);
      assert LastUsable(decode, call.fetch.document, call.kid).Some? <==> call.kid in TableOf(decode, call.fetch.document);
    }
    hide LastUsable, TableOf;
  }

  /** A withdrawn key stops being returned within the TTL: let call w be a fetch after which
      no fetched document has carried the key id, and let the TTL since it be over. */
  lemma WithdrawnKeysExpire(decode: Decoder, ttl: int, trace: seq<Cache>, calls: seq<Call>, w: nat, i: nat)
    requires IsRun(decode, ttl, trace, calls) && w < i < |calls|
    requires Replaces(decode, ttl, trace[w], calls[w])
    requires forall k :: w < k <= i && Replaces(decode, ttl, trace[k], calls[k]) ==>
               LastUsable(decode, calls[k].fetch.document, calls[i].kid).None?
    requires calls[i].now.Sub(calls[w].fetch.completedAt) >= EffectiveTtl(ttl)
    ensures Answer(decode, ttl, trace[i], calls[i]).None?
  {
    hide LastUsable, TableOf;
    if Answer(decode, ttl, trace[i], calls[i]).Some? {
      var j := KeysAreRecent(decode, ttl, trace, calls, i);
      assert false;
    }
  }

  /** A fetch that fails, or that brings no usable key, changes nothing. */
  lemma FailureChangesNothing(decode: Decoder, ttl: int, trace: seq<Cache>, calls: seq<Call>, i: nat)
    requires IsRun(decode, ttl, trace, calls) && i < |calls|
    ensures !Useful(decode, calls[i].fetch) ==> trace[i + 1] == trace[i]
    ensures !Replaces(decode, ttl, trace[i], calls[i]) ==> trace[i + 1] == trace[i]
    ensures !Useful(decode, calls[i].fetch) && Answer(decode, ttl, trace[i], calls[i]).Some? ==>
              Hit(trace[i], ttl, calls[i].kid, calls[i].force, calls[i].now)
  {
    hide TableOf;
  }
}
