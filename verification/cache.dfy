/** The tenant-scoped answer cache (`CacheService`).

    The key/value store is a map from key to the stored text, and the service
    holds either no connection at all or a connection to it. The store fails
    command by command: each operation takes `up`, whether the store answers
    that command.
    SHA-256 and JSON are collaborators: the digest is any function onto
    16-character strings and the codec is any pair of encode and decode
    functions. Expiry (the TTL of `setex`) is not modelled. */
module Cache {

  import opened Wrappers
  import opened Text
  import opened Identifiers

  /** The first 16 hex digits of a SHA-256 digest. */
  type Digest = s: string | |s| == 16 witness "0000000000000000"

  /** Every key the service writes starts with this. */
  const KeyPrefix: string := "ka:query:"

  /** `json.dumps` and `json.loads`; `decode` gives `None` when the text does
      not parse. */
  datatype Codec<!P> = Codec(encode: P -> string, decode: string -> Option<P>)

  /** `self.redis`: no connection, or a connection to the store holding
      `entries`. */
  datatype Conn = Offline | Online(entries: map<string, string>)

  datatype CacheError = StoreError

  /** `question.strip().lower()`. */
  function NormalizeQuestion(question: string): string {
    Lower(Strip(question))
  }

  /** The key prefix that every cache entry of `tenant` carries. */
  function TenantPrefix(tenant: string): string {
    KeyPrefix + tenant + ":"
  }

  /** `_cache_key`: `"ka:query:{tenant}:{digest}"`. */
  function CacheKey(digest: string -> Digest, tenant: string, question: string): (key: string)
    ensures HasPrefix(key, TenantPrefix(tenant))
    ensures |key| == |KeyPrefix| + |tenant| + 1 + 16
    ensures key[|key| - 16..] == digest(NormalizeQuestion(question))
  {
    var key := TenantPrefix(tenant) + digest(NormalizeQuestion(question));
    assert key[..|TenantPrefix(tenant)|] == TenantPrefix(tenant);
    key
  }

  /** `get_cached_answer`. Without a connection, on a store error, on a missing
      or empty value, and on text that does not parse, the answer is absent. */
  function Get<P>(conn: Conn, up: bool, digest: string -> Digest, codec: Codec<P>, tenant: string, question: string): (r: Option<P>)
    ensures r.Some? <==>
      && conn.Online? && up
      && CacheKey(digest, tenant, question) in conn.entries
      && conn.entries[CacheKey(digest, tenant, question)] != ""
      && codec.decode(conn.entries[CacheKey(digest, tenant, question)]).Some?
    ensures r.Some? ==> r == codec.decode(conn.entries[CacheKey(digest, tenant, question)])
  {
    match conn
    case Offline => None
    case Online(entries) =>
      if !up then None
      else
        var key := CacheKey(digest, tenant, question);
        if key in entries && entries[key] != "" then codec.decode(entries[key]) else None
  }

  /** `set_cached_answer`. Without a connection, or when the store fails, the
      call changes nothing and reports nothing. */
  function Set<P>(conn: Conn, up: bool, digest: string -> Digest, codec: Codec<P>, tenant: string, question: string, payload: P): (c: Conn)
    ensures !(conn.Online? && up) ==> c == conn
    ensures conn.Online? && up ==>
      && c.Online?
      && c.entries.Keys == conn.entries.Keys + {CacheKey(digest, tenant, question)}
      && c.entries[CacheKey(digest, tenant, question)] == codec.encode(payload)
      && forall k :: k in conn.entries && k != CacheKey(digest, tenant, question) ==> c.entries[k] == conn.entries[k]
  {
    match conn
    case Offline => conn
    case Online(entries) =>
      if !up then conn
      else Online(entries[CacheKey(digest, tenant, question) := codec.encode(payload)])
  }

  /** The keys `scan_iter(match="ka:query:{tenant}:*")` visits. A tenant id
      is a UUID, which holds no glob metacharacter, so the pattern matches
      exactly the keys with the tenant's prefix. */
  function TenantKeys(entries: map<string, string>, tenant: TenantId): set<string> {
    set k | k in entries && HasPrefix(k, TenantPrefix(tenant))
  }

  /** `invalidate_tenant`: deletes every key of the tenant and returns how
      many it deleted. Without a connection it returns 0; a store error is not
      caught and reaches the caller. */
  function Invalidate(conn: Conn, up: bool, tenant: TenantId): (r: Result<(Conn, nat), CacheError>)
    ensures conn.Offline? ==> r == Success((conn, 0))
    ensures conn.Online? && !up ==> r.Failure?
    ensures conn.Online? && up ==>
      && r.Success? && r.value.0.Online?
      && (forall k :: k in r.value.0.entries <==> k in conn.entries && !HasPrefix(k, TenantPrefix(tenant)))
      && (forall k :: k in r.value.0.entries ==> r.value.0.entries[k] == conn.entries[k])
      && r.value.1 == |TenantKeys(conn.entries, tenant)|
  {
    match conn
    case Offline => Success((conn, 0))
    case Online(entries) =>
      if !up then Failure(StoreError)
      else
        var doomed := TenantKeys(entries, tenant);
        Success((Online(entries - doomed), |doomed|))
  }

  // ---------------------------------------------------------------------
  // Keys

  lemma TenantPrefixOf(key: string, tenant: string, digest: Digest)
    requires key == TenantPrefix(tenant) + digest
    ensures key[|KeyPrefix|..|KeyPrefix| + |tenant|] == tenant
  {
    assert key == KeyPrefix + tenant + (":" + digest);
  }

  /** Distinct tenants never share a key, whatever the two questions are: the
      digest has a fixed length, so the key determines the tenant. */
  lemma KeysSeparateTenants(digest: string -> Digest, t1: string, t2: string, q1: string, q2: string)
    requires t1 != t2
    ensures CacheKey(digest, t1, q1) != CacheKey(digest, t2, q2)
  {
    var k1 := CacheKey(digest, t1, q1);
    var k2 := CacheKey(digest, t2, q2);
    if k1 == k2 {
      assert |t1| == |t2|;
      TenantPrefixOf(k1, t1, digest(NormalizeQuestion(q1)));
      TenantPrefixOf(k2, t2, digest(NormalizeQuestion(q2)));
    }
  }

  /** Whitespace around the question does not change the key. */
  lemma KeyIgnoresPadding(digest: string -> Digest, tenant: string, front: string, question: string, back: string)
    requires AllSpace(front) && AllSpace(back)
    ensures CacheKey(digest, tenant, front + question + back) == CacheKey(digest, tenant, question)
  {
    StripIgnoresPadding(front, question, back);
  }

  /** Letter case does not change the key: questions that agree once
      lower-cased get the same key. */
  lemma KeyIgnoresCase(digest: string -> Digest, tenant: string, q1: string, q2: string)
    requires Lower(q1) == Lower(q2)
    ensures CacheKey(digest, tenant, q1) == CacheKey(digest, tenant, q2)
  {
    LowerStrip(q1);
    LowerStrip(q2);
  }

  /** Whitespace inside the question is kept: a question that neither
      starts nor ends with whitespace is only lower-cased, whatever spaces
      it holds between its ends. */
  lemma NormalizeKeepsInnerSpace(s: string)
    requires s != [] && !IsSpace(s[0]) && !IsSpace(s[|s| - 1])
    ensures NormalizeQuestion(s) == Lower(s)
  {
    assert SpaceEnd(s, 0) == 0;
    assert SpaceStart(s, |s|) == |s|;
    assert Strip(s) == s[0..|s|] == s;
  }

  /** So "a b" and "a  b" normalise differently, and their keys differ
      unless the digest collides. */
  lemma InnerSpaceExamples()
    ensures NormalizeQuestion("a b") == "a b"
    ensures NormalizeQuestion("a  b") == "a  b"
  {
    NormalizeKeepsInnerSpace("a b");
    NormalizeKeepsInnerSpace("a  b");
    assert Lower("a b") == "a b";
    assert Lower("a  b") == "a  b";
  }

  /** Lower-casing and stripping commute, since lower-casing maps whitespace
      to whitespace and nothing else to whitespace. */
  lemma LowerStrip(s: string)
    ensures Lower(Strip(s)) == Strip(Lower(s))
  {
    var l := Lower(s);
    forall i | 0 <= i < |s| ensures IsSpace(l[i]) == IsSpace(s[i]) {
      LowerKeepsSpace(s[i]);
    }
    var a := SpaceEnd(s, 0);
    SpaceEndIs(l, 0, a);
    if a < |s| {
      var b := SpaceStart(s, |s|);
      SpaceStartIs(l, |l|, b);
      LowerSlice(s, a, b);
    }
  }

  lemma LowerKeepsSpace(c: char)
    ensures IsSpace(LowerChar(c)) == IsSpace(c)
  {
  }

  lemma LowerSlice(s: string, i: nat, j: nat)
    requires i <= j <= |s|
    ensures Lower(s[i..j]) == Lower(s)[i..j]
  {
    var a := Lower(s[i..j]);
    var b := Lower(s)[i..j];
    assert |a| == |b|;
    forall k | 0 <= k < |a| ensures a[k] == b[k] {
      assert s[i..j][k] == s[i + k];
    }
  }

  // ---------------------------------------------------------------------
  // Get, set and invalidate together

  /** Round trip: after a successful `set`, a `get` for the same tenant and
      any question with the same normal form returns the stored payload,
      provided the codec round-trips and never encodes to the empty text. */
  lemma SetThenGet<P>(conn: Conn, digest: string -> Digest, codec: Codec<P>, tenant: string, q: string, q': string, payload: P)
    requires conn.Online?
    requires NormalizeQuestion(q') == NormalizeQuestion(q)
    requires codec.encode(payload) != "" && codec.decode(codec.encode(payload)) == Some(payload)
    ensures Get(Set(conn, true, digest, codec, tenant, q, payload), true, digest, codec, tenant, q') == Some(payload)
  {
  }

  /** A `set` for one tenant leaves every other tenant's answers as they were. */
  lemma SetIsolatesTenants<P>(conn: Conn, up: bool, up': bool, digest: string -> Digest, codec: Codec<P>, tenant: string, other: string, q: string, q': string, payload: P)
    requires other != tenant
    ensures Get(Set(conn, up, digest, codec, tenant, q, payload), up', digest, codec, other, q') == Get(conn, up', digest, codec, other, q')
  {
    KeysSeparateTenants(digest, tenant, other, q, q');
  }

  /** A key of one UUID tenant never carries another UUID tenant's prefix. */
  lemma PrefixIsolatesTenants(digest: string -> Digest, tenant: TenantId, other: TenantId, q: string)
    requires other != tenant
    ensures !HasPrefix(CacheKey(digest, other, q), TenantPrefix(tenant))
  {
    var key := CacheKey(digest, other, q);
    var p := TenantPrefix(tenant);
    if HasPrefix(key, p) {
      TenantPrefixOf(key, other, digest(NormalizeQuestion(q)));
      assert key[..|p|] == p;
      forall i | 0 <= i < 36 ensures tenant[i] == other[i] {
        assert p[|KeyPrefix| + i] == tenant[i];
        assert key[|KeyPrefix| + i] == other[i];
      }
    }
  }

  /** After invalidating a tenant, every question of that tenant misses. */
  lemma InvalidateThenMiss<P>(conn: Conn, up: bool, up': bool, digest: string -> Digest, codec: Codec<P>, tenant: TenantId, q: string)
    requires Invalidate(conn, up, tenant).Success?
    ensures Get(Invalidate(conn, up, tenant).value.0, up', digest, codec, tenant, q) == None
  {
  }

  /** Invalidating a tenant leaves every other tenant's answers as they were. */
  lemma InvalidateIsolatesTenants<P>(conn: Conn, up: bool, up': bool, digest: string -> Digest, codec: Codec<P>, tenant: TenantId, other: TenantId, q: string)
    requires other != tenant && Invalidate(conn, up, tenant).Success?
    ensures Get(Invalidate(conn, up, tenant).value.0, up', digest, codec, other, q) == Get(conn, up', digest, codec, other, q)
  {
    PrefixIsolatesTenants(digest, tenant, other, q);
  }
}
