/**
 * The static-asset response cache middleware (`cache-response/src/cache.rs`).
 *
 * A request whose own `content-type` header names an asset type goes through
 * the cache: a stored response for the same target is served again with
 * status 206 and without calling the rest of the pipeline; otherwise the
 * pipeline is called, its response is tagged with two caching headers, read
 * into memory, stored under the target and returned. Every other request is
 * passed straight through.
 */
module CacheResponse {
  import opened Wrappers
  import opened Text
  import opened Http
  import opened SizedStore

  /** The asset types eligible for caching, matched as substrings of the content type. */
  const ASSETS_TYPE: seq<string> := ["css", "javascript", "wasm", "webp", "ttf", "x-icon"]

  /** The number of slots of the store (`SizedCache::with_size(200)`). */
  const CACHE_SIZE: nat := 200

  const CACHE_X_K := "x-cache-status"
  const CACHE_X_V := "HIT"
  const CACHE_C_K := "cache-control"
  const CACHE_C_V := "public, max-age=31536000"

  /** The body of the response sent when the downstream body cannot be read. */
  const FAILED_BODY: Bytes := AsciiBytes("Failed to convert body to bytes")

  /** What the store keeps for a target: the response parts and the body bytes. */
  datatype Entry = Entry(parts: Parts, bytes: Bytes)

  type Entries = seq<(string, Entry)>

  /** The bytes of an ASCII string. */
  function AsciiBytes(s: string): (r: Bytes)
    requires forall i :: 0 <= i < |s| ==> s[i] as int < 128
    ensures |r| == |s| && forall i :: 0 <= i < |s| ==> r[i] == s[i] as int
  {
    seq(|s|, i requires 0 <= i < |s| => s[i] as int)
  }

  /** `ASSETS_TYPE.iter().any(|t| type_.contains(t))`. */
  function IsAssetType(contentType: string): bool
  {
    Any(ASSETS_TYPE, t => Contains(contentType, t))
  }

  /** A content type is an asset type iff one of the six tags occurs in it, case-sensitively. */
  lemma IsAssetTypeSpec(contentType: string)
    ensures IsAssetType(contentType) <==>
      exists k, i: nat :: 0 <= k < |ASSETS_TYPE| && OccursAt(contentType, ASSETS_TYPE[k], i)
  {
    forall k | 0 <= k < |ASSETS_TYPE| {
      ContainsSpec(contentType, ASSETS_TYPE[k]);
    }
  }

  /** A content type in which some tag occurs is an asset type. */
  lemma TagMakesAssetType(contentType: string, k: nat, i: nat)
    requires k < |ASSETS_TYPE| && OccursAt(contentType, ASSETS_TYPE[k], i)
    ensures IsAssetType(contentType)
  {
    ContainsSpec(contentType, ASSETS_TYPE[k]);
  }

  /** The first two characters of no tag stand side by side in `s`. */
  predicate NoTagPair(s: string)
  {
    forall i, k :: 0 <= i < |s| - 1 && 0 <= k < |ASSETS_TYPE| ==>
      !(s[i] == ASSETS_TYPE[k][0] && s[i + 1] == ASSETS_TYPE[k][1])
  }

  /** A content type in which no tag can start is not an asset type. */
  lemma NoPairOfAnyTag(s: string)
    requires NoTagPair(s)
    ensures !IsAssetType(s)
  {
    forall k | 0 <= k < |ASSETS_TYPE| ensures !Contains(s, ASSETS_TYPE[k]) {
      AbsentPairNotContained(s, ASSETS_TYPE[k]);
    }
  }

  /** The content types of stylesheets, scripts, WebAssembly and icons are assets. */
  lemma AssetTypeExamples(ct: string)
    requires ct == "text/css" || ct == "application/javascript" || ct == "application/wasm" || ct == "image/x-icon"
    ensures IsAssetType(ct)
  {
    if ct == "text/css" {
      assert ct[5..8] == ASSETS_TYPE[0];
      TagMakesAssetType(ct, 0, 5);
    } else if ct == "application/javascript" {
      assert ct[12..22] == ASSETS_TYPE[1];
      TagMakesAssetType(ct, 1, 12);
    } else if ct == "application/wasm" {
      assert ct[12..16] == ASSETS_TYPE[2];
      TagMakesAssetType(ct, 2, 12);
    } else {
      assert ct[6..12] == ASSETS_TYPE[5];
      TagMakesAssetType(ct, 5, 6);
    }
  }

  /** HTML pages and JSON documents are not assets. */
  lemma NonAssetTypeExamples(ct: string)
    requires ct == "text/html" || ct == "application/json"
    ensures !IsAssetType(ct)
  {
    if ct == "text/html" {
      assert ct == ['t', 'e', 'x', 't', '/', 'h', 't', 'm', 'l'];
    } else {
      assert ct == ['a', 'p', 'p', 'l', 'i', 'c', 'a', 't', 'i', 'o', 'n', '/', 'j', 's', 'o', 'n'];
    }
    NoPairOfAnyTag(ct);
  }

  /**
   * Whether the request goes through the cache: the first `content-type`
   * header of the REQUEST is readable as text and names an asset type; a
   * missing or unreadable header counts as "no" (`unwrap_or_default`).
   */
  function Eligible(req: Request): bool
  {
    match Get(req.headers, CONTENT_TYPE)
    case None => false
    case Some(v) =>
      match ToStr(v)
      case None => false
      case Some(t) => IsAssetType(t)
  }

  /**
   * Eligibility, stated flat: a present, visible-ASCII request content type
   * naming an asset type. A request without the header, or with one that is
   * not text, is never eligible.
   */
  lemma EligibleIff(req: Request)
    ensures Get(req.headers, CONTENT_TYPE).None? ==> !Eligible(req)
    ensures (exists v :: Get(req.headers, CONTENT_TYPE) == Some(v) && !VisibleAscii(v)) ==> !Eligible(req)
    ensures Eligible(req) <==>
      && Get(req.headers, CONTENT_TYPE).Some?
      && VisibleAscii(Get(req.headers, CONTENT_TYPE).value)
      && IsAssetType(Get(req.headers, CONTENT_TYPE).value)
    ensures Eligible(req) <==>
      && Get(req.headers, CONTENT_TYPE).Some?
      && VisibleAscii(Get(req.headers, CONTENT_TYPE).value)
      && exists k, i: nat :: 0 <= k < |ASSETS_TYPE| && OccursAt(Get(req.headers, CONTENT_TYPE).value, ASSETS_TYPE[k], i)
  {
    if Get(req.headers, CONTENT_TYPE).Some? {
      IsAssetTypeSpec(Get(req.headers, CONTENT_TYPE).value);
    }
  }

  /** The cache key: the request target, verbatim. */
  function CacheKey(req: Request): string
  {
    Target(req.uri)
  }

  /** Equal targets give equal keys, and (no normalisation) distinct valid targets give distinct keys. */
  lemma CacheKeyIsTarget(r1: Request, r2: Request)
    requires ValidUri(r1.uri) && ValidUri(r2.uri)
    ensures CacheKey(r1) == CacheKey(r2) <==> r1.uri == r2.uri
  {
    TargetInjective(r1.uri, r2.uri);
  }

  /** The two headers every response built on a miss carries. */
  function Tag(p: Parts): Parts
  {
    p.(headers := Insert(Insert(p.headers, CACHE_X_K, CACHE_X_V), CACHE_C_K, CACHE_C_V))
  }

  /** A miss keeps the header-name convention: both tag names are lower case. */
  lemma TagKeepsLowerCase(p: Parts)
    requires LowerCaseNames(p.headers)
    ensures LowerCaseNames(Tag(p).headers)
  {
    InsertKeepsLowerCase(p.headers, CACHE_X_K, CACHE_X_V);
    InsertKeepsLowerCase(Insert(p.headers, CACHE_X_K, CACHE_X_V), CACHE_C_K, CACHE_C_V);
  }

  /**
   * What one call of the middleware does, for a store holding `entries` and a
   * downstream handler that would answer `next`: the response, the store
   * afterwards, and whether the downstream handler was called.
   */
  datatype Outcome = Outcome(response: Message, entries: Entries, ranNext: bool)

  function Handle(entries: Entries, req: Request, next: Message): Outcome
  {
    if !Eligible(req) then Outcome(next, entries, true)
    else
      var key := CacheKey(req);
      match Lookup(entries, key)
      case Some(e) =>
        Outcome(Message(e.parts.(status := PARTIAL_CONTENT), Full(e.bytes)), Touch(entries, key), false)
      case None =>
        var parts := Tag(next.parts);
        match ToBytes(next.body)
        case Ok(bytes) =>
          Outcome(Message(parts, Full(bytes)), Put(CACHE_SIZE, entries, key, Entry(parts, bytes)), true)
        case Err =>
          Outcome(Message(Parts(INSUFFICIENT_STORAGE, []), Full(FAILED_BODY)), entries, true)
  }

  /** `handler`: the middleware, over the process-wide store `cache`. */
  method Handler(cache: SizedCache<string, Entry>, req: Request, next: Message)
    returns (response: Response, ranNext: bool)
    requires cache.Valid() && cache.capacity == CACHE_SIZE
    modifies cache
    ensures cache.Valid() && fresh(response)
    ensures response.Value() == Handle(old(cache.entries), req, next).response
    ensures cache.entries == Handle(old(cache.entries), req, next).entries
    ensures ranNext == Handle(old(cache.entries), req, next).ranNext
  {
    if !Eligible(req) {
      response := new Response.FromParts(next.parts, next.body);
      ranNext := true;
      return;
    }

    var size := cache.CacheSize();

    var key := CacheKey(req);

    var hit := cache.CacheGet(key);
    if hit.Some? {
      var entry := hit.value;
      response := new Response.FromParts(entry.parts, Full(entry.bytes));
      response.SetStatus(PARTIAL_CONTENT);
      ranNext := false;
      return;
    }

    response := new Response.FromParts(next.parts, next.body);
    ranNext := true;

    response.InsertHeader(CACHE_X_K, CACHE_X_V);
    response.InsertHeader(CACHE_C_K, CACHE_C_V);

    var parts, body := response.parts, response.body;

    var drained := ToBytes(body);
    if drained.Ok? {
      var bytes := drained.bytes;
      var previous := cache.CacheSet(key, Entry(parts, bytes));
      response := new Response.FromParts(parts, Full(bytes));
    } else {
      response := new Response.FromParts(Parts(INSUFFICIENT_STORAGE, []), Full(FAILED_BODY));
    }
  }

  /** A request that is not eligible is passed through: downstream's own response, the store untouched. */
  lemma IneligiblePassesThrough(entries: Entries, req: Request, next: Message)
    requires !Eligible(req)
    ensures Handle(entries, req, next) == Outcome(next, entries, true)
  {
  }

  /**
   * A hit serves the stored parts and bytes with the status replaced by 206,
   * without calling downstream; the store keeps the same contents and size.
   */
  lemma HitServesStored(entries: Entries, req: Request, next: Message, e: Entry)
    requires Invariant(CACHE_SIZE, entries)
    requires Eligible(req) && Lookup(entries, CacheKey(req)) == Some(e)
    ensures Handle(entries, req, next).response == Message(e.parts.(status := PARTIAL_CONTENT), Full(e.bytes))
    ensures Handle(entries, req, next).response.parts.headers == e.parts.headers
    ensures !Handle(entries, req, next).ranNext
    ensures |Handle(entries, req, next).entries| == |entries|
    ensures forall k :: Lookup(Handle(entries, req, next).entries, k) == Lookup(entries, k)
  {
    TouchKeepsContents(CACHE_SIZE, entries, CacheKey(req));
  }

  /**
   * On a miss whose body is read, the response has downstream's status and
   * body, exactly one `x-cache-status: HIT` and one
   * `cache-control: public, max-age=31536000`, and every other header as
   * downstream sent it.
   */
  lemma MissTagsResponse(entries: Entries, req: Request, next: Message, bytes: Bytes)
    requires Eligible(req) && Lookup(entries, CacheKey(req)) == None
    requires ToBytes(next.body) == Ok(bytes)
    ensures Handle(entries, req, next).ranNext
    ensures Handle(entries, req, next).response.parts.status == next.parts.status
    ensures Handle(entries, req, next).response.body == Full(bytes)
    ensures Values(Handle(entries, req, next).response.parts.headers, CACHE_X_K) == [CACHE_X_V]
    ensures Values(Handle(entries, req, next).response.parts.headers, CACHE_C_K) == [CACHE_C_V]
    ensures forall name :: name != CACHE_X_K && name != CACHE_C_K ==>
      Values(Handle(entries, req, next).response.parts.headers, name) == Values(next.parts.headers, name)
  {
  }

  /**
   * On a miss whose body is read, the store maps the key to exactly the
   * returned parts and bytes, and the store's invariant still holds.
   */
  lemma MissStoresResponse(entries: Entries, req: Request, next: Message, bytes: Bytes)
    requires Invariant(CACHE_SIZE, entries)
    requires Eligible(req) && Lookup(entries, CacheKey(req)) == None
    requires ToBytes(next.body) == Ok(bytes)
    ensures Lookup(Handle(entries, req, next).entries, CacheKey(req)) ==
      Some(Entry(Handle(entries, req, next).response.parts, bytes))
    ensures Invariant(CACHE_SIZE, Handle(entries, req, next).entries)
  {
    PutKeepsInvariant(CACHE_SIZE, entries, CacheKey(req), Entry(Tag(next.parts), bytes));
  }

  /** When the body cannot be read: status 507, the fixed message, no headers, nothing stored. */
  lemma ReadFailureIs507(entries: Entries, req: Request, next: Message)
    requires Eligible(req) && Lookup(entries, CacheKey(req)) == None
    requires ToBytes(next.body) == Err
    ensures Handle(entries, req, next).response.parts.status == INSUFFICIENT_STORAGE
    ensures Handle(entries, req, next).response.parts.headers == []
    ensures Handle(entries, req, next).response.body == Full(FAILED_BODY)
    ensures Handle(entries, req, next).entries == entries
    ensures Handle(entries, req, next).ranNext
  {
  }

  /** Every call keeps the store within its 200 slots and free of duplicate keys. */
  lemma HandleKeepsInvariant(entries: Entries, req: Request, next: Message)
    requires Invariant(CACHE_SIZE, entries)
    ensures Invariant(CACHE_SIZE, Handle(entries, req, next).entries)
    ensures |Handle(entries, req, next).entries| <= CACHE_SIZE
  {
    if Eligible(req) {
      var key := CacheKey(req);
      match Lookup(entries, key)
      case Some(e) =>
        TouchKeepsContents(CACHE_SIZE, entries, key);
      case None =>
        match ToBytes(next.body)
        case Ok(bytes) =>
          PutKeepsInvariant(CACHE_SIZE, entries, key, Entry(Tag(next.parts), bytes));
        case Err =>
    }
  }

  /**
   * A miss followed by a request for the same target: the second call is a
   * hit that serves the first response again, headers and body unchanged,
   * with status 206, and downstream is not called.
   */
  lemma HitAfterMiss(entries: Entries, req1: Request, next1: Message, req2: Request, next2: Message, bytes: Bytes)
    requires Invariant(CACHE_SIZE, entries)
    requires Eligible(req1) && Lookup(entries, CacheKey(req1)) == None
    requires ToBytes(next1.body) == Ok(bytes)
    requires Eligible(req2) && CacheKey(req2) == CacheKey(req1)
    ensures Handle(Handle(entries, req1, next1).entries, req2, next2).response ==
      Message(Handle(entries, req1, next1).response.parts.(status := PARTIAL_CONTENT), Full(bytes))
    ensures !Handle(Handle(entries, req1, next1).entries, req2, next2).ranNext
  {
    MissStoresResponse(entries, req1, next1, bytes);
  }
}
