# Static-asset response cache, route guard and error mapping — a Dafny model

This project models three small pieces of request/response logic from a set of
Leptos/axum example servers:

- **The response cache middleware** (`cache-response/src/cache.rs`). A request
  whose own `content-type` header names a static-asset type (`css`,
  `javascript`, `wasm`, `webp`, `ttf`, `x-icon`, matched as case-sensitive
  substrings) goes through a 200-slot store keyed by the request target. On a
  hit the stored response is served again with status 206 (Partial Content)
  and the downstream handler is not called. On a miss the downstream handler
  is called. Its response gets `x-cache-status: HIT` and
  `cache-control: public, max-age=31536000`, its body is read into memory,
  and the result is stored and returned. If the body cannot be read, the
  answer is 507 (Insufficient Storage) with the body
  `Failed to convert body to bytes`, and nothing is stored. Any other request
  is passed straight through.
- **The protected-route guard** (`protected-routes/src/proutes.rs`). A path
  that starts with `/dashboard` is redirected to `/login` (307) unless the
  session holds a token. Every other request is forwarded.
- **The application error type** (`protected-routes/src/errors.rs`). It covers
  the four variants, the status each maps to (404 for `NotFound`, 400
  otherwise), their fixed display texts, and the three `From` conversions.

Modules, one file each:

| file | module | models |
|---|---|---|
| `wrappers.dfy` | `Wrappers` | `Option` |
| `text.dfy` | `Text` | `str::contains`, `str::starts_with`, `Iterator::any` |
| `http.dfy` | `Http` | status codes, the header multimap (`get`, `insert`), `HeaderValue::to_str`, request targets, bodies, `Redirect::temporary`, and a `Response` object changed in place |
| `sized_store.dfy` | `SizedStore` | the `SizedCache` store: a class over a sequence of (key, value) pairs, most recently used first |
| `cache_response.dfy` | `CacheResponse` | `cache.rs`: eligibility, cache key, `handler` as a method over the store, the specification function `Handle` it is proved against, and lemmas about `Handle` |
| `protected_routes.dfy` | `ProtectedRoutes` | `proutes.rs` |
| `app_errors.dfy` | `AppErrors` | `errors.rs` |

How the cache is modelled:

- `CacheResponse.Handler` is a method. It changes a `SizedStore.SizedCache`
  object in place and builds `Http.Response` objects, whose status and
  headers it sets in place (`status_mut`, `headers_mut().insert`).
- Its postcondition ties the returned response, the new store contents and
  whether downstream ran to the pure function `CacheResponse.Handle`. The
  properties of the middleware are lemmas about `Handle`.
- The downstream handler is an input: the `Message` (parts and body) it would
  return. The body either reads in full (`Full(bytes)`) or fails part way
  (`Failing`), which stands for `to_bytes` returning `Err`. The out-parameter
  `ranNext` says whether downstream was called.
- The store's least-recently-used order is a **model assumption**. The
  `cached` crate's code is not part of this model. A read moves the key read
  to the front. A write puts the written entry at the front. A new key in a
  full store evicts the last entry.

What the code does, path by path:

- Eligibility is decided from the **request's** own `content-type` header
  (cache.rs:59-68). The response's content type is never looked at, so
  every miss whose body reads is stored, whatever type the downstream
  response has (`MissStoresResponse` holds for any downstream response).
- The two caching headers go on every miss response whose body reads,
  including the first one, which is not a hit; the 507 answer carries no
  headers.
- A hit replaces the stored status with 206. The stored entry keeps the
  original status.

Header names follow one convention throughout, stated as
`Http.LowerCaseNames`: `http::HeaderName` stores names in lower case, so a
header sent as `Content-Type` is found under `content-type`. A header map
written with an upper-case name is outside the convention, and the model
says nothing about it.

## Model

| member | source | states |
|---|---|---|
| `Text.ContainsSpec` | cache-response/src/cache.rs:65 | `contains` finds a pattern iff the pattern occurs as a contiguous block at some index |
| `Text.StartsWithSpec` | protected-routes/src/proutes.rs:21 | `starts_with` holds iff the pattern is a prefix of the string |
| `Text.Any` | cache-response/src/cache.rs:65 | `any` is true iff some element of the list satisfies the predicate |
| `Http.Insert` | cache-response/src/cache.rs:96-97 | after `insert`, the name holds exactly one value, the new one; the headers under every other name, and their order, are unchanged |
| `Http.InsertKeepsLowerCase` | cache-response/src/cache.rs:96-97 | inserting under a lower-case name keeps every header name of the map in lower case |
| `Http.TargetInjective` | cache-response/src/cache.rs:78-79 | the target text determines the target: two valid targets have equal text iff they are equal (no normalisation) |
| `Http.TemporaryRedirect` | protected-routes/src/proutes.rs:24 | a temporary redirect has status 307, a `location` header holding the given URI and an empty body |
| `Http.Response.FromParts` | cache-response/src/cache.rs:85 | a response built from parts and a body holds exactly those |
| `Http.Response.SetStatus` | cache-response/src/cache.rs:86 | overwriting the status changes the status only |
| `Http.Response.InsertHeader` | cache-response/src/cache.rs:96-97 | inserting a header changes the header map as `Insert` does and leaves the status and body alone |
| `SizedStore.Lookup` | cache-response/src/cache.rs:83 | a lookup finds nothing iff the key is absent, and otherwise a value stored under that key |
| `SizedStore.TouchKeepsContents` | cache-response/src/cache.rs:83 | a read keeps the store's invariant, its size and the value under every key, and (assumed LRU order) puts the key read first |
| `SizedStore.Put` | cache-response/src/cache.rs:103-106 | after a write the store holds at most `capacity` entries and the key maps to the value written |
| `SizedStore.PutKeepsInvariant` | cache-response/src/cache.rs:35-39 | a write keeps the store within its capacity and free of duplicate keys |
| `SizedStore.PutReplaces` | cache-response/src/cache.rs:103-106 | writing a key already present does not grow the store and leaves every other key's value unchanged |
| `SizedStore.PutAdds` | cache-response/src/cache.rs:103-106 | writing a new key into a store with room adds exactly that entry |
| `SizedStore.PutEvicts` | cache-response/src/cache.rs:35-39 | writing a new key into a full store keeps the size at capacity and evicts exactly the least recently used entry, all other keys keeping their values |
| `SizedStore.SizedCache.WithSize` | cache-response/src/cache.rs:38 | a new store is empty, has the given capacity and satisfies the invariant |
| `SizedStore.SizedCache.CacheGet` | cache-response/src/cache.rs:83 | `cache_get` returns the value stored under the key and moves the key to the front |
| `SizedStore.SizedCache.CacheSet` | cache-response/src/cache.rs:103-106 | `cache_set` returns the replaced value and leaves the store as `Put` describes, invariant kept |
| `SizedStore.SizedCache.CacheSize` | cache-response/src/cache.rs:74 | `cache_size` is the number of entries and never exceeds the capacity |
| `CacheResponse.IsAssetTypeSpec` | cache-response/src/cache.rs:16-17 | a content type is an asset type iff one of the six tags occurs in it as a case-sensitive substring |
| `CacheResponse.AssetTypeExamples` | cache-response/src/cache.rs:16-17 | `text/css`, `application/javascript`, `application/wasm` and `image/x-icon` are asset types |
| `CacheResponse.NonAssetTypeExamples` | cache-response/src/cache.rs:16-17 | `text/html` and `application/json` are not asset types |
| `CacheResponse.EligibleIff` | cache-response/src/cache.rs:59-68 | a request is eligible iff its first `content-type` header exists, is visible ASCII and has one of the six tags as a substring; a missing or unreadable header makes it ineligible |
| `CacheResponse.CacheKeyIsTarget` | cache-response/src/cache.rs:78-79 | two requests get the same key iff their targets are equal |
| `CacheResponse.TagKeepsLowerCase` | cache-response/src/cache.rs:45-48 | the two tag headers have lower-case names, so a tagged response keeps the header-name convention |
| `CacheResponse.Handler` | cache-response/src/cache.rs:55-115 | the middleware leaves the response, the store and the downstream call as `Handle` prescribes, and keeps the store's invariant |
| `CacheResponse.IneligiblePassesThrough` | cache-response/src/cache.rs:59-71 | an ineligible request gets downstream's response unchanged, and the store is neither read nor written |
| `CacheResponse.HitServesStored` | cache-response/src/cache.rs:83-88 | on a hit the response is the stored parts and bytes with status 206, downstream is not called, and the store keeps its size and every key's value |
| `CacheResponse.MissTagsResponse` | cache-response/src/cache.rs:92-97 | on a miss whose body reads, the response keeps downstream's status and body and has exactly one `x-cache-status: HIT` and one `cache-control: public, max-age=31536000`, every other header as downstream sent it |
| `CacheResponse.MissStoresResponse` | cache-response/src/cache.rs:99-108 | on a miss whose body reads, the store maps the key to exactly the returned parts and bytes, and its invariant holds |
| `CacheResponse.ReadFailureIs507` | cache-response/src/cache.rs:110-113 | when the body cannot be read, the response is 507 with no headers and the fixed message, and the store is unchanged |
| `CacheResponse.HandleKeepsInvariant` | cache-response/src/cache.rs:74-108 | every call leaves at most 200 entries and no duplicate key |
| `CacheResponse.HitAfterMiss` | cache-response/src/cache.rs:83-108 | after a stored miss, the next eligible request for the same target serves the same headers and body with status 206, without calling downstream |
| `ProtectedRoutes.AuthenticatedIffToken` | protected-routes/src/proutes.rs:19 | only a lookup that returned a token authenticates; a failed lookup or an empty session does not |
| `ProtectedRoutes.IsProtectedIff` | protected-routes/src/proutes.rs:13-21 | a path is protected iff `/dashboard` is a prefix of it |
| `ProtectedRoutes.ProtectedExamples` | protected-routes/src/proutes.rs:13-21 | `/dashboard`, `/dashboard/settings` and `/dashboardx` are protected; `/`, `/login` and `/dash` are not |
| `ProtectedRoutes.Handler` | protected-routes/src/proutes.rs:15-28 | downstream runs iff the path is unprotected or the session is authenticated; then the response is downstream's, otherwise a temporary redirect to `/login` |
| `ProtectedRoutes.UnauthenticatedProtectedRedirects` | protected-routes/src/proutes.rs:22-25 | a protected path without a token gets 307 with `location: /login`, and downstream is not called |
| `ProtectedRoutes.ForwardedOtherwise` | protected-routes/src/proutes.rs:21-27 | an unprotected path, or any path with a token, is forwarded with downstream's response unchanged |
| `ProtectedRoutes.QueryIgnored` | protected-routes/src/proutes.rs:18 | requests with the same path get the same decision whatever their query |
| `AppErrors.StatusCodeOf` | protected-routes/src/errors.rs:24-29 | the status is 404 iff the error is `NotFound`, and 400 iff it is any other variant |
| `AppErrors.DisplayByVariant` | protected-routes/src/errors.rs:11-21 | two errors display the same text iff they are the same variant, whatever the payload |
| `AppErrors.StatusFromDisplay` | protected-routes/src/errors.rs:13-29 | the status is 404 iff the text is "Not Found" |
| `AppErrors.FromVarError` | protected-routes/src/errors.rs:98-102 | converting an environment-variable error gives `EnvMissing` carrying its text, status 400, text "Env missing" |
| `AppErrors.FromSurrealError` | protected-routes/src/errors.rs:104-109 | converting a database error gives `Database` carrying its text, status 400, text "Database failure" |
| `AppErrors.FromPoisonError` | protected-routes/src/errors.rs:111-116 | converting a poisoned-lock error gives `Poison` carrying its text, status 400, text "Something wrong" |
| `AppErrors.ConversionsDistinct` | protected-routes/src/errors.rs:98-116 | the three conversions give different variants with different texts |

## Left out

- The lock around the store (`.lock().await`) and task scheduling. The store is one sequential object, so concurrent misses for the same key are not modelled.
- Logging (the cache-size debug warning and the guard's log line). The size is still read (`CacheSize`), but nothing is logged.
- The body of `cached_response`, which is never called (`unreachable!()`). Only the store the `#[cached]` attribute declares is modelled.
- The `cached` crate's `SizedCache` internals. Its eviction order is a stated assumption (least recently used, reads and writes both count), not a fact proved about that crate.
- The internals of `HeaderMap`. It is a sequence of (name, value) pairs. Names are lower case by convention (`LowerCaseNames`), not by type, so the model does not lower-case names itself. `insert` replaces the first value in place, drops the later ones, and appends a new name at the end. The iteration order across different names is approximate.
- `HeaderValue` bytes. Each character of a modelled value stands for one byte.
- Response parts other than status and headers (HTTP version, extensions).
- The streaming body itself. A body either reads in full or fails. The `usize::MAX` read limit means no bound, so no bound is modelled.
- Targets in absolute form (`scheme://authority/...`). A target is a path and an optional query, and the key is their text.
- `Response::builder(...).unwrap_or_default()` falling back to a default response. The builder cannot fail with a fixed valid status, so only the 507 response is modelled.
- The display texts of `VarError`, `surrealdb::Error` and `PoisonError`. They come from other crates, so each error is modelled as the text its `to_string` gives.
- `ErrorTemplate`, which is UI: signals, navigation and a timer.
- The `app.rs` components, the `main.rs` server set-up and the router wiring, including the `cache::handle` name used in `main.rs`.
- The SurrealDB connection, authentication and session layers, and the environment-variable reads. These are I/O. The session read is the `SessionLookup` input.
- `protected-routes/src/middleware.rs`. It is service plumbing around the same session read. Its one decision (forward if a token exists, else 401) is not modelled.
