# Offline cache policy of the Spotify Analyzer service worker

This project models the service worker of the Spotify Analyzer progressive web
app (`service-worker.js`) and proves properties of its offline cache policy:

- **install** fills the cache generation `spotify-analyzer-v1` with the four
  application assets in one all-or-nothing batch, then asks to skip waiting;
- **activate** deletes every other generation, one name at a time, then claims
  the open pages;
- **fetch** answers a request from any generation that holds it; otherwise it
  goes to the network and keeps a copy of a GET answered with status 200 in
  the current generation;
- **message** calls `skipWaiting()` for the action `"skipWaiting"`;
- **sync** does nothing.

The browser's cache API follows the W3C Service Workers specification,
section 5.4 (Cache) and section 5.5 (CacheStorage). `caches.open` creates a
missing cache, last in creation order. `cache.addAll` is all-or-nothing. Of its
reasons to reject, the model keeps those that depend on the requests and the
answers: a non-GET request, a response whose status is outside 200-299 or is
206, and a repeated request. `caches.match` searches every cache in creation
order and matches nothing for a non-GET. `cache.put` refuses a non-GET request
and a 206 response. Failures of the storage itself are not modelled (see
"Left out").

There are two modules:

- `cache_storage.dfy` (`CacheStorage`) holds the cache storage as values. A
  store is the list of named caches in creation order. A cache maps a request
  (method and URL) to a response (a status and an opaque body token).
- `offline_cache.dfy` (`OfflineCache`) holds the worker's two constants and the two
  decision predicates of the handlers (`IsStale`, `IsCacheable`). It holds each handler's effect
  as a function on the store (`InstallStep`, `Prune`, `Intercept`). It holds
  the class `Worker`, whose fields are the store, the lifecycle phase and the
  `skipWaiting` and `clients.claim()` flags. Its methods run the handlers step
  by step and are proved equal to those functions.
  - The activate handler's `cacheNames.map` loop is a `while` loop over a
    snapshot of the names.
- The specification functions take the cache name and the URL list as
  parameters. The worker copies them from `CacheName` and `AssetsToCache` into
  two constant fields when it starts. `InstallOk` states the install result
  for the worker's own constants.

Install failure follows the code, which opens the cache before `addAll`. A
failed install therefore leaves every existing cache as it was, but it may
have created an empty `spotify-analyzer-v1` generation. The model does not
claim the whole store is untouched.

The network is an oracle parameter `Request -> Fetched`. It answers a network
error (`Failed`), no response object (`Absent`) or a response (`Got`).

## Model

| member | source | states |
|---|---|---|
| OfflineCache.AssetRequestsDistinct | service-worker.js:5-10 | the four asset URLs are pairwise different, so `addAll` never rejects the install batch for a repeated request |
| OfflineCache.Worker.constructor | service-worker.js:4-10 | a new worker carries `CACHE_NAME` and `ASSETS_TO_CACHE`, starts installing, and has neither flag set |
| OfflineCache.IsCacheable | service-worker.js:58 | a response is kept only for a GET answered with status exactly 200, and what is kept is a put that `cache.put` accepts and an answer `addAll` would admit |
| OfflineCache.InstallStep | service-worker.js:17-22 | install succeeds iff the batch has no repeat and every asset's answer is admissible. On success each asset URL maps to its network response, the other entries of the generation are kept, and its requests are exactly the old ones plus one GET per asset URL. On failure the generation's entries are as before. The generation exists afterwards, the cache names are those after `caches.open` (the old ones in their order, the generation appended last if it was new), no other cache changes, and well-formedness is kept |
| OfflineCache.InstallOk | service-worker.js:17-20 | with the worker's constants, install fails exactly when some asset's answer is not admissible |
| OfflineCache.InstallIdempotent | service-worker.js:17-20 | a second install, with the network answering as before, leaves the store exactly as the first one did |
| OfflineCache.Worker.Install | service-worker.js:13-24 | the store becomes `InstallStep`'s. Skip-waiting is requested and the worker is installed iff the batch succeeded; otherwise it is redundant with its flags as before |
| OfflineCache.Prune | service-worker.js:31-39 | every generation left by the sweep was in the store and carries the kept name |
| OfflineCache.PruneOnlyKeep | service-worker.js:33-37 | after the sweep no name but the kept one remains |
| OfflineCache.PruneKeepsCurrent | service-worker.js:34 | the sweep leaves the kept generation's contents as they were, or absent if it was absent |
| OfflineCache.PruneWellFormed | service-worker.js:31-39 | a well-formed store keeps at most one generation through the sweep and stays well formed |
| OfflineCache.PruneIdempotent | service-worker.js:31-39 | activating twice sweeps nothing more than activating once |
| OfflineCache.PruneDecides | service-worker.js:33-37 | a generation leaves the sweep iff `IsStale` holds of its name (it differs from the kept one); if it carries the kept name, it is all that remains |
| OfflineCache.SweepStale | service-worker.js:34-36 | deleting the next stale name moves the swept prefix on by one generation and leaves the rest untouched |
| OfflineCache.SweepKept | service-worker.js:33-34 | passing over the kept name moves the sweep on without a change |
| OfflineCache.DeleteBetween | service-worker.js:36 | deleting a name that no other generation carries removes exactly that generation |
| OfflineCache.Worker.Sweep | service-worker.js:31-39 | deleting over the snapshot of names, one by one, ends with exactly `Prune` of the initial store |
| OfflineCache.Worker.Activate | service-worker.js:27-42 | the store becomes `Prune` of the old store with the current name, stays well formed, the pages are claimed and the worker is activated |
| OfflineCache.MatchAfterPrune | service-worker.js:47 | after activation a GET is answered exactly from the kept generation, and nothing else is answered |
| OfflineCache.Intercept | service-worker.js:45-78 | a hit in any generation is returned, the network is not asked and the store is unchanged. On a miss the network's response is passed on, or none on failure or no response. Nothing is stored unless the request is a GET answered 200; then the current generation, created last if missing, maps the request to that response, and the cache names are otherwise the old ones in their order. Other caches are unchanged and well-formedness is kept |
| OfflineCache.RepeatedRequestIsHit | service-worker.js:63-68 | a GET answered 200 is served from the cache the next time, the same response, whatever the network says then |
| OfflineCache.InstalledAssetsAreHits | service-worker.js:47-53 | after a successful install every asset is answered without the network |
| OfflineCache.Worker.Fetch | service-worker.js:45-78 | the store, the response and whether the network was asked are exactly `Intercept`'s. The lifecycle and flags are unchanged |
| OfflineCache.Worker.TryActivate | service-worker.js:22 | an installed worker moves to activating when it asked to skip waiting or no page uses the previous version. Nothing else changes |
| OfflineCache.Worker.Message | service-worker.js:81-85 | skip-waiting is requested iff the action is exactly `"skipWaiting"`, and only then does an installed worker move on. The store and the claim flag are unchanged |
| OfflineCache.Worker.Sync | service-worker.js:88-93 | whatever the tag, `"sync-data"` included, no state changes |
| CacheStorage.Open | service-worker.js:17 | the named cache exists afterwards with the entries it had, or none. The cache names are the old ones in their order, followed by the new name when it was missing. Every other cache is unchanged, an existing cache is reused as is, and well-formedness is kept |
| CacheStorage.AddAll | service-worker.js:20 | all-or-nothing: it succeeds iff no request repeats and each is a GET with an admissible answer. Then each request maps to its response, the other entries are kept and no other key appears |
| CacheStorage.KeysAppend | service-worker.js:31 | `caches.keys()` lists the names in creation order: the names of caches created later follow those of the earlier ones |
| CacheStorage.Delete | service-worker.js:36 | `caches.delete` keeps only caches that were there, none of them by the deleted name |
| CacheStorage.DeleteRemoves | service-worker.js:36 | after `caches.delete` no cache by that name is left |
| CacheStorage.DeleteKeepsOthers | service-worker.js:36 | `caches.delete` leaves every other cache as it was |
| CacheStorage.Match | service-worker.js:47 | a response is found iff the request is a GET held by some cache. It is the one stored in the first such cache in creation order |
| CacheStorage.Put | service-worker.js:67 | the put succeeds iff the request is a GET and the status is not 206. Then the cache names and their order are unchanged, the named cache maps the request to the response with its other entries kept, every other cache is unchanged and well-formedness is kept. A put into a missing cache stores nothing (the worker always opens the cache first) |
| CacheStorage.SetEntriesTwice | service-worker.js:20 | writing the same entries into a cache twice is writing them once |

## Left out

- Logging with `console.log` and `console.error` is not modelled. It has no effect on state.
- Event dispatch is not modelled: `event.waitUntil`, `event.respondWith` and promise scheduling belong to the host. Each handler is one method call.
- Concurrency is not modelled.
  - The runtime `cache.put` is fire-and-forget in the source. The model applies it before the fetch method returns.
  - Concurrent fetch interceptions do not interleave.
  - The deletions the activate handler starts together under `Promise.all` run in sequence, in the order `caches.keys()` lists the names, which is creation order.
- HTTP matching is not modelled: headers, `Vary`, URL normalisation, resolving relative asset URLs, request schemes, response cloning and body streams. A request is a (method, URL) key and a body is an opaque token.
- The network is a pure oracle, so the same request always gets the same answer within one call of a handler. `later` parameters give the network a different answer at a later request.
- The effect of `clients.claim()` on pages is not modelled. It is the `clientsClaimed` flag only.
- The host's lifecycle steps are simplified to `TryActivate`: waiting, and the move to activating when skip-waiting is asked or no page uses the previous version.
- OfflineCache.Worker.Message: a message with no data makes the source throw before it tests the action. This is modelled like a message with no action (`None`), since both change nothing.
- The top-level "loaded" log line is not modelled.
- Failures of the storage itself are not modelled: a full quota (`QuotaExceededError`) or unavailable storage when `caches.open`, `cache.addAll` or `cache.put` writes. In the source such an `addAll` failure fails the install, and such a `put` failure is an unhandled rejection after the page already has its response, so nothing is stored.
- CacheStorage.AddAll: it rejects only for the request and response reasons above, never for a storage failure. So `InstallStep` succeeds where a full quota would make the source's install fail.
- CacheStorage.Put: it refuses only a non-GET request or a 206 response, never for a storage failure. So `RepeatedRequestIsHit` holds only when the storage accepts the write; with a full quota the source would go to the network again.
