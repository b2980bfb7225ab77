/** The offline cache policy of the application's service worker.

    The worker keeps one generation of cache, named by CacheName, filled at
    install time with AssetsToCache; activation sweeps away every other
    generation; each intercepted request is answered from any generation that
    holds it, or from the network, keeping a copy of successful GET answers in
    the current generation.

    The first part states the policy as functions on the cache storage; the
    class Worker at the end holds the storage and the lifecycle state and runs
    the event handlers step by step against those functions. */
module OfflineCache {
  import opened CacheStorage

  /** The generation this version of the worker writes to. */
  const CacheName: string := "spotify-analyzer-v1"

  /** The assets installed into the current generation, as the worker lists them. */
  const AssetsToCache: seq<string> := [
    "spotify_analyzer_PWA.html",
    "manifest.json",
    "https://cdn.jsdelivr.net/npm/chart.js@4.4.1/dist/chart.umd.min.js",
    "https://cdn.jsdelivr.net/npm/jszip@3.10.1/dist/jszip.min.js"
  ]

  /** The requests Cache.addAll makes for a list of URLs: one GET per URL. */
  function AssetRequests(urls: seq<string>): seq<Request>
  {
    seq(|urls|, i requires 0 <= i < |urls| => Request(Get, urls[i]))
  }

  /** A URL is listed exactly when its GET request is in the batch. */
  lemma AssetRequestsMembers(urls: seq<string>)
    ensures forall u :: u in urls <==> Request(Get, u) in AssetRequests(urls)
    ensures forall req :: req in AssetRequests(urls) ==> req.httpMethod == Get && req.url in urls
    ensures (set req | req in AssetRequests(urls)) == set u | u in urls :: Request(Get, u)
  {
    var reqs := AssetRequests(urls);
    forall u | u in urls ensures Request(Get, u) in reqs {
      var i :| 0 <= i < |urls| && urls[i] == u;
      assert reqs[i] == Request(Get, u);
    }
  }

  /** The worker's asset list names four different URLs, so Cache.addAll never
      rejects its batch for a repeated request. */
  lemma AssetRequestsDistinct()
    ensures Distinct(AssetRequests(AssetsToCache))
  {
    var a := AssetsToCache;
    assert |a[0]| == 25 && |a[1]| == 13;
    assert a[2][29] == 'c' && a[3][29] == 'j';
  }

  // ---------------------------------------------------------------------
  // The two decisions

  /** The activate handler's test: every generation but the current one is
      stale. The worker asks it with CacheName as `current`. */
  predicate IsStale(name: string, current: string)
  {
    name != current
  }

  /** The fetch handler's test for keeping what the network answered: the
      request is a GET and a response came back with status exactly 200. What
      it keeps, the cache accepts: the put it issues is never refused, and
      Cache.addAll would have admitted the same answer. */
  predicate IsCacheable(req: Request, f: Fetched)
    ensures IsCacheable(req, f) ==> Admissible(f) && PutAllowed(req, f.response)
  {
    req.httpMethod == Get && f.Got? && f.response.status == 200
  }

  // ---------------------------------------------------------------------
  // Install

  /** What the install handler leaves: the storage, and whether it succeeded. */
  datatype Installation = Installation(store: Store, ok: bool)

  /** The install handler on the storage: open the generation `current`
      (creating it when missing), then add one GET per URL of `urls` in a
      single all-or-nothing batch. The worker runs it with CacheName and
      AssetsToCache. */
  function InstallStep(s: Store, current: string, urls: seq<string>, net: Network): (r: Installation)
    ensures r.ok <==> Distinct(AssetRequests(urls)) && forall u :: u in urls ==> Admissible(net(Request(Get, u)))
    ensures current in Keys(r.store)
    ensures r.ok ==> forall u :: u in urls ==>
                       Request(Get, u) in EntriesOf(r.store, current) &&
                       EntriesOf(r.store, current)[Request(Get, u)] == net(Request(Get, u)).response
    ensures r.ok ==> forall req :: req in EntriesOf(s, current) && req !in AssetRequests(urls) ==>
                       req in EntriesOf(r.store, current) &&
                       EntriesOf(r.store, current)[req] == EntriesOf(s, current)[req]
    ensures r.ok ==> EntriesOf(r.store, current).Keys == EntriesOf(s, current).Keys + set u | u in urls :: Request(Get, u)
    ensures !r.ok ==> Lookup(r.store, current) == Some(EntriesOf(s, current))
    ensures forall n :: n != current ==> Lookup(r.store, n) == Lookup(s, n)
    ensures Keys(r.store) == Keys(Open(s, current))
    ensures WellFormed(s) ==> WellFormed(r.store)
  {
    var withCache := Open(s, current);
    var reqs := AssetRequests(urls);
    AssetRequestsMembers(urls);
    match AddAll(EntriesOf(withCache, current), reqs, net)
    case Some(filled) =>
      assert WellFormed(s) ==> forall req :: req in filled ==> req.httpMethod == Get by {
        if WellFormed(s) {
          var i :| 0 <= i < |withCache| && withCache[i] == Generation(current, EntriesOf(withCache, current));
        }
      }
      SetEntriesWellFormed(withCache, current, filled);
      var after := SetEntries(withCache, current, filled);
      assert EntriesOf(after, current) == filled;
      assert EntriesOf(withCache, current) == EntriesOf(s, current);
      Installation(after, true)
    case None =>
      assert !(Distinct(reqs) && forall u :: u in urls ==> Admissible(net(Request(Get, u)))) by {
        if Distinct(reqs) {
          var i :| 0 <= i < |reqs| && !Admissible(net(reqs[i]));
          assert urls[i] in urls;
        }
      }
      Installation(withCache, false)
  }

  /** The worker's own install fails only when an asset is not admitted: its
      asset list holds no duplicate. */
  lemma InstallOk(s: Store, net: Network)
    ensures InstallStep(s, CacheName, AssetsToCache, net).ok <==>
            forall u :: u in AssetsToCache ==> Admissible(net(Request(Get, u)))
  {
    AssetRequestsDistinct();
  }

  /** Installing again, with the network answering as before, finds the assets
      in place and leaves the storage as it was. */
  lemma InstallIdempotent(s: Store, current: string, urls: seq<string>, net: Network)
    requires InstallStep(s, current, urls, net).ok
    ensures InstallStep(InstallStep(s, current, urls, net).store, current, urls, net) == InstallStep(s, current, urls, net)
  {
    var withCache := Open(s, current);
    var reqs := AssetRequests(urls);
    var fetched := map req | req in reqs :: net(req).response;
    var filled := EntriesOf(withCache, current) + fetched;
    assert AddAll(EntriesOf(withCache, current), reqs, net) == Some(filled);
    var once := SetEntries(withCache, current, filled);
    assert once == InstallStep(s, current, urls, net).store;
    assert Open(once, current) == once;
    assert EntriesOf(once, current) == filled;
    assert filled + fetched == filled;
    assert AddAll(filled, reqs, net) == Some(filled);
    calc {
      InstallStep(once, current, urls, net);
      ==
      Installation(SetEntries(once, current, filled), true);
      == { SetEntriesTwice(withCache, current, filled); }
      Installation(once, true);
    }
  }

  // ---------------------------------------------------------------------
  // Activate

  /** The storage after the activate handler's sweep, for the generation
      `keep` the worker is configured with: every generation IsStale calls
      stale is gone. */
  function Prune(s: Store, keep: string): (r: Store)
    ensures forall i :: 0 <= i < |r| ==> r[i] in s && r[i].name == keep
  {
    if s == [] then []
    else
      var rest := Prune(s[1..], keep);
      var head := if IsStale(s[0].name, keep) then [] else [s[0]];
      head + rest
  }

  /** After the sweep no generation is left under any name but `keep`. */
  lemma PruneOnlyKeep(s: Store, keep: string, n: string)
    requires n != keep
    ensures n !in Keys(Prune(s, keep))
  {
    var p := Prune(s, keep);
    forall j | 0 <= j < |p| ensures Keys(p)[j] != n {
    }
  }

  /** The sweep leaves the kept generation as it was. */
  lemma {:induction false} PruneKeepsCurrent(s: Store, keep: string)
    ensures Lookup(Prune(s, keep), keep) == Lookup(s, keep)
  {
    if s != [] {
      PruneKeepsCurrent(s[1..], keep);
      var head := if s[0].name != keep then [] else [s[0]];
      assert Prune(s, keep) == head + Prune(s[1..], keep);
      LookupAppend(head, Prune(s[1..], keep), keep);
      KeysCons(s);
    }
  }

  /** A storage without the kept generation is swept clean. */
  lemma {:induction false} PruneNoneKept(s: Store, keep: string)
    requires forall j :: 0 <= j < |s| ==> s[j].name != keep
    ensures Prune(s, keep) == []
  {
    if s != [] {
      var t := s[1..];
      forall j | 0 <= j < |t| ensures t[j].name != keep {
        assert t[j] == s[j + 1];
      }
      PruneNoneKept(t, keep);
    }
  }

  /** A well-formed storage keeps at most one generation through the sweep. */
  lemma {:induction false} PruneWellFormed(s: Store, keep: string)
    requires WellFormed(s)
    ensures WellFormed(Prune(s, keep)) && |Prune(s, keep)| <= 1
  {
    if s != [] {
      var t := s[1..];
      assert WellFormed(t) by {
        assert forall i :: 0 <= i < |t| ==> t[i] == s[i + 1];
      }
      PruneWellFormed(t, keep);
      if s[0].name == keep {
        forall j | 0 <= j < |t| ensures t[j].name != keep {
          assert t[j] == s[j + 1];
        }
        PruneNoneKept(t, keep);
      }
    }
    var r := Prune(s, keep);
    assert OnlyGetKeys(r) by {
      forall i, req | 0 <= i < |r| && req in r[i].entries ensures req.httpMethod == Get {
        assert r[i] in s;
      }
    }
  }

  /** The sweep treats each generation on its own. */
  lemma {:induction false} PruneAppend(a: Store, b: Store, keep: string)
    ensures Prune(a + b, keep) == Prune(a, keep) + Prune(b, keep)
  {
    if a == [] {
      assert a + b == b;
    } else {
      var head := if a[0].name != keep then [] else [a[0]];
      calc {
        Prune(a + b, keep);
        == { assert (a + b)[0] == a[0] && (a + b)[1..] == a[1..] + b; }
        head + Prune(a[1..] + b, keep);
        == { PruneAppend(a[1..], b, keep); }
        head + (Prune(a[1..], keep) + Prune(b, keep));
        ==
        (head + Prune(a[1..], keep)) + Prune(b, keep);
      }
    }
  }

  /** Activating twice sweeps nothing more than activating once. */
  lemma {:induction false} PruneIdempotent(s: Store, keep: string)
    ensures Prune(Prune(s, keep), keep) == Prune(s, keep)
  {
    if s != [] {
      PruneIdempotent(s[1..], keep);
      if s[0].name == keep {
        var p := Prune(s, keep);
        assert p == [s[0]] + Prune(s[1..], keep);
        assert p != [] && p[0] == s[0] && p[1..] == Prune(s[1..], keep);
        assert Prune(p, keep) == [s[0]] + Prune(p[1..], keep);
      } else {
        assert Prune(s, keep) == Prune(s[1..], keep);
      }
    }
  }

  /** Of the generations of a well-formed storage, the sweep keeping `keep`
      removes exactly those IsStale calls stale; the one named `keep`, if any,
      is all that is left. */
  lemma PruneDecides(s: Store, keep: string, i: nat)
    requires WellFormed(s) && i < |s|
    ensures IsStale(s[i].name, keep) <==> s[i].name !in Keys(Prune(s, keep))
    ensures !IsStale(s[i].name, keep) ==> Prune(s, keep) == [s[i]]
  {
    var p := Prune(s, keep);
    if s[i].name == keep {
      PruneKeepsCurrent(s, keep);
      PruneWellFormed(s, keep);
      LookupAt(s, i);
      var j :| 0 <= j < |p| && p[j] == Generation(keep, s[i].entries);
      assert p[0] == s[i];
    } else {
      PruneOnlyKeep(s, keep, s[i].name);
    }
  }

  /** The sweep over a single generation. */
  lemma PruneSingle(g: Generation, keep: string)
    ensures Prune([g], keep) == if g.name != keep then [] else [g]
  {
    assert [g][1..] == [];
  }

  /** The storage once the sweep has passed the first i caches: the pruned
      prefix followed by the untouched rest. */
  ghost function Swept(s: Store, i: nat, keep: string): Store
    requires i <= |s|
  {
    Prune(s[..i], keep) + s[i..]
  }

  /** The sweep starts from the storage as it is and ends with it pruned. */
  lemma SweepBounds(s: Store, keep: string)
    ensures Swept(s, 0, keep) == s
    ensures Swept(s, |s|, keep) == Prune(s, keep)
  {
    assert s[..0] == [] && s[0..] == s;
    assert s[..|s|] == s && s[|s|..] == [];
  }

  /** Deleting the next cache, when it is not the kept one, moves the sweep on. */
  lemma SweepStale(s: Store, i: nat, keep: string)
    requires DistinctNames(s) && i < |s| && s[i].name != keep
    ensures Delete(Swept(s, i, keep), s[i].name) == Swept(s, i + 1, keep)
  {
    var done, g, rest := Prune(s[..i], keep), s[i], s[i + 1..];
    assert s[i..] == [g] + rest;
    assert Prune(s[..i + 1], keep) == done by {
      SweepPrefix(s, i, keep);
    }
    assert Delete(done + ([g] + rest), g.name) == done + rest by {
      PruneOnlyKeep(s[..i], keep, g.name);
      NameNotLater(s, i);
      DeleteBetween(done, g, rest);
    }
  }

  /** Passing over the kept cache moves the sweep on without a change. */
  lemma SweepKept(s: Store, i: nat, keep: string)
    requires i < |s| && s[i].name == keep
    ensures Swept(s, i, keep) == Swept(s, i + 1, keep)
  {
    var done, g, rest := Prune(s[..i], keep), s[i], s[i + 1..];
    assert s[i..] == [g] + rest;
    SweepPrefix(s, i, keep);
    assert done + ([g] + rest) == (done + [g]) + rest;
  }

  /** Sweeping one more generation extends the swept prefix by it, or by
      nothing when it goes. */
  lemma SweepPrefix(s: Store, i: nat, keep: string)
    requires i < |s|
    ensures Prune(s[..i + 1], keep) == Prune(s[..i], keep) + (if s[i].name != keep then [] else [s[i]])
  {
    assert s[..i + 1] == s[..i] + [s[i]];
    PruneAppend(s[..i], [s[i]], keep);
    PruneSingle(s[i], keep);
  }

  /** In a storage with distinct names, no later generation repeats the name
      of generation i. */
  lemma NameNotLater(s: Store, i: nat)
    requires DistinctNames(s) && i < |s|
    ensures s[i].name !in Keys(s[i + 1..])
  {
    var rest := s[i + 1..];
    forall j | 0 <= j < |rest| ensures Keys(rest)[j] != s[i].name {
      assert rest[j] == s[i + 1 + j];
    }
  }

  /** Deleting the name of a generation that no other generation carries
      removes just that generation. */
  lemma DeleteBetween(done: Store, g: Generation, rest: Store)
    requires g.name !in Keys(done) && g.name !in Keys(rest)
    ensures Delete(done + ([g] + rest), g.name) == done + rest
  {
    var n := g.name;
    calc {
      Delete(done + ([g] + rest), n);
      == { DeleteAppend(done, [g] + rest, n); }
      Delete(done, n) + Delete([g] + rest, n);
      == { DeleteMissing(done, n); }
      done + Delete([g] + rest, n);
      == { assert ([g] + rest)[1..] == rest; }
      done + Delete(rest, n);
      == { DeleteMissing(rest, n); }
      done + rest;
    }
  }

  /** After activation, a request is answered only from the kept generation:
      what it holds for a GET, and nothing else. */
  lemma MatchAfterPrune(s: Store, keep: string, req: Request)
    requires WellFormed(s)
    ensures Match(Prune(s, keep), req) ==
              if req.httpMethod == Get && req in EntriesOf(s, keep)
              then Some(EntriesOf(s, keep)[req]) else None
  {
    var p := Prune(s, keep);
    PruneWellFormed(s, keep);
    PruneKeepsCurrent(s, keep);
    if |p| == 1 {
      assert p[0].name in Keys(p);
      LookupAt(p, 0);
    } else {
      assert p == [];
      assert keep !in Keys(p);
    }
  }

  // ---------------------------------------------------------------------
  // Fetch

  /** What one interception yields: the storage afterwards, the response given
      to the page (none stands for a failed load), and whether the network was
      asked. */
  datatype Interception = Interception(store: Store, response: Option<Response>, consulted: bool)

  /** The fetch handler on the storage, for a worker writing to the generation
      `current`. */
  function Intercept(s: Store, current: string, req: Request, net: Network): (r: Interception)
    // a hit in any generation, current or stale, is served without the network
    ensures Match(s, req).Some? ==> r.response == Match(s, req) && !r.consulted && r.store == s
    // on a miss the network's answer is passed on as it is; a failure or no response leaves the page with nothing
    ensures Match(s, req).None? ==>
              r.consulted && r.response == (if net(req).Got? then Some(net(req).response) else None)
    // only a 200 answer to a GET is kept
    ensures !IsCacheable(req, net(req)) ==> r.store == s
    ensures Match(s, req).None? && IsCacheable(req, net(req)) ==>
              Lookup(r.store, current) == Some(EntriesOf(s, current)[req := net(req).response])
    ensures forall n :: n != current ==> Lookup(r.store, n) == Lookup(s, n)
    // the current generation is created, last, only when a response is kept
    ensures Keys(r.store) == if Match(s, req).None? && IsCacheable(req, net(req)) then Keys(Open(s, current)) else Keys(s)
    ensures WellFormed(s) ==> WellFormed(r.store)
  {
    match Match(s, req)
    case Some(cached) => Interception(s, Some(cached), false)
    case None =>
      var f := net(req);
      if !IsCacheable(req, f) then
        Interception(s, if f.Got? then Some(f.response) else None, true)
      else
        var withCache := Open(s, current);
        Interception(Put(withCache, current, req, f.response).value, Some(f.response), true)
  }

  /** A GET answered 200 by the network is served from the cache the next time,
      the same response, whatever the network would say then. */
  lemma RepeatedRequestIsHit(s: Store, current: string, req: Request, net: Network, later: Network)
    requires WellFormed(s)
    requires Match(s, req).None? && IsCacheable(req, net(req))
    ensures var after := Intercept(s, current, req, net).store;
            Intercept(after, current, req, later) == Interception(after, Some(net(req).response), false)
  {
    var after := Intercept(s, current, req, net).store;
    var e := EntriesOf(s, current)[req := net(req).response];
    var i :| 0 <= i < |after| && after[i] == Generation(current, e);
    assert req in after[i].entries;
    var hit := Match(after, req);
    var k :| 0 <= k < |after| && req in after[k].entries && hit.value == after[k].entries[req];
    LookupAt(after, k);
    if after[k].name != current {
      assert false;
    }
  }

  /** After a successful install every asset is served from the cache. */
  lemma InstalledAssetsAreHits(s: Store, current: string, urls: seq<string>, net: Network, u: string, later: Network)
    requires InstallStep(s, current, urls, net).ok && u in urls
    ensures !Intercept(InstallStep(s, current, urls, net).store, current, Request(Get, u), later).consulted
  {
    var after := InstallStep(s, current, urls, net).store;
    var i :| 0 <= i < |after| && after[i] == Generation(current, EntriesOf(after, current));
    assert Request(Get, u) in after[i].entries;
  }

  // ---------------------------------------------------------------------
  // The worker

  /** The worker's lifecycle states, from the Service Workers specification. */
  datatype Phase = Installing | Installed | Activating | Activated | Redundant

  /** The running worker: the script's two constants, the origin's cache
      storage, the lifecycle state, and the two flags its handlers set through
      skipWaiting() and clients.claim(). */
  class Worker {
    const cacheName: string
    const assets: seq<string>
    var store: Store
    var phase: Phase
    var skipWaiting: bool
    var clientsClaimed: bool

    ghost predicate Valid()
      reads this
    {
      WellFormed(store)
    }

    constructor (initial: Store)
      requires WellFormed(initial)
      ensures Valid()
      ensures cacheName == CacheName && assets == AssetsToCache
      ensures store == initial && phase == Installing && !skipWaiting && !clientsClaimed
    {
      cacheName := CacheName;
      assets := AssetsToCache;
      store := initial;
      phase := Installing;
      skipWaiting := false;
      clientsClaimed := false;
    }

    /** The install handler. Skip-waiting is requested only once every asset is
        stored; a failed install makes the worker redundant. */
    method Install(net: Network) returns (ok: bool)
      requires Valid() && phase == Installing
      modifies this
      ensures Valid()
      ensures store == InstallStep(old(store), cacheName, assets, net).store
      ensures ok == InstallStep(old(store), cacheName, assets, net).ok
      ensures ok ==> skipWaiting && phase == Installed
      ensures !ok ==> skipWaiting == old(skipWaiting) && phase == Redundant
      ensures clientsClaimed == old(clientsClaimed)
    {
      ghost var spec := InstallStep(store, cacheName, assets, net);
      store := Open(store, cacheName);
      var filled := AddAll(EntriesOf(store, cacheName), AssetRequests(assets), net);
      match filled {
        case Some(e) =>
          store := SetEntries(store, cacheName, e);
          skipWaiting := true;
          phase := Installed;
          ok := true;
        case None =>
          phase := Redundant;
          ok := false;
      }
      assert store == spec.store;
    }

    /** The host's step out of waiting: an installed worker becomes the active one
        when it asked to skip waiting, or when the previous version no longer has
        pages in use. */
    method TryActivate(previousInUse: bool)
      requires Valid()
      modifies this
      ensures Valid()
      ensures phase == if old(phase) == Installed && (skipWaiting || !previousInUse) then Activating else old(phase)
      ensures store == old(store) && skipWaiting == old(skipWaiting) && clientsClaimed == old(clientsClaimed)
    {
      if phase == Installed && (skipWaiting || !previousInUse) {
        phase := Activating;
      }
    }

    /** The activate handler: delete every stale generation, then claim the
        open pages. */
    method Activate()
      requires Valid() && phase == Activating
      modifies this
      ensures Valid()
      ensures store == Prune(old(store), cacheName)
      ensures phase == Activated && clientsClaimed && skipWaiting == old(skipWaiting)
    {
      PruneWellFormed(store, cacheName);
      Sweep(cacheName);
      clientsClaimed := true;
      phase := Activated;
    }

    /** The activate handler's sweep: over a snapshot of the cache names, one
        name at a time, delete each one but `keep`. */
    method Sweep(keep: string)
      requires DistinctNames(store)
      modifies this`store
      ensures store == Prune(old(store), keep)
    {
      var cacheNames := Keys(store);
      ghost var s0 := store;
      SweepBounds(s0, keep);
      var i := 0;
      while i < |cacheNames|
        invariant 0 <= i <= |s0|
        invariant store == Swept(s0, i, keep)
      {
        var name := cacheNames[i];
        assert name == s0[i].name;
        if IsStale(name, keep) {
          SweepStale(s0, i, keep);
          store := Delete(store, name);
        } else {
          SweepKept(s0, i, keep);
        }
        assert store == Swept(s0, i + 1, keep);
        i := i + 1;
      }
    }

    /** The fetch handler. */
    method Fetch(req: Request, net: Network) returns (response: Option<Response>, consulted: bool)
      requires Valid()
      modifies this
      ensures Valid()
      ensures Interception(store, response, consulted) == Intercept(old(store), cacheName, req, net)
      ensures phase == old(phase) && skipWaiting == old(skipWaiting) && clientsClaimed == old(clientsClaimed)
    {
      var cached := Match(store, req);
      if cached.Some? {
        return cached, false;
      }
      consulted := true;
      var f := net(req);
      match f
      case Failed =>
        response := None;
      case Absent =>
        response := None;
      case Got(r) =>
        response := Some(r);
        if IsCacheable(req, f) {
          store := Open(store, cacheName);
          store := Put(store, cacheName, req, r).value;
        }
    }

    /** The message handler: the action "skipWaiting", and no other, calls
        skipWaiting(), which moves an installed worker on at once. A message
        with no action, or no data, changes nothing. */
    method Message(action: Option<string>)
      requires Valid()
      modifies this
      ensures Valid()
      ensures skipWaiting == (old(skipWaiting) || action == Some("skipWaiting"))
      ensures phase == if action == Some("skipWaiting") && old(phase) == Installed then Activating else old(phase)
      ensures store == old(store) && clientsClaimed == old(clientsClaimed)
    {
      if action == Some("skipWaiting") {
        skipWaiting := true;
        if phase == Installed {
          phase := Activating;
        }
      }
    }

    /** The background sync handler: whatever the tag, "sync-data" included,
        nothing changes. */
    method Sync(tag: string)
      requires Valid()
      modifies this
      ensures Valid() && unchanged(this)
    {
    }
  }

  /** A first run of the worker, from an empty storage and a network that
      answers every request with 200: installed, and moved on at once to
      activation because it asked to skip waiting. */
  method ScenarioInstall()
  {
    var net: Network := (req: Request) => Got(Response(200, |req.url|));
    var w := new Worker([]);
    var ok := w.Install(net);
    InstallOk([], net);
    assert ok && w.skipWaiting;
    w.TryActivate(true);
    assert w.phase == Activating;
    w.Activate();
    assert w.phase == Activated && w.clientsClaimed;
  }

  /** An upgrade: the previous version's generation is swept away on
      activation, and the new one stays. */
  method ScenarioUpgrade()
  {
    var net: Network := (req: Request) => Got(Response(200, |req.url|));
    var previous := "spotify-analyzer-v0";
    var w := new Worker([Generation(previous, map[])]);
    var ok := w.Install(net);
    InstallOk([Generation(previous, map[])], net);
    w.TryActivate(true);
    ghost var installed := w.store;
    assert Lookup(installed, CacheName).Some?;
    w.Activate();
    PruneOnlyKeep(installed, CacheName, previous);
    PruneKeepsCurrent(installed, CacheName);
    assert previous !in Keys(w.store) && Lookup(w.store, CacheName).Some?;
  }

  /** Once installed, the assets are served without the network: here the
      network has gone away altogether. */
  method ScenarioOffline()
  {
    var net: Network := (req: Request) => Got(Response(200, |req.url|));
    var offline: Network := (req: Request) => Failed;
    var w := new Worker([]);
    var ok := w.Install(net);
    InstallOk([], net);
    InstalledAssetsAreHits([], CacheName, AssetsToCache, net, "manifest.json", offline);
    var page, asked := w.Fetch(Request(Get, "manifest.json"), offline);
    assert !asked && page == Some(Response(200, 13));
  }

  /** Runtime caching: a GET answered 200 is kept and served from the cache the
      next time; a POST is passed through and nothing is kept. */
  method ScenarioFetch()
  {
    var net: Network := (req: Request) => Got(Response(200, |req.url|));
    var w := new Worker([Generation(CacheName, map[])]);
    var image := Request(Get, "/unknown.png");
    ghost var before := w.store;
    var served, asked := w.Fetch(image, net);
    assert asked && served == Some(Response(200, 12));
    RepeatedRequestIsHit(before, CacheName, image, net, net);
    var again, askedAgain := w.Fetch(image, net);
    assert !askedAgain && again == served;

    ghost var beforePost := w.store;
    var answer, _ := w.Fetch(Request("POST", "/upload"), net);
    assert w.store == beforePost && answer == Some(Response(200, 7));
  }
}
