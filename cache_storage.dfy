/** The part of the browser's Cache Storage that the offline cache policy relies
    on, with the semantics of the W3C Service Workers specification, section 5.4
    (Cache) and section 5.5 (CacheStorage).

    Everything here is a value. A storage is the list of its named caches in the
    order they were created (the "name to cache map" of section 5.5, which is
    ordered); a cache is a map from request to response. Requests and responses
    are keys and opaque tokens: headers, Vary, URL resolution and body streams are
    not modelled. */
module CacheStorage {

  datatype Option<T> = None | Some(value: T)

  /** What a cache keys on: the request method and its URL. */
  datatype Request = Request(httpMethod: string, url: string)

  /** A response: its status code and an opaque token for its headers and body. */
  datatype Response = Response(status: int, body: nat)

  /** What one fetch from the network yields: a network error, no response
      object at all, or a response. */
  datatype Fetched = Failed | Absent | Got(response: Response)

  /** The network, as an oracle that answers each request. */
  type Network = Request -> Fetched

  /** The request-response list of one cache. */
  type Entries = map<Request, Response>

  /** One named cache: a generation of the application's cache. */
  datatype Generation = Generation(name: string, entries: Entries)

  /** CacheStorage: its named caches, in creation order. */
  type Store = seq<Generation>

  const Get: string := "GET"

  /** CacheStorage.keys: the cache names, in creation order. */
  function Keys(s: Store): seq<string>
  {
    seq(|s|, i requires 0 <= i < |s| => s[i].name)
  }

  /** The names of a non-empty storage: the first cache's, then the rest. */
  lemma KeysCons(s: Store)
    requires s != []
    ensures Keys(s) == [s[0].name] + Keys(s[1..])
  {
  }

  /** The names of two storages side by side. */
  lemma KeysAppend(a: Store, b: Store)
    ensures Keys(a + b) == Keys(a) + Keys(b)
  {
  }

  /** The storage maps each name to at most one cache. */
  ghost predicate DistinctNames(s: Store)
  {
    forall i, j :: 0 <= i < j < |s| ==> s[i].name != s[j].name
  }

  /** Every stored request is a GET: Cache.put and Cache.addAll refuse any other. */
  ghost predicate OnlyGetKeys(s: Store)
  {
    forall i, req :: 0 <= i < |s| && req in s[i].entries ==> req.httpMethod == Get
  }

  /** What every reachable storage satisfies. */
  ghost predicate WellFormed(s: Store)
  {
    DistinctNames(s) && OnlyGetKeys(s)
  }

  /** The cache a name refers to, if the storage has one by that name. */
  function Lookup(s: Store, name: string): (r: Option<Entries>)
    ensures r.Some? <==> name in Keys(s)
    ensures r.Some? ==> exists i :: 0 <= i < |s| && s[i] == Generation(name, r.value)
  {
    if s == [] then None
    else
      KeysCons(s);
      if s[0].name == name then Some(s[0].entries)
      else
        var r := Lookup(s[1..], name);
        assert r.Some? ==> exists i :: 0 <= i < |s| && s[i] == Generation(name, r.value) by {
          if r.Some? {
            var i :| 0 <= i < |s| - 1 && s[1..][i] == Generation(name, r.value);
            assert s[i + 1] == s[1..][i];
          }
        }
        r
  }

  /** The entries of the named cache, or none when the storage has no such cache. */
  function EntriesOf(s: Store, name: string): Entries
  {
    match Lookup(s, name)
    case Some(e) => e
    case None => map[]
  }

  /** A name is looked up in the earlier part of a storage first. */
  lemma {:induction false} LookupAppend(a: Store, b: Store, name: string)
    ensures Lookup(a + b, name) == if name in Keys(a) then Lookup(a, name) else Lookup(b, name)
  {
    if a != [] {
      assert (a + b)[1..] == a[1..] + b;
      KeysCons(a);
      LookupAppend(a[1..], b, name);
    } else {
      assert a + b == b;
    }
  }

  /** In a storage whose names are distinct, a name finds its own cache. */
  lemma {:induction false} LookupAt(s: Store, i: nat)
    requires DistinctNames(s) && i < |s|
    ensures Lookup(s, s[i].name) == Some(s[i].entries)
  {
    if i > 0 {
      assert s[0].name != s[i].name;
      assert s[1..][i - 1] == s[i];
      LookupAt(s[1..], i - 1);
    }
  }

  /** CacheStorage.open: the named cache is created, empty and last, when it is
      missing; an existing one is reused as it is. */
  function Open(s: Store, name: string): (r: Store)
    ensures Lookup(r, name) == Some(EntriesOf(s, name))
    ensures forall n :: n != name ==> Lookup(r, n) == Lookup(s, n)
    ensures Keys(r) == if name in Keys(s) then Keys(s) else Keys(s) + [name]
    ensures name in Keys(s) ==> r == s
    ensures WellFormed(s) ==> WellFormed(r)
  {
    if name in Keys(s) then s
    else
      var g := Generation(name, map[]);
      assert Keys([g]) == [name];
      assert forall i :: 0 <= i < |Keys(s)| ==> Keys(s)[i] != name;
      assert forall i :: 0 <= i < |s| ==> s[i].name != name by {
        forall i | 0 <= i < |s| ensures s[i].name != name {
          assert Keys(s)[i] == s[i].name;
        }
      }
      assert forall i :: 0 <= i < |s| ==> (s + [g])[i] == s[i];
      forall n ensures Lookup(s + [g], n) == if n in Keys(s) then Lookup(s, n) else Lookup([g], n) {
        LookupAppend(s, [g], n);
      }
      s + [g]
  }

  /** The storage with the named cache's entries replaced by e, and nothing else changed. */
  function SetEntries(s: Store, name: string, e: Entries): (r: Store)
    ensures Keys(r) == Keys(s)
    ensures name in Keys(s) ==> Lookup(r, name) == Some(e)
    ensures forall n :: n != name ==> Lookup(r, n) == Lookup(s, n)
  {
    if s == [] then []
    else
      var rest := SetEntries(s[1..], name, e);
      var head := if s[0].name == name then Generation(name, e) else s[0];
      assert Keys([head] + rest) == [head.name] + Keys(rest);
      assert Keys(s) == [s[0].name] + Keys(s[1..]);
      [head] + rest
  }

  /** Writing GET-only entries keeps a storage well formed. */
  lemma {:induction false} SetEntriesWellFormed(s: Store, name: string, e: Entries)
    ensures WellFormed(s) && (forall req :: req in e ==> req.httpMethod == Get) ==> WellFormed(SetEntries(s, name, e))
  {
    var r := SetEntries(s, name, e);
    assert |r| == |Keys(r)| == |s|;
    forall i | 0 <= i < |s|
      ensures r[i].name == s[i].name
      ensures r[i].entries == (if s[i].name == name then e else s[i].entries)
    {
      SetEntriesAt(s, name, e, i);
    }
  }

  /** Writing a cache's entries changes that cache, in its place, and no other. */
  lemma {:induction false} SetEntriesAt(s: Store, name: string, e: Entries, i: nat)
    requires i < |s|
    ensures |SetEntries(s, name, e)| == |s|
    ensures SetEntries(s, name, e)[i] == if s[i].name == name then Generation(name, e) else s[i]
  {
    assert |SetEntries(s, name, e)| == |Keys(SetEntries(s, name, e))|;
    if i > 0 {
      SetEntriesAt(s[1..], name, e, i - 1);
    }
  }

  /** Setting a cache's entries twice to the same value is setting them once. */
  lemma {:induction false} SetEntriesTwice(s: Store, name: string, e: Entries)
    ensures SetEntries(SetEntries(s, name, e), name, e) == SetEntries(s, name, e)
  {
    if s != [] {
      SetEntriesTwice(s[1..], name, e);
    }
  }

  /** Setting the entries of a cache the storage does not have changes nothing. */
  lemma {:induction false} SetEntriesMissing(s: Store, name: string, e: Entries)
    requires name !in Keys(s)
    ensures SetEntries(s, name, e) == s
  {
    if s != [] {
      KeysCons(s);
      SetEntriesMissing(s[1..], name, e);
    }
  }

  /** Setting a cache's entries to the ones it holds changes nothing. */
  lemma {:induction false} SetEntriesSame(s: Store, name: string)
    requires DistinctNames(s) && name in Keys(s)
    ensures SetEntries(s, name, EntriesOf(s, name)) == s
  {
    var r := SetEntries(s, name, EntriesOf(s, name));
    forall i | 0 <= i < |s| ensures r[i] == s[i] {
      SetEntriesAt(s, name, EntriesOf(s, name), i);
      if s[i].name == name {
        LookupAt(s, i);
      }
    }
    assert |r| == |Keys(r)| == |s|;
  }

  /** CacheStorage.delete: the storage without the named cache. */
  function Delete(s: Store, name: string): (r: Store)
    ensures forall i :: 0 <= i < |r| ==> r[i] in s && r[i].name != name
  {
    if s == [] then []
    else
      var rest := Delete(s[1..], name);
      var head := if s[0].name == name then [] else [s[0]];
      head + rest
  }

  /** After the deletion no cache by that name is left. */
  lemma {:induction false} DeleteRemoves(s: Store, name: string)
    ensures name !in Keys(Delete(s, name))
  {
    if s != [] {
      DeleteRemoves(s[1..], name);
      var head := if s[0].name == name then [] else [s[0]];
      KeysAppend(head, Delete(s[1..], name));
    }
  }

  /** Deleting a cache leaves every other cache as it was. */
  lemma {:induction false} DeleteKeepsOthers(s: Store, name: string, other: string)
    requires other != name
    ensures Lookup(Delete(s, name), other) == Lookup(s, other)
  {
    if s != [] {
      DeleteKeepsOthers(s[1..], name, other);
      var head := if s[0].name == name then [] else [s[0]];
      assert Delete(s, name) == head + Delete(s[1..], name);
      LookupAppend(head, Delete(s[1..], name), other);
      KeysCons(s);
    }
  }

  /** Deletion treats each cache on its own. */
  lemma {:induction false} DeleteAppend(a: Store, b: Store, name: string)
    ensures Delete(a + b, name) == Delete(a, name) + Delete(b, name)
  {
    if a == [] {
      assert a + b == b;
    } else {
      assert (a + b)[1..] == a[1..] + b;
      DeleteAppend(a[1..], b, name);
    }
  }

  /** Deleting a name the storage does not hold changes nothing. */
  lemma {:induction false} DeleteMissing(s: Store, name: string)
    requires name !in Keys(s)
    ensures Delete(s, name) == s
  {
    if s != [] {
      assert Keys(s) == [s[0].name] + Keys(s[1..]);
      DeleteMissing(s[1..], name);
    }
  }

  /** Cache.put refuses a request other than GET and a partial (206) response. */
  predicate PutAllowed(req: Request, resp: Response)
  {
    req.httpMethod == Get && resp.status != 206
  }

  /** Cache.put on the named cache: the request now maps to the response, every
      other entry and every other cache is as it was; a refused put changes nothing. */
  function Put(s: Store, name: string, req: Request, resp: Response): (r: Option<Store>)
    ensures r.Some? <==> PutAllowed(req, resp)
    ensures r.Some? ==> Keys(r.value) == Keys(s)
    ensures r.Some? && name in Keys(s) ==> Lookup(r.value, name) == Some(EntriesOf(s, name)[req := resp])
    ensures r.Some? && name !in Keys(s) ==> r.value == s
    ensures r.Some? ==> forall n :: n != name ==> Lookup(r.value, n) == Lookup(s, n)
    ensures r.Some? && WellFormed(s) ==> WellFormed(r.value)
  {
    if !PutAllowed(req, resp) then None
    else
      var e := EntriesOf(s, name)[req := resp];
      assert WellFormed(s) ==> forall k :: k in e ==> k.httpMethod == Get by {
        if WellFormed(s) && name in Keys(s) {
          var i :| 0 <= i < |s| && s[i] == Generation(name, EntriesOf(s, name));
        }
      }
      SetEntriesWellFormed(s, name, e);
      assert name !in Keys(s) ==> SetEntries(s, name, e) == s by {
        if name !in Keys(s) {
          SetEntriesMissing(s, name, e);
        }
      }
      Some(SetEntries(s, name, e))
  }

  /** The response stored for the request in the first cache, in creation order,
      that holds it. */
  function FirstHit(s: Store, req: Request): (r: Option<Response>)
    ensures r.Some? <==> exists i :: 0 <= i < |s| && req in s[i].entries
    ensures r.Some? ==> exists i :: 0 <= i < |s| && req in s[i].entries && r.value == s[i].entries[req]
                                    && forall j :: 0 <= j < i ==> req !in s[j].entries
  {
    if s == [] then None
    else if req in s[0].entries then Some(s[0].entries[req])
    else
      var r := FirstHit(s[1..], req);
      assert forall i :: 1 <= i < |s| ==> s[i] == s[1..][i - 1];
      r
  }

  /** CacheStorage.match: searches every cache, in creation order, and answers the
      first response stored for the request; a request other than GET matches
      nothing. */
  function Match(s: Store, req: Request): (r: Option<Response>)
    ensures r.Some? <==> req.httpMethod == Get && exists i :: 0 <= i < |s| && req in s[i].entries
    ensures r.Some? ==> exists i :: 0 <= i < |s| && req in s[i].entries && r.value == s[i].entries[req]
                                    && forall j :: 0 <= j < i ==> req !in s[j].entries
  {
    if req.httpMethod != Get then None else FirstHit(s, req)
  }

  /** The "ok status" range of the Fetch standard. */
  predicate OkStatus(status: int)
  {
    200 <= status <= 299
  }

  /** Whether Cache.addAll accepts what the network gave for one request: a
      response with an ok status that is not a partial (206) one. */
  predicate Admissible(f: Fetched)
  {
    f.Got? && OkStatus(f.response.status) && f.response.status != 206
  }

  /** No request repeats in the list. */
  predicate Distinct(reqs: seq<Request>)
  {
    forall i, j :: 0 <= i < j < |reqs| ==> reqs[i] != reqs[j]
  }

  /** Cache.addAll: fetch every request and store all the responses in one batch,
      or reject and store none. It rejects when a request is not a GET, when a
      fetch is not admissible, or when a request repeats (the batch operation's
      InvalidStateError). */
  function AddAll(e: Entries, reqs: seq<Request>, net: Network): (r: Option<Entries>)
    ensures r.Some? <==> Distinct(reqs) && forall i :: 0 <= i < |reqs| ==> reqs[i].httpMethod == Get && Admissible(net(reqs[i]))
    ensures r.Some? ==> forall req :: req in reqs ==> req in r.value && r.value[req] == net(req).response
    ensures r.Some? ==> forall req :: req in e && req !in reqs ==> req in r.value && r.value[req] == e[req]
    ensures r.Some? ==> r.value.Keys == e.Keys + set req | req in reqs
  {
    if Distinct(reqs) && forall req :: req in reqs ==> req.httpMethod == Get && Admissible(net(req))
    then Some(e + map req | req in reqs :: net(req).response)
    else None
  }
}
