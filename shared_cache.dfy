/** The persistent file cache shared by the worker builds (`shared-cache.js`): a store of
    records keyed by cache key, with a 30-day time to live, and the resolver that looks a
    file up in it, restores it into the worker's file system, or fetches it. */
module SharedCache {
  import opened Common
  import opened MemFs

  /** 30 days in milliseconds. */
  const TTL_MS: int := 30 * 24 * 60 * 60 * 1000

  /** Where resolved files are materialised in the worker's file system. */
  const TEXCACHEROOT: string := "/tex"

  /** One record of the object store: `{cacheKey, exists, lastUpdated, content}`; the field `exists` is called `present` here. */
  datatype Entry = Entry(cacheKey: string, present: bool, lastUpdated: int, content: Option<Bytes>)

  type Store = map<string, Entry>

  /** The object store's key path is `cacheKey`: a record is stored under its own key. */
  ghost predicate KeyedByCacheKey(store: Store) {
    forall k :: k in store ==> store[k].cacheKey == k
  }

  /** A negative record never carries content. */
  ghost predicate NegativesEmpty(store: Store) {
    forall k :: k in store && !store[k].present ==> store[k].content.None?
  }

  /** The record `getCacheEntry` returns: present, and not older than the time to live. */
  function Lookup(store: Store, key: string, now: int): (r: Option<Entry>)
    ensures r.Some? <==> key in store && now - store[key].lastUpdated <= TTL_MS
    ensures r.Some? ==> r.value == store[key]
  {
    if key in store && now - store[key].lastUpdated <= TTL_MS then Some(store[key]) else None
  }

  /** The store after `getCacheEntry`: an expired record is deleted, nothing else changes. */
  function AfterLookup(store: Store, key: string, now: int): (r: Store)
    ensures key in r <==> Lookup(store, key, now).Some?
    ensures forall k :: k in r ==> k in store && r[k] == store[k]
    ensures forall k :: k in store && k != key ==> k in r
  {
    if key in store && now - store[key].lastUpdated > TTL_MS then store - {key} else store
  }

  /** What `fetch(url)` produced: a response with its status and body, or an exception
      (from `fetch` itself or from reading the body). */
  datatype Fetch = Response(status: int, body: Bytes) | Threw

  /** `response.ok`. */
  predicate IsOk(status: int) {
    200 <= status <= 299
  }

  /** The statuses the resolver treats as definitive absence. */
  predicate IsDefinitiveAbsence(status: int) {
    status == 301 || status == 404
  }

  /** A resolution: the path returned (`None` is the null pointer 0), the URL fetched
      (if any), and the new cache store and file system. */
  datatype Resolution = Resolution(path: Option<string>, fetched: Option<string>, store: Store, fs: Fs)

  /** `TEXCACHEROOT + "/" + id.split("/").pop()`. */
  function SavePath(id: string): string {
    TEXCACHEROOT + "/" + LastSegment(id)
  }

  /** `FS.writeFile(path, data)` followed by the verifying `FS.stat(path)`: whether both
      succeeded, and the file system afterwards. */
  function Restore(fs: Fs, path: string, data: Bytes): (r: (bool, Fs))
    ensures r.0 <==> WriteFile(fs, path, data).Some?
    ensures r.0 ==> r.1 == WriteFile(fs, path, data).value
    ensures !r.0 ==> r.1 == fs
  {
    match WriteFile(fs, path, data)
    case None => (false, fs)
    case Some(written) => (Stat(written, path).Some?, written)
  }

  /** The resolution order of `downloadAndCacheFile(cacheKey, endpoint)`. */
  function Resolve(store: Store, fs: Fs, texliveEndpoint: string, key: string, endpoint: string,
                   now: int, fetch: string -> Fetch): Resolution
  {
    var entry := Lookup(store, key, now);
    var store1 := AfterLookup(store, key, now);
    var url := texliveEndpoint + endpoint + key;
    if entry.Some? && !entry.value.present then
      Resolution(None, None, store1, fs)
    else if entry.Some? && entry.value.content.Some? then
      var (ok, fs1) := Restore(fs, SavePath(key), entry.value.content.value);
      if ok then Resolution(Some(SavePath(key)), None, store1, fs1)
      else FetchStage(store1 - {key}, fs1, url, key, now, fetch(url))
    else
      FetchStage(store1, fs, url, key, now, fetch(url))
  }

  /** The network half of the resolver, given what the fetch of `url` produced. */
  function FetchStage(store: Store, fs: Fs, url: string, key: string, now: int, response: Fetch): Resolution
  {
    match response
    case Threw => Resolution(None, Some(url), store, fs)
    case Response(status, body) =>
      if IsOk(status) then
        var (ok, fs1) := Restore(fs, SavePath(url), body);
        if ok then Resolution(Some(SavePath(url)), Some(url), store[key := Entry(key, true, now, Some(body))], fs1)
        else Resolution(None, Some(url), store, fs1)
      else if IsDefinitiveAbsence(status) then
        Resolution(None, Some(url), store[key := Entry(key, false, now, None)], fs)
      else
        Resolution(None, Some(url), store, fs)
  }

  /** The IndexedDB object store `files` of database `texlive-file-cache`. */
  class FileCache {
    var store: Store

    ghost predicate Valid()
      reads this
    {
      KeyedByCacheKey(store)
    }

    /** `initCache()`: opens the store with the records an earlier session left in it. */
    constructor (records: Store)
      requires KeyedByCacheKey(records)
      ensures Valid() && store == records
    {
      store := records;
    }

    /** `getCacheEntry(cacheKey)` at time `now`. */
    method GetCacheEntry(cacheKey: string, now: int) returns (r: Option<Entry>)
      requires Valid()
      modifies this
      ensures Valid()
      ensures r == Lookup(old(store), cacheKey, now)
      ensures store == AfterLookup(old(store), cacheKey, now)
    {
      if cacheKey !in store {
        return None;
      }
      var entry := store[cacheKey];
      if now - entry.lastUpdated > TTL_MS {
        DeleteCacheEntry(cacheKey);
        return None;
      }
      return Some(entry);
    }

    /** `setCacheEntry(cacheKey, exists, content = null)` at time `now`: a put, replacing any record. */
    method SetCacheEntry(cacheKey: string, present: bool, now: int, content: Option<Bytes> := None)
      requires Valid()
      modifies this
      ensures Valid()
      ensures store == old(store)[cacheKey := Entry(cacheKey, present, now, content)]
    {
      var entry := Entry(cacheKey, present, now, content);
      store := store[cacheKey := entry];
    }

    /** `deleteCacheEntry(cacheKey)`. */
    method DeleteCacheEntry(cacheKey: string)
      requires Valid()
      modifies this
      ensures Valid()
      ensures store == old(store) - {cacheKey}
    {
      store := store - {cacheKey};
    }

    /** `purgeCache()`. */
    method PurgeCache()
      modifies this
      ensures Valid()
      ensures store == map[]
    {
      store := map[];
    }

    /** `downloadAndCacheFile(cacheKey, endpoint)`, with the worker's file system `fs`
        and `self.texlive_endpoint` as inputs. Returns the path (or `None` for 0), the
        file system afterwards, and the URL it fetched, if it fetched at all. */
    method DownloadAndCacheFile(fs: Fs, texliveEndpoint: string, cacheKey: string, endpoint: string,
                                now: int, fetch: string -> Fetch)
      returns (path: Option<string>, fs': Fs, fetched: Option<string>)
      requires Valid()
      modifies this
      ensures Valid()
      ensures Resolution(path, fetched, store, fs') == Resolve(old(store), fs, texliveEndpoint, cacheKey, endpoint, now, fetch)
    {
      fs' := fs;
      var cacheEntry := GetCacheEntry(cacheKey, now);
      if cacheEntry.Some? && !cacheEntry.value.present {
        return None, fs', None;
      }
      if cacheEntry.Some? && cacheEntry.value.present && cacheEntry.value.content.Some? {
        var savepath := SavePath(cacheKey);
        var written := WriteFile(fs', savepath, cacheEntry.value.content.value);
        if written.Some? {
          fs' := written.value;
          if Stat(fs', savepath).Some? {
            return Some(savepath), fs', None;
          }
        }
        DeleteCacheEntry(cacheKey);
      }

      var remoteUrl := texliveEndpoint + endpoint + cacheKey;
      fetched := Some(remoteUrl);
      var response := fetch(remoteUrl);
      if response.Threw? {
        return None, fs', fetched;
      }
      if IsOk(response.status) {
        var savepath := SavePath(remoteUrl);
        var written := WriteFile(fs', savepath, response.body);
        if written.Some? {
          fs' := written.value;
          if Stat(fs', savepath).Some? {
            SetCacheEntry(cacheKey, true, now, Some(response.body));
            return Some(savepath), fs', fetched;
          }
        }
        return None, fs', fetched;
      } else if IsDefinitiveAbsence(response.status) {
        SetCacheEntry(cacheKey, false, now);
        return None, fs', fetched;
      } else {
        return None, fs', fetched;
      }
    }
  }

  // ---------------------------------------------------------------------------
  // Properties of the store

  /** A record put at time `t` is returned by lookups until the time to live has passed
      (inclusive), and is gone after that. */
  lemma PutThenLookup(store: Store, key: string, present: bool, t: int, content: Option<Bytes>, now: int)
    ensures Lookup(store[key := Entry(key, present, t, content)], key, now)
         == if now - t <= TTL_MS then Some(Entry(key, present, t, content)) else None
    ensures now - t > TTL_MS ==> key !in AfterLookup(store[key := Entry(key, present, t, content)], key, now)
  {
  }

  // ---------------------------------------------------------------------------
  // Properties of the network stage

  /** A thrown fetch, or a status that is neither ok nor 301/404, changes neither the
      cache nor the file system. */
  lemma TransientFailureNotCached(store: Store, fs: Fs, url: string, key: string, now: int, response: Fetch)
    requires response.Threw? || (!IsOk(response.status) && !IsDefinitiveAbsence(response.status))
    ensures FetchStage(store, fs, url, key, now, response) == Resolution(None, Some(url), store, fs)
  {
  }

  /** 301 and 404 record a negative entry, without content, and return null. */
  lemma DefinitiveAbsenceCached(store: Store, fs: Fs, url: string, key: string, now: int, body: Bytes, status: int)
    requires IsDefinitiveAbsence(status)
    ensures FetchStage(store, fs, url, key, now, Response(status, body))
         == Resolution(None, Some(url), store[key := Entry(key, false, now, None)], fs)
  {
  }

  /** An ok response is cached as positive only once it is written to the file system;
      when the write fails nothing is recorded and the result is null. */
  lemma OkCachedOnlyAfterWrite(store: Store, fs: Fs, url: string, key: string, now: int, body: Bytes, status: int)
    requires IsOk(status)
    ensures var r := FetchStage(store, fs, url, key, now, Response(status, body));
            if WriteFile(fs, SavePath(url), body).Some? then
              && r.path == Some(SavePath(url))
              && r.store == store[key := Entry(key, true, now, Some(body))]
              && r.fs.files == fs.files[SavePath(url) := body]
            else
              r == Resolution(None, Some(url), store, fs)
  {
  }

  // ---------------------------------------------------------------------------
  // Properties of the resolution order

  /** A negative record that has not expired short-circuits: no fetch, no file system
      access, no cache change, null result. */
  lemma NegativeHitShortCircuits(store: Store, fs: Fs, texliveEndpoint: string, key: string, endpoint: string,
                                 now: int, fetch: string -> Fetch)
    requires Lookup(store, key, now).Some? && !Lookup(store, key, now).value.present
    ensures Resolve(store, fs, texliveEndpoint, key, endpoint, now, fetch) == Resolution(None, None, store, fs)
  {
  }

  /** The resolver fetches exactly when no live negative record exists and no live
      positive record could be restored; and it fetches `texliveEndpoint + endpoint + key`. */
  lemma FetchesOnlyOnMiss(store: Store, fs: Fs, texliveEndpoint: string, key: string, endpoint: string,
                          now: int, fetch: string -> Fetch)
    ensures var r := Resolve(store, fs, texliveEndpoint, key, endpoint, now, fetch);
            var e := Lookup(store, key, now);
            && (r.fetched.None? <==>
                 e.Some? && (!e.value.present || (e.value.content.Some? && WriteFile(fs, SavePath(key), e.value.content.value).Some?)))
            && (r.fetched.Some? ==> r.fetched.value == texliveEndpoint + endpoint + key)
  {
  }

  /** A live positive record with content is restored to `/tex/<last segment of key>`
      and returned without a fetch; when the restore fails the record is deleted and the
      resolver goes on to the network. */
  lemma PositiveHitRestores(store: Store, fs: Fs, texliveEndpoint: string, key: string, endpoint: string,
                            now: int, fetch: string -> Fetch)
    requires Lookup(store, key, now).Some? && Lookup(store, key, now).value.present
    requires Lookup(store, key, now).value.content.Some?
    ensures var r := Resolve(store, fs, texliveEndpoint, key, endpoint, now, fetch);
            var c := store[key].content.value;
            var url := texliveEndpoint + endpoint + key;
            if WriteFile(fs, SavePath(key), c).Some? then
              r == Resolution(Some(SavePath(key)), None, store, WriteFile(fs, SavePath(key), c).value)
            else
              r == FetchStage(store - {key}, fs, url, key, now, fetch(url))
  {
  }

  /** The resolver returns null or a path under `/tex/` that holds a file; for a key with
      a `/` (every key the worker builds) it is `/tex/<last segment of key>`, the same
      path on the cache-hit and on the network path. */
  lemma ResolvedPathUnderCacheRoot(store: Store, fs: Fs, texliveEndpoint: string, key: string, endpoint: string,
                                   now: int, fetch: string -> Fetch)
    ensures var r := Resolve(store, fs, texliveEndpoint, key, endpoint, now, fetch);
            r.path.Some? ==>
              && TEXCACHEROOT + "/" <= r.path.value
              && r.path.value in r.fs.files
              && ('/' in key ==> r.path.value == SavePath(key))
  {
    var entry := Lookup(store, key, now);
    var store1 := AfterLookup(store, key, now);
    var url := texliveEndpoint + endpoint + key;
    if entry.Some? && entry.value.present && entry.value.content.Some? {
      var (ok, fs1) := Restore(fs, SavePath(key), entry.value.content.value);
      if !ok && FetchStage(store1 - {key}, fs1, url, key, now, fetch(url)).path.Some? {
        FetchStageStored(store1 - {key}, fs1, url, key, now, fetch(url));
      }
    } else if !(entry.Some? && !entry.value.present) && FetchStage(store1, fs, url, key, now, fetch(url)).path.Some? {
      FetchStageStored(store1, fs, url, key, now, fetch(url));
    }
    if '/' in key {
      LastSegmentPrepend(texliveEndpoint + endpoint, key);
      assert SavePath(url) == SavePath(key);
    }
  }

  /** After a successful resolution, the cache and the file system agree: a record made
      from the network holds exactly the bytes the returned path holds. */
  lemma CacheAgreesWithFs(store: Store, fs: Fs, texliveEndpoint: string, key: string, endpoint: string,
                          now: int, fetch: string -> Fetch)
    ensures var r := Resolve(store, fs, texliveEndpoint, key, endpoint, now, fetch);
            r.path.Some? ==>
              && key in r.store && r.store[key].present && r.store[key].content.Some?
              && r.fs.files[r.path.value] == r.store[key].content.value
  {
    var r := Resolve(store, fs, texliveEndpoint, key, endpoint, now, fetch);
    if r.path.Some? && r.fetched.Some? {
      FetchedStored(store, fs, texliveEndpoint, key, endpoint, now, fetch);
    }
  }

  /** The resolver keeps the store keyed by cache key, never records content on a
      negative entry, keeps the file system a valid tree and creates no directory. */
  lemma ResolvePreservesInvariants(store: Store, fs: Fs, texliveEndpoint: string, key: string, endpoint: string,
                                   now: int, fetch: string -> Fetch)
    requires Valid(fs)
    ensures var r := Resolve(store, fs, texliveEndpoint, key, endpoint, now, fetch);
            && Valid(r.fs) && r.fs.dirs == fs.dirs && r.fs.writeFaults == fs.writeFaults
            && (KeyedByCacheKey(store) ==> KeyedByCacheKey(r.store))
            && (NegativesEmpty(store) ==> NegativesEmpty(r.store))
  {
    var entry := Lookup(store, key, now);
    var store1 := AfterLookup(store, key, now);
    var url := texliveEndpoint + endpoint + key;
    if entry.Some? && entry.value.present && entry.value.content.Some? {
      var (ok, fs1) := Restore(fs, SavePath(key), entry.value.content.value);
      if ok {
        WriteFileValid(fs, SavePath(key), entry.value.content.value);
      } else {
        FetchStagePreservesInvariants(store1 - {key}, fs1, url, key, now, fetch(url));
      }
    } else if !(entry.Some? && !entry.value.present) {
      FetchStagePreservesInvariants(store1, fs, url, key, now, fetch(url));
    }
  }

  lemma FetchStagePreservesInvariants(store: Store, fs: Fs, url: string, key: string, now: int, response: Fetch)
    requires Valid(fs)
    ensures var r := FetchStage(store, fs, url, key, now, response);
            && Valid(r.fs) && r.fs.dirs == fs.dirs && r.fs.writeFaults == fs.writeFaults
            && (KeyedByCacheKey(store) ==> KeyedByCacheKey(r.store))
            && (NegativesEmpty(store) ==> NegativesEmpty(r.store))
  {
    FetchStageKeepsTree(store, fs, url, key, now, response);
    FetchStageKeepsStore(store, fs, url, key, now, response);
  }

  /** The network stage writes at most one file and keeps the tree valid. */
  lemma FetchStageKeepsTree(store: Store, fs: Fs, url: string, key: string, now: int, response: Fetch)
    requires Valid(fs)
    ensures var r := FetchStage(store, fs, url, key, now, response);
            Valid(r.fs) && r.fs.dirs == fs.dirs && r.fs.writeFaults == fs.writeFaults
  {
    if response.Response? && IsOk(response.status) && WriteFile(fs, SavePath(url), response.body).Some? {
      WriteFileValid(fs, SavePath(url), response.body);
    }
  }

  /** The network stage puts at most one record, under its own key, with content only if positive. */
  lemma FetchStageKeepsStore(store: Store, fs: Fs, url: string, key: string, now: int, response: Fetch)
    ensures var r := FetchStage(store, fs, url, key, now, response);
            && (KeyedByCacheKey(store) ==> KeyedByCacheKey(r.store))
            && (NegativesEmpty(store) ==> NegativesEmpty(r.store))
  {
    if response.Response? {
      PutKeepsInvariants(store, Entry(key, true, now, Some(response.body)));
      PutKeepsInvariants(store, Entry(key, false, now, None));
    }
  }

  /** The resolver writes only below the cache root: it creates no directory, loses no file,
      and every file outside `/tex` reads as before. */
  lemma ResolveWritesOnlyCacheRoot(store: Store, fs: Fs, texliveEndpoint: string, key: string, endpoint: string,
                                   now: int, fetch: string -> Fetch)
    ensures var r := Resolve(store, fs, texliveEndpoint, key, endpoint, now, fetch);
            && r.fs.dirs == fs.dirs && fs.files.Keys <= r.fs.files.Keys
            && forall p :: !Under(p, TEXCACHEROOT) ==> ReadFile(r.fs, p) == ReadFile(fs, p)
  {
    var entry := Lookup(store, key, now);
    var store1 := AfterLookup(store, key, now);
    var url := texliveEndpoint + endpoint + key;
    if entry.Some? && entry.value.present && entry.value.content.Some? {
      SavePathUnderCacheRoot(key);
      var (ok, fs1) := Restore(fs, SavePath(key), entry.value.content.value);
      if !ok {
        FetchStageWritesOnlyCacheRoot(store1 - {key}, fs1, url, key, now, fetch(url));
      }
    } else if !(entry.Some? && !entry.value.present) {
      FetchStageWritesOnlyCacheRoot(store1, fs, url, key, now, fetch(url));
    }
  }

  lemma FetchStageWritesOnlyCacheRoot(store: Store, fs: Fs, url: string, key: string, now: int, response: Fetch)
    ensures var r := FetchStage(store, fs, url, key, now, response);
            && r.fs.dirs == fs.dirs && fs.files.Keys <= r.fs.files.Keys
            && forall p :: !Under(p, TEXCACHEROOT) ==> ReadFile(r.fs, p) == ReadFile(fs, p)
  {
    if response.Response? && IsOk(response.status) {
      var w := WriteFile(fs, SavePath(url), response.body);
      if w.Some? {
        SavePathUnderCacheRoot(url);
        forall p | !Under(p, TEXCACHEROOT) ensures ReadFile(w.value, p) == ReadFile(fs, p) {
          assert p != SavePath(url);
        }
      }
    }
  }

  lemma SavePathUnderCacheRoot(id: string)
    ensures Under(SavePath(id), TEXCACHEROOT)
  {
    assert (TEXCACHEROOT + "/" + LastSegment(id))[..|TEXCACHEROOT + "/"|] == TEXCACHEROOT + "/";
  }

  /** Putting a record under its own key, without content if negative, keeps both store invariants. */
  lemma PutKeepsInvariants(store: Store, e: Entry)
    requires !e.present ==> e.content.None?
    ensures KeyedByCacheKey(store) ==> KeyedByCacheKey(store[e.cacheKey := e])
    ensures NegativesEmpty(store) ==> NegativesEmpty(store[e.cacheKey := e])
  {
  }

  // ---------------------------------------------------------------------------
  // Two resolutions in a row

  /** A file just fetched is, on the next resolution within the time to live, restored
      from the cache to the same path, with no fetch. */
  lemma {:induction false} FetchedThenHit(store: Store, fs: Fs, texliveEndpoint: string, key: string, endpoint: string,
                                          now1: int, fetch1: string -> Fetch, now2: int, fetch2: string -> Fetch)
    requires '/' in key
    requires now1 <= now2 <= now1 + TTL_MS
    requires var r1 := Resolve(store, fs, texliveEndpoint, key, endpoint, now1, fetch1);
             r1.path.Some? && r1.fetched.Some?
    ensures var r1 := Resolve(store, fs, texliveEndpoint, key, endpoint, now1, fetch1);
            var r2 := Resolve(r1.store, r1.fs, texliveEndpoint, key, endpoint, now2, fetch2);
            r2.fetched.None? && r2.path == r1.path && r2.store == r1.store && r2.fs == r1.fs
  {
    var r1 := Resolve(store, fs, texliveEndpoint, key, endpoint, now1, fetch1);
    var url := texliveEndpoint + endpoint + key;
    FetchedStored(store, fs, texliveEndpoint, key, endpoint, now1, fetch1);
    LastSegmentPrepend(texliveEndpoint + endpoint, key);
    assert SavePath(url) == SavePath(key);
    HitAfterStored(r1.store, r1.fs, texliveEndpoint, key, endpoint, now2, fetch2, fetch1(url).body, now1);
  }

  /** A resolution that fetched and returned a path leaves what the network stage stored. */
  lemma FetchedStored(store: Store, fs: Fs, texliveEndpoint: string, key: string, endpoint: string,
                      now: int, fetch: string -> Fetch)
    requires var r := Resolve(store, fs, texliveEndpoint, key, endpoint, now, fetch);
             r.path.Some? && r.fetched.Some?
    ensures var url := texliveEndpoint + endpoint + key;
            var r := Resolve(store, fs, texliveEndpoint, key, endpoint, now, fetch);
            && fetch(url).Response?
            && r.path == Some(SavePath(url))
            && key in r.store && r.store[key] == Entry(key, true, now, Some(fetch(url).body))
            && SavePath(url) in r.fs.files && r.fs.files[SavePath(url)] == fetch(url).body
            && WriteFile(r.fs, SavePath(url), fetch(url).body) == Some(r.fs)
  {
    var url := texliveEndpoint + endpoint + key;
    var entry := Lookup(store, key, now);
    var store1 := AfterLookup(store, key, now);
    if entry.Some? && entry.value.present && entry.value.content.Some? {
      var (ok, fs1) := Restore(fs, SavePath(key), entry.value.content.value);
      if !ok {
        FetchStageStored(store1 - {key}, fs1, url, key, now, fetch(url));
      }
    } else if !(entry.Some? && !entry.value.present) {
      FetchStageStored(store1, fs, url, key, now, fetch(url));
    }
  }

  /** A live positive record whose bytes are already at its save path is a hit that
      changes nothing. */
  lemma HitAfterStored(store: Store, fs: Fs, texliveEndpoint: string, key: string, endpoint: string,
                       now: int, fetch: string -> Fetch, body: Bytes, t: int)
    requires key in store && store[key] == Entry(key, true, t, Some(body)) && now - t <= TTL_MS
    requires SavePath(key) in fs.files && WriteFile(fs, SavePath(key), body) == Some(fs)
    ensures Resolve(store, fs, texliveEndpoint, key, endpoint, now, fetch) == Resolution(Some(SavePath(key)), None, store, fs)
  {
    assert Lookup(store, key, now) == Some(store[key]);
    assert AfterLookup(store, key, now) == store;
  }

  /** A network stage that returns a path has recorded the fetched bytes as a live
      positive record and left exactly those bytes at the path, where writing them again
      changes nothing. */
  lemma FetchStageStored(store: Store, fs: Fs, url: string, key: string, now: int, response: Fetch)
    requires FetchStage(store, fs, url, key, now, response).path.Some?
    ensures response.Response?
    ensures var r := FetchStage(store, fs, url, key, now, response);
            && r.path == Some(SavePath(url))
            && key in r.store && r.store[key] == Entry(key, true, now, Some(response.body))
            && SavePath(url) in r.fs.files && r.fs.files[SavePath(url)] == response.body
            && WriteFile(r.fs, SavePath(url), response.body) == Some(r.fs)
  {
    var r := FetchStage(store, fs, url, key, now, response);
    assert r.fs.files[SavePath(url) := response.body] == r.fs.files;
  }

  /** A 301/404 answer is trusted for the time to live: the next resolution within it
      neither fetches nor changes anything; after it, the resolver fetches again. */
  lemma {:induction false} AbsentThenShortCircuit(store: Store, fs: Fs, texliveEndpoint: string, key: string, endpoint: string,
                                                  now1: int, fetch1: string -> Fetch, now2: int, fetch2: string -> Fetch)
    requires var url := texliveEndpoint + endpoint + key;
             fetch1(url).Response? && IsDefinitiveAbsence(fetch1(url).status)
    requires Resolve(store, fs, texliveEndpoint, key, endpoint, now1, fetch1).fetched.Some?
    ensures var r1 := Resolve(store, fs, texliveEndpoint, key, endpoint, now1, fetch1);
            var r2 := Resolve(r1.store, r1.fs, texliveEndpoint, key, endpoint, now2, fetch2);
            && (now2 - now1 <= TTL_MS ==> r2 == Resolution(None, None, r1.store, r1.fs))
            && (now2 - now1 > TTL_MS ==> r2.fetched == Some(texliveEndpoint + endpoint + key))
  {
    var r1 := Resolve(store, fs, texliveEndpoint, key, endpoint, now1, fetch1);
    assert r1.store[key] == Entry(key, false, now1, None);
  }

  /** A transient failure is not remembered: the next resolution fetches again,
      whatever the network then answers. */
  lemma {:induction false} TransientThenRetry(store: Store, fs: Fs, texliveEndpoint: string, key: string, endpoint: string,
                                              now1: int, fetch1: string -> Fetch, now2: int, fetch2: string -> Fetch)
    requires var url := texliveEndpoint + endpoint + key;
             fetch1(url).Threw? || (!IsOk(fetch1(url).status) && !IsDefinitiveAbsence(fetch1(url).status))
    requires Resolve(store, fs, texliveEndpoint, key, endpoint, now1, fetch1).fetched.Some?
    ensures var r1 := Resolve(store, fs, texliveEndpoint, key, endpoint, now1, fetch1);
            var r2 := Resolve(r1.store, r1.fs, texliveEndpoint, key, endpoint, now2, fetch2);
            r2.fetched == Some(texliveEndpoint + endpoint + key)
  {
  }
}
