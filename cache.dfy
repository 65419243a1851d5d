/**
 * Where `populateShelf` gets its document: the cache file, or the network followed by a write
 * of the cache file. The file system is a map from path to file, the clock an integer.
 */
module Cache {
  import opened Wrappers
  import opened PhpArrays
  import opened Config
  import opened Records

  /**
   * The content of a file or a response, by what `getXML` makes of it: a document it accepts, or
   * one it throws on (markup that does not parse, and also a document whose root element has no
   * children and no attributes, which SimpleXML casts to false).
   */
  datatype Markup = Accepted(doc: Doc) | Rejected

  datatype CachedFile = CachedFile(content: Markup, mtime: int)

  /** The documents the network answers with, by request URL; a missing URL cannot be fetched. */
  type Web = map<Url, Markup>

  /** The local file system: its files, and the paths a write to fails. */
  class FileSystem {
    var files: map<string, CachedFile>
    const unwritable: set<string>

    constructor (files: map<string, CachedFile>, unwritable: set<string>)
      ensures this.files == files && this.unwritable == unwritable
    {
      this.files := files;
      this.unwritable := unwritable;
    }

    /** `unlink`. */
    method Unlink(path: string)
      modifies this
      ensures files == old(files) - {path}
    {
      files := files - {path};
    }

    /** `asXML($path)`: writes the document, stamped with the current time, or fails. */
    method Write(path: string, doc: Doc, now: int) returns (ok: bool)
      modifies this
      ensures ok == (path !in unwritable)
      ensures files == if ok then old(files)[path := CachedFile(Accepted(doc), now)] else old(files)
    {
      ok := path !in unwritable;
      if ok {
        files := files[path := CachedFile(Accepted(doc), now)];
      }
    }
  }

  /** `getXML`: the parsed document, or "Could not parse XML". */
  function Parse(m: Markup): (r: Result<Doc, Error>)
    ensures r.Success? <==> m.Accepted?
    ensures r.Success? ==> r.value == m.doc
    ensures r.Failure? ==> r.error == ParseFailed
  {
    match m
    case Accepted(d) => Success(d)
    case Rejected => Failure(ParseFailed)
  }

  /** `getXML` on a URL: a failed fetch fails the same way as a rejected response. */
  function Download(web: Web, url: Url): (r: Result<Doc, Error>)
    ensures r.Success? <==> url in web && web[url].Accepted?
    ensures r.Success? ==> r.value == web[url].doc
    ensures r.Failure? ==> r.error == ParseFailed
  {
    if url in web then Parse(web[url]) else Failure(ParseFailed)
  }

  datatype Source = FromCache | FetchAndStore | FetchOnly

  /** The branch `populateShelf` takes. */
  function Decide(cacheOn: bool, present: bool, mtime: int, now: int, hours: int): (s: Source)
    ensures s == FromCache <==> cacheOn && present && now - mtime < hours * 3600
    ensures s == FetchAndStore <==> cacheOn && !(present && now - mtime < hours * 3600)
    ensures s == FetchOnly <==> !cacheOn
  {
    if cacheOn then
      var time := if present then mtime else 0;
      var expire := now - hours * 60 * 60;
      if present && time > expire then FromCache else FetchAndStore
    else FetchOnly
  }

  /** The outcome of the resolution: the document or error, the files, and the base URL. */
  datatype Resolution = Resolution(doc: Result<Doc, Error>, files: map<string, CachedFile>, base: BaseUrl)

  function DecideFor(opts: PhpArray, files: map<string, CachedFile>, now: int): Source {
    var path := CachePath(opts);
    Decide(CacheEnabled(opts), path in files, if path in files then files[path].mtime else 0, now, CacheHours(opts))
  }

  /** The first half of `populateShelf`, up to the parsed document. */
  function Resolve(
    opts: PhpArray, uID: string, api: string, base: BaseUrl,
    files: map<string, CachedFile>, unwritable: set<string>, web: Web, now: int): (res: Resolution)
    ensures DecideFor(opts, files, now) == FromCache ==> res.base == base
    ensures DecideFor(opts, files, now) != FromCache ==> res.base == Filled(FillUrl(base, uID, api, opts))
    ensures res.files == files ||
      (res.doc.Success? && res.files == files[CachePath(opts) := CachedFile(Accepted(res.doc.value), now)])
    ensures res.doc.Failure? ==> res.files == files
  {
    var path := CachePath(opts);
    match DecideFor(opts, files, now)
    case FromCache => Resolution(Parse(files[path].content), files, base)
    case FetchAndStore =>
      var url := FillUrl(base, uID, api, opts);
      var fetched := Download(web, url);
      if fetched.Failure? then Resolution(fetched, files, Filled(url))
      else if path in unwritable then Resolution(Failure(CacheWriteFailed), files, Filled(url))
      else Resolution(fetched, files[path := CachedFile(Accepted(fetched.value), now)], Filled(url))
    case FetchOnly =>
      var url := FillUrl(base, uID, api, opts);
      Resolution(Download(web, url), files, Filled(url))
  }

  /** A cache file is fresh exactly while its age is below the TTL; at an age equal to it, it has expired. */
  lemma FreshWhileYoungerThanTtl(mtime: int, now: int, hours: int)
    ensures Decide(true, true, mtime, now, hours) == FromCache <==> now - mtime < hours * 3600
    ensures Decide(true, true, now - hours * 3600, now, hours) == FetchAndStore
  {
  }

  /**
   * A cache hit reads the cache file, and nothing else: no URL is generated, nothing is
   * written, and the network is not consulted.
   */
  lemma HitReadsOnlyTheCacheFile(
    opts: PhpArray, uID: string, api: string, base: BaseUrl,
    files: map<string, CachedFile>, unwritable: set<string>, web1: Web, web2: Web, now: int)
    requires DecideFor(opts, files, now) == FromCache
    ensures CachePath(opts) in files
    ensures Resolve(opts, uID, api, base, files, unwritable, web1, now) ==
      Resolution(Parse(files[CachePath(opts)].content), files, base)
    ensures Resolve(opts, uID, api, base, files, unwritable, web1, now) ==
      Resolve(opts, uID, api, base, files, unwritable, web2, now)
  {
  }

  /** With caching off the document is always fetched and no file is touched. */
  lemma DisabledAlwaysFetches(
    opts: PhpArray, uID: string, api: string, base: BaseUrl,
    files: map<string, CachedFile>, unwritable: set<string>, web: Web, now: int)
    requires !CacheEnabled(opts)
    ensures var url := FillUrl(base, uID, api, opts);
      Resolve(opts, uID, api, base, files, unwritable, web, now) == Resolution(Download(web, url), files, Filled(url))
  {
  }

  /**
   * On a miss the fetched document is written to the cache file with the current time; a write
   * that fails throws, discarding the document, and a fetch that fails writes nothing.
   */
  lemma MissFetchesAndStores(
    opts: PhpArray, uID: string, api: string, base: BaseUrl,
    files: map<string, CachedFile>, unwritable: set<string>, web: Web, now: int)
    requires DecideFor(opts, files, now) == FetchAndStore
    ensures var url := FillUrl(base, uID, api, opts);
      var path := CachePath(opts);
      var res := Resolve(opts, uID, api, base, files, unwritable, web, now);
      && res.base == Filled(url)
      && (Download(web, url).Failure? ==> res.doc == Download(web, url) && res.files == files)
      && (Download(web, url).Success? && path in unwritable ==>
            res.doc == Failure(CacheWriteFailed) && res.files == files)
      && (Download(web, url).Success? && path !in unwritable ==>
            res.doc == Download(web, url) &&
            res.files == files[path := CachedFile(Accepted(Download(web, url).value), now)])
  {
  }

  /**
   * A document stored on a miss is served back from the cache, unchanged, to every resolution
   * within the TTL that follows.
   */
  lemma {:induction false} StoredDocumentIsServedBack(
    opts: PhpArray, uID: string, api: string, base: BaseUrl,
    files: map<string, CachedFile>, unwritable: set<string>, web: Web, now: int,
    base2: BaseUrl, web2: Web, later: int)
    requires DecideFor(opts, files, now) == FetchAndStore
    requires Resolve(opts, uID, api, base, files, unwritable, web, now).doc.Success?
    requires now <= later < now + CacheHours(opts) * 3600
    ensures var first := Resolve(opts, uID, api, base, files, unwritable, web, now);
      Resolve(opts, uID, api, base2, first.files, unwritable, web2, later) ==
        Resolution(first.doc, first.files, base2)
  {
    var first := Resolve(opts, uID, api, base, files, unwritable, web, now);
    var path := CachePath(opts);
    MissFetchesAndStores(opts, uID, api, base, files, unwritable, web, now);
    assert first.files[path] == CachedFile(Accepted(first.doc.value), now);
    assert DecideFor(opts, first.files, later) == FromCache;
    HitReadsOnlyTheCacheFile(opts, uID, api, base2, first.files, unwritable, web2, web2, later);
  }

  /** When the cache file is missing (say, deleted by a forced refresh) a cached client fetches. */
  lemma MissingFileForcesFetch(opts: PhpArray, files: map<string, CachedFile>, now: int)
    requires CacheEnabled(opts) && CachePath(opts) !in files
    ensures DecideFor(opts, files, now) == FetchAndStore
  {
  }
}
