/** The `goodReads` class: construction, the setter, and the memoised shelf. */
module Client {
  import opened Wrappers
  import opened Php
  import opened PhpArrays
  import opened Config
  import opened Records
  import opened Cache

  /** `$this->shelf[] = $book` for each of `books`: a null shelf stays null when there are none. */
  function AppendBooks(shelf: Option<seq<Book>>, books: seq<Book>): Option<seq<Book>> {
    if books == [] then shelf else Some(shelf.GetOr([]) + books)
  }

  /** Appending one more book to a shelf that got `books` appended. */
  lemma AppendOne(shelf: Option<seq<Book>>, books: seq<Book>, book: Book)
    ensures AppendBooks(shelf, books + [book]) == Some(AppendBooks(shelf, books).GetOr([]) + [book])
  {
    if books == [] {
      assert books + [book] == [book];
      assert shelf.GetOr([]) + [] == shelf.GetOr([]);
    } else {
      assert shelf.GetOr([]) + (books + [book]) == (shelf.GetOr([]) + books) + [book];
    }
  }

  /**
   * The shelf `populateShelf` leaves: unchanged when no document is obtained; otherwise with the
   * records of the entries before the first one without `<shelves>` appended, which is all of
   * them when every entry has `<shelves>`.
   */
  function ShelfAfter(doc: Result<Doc, Error>, prior: Option<seq<Book>>, useGbooks: bool)
    : (s: Option<seq<Book>>)
    ensures doc.Failure? ==> s == prior
    ensures doc.Success? && prior.None? ==>
      var reviews := doc.value.reviews;
      (s.None? <==> FirstBroken(reviews) == 0) &&
      (s.Some? ==> s.value == Normalize(reviews[..FirstBroken(reviews)], useGbooks))
  {
    match doc
    case Failure(_) => prior
    case Success(d) => AppendBooks(prior, Normalize(d.reviews[..FirstBroken(d.reviews)], useGbooks))
  }

  /**
   * What `populateShelf` returns once its document is resolved: the error of a failed
   * resolution; the fatal error when an entry lacks `<shelves>`; the new shelf otherwise.
   */
  function ShelfResult(doc: Result<Doc, Error>, prior: Option<seq<Book>>, useGbooks: bool)
    : (r: Result<Option<seq<Book>>, Error>)
    ensures doc.Failure? ==> r == Failure(doc.error)
    ensures doc.Success? ==>
      (r.Success? <==> forall i :: 0 <= i < |doc.value.reviews| ==> doc.value.reviews[i].shelves.Some?)
    ensures doc.Success? && r.Failure? ==> r.error == MissingShelves
    ensures r.Success? ==> r.value == ShelfAfter(doc, prior, useGbooks)
    ensures doc.Success? && prior.None? && r.Success? ==>
      (r.value.None? <==> doc.value.reviews == []) &&
      (r.value.Some? ==> r.value.value == Normalize(doc.value.reviews, useGbooks))
  {
    match doc
    case Failure(e) => Failure(e)
    case Success(d) =>
      if FirstBroken(d.reviews) < |d.reviews| then Failure(MissingShelves)
      else
        assert d.reviews[..FirstBroken(d.reviews)] == d.reviews;
        Success(ShelfAfter(doc, prior, useGbooks))
  }

  /**
   * What the setter stores for `api` or `uID`: the text `sprintf('%s')` renders the value as,
   * that being the only use the class makes of either.
   */
  function ArgText(a: Arg): string {
    match a
    case Scalar(v) => ToText(v)
    case Array(_) => "Array"
  }

  class GoodReads {
    var api: string
    var uID: string
    var options: PhpArray
    var baseUrl: BaseUrl
    var shelf: Option<seq<Book>>

    /** The option table keeps the default keys first, so the first five stay the request options. */
    ghost predicate Valid()
      reads this
    {
      WellShaped(options)
    }

    /**
     * The constructor once its arguments have passed the checks and the options have been
     * merged over the defaults: stores them, then, on a forced refresh, deletes the cache file
     * if there is one.
     */
    constructor (api: string, uID: string, options: PhpArray, forceRefresh: bool, fs: FileSystem)
      requires WellShaped(options)
      modifies fs
      ensures this.api == api && this.uID == uID && this.options == options
      ensures baseUrl == Template && shelf == None
      ensures Valid()
      ensures fs.files == if forceRefresh then old(fs.files) - {CachePath(options)} else old(fs.files)
    {
      this.api := api;
      this.uID := uID;
      this.options := options;
      baseUrl := Template;
      shelf := None;
      new;
      var file := CachePath(options);
      if forceRefresh && file in fs.files {
        fs.Unlink(file);
      }
    }

    /**
     * `new goodReads($api, $uID, $options, $forceRefresh)`, with the same defaults (no options,
     * no forced refresh): throws on bad arguments, no object resulting and no file touched;
     * otherwise the client the constructor builds.
     */
    static method Create(
      api: string, uID: string, fs: FileSystem, options: Arg := Array([]), forceRefresh: bool := false)
      returns (r: Result<GoodReads, Error>)
      modifies fs
      ensures ArgumentError(api, uID, options).Some? ==>
        r == Failure(ArgumentError(api, uID, options).value) && fs.files == old(fs.files)
      ensures ArgumentError(api, uID, options).None? ==>
        && r.Success? && fresh(r.value) && r.value.Valid()
        && r.value.api == api && r.value.uID == uID
        && r.value.options == Merge(Defaults(), options.entries)
        && r.value.baseUrl == Template && r.value.shelf == None
        && fs.files == if forceRefresh then old(fs.files) - {CachePath(r.value.options)} else old(fs.files)
    {
      var failure := ArgumentError(api, uID, options);
      if failure.Some? {
        return Failure(failure.value);
      }
      ConfiguredOptions(options.entries);
      var client := new GoodReads(api, uID, Merge(Defaults(), options.entries), forceRefresh, fs);
      r := Success(client);
    }

    /** `__set`: replaces `api` or `uID`, merges an array into the options, and ignores anything else. */
    method Set(key: string, val: Arg)
      requires Valid()
      modifies this`api, this`uID, this`options
      ensures Valid()
      ensures api == if key == "api" then ArgText(val) else old(api)
      ensures uID == if key == "uID" then ArgText(val) else old(uID)
      ensures options == if key == "options" && val.Array? then Merge(old(options), val.entries) else old(options)
    {
      if key == "api" || key == "uID" {
        if key == "api" {
          api := ArgText(val);
        } else {
          uID := ArgText(val);
        }
      } else if key == "options" && val.Array? {
        MergeKeepsWellShaped(options, val.entries);
        options := Merge(options, val.entries);
      }
    }

    /** `generateURL`: fills the base URL in and keeps the result in its place. */
    method GenerateUrl() returns (url: Url)
      modifies this`baseUrl
      ensures url == FillUrl(old(baseUrl), uID, api, options)
      ensures baseUrl == Filled(url)
    {
      match baseUrl {
        case Template =>
          var query := QueryEntries(Slice(options, |RequestKeys|));
          url := Url(uID, api, query);
        case Filled(u) =>
          url := u;
      }
      baseUrl := Filled(url);
    }

    /** `generateCache`: writes the document to the cache file; false stands for the exception. */
    method GenerateCache(fs: FileSystem, doc: Doc, now: int) returns (ok: bool)
      modifies fs
      ensures ok == (CachePath(options) !in fs.unwritable)
      ensures fs.files ==
        if ok then old(fs.files)[CachePath(options) := CachedFile(Accepted(doc), now)] else old(fs.files)
    {
      ok := fs.Write(CachePath(options), doc, now);
    }

    /**
     * The first half of `populateShelf`: the document, parsed from the cache file on a hit, or
     * fetched from `generateURL()` (and, with caching on, written to the cache file) otherwise.
     */
    method ResolveDocument(fs: FileSystem, web: Web, now: int) returns (xml: Result<Doc, Error>)
      modifies this`baseUrl, fs
      ensures var res := Resolve(options, uID, api, old(baseUrl), old(fs.files), fs.unwritable, web, now);
        baseUrl == res.base && fs.files == res.files && xml == res.doc
    {
      if CacheEnabled(options) {
        var file := CachePath(options);
        var time := if file in fs.files then fs.files[file].mtime else 0;
        var expire := now - CacheHours(options) * 60 * 60;
        if file in fs.files && time > expire {
          xml := Parse(fs.files[file].content);
        } else {
          var url := GenerateUrl();
          xml := Download(web, url);
          if xml.Success? {
            var written := GenerateCache(fs, xml.value, now);
            if !written {
              xml := Failure(CacheWriteFailed);
            }
          }
        }
      } else {
        var url := GenerateUrl();
        xml := Download(web, url);
      }
    }

    /**
     * `populateShelf`: resolves the document, then appends one record per review entry to the
     * shelf, in document order. An entry without `<shelves>` ends the loop with a fatal error,
     * the records of the entries before it staying appended.
     */
    method PopulateShelf(fs: FileSystem, web: Web, now: int) returns (r: Result<Option<seq<Book>>, Error>)
      requires Valid()
      modifies this`baseUrl, this`shelf, fs
      ensures Valid()
      ensures var res := Resolve(options, uID, api, old(baseUrl), old(fs.files), fs.unwritable, web, now);
        && baseUrl == res.base && fs.files == res.files
        && r == ShelfResult(res.doc, old(shelf), UseGbooks(options))
        && shelf == ShelfAfter(res.doc, old(shelf), UseGbooks(options))
    {
      var xml := ResolveDocument(fs, web, now);
      if xml.Failure? {
        return Failure(xml.error);
      }
      var reviews := xml.value.reviews;
      var complete := AppendRecords(reviews, UseGbooks(options));
      if !complete {
        return Failure(MissingShelves);
      }
      assert reviews[..FirstBroken(reviews)] == reviews;
      r := Success(shelf);
    }

    /**
     * The `foreach` of `populateShelf`: appends the record of each entry in turn, up to the
     * first entry without `<shelves>`; false when the loop dies there.
     */
    method AppendRecords(reviews: seq<ReviewNode>, useGbooks: bool) returns (complete: bool)
      modifies this`shelf
      ensures complete <==> FirstBroken(reviews) == |reviews|
      ensures shelf == AppendBooks(old(shelf), Normalize(reviews[..FirstBroken(reviews)], useGbooks))
    {
      var i := 0;
      while i < |reviews|
        modifies this`shelf
        invariant 0 <= i <= |reviews|
        invariant i <= FirstBroken(reviews)
        invariant shelf == AppendBooks(old(shelf), Normalize(reviews[..i], useGbooks))
      {
        if reviews[i].shelves.None? {
          return false;
        }
        var book := NormalizeReview(reviews[i], useGbooks);
        NormalizeSnoc(reviews, i, useGbooks);
        AppendOne(old(shelf), Normalize(reviews[..i], useGbooks), book);
        shelf := Some(shelf.GetOr([]) + [book]);
        i := i + 1;
      }
      return true;
    }

    /**
     * `getShelf`: a shelf already built is returned as it is, with nothing resolved again;
     * a null one is populated, and stays null when the document has no review entries.
     */
    method GetShelf(fs: FileSystem, web: Web, now: int) returns (r: Result<Option<seq<Book>>, Error>)
      requires Valid()
      modifies this`baseUrl, this`shelf, fs
      ensures Valid()
      ensures old(shelf).Some? ==>
        r == Success(old(shelf)) && shelf == old(shelf) && baseUrl == old(baseUrl) && fs.files == old(fs.files)
      ensures old(shelf).None? ==>
        var res := Resolve(options, uID, api, old(baseUrl), old(fs.files), fs.unwritable, web, now);
        && baseUrl == res.base && fs.files == res.files
        && r == ShelfResult(res.doc, None, UseGbooks(options))
        && shelf == ShelfAfter(res.doc, None, UseGbooks(options))
    {
      if shelf.None? {
        r := PopulateShelf(fs, web, now);
      } else {
        r := Success(shelf);
      }
    }
  }

  /**
   * Two calls of `getShelf` on one client: once the first has produced books, the second
   * returns the same books, however much later it comes.
   */
  method GetShelfTwice(client: GoodReads, fs: FileSystem, web: Web, now: int, later: int)
    returns (first: Result<Option<seq<Book>>, Error>, second: Result<Option<seq<Book>>, Error>)
    requires client.Valid()
    modifies client, fs
    ensures first.Success? && first.value.Some? ==> second == first
  {
    first := client.GetShelf(fs, web, now);
    ghost var filesBetween := fs.files;
    second := client.GetShelf(fs, web, later);
    if first.Success? && first.value.Some? {
      assert fs.files == filesBetween;
    }
  }
}
