/**
 * The client's configuration: the default option table, the checks and merge the constructor
 * performs, the option readings the rest of the client uses, and the request URL.
 */
module Config {
  import opened Wrappers
  import opened Php
  import opened PhpArrays
  import opened Validation

  /** The exceptions the client throws. */
  datatype Error =
    | MissingCredentials  // "API key and user ID are required"
    | InvalidApiKey       // "Invalid API key"
    | InvalidUserId       // "Invalid user ID"
    | InvalidOptions      // "Invalid options argument. Expecting array"
    | CacheWriteFailed    // "Could not write cache file"
    | ParseFailed         // "Could not parse XML"
    | MissingShelves      // "Call to a member function attributes() on null", an \Error, not an \Exception

  const DefaultKeys: seq<string> :=
    ["shelf", "sort", "order", "page", "per_page", "use_gbooks", "cache", "cache_hours", "cache_file"]

  /** The options that go into the query string: the first five of the table. */
  const RequestKeys: seq<string> := ["shelf", "sort", "order", "page", "per_page"]

  /** The `$options` property as declared. */
  function Defaults(): PhpArray {
    [("shelf", Str("read")), ("sort", Null), ("order", Str("d")), ("page", Null),
     ("per_page", Int(20)), ("use_gbooks", Bool(true)), ("cache", Bool(true)),
     ("cache_hours", Int(12)), ("cache_file", Str("goodReads.xml"))]
  }

  /** The declared table lists its keys in the order of `DefaultKeys`. */
  lemma DefaultsInOrder()
    ensures Keys(Defaults()) == DefaultKeys
  {
  }

  /** An option table that starts with the default keys, in their order. */
  predicate WellShaped(opts: PhpArray) {
    |opts| >= |DefaultKeys| && Keys(opts)[..|DefaultKeys|] == DefaultKeys
  }

  /** The constructor's checks, in the order it makes them: the exception it throws, if any. */
  function ArgumentError(api: string, uID: string, options: Arg): (e: Option<Error>)
    ensures e == Some(MissingCredentials) <==> EmptyText(api) || EmptyText(uID)
    ensures e == Some(InvalidApiKey) <==> !EmptyText(api) && !EmptyText(uID) && !ValidApi(api)
    ensures e == Some(InvalidUserId) <==>
      !EmptyText(api) && !EmptyText(uID) && ValidApi(api) && !ValidUid(uID)
    ensures e == Some(InvalidOptions) <==>
      !EmptyText(api) && !EmptyText(uID) && ValidApi(api) && ValidUid(uID) && !options.Array?
    ensures e.None? <==>
      !EmptyText(api) && !EmptyText(uID) && ValidApi(api) && ValidUid(uID) && options.Array?
  {
    if EmptyText(api) || EmptyText(uID) then Some(MissingCredentials)
    else if !ValidApi(api) then Some(InvalidApiKey)
    else if !ValidUid(uID) then Some(InvalidUserId)
    else if !options.Array? then Some(InvalidOptions)
    else None
  }

  /**
   * The options a client is built with, the caller's merged over the defaults: each key reads
   * as the caller's value when the caller gave one and as the default otherwise, and the
   * default keys come first, in their order.
   */
  lemma ConfiguredOptions(entries: PhpArray)
    ensures WellShaped(Merge(Defaults(), entries))
    ensures forall k ::
      Get(Merge(Defaults(), entries), k) == if k in Keys(entries) then Get(entries, k) else Get(Defaults(), k)
  {
    DefaultsInOrder();
    MergeGet(Defaults(), entries);
    MergeKeepsKeyOrder(Defaults(), entries);
  }

  /** A merge into a well-shaped table leaves it well-shaped. */
  lemma MergeKeepsWellShaped(opts: PhpArray, entries: PhpArray)
    requires WellShaped(opts)
    ensures WellShaped(Merge(opts, entries))
  {
    var merged := Merge(opts, entries);
    MergeKeepsKeyOrder(opts, entries);
    assert Keys(merged)[..|DefaultKeys|] == Keys(merged)[..|opts|][..|DefaultKeys|];
  }

  /** `$this->options['cache']`, as an `if` reads it. */
  predicate CacheEnabled(opts: PhpArray) {
    Truthy(Get(opts, "cache"))
  }

  /** `$this->options['use_gbooks'] === TRUE`: only the boolean true counts. */
  predicate UseGbooks(opts: PhpArray) {
    Get(opts, "use_gbooks") == Bool(true)
  }

  function CacheHours(opts: PhpArray): int {
    ToNumber(Get(opts, "cache_hours"))
  }

  function CachePath(opts: PhpArray): string {
    ToText(Get(opts, "cache_file"))
  }

  /** With no options given the client caches for 12 hours in goodReads.xml and uses Google covers. */
  lemma DefaultSettings()
    ensures CacheEnabled(Defaults()) && UseGbooks(Defaults())
    ensures CacheHours(Defaults()) == 12 && CachePath(Defaults()) == "goodReads.xml"
  {
  }

  /**
   * The request URL, given by what fills the three slots of
   * `http://www.goodreads.com/review/list/%s.xml?v=2&key=%s&%s`: the user id, the API key and
   * the entries of the query string (their URL encoding is not modelled).
   */
  datatype Url = Url(userId: string, apiKey: string, query: seq<Entry>)

  /** The `baseUrl` property: the template until `generateURL` first overwrites it. */
  datatype BaseUrl = Template | Filled(url: Url)

  /** What `generateURL` returns: the template filled in, or the URL it was overwritten with. */
  function FillUrl(base: BaseUrl, uID: string, api: string, opts: PhpArray): Url {
    match base
    case Template => Url(uID, api, QueryEntries(Slice(opts, |RequestKeys|)))
    case Filled(u) => u
  }

  /**
   * Only the first five options, shelf through per_page, can reach the query string, each with
   * its current value; null ones are left out.
   */
  lemma {:induction false} QueryCarriesRequestOptions(uID: string, api: string, opts: PhpArray)
    requires WellShaped(opts)
    ensures Keys(Slice(opts, |RequestKeys|)) == RequestKeys
    ensures forall e :: e in FillUrl(Template, uID, api, opts).query ==>
      e.0 in RequestKeys && e.1 != Null && e.1 == Get(opts, e.0)
    ensures forall i :: 0 <= i < |RequestKeys| && Get(opts, RequestKeys[i]) != Null ==>
      (RequestKeys[i], Get(opts, RequestKeys[i])) in FillUrl(Template, uID, api, opts).query
  {
    var sl := Slice(opts, |RequestKeys|);
    assert sl == opts[..5];
    assert Keys(sl) == Keys(opts)[..|DefaultKeys|][..5];
    assert Keys(sl) == RequestKeys;
    QueryEntriesMembers(sl);
    forall e | e in FillUrl(Template, uID, api, opts).query
      ensures e.0 in RequestKeys && e.1 != Null && e.1 == Get(opts, e.0)
    {
      assert e in sl;
      var i :| 0 <= i < |sl| && sl[i] == e;
      assert Keys(sl)[i] == e.0;
      GetAt(opts, i);
    }
    forall i | 0 <= i < |RequestKeys| && Get(opts, RequestKeys[i]) != Null
      ensures (RequestKeys[i], Get(opts, RequestKeys[i])) in FillUrl(Template, uID, api, opts).query
    {
      assert Keys(sl)[i] == sl[i].0 && sl[i] == opts[i];
      GetAt(opts, i);
      assert sl[i] in sl;
    }
  }

  /** With the default options the query string carries shelf=read, order=d and per_page=20. */
  lemma DefaultQuery(uID: string, api: string)
    ensures FillUrl(Template, uID, api, Defaults()).query ==
      [("shelf", Str("read")), ("order", Str("d")), ("per_page", Int(20))]
  {
    var e0, e1, e2, e3, e4 := ("shelf", Str("read")), ("sort", Null), ("order", Str("d")), ("page", Null), ("per_page", Int(20));
    var sl := Slice(Defaults(), |RequestKeys|);
    assert sl == [e0, e1, e2, e3, e4];
    assert QueryEntries([e4]) == [e4] by {
      assert [e4][1..] == [];
    }
    assert QueryEntries([e3, e4]) == [e4] by {
      assert [e3, e4][1..] == [e4];
    }
    assert QueryEntries([e2, e3, e4]) == [e2, e4] by {
      assert [e2, e3, e4][1..] == [e3, e4];
    }
    assert QueryEntries([e1, e2, e3, e4]) == [e2, e4] by {
      assert [e1, e2, e3, e4][1..] == [e2, e3, e4];
    }
    assert QueryEntries(sl) == [e0, e2, e4] by {
      assert sl[1..] == [e1, e2, e3, e4];
    }
  }

  /** Once overwritten, the base URL no longer depends on the credentials or the options. */
  lemma FilledUrlIsStale(u: Url, uID: string, api: string, opts: PhpArray)
    ensures FillUrl(Filled(u), uID, api, opts) == u
  {
  }

  /** `empty("0")` is true, so "0" is refused as a missing credential although it is all digits. */
  lemma ZeroCredentialMissing(api: string, options: Arg)
    ensures ValidUid("0")
    ensures ArgumentError(api, "0", options) == Some(MissingCredentials)
  {
    assert "0"[0] == '0';
  }

  /** A key with a hyphen is refused, as `validateApi` runs before the options are looked at. */
  lemma HyphenatedKeyFails(api: string, uID: string, options: Arg)
    requires '-' in api && !EmptyText(uID)
    ensures ArgumentError(api, uID, options) == Some(InvalidApiKey)
  {
    HyphenInKeyRejected(api);
  }
}
