# GoodReadsShelf: a Dafny model of the `goodReads` client class

The `goodReads` PHP class turns a Goodreads user's shelf into a list of book records. This
project models that class and proves properties of the model:

- the constructor's argument checks and its merge of the caller's options over a fixed table of
  defaults;
- `__set`;
- the choice between the cache file and a fresh download;
- the request URL built from the first five options;
- the loop that turns each review entry of the document into a book record;
- the memoised `getShelf`.

The model is organised in these modules:

- `Php` holds the PHP behaviour the class relies on: truthiness, `empty()` on strings,
  conversions to string and number, `strpos` and a simplified `strip_tags`.
- `PhpArrays` holds ordered string-keyed arrays: reading a key, `array_merge`, `array_slice` and
  the entries `http_build_query` keeps.
- `Validation` holds the two anchored regular expressions `validateUid` and `validateApi`.
- `Config` holds:
  - the default option table;
  - the constructor's checks, as `ArgumentError`;
  - the options the rest of the class reads;
  - the request URL, as the contents of the template's three slots.
- `Records` holds the document as datatypes with optional text fields, the book record, and the
  per-entry normalisation.
- `Cache` holds:
  - a `FileSystem` class (a map from path to content and modification time, plus the paths a
    write fails on);
  - the cache decision;
  - `Resolve`, the specification of how the document is obtained.
- `Client` holds the class itself, `GoodReads`. Its fields are `api`, `uID`, `options`,
  `baseUrl` and `shelf`.
  - The PHP constructor is `GoodReads.Create`: it makes the checks and the merge, then calls
    the Dafny constructor, which stores the fields and performs the forced refresh.
  - `PopulateShelf` first obtains the document through `ResolveDocument`. It then appends the
    records with a `while` loop, whose invariant ties the shelf to the specification function
    `Normalize`.

The network is a parameter `web`: a map from request URL to the response, which is either a
document `getXML` accepts or one it throws on. The clock is a parameter `now`, in seconds. An exception is
a `Failure` carrying an `Error` that names its message.

Where the code differs from its own comments or from what it evidently aims at, the model
follows the code:

- The ISBN always comes from `isbn13`: `is_object` on a SimpleXML child access is true even when
  the child is absent, as long as `<book>` is present. `Records.IsbnComesFromIsbn13` states this.
  Every entry is modelled with its `<book>`. Without one, `$review->book->isbn` is null, and the
  ISBN would be read from `isbn`. That also gives "", the same text an absent `isbn13` gives.
- An entry without a `<shelves>` element makes `attributes()` run on null at goodReads.php:205.
  That raises a fatal `Error`, which the `catch (\Exception $e)` of gr.php does not catch. The
  records appended before that entry stay in `$shelf`. The model returns the error
  `MissingShelves` and keeps those records (`Client.ShelfAfter`).
- The default cache file is `goodReads.xml`, as in the table at goodReads.php:53. The comment at
  line 42 says `goodreads.xml`.
- A user id or API key of `"0"` is refused as missing, because `empty("0")` is true.
- PCRE's `$` without the D modifier also matches before a final newline, so `"42\n"` passes
  `validateUid`.
- `getShelf` memoises only a non-null shelf. A document without review entries leaves `$shelf`
  null, and the next call resolves the document again.
- `generateURL` overwrites `baseUrl` with the filled URL. A second call returns that URL
  unchanged, even if the options or credentials changed in between. `BaseUrl` models this as
  `Template | Filled(url)`.

## Model

| member | source | states |
|---|---|---|
| Php.Truthy | goodReads.php:175 | the truth value `if ($this->options['cache'])` gives an option: null, false, 0, "" and "0" are false |
| Php.EmptyText | goodReads.php:84 | `empty()` of a string: true for "" and for "0" |
| Php.ToText | goodReads.php:177 | the string a value converts to when used as a path or a URL slot: null and false give "", true "1", an integer its decimal digits |
| Php.ToNumber | goodReads.php:179 | the integer `cache_hours` stands for in `cache_hours * 60 * 60`: a string reads as its leading integer after whitespace and an optional sign, 0 without digits |
| Php.NatToTextReadsBack | goodReads.php:179 | the decimal digits of a natural number read back as that number |
| Php.IntTextRoundTrip | goodReads.php:179 | an integer converted to a string and back is the same integer |
| Php.LeadingIntegerExamples | goodReads.php:179 | `" 12"` reads as 12, `"-3"` as -3, `"12abc"` as 12 and `"abc"` as 0 |
| Php.StrPos | goodReads.php:220 | `strpos` returns the first index at which the needle occurs, or nothing when it occurs nowhere |
| Php.StripTags | goodReads.php:213 | the simplified `strip_tags`: every tag, from a `<` not followed by whitespace to the next `>`, is dropped and all other text kept in order |
| Php.StripTagsLeavesNoTag | goodReads.php:213 | after tag stripping no `<` opens a tag |
| Php.StripTagsKeepsPlainText | goodReads.php:213 | text without `<` passes tag stripping unchanged |
| PhpArrays.Get | goodReads.php:175-179 | `$this->options[$k]`: the value of the first entry with key `k`, and null when there is none |
| PhpArrays.Slice | goodReads.php:244 | `array_slice($options, 0, 5)`: the first five entries, or all of them when there are fewer |
| PhpArrays.QueryEntries | goodReads.php:244 | the entries `http_build_query` encodes: those whose value is not null, in order |
| PhpArrays.Merge | goodReads.php:98 | `array_merge` for string keys: the first array's entries in order, each with the second array's value when it has the key, then the second array's new keys in order |
| PhpArrays.MergeGet | goodReads.php:98 | after `array_merge` every key reads as the second array's value when the second array has that key, and as the first array's value otherwise |
| PhpArrays.MergeKeepsKeyOrder | goodReads.php:98 | `array_merge` keeps the first array's keys first and in their order; the keys of the result are exactly the keys of either array |
| PhpArrays.QueryEntriesMembers | goodReads.php:244 | `http_build_query` encodes exactly the entries whose value is not null |
| Validation.MatchesWhole | goodReads.php:131 | the anchored `^[class]+$` without the D modifier: one or more characters of the class, optionally followed by one final newline |
| Validation.ValidUid | goodReads.php:129-132 | `validateUid`: the anchored digit pattern |
| Validation.ValidApi | goodReads.php:139-142 | `validateApi`: the anchored letter-and-digit pattern |
| Validation.ForeignCharRejected | goodReads.php:129-142 | a character outside the class anywhere except as a final newline makes the anchored match fail |
| Validation.HyphenInKeyRejected | goodReads.php:139-142 | an API key containing `-` is invalid |
| Validation.NonDigitUidRejected | goodReads.php:129-132 | a user id containing a non-digit (other than a final newline) is invalid |
| Validation.DigitsAccepted | goodReads.php:129-132 | every non-empty string of digits is a valid user id |
| Validation.TrailingNewlineAccepted | goodReads.php:129-142 | one final newline is accepted after a valid id or key; two newlines, or a lone newline, are not |
| Validation.InnerNewlineRejected | goodReads.php:129-132 | a newline before the last character makes a user id invalid: `"4\n2"` is refused |
| Config.Defaults | goodReads.php:45-53 | the declared option table: shelf=read, sort=null, order=d, page=null, per_page=20, use_gbooks=true, cache=true, cache_hours=12, cache_file=goodReads.xml |
| Config.DefaultsInOrder | goodReads.php:45-53 | the default table lists shelf, sort, order, page, per_page, use_gbooks, cache, cache_hours, cache_file, in that order |
| Config.DefaultSettings | goodReads.php:45-53 | by default caching is on for 12 hours in `goodReads.xml`, and Google Books covers are on |
| Config.CacheEnabled | goodReads.php:175 | `if ($this->options['cache'])`: the truth value of the cache option |
| Config.UseGbooks | goodReads.php:220 | `$this->options['use_gbooks'] === TRUE`: only the boolean true counts |
| Config.CacheHours | goodReads.php:179 | the number `cache_hours` stands for in the expiry computation |
| Config.CachePath | goodReads.php:177 | the cache file path: the text of the `cache_file` option, also used by the unlink at line 101 and the write at line 151 |
| Config.ArgumentError | goodReads.php:84-94 | each of the four exceptions is thrown exactly when its own check fails and all earlier checks pass; no exception is thrown exactly when all checks pass |
| Config.ZeroCredentialMissing | goodReads.php:84-85 | a user id of "0" matches the digit pattern, yet is refused as missing |
| Config.HyphenatedKeyFails | goodReads.php:84-88 | a non-empty key with a hyphen is refused as an invalid API key, whatever the options |
| Config.ConfiguredOptions | goodReads.php:98 | after construction each option reads as the caller's value when the caller gave that key, and as the default otherwise; the default keys stay first, in order |
| Config.MergeKeepsWellShaped | goodReads.php:120 | merging further options through the setter keeps the default keys first, in order |
| Config.FillUrl | goodReads.php:244-245 | what `generateURL` returns: the template filled with the user id, the key and the non-null entries of the first five options, or the URL an earlier call stored |
| Config.QueryCarriesRequestOptions | goodReads.php:244 | the slice holds exactly shelf, sort, order, page and per_page; every query entry is one of them with its current non-null value; every non-null one of them is in the query |
| Config.DefaultQuery | goodReads.php:244-245 | with the defaults the query string is shelf=read, order=d, per_page=20 |
| Config.FilledUrlIsStale | goodReads.php:245 | once `baseUrl` is overwritten, `generateURL` returns the stored URL, whatever the credentials and options |
| Records.Text | goodReads.php:205-217 | `(string)` of a child element: its text, and "" when it is absent |
| Records.FirstShelfName | goodReads.php:205 | `$review->shelves->shelf`: the name of the first `<shelf>`, absent when there is none |
| Records.FirstAuthor | goodReads.php:209-212 | `$review->book->authors->author`: the first `<author>`, with absent fields when there is none |
| Records.IsEmpty | goodReads.php:213-215 | `empty()` of a child element: absent, or its text is "" or "0" |
| Records.IsObject | goodReads.php:216 | `is_object()` of a child access: always true, present or not |
| Records.NoCoverMarked | goodReads.php:220 | the truth value of `strpos($image_url, 'nocover')`: the marker is found, first at an index above 0 |
| Records.NormalizeReview | goodReads.php:204-229 | the body of the `foreach`: every field of the record from its entry, with the "Unknown" fallbacks, the tag-stripped description, the ISBN from `isbn13` and the cover choice |
| Records.FirstBroken | goodReads.php:205 | the index of the first entry without `<shelves>`, where the loop dies: every entry before it has `<shelves>`; the number of entries when all have it |
| Records.Normalize | goodReads.php:202-232 | one record per review entry, in document order, each built from its own entry |
| Records.NormalizeAppend | goodReads.php:202-231 | normalising a document in two parts yields the two shelves one after the other |
| Records.NormalizeSnoc | goodReads.php:231 | one more review entry appends exactly its own record |
| Records.FallbackFields | goodReads.php:213-215 | description, format and pages are "Unknown" when empty; otherwise the tag-stripped description and the raw format and page count |
| Records.ZeroPagesUnknown | goodReads.php:215 | a page count whose text is "0" reads "Unknown" |
| Records.DescriptionIsPlainText | goodReads.php:213 | a record's description never holds a tag, and a description without markup is kept verbatim |
| Records.IsbnComesFromIsbn13 | goodReads.php:216 | the record's ISBN is the text of `isbn13`, whatever `isbn` holds |
| Records.CoverChoice | goodReads.php:220-228 | the Google Books URLs at zoom 1 and 5 replace the covers exactly when the marker is found past index 0 and `use_gbooks` is true; otherwise both image URLs are copied |
| Records.GbooksUrlCarriesIsbn | goodReads.php:65 | a substituted cover URL is the Google Books template with the ISBN in its `vid=ISBN` slot and the zoom at the end |
| Records.GbooksUrl | goodReads.php:222-223 | `sprintf($gbooksUrl, $isbn, $zoom)`: the Google Books template of line 65 with the ISBN and the zoom in its two slots |
| Records.NoCoverMarkedMeans | goodReads.php:220 | the marker test is true exactly when the marker occurs somewhere past index 0 and not at index 0 |
| Records.MarkerAtStartKeepsCover | goodReads.php:220 | an image URL that starts with the marker keeps the entry's own cover |
| Records.WithoutGbooksCoversVerbatim | goodReads.php:225-228 | with `use_gbooks` off every record keeps its entry's image URLs |
| Cache.FileSystem.Unlink | goodReads.php:103 | the path is removed and every other file is kept |
| Cache.FileSystem.Write | goodReads.php:151 | the write succeeds exactly when the path is writable, and then stores the document with the current time |
| Cache.Parse | goodReads.php:160-166 | `getXML` yields the document it accepts, and throws "Could not parse XML" on any other content |
| Cache.Download | goodReads.php:162-163 | a URL with no response, or a malformed one, fails with "Could not parse XML" |
| Cache.Decide | goodReads.php:175-185 | the cache file is read exactly when caching is on, the file exists and its age is below `cache_hours` hours; with caching on otherwise the document is fetched and stored; with caching off it is only fetched |
| Cache.DecideFor | goodReads.php:175-182 | the branch taken for a client's options and files: the cache flag, whether the cache file exists, its mtime (0 when missing), the clock and `cache_hours` |
| Cache.Resolve | goodReads.php:174-197 | the base URL is filled whenever a fetch happens; files change only by writing the fetched document to the cache path; a failure leaves the files unchanged |
| Cache.FreshWhileYoungerThanTtl | goodReads.php:178-182 | an existing cache file is fresh exactly while its age is below the TTL; at an age equal to the TTL it has expired |
| Cache.HitReadsOnlyTheCacheFile | goodReads.php:182-185 | a hit parses the cache file and nothing else: the files and the base URL are unchanged, and the result is the same for any network |
| Cache.DisabledAlwaysFetches | goodReads.php:193-197 | with caching off the document is downloaded from the generated URL and no file is touched |
| Cache.MissFetchesAndStores | goodReads.php:186-191 | on a miss: a failed download writes nothing; an unwritable cache path throws "Could not write cache file" and writes nothing; otherwise the document is stored with the current time |
| Cache.StoredDocumentIsServedBack | goodReads.php:174-191 | a document stored on a miss is served back unchanged from the cache by every later resolution within the TTL, whatever the network then answers |
| Cache.MissingFileForcesFetch | goodReads.php:178-182 | with caching on and no cache file, the document is fetched and stored |
| Client.AppendBooks | goodReads.php:231 | `$this->shelf[] = $book` for each record in turn: a null shelf becomes the records, and stays null when there are none |
| Client.ShelfAfter | goodReads.php:202-232 | the shelf is unchanged when no document is obtained; otherwise, starting from a null shelf, it holds the records of the entries before the first entry without `<shelves>`, and stays null when there are none |
| Client.ShelfResult | goodReads.php:202-234 | a failed resolution throws its error; the result is a success exactly when every entry has `<shelves>`, and otherwise the fatal error `MissingShelves`; on success it is the new shelf, null exactly when the document has no review entries, and otherwise all their records |
| Client.AppendOne | goodReads.php:231 | appending one more record to the shelf extends it by exactly that record |
| Client.ArgText | goodReads.php:116 | what the setter stores for `api` or `uID`: the text the value prints as, "Array" for an array |
| Client.GoodReads.constructor | goodReads.php:96-104 | stores the credentials and options, with the template URL and a null shelf; on a forced refresh the cache file is deleted, and otherwise no file changes |
| Client.GoodReads.Create | goodReads.php:82-105 | on failed checks the matching exception, with no object and no file touched; otherwise a fresh client whose options are the caller's merged over the defaults, the cache file deleted only on a forced refresh |
| Client.GoodReads.Set | goodReads.php:112-122 | `api` and `uID` are replaced; an array given for `options` is merged into the options; any other key or value changes nothing |
| Client.GoodReads.GenerateUrl | goodReads.php:242-247 | the URL is the template filled with the user id, the key and the non-null request options, or the URL stored by an earlier call; it is stored in `baseUrl` |
| Client.GoodReads.GenerateCache | goodReads.php:149-153 | writes the document to the configured cache file, or reports the failed write and changes nothing |
| Client.GoodReads.ResolveDocument | goodReads.php:174-197 | the document, the files and the base URL are the ones `Resolve` specifies |
| Client.GoodReads.AppendRecords | goodReads.php:202-232 | the loop appends the records of the entries, in document order, up to the first entry without `<shelves>`; it completes exactly when there is no such entry |
| Client.GoodReads.PopulateShelf | goodReads.php:172-235 | the resolution is the one `Resolve` specifies; the result and the new shelf are `ShelfResult` and `ShelfAfter` of the document, so the records of the entries are appended in document order, and a failed resolution leaves the shelf unchanged |
| Client.GoodReads.GetShelf | goodReads.php:253-256 | a non-null shelf is returned with nothing resolved again and no state changed; a null one is populated as `PopulateShelf` specifies |
| Client.GetShelfTwice | goodReads.php:253-256 | once one call has produced books, a second call returns the same result |

## Left out

- Network access and XML parsing (`simplexml_load_file`, `asXML`) belong to a foreign library. The network is a map from URL to markup, and the markup is either a document `getXML` accepts (a datatype with optional text fields) or content it throws on. The serialisation `asXML` writes is not modelled: the cache file stores the parsed document itself.
- `time()` is a parameter. `file_exists`, `filemtime` and `unlink` act on the `FileSystem` map. Writing the cache file cannot fail except on the paths the map marks unwritable. A failing `unlink` is not modelled.
- The URL encoding that `http_build_query` applies, and the characters `sprintf` writes: a URL is modelled by the contents of its three slots.
- Records.GbooksUrl: `sprintf` is modelled as plain concatenation into the two slots, assuming the ISBN is inserted as text.
- Config.FillUrl: a `%` inside the stored `baseUrl` on a repeated `sprintf` in `generateURL` is not modelled: `Filled` URLs are returned as they are.
- Php.StripTags is a simplification of PHP's `strip_tags`: a `<` that is not followed by whitespace opens a tag, and the next `>` closes it. Quotes inside tags, comments, nested brackets and PHP's state machine are not modelled.
- Records.IsEmpty: `empty()` on a SimpleXML child is modelled as "absent, or its text is "" or "0"", so `<num_pages>0</num_pages>` reads "Unknown". An element that has child elements but no text is taken as empty, where SimpleXML takes it as non-empty.
- Client.GoodReads.Create: the credentials are strings. PHP's treatment of other types of credentials (integers, arrays, null) is not modelled. Options are arrays with string keys only: `array_merge` renumbers integer keys, and that is not modelled.
- Client.GoodReads.Set: a credential given as a non-string value is stored as the text it would print as (`ArgText`), since that is the only use the class makes of it. The PHP value itself is not kept.
- Php.ToNumber: a string `cache_hours` is read as its leading integer, in the PHP 7 manner: leading whitespace is skipped and a sign is honoured, and a string without leading digits reads as 0. A decimal point or an exponent ends the integer, so floating-point hours (`"1.5"` reads as 1) are not modelled, nor is PHP 8's `TypeError` on a non-numeric string. Integers are unbounded, so 64-bit overflow of `cache_hours * 3600` is not modelled.
- Records.NormalizeReview: `cover` and `cover_small` hold the text of `image_url` and `small_image_url`. In the source the `(string)` cast at goodReads.php:227-228 applies to the assignment, not the stored value, so these two fields hold the SimpleXML elements themselves. Both print as the same text.
- Only the first `<shelf>` and the first `<author>` of an entry are read, as in the source. Attributes other than the shelf name are not modelled.
- gr.php is not part of this model. It only renders the first eight records as HTML.
- Single-threaded by design: concurrent writers of the cache file are not modelled.
