/**
 * The parsed shelf document and the book records `populateShelf` builds from it, one per
 * review entry.
 */
module Records {
  import opened Wrappers
  import opened Php

  /** The text of a child element; None when the element is absent. */
  type Field = Option<string>

  /** `(string)` of a SimpleXML child: its text, "" when it is absent. */
  function Text(f: Field): string {
    f.GetOr("")
  }

  /** `empty()` of a SimpleXML child: absent, or its text is "" or "0". */
  predicate IsEmpty(f: Field) {
    EmptyText(Text(f))
  }

  /** `is_object()` of a SimpleXML child access: an element object, whether present or not. */
  predicate IsObject(f: Field) {
    true
  }

  datatype AuthorNode = AuthorNode(name: Field, imageUrl: Field, smallImageUrl: Field, link: Field)

  datatype BookNode = BookNode(
    title: Field, link: Field, authors: seq<AuthorNode>, description: Field, format: Field,
    numPages: Field, isbn: Field, isbn13: Field, imageUrl: Field, smallImageUrl: Field)

  /**
   * A `<review>`: its id, its `<shelves>` element (None when absent) given by the name attributes
   * of the `<shelf>` elements in it, and its book.
   */
  datatype ReviewNode = ReviewNode(id: Field, shelves: Option<seq<Field>>, book: BookNode)

  /** A shelf document `getXML` accepts: the children of `<reviews>`, in document order. */
  datatype Doc = Doc(reviews: seq<ReviewNode>)

  datatype Author = Author(name: string, image: string, imageSmall: string, link: string)

  /** The record built per review entry. */
  datatype Book = Book(
    shelf: string, title: string, link: string, author: Author, description: string,
    format: string, pages: string, isbn: string, id: string, cover: string, coverSmall: string)

  /** The first `<author>`, or an absent one. */
  function FirstAuthor(authors: seq<AuthorNode>): AuthorNode {
    if |authors| > 0 then authors[0] else AuthorNode(None, None, None, None)
  }

  function FirstShelfName(names: seq<Field>): Field {
    if |names| > 0 then names[0] else None
  }

  const GbooksPrefix := "http://books.google.com/books?vid=ISBN"
  const GbooksSuffix := "&printsec=frontcover&img=1&zoom="

  /** `sprintf($gbooksUrl, $isbn, $zoom)`. */
  function GbooksUrl(isbn: string, zoom: string): string {
    GbooksPrefix + isbn + GbooksSuffix + zoom
  }

  /** `strpos($imageUrl, 'nocover')` is truthy: the marker occurs, first at an index above 0. */
  predicate NoCoverMarked(imageUrl: string) {
    match StrPos(imageUrl, "nocover")
    case Some(i) => i > 0
    case None => false
  }

  /** One pass of the `foreach` body of `populateShelf`. */
  function NormalizeReview(r: ReviewNode, useGbooks: bool): Book {
    var b := r.book;
    var a := FirstAuthor(b.authors);
    var isbn := if IsObject(b.isbn) then Text(b.isbn13) else Text(b.isbn);
    var substitute := NoCoverMarked(Text(b.imageUrl)) && useGbooks;
    Book(
      shelf := Text(FirstShelfName(r.shelves.GetOr([]))),
      title := Text(b.title),
      link := Text(b.link),
      author := Author(Text(a.name), Text(a.imageUrl), Text(a.smallImageUrl), Text(a.link)),
      description := if IsEmpty(b.description) then "Unknown" else StripTags(Text(b.description)),
      format := if IsEmpty(b.format) then "Unknown" else Text(b.format),
      pages := if IsEmpty(b.numPages) then "Unknown" else Text(b.numPages),
      isbn := isbn,
      id := Text(r.id),
      cover := if substitute then GbooksUrl(isbn, "1") else Text(b.imageUrl),
      coverSmall := if substitute then GbooksUrl(isbn, "5") else Text(b.smallImageUrl))
  }

  /** The whole shelf: one record per review entry, in document order. */
  function Normalize(reviews: seq<ReviewNode>, useGbooks: bool): (books: seq<Book>)
    ensures |books| == |reviews|
    ensures forall i :: 0 <= i < |reviews| ==> books[i] == NormalizeReview(reviews[i], useGbooks)
  {
    if reviews == [] then [] else [NormalizeReview(reviews[0], useGbooks)] + Normalize(reviews[1..], useGbooks)
  }

  /**
   * The index of the first entry without `<shelves>`, where `attributes()` is called on null and
   * the loop dies; the number of entries when every entry has one.
   */
  function FirstBroken(reviews: seq<ReviewNode>): (k: nat)
    ensures k <= |reviews|
    ensures forall i :: 0 <= i < k ==> reviews[i].shelves.Some?
    ensures k < |reviews| ==> reviews[k].shelves.None?
  {
    if reviews == [] then 0
    else if reviews[0].shelves.None? then 0
    else 1 + FirstBroken(reviews[1..])
  }

  /** Normalising a document in two parts gives the two shelves one after the other. */
  lemma NormalizeAppend(a: seq<ReviewNode>, b: seq<ReviewNode>, useGbooks: bool)
    ensures Normalize(a + b, useGbooks) == Normalize(a, useGbooks) + Normalize(b, useGbooks)
  {
    assert |Normalize(a + b, useGbooks)| == |Normalize(a, useGbooks) + Normalize(b, useGbooks)|;
    forall i | 0 <= i < |a + b|
      ensures Normalize(a + b, useGbooks)[i] == (Normalize(a, useGbooks) + Normalize(b, useGbooks))[i]
    {
      if i < |a| {
        assert (a + b)[i] == a[i];
      } else {
        assert (a + b)[i] == b[i - |a|];
      }
    }
  }

  /** Normalising one more review entry appends its record. */
  lemma NormalizeSnoc(reviews: seq<ReviewNode>, i: nat, useGbooks: bool)
    requires i < |reviews|
    ensures Normalize(reviews[..i + 1], useGbooks) ==
      Normalize(reviews[..i], useGbooks) + [NormalizeReview(reviews[i], useGbooks)]
  {
    assert reviews[..i + 1] == reviews[..i] + [reviews[i]];
    NormalizeAppend(reviews[..i], [reviews[i]], useGbooks);
  }

  /**
   * Description, format and page count read "Unknown" when their element is absent or empty;
   * otherwise format and pages are the raw text and the description is that text without
   * tags.
   */
  lemma FallbackFields(r: ReviewNode, useGbooks: bool)
    ensures var book := NormalizeReview(r, useGbooks);
      && (IsEmpty(r.book.description) ==> book.description == "Unknown")
      && (!IsEmpty(r.book.description) ==> book.description == StripTags(Text(r.book.description)))
      && (IsEmpty(r.book.format) ==> book.format == "Unknown")
      && (!IsEmpty(r.book.format) ==> book.format == Text(r.book.format))
      && (IsEmpty(r.book.numPages) ==> book.pages == "Unknown")
      && (!IsEmpty(r.book.numPages) ==> book.pages == Text(r.book.numPages))
  {
  }

  /** `empty()` counts a child holding just "0" as empty, so a page count of 0 reads "Unknown". */
  lemma ZeroPagesUnknown(r: ReviewNode, useGbooks: bool)
    requires Text(r.book.numPages) == "0"
    ensures NormalizeReview(r, useGbooks).pages == "Unknown"
  {
  }

  /** No description keeps a tag, and one without markup is kept verbatim. */
  lemma DescriptionIsPlainText(r: ReviewNode, useGbooks: bool)
    ensures TagFree(NormalizeReview(r, useGbooks).description)
    ensures !IsEmpty(r.book.description) && '<' !in Text(r.book.description) ==>
      NormalizeReview(r, useGbooks).description == Text(r.book.description)
  {
    var d := Text(r.book.description);
    StripTagsLeavesNoTag(d);
    if '<' !in d {
      StripTagsKeepsPlainText(d);
    }
  }

  /**
   * The `is_object` test on the `isbn` child is always true, so the record's ISBN is always the
   * text of `isbn13`, whatever `isbn` holds.
   */
  lemma IsbnComesFromIsbn13(r: ReviewNode, useGbooks: bool)
    ensures NormalizeReview(r, useGbooks).isbn == Text(r.book.isbn13)
  {
  }

  /**
   * Google Books covers, at zoom 1 and 5 and keyed by the record's ISBN, replace the entry's
   * images exactly when its image URL carries the marker past index 0 and `use_gbooks` is on;
   * otherwise both images are the entry's own.
   */
  lemma CoverChoice(r: ReviewNode, useGbooks: bool)
    ensures var book := NormalizeReview(r, useGbooks);
      if NoCoverMarked(Text(r.book.imageUrl)) && useGbooks then
        book.cover == GbooksUrl(book.isbn, "1") && book.coverSmall == GbooksUrl(book.isbn, "5")
      else
        book.cover == Text(r.book.imageUrl) && book.coverSmall == Text(r.book.smallImageUrl)
  {
  }

  /** A substituted cover carries the record's ISBN in the template's `vid=ISBN` slot. */
  lemma GbooksUrlCarriesIsbn(isbn: string, zoom: string)
    ensures var u := GbooksUrl(isbn, zoom);
      |u| >= |GbooksPrefix| + |isbn| &&
      u[..|GbooksPrefix|] == GbooksPrefix &&
      u[|GbooksPrefix|..|GbooksPrefix| + |isbn|] == isbn &&
      u[|u| - |zoom|..] == zoom
  {
    var u := GbooksUrl(isbn, zoom);
    assert u == GbooksPrefix + (isbn + (GbooksSuffix + zoom));
  }

  /** The marker is truthy exactly when it occurs and does not first occur at index 0. */
  lemma NoCoverMarkedMeans(imageUrl: string)
    ensures NoCoverMarked(imageUrl) <==>
      !OccursAt(imageUrl, "nocover", 0) && exists i :: 0 < i && OccursAt(imageUrl, "nocover", i)
  {
    var p := StrPos(imageUrl, "nocover");
    if p.Some? && p.value > 0 {
      assert OccursAt(imageUrl, "nocover", p.value);
    }
  }

  /** An image URL that starts with the marker is taken as a real cover (`strpos` returns 0). */
  lemma MarkerAtStartKeepsCover(r: ReviewNode, useGbooks: bool)
    requires OccursAt(Text(r.book.imageUrl), "nocover", 0)
    ensures NormalizeReview(r, useGbooks).cover == Text(r.book.imageUrl)
  {
    NoCoverMarkedMeans(Text(r.book.imageUrl));
  }

  /** With Google covers off every record keeps the entry's own image URLs. */
  lemma WithoutGbooksCoversVerbatim(reviews: seq<ReviewNode>)
    ensures forall i :: 0 <= i < |reviews| ==>
      Normalize(reviews, false)[i].cover == Text(reviews[i].book.imageUrl) &&
      Normalize(reviews, false)[i].coverSmall == Text(reviews[i].book.smallImageUrl)
  {
  }
}
