/**
 * The paper's metadata as the plugin reads it from the two sources: the
 * Semantic Scholar JSON record (`parseMetadataFromSemanticScholar`) and the
 * arXiv Atom feed (the field selection in `extractFromArxiv`). Both arrive
 * already parsed: the JSON as a record of optional fields, the feed as the
 * sequence of its elements in document order.
 */
module Metadata {
  import opened Wrappers
  import opened JsString
  import opened Sequences

  // ---------------------------------------------------------------------
  // Semantic Scholar

  /** A JSON field that should hold a string: absent, `null`, or a string. */
  datatype JsonText = Absent | Null | Text(s: string) {
    /** JavaScript truthiness: only a non-empty string is truthy. */
    predicate Truthy() {
      Text? && s != ""
    }

    /** `field || fallback`. */
    function Or(fallback: string): (r: string)
      ensures Truthy() ==> r == s
      ensures !Truthy() ==> r == fallback
    {
      if Truthy() then s else fallback
    }

    /** The field as a template literal or `Array.join` writes it out. */
    function Interpolated(): string {
      match this
      case Absent => "undefined"
      case Null => "null"
      case Text(t) => t
    }
  }

  /** The `year` field: absent, `null`, or an integer. */
  datatype JsonYear = NoYear | NullYear | Year(n: int) {
    function Interpolated(): string {
      match this
      case NoYear => "undefined"
      case NullYear => "null"
      case Year(n) => IntToString(n)
    }
  }

  /**
   * The response of the paper endpoint. `error` says whether its `error`
   * field is truthy; `authors` is `None` when the field is absent or `null`
   * and otherwise lists each author's `name` field.
   */
  datatype SemanticScholarResponse = SemanticScholarResponse(
    error: bool,
    title: JsonText,
    abstractText: JsonText,
    authors: Option<seq<JsonText>>,
    venue: JsonText,
    year: JsonYear,
    publicationDate: JsonText,
    url: JsonText)

  /** The fields a note is made from. `url` is `None` when the response gave none. */
  datatype PaperMetadata = PaperMetadata(
    title: string,
    authorString: string,
    venue: string,
    publicationDate: string,
    abstractText: string,
    url: Option<string>)

  /** Why reading a response fails: its `error` field is set, or `authors.map` meets no array. */
  datatype ParseError = ApiError | AuthorsNotAList

  /** An author's name as `Array.join` writes it: `null` and `undefined` become empty. */
  function AuthorName(name: JsonText): string {
    match name
    case Text(t) => t
    case _ => ""
  }

  function AuthorNames(names: seq<JsonText>): (r: seq<string>)
    ensures |r| == |names|
    ensures forall i :: 0 <= i < |names| ==> r[i] == AuthorName(names[i])
  {
    if names == [] then [] else [AuthorName(names[0])] + AuthorNames(names[1..])
  }

  /** `` json.venue ? `${json.venue} ${json.year}` : "" ``. */
  function VenueString(venue: JsonText, year: JsonYear): string {
    if venue.Truthy() then venue.s + " " + year.Interpolated() else ""
  }

  /** `url` is `undefined` unless the response holds a string there. */
  function ResponseUrl(url: JsonText): Option<string> {
    if url.Text? then Some(url.s) else None
  }

  /** `parseMetadataFromSemanticScholar`. */
  function ParseSemanticScholar(json: SemanticScholarResponse): Result<PaperMetadata, ParseError> {
    if json.error then Failure(ApiError)
    else if json.authors.None? then Failure(AuthorsNotAList)
    else Success(PaperMetadata(
      json.title.Or("undefined"),
      Join(AuthorNames(json.authors.value), ", "),
      VenueString(json.venue, json.year),
      json.publicationDate.Or(""),
      json.abstractText.Or(""),
      ResponseUrl(json.url)))
  }

  /**
   * A response with its `error` field set is refused; otherwise a response
   * with an author list is read, with `"undefined"` for a missing or empty
   * title and `""` for a missing or empty abstract or date.
   */
  lemma ParseSemanticScholarOutcome(json: SemanticScholarResponse)
    ensures ParseSemanticScholar(json).Failure? <==> json.error || json.authors.None?
    ensures json.error ==> ParseSemanticScholar(json) == Failure(ApiError)
    ensures ParseSemanticScholar(json).Success? ==>
      var m := ParseSemanticScholar(json).value;
      && (json.title.Truthy() ==> m.title == json.title.s)
      && (!json.title.Truthy() ==> m.title == "undefined")
      && m.title != ""
      && (json.abstractText.Truthy() ==> m.abstractText == json.abstractText.s)
      && (!json.abstractText.Truthy() ==> m.abstractText == "")
      && (json.publicationDate.Truthy() ==> m.publicationDate == json.publicationDate.s)
      && (!json.publicationDate.Truthy() ==> m.publicationDate == "")
      && m.authorString == Join(AuthorNames(json.authors.value), ", ")
      && m.venue == VenueString(json.venue, json.year)
      && (json.url.Text? ==> m.url == Some(json.url.s))
      && (!json.url.Text? ==> m.url == None)
  {
  }

  /**
   * The authors are the names in the order given, joined by `", "`: name
   * `i` sits at its offset with `", "` after every name but the last.
   */
  lemma AuthorStringLayout(names: seq<JsonText>)
    ensures IsJoinOf(Join(AuthorNames(names), ", "), AuthorNames(names), ", ")
  {
    JoinLayout(AuthorNames(names), ", ");
  }

  /** No author gives `""`, one author the name alone, and every name appears. */
  lemma AuthorStringSpec(names: seq<JsonText>)
    ensures var r := Join(AuthorNames(names), ", ");
      && (names == [] ==> r == "")
      && (|names| == 1 ==> r == AuthorName(names[0]))
      && (forall i :: 0 <= i < |names| ==> Includes(r, AuthorName(names[i])))
  {
    var ns := AuthorNames(names);
    forall i | 0 <= i < |names| ensures Includes(Join(ns, ", "), AuthorName(names[i])) {
      JoinIncludesEach(ns, ", ", i);
    }
  }

  /**
   * The venue is empty exactly when the `venue` field is missing or empty;
   * otherwise it is that venue, a space and the year as JavaScript prints
   * it, so a missing year shows as `undefined`.
   */
  lemma VenueStringSpec(venue: JsonText, year: JsonYear)
    ensures VenueString(venue, year) == "" <==> !venue.Truthy()
    ensures venue.Truthy() ==>
      && StartsWith(VenueString(venue, year), venue.s + " ")
      && VenueString(venue, year)[|venue.s| + 1..] == year.Interpolated()
    ensures venue.Truthy() && year.NoYear? ==> VenueString(venue, year) == venue.s + " undefined"
    ensures forall v, n :: venue == Text(v) && v != "" && year == Year(n) && n >= 0 ==>
      VenueString(venue, year) == v + " " + NatToString(n)
  {
    if venue.Truthy() {
      var r := VenueString(venue, year);
      assert r == (venue.s + " ") + year.Interpolated();
      assert r[..|venue.s| + 1] == venue.s + " ";
    }
  }

  // ---------------------------------------------------------------------
  // arXiv

  /**
   * One element of the Atom feed: its tag name, its text content, and, for
   * an element with `name` children, their text contents in order.
   */
  datatype XmlElement = XmlElement(tag: string, text: string, names: seq<string>)

  /** `getElementsByTagName(tag)`: the elements with that tag, in document order. */
  function ElementsNamed(doc: seq<XmlElement>, tag: string): seq<XmlElement> {
    if doc == [] then []
    else (if doc[0].tag == tag then [doc[0]] else []) + ElementsNamed(doc[1..], tag)
  }

  /** Each element with the tag is kept as often as it occurs, and no other element. */
  lemma {:induction false} ElementsNamedCount(doc: seq<XmlElement>, tag: string)
    ensures forall e :: multiset(ElementsNamed(doc, tag))[e] == if e.tag == tag then multiset(doc)[e] else 0
  {
    if doc != [] {
      ElementsNamedCount(doc[1..], tag);
      var head := if doc[0].tag == tag then [doc[0]] else [];
      var rest := ElementsNamed(doc[1..], tag);
      assert ElementsNamed(doc, tag) == head + rest;
      assert doc == [doc[0]] + doc[1..];
      assert multiset(doc) == multiset([doc[0]]) + multiset(doc[1..]);
      assert multiset(head + rest) == multiset(head) + multiset(rest);
    }
  }

  /** The elements with a tag keep their document order. */
  lemma {:induction false} ElementsNamedOrder(doc: seq<XmlElement>, tag: string)
    ensures SubsequenceOf(ElementsNamed(doc, tag), doc)
    ensures |ElementsNamed(doc, tag)| <= |doc|
  {
    if doc != [] {
      ElementsNamedOrder(doc[1..], tag);
      var rest := ElementsNamed(doc[1..], tag);
      var r := ElementsNamed(doc, tag);
      if doc[0].tag == tag {
        assert r == [doc[0]] + rest;
        assert r[1..] == rest;
      } else {
        assert r == rest;
        assert rest == [] || SubsequenceOf(rest, doc[1..]);
      }
    }
  }

  /**
   * The elements with a tag are those of the document with that tag, each
   * as often as it occurs there, in document order.
   */
  lemma ElementsNamedSpec(doc: seq<XmlElement>, tag: string)
    ensures var r := ElementsNamed(doc, tag);
      && (forall e :: e in r ==> e in doc && e.tag == tag)
      && (forall e :: e in doc && e.tag == tag ==> e in r)
      && (forall e :: multiset(r)[e] == if e.tag == tag then multiset(doc)[e] else 0)
      && SubsequenceOf(r, doc)
      && |r| <= |doc|
  {
    var r := ElementsNamed(doc, tag);
    ElementsNamedCount(doc, tag);
    ElementsNamedOrder(doc, tag);
    forall e | e in r ensures e in doc && e.tag == tag {
      assert multiset(r)[e] > 0;
    }
    forall e | e in doc && e.tag == tag ensures e in r {
      assert multiset(doc)[e] > 0;
    }
  }

  /** Filtering by tag distributes over concatenation of documents. */
  lemma {:induction false} ElementsNamedAppend(a: seq<XmlElement>, b: seq<XmlElement>, tag: string)
    ensures ElementsNamed(a + b, tag) == ElementsNamed(a, tag) + ElementsNamed(b, tag)
  {
    if a == [] {
      assert a + b == b;
    } else {
      assert (a + b)[0] == a[0];
      assert (a + b)[1..] == a[1..] + b;
      ElementsNamedAppend(a[1..], b, tag);
    }
  }

  /** The second `title` (the first is the feed's own), or `"undefined"`. */
  function ArxivTitle(doc: seq<XmlElement>): string {
    var titles := ElementsNamed(doc, "title");
    if |titles| >= 2 && titles[1].text != "" then titles[1].text else "undefined"
  }

  /** The first `summary`, or `""`. */
  function ArxivAbstract(doc: seq<XmlElement>): string {
    var summaries := ElementsNamed(doc, "summary");
    if |summaries| >= 1 then summaries[0].text else ""
  }

  /** An author's first `name`, or `""`. */
  function AuthorElementName(author: XmlElement): string {
    if |author.names| >= 1 then author.names[0] else ""
  }

  function AuthorElementNames(authors: seq<XmlElement>): (r: seq<string>)
    ensures |r| == |authors|
    ensures forall i :: 0 <= i < |authors| ==> r[i] == AuthorElementName(authors[i])
  {
    if authors == [] then [] else [AuthorElementName(authors[0])] + AuthorElementNames(authors[1..])
  }

  /** Every `author`'s name in document order, joined by `", "`. */
  function ArxivAuthors(doc: seq<XmlElement>): string {
    Join(AuthorElementNames(ElementsNamed(doc, "author")), ", ")
  }

  /** The first `published`, cut at its first `T`, or `""`. */
  function ArxivPublicationDate(doc: seq<XmlElement>): string {
    var published := ElementsNamed(doc, "published");
    if |published| >= 1 then Split(published[0].text, 'T')[0] else ""
  }

  /** The fields of a note read from an arXiv feed; it has no venue and no URL of its own. */
  datatype ArxivMetadata = ArxivMetadata(title: string, authorString: string, publicationDate: string, abstractText: string)

  function ReadArxivFeed(doc: seq<XmlElement>): ArxivMetadata {
    ArxivMetadata(ArxivTitle(doc), ArxivAuthors(doc), ArxivPublicationDate(doc), ArxivAbstract(doc))
  }

  /**
   * The title is the text of the second `title` element when there is one
   * with text; the first `title`, which belongs to the feed, is never used.
   */
  lemma ArxivTitleSpec(doc: seq<XmlElement>)
    ensures var titles, r := ElementsNamed(doc, "title"), ArxivTitle(doc);
      && r != ""
      && (|titles| >= 2 && titles[1].text != "" ==> r == titles[1].text)
      && (|titles| < 2 ==> r == "undefined")
      && (r != "undefined" ==> |titles| >= 2 && r == titles[1].text)
  {
  }

  /** A feed made of its own title and one entry: the entry's title is taken. */
  lemma ArxivTitleOfEntry(feedTitle: XmlElement, entry: seq<XmlElement>, rest: seq<XmlElement>, t: string)
    requires feedTitle.tag == "title"
    requires forall e :: e in entry ==> e.tag != "title"
    requires t != ""
    ensures ArxivTitle([feedTitle] + entry + [XmlElement("title", t, [])] + rest) == t
  {
    var doc := [feedTitle] + entry + [XmlElement("title", t, [])] + rest;
    ElementsNamedAppend([feedTitle] + entry + [XmlElement("title", t, [])], rest, "title");
    ElementsNamedAppend([feedTitle] + entry, [XmlElement("title", t, [])], "title");
    ElementsNamedAppend([feedTitle], entry, "title");
    NoneNamed(entry, "title");
  }

  lemma {:induction false} NoneNamed(doc: seq<XmlElement>, tag: string)
    requires forall e :: e in doc ==> e.tag != tag
    ensures ElementsNamed(doc, tag) == []
  {
    if doc != [] {
      assert doc[0] in doc;
      assert forall e :: e in doc[1..] ==> e in doc;
      NoneNamed(doc[1..], tag);
    }
  }

  /**
   * The abstract is the text of the first `summary` element in document
   * order, and `""` when the feed has none.
   */
  lemma ArxivAbstractSpec(doc: seq<XmlElement>)
    ensures (forall e :: e in doc ==> e.tag != "summary") ==> ArxivAbstract(doc) == ""
    ensures forall i :: 0 <= i < |doc| && doc[i].tag == "summary"
                        && (forall j :: 0 <= j < i ==> doc[j].tag != "summary") ==>
      ArxivAbstract(doc) == doc[i].text
  {
    if forall e :: e in doc ==> e.tag != "summary" {
      NoneNamed(doc, "summary");
    }
    forall i | 0 <= i < |doc| && doc[i].tag == "summary" && (forall j :: 0 <= j < i ==> doc[j].tag != "summary")
      ensures ArxivAbstract(doc) == doc[i].text
    {
      var before, after := doc[..i], doc[i + 1..];
      assert doc == before + [doc[i]] + after;
      forall e | e in before ensures e.tag != "summary" {
        var j :| 0 <= j < |before| && before[j] == e;
        assert before[j] == doc[j];
      }
      NoneNamed(before, "summary");
      ElementsNamedAppend(before + [doc[i]], after, "summary");
      ElementsNamedAppend(before, [doc[i]], "summary");
      assert ElementsNamed([doc[i]], "summary") == [doc[i]];
    }
  }

  /**
   * The date is what precedes the first `T` of the first `published`
   * element: it holds no `T`, starts that text, and is all of it when the
   * text has no `T`.
   */
  lemma ArxivPublicationDateSpec(doc: seq<XmlElement>)
    ensures var published, r := ElementsNamed(doc, "published"), ArxivPublicationDate(doc);
      && 'T' !in r
      && (published == [] ==> r == "")
      && (published != [] ==>
            && StartsWith(published[0].text, r)
            && (|r| == |published[0].text| || published[0].text[|r|] == 'T')
            && ('T' !in published[0].text ==> r == published[0].text))
  {
    var published := ElementsNamed(doc, "published");
    if published != [] {
      SplitFirstPiece(published[0].text, 'T');
      if 'T' !in published[0].text {
        SplitWithoutSeparator(published[0].text, 'T');
      }
    }
  }

  /** `2017-06-12T17:57:34Z` is read as `2017-06-12`. */
  lemma ArxivPublicationDateExample()
    ensures ArxivPublicationDate([XmlElement("published", "2017-06-12T17:57:34Z", [])]) == "2017-06-12"
  {
    var text := "2017-06-12T17:57:34Z";
    var doc := [XmlElement("published", text, [])];
    assert ElementsNamed(doc, "published") == doc;
    assert text == "2017-06-12" + ['T'] + "17:57:34Z";
    SplitAfterSeparatorFree("2017-06-12", "17:57:34Z", 'T');
  }

  /**
   * The authors are named in document order, one entry per `author`
   * element, joined by `", "`, and an author without a `name` counts as an
   * empty name.
   */
  lemma ArxivAuthorsLayout(doc: seq<XmlElement>)
    ensures var authors := ElementsNamed(doc, "author");
      && IsJoinOf(ArxivAuthors(doc), AuthorElementNames(authors), ", ")
      && (forall i :: 0 <= i < |authors| ==>
            AuthorElementNames(authors)[i] == if authors[i].names == [] then "" else authors[i].names[0])
  {
    JoinLayout(AuthorElementNames(ElementsNamed(doc, "author")), ", ");
  }

  /** No author element gives `""`, and every author's first name appears. */
  lemma ArxivAuthorsSpec(doc: seq<XmlElement>)
    ensures var authors, r := ElementsNamed(doc, "author"), ArxivAuthors(doc);
      && (authors == [] ==> r == "")
      && (forall i :: 0 <= i < |authors| && authors[i].names != [] ==> Includes(r, authors[i].names[0]))
  {
    var authors := ElementsNamed(doc, "author");
    var names := AuthorElementNames(authors);
    forall i | 0 <= i < |authors| && authors[i].names != []
      ensures Includes(ArxivAuthors(doc), authors[i].names[0])
    {
      JoinIncludesEach(names, ", ", i);
    }
  }
}
