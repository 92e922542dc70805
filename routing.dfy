/**
 * Where a URL typed into the dialog is sent: the input is trimmed and
 * lower-cased, `arxiv.org` URLs go to the arXiv API and all others to
 * Semantic Scholar, which accepts only arXiv and ACL Anthology papers.
 */
module Routing {
  import opened Wrappers
  import opened JsString
  import opened Naming

  const ARXIV_API: string := "https://export.arxiv.org/api/query?id_list="
  const SEMANTIC_SCHOLAR_API: string := "https://api." + "semanticscholar" + ".org/graph/" + "v1/paper/"
  const SEMANTIC_SCHOLAR_FIELDS: string :=
    "fields=authors,title," + "abstract,url,venue," + "year,publicationDate," + "externalIds"
  const ARXIV_PREFIX: string := "arXiv:"
  const ACL_PREFIX: string := "ACL:"

  // ---------------------------------------------------------------------
  // Input normalisation

  /** `input.value.trim().toLowerCase()`. */
  function NormalizeInput(raw: string): string {
    ToLowerCase(Trim(raw))
  }

  lemma LowerCharKeepsWhitespace(c: char)
    ensures IsWhitespace(LowerChar(c)) <==> IsWhitespace(c)
    ensures !IsUpperAscii(LowerChar(c))
    ensures LowerChar(LowerChar(c)) == LowerChar(c)
  {
  }

  /**
   * A normalised URL has no white space at either end and no upper-case
   * ASCII letter, and normalising it again changes nothing.
   */
  lemma NormalizeInputSpec(raw: string)
    ensures var u := NormalizeInput(raw);
      && (u == [] || (!IsWhitespace(u[0]) && !IsWhitespace(u[|u| - 1])))
      && (forall i :: 0 <= i < |u| ==> !IsUpperAscii(u[i]))
      && NormalizeInput(u) == u
  {
    var t := Trim(raw);
    TrimEnds(raw);
    var u := ToLowerCase(t);
    ToLowerCaseSpec(t);
    if u != [] {
      LowerCharKeepsWhitespace(t[0]);
      LowerCharKeepsWhitespace(t[|t| - 1]);
    }
    forall i | 0 <= i < |u| ensures !IsUpperAscii(u[i]) {
      LowerCharKeepsWhitespace(t[i]);
    }
    TrimOfTrimmed(u);
    var v := ToLowerCase(u);
    ToLowerCaseSpec(u);
    forall i | 0 <= i < |u| ensures v[i] == u[i] {
      LowerCharKeepsWhitespace(t[i]);
    }
  }

  // ---------------------------------------------------------------------
  // Routing

  datatype Source = ArxivApi | SemanticScholarApi

  /** The keydown handler's choice between the two extractors. */
  function RouteFor(url: string): (source: Source)
    ensures source == ArxivApi <==> Includes(url, "arxiv.org")
  {
    if Includes(url, "arxiv.org") then ArxivApi else SemanticScholarApi
  }

  /** The raw input spells `t` at `i` once its ASCII letters are lower-cased. */
  predicate LowerOccursAt(raw: string, t: string, i: int) {
    0 <= i && i + |t| <= |raw| && forall k :: 0 <= k < |t| ==> LowerChar(raw[i + k]) == t[k]
  }

  /**
   * A pattern without white space occurs in the normalised input exactly
   * when it occurs, ignoring the case of ASCII letters, in the raw input:
   * trimming cannot cut an occurrence.
   */
  lemma NormalizedIncludes(raw: string, t: string)
    requires t != [] && forall k :: 0 <= k < |t| ==> !IsWhitespace(t[k])
    ensures Includes(NormalizeInput(raw), t) <==> exists i :: LowerOccursAt(raw, t, i)
  {
    var lo, hi := TrimBounds(raw);
    var u := NormalizeInput(raw);
    ToLowerCaseSpec(Trim(raw));
    IncludesIff(u, t);
    if j :| OccursAt(u, t, j) {
      forall k | 0 <= k < |t| ensures LowerChar(raw[lo + j + k]) == t[k] {
        assert u[j + k] == t[k];
      }
      assert LowerOccursAt(raw, t, lo + j);
    }
    if i :| LowerOccursAt(raw, t, i) {
      assert LowerChar(raw[i]) == t[0] && LowerChar(raw[i + |t| - 1]) == t[|t| - 1];
      LowerCharKeepsWhitespace(raw[i]);
      LowerCharKeepsWhitespace(raw[i + |t| - 1]);
      assert lo <= i && i + |t| <= hi;
      forall k | 0 <= k < |t| ensures u[i - lo + k] == t[k] {
        assert LowerChar(raw[i + k]) == t[k];
      }
      assert u[i - lo..i - lo + |t|] == t;
      assert OccursAt(u, t, i - lo);
    }
  }

  /**
   * An input goes to the arXiv API exactly when it spells `arxiv.org` in
   * any letter case; every other input goes to Semantic Scholar.
   */
  lemma RouteForInput(raw: string)
    ensures RouteFor(NormalizeInput(raw)) == ArxivApi <==> exists i :: LowerOccursAt(raw, "arxiv.org", i)
    ensures RouteFor(NormalizeInput(raw)) == SemanticScholarApi <==> !exists i :: LowerOccursAt(raw, "arxiv.org", i)
  {
    NormalizedIncludes(raw, "arxiv.org");
  }

  // ---------------------------------------------------------------------
  // Semantic Scholar request

  /**
   * The id prefix for a Semantic Scholar lookup: `arXiv:` for a URL that
   * mentions `arxiv`, else `ACL:` for one that mentions `aclanthology`;
   * any other URL is not supported.
   */
  function SemanticScholarPrefix(url: string): Option<string> {
    if Includes(url, "arxiv") then Some(ARXIV_PREFIX)
    else if Includes(url, "aclanthology") then Some(ACL_PREFIX)
    else None
  }

  /** The request `extractFromSemanticScholar` sends, or `None` for an unsupported URL. */
  function SemanticScholarRequest(url: string): Option<string> {
    match SemanticScholarPrefix(url)
    case None => None
    case Some(prefix) =>
      Some(SEMANTIC_SCHOLAR_API + prefix + GetIdentifierFromUrl(url) + "?" + SEMANTIC_SCHOLAR_FIELDS)
  }

  /** Every character of the identifier comes from the URL. */
  lemma IdentifierChars(url: string)
    ensures forall c :: c in GetIdentifierFromUrl(url) ==> c in url
  {
    IdentifierIsLastSegment(url);
    var t := DropTrailingSlash(url);
    var id := GetIdentifierFromUrl(url);
    forall c | c in id ensures c in url {
      var i :| 0 <= i < |id| && id[i] == c;
      assert id[i] == t[|t| - |id| + i];
      assert t[|t| - |id| + i] == url[|t| - |id| + i];
    }
  }

  /** A request whose pieces hold no `?` splits at its one `?`. */
  lemma SplitRequest(address: string, query: string)
    requires '?' !in address && '?' !in query
    ensures Split(address + "?" + query, '?') == [address, query]
  {
    SplitAfterSeparatorFree(address, query, '?');
    SplitWithoutSeparator(query, '?');
  }

  /** The pieces of a Semantic Scholar request hold no `?` when the URL holds none. */
  lemma RequestPiecesWithoutQuery(url: string, prefix: string)
    requires '?' !in url && (prefix == ARXIV_PREFIX || prefix == ACL_PREFIX)
    ensures '?' !in SEMANTIC_SCHOLAR_API + prefix + GetIdentifierFromUrl(url)
    ensures '?' !in SEMANTIC_SCHOLAR_FIELDS
  {
    IdentifierChars(url);
    var id := GetIdentifierFromUrl(url);
    assert '?' !in id;
    assert '?' !in prefix;
    ApiHasNoQuery();
    FieldsHaveNoQuery();
    assert SEMANTIC_SCHOLAR_API + prefix + id == SEMANTIC_SCHOLAR_API + (prefix + id);
  }

  lemma ApiHasNoQuery()
    ensures '?' !in SEMANTIC_SCHOLAR_API
  {
  }

  lemma FieldsHaveNoQuery()
    ensures '?' !in SEMANTIC_SCHOLAR_FIELDS
  {
  }

  /**
   * A URL is supported exactly when it mentions `arxiv` or `aclanthology`,
   * with `arxiv` winning when it mentions both; a bare Semantic Scholar id
   * or page is not supported. The request is the API address, the prefix
   * and the identifier, then
   * `?` and the field list: for a URL without `?`, splitting the request at
   * `?` gives back exactly those two parts.
   */
  lemma SemanticScholarRequestSpec(url: string)
    ensures SemanticScholarRequest(url).Some? <==> Includes(url, "arxiv") || Includes(url, "aclanthology")
    ensures Includes(url, "arxiv") ==> SemanticScholarPrefix(url) == Some(ARXIV_PREFIX)
    ensures !Includes(url, "arxiv") && Includes(url, "aclanthology") ==> SemanticScholarPrefix(url) == Some(ACL_PREFIX)
    ensures SemanticScholarRequest(url).Some? && '?' !in url ==>
      Split(SemanticScholarRequest(url).value, '?') ==
        [SEMANTIC_SCHOLAR_API + SemanticScholarPrefix(url).value + GetIdentifierFromUrl(url), SEMANTIC_SCHOLAR_FIELDS]
  {
    if SemanticScholarPrefix(url).Some? && '?' !in url {
      var prefix := SemanticScholarPrefix(url).value;
      RequestPiecesWithoutQuery(url, prefix);
      SplitRequest(SEMANTIC_SCHOLAR_API + prefix + GetIdentifierFromUrl(url), SEMANTIC_SCHOLAR_FIELDS);
    }
  }

  /** An ACL Anthology URL without an `x` is looked up under its `ACL:` identifier. */
  lemma AclAnthologyRequest(id: string)
    requires '/' !in id && 'x' !in id
    ensures SemanticScholarRequest("https://aclanthology.org/" + id + "/")
            == Some(SEMANTIC_SCHOLAR_API + "ACL:" + id + "?" + SEMANTIC_SCHOLAR_FIELDS)
  {
    AclAnthologyIdentifier(id);
    AclAnthologyPrefix(id);
  }

  lemma AclAnthologyIdentifier(id: string)
    requires '/' !in id
    ensures GetIdentifierFromUrl("https://aclanthology.org/" + id + "/") == id
  {
    var url := "https://aclanthology.org/" + id + "/";
    var host := "https://aclanthology.org";
    assert DropTrailingSlash(url) == host + ['/'] + id;
    SplitConcat(host, id, '/');
    SplitWithoutSeparator(id, '/');
  }

  lemma AclAnthologyPrefix(id: string)
    requires 'x' !in id
    ensures SemanticScholarPrefix("https://aclanthology.org/" + id + "/") == Some(ACL_PREFIX)
  {
    var url := "https://aclanthology.org/" + id + "/";
    assert 'x' !in "https://aclanthology.org/";
    assert 'x' !in url;
    MissingCharNotIncluded(url, "arxiv", 'x');
    assert url[8..20] == "aclanthology";
    assert OccursAt(url, "aclanthology", 8);
  }

  // ---------------------------------------------------------------------
  // arXiv requests

  /** The metadata query `extractFromArxiv` sends. */
  function ArxivQueryUrl(url: string): string {
    ARXIV_API + GetIdentifierFromUrl(url)
  }

  /** `url.replace("/abs/", "/html/") + "v1"`: the first version's HTML page. */
  function ArxivHtmlUrl(url: string): string {
    ReplaceFirst(url, "/abs/", "/html/") + "v1"
  }

  /**
   * Only the first `/abs/` is replaced by `/html/`; a URL without `/abs/`
   * only gets `v1` appended.
   */
  lemma ArxivHtmlUrlSpec(url: string)
    ensures !Includes(url, "/abs/") ==> ArxivHtmlUrl(url) == url + "v1"
    ensures Includes(url, "/abs/") ==>
      exists i ::
        && OccursAt(url, "/abs/", i)
        && (forall j :: 0 <= j < i ==> !OccursAt(url, "/abs/", j))
        && ArxivHtmlUrl(url) == url[..i] + "/html/" + url[i + 5..] + "v1"
  {
    if Includes(url, "/abs/") {
      var i := IndexOf(url, "/abs/").value;
      assert OccursAt(url, "/abs/", i);
    }
  }

  /** The abstract page of a paper is mapped to the HTML page of its first version. */
  lemma ArxivAbsToHtml(id: string)
    ensures ArxivHtmlUrl("https://arxiv.org/abs/" + id) == "https://arxiv.org/html/" + id + "v1"
  {
    var url := "https://arxiv.org/abs/" + id;
    var host := "https://arxiv.org";
    assert url == host + "/abs/" + id;
    assert OccursAt(url, "/abs/", 17);
    assert 'b' !in url[..19] by {
      assert url[..19] == "https://arxiv.org/a";
    }
    forall j | 0 <= j < 17 ensures !OccursAt(url, "/abs/", j) {
      assert url[j + 2] == url[..19][j + 2];
      assert url[j + 2] != 'b';
      assert j + 5 <= |url| ==> url[j..j + 5][2] == url[j + 2];
    }
    var i := IndexOf(url, "/abs/").value;
    assert i == 17;
    assert url[..17] == host;
    assert url[22..] == id;
  }
}
