/**
 * How the plugin names a paper note: the identifier taken from the paper's
 * URL (`getIdentifierFromUrl`) and the configurable filename policy
 * (`extractFileNameFromUrl`), which either keeps that identifier or builds a
 * name from the title's terms.
 */
module Naming {
  import opened Wrappers
  import opened JsString
  import opened Sequences

  /** The naming policies offered in the settings dropdown. */
  const NAMING_TYPES: seq<string> := [
    "identifier",
    "first-3-title-terms",
    "first-3-title-terms-no-stopwords",
    "first-5-title-terms",
    "first-5-title-terms-no-stopwords",
    "all-title-terms"
  ]

  // ---------------------------------------------------------------------
  // getIdentifierFromUrl

  /** One trailing `/` is removed, if there is one. */
  function DropTrailingSlash(url: string): string {
    if EndsWith(url, "/") then url[..|url| - 1] else url
  }

  /** `getIdentifierFromUrl`: the last `/`-separated piece once one trailing `/` is gone. */
  function GetIdentifierFromUrl(url: string): (id: string)
    ensures '/' !in id
  {
    var parts := Split(DropTrailingSlash(url), '/');
    parts[|parts| - 1]
  }

  /**
   * The identifier is the longest `/`-free end of the URL without its
   * trailing `/`: it ends that string and is preceded by a `/` or by nothing.
   */
  lemma {:induction false} IdentifierIsLastSegment(url: string)
    ensures var t, id := DropTrailingSlash(url), GetIdentifierFromUrl(url);
      && '/' !in id
      && EndsWith(t, id)
      && (|id| == |t| || t[|t| - |id| - 1] == '/')
  {
    var t := DropTrailingSlash(url);
    var parts := Split(t, '/');
    JoinSplit(t, '/');
    var n := |parts|;
    if n > 1 {
      assert parts == parts[..n - 1] + [parts[n - 1]];
      JoinAppend(parts[..n - 1], [parts[n - 1]], "/");
    }
  }

  /** `".../1234/"` and `".../1234"` name the same paper. */
  lemma IdentifierIgnoresTrailingSlash(url: string)
    requires !EndsWith(url, "/")
    ensures GetIdentifierFromUrl(url + "/") == GetIdentifierFromUrl(url)
  {
    assert (url + "/")[..|url|] == url;
  }

  /** Only one trailing `/` is removed: a URL ending in `//` has an empty identifier. */
  lemma IdentifierAfterDoubleSlash(url: string)
    requires EndsWith(url, "//")
    ensures GetIdentifierFromUrl(url) == ""
  {
    var t := DropTrailingSlash(url);
    assert |t| >= 1 && t[|t| - 1] == '/';
    IdentifierIsLastSegment(url);
  }

  // ---------------------------------------------------------------------
  // extractFileNameFromUrl

  /** The `sliceEnd` chosen from the policy: 3, 5, or undefined (all terms). */
  function SliceEnd(fileNaming: string): Option<nat> {
    if Includes(fileNaming, "first-3-title-terms") then Some(3)
    else if Includes(fileNaming, "first-5-title-terms") then Some(5)
    else None
  }

  predicate DropsStopwords(fileNaming: string) {
    Includes(fileNaming, "no-stopwords")
  }

  /** The filter callback: a term stays unless it is a stopword and the policy drops stopwords. */
  predicate KeepTerm(word: string, fileNaming: string, stopwords: set<string>) {
    ToLowerCase(word) !in stopwords || !DropsStopwords(fileNaming)
  }

  function FilterTerms(words: seq<string>, fileNaming: string, stopwords: set<string>): seq<string> {
    if words == [] then []
    else (if KeepTerm(words[0], fileNaming, stopwords) then [words[0]] else [])
         + FilterTerms(words[1..], fileNaming, stopwords)
  }

  /** `slice(0, sliceEnd)`: an undefined end keeps every term. */
  function SliceTerms(words: seq<string>, end: Option<nat>): seq<string> {
    match end
    case None => words
    case Some(n) => if n < |words| then words[..n] else words
  }

  /** The title terms a title-based policy keeps, before they are joined and stripped. */
  function TitleTerms(title: string, fileNaming: string, stopwords: set<string>): seq<string> {
    SliceTerms(FilterTerms(Split(title, ' '), fileNaming, stopwords), SliceEnd(fileNaming))
  }

  /** The characters `[a-zA-Z0-9 ]` that survive in a title-based filename. */
  predicate IsFileNameChar(c: char) {
    ('a' <= c <= 'z') || ('A' <= c <= 'Z') || ('0' <= c <= '9') || c == ' '
  }

  /** `s.replace(/[^a-zA-Z0-9 ]/g, "")`. */
  function StripNonFileNameChars(s: string): string {
    if s == [] then []
    else (if IsFileNameChar(s[0]) then [s[0]] else []) + StripNonFileNameChars(s[1..])
  }

  /**
   * `extractFileNameFromUrl`: the URL's identifier under the `identifier`
   * policy or for a missing title; otherwise the kept title terms joined by
   * single spaces, with every character outside `[a-zA-Z0-9 ]` removed.
   */
  function ExtractFileNameFromUrl(url: string, title: Option<string>, fileNaming: string, stopwords: set<string>): string {
    if fileNaming != "identifier" && title.Some? then
      StripNonFileNameChars(Join(TitleTerms(title.value, fileNaming, stopwords), " "))
    else
      GetIdentifierFromUrl(url)
  }

  // ---------------------------------------------------------------------
  // Properties of the filename policy

  /** Filtering keeps the order of the terms it keeps. */
  lemma {:induction false} FilterTermsOrder(words: seq<string>, fileNaming: string, stopwords: set<string>)
    ensures var r := FilterTerms(words, fileNaming, stopwords);
      SubsequenceOf(r, words) && |r| <= |words|
  {
    if words != [] {
      FilterTermsOrder(words[1..], fileNaming, stopwords);
      var rest := FilterTerms(words[1..], fileNaming, stopwords);
      var r := FilterTerms(words, fileNaming, stopwords);
      if KeepTerm(words[0], fileNaming, stopwords) {
        assert r == [words[0]] + rest;
        assert r[1..] == rest;
      } else {
        assert r == rest;
        assert rest == [] || SubsequenceOf(rest, words[1..]);
      }
    }
  }

  /**
   * Filtering keeps exactly the terms the callback accepts: every kept term
   * passes, and a term that passes is kept as often as it occurs.
   */
  lemma {:induction false} FilterTermsKept(words: seq<string>, fileNaming: string, stopwords: set<string>)
    ensures var r := FilterTerms(words, fileNaming, stopwords);
      && (forall w :: w in r ==> KeepTerm(w, fileNaming, stopwords))
      && (forall w :: KeepTerm(w, fileNaming, stopwords) ==> multiset(r)[w] == multiset(words)[w])
  {
    if words != [] {
      FilterTermsKept(words[1..], fileNaming, stopwords);
      var head := if KeepTerm(words[0], fileNaming, stopwords) then [words[0]] else [];
      var rest := FilterTerms(words[1..], fileNaming, stopwords);
      assert FilterTerms(words, fileNaming, stopwords) == head + rest;
      assert words == [words[0]] + words[1..];
      assert multiset(words) == multiset([words[0]]) + multiset(words[1..]);
      assert multiset(head + rest) == multiset(head) + multiset(rest);
    }
  }

  /** Without a `no-stopwords` policy the filter drops nothing. */
  lemma {:induction false} FilterTermsKeepsAll(words: seq<string>, fileNaming: string, stopwords: set<string>)
    requires !DropsStopwords(fileNaming)
    ensures FilterTerms(words, fileNaming, stopwords) == words
  {
    if words != [] {
      FilterTermsKeepsAll(words[1..], fileNaming, stopwords);
      assert words == [words[0]] + words[1..];
    }
  }

  /**
   * The filter keeps, in title order, every occurrence of each term it
   * keeps; the kept terms are the first `min(n, count)` filtered terms under
   * a `first-n` policy and all of them otherwise; a `no-stopwords` policy
   * keeps no stopword, and without it no term is dropped: the kept terms are
   * the first ones of the title.
   */
  lemma TitleTermsSpec(title: string, fileNaming: string, stopwords: set<string>)
    ensures var words, kept := Split(title, ' '), TitleTerms(title, fileNaming, stopwords);
      var filtered := FilterTerms(words, fileNaming, stopwords);
      && SubsequenceOf(filtered, words)
      && (forall w :: KeepTerm(w, fileNaming, stopwords) ==> multiset(filtered)[w] == multiset(words)[w])
      && kept == filtered[..|kept|]
      && (SliceEnd(fileNaming).None? ==> kept == filtered)
      && (forall n :: SliceEnd(fileNaming) == Some(n) ==>
            |kept| == if n < |filtered| then n else |filtered|)
      && SubsequenceOf(kept, words)
      && |kept| <= |words|
      && (forall i :: 0 <= i < |kept| ==> ' ' !in kept[i])
      && (forall n :: SliceEnd(fileNaming) == Some(n) ==> |kept| <= n)
      && (DropsStopwords(fileNaming) ==> forall i :: 0 <= i < |kept| ==> ToLowerCase(kept[i]) !in stopwords)
      && (!DropsStopwords(fileNaming) ==> kept == words[..|kept|])
      && (!DropsStopwords(fileNaming) && SliceEnd(fileNaming).None? ==> kept == words)
      && (forall n :: !DropsStopwords(fileNaming) && SliceEnd(fileNaming) == Some(n) ==>
            |kept| == if n < |words| then n else |words|)
  {
    var words := Split(title, ' ');
    var filtered := FilterTerms(words, fileNaming, stopwords);
    FilterTermsOrder(words, fileNaming, stopwords);
    FilterTermsKept(words, fileNaming, stopwords);
    if !DropsStopwords(fileNaming) {
      FilterTermsKeepsAll(words, fileNaming, stopwords);
    }
    var kept := TitleTerms(title, fileNaming, stopwords);
    assert kept == filtered[..|kept|];
    PrefixIsSubsequence(filtered, |kept|);
    SubsequenceTransitive(kept, filtered, words);
    SubsequenceElements(kept, words);
    forall i | 0 <= i < |kept| ensures ' ' !in kept[i] && KeepTerm(kept[i], fileNaming, stopwords) {
      assert kept[i] in words;
      assert kept[i] == filtered[i] && filtered[i] in filtered;
    }
  }

  lemma {:induction false} StripAppend(a: string, b: string)
    ensures StripNonFileNameChars(a + b) == StripNonFileNameChars(a) + StripNonFileNameChars(b)
  {
    if a == [] {
      assert a + b == b;
    } else {
      assert (a + b)[0] == a[0];
      assert (a + b)[1..] == a[1..] + b;
      StripAppend(a[1..], b);
      var head := if IsFileNameChar(a[0]) then [a[0]] else [];
      assert StripNonFileNameChars(a + b) == head + StripNonFileNameChars(a[1..] + b);
      assert StripNonFileNameChars(a) == head + StripNonFileNameChars(a[1..]);
    }
  }

  /** Stripping keeps only `[a-zA-Z0-9 ]`, and only characters of the input. */
  lemma {:induction false} StripSpec(s: string)
    ensures forall c :: c in StripNonFileNameChars(s) ==> IsFileNameChar(c) && c in s
  {
    if s != [] {
      StripSpec(s[1..]);
      var head := if IsFileNameChar(s[0]) then [s[0]] else [];
      assert StripNonFileNameChars(s) == head + StripNonFileNameChars(s[1..]);
      assert forall c :: c in s[1..] ==> c in s;
    }
  }

  /** Stripping keeps every occurrence of every character of `[a-zA-Z0-9 ]`. */
  lemma {:induction false} StripCounts(s: string)
    ensures forall c :: IsFileNameChar(c) ==> multiset(StripNonFileNameChars(s))[c] == multiset(s)[c]
  {
    if s != [] {
      StripCounts(s[1..]);
      var head := if IsFileNameChar(s[0]) then [s[0]] else [];
      var rest := StripNonFileNameChars(s[1..]);
      assert StripNonFileNameChars(s) == head + rest;
      assert s == [s[0]] + s[1..];
      assert multiset(s) == multiset([s[0]]) + multiset(s[1..]);
      assert multiset(head + rest) == multiset(head) + multiset(rest);
    }
  }

  function StripEach(words: seq<string>): (r: seq<string>)
    ensures |r| == |words|
  {
    if words == [] then [] else [StripNonFileNameChars(words[0])] + StripEach(words[1..])
  }

  /** Stripping keeps the spaces, so it can be done term by term. */
  lemma {:induction false} StripJoin(words: seq<string>)
    ensures StripNonFileNameChars(Join(words, " ")) == Join(StripEach(words), " ")
  {
    if |words| > 1 {
      StripJoin(words[1..]);
      StripAppend(words[0] + " ", Join(words[1..], " "));
      StripAppend(words[0], " ");
      assert StripNonFileNameChars(" ") == " ";
      var stripped := StripEach(words);
      assert stripped[0] == StripNonFileNameChars(words[0]);
      assert stripped[1..] == StripEach(words[1..]);
      assert Join(stripped, " ") == stripped[0] + " " + Join(stripped[1..], " ");
    } else if |words| == 1 {
      assert StripEach(words) == [StripNonFileNameChars(words[0])];
    }
  }

  /** A title-based filename uses only the characters `[a-zA-Z0-9 ]`. */
  lemma FileNameCharset(url: string, title: string, fileNaming: string, stopwords: set<string>)
    requires fileNaming != "identifier"
    ensures forall c :: c in ExtractFileNameFromUrl(url, Some(title), fileNaming, stopwords) ==> IsFileNameChar(c)
  {
    StripSpec(Join(TitleTerms(title, fileNaming, stopwords), " "));
  }

  /** Under the `identifier` policy, or without a title, the title plays no part. */
  lemma FileNameFromIdentifier(url: string, title: Option<string>, fileNaming: string, stopwords: set<string>)
    requires fileNaming == "identifier" || title.None?
    ensures ExtractFileNameFromUrl(url, title, fileNaming, stopwords) == GetIdentifierFromUrl(url)
  {
  }

  /**
   * A title-based filename is exactly the stripped kept terms separated by
   * single spaces: splitting it on spaces gives them back, one piece per kept
   * term. With no term kept, the filename is empty.
   */
  lemma FileNameTerms(url: string, title: string, fileNaming: string, stopwords: set<string>)
    requires fileNaming != "identifier"
    ensures var r, kept := ExtractFileNameFromUrl(url, Some(title), fileNaming, stopwords),
                           TitleTerms(title, fileNaming, stopwords);
      && (kept == [] ==> r == "")
      && (kept != [] ==> Split(r, ' ') == StripEach(kept))
      && (forall n :: SliceEnd(fileNaming) == Some(n) && n >= 1 ==> |Split(r, ' ')| <= n)
  {
    var kept := TitleTerms(title, fileNaming, stopwords);
    var r := ExtractFileNameFromUrl(url, Some(title), fileNaming, stopwords);
    TitleTermsSpec(title, fileNaming, stopwords);
    StripJoin(kept);
    if kept != [] {
      var stripped := StripEach(kept);
      forall i | 0 <= i < |stripped| ensures ' ' !in stripped[i] {
        StripEachAt(kept, i);
        StripSpec(kept[i]);
      }
      SplitJoin(stripped, ' ');
    } else {
      assert Split(r, ' ') == [""];
    }
  }

  lemma {:induction false} StripEachAt(words: seq<string>, i: nat)
    requires i < |words|
    ensures StripEach(words)[i] == StripNonFileNameChars(words[i])
  {
    if i > 0 {
      StripEachAt(words[1..], i - 1);
    }
  }

  /** Without stopword filtering or truncation the filename is the stripped title. */
  lemma AllTitleTermsFileName(url: string, title: string, fileNaming: string, stopwords: set<string>)
    requires fileNaming != "identifier" && SliceEnd(fileNaming).None? && !DropsStopwords(fileNaming)
    ensures ExtractFileNameFromUrl(url, Some(title), fileNaming, stopwords) == StripNonFileNameChars(title)
  {
    TitleTermsSpec(title, fileNaming, stopwords);
    JoinSplit(title, ' ');
  }

  /** A string with no character of `[a-zA-Z0-9 ]` is stripped to nothing. */
  lemma {:induction false} StripAll(s: string)
    requires forall c :: c in s ==> !IsFileNameChar(c)
    ensures StripNonFileNameChars(s) == ""
  {
    if s != [] {
      assert s[0] in s;
      assert forall c :: c in s[1..] ==> c in s;
      StripAll(s[1..]);
    }
  }

  /**
   * Nothing checks the result: a title with no letter, digit or space gives
   * an empty filename under every title-based policy.
   */
  lemma TitleWithoutFileNameChars(url: string, title: string, fileNaming: string, stopwords: set<string>)
    requires fileNaming != "identifier"
    requires forall c :: c in title ==> !IsFileNameChar(c)
    ensures ExtractFileNameFromUrl(url, Some(title), fileNaming, stopwords) == ""
  {
    assert ' ' !in title by {
      assert IsFileNameChar(' ');
    }
    SplitWithoutSeparator(title, ' ');
    var filtered := FilterTerms([title], fileNaming, stopwords);
    FilterTermsOrder([title], fileNaming, stopwords);
    var kept := TitleTerms(title, fileNaming, stopwords);
    assert |kept| <= |filtered| <= 1;
    if kept == [] {
      assert Join(kept, " ") == "";
    } else {
      assert kept == filtered;
      SubsequenceElements(filtered, [title]);
      assert filtered[0] in filtered;
      assert kept == [title];
      StripAll(title);
    }
  }

  /** A policy starting with `first-3-title-terms` keeps three terms. */
  lemma ReadsFirst3(s: string)
    requires |s| >= 19 && s[..19] == "first-3-title-terms"
    ensures SliceEnd(s) == Some(3)
  {
    PrefixIncluded(s, "first-3-title-terms");
  }

  /** A policy starting with `first-5-title-terms` and without a `3` keeps five terms. */
  lemma ReadsFirst5(s: string)
    requires |s| >= 19 && s[..19] == "first-5-title-terms" && '3' !in s
    ensures SliceEnd(s) == Some(5)
  {
    MissingCharNotIncluded(s, "first-3-title-terms", '3');
    PrefixIncluded(s, "first-5-title-terms");
  }

  /** A policy with neither a `3` nor a `5` keeps every term. */
  lemma ReadsAllTerms(s: string)
    requires '3' !in s && '5' !in s
    ensures SliceEnd(s) == None
  {
    MissingCharNotIncluded(s, "first-3-title-terms", '3');
    MissingCharNotIncluded(s, "first-5-title-terms", '5');
  }

  /** A policy ending in `-no-stopwords` drops stopwords. */
  lemma ReadsNoStopwords(s: string)
    requires |s| >= 12 && s[|s| - 12..] == "no-stopwords"
    ensures DropsStopwords(s)
  {
    assert OccursAt(s, "no-stopwords", |s| - 12);
  }

  /** A policy without a `p` keeps stopwords. */
  lemma ReadsKeepStopwords(s: string)
    requires 'p' !in s
    ensures !DropsStopwords(s)
  {
    MissingCharNotIncluded(s, "no-stopwords", 'p');
  }

  /** How the five title-based policies offered are read by the `includes` tests. */
  lemma NamingTypeFirst3()
    ensures SliceEnd(NAMING_TYPES[1]) == Some(3) && !DropsStopwords(NAMING_TYPES[1])
  {
    ReadsFirst3(NAMING_TYPES[1]);
    ReadsKeepStopwords(NAMING_TYPES[1]);
  }

  lemma NamingTypeFirst3NoStopwords()
    ensures SliceEnd(NAMING_TYPES[2]) == Some(3) && DropsStopwords(NAMING_TYPES[2])
  {
    ReadsFirst3(NAMING_TYPES[2]);
    ReadsNoStopwords(NAMING_TYPES[2]);
  }

  lemma NamingTypeFirst5()
    ensures SliceEnd(NAMING_TYPES[3]) == Some(5) && !DropsStopwords(NAMING_TYPES[3])
  {
    ReadsFirst5(NAMING_TYPES[3]);
    ReadsKeepStopwords(NAMING_TYPES[3]);
  }

  lemma NamingTypeFirst5NoStopwords()
    ensures SliceEnd(NAMING_TYPES[4]) == Some(5) && DropsStopwords(NAMING_TYPES[4])
  {
    ReadsFirst5(NAMING_TYPES[4]);
    ReadsNoStopwords(NAMING_TYPES[4]);
  }

  lemma NamingTypeAllTerms()
    ensures SliceEnd(NAMING_TYPES[5]) == None && !DropsStopwords(NAMING_TYPES[5])
  {
    ReadsAllTerms(NAMING_TYPES[5]);
    ReadsKeepStopwords(NAMING_TYPES[5]);
  }
}
