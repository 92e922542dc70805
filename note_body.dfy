/**
 * The text of a paper note: `trimString`, the marker put in front of text
 * written by the language model, and the fixed section layout that
 * `generateNoteContent` writes into the new file.
 */
module NoteBody {
  import opened Wrappers
  import opened JsString

  // ---------------------------------------------------------------------
  // trimString

  /**
   * `trimString`: a missing value becomes the empty string; otherwise every
   * run of white space becomes one space and the ends are trimmed.
   */
  function TrimString(str: Option<string>): string {
    match str
    case None => ""
    case Some(s) => Trim(CollapseWhitespace(s))
  }

  /** No white space at either end, no white space but single spaces. */
  ghost predicate Tidy(s: string) {
    && Collapsed(s)
    && (s == [] || (!IsWhitespace(s[0]) && !IsWhitespace(s[|s| - 1])))
  }

  /**
   * The result of `trimString` is tidy, holds no line break, and keeps every
   * non-white-space character of the input in order; `null` gives `""`.
   */
  lemma TrimStringSpec(str: Option<string>)
    ensures var r := TrimString(str);
      && Tidy(r)
      && '\n' !in r
      && (str.None? ==> r == "")
      && (str.Some? ==> NonWhitespace(r) == NonWhitespace(str.value))
  {
    if str.Some? {
      var c := CollapseWhitespace(str.value);
      CollapseWhitespaceShape(str.value);
      TrimKeepsNonWhitespace(c);
      TrimOfCollapsedIsTidy(c);
      TidyHasNoLineBreak(Trim(c));
    }
  }

  /**
   * What `trimString` means: text made of words separated by runs of white
   * space, with any white space around it, becomes those words separated
   * by single spaces.
   */
  lemma TrimStringWords(lead: string, words: seq<string>, gaps: seq<string>, trail: string)
    requires forall i :: 0 <= i < |lead| ==> IsWhitespace(lead[i])
    requires forall i :: 0 <= i < |trail| ==> IsWhitespace(trail[i])
    requires |words| >= 1 && |gaps| == |words| - 1
    requires forall i :: 0 <= i < |words| ==> IsWord(words[i])
    requires forall i :: 0 <= i < |gaps| ==> IsGap(gaps[i])
    ensures TrimString(Some(lead + Interleave(words, gaps) + trail)) == Join(words, " ")
  {
    var x := Interleave(words, gaps);
    var first, last := words[0], words[|words| - 1];
    InterleaveEnds(words, gaps);
    assert x[0] == x[..|first|][0] == first[0];
    assert x[|x| - 1] == x[|x| - |last|..][|last| - 1] == last[|last| - 1];
    CollapseWords(words, gaps);
    var j := Join(words, " ");
    JoinEnds(words, " ");
    assert j[0] == j[..|first|][0] == first[0];
    assert j[|j| - 1] == j[|j| - |last|..][|last| - 1] == last[|last| - 1];
    TrimCollapseAround(lead, x, trail);
  }

  lemma TrimOfCollapsedIsTidy(c: string)
    requires Collapsed(c)
    ensures Tidy(Trim(c))
  {
    var lo := TrimIsSlice(c);
    CollapsedSlice(c, lo, lo + |Trim(c)|);
    TrimEnds(c);
  }

  /** `trim` cuts a piece out of the middle of its input. */
  lemma TrimIsSlice(c: string) returns (lo: nat)
    ensures lo + |Trim(c)| <= |c| && Trim(c) == c[lo..lo + |Trim(c)|]
  {
    var a := TrimStart(c);
    TrimStartSpec(c);
    TrimEndSpec(a);
    lo := |c| - |a|;
    assert Trim(c) == a[..|Trim(c)|];
  }

  lemma TidyHasNoLineBreak(s: string)
    requires Tidy(s)
    ensures '\n' !in s
  {
    if '\n' in s {
      var i :| 0 <= i < |s| && s[i] == '\n';
      assert IsWhitespace(s[i]);
    }
  }

  /** `trimString` is idempotent. */
  lemma TrimStringIdempotent(str: Option<string>)
    ensures TrimString(Some(TrimString(str))) == TrimString(str)
  {
    var r := TrimString(str);
    TrimStringSpec(str);
    CollapseOfCollapsed(r);
    TrimOfTrimmed(r);
  }

  /** A value that is already tidy passes through `trimString` unchanged. */
  lemma TrimStringOfTidy(s: string)
    requires Tidy(s)
    ensures TrimString(Some(s)) == s
  {
    CollapseOfCollapsed(s);
    TrimOfTrimmed(s);
  }

  // ---------------------------------------------------------------------
  // The marker in front of generated text

  /** `llmMarker`, the laptop emoji U+1F4BB: one character, two UTF-16 code units. */
  const LLM_MARKER: string := "\U{1F4BB}"

  /** Generated tags of at least this many UTF-16 code units are marked. */
  const TAGS_MARK_THRESHOLD: nat := 3

  /** Generated future work of at least this many UTF-16 code units is marked. */
  const FUTURE_WORK_MARK_THRESHOLD: nat := 10

  /** Future work is requested only for a page text longer than this many UTF-16 code units. */
  const FUTURE_WORK_MIN_PAGE_LENGTH: nat := 50

  /** The marker and a space, put in front of marked text. */
  function MarkPrefix(): string {
    LLM_MARKER + " "
  }

  /** `` `${llmMarker} ${raw}` `` when `raw.length >= threshold`, else `raw` unchanged. */
  function Mark(raw: string, threshold: nat): string {
    if Utf16Length(raw) >= threshold then MarkPrefix() + raw else raw
  }

  /** Removes a marker that `Mark` with this threshold put there. */
  function Unmark(text: string, threshold: nat): string {
    if StartsWith(text, MarkPrefix()) && Utf16Length(text[|MarkPrefix()|..]) >= threshold
    then text[|MarkPrefix()|..]
    else text
  }

  /**
   * Text is marked exactly when it reaches the threshold, and a marked text
   * is three UTF-16 code units longer (the emoji's two and the space).
   */
  lemma MarkSpec(raw: string, threshold: nat)
    ensures Mark(raw, threshold) == MarkPrefix() + raw <==> Utf16Length(raw) >= threshold
    ensures Mark(raw, threshold) == raw <==> Utf16Length(raw) < threshold
    ensures Utf16Length(Mark(raw, threshold)) ==
            Utf16Length(raw) + (if Utf16Length(raw) >= threshold then 3 else 0)
  {
    assert Utf16Length(MarkPrefix()) == 3;
    Utf16LengthAppend(MarkPrefix(), raw);
    if Utf16Length(raw) < threshold {
      assert |MarkPrefix() + raw| != |raw|;
    }
  }

  /**
   * The marker can always be told apart from generated text that happens to
   * begin with it: removing it gives back exactly what the model returned.
   */
  lemma UnmarkMark(raw: string, threshold: nat)
    ensures Unmark(Mark(raw, threshold), threshold) == raw
  {
    var p := MarkPrefix();
    if Utf16Length(raw) >= threshold {
      assert (p + raw)[..|p|] == p;
      assert (p + raw)[|p|..] == raw;
    } else if StartsWith(raw, p) {
      assert raw == raw[..|p|] + raw[|p|..];
      Utf16LengthAppend(raw[..|p|], raw[|p|..]);
    }
  }

  /** `generateTagsFromAbstract`'s result as it goes into the note. */
  function MarkTags(raw: string): string {
    Mark(raw, TAGS_MARK_THRESHOLD)
  }

  /** `extractFutureWork`'s result as it goes into the note. */
  function MarkFutureWork(raw: string): string {
    Mark(raw, FUTURE_WORK_MARK_THRESHOLD)
  }

  /** Empty text, which is what a disabled or failed model gives, is never marked. */
  lemma EmptyIsNotMarked()
    ensures MarkTags("") == "" && MarkFutureWork("") == ""
  {
  }

  // ---------------------------------------------------------------------
  // The note body

  /** One section: its heading line, its content, and an empty line. */
  function Section(heading: string, content: string): string {
    heading + "\n" + content + "\n\n"
  }

  /** The closing part: the Notes heading and one list item holding the future work. */
  function NotesSection(futureWork: string): string {
    "# Notes\n" + "- " + futureWork
  }

  /** The eight sections in order, around contents that are already prepared. */
  function Layout(title: string, authors: string, url: string, venue: string,
                  date: string, abstractText: string, tags: string, futureWork: string): string
  {
    Section("# Title", title)
    + (Section("# Authors", authors)
    + (Section("# URL", url)
    + (Section("# Venue", venue)
    + (Section("# Publication date", date)
    + (Section("# Abstract", abstractText)
    + (Section("# Tags", tags)
    + NotesSection(futureWork)))))))
  }

  /**
   * The body `generateNoteContent` writes. The URL and the tags are written
   * verbatim, the title, authors, venue, date and abstract through
   * `trimString`.
   */
  function RenderNote(title: string, authorString: string, url: string, venue: string,
                      publicationDate: string, abstractText: string, tags: string, futureWork: string): string
  {
    Layout(TrimString(Some(title)), TrimString(Some(authorString)), url, TrimString(Some(venue)),
           TrimString(Some(publicationDate)), TrimString(Some(abstractText)), tags, futureWork)
  }

  /** A section whose heading and content are single lines splits into those two lines and an empty one. */
  lemma SplitSection(heading: string, content: string, tail: string)
    requires '\n' !in heading && '\n' !in content
    ensures Split(Section(heading, content) + tail, '\n') == [heading, content, ""] + Split(tail, '\n')
  {
    var nl := ['\n'];
    assert Section(heading, content) + tail == heading + nl + (content + nl + ([] + nl + tail));
    SplitAfterSeparatorFree(heading, content + nl + ([] + nl + tail), '\n');
    SplitAfterSeparatorFree(content, [] + nl + tail, '\n');
    SplitAfterSeparatorFree([], tail, '\n');
  }

  lemma SplitNotesSection(futureWork: string)
    ensures Split(NotesSection(futureWork), '\n') == ["# Notes"] + Split("- " + futureWork, '\n')
  {
    assert NotesSection(futureWork) == "# Notes" + ['\n'] + ("- " + futureWork);
    SplitAfterSeparatorFree("# Notes", "- " + futureWork, '\n');
  }

  /**
   * Read line by line, the layout is the seven headings in order, each
   * followed by its content on one line and an empty line, then the Notes
   * heading and the `- ` item holding the future work, provided the seven
   * contents are single lines.
   */
  lemma LayoutLines(title: string, authors: string, url: string, venue: string,
                    date: string, abstractText: string, tags: string, futureWork: string)
    requires '\n' !in title && '\n' !in authors && '\n' !in url && '\n' !in venue
    requires '\n' !in date && '\n' !in abstractText && '\n' !in tags
    ensures Split(Layout(title, authors, url, venue, date, abstractText, tags, futureWork), '\n')
            == ["# Title", title, ""] + (["# Authors", authors, ""] + (["# URL", url, ""]
               + (["# Venue", venue, ""] + (["# Publication date", date, ""]
               + (["# Abstract", abstractText, ""] + (["# Tags", tags, ""]
               + (["# Notes"] + Split("- " + futureWork, '\n'))))))))
  {
    var n := NotesSection(futureWork);
    var r7 := Section("# Tags", tags) + n;
    var r6 := Section("# Abstract", abstractText) + r7;
    var r5 := Section("# Publication date", date) + r6;
    var r4 := Section("# Venue", venue) + r5;
    var r3 := Section("# URL", url) + r4;
    var r2 := Section("# Authors", authors) + r3;
    var r1 := Section("# Title", title) + r2;
    assert Layout(title, authors, url, venue, date, abstractText, tags, futureWork) == r1;
    SplitNotesSection(futureWork);
    SplitSection("# Tags", tags, n);
    SplitSection("# Abstract", abstractText, r7);
    SplitSection("# Publication date", date, r6);
    SplitSection("# Venue", venue, r5);
    SplitSection("# URL", url, r4);
    SplitSection("# Authors", authors, r3);
    SplitSection("# Title", title, r2);
  }

  /**
   * A rendered note, read line by line: the five fields that pass through
   * `trimString` are always single lines, so the layout holds whenever the
   * URL and the tags hold no line break.
   */
  lemma RenderNoteLines(title: string, authorString: string, url: string, venue: string,
                        publicationDate: string, abstractText: string, tags: string, futureWork: string)
    requires '\n' !in url && '\n' !in tags
    ensures Split(RenderNote(title, authorString, url, venue, publicationDate, abstractText, tags, futureWork), '\n')
            == ["# Title", TrimString(Some(title)), ""]
               + (["# Authors", TrimString(Some(authorString)), ""]
               + (["# URL", url, ""]
               + (["# Venue", TrimString(Some(venue)), ""]
               + (["# Publication date", TrimString(Some(publicationDate)), ""]
               + (["# Abstract", TrimString(Some(abstractText)), ""]
               + (["# Tags", tags, ""]
               + (["# Notes"] + Split("- " + futureWork, '\n'))))))))
  {
    TrimStringSpec(Some(title));
    TrimStringSpec(Some(authorString));
    TrimStringSpec(Some(venue));
    TrimStringSpec(Some(publicationDate));
    TrimStringSpec(Some(abstractText));
    LayoutLines(TrimString(Some(title)), TrimString(Some(authorString)), url, TrimString(Some(venue)),
                TrimString(Some(publicationDate)), TrimString(Some(abstractText)), tags, futureWork);
  }

  /** The note ends with the Tags section and the Notes item, both verbatim. */
  lemma LayoutEnd(title: string, authors: string, url: string, venue: string,
                  date: string, abstractText: string, tags: string, futureWork: string)
    ensures EndsWith(Layout(title, authors, url, venue, date, abstractText, tags, futureWork),
                     "# Tags\n" + tags + "\n\n# Notes\n- " + futureWork)
  {
    var tail := Section("# Tags", tags) + NotesSection(futureWork);
    assert tail == "# Tags\n" + tags + "\n\n# Notes\n- " + futureWork;
    assert EndsWith(tail, tail);
    var s5 := Section("# Abstract", abstractText) + tail;
    EndsWithPrepend(Section("# Abstract", abstractText), tail, tail);
    var s4 := Section("# Publication date", date) + s5;
    EndsWithPrepend(Section("# Publication date", date), s5, tail);
    var s3 := Section("# Venue", venue) + s4;
    EndsWithPrepend(Section("# Venue", venue), s4, tail);
    var s2 := Section("# URL", url) + s3;
    EndsWithPrepend(Section("# URL", url), s3, tail);
    var s1 := Section("# Authors", authors) + s2;
    EndsWithPrepend(Section("# Authors", authors), s2, tail);
    EndsWithPrepend(Section("# Title", title), s1, tail);
  }

  /** A rendered note ends with its Tags section and its Notes item, both verbatim. */
  lemma RenderNoteEnd(title: string, authorString: string, url: string, venue: string,
                      publicationDate: string, abstractText: string, tags: string, futureWork: string)
    ensures EndsWith(RenderNote(title, authorString, url, venue, publicationDate, abstractText, tags, futureWork),
                     "# Tags\n" + tags + "\n\n# Notes\n- " + futureWork)
  {
    LayoutEnd(TrimString(Some(title)), TrimString(Some(authorString)), url, TrimString(Some(venue)),
              TrimString(Some(publicationDate)), TrimString(Some(abstractText)), tags, futureWork);
  }

  lemma TailShape(tags: string)
    ensures "# Tags\n" + tags + "\n\n# Notes\n- " + "" == ("# Tags\n" + tags) + "\n\n# Notes\n- "
  {
  }

  /** With no future work the note ends with an empty Notes item. */
  lemma RenderNoteEmptyNotes(title: string, authorString: string, url: string, venue: string,
                             publicationDate: string, abstractText: string, tags: string)
    ensures EndsWith(RenderNote(title, authorString, url, venue, publicationDate, abstractText, tags, ""),
                     "\n\n# Notes\n- ")
  {
    RenderNoteEnd(title, authorString, url, venue, publicationDate, abstractText, tags, "");
    TailShape(tags);
    EndsWithAppend(RenderNote(title, authorString, url, venue, publicationDate, abstractText, tags, ""),
                       "# Tags\n" + tags, "\n\n# Notes\n- ");
  }

  lemma NoTail()
    ensures "# Tags\n" + "" + "\n\n# Notes\n- " + "" == "# Tags\n\n\n# Notes\n- "
  {
  }
}
