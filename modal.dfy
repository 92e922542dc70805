/**
 * The URL dialog: the keydown handler that starts one extraction, the two
 * extractors that turn a paper's metadata into a note request, and
 * `generateNoteContent`, which enriches the note with the language model
 * and writes it into the vault unless the file already exists.
 *
 * Everything that arrives over the network is a parameter: the parsed
 * Semantic Scholar response, the parsed arXiv feed, the text of the arXiv
 * HTML page, and the outcome of each chat-completion request.
 */
module Modal {
  import opened Wrappers
  import opened JsString
  import opened Naming
  import opened NoteBody
  import opened Metadata
  import opened Routing
  import Settings

  // ---------------------------------------------------------------------
  // The language model

  /** The outcome of one chat-completion request: the reply's text, or a failure. */
  datatype Completion = Completed(text: string) | Failed

  /** A request sent to the language model, with the text it is about. */
  datatype LlmRequest = TagsRequest(abstractText: string) | FutureWorkRequest(paper: string)

  /** `query_llm`: the model is used unless the key is still the placeholder `N/A`. */
  predicate LlmEnabled(openAIKey: string) {
    openAIKey != Settings.DEFAULT_OPENAI_KEY
  }

  /** A failed request is reported and counts as an empty reply. */
  function CompletionText(reply: Completion): string {
    match reply
    case Completed(text) => text
    case Failed => ""
  }

  /** `generateTagsFromAbstract`'s result. */
  function TagsText(openAIKey: string, reply: Completion): string {
    if LlmEnabled(openAIKey) then CompletionText(reply) else ""
  }

  /** Whether `generateNoteContent` asks for future work: only for a page text longer than 50. */
  predicate WantsFutureWork(htmlData: string) {
    Utf16Length(htmlData) > FUTURE_WORK_MIN_PAGE_LENGTH
  }

  /** The future work before marking: `""` unless it was asked for and the model answered. */
  function FutureWorkText(openAIKey: string, htmlData: string, reply: Completion): string {
    if WantsFutureWork(htmlData) && LlmEnabled(openAIKey) then CompletionText(reply) else ""
  }

  /** The requests one note costs, in the order they are sent. */
  function EnrichmentRequests(openAIKey: string, abstractText: string, htmlData: string): seq<LlmRequest> {
    (if LlmEnabled(openAIKey) then [TagsRequest(abstractText)] else [])
    + (if LlmEnabled(openAIKey) && WantsFutureWork(htmlData) then [FutureWorkRequest(htmlData)] else [])
  }

  /**
   * The model is asked for tags exactly when it is enabled, and for future
   * work exactly when it is enabled and the page text is longer than 50.
   */
  lemma EnrichmentRequestsSpec(openAIKey: string, abstractText: string, htmlData: string)
    ensures var rs := EnrichmentRequests(openAIKey, abstractText, htmlData);
      && (TagsRequest(abstractText) in rs <==> LlmEnabled(openAIKey))
      && (FutureWorkRequest(htmlData) in rs <==> LlmEnabled(openAIKey) && WantsFutureWork(htmlData))
      && (forall r :: r in rs ==> r == TagsRequest(abstractText) || r == FutureWorkRequest(htmlData))
      && (!LlmEnabled(openAIKey) ==> rs == [])
  {
  }

  // ---------------------------------------------------------------------
  // The note to write

  /** The arguments `generateNoteContent` is called with. */
  datatype NoteJob = NoteJob(
    path: string,
    title: string,
    authorString: string,
    url: string,
    htmlData: string,
    venue: string,
    publicationDate: string,
    abstractText: string)

  /** `` `${folderLocation}${path.sep}${filename}.md` ``. */
  function NotePath(folderLocation: string, sep: char, filename: string): string {
    folderLocation + [sep] + filename + ".md"
  }

  /** The body of the note for a job, given the model's replies. */
  function NoteContent(openAIKey: string, job: NoteJob, tagsReply: Completion, futureWorkReply: Completion): string {
    RenderNote(job.title, job.authorString, job.url, job.venue, job.publicationDate, job.abstractText,
               MarkTags(TagsText(openAIKey, tagsReply)),
               MarkFutureWork(FutureWorkText(openAIKey, job.htmlData, futureWorkReply)))
  }

  /** The vault's files after a job: unchanged if the path exists, else with the new note. */
  function NoteFiles(files: map<string, string>, openAIKey: string, job: NoteJob,
                     tagsReply: Completion, futureWorkReply: Completion): map<string, string>
  {
    if job.path in files then files else files[job.path := NoteContent(openAIKey, job, tagsReply, futureWorkReply)]
  }

  /** A job adds at most one file, at its path, and never overwrites one. */
  lemma NoteFilesSpec(files: map<string, string>, openAIKey: string, job: NoteJob,
                      tagsReply: Completion, futureWorkReply: Completion)
    ensures var after := NoteFiles(files, openAIKey, job, tagsReply, futureWorkReply);
      && after.Keys == files.Keys + {job.path}
      && (forall p :: p in files ==> after[p] == files[p])
      && (job.path !in files ==> after[job.path] == NoteContent(openAIKey, job, tagsReply, futureWorkReply))
  {
  }

  /**
   * Without a key the note has no tags and no future work, whatever the
   * replies would have been: it ends with an empty Tags section and an
   * empty Notes item.
   */
  lemma NoteWithoutKey(openAIKey: string, job: NoteJob, tagsReply: Completion, futureWorkReply: Completion)
    requires !LlmEnabled(openAIKey)
    ensures EnrichmentRequests(openAIKey, job.abstractText, job.htmlData) == []
    ensures EndsWith(NoteContent(openAIKey, job, tagsReply, futureWorkReply), "# Tags\n\n\n# Notes\n- ")
  {
    assert MarkTags("") == "" && MarkFutureWork("") == "";
    RenderNoteEnd(job.title, job.authorString, job.url, job.venue, job.publicationDate, job.abstractText, "", "");
    NoTail();
  }

  /**
   * For a page text of at most 50 code units, which includes every
   * Semantic Scholar note, future work is never asked for and the Notes
   * item is empty.
   */
  lemma NoFutureWorkForShortPage(openAIKey: string, job: NoteJob, tagsReply: Completion, futureWorkReply: Completion)
    requires !WantsFutureWork(job.htmlData)
    ensures FutureWorkRequest(job.htmlData) !in EnrichmentRequests(openAIKey, job.abstractText, job.htmlData)
    ensures EndsWith(NoteContent(openAIKey, job, tagsReply, futureWorkReply), "\n\n# Notes\n- ")
  {
    assert MarkFutureWork("") == "";
    RenderNoteEmptyNotes(job.title, job.authorString, job.url, job.venue, job.publicationDate, job.abstractText,
                         MarkTags(TagsText(openAIKey, tagsReply)));
  }

  // ---------------------------------------------------------------------
  // The two extractors, as the job they lead to

  /**
   * The Semantic Scholar path: nothing for an unsupported URL, a failed
   * request, a response that cannot be read, or one without a `url`;
   * otherwise a note named after the returned `url` and title, with no page
   * text.
   */
  function SemanticScholarJob(url: string, reply: Option<SemanticScholarResponse>, fileNaming: string,
                              folderLocation: string, sep: char, stopwords: set<string>): Option<NoteJob>
  {
    if SemanticScholarRequest(url).None? || reply.None? then None
    else match ParseSemanticScholar(reply.value)
      case Failure(_) => None
      case Success(m) =>
        if m.url.None? then None
        else
          var filename := ExtractFileNameFromUrl(m.url.value, Some(m.title), fileNaming, stopwords);
          Some(NoteJob(NotePath(folderLocation, sep, filename), m.title, m.authorString, m.url.value,
                       "", m.venue, m.publicationDate, m.abstractText))
  }

  /**
   * A Semantic Scholar note exists only for a supported URL and a readable
   * response; its URL and its file name come from the response, and the
   * URL typed in plays no further part: any two supported inputs give the
   * same note for the same response.
   */
  lemma SemanticScholarJobSpec(url: string, reply: Option<SemanticScholarResponse>, fileNaming: string,
                               folderLocation: string, sep: char, stopwords: set<string>)
    ensures var job := SemanticScholarJob(url, reply, fileNaming, folderLocation, sep, stopwords);
      job.Some? ==>
        && SemanticScholarPrefix(url).Some?
        && reply.Some? && !reply.value.error
        && ParseSemanticScholar(reply.value).Success?
        && ParseSemanticScholar(reply.value).value.url == Some(job.value.url)
        && job.value.htmlData == ""
        && job.value.path == NotePath(folderLocation, sep,
             ExtractFileNameFromUrl(job.value.url, Some(job.value.title), fileNaming, stopwords))
    ensures SemanticScholarPrefix(url).None? ==> SemanticScholarJob(url, reply, fileNaming, folderLocation, sep, stopwords).None?
    ensures forall other :: SemanticScholarPrefix(url).Some? && SemanticScholarPrefix(other).Some? ==>
      SemanticScholarJob(other, reply, fileNaming, folderLocation, sep, stopwords)
        == SemanticScholarJob(url, reply, fileNaming, folderLocation, sep, stopwords)
  {
  }

  /** The arXiv path: nothing if the feed cannot be fetched, else a note named after the typed URL. */
  function ArxivJob(url: string, feed: Option<seq<XmlElement>>, page: Option<string>, fileNaming: string,
                    folderLocation: string, sep: char, stopwords: set<string>): Option<NoteJob>
  {
    match feed
    case None => None
    case Some(doc) =>
      var meta := ReadArxivFeed(doc);
      var filename := ExtractFileNameFromUrl(url, Some(meta.title), fileNaming, stopwords);
      Some(NoteJob(NotePath(folderLocation, sep, filename), meta.title, meta.authorString, url,
                   page.GetOr(""), "", meta.publicationDate, meta.abstractText))
  }

  /**
   * An arXiv note keeps the typed URL, has no venue, and is fed the page
   * text when the HTML page could be fetched; under the `identifier` policy
   * it is named after the URL's identifier.
   */
  lemma ArxivJobSpec(url: string, feed: Option<seq<XmlElement>>, page: Option<string>, fileNaming: string,
                     folderLocation: string, sep: char, stopwords: set<string>)
    ensures var job := ArxivJob(url, feed, page, fileNaming, folderLocation, sep, stopwords);
      && (job.Some? <==> feed.Some?)
      && (job.Some? ==>
            && job.value.url == url
            && job.value.venue == ""
            && job.value.title == ArxivTitle(feed.value)
            && (page.Some? ==> job.value.htmlData == page.value)
            && (page.None? ==> job.value.htmlData == ""))
      && (job.Some? && fileNaming == "identifier" ==>
            job.value.path == folderLocation + [sep] + GetIdentifierFromUrl(url) + ".md")
  {
  }

  /**
   * The file name is not checked: a title-based policy and a title with
   * no letter, digit or space give the file `.md` in the chosen folder.
   */
  lemma EmptyNoteName(url: string, title: string, fileNaming: string, stopwords: set<string>,
                      folderLocation: string, sep: char)
    requires fileNaming != "identifier"
    requires forall c :: c in title ==> !IsFileNameChar(c)
    ensures NotePath(folderLocation, sep, ExtractFileNameFromUrl(url, Some(title), fileNaming, stopwords))
            == folderLocation + [sep] + ".md"
  {
    TitleWithoutFileNameChars(url, title, fileNaming, stopwords);
  }

  /** The job the keydown handler's route leads to. */
  function JobFor(url: string, replies: Replies, fileNaming: string, folderLocation: string,
                  sep: char, stopwords: set<string>): Option<NoteJob>
  {
    match RouteFor(url)
    case ArxivApi => ArxivJob(url, replies.arxivFeed, replies.arxivPage, fileNaming, folderLocation, sep, stopwords)
    case SemanticScholarApi => SemanticScholarJob(url, replies.semanticScholar, fileNaming, folderLocation, sep, stopwords)
  }

  /** The vault's files after an extraction that may or may not reach `generateNoteContent`. */
  function FilesAfter(files: map<string, string>, openAIKey: string, job: Option<NoteJob>,
                      tagsReply: Completion, futureWorkReply: Completion): map<string, string>
  {
    match job
    case None => files
    case Some(j) => NoteFiles(files, openAIKey, j, tagsReply, futureWorkReply)
  }

  /** The model requests an extraction costs: none unless it leads to a note that is not there yet. */
  function LlmRequestsFor(files: map<string, string>, openAIKey: string, job: Option<NoteJob>): seq<LlmRequest> {
    match job
    case None => []
    case Some(j) => if j.path in files then [] else EnrichmentRequests(openAIKey, j.abstractText, j.htmlData)
  }

  /** The paths an extraction opens: the note's path whenever it leads to a note, new or existing. */
  function OpenedFor(job: Option<NoteJob>): seq<string> {
    match job
    case None => []
    case Some(j) => [j.path]
  }

  /**
   * The requests the keydown handler's route sends: the arXiv query, then
   * the HTML page once the feed has arrived; or the Semantic Scholar
   * lookup, if the URL is supported.
   */
  function RequestsFor(url: string, replies: Replies): seq<string> {
    match RouteFor(url)
    case ArxivApi => [ArxivQueryUrl(url)] + (if replies.arxivFeed.Some? then [ArxivHtmlUrl(url)] else [])
    case SemanticScholarApi => if SemanticScholarRequest(url).Some? then [SemanticScholarRequest(url).value] else []
  }

  /** Whether the route closes the dialog: once the feed has arrived, or once the lookup was sent. */
  predicate ClosesFor(url: string, replies: Replies) {
    match RouteFor(url)
    case ArxivApi => replies.arxivFeed.Some?
    case SemanticScholarApi => SemanticScholarRequest(url).Some?
  }

  /**
   * What one extraction amounts to: a note is written or opened only when
   * the dialog closes; every path opened names a file of the vault
   * afterwards; the model is asked at most twice, and only for a new note
   * with a key; nothing is sent at all exactly for an unsupported
   * Semantic Scholar URL, and that URL leaves the dialog open.
   */
  lemma ExtractionSpec(files: map<string, string>, openAIKey: string, url: string, replies: Replies,
                       fileNaming: string, folderLocation: string, sep: char, stopwords: set<string>)
    ensures var job := JobFor(url, replies, fileNaming, folderLocation, sep, stopwords);
      && (job.Some? ==> ClosesFor(url, replies))
      && (forall p :: p in OpenedFor(job) ==> p in FilesAfter(files, openAIKey, job, replies.tags, replies.futureWork))
      && |LlmRequestsFor(files, openAIKey, job)| <= 2
      && (LlmRequestsFor(files, openAIKey, job) != [] ==>
            job.Some? && job.value.path !in files && LlmEnabled(openAIKey))
      && (RequestsFor(url, replies) == [] <==>
            RouteFor(url) == SemanticScholarApi && SemanticScholarRequest(url).None?)
      && (RequestsFor(url, replies) == [] ==> !ClosesFor(url, replies) && job.None?)
  {
  }

  /** What the network and the model answer during one extraction. */
  datatype Replies = Replies(
    semanticScholar: Option<SemanticScholarResponse>,
    arxivFeed: Option<seq<XmlElement>>,
    arxivPage: Option<string>,
    tags: Completion,
    futureWork: Completion)

  // ---------------------------------------------------------------------
  // State: the vault and the dialog

  class Vault {
    /** Each file's path and contents. */
    var files: map<string, string>
    /** The paths opened in the workspace, in order. */
    var openedPaths: seq<string>

    constructor (initial: map<string, string>)
      ensures files == initial && openedPaths == []
    {
      files := initial;
      openedPaths := [];
    }

    /** `vault.create`: the caller has checked that the path is free. */
    method Create(path: string, content: string)
      requires path !in files
      modifies this
      ensures files == old(files)[path := content]
      ensures openedPaths == old(openedPaths)
    {
      files := files[path := content];
    }

    /** `workspace.openLinkText`. */
    method OpenLinkText(path: string)
      modifies this
      ensures openedPaths == old(openedPaths) + [path]
      ensures files == old(files)
    {
      openedPaths := openedPaths + [path];
    }
  }

  class UrlModal {
    const settings: Settings.PluginSettings
    const vault: Vault
    /** `path.sep`. */
    const pathSep: char
    /** The English stopword list. */
    const stopwords: set<string>

    /** The handler's one-shot flag; nothing ever resets it. */
    var extracting: bool
    /** The extractions started, by where they were sent. */
    var routed: seq<Source>
    /** The requests sent to arXiv and Semantic Scholar, in order. */
    var requests: seq<string>
    /** The requests sent to the language model, in order. */
    var llmRequests: seq<LlmRequest>
    /** Whether the dialog has closed itself. */
    var closed: bool

    /**
     * At most one extraction is ever started, the flag says whether it
     * was, and only an extraction closes the dialog.
     */
    ghost predicate Valid()
      reads this
    {
      && |routed| <= 1
      && (extracting <==> |routed| == 1)
      && (closed ==> extracting)
    }

    constructor (settings: Settings.PluginSettings, vault: Vault, pathSep: char, stopwords: set<string>)
      ensures Valid()
      ensures this.settings == settings && this.vault == vault
      ensures this.pathSep == pathSep && this.stopwords == stopwords
      ensures !extracting && routed == [] && requests == [] && llmRequests == [] && !closed
    {
      this.settings := settings;
      this.vault := vault;
      this.pathSep := pathSep;
      this.stopwords := stopwords;
      extracting := false;
      routed := [];
      requests := [];
      llmRequests := [];
      closed := false;
    }

    /** `generateTagsFromAbstract`. */
    method GenerateTagsFromAbstract(abstractText: string, reply: Completion) returns (tags: string)
      modifies this
      ensures tags == TagsText(settings.openAIKey, reply)
      ensures llmRequests == old(llmRequests) + (if LlmEnabled(settings.openAIKey) then [TagsRequest(abstractText)] else [])
      ensures extracting == old(extracting) && routed == old(routed)
      ensures requests == old(requests) && closed == old(closed)
    {
      if !LlmEnabled(settings.openAIKey) {
        return "";
      }
      llmRequests := llmRequests + [TagsRequest(abstractText)];
      tags := CompletionText(reply);
    }

    /** `extractFutureWork`. */
    method ExtractFutureWork(paper: string, reply: Completion) returns (futureWork: string)
      modifies this
      ensures futureWork == (if LlmEnabled(settings.openAIKey) then CompletionText(reply) else "")
      ensures llmRequests == old(llmRequests) + (if LlmEnabled(settings.openAIKey) then [FutureWorkRequest(paper)] else [])
      ensures extracting == old(extracting) && routed == old(routed)
      ensures requests == old(requests) && closed == old(closed)
    {
      if !LlmEnabled(settings.openAIKey) {
        return "";
      }
      llmRequests := llmRequests + [FutureWorkRequest(paper)];
      futureWork := CompletionText(reply);
    }

    /**
     * The enrichment steps of `generateNoteContent` for a new note: the tags
     * and, for a long enough page, the future work, each marked when long
     * enough.
     */
    method Enrich(job: NoteJob, tagsReply: Completion, futureWorkReply: Completion)
      returns (tags: string, futureWork: string)
      modifies this
      ensures tags == MarkTags(TagsText(settings.openAIKey, tagsReply))
      ensures futureWork == MarkFutureWork(FutureWorkText(settings.openAIKey, job.htmlData, futureWorkReply))
      ensures llmRequests == old(llmRequests) + EnrichmentRequests(settings.openAIKey, job.abstractText, job.htmlData)
      ensures extracting == old(extracting) && routed == old(routed)
      ensures requests == old(requests) && closed == old(closed)
    {
      ghost var key := settings.openAIKey;
      ghost var tagsAsked := if LlmEnabled(key) then [TagsRequest(job.abstractText)] else [];
      ghost var futureWorkAsked :=
        if LlmEnabled(key) && WantsFutureWork(job.htmlData) then [FutureWorkRequest(job.htmlData)] else [];
      tags := GenerateTagsFromAbstract(job.abstractText, tagsReply);
      if Utf16Length(tags) >= TAGS_MARK_THRESHOLD {
        tags := LLM_MARKER + " " + tags;
      }
      ghost var afterTags := llmRequests;
      futureWork := "";
      if Utf16Length(job.htmlData) > FUTURE_WORK_MIN_PAGE_LENGTH {
        futureWork := ExtractFutureWork(job.htmlData, futureWorkReply);
      }
      assert llmRequests == afterTags + futureWorkAsked;
      assert llmRequests == old(llmRequests) + (tagsAsked + futureWorkAsked);
      if Utf16Length(futureWork) >= FUTURE_WORK_MARK_THRESHOLD {
        futureWork := LLM_MARKER + " " + futureWork;
      }
    }

    /**
     * `generateNoteContent`: an existing file is only opened; otherwise the
     * model is asked for tags and, for a long enough page, future work, the
     * note is created and opened.
     */
    method GenerateNoteContent(job: NoteJob, tagsReply: Completion, futureWorkReply: Completion)
      modifies this, vault
      ensures vault.files == NoteFiles(old(vault.files), settings.openAIKey, job, tagsReply, futureWorkReply)
      ensures vault.openedPaths == old(vault.openedPaths) + [job.path]
      ensures llmRequests == old(llmRequests)
        + (if job.path in old(vault.files) then [] else EnrichmentRequests(settings.openAIKey, job.abstractText, job.htmlData))
      ensures extracting == old(extracting) && routed == old(routed)
      ensures requests == old(requests) && closed == old(closed)
    {
      if job.path in vault.files {
        vault.OpenLinkText(job.path);
        return;
      }
      var tags, futureWork := Enrich(job, tagsReply, futureWorkReply);
      vault.Create(job.path, RenderNote(job.title, job.authorString, job.url, job.venue,
                                        job.publicationDate, job.abstractText, tags, futureWork));
      vault.OpenLinkText(job.path);
    }

    /**
     * `extractFromSemanticScholar`: an unsupported URL sends nothing and
     * leaves the dialog open; otherwise the request is sent, the note is
     * written if the response allows it, and the dialog closes.
     */
    method ExtractFromSemanticScholar(url: string, replies: Replies)
      modifies this, vault
      ensures SemanticScholarRequest(url).None? ==>
        && requests == old(requests) && closed == old(closed)
        && vault.files == old(vault.files) && vault.openedPaths == old(vault.openedPaths)
        && llmRequests == old(llmRequests)
      ensures SemanticScholarRequest(url).Some? ==>
        && requests == old(requests) + [SemanticScholarRequest(url).value]
        && closed
      ensures vault.files == FilesAfter(old(vault.files), settings.openAIKey,
        SemanticScholarJob(url, replies.semanticScholar, settings.fileNaming, settings.folderLocation, pathSep, stopwords),
        replies.tags, replies.futureWork)
      ensures vault.openedPaths == old(vault.openedPaths) + OpenedFor(
        SemanticScholarJob(url, replies.semanticScholar, settings.fileNaming, settings.folderLocation, pathSep, stopwords))
      ensures llmRequests == old(llmRequests) + LlmRequestsFor(old(vault.files), settings.openAIKey,
        SemanticScholarJob(url, replies.semanticScholar, settings.fileNaming, settings.folderLocation, pathSep, stopwords))
      ensures extracting == old(extracting) && routed == old(routed)
    {
      var request := SemanticScholarRequest(url);
      if request.None? {
        return;
      }
      requests := requests + [request.value];
      if replies.semanticScholar.Some? {
        var parsed := ParseSemanticScholar(replies.semanticScholar.value);
        if parsed.Success? && parsed.value.url.Some? {
          var m := parsed.value;
          var filename := ExtractFileNameFromUrl(m.url.value, Some(m.title), settings.fileNaming, stopwords);
          var pathToFile := NotePath(settings.folderLocation, pathSep, filename);
          GenerateNoteContent(NoteJob(pathToFile, m.title, m.authorString, m.url.value, "", m.venue,
                                      m.publicationDate, m.abstractText),
                              replies.tags, replies.futureWork);
        }
      }
      closed := true;
    }

    /**
     * `extractFromArxiv`: the feed is requested; if it cannot be fetched
     * nothing else happens and the dialog stays open; otherwise the HTML
     * page is requested, the note is written and the dialog closes.
     */
    method ExtractFromArxiv(url: string, replies: Replies)
      modifies this, vault
      ensures replies.arxivFeed.None? ==>
        && requests == old(requests) + [ArxivQueryUrl(url)] && closed == old(closed)
        && vault.openedPaths == old(vault.openedPaths) && llmRequests == old(llmRequests)
      ensures replies.arxivFeed.Some? ==> requests == old(requests) + [ArxivQueryUrl(url), ArxivHtmlUrl(url)] && closed
      ensures vault.files == FilesAfter(old(vault.files), settings.openAIKey,
        ArxivJob(url, replies.arxivFeed, replies.arxivPage, settings.fileNaming, settings.folderLocation, pathSep, stopwords),
        replies.tags, replies.futureWork)
      ensures vault.openedPaths == old(vault.openedPaths) + OpenedFor(
        ArxivJob(url, replies.arxivFeed, replies.arxivPage, settings.fileNaming, settings.folderLocation, pathSep, stopwords))
      ensures llmRequests == old(llmRequests) + LlmRequestsFor(old(vault.files), settings.openAIKey,
        ArxivJob(url, replies.arxivFeed, replies.arxivPage, settings.fileNaming, settings.folderLocation, pathSep, stopwords))
      ensures extracting == old(extracting) && routed == old(routed)
    {
      requests := requests + [ArxivQueryUrl(url)];
      if replies.arxivFeed.None? {
        return;
      }
      var meta := ReadArxivFeed(replies.arxivFeed.value);
      var filename := ExtractFileNameFromUrl(url, Some(meta.title), settings.fileNaming, stopwords);
      var pathToFile := NotePath(settings.folderLocation, pathSep, filename);
      var venue := "";
      requests := requests + [ArxivHtmlUrl(url)];
      var htmlData := "";
      if replies.arxivPage.Some? {
        htmlData := replies.arxivPage.value;
      }
      var job := NoteJob(pathToFile, meta.title, meta.authorString, url, htmlData, venue,
                         meta.publicationDate, meta.abstractText);
      assert Some(job) == ArxivJob(url, replies.arxivFeed, replies.arxivPage, settings.fileNaming,
                                   settings.folderLocation, pathSep, stopwords);
      GenerateNoteContent(job, replies.tags, replies.futureWork);
      closed := true;
    }

    /** The handler's dispatch: `arxiv.org` URLs to the arXiv extractor, all others to Semantic Scholar. */
    method Extract(url: string, replies: Replies)
      modifies this, vault
      ensures vault.files == FilesAfter(old(vault.files), settings.openAIKey,
        JobFor(url, replies, settings.fileNaming, settings.folderLocation, pathSep, stopwords),
        replies.tags, replies.futureWork)
      ensures vault.openedPaths == old(vault.openedPaths)
        + OpenedFor(JobFor(url, replies, settings.fileNaming, settings.folderLocation, pathSep, stopwords))
      ensures llmRequests == old(llmRequests) + LlmRequestsFor(old(vault.files), settings.openAIKey,
        JobFor(url, replies, settings.fileNaming, settings.folderLocation, pathSep, stopwords))
      ensures requests == old(requests) + RequestsFor(url, replies)
      ensures closed == (old(closed) || ClosesFor(url, replies))
      ensures extracting == old(extracting) && routed == old(routed)
    {
      if RouteFor(url) == ArxivApi {
        ExtractFromArxiv(url, replies);
      } else {
        ExtractFromSemanticScholar(url, replies);
      }
    }

    /**
     * The dialog's keydown handler. Only Enter counts, and only the first
     * time: the input is trimmed and lower-cased, the flag is raised, and
     * the URL goes to arXiv if it mentions `arxiv.org`, else to Semantic
     * Scholar.
     */
    method OnKeydown(key: string, inputValue: string, replies: Replies)
      requires Valid()
      modifies this, vault
      ensures Valid()
      ensures key != "Enter" || old(extracting) ==>
        && extracting == old(extracting) && routed == old(routed) && requests == old(requests)
        && llmRequests == old(llmRequests) && closed == old(closed)
        && vault.files == old(vault.files) && vault.openedPaths == old(vault.openedPaths)
      ensures key == "Enter" && !old(extracting) ==>
        && extracting
        && routed == old(routed) + [RouteFor(NormalizeInput(inputValue))]
        && vault.files == FilesAfter(old(vault.files), settings.openAIKey,
             JobFor(NormalizeInput(inputValue), replies, settings.fileNaming, settings.folderLocation, pathSep, stopwords),
             replies.tags, replies.futureWork)
        && vault.openedPaths == old(vault.openedPaths) + OpenedFor(
             JobFor(NormalizeInput(inputValue), replies, settings.fileNaming, settings.folderLocation, pathSep, stopwords))
        && llmRequests == old(llmRequests) + LlmRequestsFor(old(vault.files), settings.openAIKey,
             JobFor(NormalizeInput(inputValue), replies, settings.fileNaming, settings.folderLocation, pathSep, stopwords))
        && requests == old(requests) + RequestsFor(NormalizeInput(inputValue), replies)
        && closed == (old(closed) || ClosesFor(NormalizeInput(inputValue), replies))
      ensures key == "Enter" && !old(extracting) && RouteFor(NormalizeInput(inputValue)) == SemanticScholarApi
              && SemanticScholarPrefix(NormalizeInput(inputValue)).None? ==>
        requests == old(requests) && !closed && vault.files == old(vault.files)
    {
      if key != "Enter" {
        return;
      }
      var url := NormalizeInput(inputValue);
      if !extracting {
        ghost var files := vault.files;
        ghost var job := JobFor(url, replies, settings.fileNaming, settings.folderLocation, pathSep, stopwords);
        extracting := true;
        routed := routed + [RouteFor(url)];
        Extract(url, replies);
        assert vault.files == FilesAfter(files, settings.openAIKey, job, replies.tags, replies.futureWork);
        assert llmRequests == old(llmRequests) + LlmRequestsFor(files, settings.openAIKey, job);
      }
    }
  }
}
