# Paper Note Filler — a Dafny model

Paper Note Filler is an Obsidian plugin. It turns the URL of a scientific paper into a note in the vault. The user types an arXiv, ACL Anthology or Semantic Scholar-indexed URL into a dialog. The plugin then does the following:
- it fetches the paper's metadata from the arXiv API or from the Semantic Scholar graph API;
- it derives a file name from the paper's identifier or from the first terms of its title;
- when an OpenAI key is configured, it asks a language model for tags and for the paper's future work;
- it writes a note with eight fixed sections: Title, Authors, URL, Venue, Publication date, Abstract, Tags and Notes.

The whole plugin lives in `main.ts`. This project models its logic in Dafny and proves what that logic promises.

Modules:

- `Wrappers`: `Option` and `Result`.
- `JsString`: the JavaScript string operations the plugin relies on. It covers:
  - `\s` and `trim` white space, `replace(/\s+/g, " ")`, `split` and `join` on one character, `includes`, a first-occurrence `replace`, `endsWith` and `startsWith`;
  - `toLowerCase` for ASCII;
  - `.length` counted in UTF-16 code units.

  Each operation has lemmas: split and join are inverses, trimming keeps every non-white-space character, and so on.
- `Sequences`: subsequences and `filter((x, i, self) => self.indexOf(x) === i)`. The latter is `Dedupe`, proved to keep first occurrences in order.
- `Naming`: `NAMING_TYPES`, `getIdentifierFromUrl` and `extractFileNameFromUrl`. The file name is one of:
  - the identifier;
  - title terms, with stopwords dropped if asked, then sliced, joined and stripped to `[a-zA-Z0-9 ]`.
- `NoteBody`: `trimString`, the 💻 marker put in front of long language-model answers, and the note layout written by `generateNoteContent`.
- `Metadata`: `parseMetadataFromSemanticScholar` over a JSON reply modelled as a datatype, and the field selection `extractFromArxiv` performs on the parsed XML feed.
- `Routing`: input normalisation (`trim().toLowerCase()`), the choice between the two extractors, the Semantic Scholar request and the arXiv query and HTML-page URLs.
- `Settings`: the settings record as a class, covering:
  - the defaults and `loadSettings`' merge of stored values over them;
  - the five setting setters;
  - the folder dropdown built from the vault's file paths;
  - the naming dropdown.
- `Modal`: the URL dialog as a class. It holds:
  - the keydown handler's one-shot `extracting` flag;
  - the requests sent to arXiv, Semantic Scholar and the language model;
  - whether the dialog closed itself;
  - a `Vault` class for the file map and the notes opened.

  The two extractors and `generateNoteContent` are methods whose contracts give the new vault contents as a function (`FilesAfter`, `NoteFiles`) of the old contents and of the replies the network and the model gave.

Network replies, model completions, parsed XML and JSON, `path.sep` and the stopword list are parameters. The replies arrive in a `Replies` value, one per extraction.

Behaviours of the code worth knowing:

- An empty file name is not replaced by the identifier. A title-based policy and a title with no letter, digit or space give the note `<folder><sep>.md` (`Modal.EmptyNoteName`).
- A bare Semantic Scholar URL or id is not supported. Only URLs mentioning `arxiv` or `aclanthology` get a prefix; any other URL is rejected before a request is sent (`Routing.SemanticScholarRequestSpec`).
- No cross-reference URL from `externalIds` is appended to the note's URL.
- On the Semantic Scholar path, the note's URL and its file name both come from the `url` field of the reply, not from the URL typed in. A reply without `url` makes `getIdentifierFromUrl` throw, and no note is written (`Modal.SemanticScholarJobSpec`).
- The venue is `` `${venue} ${year}` `` whenever the venue is truthy, with no check that a year exists. A missing year gives `"<venue> undefined"` (`Metadata.VenueStringSpec`).
- Characters are stripped after the terms are sliced. A title whose first terms are all punctuation therefore gives fewer or no words.
- After an unsupported URL, or an arXiv feed that could not be fetched, the dialog stays open. Its `extracting` flag stays set, so pressing Enter again does nothing (`Modal.UrlModal.OnKeydown`).
- The folder list splits paths at `path.sep`, the platform's separator, while vault paths always use `/`. The separator is a parameter of the model.

## Model

| member | source | states |
|---|---|---|
| Naming.GetIdentifierFromUrl | main.ts:152-157 | the identifier never holds a `/` |
| Naming.IdentifierIsLastSegment | main.ts:152-157 | the identifier holds no `/` and ends the URL less one trailing `/`, preceded there by a `/` unless it is the whole of it |
| Naming.IdentifierIgnoresTrailingSlash | main.ts:154-155 | one trailing `/` does not change the identifier |
| Naming.IdentifierAfterDoubleSlash | main.ts:152-157 | a URL ending in `//` has the empty identifier |
| Naming.FilterTermsOrder | main.ts:246-251 | the kept title terms are a subsequence of the words, in order |
| Naming.FilterTermsKept | main.ts:246-251 | every kept word passes the filter (its lower-cased form is not a stopword, or the policy does not name `no-stopwords`), and every word that passes is kept as often as it occurs |
| Naming.FilterTermsKeepsAll | main.ts:246-251 | a policy without `no-stopwords` keeps every word |
| Naming.TitleTermsSpec | main.ts:232-252 | the filtered terms are a subsequence of the title's space-separated words keeping every occurrence of each term that passes; the kept terms are the first `min(n, count)` filtered terms under a `first-n` policy and all of them otherwise; none holds a space, none is a stopword when the policy drops them, and they are a prefix of the words (all of them under a policy naming no count) when it keeps them |
| Naming.StripAppend | main.ts:254 | stripping distributes over concatenation |
| Naming.StripSpec | main.ts:254 | every character left is a letter, digit or space taken from the input |
| Naming.StripCounts | main.ts:254 | every letter, digit and space of the input survives, as often as it occurs |
| Naming.StripJoin | main.ts:253-254 | stripping a space-joined list is joining the stripped words |
| Naming.FileNameCharset | main.ts:230-256 | under a title policy the file name holds only `[a-zA-Z0-9 ]` |
| Naming.FileNameFromIdentifier | main.ts:228-231 | under the `identifier` policy, or with no title, the file name is the URL's identifier |
| Naming.FileNameTerms | main.ts:244-254 | under a title policy the file name's space-separated words are the selected title terms, each stripped; it is empty when no term is selected and has at most 3 or 5 words under those policies |
| Naming.AllTitleTermsFileName | main.ts:232-254 | under `all-title-terms` the file name is the stripped title |
| Naming.TitleWithoutFileNameChars | main.ts:244-254 | a title with no letter, digit or space gives the empty file name |
| Naming.NamingTypeFirst3 | main.ts:23 | `first-3-title-terms` slices 3 terms and keeps stopwords |
| Naming.NamingTypeFirst3NoStopwords | main.ts:24 | `first-3-title-terms-no-stopwords` slices 3 terms and drops stopwords |
| Naming.NamingTypeFirst5 | main.ts:25 | `first-5-title-terms` slices 5 terms and keeps stopwords |
| Naming.NamingTypeFirst5NoStopwords | main.ts:26 | `first-5-title-terms-no-stopwords` slices 5 terms and drops stopwords |
| Naming.NamingTypeAllTerms | main.ts:27 | `all-title-terms` keeps every term and every stopword |
| Naming.ReadsFirst3 | main.ts:233-236 | a policy starting with `first-3-title-terms` slices 3 terms |
| Naming.ReadsFirst5 | main.ts:237-240 | a policy starting with `first-5-title-terms` and holding no `3` slices 5 terms |
| Naming.ReadsAllTerms | main.ts:232-242 | a policy holding neither `3` nor `5` keeps all terms |
| Naming.ReadsNoStopwords | main.ts:247-250 | a policy ending in `no-stopwords` drops stopwords |
| Naming.ReadsKeepStopwords | main.ts:247-250 | a policy holding no `p`, so not `no-stopwords`, keeps them |
| NoteBody.TrimStringSpec | main.ts:83-87 | `null` gives `""`; the result has single spaces only, no white space at either end, no line break, and every non-white-space character of the input in order |
| NoteBody.TrimStringWords | main.ts:83-87 | words separated by runs of white space and surrounded by white space come out as the words joined by single spaces |
| NoteBody.TrimStringIdempotent | main.ts:83-87 | applying `trimString` twice changes nothing more |
| NoteBody.TrimStringOfTidy | main.ts:86 | a string already tidy is left as it is |
| NoteBody.TrimOfCollapsedIsTidy | main.ts:86 | trimming a collapsed string leaves it tidy |
| NoteBody.TidyHasNoLineBreak | main.ts:86 | a tidy string holds no line break |
| NoteBody.MarkSpec | main.ts:277-288 | text is marked exactly when its UTF-16 length reaches the threshold, and marking adds exactly three code units |
| NoteBody.UnmarkMark | main.ts:277-288 | the mark can be taken off again: the raw answer is recovered |
| NoteBody.EmptyIsNotMarked | main.ts:277-288 | an empty answer is never marked, for tags or for future work |
| NoteBody.SplitSection | main.ts:293-320 | a section splits into its heading, its content and an empty line |
| NoteBody.SplitNotesSection | main.ts:321-323 | the Notes section splits into its heading and the `- ` item |
| NoteBody.LayoutLines | main.ts:291-324 | read line by line, the note is the seven headings, each with its content line and an empty line, then `# Notes` and the item |
| NoteBody.RenderNoteLines | main.ts:291-324 | the rendered note's lines give back every trimmed field, the URL and the tags exactly, whenever the URL and tags hold no line break |
| NoteBody.LayoutEnd | main.ts:317-323 | the note ends with the Tags section and the Notes item, both verbatim |
| NoteBody.RenderNoteEnd | main.ts:317-323 | the rendered note ends with `# Tags`, the tags, `# Notes` and `- ` plus the future work |
| NoteBody.RenderNoteEmptyNotes | main.ts:281-323 | with no future work the note ends in an empty `- ` item |
| Metadata.AuthorNames | main.ts:337 | one name per author, in order |
| Metadata.ParseSemanticScholarOutcome | main.ts:328-343 | the parse fails exactly on an `error` field or a missing author list; otherwise title defaults to `"undefined"`, abstract and date to `""`, the author string is the reply's author names joined by `, `, the venue is the reply's venue and year, and the URL is the reply's `url` when that is a string and absent otherwise |
| Metadata.AuthorStringLayout | main.ts:337 | the author string holds each author's name at its offset, in order, with `, ` after every name but the last and nothing else |
| Metadata.AuthorStringSpec | main.ts:337 | the author string is empty for no authors, the name alone for one, and contains every author's name |
| Metadata.VenueStringSpec | main.ts:338 | the venue is empty exactly when the venue field is falsy; otherwise it is the venue, a space and the year as interpolated |
| Metadata.ElementsNamedSpec | main.ts:386-391 | `getElementsByTagName` returns a subsequence of the document holding every element with that tag as often as it occurs and no other element |
| Metadata.ElementsNamedAppend | main.ts:386-391 | the elements of two concatenated documents are those of each, in order |
| Metadata.AuthorElementNames | main.ts:388-390 | one name per author element, in order |
| Metadata.ArxivTitleSpec | main.ts:386 | the title is the second `title` element's text, or `"undefined"` when it is missing or empty; never empty |
| Metadata.ArxivTitleOfEntry | main.ts:386 | in a feed whose first `title` belongs to the feed, the paper's title is that of the entry |
| Metadata.ArxivAbstractSpec | main.ts:387 | the abstract is the first `summary` element's text, or `""` when there is none |
| Metadata.ArxivPublicationDateSpec | main.ts:391 | the date is the first `published` text up to its first `T`, `""` when missing, and holds no `T` |
| Metadata.ArxivPublicationDateExample | main.ts:391 | `2017-06-12T17:57:34Z` gives `2017-06-12` |
| Metadata.ArxivAuthorsLayout | main.ts:388-390 | the author string holds, in document order, each `author` element's first `name` text or `""` when it has none, at its offset, with `, ` after every entry but the last and nothing else |
| Metadata.ArxivAuthorsSpec | main.ts:388-390 | the author string is empty without authors and contains every author's first name text |
| Routing.NormalizeInputSpec | main.ts:451 | the normalised input has no white space at either end and no upper-case ASCII letter, and normalising is idempotent |
| Routing.NormalizedIncludes | main.ts:451 | a pattern without white space occurs in the trimmed, lower-cased input exactly when it occurs in the raw input up to the case of ASCII letters |
| Routing.RouteForInput | main.ts:451-467 | a typed input goes to arXiv exactly when it spells `arxiv.org` in any letter case, and to Semantic Scholar exactly when it does not |
| Routing.SemanticScholarRequestSpec | main.ts:346-357 | a request exists exactly when the URL contains `arxiv` or `aclanthology`; the prefix is `arXiv:` when it contains `arxiv` and `ACL:` otherwise; for a URL without `?`, splitting the request at `?` gives the API address, prefix and identifier, and the field list |
| Routing.AclAnthologyRequest | main.ts:346-357 | an ACL Anthology URL is looked up under `ACL:` and its identifier |
| Routing.ArxivHtmlUrlSpec | main.ts:398 | the HTML URL replaces the first `/abs/` with `/html/` and appends `v1`, or only appends `v1` |
| Routing.ArxivAbsToHtml | main.ts:398 | an arXiv abstract page maps to the HTML page of the paper's first version |
| Sequences.DedupeSpec | main.ts:510 | the de-duplicated list has no duplicates, the same members, and keeps the first occurrences in order |
| JsString.JoinSplit | main.ts:244-253 | joining the pieces of a split gives back the string |
| JsString.SplitJoin | main.ts:244-253 | splitting a join of separator-free pieces gives back the pieces |
| JsString.TrimKeepsNonWhitespace | main.ts:86 | trimming drops only white space |
| JsString.CollapseWhitespaceShape | main.ts:86 | collapsing leaves single spaces only and keeps every non-white-space character in order |
| JsString.CollapseRun | main.ts:86 | an inner run of white space between two non-white-space characters becomes exactly one space, and the text on either side is collapsed on its own |
| JsString.CollapseWords | main.ts:86 | words separated by runs of white space collapse to the words joined by single spaces |
| JsString.JoinLayout | main.ts:337 | `join` places each part at its offset, in order, with the separator between consecutive parts and nothing else |
| JsString.ToLowerCaseSpec | main.ts:451 | lower-casing keeps the length and maps each character on its own |
| JsString.Utf16LengthBounds | main.ts:277 | the UTF-16 length lies between the number of code points and twice that |
| Settings.DefaultFileNamingOffered | main.ts:30-36 | the default naming policy is the first of the naming types |
| Settings.PluginSettings.Defaults | main.ts:30-36 | the settings hold the five default values |
| Settings.PluginSettings.Load | main.ts:116-122 | every stored value overrides its default, and every missing one keeps it |
| Settings.PluginSettings.SetFolderLocation | main.ts:529-532 | the folder is set and the other four settings are unchanged |
| Settings.PluginSettings.SetFileNaming | main.ts:548-551 | the naming policy is set and the other four settings are unchanged |
| Settings.PluginSettings.SetOpenAIKey | main.ts:560-564 | the key is set and the other four settings are unchanged |
| Settings.PluginSettings.SetOpenAIModel | main.ts:573-577 | the model is set and the other four settings are unchanged |
| Settings.PluginSettings.SetOpenAIEndpoint | main.ts:586-590 | the endpoint is set and the other four settings are unchanged |
| Settings.FolderPrefixes | main.ts:498-506 | the loop collects the directory prefixes of one path |
| Settings.DirectoryPrefixesSound | main.ts:498-506 | each prefix is a folder containing the file |
| Settings.DirectoryPrefixesComplete | main.ts:498-506 | each folder containing the file is a prefix |
| Settings.FolderListSpec | main.ts:495-510 | the folder list has no duplicates and holds exactly the folders of the vault's files, in order of first appearance |
| Settings.EnumerateFolders | main.ts:495-518 | the options hold every folder mapped to itself, and `""` mapped to the root label |
| Settings.NamingOptions | main.ts:535-538 | the options are the six naming types, each mapped to itself |
| Modal.EnrichmentRequestsSpec | main.ts:187-224 | tags are requested exactly when a key is set; future work exactly when a key is set and the page text is longer than 50; nothing without a key |
| Modal.NoteFilesSpec | main.ts:269-324 | an existing note is left as it is; otherwise exactly the new path is added, with the rendered content, and every other file is kept |
| Modal.NoteWithoutKey | main.ts:187-224 | without a key the model is never asked and the note ends with empty Tags and Notes sections |
| Modal.NoFutureWorkForShortPage | main.ts:281-288 | a page text of 50 code units or fewer is not sent, and the Notes item is empty |
| Modal.SemanticScholarJobSpec | main.ts:345-364 | a note is made only for a supported URL and a reply that parses and has a `url`; it has no page text, takes its URL from the reply and is named after it; the URL typed in plays no further part |
| Modal.ArxivJobSpec | main.ts:374-420 | a note is made exactly when the feed is read; it keeps the typed URL, has no venue, the feed's title, the page text or `""`, and under `identifier` the identifier's path |
| Modal.EmptyNoteName | main.ts:393-394 | a title with no file-name character under a title policy gives `<folder><sep>.md` |
| Modal.Vault.Create | main.ts:291-324 | the file is added and nothing else changes |
| Modal.Vault.OpenLinkText | main.ts:272 | the path is recorded as opened and the files are unchanged |
| Modal.UrlModal.constructor | main.ts:132-135 | a dialog with nothing started, sent or closed |
| Modal.UrlModal.GenerateTagsFromAbstract | main.ts:208-224 | the tags are the completion or `""`; the model is asked only when a key is set |
| Modal.UrlModal.ExtractFutureWork | main.ts:194-206 | the future work is the completion or `""`; the model is asked only when a key is set |
| Modal.UrlModal.Enrich | main.ts:276-288 | the tags are the completion or `""`, marked when 3 code units or longer; the future work is asked for only for a page text longer than 50 and marked when 10 code units or longer; the model requests are exactly those `EnrichmentRequests` lists |
| Modal.UrlModal.GenerateNoteContent | main.ts:259-326 | the vault gains the rendered note unless the path exists; the path is opened either way; the model is asked only for a new note |
| Modal.UrlModal.ExtractFromSemanticScholar | main.ts:345-372 | an unsupported URL sends nothing and changes nothing; otherwise the request is sent and the dialog closes; in every case the vault gets the reply's note if there is one, that note's path is opened, and the model is asked only for a new note |
| Modal.UrlModal.ExtractFromArxiv | main.ts:374-427 | the query is always sent; a failed feed changes nothing else and leaves the dialog open; otherwise the HTML page is requested, the note is written and opened, the model is asked only for a new note, and the dialog closes |
| Modal.ExtractionSpec | main.ts:345-427 | a note is written or opened only when the dialog closes; every opened path is a file afterwards; the model is asked at most twice and only for a new note with a key; nothing is sent exactly for an unsupported Semantic Scholar URL, which leaves the dialog open |
| Modal.UrlModal.Extract | main.ts:460-467 | the route's requests are sent, the dialog closes when the route says so, and the vault, the opened paths and the model requests follow that route's note |
| Modal.UrlModal.OnKeydown | main.ts:445-469 | only the first Enter starts an extraction, of the normalised input, on the route it names, with that route's requests, closing, note, opened path and model requests; any other key or a later Enter changes nothing |

## Left out

- Notices, the dialog's text and input elements, and `onClose` are not modelled; they only display text.
- `fetchOpenAICompletion` (main.ts:160-185), the prompts and the vault's tag list: the completion is a parameter of type `Completion`, where `Failed` stands for every error the `.catch` turns into `""`.
- `fetch`, `requestUrl`, `JSON.parse`, `DOMParser` and `TextDecoder` are not modelled. Their results are parameters, so the JSON reply and the parsed XML are datatypes. A JSON field of a type other than string, null or absent is not modelled.
- Asynchrony is not modelled: each extraction runs to completion inside one call, in the order the promises chain. The unawaited `generateNoteContent` runs before the dialog closes, and a race between the existence check and `vault.create` is not modelled.
- `saveSettings` and `loadData` persistence: stored data are a parameter of `Settings.PluginSettings.Load`.
- The stopword list and `path.sep` are parameters.
- `JsString.ToLowerCase`: only ASCII upper-case letters are lowered; JavaScript's full Unicode case mapping is not modelled.
- `DEBUG` logging and `console` output are not modelled.
- The order of keys in a JavaScript object is not modelled; dropdown options are maps.
- Errors thrown inside the Semantic Scholar chain (an API error, a missing author list, a missing `url`) are modelled only as "no note".
