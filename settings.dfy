/**
 * The plugin's settings and the settings tab: the five stored fields with
 * their defaults, the setters the tab's controls call, the folder dropdown
 * built from the paths of the vault's files, and the naming dropdown.
 */
module Settings {
  import opened Wrappers
  import opened JsString
  import opened Sequences
  import Naming

  const DEFAULT_FOLDER_LOCATION: string := ""
  const DEFAULT_FILE_NAMING: string := "identifier"
  const DEFAULT_OPENAI_KEY: string := "N/A"
  const DEFAULT_OPENAI_MODEL: string := "gpt-4o-mini"
  const DEFAULT_OPENAI_ENDPOINT: string := "https://api.openai.com/v1/chat/completions"

  /** The label of the vault's root in the folder dropdown. */
  const ROOT_FOLDER_LABEL: string := "(root of the vault)"

  /** The default naming policy is the first one offered. */
  lemma DefaultFileNamingOffered()
    ensures DEFAULT_FILE_NAMING == Naming.NAMING_TYPES[0]
  {
  }

  /** What `loadData` gives back: each field if it was stored. */
  datatype StoredSettings = StoredSettings(
    folderLocation: Option<string>,
    fileNaming: Option<string>,
    openAIKey: Option<string>,
    openAIModel: Option<string>,
    openAIEndpoint: Option<string>)

  class PluginSettings {
    var folderLocation: string
    var fileNaming: string
    var openAIKey: string
    var openAIModel: string
    var openAIEndpoint: string

    /** `DEFAULT_SETTINGS`. */
    constructor Defaults()
      ensures folderLocation == DEFAULT_FOLDER_LOCATION && fileNaming == DEFAULT_FILE_NAMING
      ensures openAIKey == DEFAULT_OPENAI_KEY && openAIModel == DEFAULT_OPENAI_MODEL
      ensures openAIEndpoint == DEFAULT_OPENAI_ENDPOINT
    {
      folderLocation := DEFAULT_FOLDER_LOCATION;
      fileNaming := DEFAULT_FILE_NAMING;
      openAIKey := DEFAULT_OPENAI_KEY;
      openAIModel := DEFAULT_OPENAI_MODEL;
      openAIEndpoint := DEFAULT_OPENAI_ENDPOINT;
    }

    /** `loadSettings`: the defaults, with every stored field taking precedence. */
    constructor Load(stored: StoredSettings)
      ensures folderLocation == stored.folderLocation.GetOr(DEFAULT_FOLDER_LOCATION)
      ensures fileNaming == stored.fileNaming.GetOr(DEFAULT_FILE_NAMING)
      ensures openAIKey == stored.openAIKey.GetOr(DEFAULT_OPENAI_KEY)
      ensures openAIModel == stored.openAIModel.GetOr(DEFAULT_OPENAI_MODEL)
      ensures openAIEndpoint == stored.openAIEndpoint.GetOr(DEFAULT_OPENAI_ENDPOINT)
    {
      folderLocation := DEFAULT_FOLDER_LOCATION;
      fileNaming := DEFAULT_FILE_NAMING;
      openAIKey := DEFAULT_OPENAI_KEY;
      openAIModel := DEFAULT_OPENAI_MODEL;
      openAIEndpoint := DEFAULT_OPENAI_ENDPOINT;
      if stored.folderLocation.Some? {
        folderLocation := stored.folderLocation.value;
      }
      if stored.fileNaming.Some? {
        fileNaming := stored.fileNaming.value;
      }
      if stored.openAIKey.Some? {
        openAIKey := stored.openAIKey.value;
      }
      if stored.openAIModel.Some? {
        openAIModel := stored.openAIModel.value;
      }
      if stored.openAIEndpoint.Some? {
        openAIEndpoint := stored.openAIEndpoint.value;
      }
    }

    /** The folder dropdown's `onChange`. */
    method SetFolderLocation(value: string)
      modifies this
      ensures folderLocation == value
      ensures fileNaming == old(fileNaming) && openAIKey == old(openAIKey)
      ensures openAIModel == old(openAIModel) && openAIEndpoint == old(openAIEndpoint)
    {
      folderLocation := value;
    }

    /** The naming dropdown's `onChange`. */
    method SetFileNaming(value: string)
      modifies this
      ensures fileNaming == value
      ensures folderLocation == old(folderLocation) && openAIKey == old(openAIKey)
      ensures openAIModel == old(openAIModel) && openAIEndpoint == old(openAIEndpoint)
    {
      fileNaming := value;
    }

    /** The key field's `onChange`. */
    method SetOpenAIKey(value: string)
      modifies this
      ensures openAIKey == value
      ensures folderLocation == old(folderLocation) && fileNaming == old(fileNaming)
      ensures openAIModel == old(openAIModel) && openAIEndpoint == old(openAIEndpoint)
    {
      openAIKey := value;
    }

    /** The model field's `onChange`. */
    method SetOpenAIModel(value: string)
      modifies this
      ensures openAIModel == value
      ensures folderLocation == old(folderLocation) && fileNaming == old(fileNaming)
      ensures openAIKey == old(openAIKey) && openAIEndpoint == old(openAIEndpoint)
    {
      openAIModel := value;
    }

    /** The endpoint field's `onChange`. */
    method SetOpenAIEndpoint(value: string)
      modifies this
      ensures openAIEndpoint == value
      ensures folderLocation == old(folderLocation) && fileNaming == old(fileNaming)
      ensures openAIKey == old(openAIKey) && openAIModel == old(openAIModel)
    {
      openAIEndpoint := value;
    }
  }

  // ---------------------------------------------------------------------
  // The folder dropdown

  /** `f` names a folder on the way to `path`: a proper prefix followed by a separator. */
  predicate IsFolderOf(f: string, path: string, sep: char) {
    |f| < |path| && path[..|f|] == f && path[|f|] == sep
  }

  /**
   * The folders of one file: `parts.slice(0, i + 1).join(sep)` for every
   * directory part, the file's own name having been popped off.
   */
  function DirectoryPrefixes(path: string, sep: char): seq<string> {
    var parts := Split(path, sep);
    var dirs := parts[..|parts| - 1];
    seq(|dirs|, k requires 0 <= k < |dirs| => Join(dirs[..k + 1], [sep]))
  }

  /** The loop of the `map` callback, pushing one prefix per directory part. */
  method FolderPrefixes(path: string, sep: char) returns (res: seq<string>)
    ensures res == DirectoryPrefixes(path, sep)
  {
    var parts := Split(path, sep);
    parts := parts[..|parts| - 1];
    res := [];
    for i := 0 to |parts|
      invariant |res| == i
      invariant forall k :: 0 <= k < i ==> res[k] == Join(parts[..k + 1], [sep])
    {
      res := res + [Join(parts[..i + 1], [sep])];
    }
  }

  /** Every prefix listed for a file is one of its folders. */
  lemma DirectoryPrefixesSound(path: string, sep: char)
    ensures forall f :: f in DirectoryPrefixes(path, sep) ==> IsFolderOf(f, path, sep)
  {
    var parts := Split(path, sep);
    var r := DirectoryPrefixes(path, sep);
    forall f | f in r ensures IsFolderOf(f, path, sep) {
      var k :| 0 <= k < |r| && r[k] == f;
      var head, tail := parts[..k + 1], parts[k + 1..];
      assert parts[..|parts| - 1][..k + 1] == head;
      assert parts == head + tail;
      JoinSplit(path, sep);
      JoinAppend(head, tail, [sep]);
      assert path == f + [sep] + Join(tail, [sep]);
      assert path[..|f|] == f;
    }
  }

  /** Every folder of a file is listed for it. */
  lemma DirectoryPrefixesComplete(path: string, sep: char, f: string)
    requires IsFolderOf(f, path, sep)
    ensures f in DirectoryPrefixes(path, sep)
  {
    var j := |f|;
    var rest := path[j + 1..];
    assert path == f + [sep] + rest;
    SplitConcat(f, rest, sep);
    var parts := Split(path, sep);
    var fs := Split(f, sep);
    var m := |fs|;
    assert parts == fs + Split(rest, sep);
    assert parts[..m] == fs;
    JoinSplit(f, sep);
    var dirs := parts[..|parts| - 1];
    assert dirs[..m] == fs;
    assert DirectoryPrefixes(path, sep)[m - 1] == f;
  }

  /** The folders of every file in turn: `.map(...).flat()`. */
  function AllPrefixes(paths: seq<string>, sep: char): seq<string> {
    if paths == [] then []
    else AllPrefixes(paths[..|paths| - 1], sep) + DirectoryPrefixes(paths[|paths| - 1], sep)
  }

  lemma {:induction false} AllPrefixesMembers(paths: seq<string>, sep: char)
    ensures forall f :: f in AllPrefixes(paths, sep) ==>
      exists i :: 0 <= i < |paths| && f in DirectoryPrefixes(paths[i], sep)
    ensures forall f, i :: 0 <= i < |paths| && f in DirectoryPrefixes(paths[i], sep) ==>
      f in AllPrefixes(paths, sep)
  {
    if paths != [] {
      var init := paths[..|paths| - 1];
      AllPrefixesMembers(init, sep);
      forall f | f in AllPrefixes(paths, sep)
        ensures exists i :: 0 <= i < |paths| && f in DirectoryPrefixes(paths[i], sep)
      {
        if f in AllPrefixes(init, sep) {
          var i :| 0 <= i < |init| && f in DirectoryPrefixes(init[i], sep);
          assert paths[i] == init[i];
        } else {
          assert f in DirectoryPrefixes(paths[|paths| - 1], sep);
        }
      }
      forall f, i | 0 <= i < |paths| && f in DirectoryPrefixes(paths[i], sep)
        ensures f in AllPrefixes(paths, sep)
      {
        if i < |init| {
          assert paths[i] == init[i];
          assert f in AllPrefixes(init, sep);
        }
      }
    }
  }

  /** The folder dropdown's own list, before the root is added. */
  function FolderList(paths: seq<string>, sep: char): seq<string> {
    Dedupe(AllPrefixes(paths, sep))
  }

  /**
   * The folders offered are exactly the folders of the vault's files, each
   * once, in the order in which they first turn up; no file path is offered
   * as a folder of itself.
   */
  lemma FolderListSpec(paths: seq<string>, sep: char)
    ensures var folders := FolderList(paths, sep);
      && NoDuplicates(folders)
      && (forall f :: f in folders ==> exists i :: 0 <= i < |paths| && IsFolderOf(f, paths[i], sep))
      && (forall f, i :: 0 <= i < |paths| && IsFolderOf(f, paths[i], sep) ==> f in folders)
      && SubsequenceOf(folders, AllPrefixes(paths, sep))
      && InFirstOccurrenceOrder(folders, AllPrefixes(paths, sep))
  {
    var all := AllPrefixes(paths, sep);
    DedupeSpec(all);
    AllPrefixesMembers(paths, sep);
    forall f | f in FolderList(paths, sep) ensures exists i :: 0 <= i < |paths| && IsFolderOf(f, paths[i], sep) {
      var i :| 0 <= i < |paths| && f in DirectoryPrefixes(paths[i], sep);
      DirectoryPrefixesSound(paths[i], sep);
    }
    forall f, i | 0 <= i < |paths| && IsFolderOf(f, paths[i], sep) ensures f in FolderList(paths, sep) {
      DirectoryPrefixesComplete(paths[i], sep, f);
    }
  }

  /**
   * The settings tab's folder enumeration: every file's folders, flattened
   * and de-duplicated, then the dropdown's options, each folder labelled by
   * itself and the root `""` labelled as the vault's root.
   */
  method EnumerateFolders(paths: seq<string>, sep: char) returns (folders: seq<string>, folderOptions: map<string, string>)
    ensures folders == FolderList(paths, sep)
    ensures forall k :: k in folderOptions <==> k in folders || k == ""
    ensures forall k :: k in folders && k != "" ==> folderOptions[k] == k
    ensures folderOptions[""] == ROOT_FOLDER_LABEL
  {
    var all: seq<string> := [];
    for i := 0 to |paths|
      invariant all == AllPrefixes(paths[..i], sep)
    {
      var res := FolderPrefixes(paths[i], sep);
      assert paths[..i + 1][..i] == paths[..i];
      all := all + res;
    }
    assert paths[..|paths|] == paths;
    folders := Dedupe(all);
    folderOptions := map[];
    for i := 0 to |folders|
      invariant forall k :: k in folderOptions <==> k in folders[..i]
      invariant forall k :: k in folderOptions ==> folderOptions[k] == k
    {
      folderOptions := folderOptions[folders[i] := folders[i]];
      assert folders[..i + 1] == folders[..i] + [folders[i]];
    }
    assert folders[..|folders|] == folders;
    folderOptions := folderOptions[DEFAULT_FOLDER_LOCATION := ROOT_FOLDER_LABEL];
  }

  /** The naming dropdown: every offered policy labelled by itself. */
  method NamingOptions() returns (namingOptions: map<string, string>)
    ensures forall k :: k in namingOptions <==> k in Naming.NAMING_TYPES
    ensures forall k :: k in namingOptions ==> namingOptions[k] == k
  {
    namingOptions := map[];
    var types := Naming.NAMING_TYPES;
    for i := 0 to |types|
      invariant forall k :: k in namingOptions <==> k in types[..i]
      invariant forall k :: k in namingOptions ==> namingOptions[k] == k
    {
      namingOptions := namingOptions[types[i] := types[i]];
      assert types[..i + 1] == types[..i] + [types[i]];
    }
    assert types[..|types|] == types;
  }
}
