/** What both versions of the translator share: the error kinds, the view of
    the filesystem and of the PO reader, the splitting of a dotted key, and
    the key lookup inside one catalog (`_get_key`, identical in both). */
module Koopa {
  import opened Strings

  /** The library's exceptions, each with its message, plus the failure of
      the PO reader on a path it cannot open or parse. */
  datatype Error =
    | DirectoryDoesNotExist(msg: string)
    | FileDoesNotExist(msg: string)
    | KeyDoesNotExist(msg: string)
    | CatalogUnreadable(path: string)

  datatype Result<T> = Ok(value: T) | Err(error: Error)

  /** One entry of a PO catalog. */
  datatype Entry = Entry(msgid: string, msgstr: string)

  /** What `os.path.isdir` and `os.path.isfile` answer. */
  datatype FileSystem = FileSystem(dirs: set<string>, files: set<string>)

  /** What the PO reader gives for each path it can read: the entries in file order. */
  type Catalogs = map<string, seq<Entry>>

  /** `Path {base_path} was not found`; the path can be read back from it. */
  function DirectoryMissing(basePath: string): (m: string)
    ensures |m| == |basePath| + 19
    ensures m[..5] == "Path " && m[5..|m| - 14] == basePath && m[|m| - 14..] == " was not found"
  {
    "Path " + basePath + " was not found"
  }

  /** `{default} was not found.`; the path can be read back from it. */
  function FileMissing(path: string): (m: string)
    ensures |m| == |path| + 15
    ensures m[..|path|] == path && m[|path|..] == " was not found."
  {
    path + " was not found."
  }

  /** `The translation key {translation_key} was not found.`; the key can be read back from it. */
  function KeyMissing(key: string): (m: string)
    ensures |m| == |key| + 35
    ensures m[..20] == "The translation key " && m[20..|m| - 15] == key && m[|m| - 15..] == " was not found."
  {
    "The translation key " + key + " was not found."
  }

  /** A dotted key: the directory segments and the key inside the catalog. */
  datatype KeyPath = KeyPath(segments: seq<string>, terminal: string)

  /** `*segments, terminal = key.split('.')`. */
  function SplitKey(key: string): (k: KeyPath)
    ensures Join(k.segments + [k.terminal], '.') == key
    ensures FreeOf(k.segments, '.') && '.' !in k.terminal
    ensures '.' !in key ==> k.segments == [] && k.terminal == key
  {
    var parts := Split(key, '.');
    var n := |parts| - 1;
    assert parts[..n] + [parts[n]] == parts;
    JoinSplit(key, '.');
    if '.' !in key then SplitFree(key, '.'); KeyPath([], key)
    else KeyPath(parts[..n], parts[n])
  }

  /** Splitting is the inverse of writing the key in dot notation. */
  lemma SplitKeyInverse(k: KeyPath)
    requires FreeOf(k.segments, '.') && '.' !in k.terminal
    ensures SplitKey(Join(k.segments + [k.terminal], '.')) == k
  {
    var parts := k.segments + [k.terminal];
    assert FreeOf(parts, '.') by {
      forall i | 0 <= i < |parts| ensures '.' !in parts[i] {
        if i < |k.segments| { assert parts[i] == k.segments[i]; }
      }
    }
    SplitJoin(parts, '.');
    assert parts[..|parts| - 1] == k.segments;
  }

  /** `'/'.join(segments)`: the directory below the base path. */
  function RelDir(segments: seq<string>): (r: string)
    ensures segments == [] ==> r == ""
    ensures |segments| >= 1 ==> segments[0] <= r
    ensures |segments| >= 2 ==> segments[0] + "/" <= r
  {
    Join(segments, '/')
  }

  /** Segments without `/` can be read back from the directory they name. */
  lemma RelDirSplit(segments: seq<string>)
    requires |segments| >= 1 && FreeOf(segments, '/')
    ensures Split(RelDir(segments), '/') == segments
  {
    SplitJoin(segments, '/');
  }

  /** The index of the first entry whose msgid is `key`, or `|entries|` when none is. */
  function FirstMatch(entries: seq<Entry>, key: string): (i: nat)
    ensures i <= |entries|
    ensures forall j :: 0 <= j < i ==> entries[j].msgid != key
    ensures i < |entries| ==> entries[i].msgid == key
    decreases |entries|
  {
    if |entries| == 0 then 0
    else if entries[0].msgid == key then 0
    else 1 + FirstMatch(entries[1..], key)
  }

  /** What `_get_key` yields for a path and a key. */
  function KeyResult(reader: Catalogs, path: string, key: string): Result<string>
  {
    if path !in reader then Err(CatalogUnreadable(path))
    else
      var entries := reader[path];
      var i := FirstMatch(entries, key);
      if i < |entries| then Ok(entries[i].msgstr) else Err(KeyDoesNotExist(KeyMissing(key)))
  }

  /** `_get_key`: scan the catalog at `path` in file order and return the
      msgstr of the first entry whose msgid is exactly `key`. */
  method GetKey(reader: Catalogs, path: string, key: string) returns (r: Result<string>)
    ensures r == KeyResult(reader, path, key)
    ensures r.Ok? ==>
      path in reader &&
      exists i :: 0 <= i < |reader[path]| && reader[path][i].msgid == key && reader[path][i].msgstr == r.value &&
        forall j :: 0 <= j < i ==> reader[path][j].msgid != key
    ensures r.Err? && path in reader ==>
      r.error == KeyDoesNotExist(KeyMissing(key)) &&
      forall i :: 0 <= i < |reader[path]| ==> reader[path][i].msgid != key
    ensures path !in reader ==> r == Err(CatalogUnreadable(path))
  {
    if path !in reader {
      return Err(CatalogUnreadable(path));
    }
    var entries := reader[path];
    var i := 0;
    while i < |entries|
      invariant 0 <= i <= |entries|
      invariant forall j :: 0 <= j < i ==> entries[j].msgid != key
    {
      if entries[i].msgid == key {
        return Ok(entries[i].msgstr);
      }
      i := i + 1;
    }
    assert FirstMatch(entries, key) == |entries|;
    return Err(KeyDoesNotExist(KeyMissing(key)));
  }

  /** There is no key-level fallback: a catalog without the key yields
      KeyDoesNotExist whatever any other catalog holds. */
  lemma {:induction false} MissingKeyIsFinal(reader: Catalogs, path: string, key: string)
    requires path in reader
    requires forall i :: 0 <= i < |reader[path]| ==> reader[path][i].msgid != key
    ensures KeyResult(reader, path, key) == Err(KeyDoesNotExist(KeyMissing(key)))
  {
  }

  /** Entries after the first match never change the answer. */
  lemma {:induction false} FirstMatchWins(entries: seq<Entry>, rest: seq<Entry>, key: string, value: string)
    requires forall j :: 0 <= j < |entries| ==> entries[j].msgid != key
    ensures FirstMatch(entries + [Entry(key, value)] + rest, key) == |entries|
  {
    var all := entries + [Entry(key, value)] + rest;
    assert all[|entries|].msgid == key;
    assert forall j :: 0 <= j < |entries| ==> all[j] == entries[j];
  }
}
