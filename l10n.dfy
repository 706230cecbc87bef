/** The packaged translator (`l10n/translations.py`): the base path is checked
    at construction, the locale-specific catalog name honours `fileName`, and
    the `messages.po` fallback is checked for existence. */
module L10n {
  import opened Strings
  import opened Koopa

  const BaseLocale := "en-US"
  const Messages := "messages"

  /** The paths whose existence `BuildRoute` asks about, in the order it
      asks: it stops at the first one that exists, and asks about
      `messages.po` last, only when no locale catalog was taken. */
  function Probes(fs: FileSystem, candidate: string, default: string, locale: string): (ps: seq<string>)
    ensures 1 <= |ps| <= 2
    ensures forall i :: 0 <= i < |ps| - 1 ==> ps[i] !in fs.files
    ensures ps[|ps| - 1] == default || ps[|ps| - 1] in fs.files
    ensures candidate in ps ==> locale != BaseLocale || candidate == default
    ensures forall p :: p in ps ==> p == candidate || p == default
    ensures locale != BaseLocale ==> ps[0] == candidate
    ensures locale != BaseLocale && candidate in fs.files ==> ps == [candidate]
    ensures locale == BaseLocale ==> ps == [default]
  {
    if locale != BaseLocale then
      (if candidate in fs.files then [candidate] else [candidate, default])
    else [default]
  }

  class Translate {
    const basePath: string
    const fileName: string

    /** The translator over a base directory. The filesystem is ghost and
        chosen by the caller, so the precondition checks nothing real:
        `Open` is the checked way to construct, as `__init__` is. */
    constructor (ghost fs: FileSystem, basePath: string, fileName: string := Messages)
      requires basePath in fs.dirs
      ensures this.basePath == basePath && this.fileName == fileName
    {
      this.basePath := basePath;
      this.fileName := fileName;
    }

    /** `Translate(base_path, file_name)`: fails with DirectoryDoesNotExist
        exactly when the base path is not a directory. */
    static method Open(fs: FileSystem, basePath: string, fileName: string := Messages) returns (r: Result<Translate>)
      ensures r.Err? <==> basePath !in fs.dirs
      ensures r.Err? ==> r.error == DirectoryDoesNotExist(DirectoryMissing(basePath))
      ensures r.Ok? ==> r.value.basePath == basePath && r.value.fileName == fileName
    {
      if basePath !in fs.dirs {
        return Err(DirectoryDoesNotExist(DirectoryMissing(basePath)));
      }
      var t := new Translate(fs, basePath, fileName);
      return Ok(t);
    }

    /** The directory, below the base path, that holds the catalogs of `segments`. */
    function Dir(segments: seq<string>): (d: string)
      ensures |d| == |basePath| + |RelDir(segments)| + 2
      ensures d[..|basePath| + 1] == basePath + "/"
      ensures d[|basePath| + 1..|d| - 1] == RelDir(segments) && d[|d| - 1] == '/'
    {
      basePath + "/" + RelDir(segments) + "/"
    }

    /** `{base_path}/{rel_dir}/{file_name}.{locale}.po`. */
    function Candidate(segments: seq<string>, locale: string): (c: string)
      ensures Dir(segments) <= c
      ensures |c| == |Dir(segments)| + |fileName| + |locale| + 4
      ensures c[|Dir(segments)|..|Dir(segments)| + |fileName|] == fileName
      ensures c[|c| - |locale| - 4] == '.' && c[|c| - |locale| - 3..|c| - 3] == locale && c[|c| - 3..] == ".po"
    {
      Dir(segments) + fileName + "." + locale + ".po"
    }

    /** `{base_path}/{rel_dir}/messages.po`: the literal name, never `fileName`. */
    function Default(segments: seq<string>): (m: string)
      ensures Dir(segments) <= m && m[|Dir(segments)|..] == "messages.po"
    {
      Dir(segments) + "messages.po"
    }

    /** The locale-specific catalog is never `messages.po` itself, whatever
        `fileName` and the locale are: `messages` holds no dot. */
    lemma CandidateIsNotDefault(segments: seq<string>, locale: string)
      ensures Candidate(segments, locale) != Default(segments)
    {
      var c := Candidate(segments, locale);
      var m := Default(segments);
      if |c| == |m| {
        var i := |Dir(segments)| + |fileName|;
        assert c[i] == '.';
        assert m[i] == "messages.po"[|fileName|];
        assert "messages.po"[|fileName|] != '.';
      }
    }

    /** `_build_route`: the locale-specific catalog if the locale is not the
        base one and that file exists, otherwise `messages.po` if it exists,
        otherwise FileDoesNotExist. */
    function BuildRoute(fs: FileSystem, segments: seq<string>, locale: string): (r: Result<string>)
      ensures r.Ok? ==> r.value in fs.files
      ensures r.Ok? ==> Dir(segments) <= r.value
      ensures r.Ok? ==> r.value == Default(segments) || (locale != BaseLocale && r.value == Candidate(segments, locale))
      ensures locale != BaseLocale && Candidate(segments, locale) in fs.files ==> r == Ok(Candidate(segments, locale))
      ensures r.Err? <==>
        Default(segments) !in fs.files && (locale == BaseLocale || Candidate(segments, locale) !in fs.files)
      ensures r.Err? ==> r.error == FileDoesNotExist(FileMissing(Default(segments)))
    {
      var candidate := Candidate(segments, locale);
      var default := Default(segments);
      if locale != BaseLocale && candidate in fs.files then Ok(candidate)
      else if default in fs.files then Ok(default)
      else Err(FileDoesNotExist(FileMissing(default)))
    }

    /** What `translate` yields. */
    function Translation(fs: FileSystem, reader: Catalogs, keyPath: string, locale: string): Result<string>
    {
      var k := SplitKey(keyPath);
      match BuildRoute(fs, k.segments, locale)
      case Err(e) => Err(e)
      case Ok(path) => KeyResult(reader, path, k.terminal)
    }

    /** `translate`: split the key, build the route, look the key up there. */
    method TranslateKey(fs: FileSystem, reader: Catalogs, keyPath: string, locale: string := BaseLocale)
      returns (r: Result<string>)
      ensures r == Translation(fs, reader, keyPath, locale)
    {
      var k := SplitKey(keyPath);
      var route := BuildRoute(fs, k.segments, locale);
      match route {
        case Err(e) => r := Err(e);
        case Ok(path) => r := GetKey(reader, path, k.terminal);
      }
    }

    /** The route depends on the filesystem only through the paths it probes:
        at most the candidate and `messages.po`, the candidate never for the
        base locale, `messages.po` never once the candidate exists. */
    lemma RouteDependsOnlyOnProbes(fs1: FileSystem, fs2: FileSystem, segments: seq<string>, locale: string)
      requires forall p :: p in Probes(fs1, Candidate(segments, locale), Default(segments), locale) ==>
        (p in fs1.files <==> p in fs2.files)
      ensures BuildRoute(fs1, segments, locale) == BuildRoute(fs2, segments, locale)
    {
    }

    /** The route is the last path probed: the one found, or the absent
        `messages.po` named by the error. */
    lemma RouteIsLastProbe(fs: FileSystem, segments: seq<string>, locale: string)
      ensures var ps := Probes(fs, Candidate(segments, locale), Default(segments), locale);
        match BuildRoute(fs, segments, locale)
        case Ok(path) => path == ps[|ps| - 1]
        case Err(e) => ps[|ps| - 1] == Default(segments) && Default(segments) !in fs.files && e == FileDoesNotExist(FileMissing(ps[|ps| - 1]))
    {
    }

    /** A key with no dot is looked up in the catalogs directly under the
        base path, whose names therefore contain `//`. */
    lemma UndottedKeyRoute(keyPath: string, locale: string)
      requires '.' !in keyPath
      ensures Default(SplitKey(keyPath).segments) == basePath + "//messages.po"
      ensures Candidate(SplitKey(keyPath).segments, locale) == basePath + "//" + fileName + "." + locale + ".po"
    {
    }

    /** Every failure of `translate` is one of the route or lookup errors,
        tagged with the key's last segment or the attempted `messages.po`;
        a success is the msgstr of the first matching entry of an existing catalog. */
    lemma TranslationOutcome(fs: FileSystem, reader: Catalogs, keyPath: string, locale: string)
      ensures var k := SplitKey(keyPath);
        var route := BuildRoute(fs, k.segments, locale);
        match Translation(fs, reader, keyPath, locale)
        case Ok(s) =>
          route.Ok? && route.value in fs.files && route.value in reader &&
          FirstMatch(reader[route.value], k.terminal) < |reader[route.value]| &&
          reader[route.value][FirstMatch(reader[route.value], k.terminal)].msgstr == s
        case Err(e) =>
          (route.Err? && e == FileDoesNotExist(FileMissing(Default(k.segments)))) ||
          (route.Ok? && e == KeyDoesNotExist(KeyMissing(k.terminal))) ||
          (route.Ok? && e == CatalogUnreadable(route.value))
    {
    }

    /** No key-level fallback: when the locale-specific catalog is chosen and
        lacks the key, `translate` fails even if `messages.po` has the key. */
    lemma NoKeyFallback(fs: FileSystem, reader: Catalogs, segments: seq<string>, key: string, locale: string)
      requires FreeOf(segments, '.') && '.' !in key
      requires locale != BaseLocale && Candidate(segments, locale) in fs.files
      requires Candidate(segments, locale) in reader
      requires forall i :: 0 <= i < |reader[Candidate(segments, locale)]| ==>
        reader[Candidate(segments, locale)][i].msgid != key
      ensures Translation(fs, reader, Join(segments + [key], '.'), locale) == Err(KeyDoesNotExist(KeyMissing(key)))
    {
      SplitKeyInverse(KeyPath(segments, key));
      MissingKeyIsFinal(reader, Candidate(segments, locale), key);
    }
  }
}
