/** The older top-level translator (`translations.py`): no check of the base
    path, the locale-specific catalog is always `messages.{locale}.po`, and
    the `messages.po` fallback is returned without asking whether it exists. */
module Legacy {
  import opened Strings
  import opened Koopa

  const BaseLocale := "en-US"
  const Messages := "messages"

  /** The paths whose existence `BuildRoute` asks about: only the candidate,
      and only for a locale other than the base one. */
  function Probes(candidate: string, locale: string): (ps: seq<string>)
    ensures |ps| <= 1
    ensures locale == BaseLocale ==> ps == []
    ensures forall p :: p in ps ==> p == candidate
    ensures locale != BaseLocale ==> ps == [candidate]
  {
    if locale != BaseLocale then [candidate] else []
  }

  class Translate {
    const basePath: string

    /** `Translate(base_path)`: stores the path as given, whatever it names. */
    constructor (basePath: string)
      ensures this.basePath == basePath
    {
      this.basePath := basePath;
    }

    /** `{base_path}/{key_path}/`, the directory of the catalogs. */
    function Dir(segments: seq<string>): (d: string)
      ensures |d| == |basePath| + |RelDir(segments)| + 2
      ensures d[..|basePath| + 1] == basePath + "/"
      ensures d[|basePath| + 1..|d| - 1] == RelDir(segments) && d[|d| - 1] == '/'
    {
      basePath + "/" + RelDir(segments) + "/"
    }

    /** `{base_path}/{rel_dir}/messages.{locale}.po`, named with the constant. */
    function Candidate(segments: seq<string>, locale: string): (c: string)
      ensures Dir(segments) <= c && |c| == |Dir(segments)| + |locale| + 12
      ensures c[|Dir(segments)|..|Dir(segments)| + 9] == "messages."
      ensures c[|c| - |locale| - 3..|c| - 3] == locale && c[|c| - 3..] == ".po"
    {
      Dir(segments) + Messages + "." + locale + ".po"
    }

    /** `{base_path}/{key_path}/messages.po`. */
    function Default(segments: seq<string>): (m: string)
      ensures Dir(segments) <= m && m[|Dir(segments)|..] == "messages.po"
    {
      Dir(segments) + "messages.po"
    }

    /** `_build_route`: the locale-specific catalog if the locale is not the
        base one and that file exists, otherwise `messages.po`, unchecked. */
    function BuildRoute(fs: FileSystem, segments: seq<string>, locale: string): (r: string)
      ensures Dir(segments) <= r
      ensures r == Default(segments) || r == Candidate(segments, locale)
      ensures r == Candidate(segments, locale) ==> locale != BaseLocale && r in fs.files
      ensures locale != BaseLocale && Candidate(segments, locale) in fs.files ==> r == Candidate(segments, locale)
      ensures locale == BaseLocale || Candidate(segments, locale) !in fs.files ==> r == Default(segments)
    {
      var candidate := Candidate(segments, locale);
      if locale != BaseLocale && candidate in fs.files then candidate
      else Default(segments)
    }

    /** What `translate` yields; the route never fails, so every failure
        comes from the lookup. */
    function Translation(fs: FileSystem, reader: Catalogs, keyPath: string, locale: string): Result<string>
    {
      var k := SplitKey(keyPath);
      KeyResult(reader, BuildRoute(fs, k.segments, locale), k.terminal)
    }

    /** `translate`: split the key, build the route, look the key up there. */
    method TranslateKey(fs: FileSystem, reader: Catalogs, keyPath: string, locale: string := BaseLocale)
      returns (r: Result<string>)
      ensures r == Translation(fs, reader, keyPath, locale)
    {
      var k := SplitKey(keyPath);
      var path := BuildRoute(fs, k.segments, locale);
      r := GetKey(reader, path, k.terminal);
    }

    /** The route depends on the filesystem only through the candidate, and
        for the base locale not at all. */
    lemma RouteDependsOnlyOnProbes(fs1: FileSystem, fs2: FileSystem, segments: seq<string>, locale: string)
      requires forall p :: p in Probes(Candidate(segments, locale), locale) ==> (p in fs1.files <==> p in fs2.files)
      ensures BuildRoute(fs1, segments, locale) == BuildRoute(fs2, segments, locale)
    {
    }

    /** The legacy translator raises only KeyDoesNotExist, naming the key's
        last segment; a missing fallback surfaces as a reader failure on it. */
    lemma TranslationErrors(fs: FileSystem, reader: Catalogs, keyPath: string, locale: string)
      ensures var k := SplitKey(keyPath);
        match Translation(fs, reader, keyPath, locale)
        case Ok(_) => true
        case Err(e) =>
          e == KeyDoesNotExist(KeyMissing(k.terminal)) ||
          e == CatalogUnreadable(BuildRoute(fs, k.segments, locale))
    {
    }
  }
}
