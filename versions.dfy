/** How the two translators relate. */
module Versions {
  import opened Koopa
  import L10n
  import Legacy

  /** With the default file name, both versions name the same two catalogs;
      they choose the same one whenever `messages.po` exists, and when it
      does not, exactly where the packaged one fails the legacy one hands
      the missing `messages.po` to the reader. */
  lemma {:induction false} SameRoute(t: L10n.Translate, lt: Legacy.Translate, fs: FileSystem, segments: seq<string>, locale: string)
    requires t.basePath == lt.basePath && t.fileName == L10n.Messages
    ensures t.Candidate(segments, locale) == lt.Candidate(segments, locale)
    ensures t.Default(segments) == lt.Default(segments)
    ensures t.Default(segments) in fs.files ==>
      t.BuildRoute(fs, segments, locale) == Ok(lt.BuildRoute(fs, segments, locale))
    ensures t.BuildRoute(fs, segments, locale).Err? <==>
      lt.BuildRoute(fs, segments, locale) !in fs.files
  {
  }

  /** Whenever the packaged translator succeeds, or `messages.po` of the
      key's directory exists, the legacy one (same base path, default file
      name) gives the same result, errors included. */
  lemma {:induction false} SameTranslation(t: L10n.Translate, lt: Legacy.Translate, fs: FileSystem, reader: Catalogs, keyPath: string, locale: string)
    requires t.basePath == lt.basePath && t.fileName == L10n.Messages
    ensures t.Translation(fs, reader, keyPath, locale).Ok? ==>
      lt.Translation(fs, reader, keyPath, locale) == t.Translation(fs, reader, keyPath, locale)
    ensures t.Default(SplitKey(keyPath).segments) in fs.files ==>
      lt.Translation(fs, reader, keyPath, locale) == t.Translation(fs, reader, keyPath, locale)
  {
  }
}
