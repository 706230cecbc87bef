/** The behaviour the repository's tests describe, over the mocked
    translation tree they use (`tests/mocked_translations`). */
module MockedTree {
  import opened Strings
  import opened Koopa
  import L10n
  import Legacy

  const Mocked := "tests/mocked_translations"
  const FirstLevel := Mocked + "/first_level/"

  /** `first_level/messages.{locale}.po` of the mocked tree. */
  function LocaleCatalog(locale: string): string
  {
    FirstLevel + "messages." + locale + ".po"
  }

  const BaseCatalog := FirstLevel + "messages.po"

  const Base := "This is the Base English Translation"
  const Polish := "This is the Polish mocked translation"
  const German := "This is the German mocked translation"
  const British := "This is the British English mocked translation"

  /** The mocked tree: the base catalog and the catalogs of three locales
      under `first_level`, and no directory `iDontExist`. The `.po` files are
      not part of this model; this tree and `MockedEntries` are reconstructed
      from what the tests assert, one `mockedTestId` entry per catalog. */
  function MockedFiles(): FileSystem
  {
    FileSystem({Mocked, Mocked + "/first_level"},
      {BaseCatalog, LocaleCatalog("pl-PL"), LocaleCatalog("de-DE"), LocaleCatalog("en-GB")})
  }

  function MockedEntries(path: string): seq<Entry>
  {
    if path == LocaleCatalog("pl-PL") then [Entry("mockedTestId", Polish)]
    else if path == LocaleCatalog("de-DE") then [Entry("mockedTestId", German)]
    else if path == LocaleCatalog("en-GB") then [Entry("mockedTestId", British)]
    else [Entry("mockedTestId", Base)]
  }

  function MockedCatalogs(): Catalogs
  {
    map p | p in MockedFiles().files :: MockedEntries(p)
  }

  lemma LocaleCatalogInjective(l1: string, l2: string)
    requires l1 != l2
    ensures LocaleCatalog(l1) != LocaleCatalog(l2)
  {
    var n := |FirstLevel + "messages."|;
    assert LocaleCatalog(l1)[n..|LocaleCatalog(l1)| - 3] == l1;
    assert LocaleCatalog(l2)[n..|LocaleCatalog(l2)| - 3] == l2;
  }

  lemma BaseIsNoLocaleCatalog(l: string)
    ensures BaseCatalog != LocaleCatalog(l)
  {
  }

  /** A key naming one directory splits into that directory and the key. */
  lemma OneDirectoryKey(keyPath: string, dir: string, key: string)
    requires '.' !in dir && '.' !in key && keyPath == dir + "." + key
    ensures SplitKey(keyPath) == KeyPath([dir], key)
  {
    SplitKeyInverse(KeyPath([dir], key));
    assert Join([dir] + [key], '.') == keyPath;
  }

  /** A translator over the mocked tree names its `first_level` catalogs as the tree does. */
  lemma MockedRoutes(t: L10n.Translate, locale: string)
    requires t.basePath == Mocked && t.fileName == L10n.Messages
    ensures t.Candidate(["first_level"], locale) == LocaleCatalog(locale)
    ensures t.Default(["first_level"]) == BaseCatalog
  {
  }

  /** The base catalog of a different directory is not a file of the mocked tree. */
  lemma MockedOtherDefault(t: L10n.Translate)
    requires t.basePath == Mocked
    ensures t.Default(["iDontExist"]) == "tests/mocked_translations/iDontExist/messages.po"
    ensures t.Default(["iDontExist"]) !in MockedFiles().files
  {
  }

  /** Nor is any of its locale catalogs. */
  lemma MockedOtherCandidate(t: L10n.Translate, locale: string)
    requires t.basePath == Mocked
    ensures t.Candidate(["iDontExist"], locale) !in MockedFiles().files
  {
  }

  /** So the route of a different directory fails, naming its `messages.po`. */
  lemma MockedOtherDirectory(t: L10n.Translate, locale: string)
    requires t.basePath == Mocked && t.fileName == L10n.Messages
    ensures t.BuildRoute(MockedFiles(), ["iDontExist"], locale)
      == Err(FileDoesNotExist("tests/mocked_translations/iDontExist/messages.po was not found."))
  {
    MockedOtherDefault(t);
    MockedOtherCandidate(t, locale);
  }

  /** A locale catalog that exists and holds the key wins. */
  lemma MockedPolish(t: L10n.Translate)
    requires t.basePath == Mocked && t.fileName == L10n.Messages
    ensures t.Translation(MockedFiles(), MockedCatalogs(), "first_level.mockedTestId", "pl-PL") == Ok(Polish)
  {
    OneDirectoryKey("first_level.mockedTestId", "first_level", "mockedTestId");
    MockedRoutes(t, "pl-PL");
  }

  lemma MockedGerman(t: L10n.Translate)
    requires t.basePath == Mocked && t.fileName == L10n.Messages
    ensures t.Translation(MockedFiles(), MockedCatalogs(), "first_level.mockedTestId", "de-DE") == Ok(German)
  {
    OneDirectoryKey("first_level.mockedTestId", "first_level", "mockedTestId");
    MockedRoutes(t, "de-DE");
    LocaleCatalogInjective("de-DE", "pl-PL");
  }

  lemma MockedBritish(t: L10n.Translate)
    requires t.basePath == Mocked && t.fileName == L10n.Messages
    ensures t.Translation(MockedFiles(), MockedCatalogs(), "first_level.mockedTestId", "en-GB") == Ok(British)
  {
    OneDirectoryKey("first_level.mockedTestId", "first_level", "mockedTestId");
    MockedBritishRoute(t);
  }

  /** For `en-GB` the route is the British catalog, holding one entry. */
  lemma MockedBritishRoute(t: L10n.Translate)
    requires t.basePath == Mocked && t.fileName == L10n.Messages
    ensures t.BuildRoute(MockedFiles(), ["first_level"], "en-GB") == Ok(LocaleCatalog("en-GB"))
    ensures MockedCatalogs()[LocaleCatalog("en-GB")] == [Entry("mockedTestId", British)]
  {
    MockedRoutes(t, "en-GB");
    LocaleCatalogInjective("en-GB", "pl-PL");
    LocaleCatalogInjective("en-GB", "de-DE");
  }

  /** An unknown locale falls back to the base catalog. */
  lemma MockedUnknownLocale(t: L10n.Translate)
    requires t.basePath == Mocked && t.fileName == L10n.Messages
    ensures t.Translation(MockedFiles(), MockedCatalogs(), "first_level.mockedTestId", "xx-XX") == Ok(Base)
  {
    OneDirectoryKey("first_level.mockedTestId", "first_level", "mockedTestId");
    MockedRoutes(t, "xx-XX");
    BaseIsNoLocaleCatalog("xx-XX");
    LocaleCatalogInjective("xx-XX", "pl-PL");
    LocaleCatalogInjective("xx-XX", "de-DE");
    LocaleCatalogInjective("xx-XX", "en-GB");
    BaseIsNoLocaleCatalog("pl-PL");
    BaseIsNoLocaleCatalog("de-DE");
    BaseIsNoLocaleCatalog("en-GB");
  }

  /** The base locale reads the base catalog. */
  lemma MockedBaseLocale(t: L10n.Translate)
    requires t.basePath == Mocked && t.fileName == L10n.Messages
    ensures t.Translation(MockedFiles(), MockedCatalogs(), "first_level.mockedTestId", L10n.BaseLocale) == Ok(Base)
  {
    OneDirectoryKey("first_level.mockedTestId", "first_level", "mockedTestId");
    MockedRoutes(t, L10n.BaseLocale);
    BaseIsNoLocaleCatalog("pl-PL");
    BaseIsNoLocaleCatalog("de-DE");
    BaseIsNoLocaleCatalog("en-GB");
  }

  /** A key missing from the chosen catalog is an error naming the key,
      with no fallback to the base catalog (the tests use `thisKeyDoesNotExist`). */
  lemma MockedMissingKey(t: L10n.Translate, key: string)
    requires t.basePath == Mocked && t.fileName == L10n.Messages
    requires '.' !in key && key != "mockedTestId"
    ensures t.Translation(MockedFiles(), MockedCatalogs(), "first_level." + key, "en-GB")
      == Err(KeyDoesNotExist("The translation key " + key + " was not found."))
  {
    OneDirectoryKey("first_level." + key, "first_level", key);
    MockedBritishRoute(t);
    assert FirstMatch([Entry("mockedTestId", British)], key) == 1;
  }

  /** A directory without catalogs fails naming the attempted base catalog. */
  lemma MockedMissingDirectory(t: L10n.Translate, keyPath: string)
    requires t.basePath == Mocked && t.fileName == L10n.Messages
    requires keyPath == "iDontExist.mockedTestId"
    ensures t.Translation(MockedFiles(), MockedCatalogs(), keyPath, "en-GB")
      == Err(FileDoesNotExist("tests/mocked_translations/iDontExist/messages.po was not found."))
  {
    OneDirectoryKey(keyPath, "iDontExist", "mockedTestId");
    MockedOtherDirectory(t, "en-GB");
  }

  /** The path of the directory test is no directory of the mocked tree, and
      its message is the one the test expects. */
  lemma WrongDirectoryMessage(path: string)
    requires path == "i/dont/exist"
    ensures path !in MockedFiles().dirs
    ensures DirectoryMissing(path) == "Path i/dont/exist was not found"
  {
  }

  /** Constructing over a path that is not a directory of the mocked tree
      fails with `Path i/dont/exist was not found`. */
  method MockedWrongDirectory() returns (r: Result<L10n.Translate>)
    ensures r == Err(DirectoryDoesNotExist("Path i/dont/exist was not found"))
  {
    WrongDirectoryMessage("i/dont/exist");
    r := L10n.Translate.Open(MockedFiles(), "i/dont/exist");
  }

  /** The legacy translator names its `first_level` catalogs as the tree does. */
  lemma LegacyRoutes(lt: Legacy.Translate, locale: string)
    requires lt.basePath == Mocked
    ensures lt.Candidate(["first_level"], locale) == LocaleCatalog(locale)
    ensures lt.Default(["first_level"]) == BaseCatalog
  {
  }

  lemma LegacyPolish(lt: Legacy.Translate)
    requires lt.basePath == Mocked
    ensures lt.Translation(MockedFiles(), MockedCatalogs(), "first_level.mockedTestId", "pl-PL") == Ok(Polish)
  {
    OneDirectoryKey("first_level.mockedTestId", "first_level", "mockedTestId");
    LegacyRoutes(lt, "pl-PL");
  }

  /** The legacy translator also falls back to the base catalog for an unknown locale. */
  lemma LegacyUnknownLocale(lt: Legacy.Translate)
    requires lt.basePath == Mocked
    ensures lt.Translation(MockedFiles(), MockedCatalogs(), "first_level.mockedTestId", "xx-XX") == Ok(Base)
  {
    OneDirectoryKey("first_level.mockedTestId", "first_level", "mockedTestId");
    LegacyRoutes(lt, "xx-XX");
    BaseIsNoLocaleCatalog("xx-XX");
    LocaleCatalogInjective("xx-XX", "pl-PL");
    LocaleCatalogInjective("xx-XX", "de-DE");
    LocaleCatalogInjective("xx-XX", "en-GB");
    BaseIsNoLocaleCatalog("pl-PL");
    BaseIsNoLocaleCatalog("de-DE");
    BaseIsNoLocaleCatalog("en-GB");
  }

  /** Where the packaged translator raises FileDoesNotExist, the legacy one
      hands the absent `messages.po` to the reader, which fails on it. */
  lemma LegacyMissingDirectory(lt: Legacy.Translate, keyPath: string)
    requires lt.basePath == Mocked
    requires keyPath == "iDontExist.mockedTestId"
    ensures lt.Translation(MockedFiles(), MockedCatalogs(), keyPath, "en-GB")
      == Err(CatalogUnreadable("tests/mocked_translations/iDontExist/messages.po"))
  {
    OneDirectoryKey(keyPath, "iDontExist", "mockedTestId");
    LegacyOtherDefault(lt);
    LegacyOtherCandidate(lt, "en-GB");
  }

  /** The legacy base catalog of a different directory is not a file of the mocked tree. */
  lemma LegacyOtherDefault(lt: Legacy.Translate)
    requires lt.basePath == Mocked
    ensures lt.Default(["iDontExist"]) == "tests/mocked_translations/iDontExist/messages.po"
    ensures lt.Default(["iDontExist"]) !in MockedFiles().files
  {
  }

  /** Nor is any of its legacy locale catalogs. */
  lemma LegacyOtherCandidate(lt: Legacy.Translate, locale: string)
    requires lt.basePath == Mocked
    ensures lt.Candidate(["iDontExist"], locale) !in MockedFiles().files
  {
  }
}
