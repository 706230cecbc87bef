# koopa translations, modelled in Dafny

koopa is a small localisation library. A `Translate` object is created over a
directory of gettext PO catalogs. `translate(key_path, locale)` resolves a
dotted key such as `first_level.mockedTestId` in three steps:

- The key is split on `.`. The last segment is the message id. The other
  segments name the sub-directory that holds the catalogs.
- The route builder picks a catalog file with one level of fallback.
  `{base}/{dir}/{file_name}.{locale}.po` is tried for any locale other than
  `en-US`. Otherwise the name is `{base}/{dir}/messages.po`.
- The key lookup returns the msgstr of the first entry whose msgid is the
  message id.

The repository holds two versions of the class:

- `l10n/translations.py`, the packaged one, modelled in module `L10n`. It
  checks the base directory at construction, honours `file_name` for the
  locale-specific catalog, and raises when no locale catalog is taken and
  `messages.po` is missing.
- `translations.py`, the older top-level one, modelled in module `Legacy`. It
  checks nothing at construction, always uses `messages` in the
  locale-specific name, and returns `messages.po` without checking that it
  exists.

Files:

- `strings.dfy` (module `Strings`): Python's `str.split` and `str.join` on one
  separator character, with both round-trip lemmas.
- `koopa.dfy` (module `Koopa`): what both versions share:
  - the error kinds, one per exception class, each carrying its exact message;
  - the filesystem (`FileSystem`: the directories and files that exist);
  - the PO reader (`Catalogs`: the entries of each readable path, in file order);
  - the splitting of a dotted key;
  - `_get_key`, whose loop and message are the same in both files
    (`l10n/translations.py:59-64`, `translations.py:39-44`).
- `l10n.dfy` (module `L10n`) and `legacy.dfy` (module `Legacy`): the two
  classes. Fields are `const`, because neither class mutates its fields after
  construction. `BuildRoute` and the specification of `translate` are
  functions. `translate` itself is a method, because it calls the `_get_key`
  loop.
- `versions.dfy` (module `Versions`): how the two versions relate.
- `mocked.dfy` (module `MockedTree`): the behaviour the repository's tests
  expect, over the mocked `tests/mocked_translations` tree they use. The
  tree's `.po` files are not part of this model. Its files and entries are
  reconstructed from what the tests assert: each catalog holds one entry
  `mockedTestId`, with the string the test expects. `MockedMissingKey` and
  `MockedUnknownLocale` rest on that reconstruction: no other entries, and no
  catalogs for other locales.

The clause `locale is not _BASE_LOCALE` is modelled as string inequality.
`os.path.isdir`, `os.path.isfile` and `polib.pofile` become inputs: a
`FileSystem` value and a `Catalogs` map. A path that the reader cannot read
(absent from the map) gives the error `CatalogUnreadable(path)`. This error
stands for whatever `polib` raises. It is not one of the library's own
exceptions.

Where the class docstring and the code disagree, the model follows the
code. The docstring (`l10n/translations.py:18-19`, `translations.py:21-22`)
promises a fallback to `messages.po` when a key is missing. The code has no
such fallback: a key missing from the chosen catalog raises
`KeyDoesNotExistException` (`NoKeyFallback`, `MockedMissingKey`).

## Model

| member | source | states |
|---|---|---|
| `Strings.Split` | l10n/translations.py:43 | `str.split` gives at least one piece, and no piece contains the separator |
| `Strings.JoinSplit` | l10n/translations.py:43 | joining the pieces of a split with the separator gives back the original string |
| `Strings.SplitJoin` | l10n/translations.py:43 | splitting the join of a non-empty list of separator-free pieces gives back the list |
| `Strings.Join` | l10n/translations.py:84 | `'/'.join` of no pieces is empty; a join begins with its first piece, followed by the separator when there are more; its meaning is fixed by the two round-trip lemmas `JoinSplit` and `SplitJoin` |
| `Koopa.DirectoryMissing` | l10n/translations.py:29-30 | the exact text `Path {base_path} was not found` (no final full stop), from which the path reads back between the fixed prefix and suffix |
| `Koopa.FileMissing` | l10n/translations.py:95-96 | the exact text `{default} was not found.`, with the attempted path read back as its prefix |
| `Koopa.KeyMissing` | l10n/translations.py:63-64 | the exact text `The translation key {translation_key} was not found.`, the same in translations.py:43-44, with the key read back between the fixed prefix and suffix |
| `Koopa.SplitKey` | l10n/translations.py:43 | `*segments, key = key_path.split('.')`: segments and key rejoined with `.` give the key path, no part contains `.`, and a key path without `.` has no segments and is itself the key |
| `Koopa.SplitKeyInverse` | translations.py:33 | writing a dot-free key path in dot notation and splitting it recovers the segments and the key |
| `Koopa.RelDir` | l10n/translations.py:84 | `'/'.join(key_path)`: no segments give the empty directory, and the directory begins with the first segment, followed by `/` when there are more |
| `Koopa.RelDirSplit` | translations.py:47 | segments without `/` are recovered by splitting the directory they name on `/` |
| `Koopa.FirstMatch` | l10n/translations.py:59-61 | the index of the first entry whose msgid equals the key (no earlier entry matches; the one at the index does), or the length when none does |
| `Koopa.GetKey` | l10n/translations.py:47-64 | the loop computes `KeyResult`, the recursive definition through `FirstMatch`: it returns the msgstr of the first entry in file order whose msgid equals the key; when none matches it fails with `The translation key {key} was not found.`, having checked every entry; an unreadable path fails in the reader |
| `Koopa.MissingKeyIsFinal` | l10n/translations.py:63-64 | a catalog without the key gives `KeyDoesNotExist`, whatever other catalogs hold |
| `Koopa.FirstMatchWins` | translations.py:39-41 | entries after the first match never change the result |
| `L10n.BaseLocale` | l10n/translations.py:11 | `_BASE_LOCALE` is `en-US`, the locale for which no locale catalog is tried |
| `L10n.Messages` | l10n/translations.py:12 | `_MESSAGES` is `messages`, the default `file_name` of the packaged constructor |
| `L10n.Probes` | l10n/translations.py:86-94 | the route builder probes one or two paths, each the locale catalog or `messages.po`; every probe before the last is absent, and the last is `messages.po` or exists; for a non-base locale the locale catalog is probed first, and alone when it exists; for `en-US` the locale catalog is probed only if it is `messages.po` itself |
| `L10n.Translate.constructor` | l10n/translations.py:31-32 | stores `base_path` and `file_name` unchanged, with `file_name` defaulting to `messages`; its directory precondition is over a ghost filesystem of the caller's choosing, so the real check is `Open` |
| `L10n.Translate.Open` | l10n/translations.py:27-32 | construction fails with `Path {base_path} was not found` if and only if the base path is not a directory; otherwise it yields a translator with the given path and file name |
| `L10n.Translate.Dir` | l10n/translations.py:84-88 | `{base_path}/{key_path}/`: the base path and `/`, then the `/`-joined segments, then a final `/` |
| `L10n.Translate.Candidate` | l10n/translations.py:87-88 | `{base_path}/{key_path}/{file_name}.{locale}.po`: under the directory, the file name, a `.`, the locale and `.po`, each readable back at its place |
| `L10n.Translate.Default` | l10n/translations.py:93 | `{base_path}/{key_path}/messages.po`: under the directory, the literal `messages.po`, whatever `file_name` is |
| `L10n.Translate.CandidateIsNotDefault` | l10n/translations.py:87-93 | for every `file_name` and locale, the locale-specific catalog is a different path from `messages.po`, because `messages` contains no `.` |
| `L10n.Translate.BuildRoute` | l10n/translations.py:66-97 | a returned path exists and lies under `{base}/{dir}/`; it is `messages.po` or, for a non-base locale only, `{file_name}.{locale}.po`; an existing locale catalog always wins; it fails exactly when `messages.po` is absent and no locale catalog was taken, with `{default} was not found.` |
| `L10n.Translate.TranslateKey` | l10n/translations.py:34-45 | the method computes `Translation`, the function every translate lemma is stated over: `translate` is key splitting, then route building, then lookup, with errors propagated unchanged |
| `L10n.Translate.RouteDependsOnlyOnProbes` | l10n/translations.py:86-94 | two filesystems that agree on the paths probed in the first give the same route, so for `en-US` the locale catalog is never consulted |
| `L10n.Translate.RouteIsLastProbe` | l10n/translations.py:86-97 | the route is the last path probed; a failure means that last probe was the absent `messages.po`, and the error names it |
| `L10n.Translate.UndottedKeyRoute` | l10n/translations.py:84-93 | a key path without `.` puts both catalog names directly under the base path, with a literal `//` |
| `L10n.Translate.TranslationOutcome` | l10n/translations.py:34-45 | a successful `translate` returns the first matching msgstr of the catalog the route builder chose, which exists and is readable; a failure is either the route builder's `FileDoesNotExist` for the attempted `messages.po`, or, after a route was found, `KeyDoesNotExist` for the last key segment or a reader failure on that route; never `DirectoryDoesNotExist` |
| `L10n.Translate.NoKeyFallback` | l10n/translations.py:59-64 | when the locale catalog is chosen and lacks the key, `translate` raises `KeyDoesNotExist` and does not fall back to `messages.po` |
| `Legacy.BaseLocale` | translations.py:13 | `_BASE_LOCALE` is `en-US`, the locale for which no locale catalog is tried |
| `Legacy.Messages` | translations.py:15 | `_MESSAGES` is `messages`, the fixed stem of the legacy locale catalog |
| `Legacy.Probes` | translations.py:49-52 | the legacy route builder probes at most one path, which is the locale catalog, and probes nothing for `en-US` |
| `Legacy.Translate.constructor` | translations.py:28-30 | stores `base_path` unchanged, with no check and no failure |
| `Legacy.Translate.Dir` | translations.py:47-50 | `{base_path}/{key_path}/`: the base path and `/`, then the `/`-joined segments, then a final `/` |
| `Legacy.Translate.Candidate` | translations.py:50 | `{base_path}/{key_path}/{_MESSAGES}.{locale}.po`: under the directory, `messages.`, the locale and `.po`, the locale readable back at its place |
| `Legacy.Translate.Default` | translations.py:56 | `{base_path}/{key_path}/messages.po`: under the directory, the literal `messages.po` |
| `Legacy.Translate.BuildRoute` | translations.py:46-56 | the result lies under `{base}/{dir}/`; it is `messages.{locale}.po` only for a non-base locale whose catalog exists, and then always; otherwise it is `messages.po`, returned unchecked, so the route builder never fails |
| `Legacy.Translate.TranslateKey` | translations.py:32-35 | the method computes `Translation`, the function every legacy translate lemma is stated over: legacy `translate` is key splitting, then route building, then lookup |
| `Legacy.Translate.RouteDependsOnlyOnProbes` | translations.py:49-56 | the legacy route depends on the filesystem only through the locale catalog, and for `en-US` not at all |
| `Legacy.Translate.TranslationErrors` | translations.py:37-44 | legacy `translate` fails only with `KeyDoesNotExist` for the last key segment or with a reader failure on the chosen path |
| `Versions.SameRoute` | translations.py:46-56 | with the default file name both versions name the same catalogs; they route identically whenever `messages.po` exists; the packaged one fails exactly when the legacy one returns a path that does not exist |
| `Versions.SameTranslation` | translations.py:32-44 | whenever the packaged translator succeeds, the legacy one gives the same string; whenever `messages.po` of the key's directory exists, both give the same result, errors included |
| `MockedTree.MockedPolish` | l10n/tests/test_traslations.py:20-24 | `pl-PL` reads the Polish catalog |
| `MockedTree.MockedGerman` | l10n/tests/test_traslations.py:26-30 | `de-DE` reads the German catalog |
| `MockedTree.MockedBritish` | l10n/tests/test_traslations.py:32-37 | `en-GB` reads the British catalog |
| `MockedTree.MockedBaseLocale` | l10n/tests/test_traslations.py:14-18 | the default locale reads the base `messages.po` |
| `MockedTree.MockedUnknownLocale` | l10n/tests/test_traslations.py:45-52 | a locale without a catalog falls back to the base string |
| `MockedTree.MockedMissingKey` | l10n/tests/test_traslations.py:54-59 | any key absent from the British catalog fails with `The translation key {key} was not found.` |
| `MockedTree.MockedMissingDirectory` | l10n/tests/test_traslations.py:68-74 | a directory without catalogs fails with `tests/mocked_translations/iDontExist/messages.po was not found.` |
| `MockedTree.MockedWrongDirectory` | l10n/tests/test_traslations.py:61-66 | constructing over `i/dont/exist` fails with `Path i/dont/exist was not found` |
| `MockedTree.LegacyPolish` | tests/test_traslations.py:14-18 | the legacy translator reads the Polish catalog for `pl-PL` |
| `MockedTree.LegacyUnknownLocale` | tests/test_traslations.py:39-46 | the legacy translator falls back to the base string for an unknown locale |
| `MockedTree.LegacyMissingDirectory` | translations.py:54-56 | for a directory without catalogs the legacy translator hands the absent `messages.po` to the reader, which fails on it |

## Left out

- PO parsing (`polib.pofile`) is a foreign library. It is represented by the `Catalogs` map. Malformed files and paths the reader cannot open all become one opaque `CatalogUnreadable(path)` error.
- `os.path.isdir` and `os.path.isfile` are filesystem I/O. They are represented by the `FileSystem` value, passed to each call. Nothing ties `FileSystem` to `Catalogs`, in either direction. A file may exist and still be unreadable. A path absent from `fs.files` may still be in `Catalogs`, so `Legacy.Translation` can return `Ok` from a `messages.po` the filesystem lacks. `MockedTree.LegacyMissingDirectory` fails only because the mocked catalogs are built from the mocked files.
- `locale is not _BASE_LOCALE` compares object identity in CPython, which depends on string interning. It is modelled as string inequality.
- The `locale` parameter of `_get_key` is unused in both files and is not modelled.
- `l10n/exceptions.py` and `exceptions.py` only declare exception classes. They are folded into the `Error` datatype. The legacy file raises only `KeyDoesNotExist`.
- `setup.py` is packaging and is not modelled.
- Repeated calls re-reading the files (no caching) cannot be observed in a model where the filesystem and the catalogs are inputs: same inputs always give the same result.
