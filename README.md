# Android TV sample: feed parsing, media identity, playback controls and browse rows

This project is a Dafny model of the sequential logic in a small Android TV sample app that
browses a media catalog and plays videos. It covers five source files.

- **Feed parser** (`TvMediaSynchronizer.parseMediaFeed`): a JSON document becomes three lists.
  These are the collections, the flat list of item records (`TvMediaMetadata`) and the
  backgrounds. The document is given as an already-parsed `Json` tree (module `Json`). The
  `org.json` accessors are modelled as functions that either return a value or fail.
  `FeedParser.ParseMediaFeed` is the imperative parse: a loop over the collections appends
  each one's items to one accumulator, then a loop builds the backgrounds. It is proved equal
  to the pure specification `FeedParser.ParseMediaFeedSpec`, and the lemmas state the
  parse's properties in terms of that specification.
- **Metadata identity** (`TvMediaMetadata.isStateless`, `equals`, `hashCode`): the record is a
  datatype. `Strip` is the `copy(...)` projection that clears three state fields. `equals` and
  `hashCode` take the inherited `super` comparison and hash as parameters.
- **Playback** (`PlayingFragment`): seek targets for skipping forward and back, dispatch of
  the control-row actions, the key-intercept decision table and the starting position.
  `Playback.PlayerGlue` is a class whose methods move the player's `position`.
- **Browse rows** (`MediaBrowswerFragment`): the rows built from a parsed feed, the two
  diff-callback predicates, and the main adapter (`Browser.BrowseAdapter`). The adapter is
  populated only while it holds at most one row.
- **Aspect ratios** (`TvLauncherUtils.parseAspectRatio`): six constants map to rationals,
  and any other constant is an error.

Behaviour of the code that is easy to misread:

- A collection's `image` (`TvMediaSynchronizer.kt:78`) and an item's `art` (`:92`) are read
  with `getString`, which throws on a missing key. Both keys are therefore required, despite
  the `?.let` around them.
- `ratings` (`:86`) is read with `optJSONArray`, so a `ratings` value that is not an array
  gives null, like an absent key.
- `areContentsTheSame` (`MediaBrowswerFragment.kt:54-56`) compares the two rows' hash codes.
  The comparison of an element with itself is at `:64`, in `areItemsTheSame`.
- `equals` (`TvMediaMetadata.kt:93-97`) defers to `super.equals`. In a Kotlin data class that
  declares its own `equals`, `super.equals` is `Any`'s reference identity. The comparison is
  then true only when the receiver is stateless and the argument is the very same object. So
  it is symmetric, but a record that carries state is not equal to itself (see Findings).
- `duration * 1000` (`TvMediaSynchronizer.kt:88`) is `Long` arithmetic, and `getInt` (`:89`)
  narrows to 32 bits. The model writes out both wrap-arounds (`Json.LongMul`, `Json.LongToInt`).

The values of the Android constants come from the Android libraries, which are not part of
this model. These are the `TvContractCompat` aspect-ratio and program-type constants (module
`TvContract`) and the `KeyEvent` key codes and actions (module `Playback`).

## Model

| member | source | states |
|---|---|---|
| `Decimal.NatToString` | app/src/main/java/com/naver/android/sampletv/workers/TvMediaSynchronizer.kt:105 | the background id `"$idx"` is a non-empty string of decimal digits with no leading zero: a rendering that starts with `0` is exactly `"0"` |
| `Decimal.StringToNatOfNatToString` | app/src/main/java/com/naver/android/sampletv/workers/TvMediaSynchronizer.kt:105 | reading the decimal id back gives the index: the rendering has an inverse |
| `Decimal.NatToStringInjective` | app/src/main/java/com/naver/android/sampletv/workers/TvMediaSynchronizer.kt:105 | two indices render to the same id exactly when they are equal |
| `Json.LongMul` | app/src/main/java/com/naver/android/sampletv/workers/TvMediaSynchronizer.kt:88 | `Long` multiplication stays in the 64-bit range, agrees with the true product modulo 2^64, and is the true product when that fits |
| `Json.LongToInt` | app/src/main/java/com/naver/android/sampletv/workers/TvMediaSynchronizer.kt:89 | `getInt` narrowing: stays in the 32-bit range, agrees modulo 2^32, and is the identity on 32-bit values |
| `Json.GetString` | app/src/main/java/com/naver/android/sampletv/workers/TvMediaSynchronizer.kt:75-77 | succeeds exactly when the key holds a string, and returns that string; a missing key is an error, not null |
| `Json.GetArray` | app/src/main/java/com/naver/android/sampletv/workers/TvMediaSynchronizer.kt:71 | succeeds exactly when the key holds an array, and returns it; a missing key is an error |
| `Json.OptArray` | app/src/main/java/com/naver/android/sampletv/workers/TvMediaSynchronizer.kt:86 | yields the array exactly when the key holds one, and null otherwise |
| `Json.GetLong` | app/src/main/java/com/naver/android/sampletv/workers/TvMediaSynchronizer.kt:88 | succeeds exactly when the key holds a 64-bit integer, and returns it |
| `Json.GetInt` | app/src/main/java/com/naver/android/sampletv/workers/TvMediaSynchronizer.kt:89 | succeeds on the same values as `getLong`, and returns the value narrowed to 32 bits |
| `Json.AsObject` | app/src/main/java/com/naver/android/sampletv/workers/TvMediaSynchronizer.kt:34-36 | an array element read with `getJSONObject` succeeds exactly when it is an object |
| `Json.AsString` | app/src/main/java/com/naver/android/sampletv/workers/TvMediaSynchronizer.kt:30-32 | an array element read with `getString` succeeds exactly when it is a string |
| `FeedParser.MapAll` | app/src/main/java/com/naver/android/sampletv/workers/TvMediaSynchronizer.kt:30-36 | `mapString`/`mapObject`: succeeds exactly when every element's transformation does, keeps length and order, and otherwise fails with the error of the first failing element |
| `FeedParser.MapAllStep` | app/src/main/java/com/naver/android/sampletv/workers/TvMediaSynchronizer.kt:34-36 | extending a successful prefix by one element either appends its result or makes the whole map fail with that element's error |
| `FeedParser.FlattenLength` | app/src/main/java/com/naver/android/sampletv/workers/TvMediaSynchronizer.kt:96 | the appended list is as long as the sum of the appended lists' lengths |
| `FeedParser.FlattenMembership` | app/src/main/java/com/naver/android/sampletv/workers/TvMediaSynchronizer.kt:96 | a record is in the appended list exactly when it is in one of the appended lists |
| `FeedParser.ParseItem` | app/src/main/java/com/naver/android/sampletv/workers/TvMediaSynchronizer.kt:82-92 | a parsed record belongs to the given collection, has no position and is not stateless; its fields and success condition are stated by `ParseItemFields`, `ParseItemRatings` and `ParseItemSucceedsIff` |
| `FeedParser.ParseCollection` | app/src/main/java/com/naver/android/sampletv/workers/TvMediaSynchronizer.kt:72-99 | every record of a parsed collection carries that collection's id; `ParseCollectionFields` and `ParseCollectionSucceedsIff` state the rest |
| `FeedParser.ParseMediaFeedSpec` | app/src/main/java/com/naver/android/sampletv/workers/TvMediaSynchronizer.kt:59-109 | a successful parse has one collection per `feed` element and one background per `backgrounds` element, both keys present as arrays; `ParseMediaFeedSucceedsIff`, `ParseMediaFeedCollections`, `ParseMediaFeedLinkage` and `ParseMediaFeedBackgrounds` state the rest |
| `FeedParser.ParseItems` | app/src/main/java/com/naver/android/sampletv/workers/TvMediaSynchronizer.kt:81-93 | the loop over one collection's `items` computes exactly the `mapObject` specification, including its first-error failure |
| `FeedParser.ParseMediaFeed` | app/src/main/java/com/naver/android/sampletv/workers/TvMediaSynchronizer.kt:59-109 | the imperative parse, with its shared `metadatas` accumulator and early exits, returns exactly `ParseMediaFeedSpec(doc)` |
| `FeedParser.ParseItemFields` | app/src/main/java/com/naver/android/sampletv/workers/TvMediaSynchronizer.kt:82-92 | a parsed item takes id, title, url, director, description and art from the like-named keys. Its duration is `duration * 1000` as a `Long` (exactly that when no overflow) and its year is `year` as an `Int`. It carries the enclosing collection's id, no position, and hidden and watch-next cleared, so it is not stateless |
| `FeedParser.ParseItemRatings` | app/src/main/java/com/naver/android/sampletv/workers/TvMediaSynchronizer.kt:86 | `ratings` is null exactly when the key is absent or not an array; otherwise it holds the array's strings in order |
| `FeedParser.ParseItemSucceedsIff` | app/src/main/java/com/naver/android/sampletv/workers/TvMediaSynchronizer.kt:82-92 | an item parses exactly when it is an object with all eight required keys correctly typed (and any `ratings` array holds strings) |
| `FeedParser.ParseCollectionFields` | app/src/main/java/com/naver/android/sampletv/workers/TvMediaSynchronizer.kt:72-93 | a collection copies `id`, `title` and `description` verbatim and takes `image` as its art. Its records are its `items` parsed in order, one per element, each linked to the collection's id |
| `FeedParser.ParseCollectionSucceedsIff` | app/src/main/java/com/naver/android/sampletv/workers/TvMediaSynchronizer.kt:72-93 | a collection parses exactly when its five required keys are correctly typed and every item is well formed |
| `FeedParser.ParseMediaFeedSucceedsIff` | app/src/main/java/com/naver/android/sampletv/workers/TvMediaSynchronizer.kt:63-106 | all or nothing: the parse succeeds exactly on documents that follow the schema, and otherwise yields no partial result |
| `FeedParser.ParseMediaFeedCollections` | app/src/main/java/com/naver/android/sampletv/workers/TvMediaSynchronizer.kt:68-100 | one collection per `feed` element in document order, with fields copied verbatim. `metadata` is the in-order concatenation of every collection's records, and its length is the total number of `items` elements |
| `FeedParser.ParseMediaFeedParts` | app/src/main/java/com/naver/android/sampletv/workers/TvMediaSynchronizer.kt:68-100 | the `i`-th collection and the `i`-th group of records are the parse of the `i`-th `feed` element |
| `FeedParser.ItemsOfCarry` | app/src/main/java/com/naver/android/sampletv/workers/TvMediaSynchronizer.kt:82-92 | every record of a parsed collection carries that collection's id, a duration and default state |
| `FeedParser.ParseMediaFeedLinkage` | app/src/main/java/com/naver/android/sampletv/workers/TvMediaSynchronizer.kt:83 | every record's `collectionId` is the id of the collection whose `items` it came from |
| `FeedParser.ParseMediaFeedBackgrounds` | app/src/main/java/com/naver/android/sampletv/workers/TvMediaSynchronizer.kt:103-106 | one background per entry in order; the `i`-th has id `"i"` and the entry's string, so ids are pairwise distinct |
| `FeedParser.ParsedRecordsCarryState` | app/src/main/java/com/naver/android/sampletv/workers/TvMediaSynchronizer.kt:82-92 | every parsed record has a duration, no position, and hidden and watch-next cleared, so none is stateless |
| `FeedParser.ExampleItemParses` | app/src/main/java/com/naver/android/sampletv/workers/TvMediaSynchronizer.kt:82-92 | a concrete item with `duration` 10 and no `ratings` parses to 10000 ms and absent ratings |
| `FeedParser.ExampleCollectionParses` | app/src/main/java/com/naver/android/sampletv/workers/TvMediaSynchronizer.kt:72-93 | a concrete one-item collection parses to its record and that item's record |
| `FeedParser.ParseSingletonFeed` | app/src/main/java/com/naver/android/sampletv/workers/TvMediaSynchronizer.kt:63-108 | a document with one collection and one background parses to that collection, its records and background `"0"` |
| `FeedParser.ParseMediaFeedExample` | app/src/main/java/com/naver/android/sampletv/workers/TvMediaSynchronizer.kt:59-109 | the concrete one-collection document parses to collection `c1`, one record linked to `c1` with 10000 ms, and background `"0"` |
| `MediaModels.NewMetadata` | app/src/main/java/com/naver/android/sampletv/models/TvMediaMetadata.kt:29-84 | a record built with every default is stateless, has no position, and uses the movie-poster aspect ratio and the movie program type |
| `MediaModels.IsStateless` | app/src/main/java/com/naver/android/sampletv/models/TvMediaMetadata.kt:90 | a record is stateless exactly when resetting duration, hidden and watch-next to their defaults leaves it unchanged |
| `MediaModels.Strip` | app/src/main/java/com/naver/android/sampletv/models/TvMediaMetadata.kt:96 | the projection is always stateless and keeps every descriptive field, `playbackPositionMillis` included |
| `MediaModels.StripIdempotent` | app/src/main/java/com/naver/android/sampletv/models/TvMediaMetadata.kt:96 | stripping twice is stripping once |
| `MediaModels.StripFixesExactlyStateless` | app/src/main/java/com/naver/android/sampletv/models/TvMediaMetadata.kt:90-96 | the projection leaves a record unchanged exactly when `isStateless` holds |
| `MediaModels.StripEqualIffSameDescriptive` | app/src/main/java/com/naver/android/sampletv/models/TvMediaMetadata.kt:96 | two records have the same projection exactly when all their non-state fields agree |
| `MediaModels.Equals` | app/src/main/java/com/naver/android/sampletv/models/TvMediaMetadata.kt:93-97 | `equals` is the inherited comparison applied to the receiver's stateless projection; see `EqualsIsBaseOnStrip` and `ReceiverStateIgnored` |
| `MediaModels.Hash` | app/src/main/java/com/naver/android/sampletv/models/TvMediaMetadata.kt:99-104 | `hashCode` is the inherited hash of the receiver's stateless projection; see `HashIsBaseOnStrip` and `ReceiverStateIgnored` |
| `MediaModels.EqualsIsBaseOnStrip` | app/src/main/java/com/naver/android/sampletv/models/TvMediaMetadata.kt:92-97 | a stateless receiver applies the inherited comparison to itself, unchanged |
| `MediaModels.HashIsBaseOnStrip` | app/src/main/java/com/naver/android/sampletv/models/TvMediaMetadata.kt:99-104 | a stateless receiver's `hashCode` is the inherited hash, unchanged |
| `MediaModels.ReceiverStateIgnored` | app/src/main/java/com/naver/android/sampletv/models/TvMediaMetadata.kt:92-104 | two receivers differing only in state give the same `equals` answers and the same `hashCode` |
| `MediaModels.StructuralEqualsImpliesStatelessAndSameHash` | app/src/main/java/com/naver/android/sampletv/models/TvMediaMetadata.kt:92-104 | with a structural base, `a.equals(b)` means `b` is `a`'s stateless projection and the two hash alike |
| `MediaModels.StructuralEqualsNotSymmetric` | app/src/main/java/com/naver/android/sampletv/models/TvMediaMetadata.kt:93-97 | with a structural base, a stateful record equals its stripped copy but the copy does not equal it |
| `MediaModels.StatefulVariantsUnequal` | app/src/main/java/com/naver/android/sampletv/models/TvMediaMetadata.kt:93-97 | with a structural base, two different records that differ only in state are unequal when the argument is stateful |
| `MediaModels.IdentityEquals` | app/src/main/java/com/naver/android/sampletv/models/TvMediaMetadata.kt:93-97 | `equals` as the app has it (`Any` identity behind `super`): true exactly when the receiver is stateless and the argument is the very same object |
| `MediaModels.IdentityEqualsSymmetric` | app/src/main/java/com/naver/android/sampletv/models/TvMediaMetadata.kt:93-97 | as written, the comparison is symmetric; it is reflexivity that fails |
| `MediaModels.IdentityEqualsNotReflexive` | app/src/main/java/com/naver/android/sampletv/models/TvMediaMetadata.kt:93-97 | as written, a record that carries state is not equal to itself |
| `MediaModels.IdentityEqualsCounterexample` | app/src/main/java/com/naver/android/sampletv/models/TvMediaMetadata.kt:93-97 | a record with a 10000 ms duration, compared with itself, is unequal |
| `MediaModels.CatalogHash` | app/src/main/java/com/naver/android/sampletv/models/TvMediaMetadata.kt:99-104 | the intended hash gives the same value for every record with the same descriptive fields |
| `MediaModels.CatalogEqualsIsDescriptiveEquivalence` | app/src/main/java/com/naver/android/sampletv/models/TvMediaMetadata.kt:92-97 | the intended comparison holds exactly when the descriptive fields agree, and is reflexive, symmetric and transitive |
| `MediaModels.CatalogEqualsConsistent` | app/src/main/java/com/naver/android/sampletv/models/TvMediaMetadata.kt:92-104 | intended-equal records hash alike, and records with different titles are never equal |
| `MediaModels.CatalogEqualsMatchesStructuralEquals` | app/src/main/java/com/naver/android/sampletv/models/TvMediaMetadata.kt:92-97 | against a stripped argument, the source's `equals` over a structural base agrees with the intended comparison |
| `Playback.ForwardTarget` | app/src/main/java/com/naver/android/sampletv/fragments/PlayingFragment.kt:60-68 | with a known duration the target is the smaller of the duration and `position + millis`, so never past the end and never behind the start for a forward skip; without one it is `position + millis` |
| `Playback.BackwardTarget` | app/src/main/java/com/naver/android/sampletv/fragments/PlayingFragment.kt:70-72 | the target is the larger of 0 and `position - millis`: never negative, and never above the current position for a backward skip |
| `Playback.SkipsUndoEachOther` | app/src/main/java/com/naver/android/sampletv/fragments/PlayingFragment.kt:60-72 | when neither skip is clamped, skipping back then forward, or forward then back, by the same amount returns to the start |
| `Playback.ActionEffectOf` | app/src/main/java/com/naver/android/sampletv/fragments/PlayingFragment.kt:83-87 | rewind, and only rewind, skips backward; fast-forward, and only it, skips forward; every other action, closed captions included, goes to the superclass |
| `Playback.InterceptKey` | app/src/main/java/com/naver/android/sampletv/fragments/PlayingFragment.kt:152-185 | with the overlay visible nothing is consumed. Otherwise a key is consumed exactly when it is a BACK, DPAD_RIGHT or DPAD_LEFT press. These pop back, skip forward and skip backward respectively |
| `Playback.StartingPosition` | app/src/main/java/com/naver/android/sampletv/fragments/PlayingFragment.kt:132 | the stored playback position, or 0 when there is none |
| `Playback.ParsedRecordsStartAtZero` | app/src/main/java/com/naver/android/sampletv/fragments/PlayingFragment.kt:132 | every record the feed parser produces starts playing at 0 |
| `Playback.PlayerGlue.SkipForward` | app/src/main/java/com/naver/android/sampletv/fragments/PlayingFragment.kt:60-68 | seeks to the forward target; for a non-negative skip it keeps the position within the content and never moves it back |
| `Playback.PlayerGlue.SkipBackward` | app/src/main/java/com/naver/android/sampletv/fragments/PlayingFragment.kt:70-72 | seeks to the backward target; for a non-negative skip it keeps the position within the content and never moves it forward |
| `Playback.PlayerGlue.OnActionClicked` | app/src/main/java/com/naver/android/sampletv/fragments/PlayingFragment.kt:83-87 | dispatches the action and moves the position by the default 10 000 ms skip for rewind and fast-forward only |
| `Playback.PlayerGlue.OnKeyIntercept` | app/src/main/java/com/naver/android/sampletv/fragments/PlayingFragment.kt:152-185 | returns the decision-table outcome; only DPAD_RIGHT and DPAD_LEFT presses with the overlay hidden move the position, by the default skip |
| `Playback.PlayerGlue.OnPreparedStateChanged` | app/src/main/java/com/naver/android/sampletv/fragments/PlayingFragment.kt:128-136 | once prepared the player seeks to the starting position; otherwise nothing moves |
| `Browser.CreditsRow` | app/src/main/java/com/naver/android/sampletv/fragments/MediaBrowswerFragment.kt:114 | the credits row has a name-only header, size 0, and `get` returns null at every position |
| `Browser.Filter` | app/src/main/java/com/naver/android/sampletv/fragments/MediaBrowswerFragment.kt:199 | a record is kept exactly when it is in the list and has the given collection id |
| `Browser.FilterAppend` | app/src/main/java/com/naver/android/sampletv/fragments/MediaBrowswerFragment.kt:199 | filtering a concatenation is the concatenation of the filtered parts, so order is kept |
| `Browser.FilterAllOrNone` | app/src/main/java/com/naver/android/sampletv/fragments/MediaBrowswerFragment.kt:199 | a list whose records all carry the id filters to itself; a list with none of them filters to nothing |
| `Browser.BuildRows` | app/src/main/java/com/naver/android/sampletv/fragments/MediaBrowswerFragment.kt:191-207 | one row per collection, then the credits row last (`collections.size + 1` rows). Row `i` has header `(i, title)` and holds the records with that collection's id, in their original order and multiplicity (the order-preserving filter) |
| `Browser.UnmatchedRecordsAreNotShown` | app/src/main/java/com/naver/android/sampletv/fragments/MediaBrowswerFragment.kt:199 | a record whose collection id names no collection appears in no row |
| `Browser.FilterRecoversGroup` | app/src/main/java/com/naver/android/sampletv/fragments/MediaBrowswerFragment.kt:199 | with distinct ids, filtering the concatenated groups by a group's id gives back exactly that group, in order |
| `Browser.RowsOfParsedFeed` | app/src/main/java/com/naver/android/sampletv/fragments/MediaBrowswerFragment.kt:191-204 | for a parsed feed with distinct collection ids, row `i` holds exactly the `i`-th collection's records in document order |
| `Browser.AreContentsTheSame` | app/src/main/java/com/naver/android/sampletv/fragments/MediaBrowswerFragment.kt:54-56 | a row always has the same contents as itself |
| `Browser.AreContentsTheSameIsEquivalence` | app/src/main/java/com/naver/android/sampletv/fragments/MediaBrowswerFragment.kt:54-56 | for any row hash the contents check is reflexive, symmetric and transitive |
| `Browser.AreItemsTheSame` | app/src/main/java/com/naver/android/sampletv/fragments/MediaBrowswerFragment.kt:58-65 | as written: a match needs equal headers and sizes, and with a reflexive element `==` it is exactly that, whatever the new row's elements; see also `AreItemsTheSameIrreflexiveElement` and `AreItemsTheSameFailsOnParsedRows` |
| `Browser.AreItemsTheSameIrreflexiveElement` | app/src/main/java/com/naver/android/sampletv/fragments/MediaBrowswerFragment.kt:58-65 | an old element that is not equal to itself makes `areItemsTheSame` false whatever the new row |
| `Browser.AreItemsTheSameCounterexample` | app/src/main/java/com/naver/android/sampletv/fragments/MediaBrowswerFragment.kt:58-65 | assuming structural header and element equality, two rows with one header and different single records are reported as the same item |
| `Browser.AppElementEq` | app/src/main/java/com/naver/android/sampletv/fragments/MediaBrowswerFragment.kt:64 | the app's element `==` applied to one element twice: `null` equals itself, and a record equals itself exactly when it is stateless |
| `Browser.AppElementEqIsIdentityOnSameObject` | app/src/main/java/com/naver/android/sampletv/fragments/MediaBrowswerFragment.kt:64 | that element comparison is the identity-based `TvMediaMetadata.equals` of an object with itself |
| `Browser.AreItemsTheSameFailsOnParsedRows` | app/src/main/java/com/naver/android/sampletv/fragments/MediaBrowswerFragment.kt:58-65 | with the app's element `==`, a non-empty row built from a parsed feed is never the same item as any row, itself included; the corrected pairwise check answers the same, so this outcome comes from `TvMediaMetadata.equals` |
| `Browser.AreItemsTheSamePairwise` | app/src/main/java/com/naver/android/sampletv/fragments/MediaBrowswerFragment.kt:58-65 | corrected form: a match needs equal headers and sizes, and a row matches itself whenever both equalities are reflexive; `AreItemsTheSamePairwiseIsSameDisplay` states it exactly |
| `Browser.AreItemsTheSamePairwiseIsSameDisplay` | app/src/main/java/com/naver/android/sampletv/fragments/MediaBrowswerFragment.kt:58-65 | the corrected pairwise check holds exactly when the headers are equal and the two rows show the same elements |
| `Browser.BrowseAdapter.constructor` | app/src/main/java/com/naver/android/sampletv/fragments/MediaBrowswerFragment.kt:107-115 | `init` leaves the main adapter empty and builds the credits row |
| `Browser.BrowseAdapter.SetItems` | app/src/main/java/com/naver/android/sampletv/fragments/MediaBrowswerFragment.kt:207 | the adapter ends up holding exactly the new rows |
| `Browser.BrowseAdapter.PopulateIfEmpty` | app/src/main/java/com/naver/android/sampletv/fragments/MediaBrowswerFragment.kt:100-101 | population happens only when the adapter holds at most one row. The rows are then those built from the parsed feed, ending with the credits row. A parse failure leaves the rows unchanged and is reported |
| `Browser.PopulatedRowsDisablePopulation` | app/src/main/java/com/naver/android/sampletv/fragments/MediaBrowswerFragment.kt:100-101 | after population the adapter holds at most one row exactly when the feed had no collection |
| `LauncherUtils.ParseAspectRatio` | app/src/main/java/com/naver/android/sampletv/utils/TvLauncherUtils.kt:47-57 | succeeds exactly on the six aspect-ratio constants with a positive numerator and denominator; any other constant is an `IllegalArgumentException` |
| `LauncherUtils.ParseAspectRatioTable` | app/src/main/java/com/naver/android/sampletv/utils/TvLauncherUtils.kt:48-53 | 16_9, 1_1, 2_3, 3_2, 4_3 and MOVIE_POSTER map to 16/9, 1/1, 2/3, 3/2, 4/3 and 1000/1441 |
| `LauncherUtils.ParseAspectRatioInjective` | app/src/main/java/com/naver/android/sampletv/utils/TvLauncherUtils.kt:48-53 | two accepted constants denote the same ratio exactly when they are the same constant |
| `LauncherUtils.DefaultArtAspectRatioParses` | app/src/main/java/com/naver/android/sampletv/models/TvMediaMetadata.kt:73 | a record's default `artAspectRatio` always parses, to 1000/1441 |

## Left out

- Reading the `media-feed.json` asset and parsing its text into a `JSONObject` are I/O and library parsing. The model starts from the parsed `Json` tree.
- `Json.GetString`, `Json.AsString`: `org.json` would turn any non-string value (number, boolean, null, array or object) into text. The model accepts only a string value, so on such input it fails where the app would produce text.
- `Json.GetLong`, `Json.GetInt`: `org.json` would also accept doubles and numeric strings, truncating or parsing them. The model accepts only integers in the 64-bit range.
- `Uri.parse` and URIs: these are kept as the strings they are parsed from.
- `Playback.ForwardTarget`, `Playback.BackwardTarget`: `position ± millis` is computed on unbounded integers. A `Long` overflow there would need positions near 2^63 ms.
- `Playback.PlayerGlue`: `seekTo` is modelled as putting the position exactly at the target. ExoPlayer's own handling of the target is not modelled.
- `Playback.PlayerGlue.OnActionClicked`: the superclass's handling of the other actions, such as play/pause, is not modelled. The method only reports that the action was delegated.
- `Playback.PlayerGlue.OnKeyIntercept`: the back-stack pop is an effect tag only. The navigation controller is not modelled.
- The overlay work-around `preventControlsOverlay` (a delayed show/hide) is not modelled, and neither is logging.
- Player and media-source preparation, the `LeanbackPlayerAdapter`, the glue host, `setMetadata` (titles and art loading), `onCreatePrimaryActions`, `onPause` and `onViewCreated` are framework wiring and are not modelled.
- `MediaModels.Equals`, `MediaModels.Hash`: `super.equals` and `super.hashCode` are parameters. The inherited identity is modelled only in `MediaModels.IdentityEquals`, as an object address.
- `MediaModels.IdentityEquals`: the identity hash is not modelled. As written, a stateful record's `hashCode` is the identity hash of a new copy on each call.
- `Browser.AreContentsTheSame`, `Browser.AreItemsTheSame`: the `ListRow` hash, the `HeaderItem` `==` and the element `==` are parameters. In the app the first two are reference identity (Leanback's `ListRow` and `HeaderItem` do not override them). The element `==` is `TvMediaMetadata.equals`, given as `Browser.AppElementEq`.
- The credits row's header name is a string resource and is passed in. A header built from a name only is modelled as having no id.
- Background images, the palette tint, colour animation and image loading are not modelled. Neither are coroutines, `view.post` or item click and select navigation.
- `TvMediaSynchronizer.doWork` is not modelled because it always returns success.
- `TvLauncherUtils.resourceUri` is not modelled because it depends on `Resources` lookups.
- `@Parcelize` parcelling is generated code and is not modelled.

## Findings

| source | as written | input that shows it | evidently intended | confidence | as-written member | corrected member |
|---|---|---|---|---|---|---|
| app/src/main/java/com/naver/android/sampletv/models/TvMediaMetadata.kt:92-104 | `equals` and `hashCode` defer to `super`. Because the data class declares its own `equals`, `super` is `Any`'s identity, and a stateful receiver compares a freshly allocated copy | any parsed record (its duration is set) compared with itself: `equals` is false | equality on the descriptive fields only: an equivalence, with a matching hash | high on Kotlin's data-class rule; not executed | `MediaModels.IdentityEqualsNotReflexive` | `MediaModels.CatalogEqualsIsDescriptiveEquivalence` |
| app/src/main/java/com/naver/android/sampletv/fragments/MediaBrowswerFragment.kt:58-65 | `areItemsTheSame` compares each element of `oldItem` with itself, never with `newItem`'s | two rows with the same header and one element each, the elements being different records, are reported as the same item when the element `==` is reflexive (structural here). With the app's own element `==`, a non-empty parsed row never matches, but the corrected pairwise check answers the same there (`Browser.AreItemsTheSameFailsOnParsedRows`), so that outcome belongs to the `equals` finding above | compare `oldItem`'s element with `newItem`'s at each position | high; not executed | `Browser.AreItemsTheSameCounterexample` | `Browser.AreItemsTheSamePairwiseIsSameDisplay` |
