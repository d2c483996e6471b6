# Animation playground: a verified model of its core

Animation-playground is a browser application that keeps a catalogue of animation examples in
local storage and shows them as tiles. A tile shows one of three things:

- pasted HTML, CSS and JS, in a sandboxed frame that plays only while hovered;
- a CodePen, JSFiddle or other embed;
- a React component.

This project models the application's logic in Dafny and proves what that logic promises. The
browser, the network and the drawing are left out. One Dafny module follows each source file:

- `LivePreview` (src/components/LivePreview.jsx):
  - the `srcdoc` document built for pasted code, including the escaping of closing `</style>`
    and `</script>` tags and the fixed order of the document's pieces;
  - the play/pause controller injected into that document, as a state machine and as a class
    with the flag and the body's class list as fields;
  - the choice between an embed frame, a code frame and the placeholder.
- `Store` (src/data/store.js): the catalogue as a class whose field is the stored list of records.
  - `addExample`, `updateExample` and `getExampleById`;
  - the removed-title filter and `dedupeByTitle`;
  - `getExamples`;
  - `ensureSeedExample`, with its update-or-add steps.
- `UrlResolver` (src/utils/urlResolver.js):
  - the package-input test and `parsePackageName`;
  - `encodeURIComponent`;
  - the CodePen, JSFiddle and generic-embed classification;
  - `titleFromUrl`, `parseTitle` and `parseOgImage`;
  - `resolveInput`.

  What `new URL` and each fetch would answer is a parameter (`Network`).
- `ListPage` (src/pages/ListPage.jsx):
  - the category the page shows and the tiles it filters;
  - the stable sort by a saved id order;
  - the drag-and-drop reorder;
  - the saved tile orders, as a class;
  - `hasLivePreview`.
- `App` (src/App.jsx): the dock order read from storage and from other tabs, and the category
  the dock marks.
- `ThemeToggler` (src/components/animate-ui/components/buttons/theme-toggler.jsx): `getNextTheme`,
  clicks in a row, and `getIcon`.
- `ExampleForm` (src/pages/ExampleForm.jsx):
  - the payload `onFinish` saves, and what it does to the store;
  - the values an edit starts from;
  - the add-by-URL flow.

Four modules are shared:

- `JsValues`: JavaScript values, `||`, `??`, objects as maps, spreading, and what a JSON round
  trip drops.
- `Strings`: `trim` with the ECMAScript whitespace set, ASCII case folding, and prefix and
  substring tests.
- `Seqs`: order-preserving selections, which is what `filter` produces.
- `Categories` (src/constants/categories.js): the categories and the "Online Inspirations" titles.

Regular expressions are written out as the scans they perform: leftmost match, greedy or lazy as
the pattern is.

## Model

| member | source | states |
|---|---|---|
| LivePreview.Escaped | src/components/LivePreview.jsx:47 | the replacement `<\/name>` is one character longer than the closing tag and holds no `<` after its first character |
| LivePreview.EscapeCloseTags | src/components/LivePreview.jsx:47 | escaping never shortens the text and leaves it empty only when it was empty |
| LivePreview.EscapeRemovesCloseTags | src/components/LivePreview.jsx:47-52 | after escaping, no closing tag occurs anywhere in the text in any ASCII case |
| LivePreview.EscapeLengthens | src/components/LivePreview.jsx:47-52 | text without a closing tag is left unchanged; text holding one comes out strictly longer |
| LivePreview.EscapeIsIdentityIffClean | src/components/LivePreview.jsx:47-52 | escaping changes a text exactly when the text holds a closing tag |
| LivePreview.EscapeIdempotent | src/components/LivePreview.jsx:47-52 | escaping twice is escaping once |
| LivePreview.LowerCloseTagsOnlyFoldsCase | src/components/LivePreview.jsx:47-52 | writing each matched closing tag in lower case keeps the length and every character up to ASCII case, and changes nothing in text without a closing tag |
| LivePreview.UnescapeOfEscape | src/components/LivePreview.jsx:47-52 | removing the backslash from each `<\/name>` of the escaped text gives back the input with its matched tags in lower case, for input holding no `<\/name>` of its own |
| LivePreview.EscapePrefix | src/components/LivePreview.jsx:47 | up to its first `<`, the escaped text is the original text |
| LivePreview.WrapperClosesAtBoundary | src/components/LivePreview.jsx:48-54 | after content with no match of the closing tag in any ASCII case, the appended closing tag is the first such match after the content begins |
| LivePreview.ElementInContext | src/components/LivePreview.jsx:48-54 | in an element of opening tag, clean content and closing tag, between any text, the first ASCII-case match of the closing tag after the opening tag is its own |
| LivePreview.BodyHtml | src/components/LivePreview.jsx:46 | blank or missing HTML becomes `<div></div>`, any other HTML is trimmed, and the body is never empty |
| LivePreview.Layout | src/components/LivePreview.jsx:55 | ten pieces: charset first, the font link second, the user style third, the HTML seventh and the user script ninth |
| LivePreview.Concat | src/components/LivePreview.jsx:55 | joining puts the first piece in front of the rest, and every piece fits within the result |
| LivePreview.Document | src/components/LivePreview.jsx:55 | the document is never empty |
| LivePreview.Srcdoc | src/components/LivePreview.jsx:44-56 | a document exists exactly for preview type "code", and it is never empty |
| LivePreview.UserElementsEmittedIffNonEmpty | src/components/LivePreview.jsx:48-54 | the user's style element is emitted exactly when the trimmed CSS is non-empty; likewise the script element and the JS |
| LivePreview.ConcatSplit | src/components/LivePreview.jsx:55 | each piece is placed right after the join of all the pieces before it |
| LivePreview.DocumentOrder | src/components/LivePreview.jsx:55 | every piece occurs at the offset of the pieces before it, so the head holds charset, font, user CSS, background and pause style in that order, and the body holds HTML, controller and user JS in that order |
| LivePreview.ElementClosesAtBoundary | src/components/LivePreview.jsx:55 | in the joined document, the first ASCII-case match of the closing tag after a clean element piece's opening tag is the piece's own closing tag |
| LivePreview.UserStyleShape | src/components/LivePreview.jsx:47-48 | a non-empty style element wraps escaped CSS that holds no `</style>` |
| LivePreview.UserScriptShape | src/components/LivePreview.jsx:52-54 | a non-empty script element wraps escaped JS that holds no `</script>` |
| LivePreview.UserStyleClosesAtBoundary | src/components/LivePreview.jsx:47-55 | whatever the CSS, no `</style>` in any ASCII case occurs inside the user's style element, so the `</style>` the document appends is the first such tag after `<style>` |
| LivePreview.CleanCssKept | src/components/LivePreview.jsx:47 | trimmed CSS with no `</style>` in any ASCII case reaches the document as written |
| LivePreview.SpacedStyleTagIsNotEscaped | src/components/LivePreview.jsx:47 | the CSS `a</style >b` reaches the document unescaped, with `</style ` at position 1 |
| LivePreview.UserScriptClosesAtBoundary | src/components/LivePreview.jsx:52-55 | whatever the JS, no `</script>` in any ASCII case occurs inside the user's script element, so the `</script>` the document appends is the first such tag after `<script>` |
| LivePreview.SrcdocIsSandboxDocument | src/components/LivePreview.jsx:44-56 | the code preview's `srcdoc` is the document in the fixed sandbox pieces, so the results above hold of it |
| LivePreview.Choose | src/components/LivePreview.jsx:69-98 | an embed frame on the URL with sandbox "allow-scripts allow-same-origin" exactly for an embed with a truthy URL; a frame on the document with sandbox "allow-scripts" exactly for code with a non-empty document; the placeholder otherwise |
| LivePreview.Render | src/components/LivePreview.jsx:44-98 | every code preview gets a frame on its `srcdoc`, and the embed frame is chosen as above |
| LivePreview.EmptyCodePreviewStillRendersFrame | src/components/LivePreview.jsx:46-92 | a code preview with no code at all still gets a sandboxed frame, around `<div></div>` |
| LivePreview.Play | src/components/LivePreview.jsx:10-13 | `playPreview()`: the flag set and `preview-playing` added; `LivePreview.TransitionsIdempotent` and `LivePreview.NextKeepsConsistent` state its properties |
| LivePreview.Pause | src/components/LivePreview.jsx:6-9 | `pausePreview()`: the flag cleared and `preview-playing` removed |
| LivePreview.OnMessage | src/components/LivePreview.jsx:14-17 | the message listener: the play test, then the pause test; `LivePreview.UnrecognisedMessageIgnored` and `LivePreview.OnlyPlaySignalStartsPlaying` state its effect |
| LivePreview.Next | src/components/LivePreview.jsx:14-20 | the controller's response to each event it listens to; `LivePreview.EventOutcomes` states it event by event |
| LivePreview.Consistent | src/components/LivePreview.jsx:5-13 | the flag and the `preview-playing` class agree; `LivePreview.NextKeepsConsistent` proves every event keeps it |
| LivePreview.SignalsExclusive | src/components/LivePreview.jsx:15-16 | no message is both a play and a pause signal |
| LivePreview.InitialIsPausedAndConsistent | src/components/LivePreview.jsx:5 | the controller starts paused, with the flag and the body class in agreement |
| LivePreview.NextKeepsConsistent | src/components/LivePreview.jsx:6-20 | every event keeps the flag and the `preview-playing` class in agreement |
| LivePreview.TransitionsIdempotent | src/components/LivePreview.jsx:6-13 | play and pause are idempotent, and playing while playing or pausing while paused changes nothing |
| LivePreview.UnrecognisedMessageIgnored | src/components/LivePreview.jsx:14-17 | a message that is neither signal leaves the state unchanged |
| LivePreview.EventOutcomes | src/components/LivePreview.jsx:14-20 | mouseleave on the document or its root, blur and a pause signal all end paused; a play signal ends playing |
| LivePreview.OnlyPlaySignalStartsPlaying | src/components/LivePreview.jsx:14-20 | from paused, only a play signal starts playing |
| LivePreview.PreviewController.constructor | src/components/LivePreview.jsx:5 | the loaded controller is in the initial paused state |
| LivePreview.PreviewController.PlayPreview | src/components/LivePreview.jsx:10-13 | sets the flag and adds the class, as the play transition says |
| LivePreview.PreviewController.PausePreview | src/components/LivePreview.jsx:6-9 | clears the flag and removes the class, as the pause transition says |
| LivePreview.PreviewController.HandleMessage | src/components/LivePreview.jsx:14-17 | applies the play test and then the pause test to the message |
| LivePreview.PreviewController.Dispatch | src/components/LivePreview.jsx:14-20 | each listener moves the fields to the state the event leads to |
| Store.FindFirst | src/data/store.js:53 | the index of the first record with the key's value, and absence exactly when no record has it |
| Store.WithIdentity | src/data/store.js:58-62 | the new record has the fresh id and timestamp, and every other key of the example |
| Store.CleanAll | src/data/store.js:17-27 | a list written and read back through JSON keeps its length and every field except those holding `undefined` |
| Store.CleanAllOfClean | src/data/store.js:17-27 | a list read from storage is its own JSON round trip |
| Store.Added | src/data/store.js:56-66 | one record is appended, with the caller's fields and a fresh identity; every earlier record is unchanged |
| Store.Updated | src/data/store.js:68-75 | nothing changes when no record has the id; otherwise only the first record with the id changes, its fields overridden by the payload's and the rest kept |
| Store.AddedIsFoundById | src/data/store.js:52-66 | a record added under an unused id is what a lookup by that id finds |
| Store.IsRemovedTitle | src/data/store.js:79-83 | `isRemovedTitle`: a non-empty string whose trimmed, lower-cased form is that of a removed title; `Store.RemovedTitleIgnoresSurroundingSpace` and `Store.RemovedTitleIgnoresCase` state its invariances |
| Store.WithoutRemoved | src/data/store.js:85-86 | the filter of `removeDeletedTitles`; `Store.WithoutRemovedSelects` proves it keeps, in order, exactly the records not removed |
| Store.RemovedTitlesAreNotBlank | src/data/store.js:77 | no removed title is blank, so a blank title is never removed |
| Store.RemovedTitleIgnoresSurroundingSpace | src/data/store.js:79-83 | whitespace around a title does not change whether it is removed |
| Store.RemovedTitleIgnoresCase | src/data/store.js:79-83 | letter case does not change whether a title is removed |
| Store.WithoutRemovedSelects | src/data/store.js:47-86 | the filter keeps, in order, exactly the records whose title is not removed |
| Store.TitleKey | src/data/store.js:35-36 | the trimmed title when it is one of `DEDUPE_TITLES`, and nothing for other titles and non-strings |
| Store.KeyOf | src/data/store.js:35 | the de-duplication key of a record's title |
| Store.DedupeFrom | src/data/store.js:32-40 | the filter of `dedupeByTitle` with its set of seen titles; `Store.DedupeFromSelects` proves what it keeps |
| Store.Dedupe | src/data/store.js:32-43 | what `dedupeByTitle` returns; `Store.DedupeSelects`, `Store.DedupeOfDistinct` and `Store.DedupeIdempotent` state its properties |
| Store.DedupeFromSelects | src/data/store.js:32-40 | from any set of titles already seen, the filter keeps a subsequence with one record per de-duplicated title not yet seen, keeps every other record in order, and keeps the first record of each unseen title |
| Store.DedupeSelects | src/data/store.js:32-43 | `dedupeByTitle` keeps a subsequence with at most one record per de-duplicated title, keeps every other record in order, and keeps the first record of each such title |
| Store.DedupeOfDistinct | src/data/store.js:32-43 | a list with at most one record per de-duplicated title is left as it is |
| Store.DedupeIdempotent | src/data/store.js:32-43 | de-duplicating twice is de-duplicating once |
| Store.Examples | src/data/store.js:45-50 | what `getExamples` returns: the removed-title filter, then `dedupeByTitle`; `Store.ExamplesAreCleanedUp` and `Store.ExamplesOfTidy` state its properties |
| Store.ExamplesAreCleanedUp | src/data/store.js:45-50 | `getExamples` returns records of the stored list, in order, none with a removed title and at most one per de-duplicated title |
| Store.ArrangeSeeds | src/data/store.js:137-176 | the seeds are visited text effects first, then backgrounds, then buttons |
| Store.DefinedPayload | src/data/store.js:149-156 | a background or button refresh sets exactly the code, preview and component fields the seed defines |
| Store.UpdatedKeepsIdentities | src/data/store.js:68-75 | an update whose payload leaves `id` and `title` alone keeps every record's id and title in place |
| Store.AddedAppendsIdentity | src/data/store.js:56-66 | an add appends the new record's id and title and keeps the others |
| Store.SeedStepIdentities | src/data/store.js:137-176 | a group seed is added exactly when no stored record carries its title; otherwise every record keeps its id and title |
| Store.SeedPayloadsKeepIdentity | src/data/store.js:140-155 | neither refresh payload touches `id` or `title` |
| Store.AvatarStep | src/data/store.js:111-122 | the Avatar Group step: refresh the found record, add the seed to an empty list, else nothing; `Store.AvatarStepIdentities` states what it adds |
| Store.CursorStep | src/data/store.js:124-135 | the Cursor step: looked up in the cleaned list, refreshed or added in the current one; `Store.CursorStepIdentities` states what it adds |
| Store.Showcase | src/data/store.js:111-135 | the Avatar Group step followed by the Cursor step; `Store.ShowcaseFirstTime` and `Store.ShowcaseWhenPresent` state its effect |
| Store.SeedStep | src/data/store.js:137-176 | one iteration of a group loop: refresh the record with the seed's exact title, or add the seed; `Store.SeedStepIdentities` states what it adds |
| Store.SeedFold | src/data/store.js:137-176 | the three `forEach` loops, one seed after the other; `Store.SeedFoldFirstTime` and `Store.SeedFoldWhenPresent` state their effect |
| Store.Seeded | src/data/store.js:91-176 | the stored list after `ensureSeedExample`: clean-up, showcase steps, group loops; `Store.FirstSeeding`, `Store.SecondSeedingAddsNothing` and `Store.PaddedTitleChurnsOnEverySeeding` state what it does |
| Store.AvatarStepIdentities | src/data/store.js:111-122 | the Avatar Group seed is added only to an empty cleaned list |
| Store.CursorStepIdentities | src/data/store.js:124-135 | the Cursor seed is added exactly when the cleaned list has no Cursor record |
| Store.FoundIffHasTitle | src/data/store.js:97 | a lookup by title succeeds exactly when some record carries that title |
| Store.ExamplesOfTidy | src/data/store.js:45-50 | a list without removed titles and with at most one record per de-duplicated title is its own clean-up |
| Store.ExamplesAreTidy | src/data/store.js:45-50 | the clean-up of a list whose de-duplicated titles are written exactly is such a list |
| Store.SeedStepFirstTime | src/data/store.js:137-176 | seeding one safe title keeps the list free of what the clean-up removes, keeps the records already there in front, and leaves the title present |
| Store.SeedFoldFirstTime | src/data/store.js:137-176 | the group loops keep the list free of what the clean-up removes, keep the earlier records in front, and leave every seed's title present |
| Store.SeedFoldWhenPresent | src/data/store.js:137-176 | when every seed's title is present, the group loops add nothing and keep every id and title |
| Store.AvatarStepFirstTime | src/data/store.js:111-122 | the Avatar Group step keeps the list free of what the clean-up removes and keeps the cleaned records in front |
| Store.CursorStepFirstTime | src/data/store.js:124-135 | the Cursor step keeps the list free of what the clean-up removes and leaves the Cursor title present |
| Store.ShowcaseFirstTime | src/data/store.js:111-135 | the Avatar Group and Cursor steps keep such a list so and leave the Cursor title present |
| Store.ShowcaseWhenPresent | src/data/store.js:111-135 | over a non-empty list holding a Cursor record, the Avatar Group and Cursor steps add nothing |
| Store.FirstSeeding | src/data/store.js:91-176 | when every stored title that trims to a de-duplicated title is already exact, after one `ensureSeedExample` the list passes the clean-up unchanged and holds the Cursor title and every group seed's title |
| Store.SecondSeedingAddsNothing | src/data/store.js:91-176 | when every stored title that trims to a de-duplicated title is already exact, a second `ensureSeedExample` adds nothing: the stored records keep their number, ids and titles |
| Store.RemovedTitlesAreTrimmed | src/data/store.js:77 | every removed title is written without surrounding whitespace |
| Store.UnlikeRemovedIsSafe | src/data/store.js:79-83 | a trimmed title differing from every removed title in length or first lower-cased letter is never removed and is not a de-duplicated title in another spelling |
| Store.ShowcaseTitlesAreUnlikeRemoved | src/data/store.js:111-124 | "Avatar Group" and "Cursor" are never removed |
| Store.TextEffectTitlesAreUnlikeRemoved | src/data/seedExample.js:246-331 | no text-effect seed title is ever removed |
| Store.BackgroundEffectTitlesAreUnlikeRemoved | src/data/seedExample.js:343-726 | no background seed title is ever removed |
| Store.ButtonInteractionTitlesAreUnlikeRemoved | src/data/seedExample.js:820 | the button seed title is never removed |
| Store.GroupTitlesAreUnlikeRemoved | src/data/store.js:137-176 | no title of the three seed groups is ever removed |
| Store.CatalogueSeedsAreSafe | src/data/store.js:111-176 | the catalogue's own seeds meet what the second-seeding result asks of seeds |
| Store.ShowcaseTitlesAreSafe | src/data/store.js:111-124 | the Avatar Group and Cursor titles are safe and are not de-duplicated titles |
| Store.CatalogueGroupsAreSafe | src/data/store.js:137-176 | group seeds carrying the catalogue's titles are all safe |
| Store.CatalogueSecondSeedingAddsNothing | src/data/store.js:91-176 | with the catalogue's own seeds, and stored de-duplicated titles already exact, a second `ensureSeedExample` adds nothing |
| Store.PaddedTitleChurnsOnEverySeeding | src/data/store.js:30-176 | from a stored " Generative Noise ", the list after one `ensureSeedExample` does not pass the clean-up unchanged, and the next call changes the stored identities: the clean-up compares trimmed titles, the seed loops exact ones |
| Store.FirstSeedingFromPadded | src/data/store.js:91-176 | from one record titled " Generative Noise ", the first call appends Cursor and an exact "Generative Noise" |
| Store.NextSeedingReaddsNoise | src/data/store.js:91-176 | on the padded record, Cursor and the exact title, the next call keeps the first two and appends the exact title under the new id |
| Store.CleanupDropsRepeat | src/data/store.js:30-50 | of three records none removed, the third repeating the first's de-duplicated title, the clean-up keeps the first two |
| Store.CleanupDropsExactNoise | src/data/store.js:30-50 | the clean-up drops an exact "Generative Noise" that follows a padded one |
| Store.CleanedListIsStored | src/data/store.js:41-87 | a filtered list read from storage is its own JSON round trip, and one that dropped nothing is the list itself, so the conditional writes lose nothing |
| Store.CatalogStore.constructor | src/data/store.js:15-24 | the store holds what storage holds, read through JSON |
| Store.CatalogStore.Persist | src/data/store.js:26-28 | the stored list becomes the written list, read back through JSON |
| Store.CatalogStore.GetExampleById | src/data/store.js:52-54 | the first stored record with the id, or nothing exactly when no record has it |
| Store.CatalogStore.AddExample | src/data/store.js:56-66 | the stored list becomes the list with the new record appended, and the new record is returned |
| Store.CatalogStore.UpdateExample | src/data/store.js:68-75 | the stored list becomes the updated list; the result is absent exactly when no record had the id, and is otherwise the merged record |
| Store.CatalogStore.RemoveDeletedTitles | src/data/store.js:85-89 | returns the records without a removed title, and writes them only when one was dropped |
| Store.CatalogStore.DedupeByTitle | src/data/store.js:32-43 | the loop with its set of seen titles returns the de-duplicated list, written only when a record was dropped |
| Store.CatalogStore.GetExamples | src/data/store.js:45-50 | returns the cleaned-up stored list, which is also what is left in storage |
| Store.CatalogStore.SeedShowcase | src/data/store.js:111-135 | performs the Avatar Group and Cursor steps over the cleaned list |
| Store.CatalogStore.SeedOne | src/data/store.js:137-176 | one loop iteration: refreshes the stored record with the seed's title, or adds the seed |
| Store.CatalogStore.EnsureSeedExample | src/data/store.js:91-176 | the stored list becomes the clean-up, then the showcase steps, then one update-or-add per group seed |
| UrlResolver.Run | src/utils/urlResolver.js:122 | the longest run of a character class from a position |
| UrlResolver.IndexOfCI | src/utils/urlResolver.js:226 | the first position from `from` where a pattern matches with ASCII case ignored, and none exactly when there is no such position |
| UrlResolver.IndexOfOrEnd | src/utils/urlResolver.js:226-228 | the first position holding a character, or the end when there is none |
| UrlResolver.PercentEncode | src/utils/urlResolver.js:64-65 | three characters per byte: `%` and two upper-case hex digits |
| UrlResolver.EncodeUriComponent | src/utils/urlResolver.js:64-65 | the result holds only unreserved characters and `%` |
| UrlResolver.EncodeLength | src/utils/urlResolver.js:64-65 | escaping never shortens; it keeps the length only when nothing needed escaping, and leaves unreserved text as it is |
| UrlResolver.EncodeIsIdentityIffUnreserved | src/utils/urlResolver.js:64-65 | the text is left as it is exactly when every character is unreserved |
| UrlResolver.EncodedIsOneComponent | src/utils/urlResolver.js:64-65 | the escaped text holds no `/`, `?`, `#`, `&`, `=`, space or quote, so it stays one path segment or query value |
| UrlResolver.IsScopedPackage | src/utils/urlResolver.js:28 | the scoped-package pattern written as a scan; `UrlResolver.ScopedPackageParts` and `UrlResolver.ScopedPackageAccepted` state it both ways |
| UrlResolver.HasHttpScheme | src/utils/urlResolver.js:30 | `/^https?:\/\//i` as a case-insensitive prefix test |
| UrlResolver.IsUnscopedPackage | src/utils/urlResolver.js:30 | the unscoped-package pattern as a scan; `UrlResolver.UnscopedBranchNeverFires` proves the branch using it never holds |
| UrlResolver.IsNpmPackageInput | src/utils/urlResolver.js:23-32 | `isNpmPackageInput`: the three tests in the source's order; `UrlResolver.NpmPackageInputIff` states when it holds |
| UrlResolver.ScopedPackageAccepted | src/utils/urlResolver.js:28 | `@scope/name` with an optional `@version` is a scoped package name |
| UrlResolver.VersionedScopedPackageAccepted | src/utils/urlResolver.js:28 | `@scope/name@version` is a scoped package name |
| UrlResolver.ScopedPackageParts | src/utils/urlResolver.js:28 | every scoped package name is `@scope/name` with an optional `@version`, each part made of word characters |
| UrlResolver.UnscopedBranchNeverFires | src/utils/urlResolver.js:30 | the unscoped test never holds, since its pattern admits no `/` and the same test then requires one |
| UrlResolver.NpmPackageInputIff | src/utils/urlResolver.js:23-32 | an input is a package input exactly when it starts with one of the four command prefixes or is a scoped package name |
| UrlResolver.TokenAfter | src/utils/urlResolver.js:42 | the token after whitespace is non-empty and holds no whitespace |
| UrlResolver.KeywordToken | src/utils/urlResolver.js:42 | a match of `add` or `install`, whitespace and a token at some position at or after `from`, absent exactly when no position matches, and its token is non-empty without whitespace; `UrlResolver.KeywordTokenIsLeftmost` proves the match is the leftmost |
| UrlResolver.KeywordTokenIsLeftmost | src/utils/urlResolver.js:42 | the keyword search's match is the leftmost one: the pattern matches at no earlier position |
| UrlResolver.LastToken | src/utils/urlResolver.js:46-47 | the last word: a whitespace-free suffix preceded by whitespace or the start |
| UrlResolver.NpxPackage | src/utils/urlResolver.js:45-49 | the last word of an `npx` command, when there is one, is non-empty |
| UrlResolver.ParsePackageName | src/utils/urlResolver.js:39-52 | a parsed package name is never empty, and when the keyword pattern matches the trimmed input the name is the token after its leftmost match |
| UrlResolver.KeywordCommandNamesPackage | src/utils/urlResolver.js:42-43 | a command without `add` or `install` in it, followed by `add` or `install` and a package, names that package |
| UrlResolver.ShadcnAddNamesPackage | src/utils/urlResolver.js:41-43 | the command `npx shadcn@latest add @animate-ui/components-animate-avatar-group` names `@animate-ui/components-animate-avatar-group` |
| UrlResolver.InstallCommandNamesPackage | src/utils/urlResolver.js:42-43 | `npm install <package>` names that package |
| UrlResolver.ResolveNpmPackage | src/utils/urlResolver.js:59-95 | an unparsable command gives "Could not parse package name from command"; a success has no embed, the package's npm page as its source, a title and a non-empty description; every error message is non-empty |
| UrlResolver.PackageResolution | src/utils/urlResolver.js:78-86 | the registry's name or else the package name as title, and the trimmed description or else the install command |
| UrlResolver.WithScheme | src/utils/urlResolver.js:109-112 | the result has an `http(s)://` scheme, and a URL that already has one is kept |
| UrlResolver.WithSchemeIdempotent | src/utils/urlResolver.js:109-112 | adding the scheme twice is adding it once |
| UrlResolver.CaptureAt | src/utils/urlResolver.js:121-153 | a match at a position captures a non-empty user without `/` and a non-empty id without `/`, `?` or `#` |
| UrlResolver.Capture | src/utils/urlResolver.js:121-153 | a leftmost match captures a non-empty user and id |
| UrlResolver.PenCapture | src/utils/urlResolver.js:121-123 | the CodePen pen pattern as the leftmost capture; `UrlResolver.PenCaptureOfCanonical` states what it captures |
| UrlResolver.PenEmbedCapture | src/utils/urlResolver.js:136-139 | the CodePen embed pattern as the leftmost capture |
| UrlResolver.FiddleCapture | src/utils/urlResolver.js:151-153 | the JSFiddle pattern as the leftmost capture (the optional trailing `/` changes no capture); `UrlResolver.FiddleCaptureOfCanonical` states what it captures |
| UrlResolver.CaptureNoneIff | src/utils/urlResolver.js:121-153 | nothing matches exactly when the pattern matches at no position |
| UrlResolver.CaptureIsLeftmost | src/utils/urlResolver.js:121-153 | the match is the one at the first position where the pattern matches |
| UrlResolver.CaptureAtParts | src/utils/urlResolver.js:121-153 | host, user, separator and id in a row match with that user and id |
| UrlResolver.CaptureOfCanonical | src/utils/urlResolver.js:121-153 | a URL of a prefix, the host, a user, the separator, an id and a tail starting with `/`, `?` or `#` captures that user and id |
| UrlResolver.NoHostNoCapture | src/utils/urlResolver.js:121-153 | a URL without the host matches nothing |
| UrlResolver.CodePenTitle | src/utils/urlResolver.js:247-257 | a CodePen title is non-empty and trimmed |
| UrlResolver.PenTitle | src/utils/urlResolver.js:127-130 | the oEmbed title when there is one, else `CodePen - user/id`; `UrlResolver.PenUrlResolves` states it in the resolution |
| UrlResolver.LastSegment | src/utils/urlResolver.js:170 | the last non-empty path segment holds no `/`, and is empty exactly when the path is all slashes |
| UrlResolver.TitleFromUrl | src/utils/urlResolver.js:194-204 | the title never exceeds 60 characters |
| UrlResolver.TitleFromUrlShape | src/utils/urlResolver.js:194-200 | the host without a leading `www.` and the path unless it is `/`, kept when they fit in 60 characters, else their first 57 characters and `...` |
| UrlResolver.TagEnd | src/utils/urlResolver.js:228 | a tag ends at a `>` at least two characters on |
| UrlResolver.StripTags | src/utils/urlResolver.js:228 | `.replace(/<[^>]+>/g, '')` as a scan; `UrlResolver.StripTagsLeavesNoTags` and `UrlResolver.StripTagsWithoutClose` state its effect |
| UrlResolver.StripTagsWithoutClose | src/utils/urlResolver.js:228 | text without `>` holds no tag and is left as it is |
| UrlResolver.StripTagsLeavesNoTags | src/utils/urlResolver.js:228 | removing tags leaves no tag behind |
| UrlResolver.ParseTitle | src/utils/urlResolver.js:225-229 | a title found is non-empty and trimmed |
| UrlResolver.TitleOfPlainElement | src/utils/urlResolver.js:225-229 | `<title>text</title>` gives the trimmed text, or nothing when it is blank |
| UrlResolver.ValueAt | src/utils/urlResolver.js:233-235 | a quoted attribute value is non-empty and holds no quote |
| UrlResolver.OgMatch | src/utils/urlResolver.js:231-237 | a matched `og:image` value is non-empty and holds no quote |
| UrlResolver.PropertyFirstAt | src/utils/urlResolver.js:233 | the `property` then `content` pattern at one position: a value found is non-empty and holds no quote |
| UrlResolver.ContentFirstAt | src/utils/urlResolver.js:235 | the `content` then `property` pattern at one position: a value found is non-empty and holds no quote |
| UrlResolver.ParseOgImage | src/utils/urlResolver.js:231-240 | `parseOgImage`: the first pattern's match, else the second's, trimmed, kept when it starts with `http`; `UrlResolver.OgImageIsHttpUrl` states its shape |
| UrlResolver.PageTitle | src/utils/urlResolver.js:211-223 | the title `fetchPageMetadata` reports: the parsed title of a fetched page, nothing otherwise |
| UrlResolver.Thumbnail | src/utils/urlResolver.js:211-223 | the thumbnail `fetchPageMetadata` reports: `undefined` when the page could not be fetched, the `og:image` URL or `null` |
| UrlResolver.OgImageIsHttpUrl | src/utils/urlResolver.js:231-240 | the thumbnail starts with `http`, holds no quote and no surrounding whitespace |
| UrlResolver.LooksEmbedded | src/utils/urlResolver.js:165-169 | the three generic embed tests as written; `UrlResolver.LooksEmbeddedIff` reduces them to one |
| UrlResolver.LooksEmbeddedIff | src/utils/urlResolver.js:165-169 | the generic embed test holds exactly when the URL contains `/embed`: its last two tests add nothing |
| UrlResolver.ResolveEmbed | src/utils/urlResolver.js:121-176 | one of the CodePen, CodePen embed, JSFiddle or generic embed branches applies exactly when a pattern matches or the URL looks embedded; the result then has no error, the URL as its source and a non-empty title |
| UrlResolver.ResolvePage | src/utils/urlResolver.js:179-186 | any other page resolves without an error, with no embed, the URL as its source and a string title |
| UrlResolver.ResolveAnimationUrl | src/utils/urlResolver.js:103-187 | blank input gives "Enter a URL"; otherwise the source is the URL with its scheme, and the result has no error exactly when the URL parses |
| UrlResolver.HttpsUrlIsKept | src/utils/urlResolver.js:104-112 | a URL with `https://` and no surrounding whitespace is its own source URL |
| UrlResolver.ResolvesViaEmbed | src/utils/urlResolver.js:114-176 | a parsable URL with a recognised embed resolves to that embed |
| UrlResolver.PenCaptureOfCanonical | src/utils/urlResolver.js:121-125 | a canonical CodePen pen URL captures its user and pen id |
| UrlResolver.FiddleCaptureOfCanonical | src/utils/urlResolver.js:151-155 | a canonical JSFiddle URL captures its user and fiddle id |
| UrlResolver.PenUrlResolves | src/utils/urlResolver.js:121-133 | a CodePen pen URL gets `https://codepen.io/user/embed/id?default-tab=result`, and the oEmbed title or else `CodePen - user/id` |
| UrlResolver.PenResolution | src/utils/urlResolver.js:121-133 | whenever the pen pattern matches, it decides the embed and the title, ahead of every later branch |
| UrlResolver.FiddleUrlResolves | src/utils/urlResolver.js:151-161 | a JSFiddle URL gets `https://jsfiddle.net/user/id/embedded/result/` and the title `JSFiddle - user/id` |
| UrlResolver.FiddleResolution | src/utils/urlResolver.js:151-161 | with no CodePen match, a JSFiddle match decides the embed and the title |
| UrlResolver.ResolveInput | src/utils/urlResolver.js:7-16 | blank input gives "Enter a URL or package command"; package input goes to the registry resolver, anything else to the URL resolver, both on the trimmed input |
| ListPage.CategoryFilter | src/pages/ListPage.jsx:50 | the URL's category when it is a known one, otherwise "Background effect" |
| ListPage.TrimmedTitle | src/pages/ListPage.jsx:90 | `ex.title?.trim() ?? ''` for a string, `undefined` or `null` title |
| ListPage.Shown | src/pages/ListPage.jsx:88-93 | under "all", a trimmed title among the Online Inspirations titles; otherwise the category itself |
| ListPage.Filtered | src/pages/ListPage.jsx:87-94 | `filtered`; `ListPage.FilteredSelects` proves it keeps, in order, exactly the shown examples |
| ListPage.FilteredSelects | src/pages/ListPage.jsx:87-94 | the filter keeps, in order, exactly the examples of the category; under "all", those whose trimmed title is an Online Inspirations title |
| ListPage.InspirationTitlesAreTrimmed | src/constants/categories.js:8 | the Online Inspirations titles carry no surrounding whitespace |
| ListPage.PaddedInspirationTitleIsShown | src/pages/ListPage.jsx:88-91 | under "all", whitespace around an Online Inspirations title does not hide the tile |
| ListPage.Rank | src/pages/ListPage.jsx:99-103 | a saved id sorts by its last index in the order, and an unsaved id by 1e9 |
| ListPage.InsertByRank | src/pages/ListPage.jsx:100-104 | inserts in front of the first element whose rank is not smaller; `ListPage.InsertPermutes`, `ListPage.InsertKeepsSorted` and `ListPage.InsertWithRank` state its properties |
| ListPage.SortByRank | src/pages/ListPage.jsx:100-104 | the sort by rank; `ListPage.SortByRankIsStableSort` proves it a stable sort, and `ListPage.AnyStableSortIsSortByRank` the engine's result |
| ListPage.InsertPermutes | src/pages/ListPage.jsx:100-104 | inserting adds exactly one element |
| ListPage.InsertKeepsSorted | src/pages/ListPage.jsx:100-104 | inserting into a sorted list keeps it sorted |
| ListPage.InsertWithRank | src/pages/ListPage.jsx:100-104 | inserting puts an element in front of the others of its key and leaves other keys as they were |
| ListPage.SortByRankIsStableSort | src/pages/ListPage.jsx:100-104 | the sort is a permutation, sorted by key, with each key's elements in their original order |
| ListPage.StableSortIsUnique | src/pages/ListPage.jsx:100-104 | two sorted arrangements of the same elements with each key's elements in the same order are equal |
| ListPage.AnyStableSortIsSortByRank | src/pages/ListPage.jsx:100-104 | whatever stable sort the engine uses, its result is the modelled one |
| ListPage.OrderedList | src/pages/ListPage.jsx:96-105 | `orderedList`; `ListPage.OrderedListFollowsSavedOrder` and `ListPage.OrderedListWithoutOrder` state its order |
| ListPage.OrderedListFollowsSavedOrder | src/pages/ListPage.jsx:96-105 | with a saved order, the tiles are a permutation of the filtered ones; saved ids come first, by their index; unsaved ids keep their relative order |
| ListPage.OrderedListWithoutOrder | src/pages/ListPage.jsx:98 | without a saved order, or with an empty one, the tiles keep the filter's order |
| ListPage.EmptyOrderSortsNothing | src/pages/ListPage.jsx:98-104 | an empty order would leave the list as it is anyway |
| ListPage.FindIndex | src/pages/ListPage.jsx:176-177 | the index of the first tile with the id, or absence exactly when no tile has it |
| ListPage.RemoveAt | src/pages/ListPage.jsx:179 | removing index `i` shifts the later elements down by one |
| ListPage.RemoveAtPermutes | src/pages/ListPage.jsx:179 | removing takes out exactly the element at `i` |
| ListPage.InsertAt | src/pages/ListPage.jsx:180 | splicing in puts the element at `i`, and removing it again gives the list back |
| ListPage.Moved | src/pages/ListPage.jsx:179-180 | the moved list is a permutation with the dragged tile at the target index and the others in their order |
| ListPage.MovedIsUnique | src/pages/ListPage.jsx:179-180 | the moved list is the only one with the dragged tile at the target index and the others in their previous order |
| ListPage.Ids | src/pages/ListPage.jsx:181 | the ids of the tiles, in order |
| ListPage.DropOrder | src/pages/ListPage.jsx:170-182 | nothing is saved when either id is unset or missing from the list, or when they are equal; otherwise the ids of the moved list |
| ListPage.DropOrderMovesOneTile | src/pages/ListPage.jsx:176-181 | a saved drop is a permutation of the ids, with the dragged id at the target's former index and every other id in its relative order |
| ListPage.IdsOfRemoveAt | src/pages/ListPage.jsx:179-181 | removing a tile removes its id |
| ListPage.TileOrders.constructor | src/pages/ListPage.jsx:32-41 | the state starts from the stored object, or from `{}` when there is none or it is not an object |
| ListPage.TileOrders.SaveOrderForCategory | src/pages/ListPage.jsx:107-113 | replaces only that category's entry, and writes the whole map to storage |
| ListPage.TileOrders.Drop | src/pages/ListPage.jsx:170-182 | saves the moved ids for the category when the drop is valid, and changes nothing otherwise |
| ListPage.TileOrders.OnStorage | src/pages/ListPage.jsx:75-85 | another tab's write replaces the state when it parses to an object; anything else leaves it |
| ListPage.HasLivePreview | src/pages/ListPage.jsx:199-202 | `hasLivePreview(ex)` read as a condition: a truthy embed URL, a component, or code with some code field truthy |
| ListPage.LiveCardGetsFrame | src/pages/ListPage.jsx:199-270 | a live card of type code or embed gets a frame from the preview component, never its placeholder |
| ListPage.EmbedUrlWithoutTypeShowsPlaceholder | src/pages/ListPage.jsx:199-270 | an embed URL alone makes a card live, yet without the embed type the preview component shows its placeholder |
| App.DefaultOrder | src/constants/categories.js:2 | the default dock order, as the strings an array holds |
| App.LoadCategoryOrder | src/App.jsx:22-35 | the stored order when it is an array of the default length, holding every default, with the default first category first; otherwise the defaults |
| App.AcceptableIsDockOrder | src/App.jsx:27-30 | an order passing the three checks is a permutation of the defaults with "Background effect" first |
| App.LoadedOrderIsDockOrder | src/App.jsx:22-35 | whatever storage holds, the dock shows the four categories once each, "Background effect" first |
| App.OrderWithRepeatIsRejected | src/App.jsx:27-30 | an order that repeats a category is replaced by the defaults |
| App.OnStorage | src/App.jsx:55-64 | another tab's order is taken when the key matches and it passes the three checks; anything else leaves the order |
| App.OnStorageKeepsDockOrder | src/App.jsx:55-64 | the dock order stays a permutation of the categories through any storage event |
| App.Current | src/App.jsx:48-49 | the URL's category when it is a known one, otherwise "all" |
| App.DockAndListDisagreeOnlyWithoutCategory | src/App.jsx:48-49 | the dock and the list page agree exactly when the URL names a known category; otherwise the dock marks "all" and the list shows "Background effect" |
| ThemeToggler.IndexOf | src/components/animate-ui/components/buttons/theme-toggler.jsx:27 | an index holding the theme, absent exactly when the theme is not a mode |
| ThemeToggler.IndexOfIsFirst | src/components/animate-ui/components/buttons/theme-toggler.jsx:27 | the index is that of the first occurrence |
| ThemeToggler.NextTheme | src/components/animate-ui/components/buttons/theme-toggler.jsx:26-30 | always a mode when there are modes, and the first mode for a theme that is not one |
| ThemeToggler.NextThemeOfFirstOccurrence | src/components/animate-ui/components/buttons/theme-toggler.jsx:26-30 | for any modes, repeats included, a theme that is a mode moves to the mode after its first occurrence, `(i + 1) % modes.length` |
| ThemeToggler.NextIndex | src/components/animate-ui/components/buttons/theme-toggler.jsx:29 | the next index stays within the modes |
| ThemeToggler.NextIndexIsRemainder | src/components/animate-ui/components/buttons/theme-toggler.jsx:29 | the wrap to the front is `(i + 1) % modes.length` |
| ThemeToggler.IndexOfDistinct | src/components/animate-ui/components/buttons/theme-toggler.jsx:27 | with distinct modes, each mode is found at its own index |
| ThemeToggler.NextThemeOfMode | src/components/animate-ui/components/buttons/theme-toggler.jsx:27-29 | with distinct modes, a click moves to the next mode, and from the last to the first |
| ThemeToggler.Clicks | src/components/animate-ui/components/buttons/theme-toggler.jsx:26-30 | after at least one click the theme is a mode |
| ThemeToggler.ClicksCompose | src/components/animate-ui/components/buttons/theme-toggler.jsx:26-30 | `a` clicks and then `b` clicks are `a + b` clicks |
| ThemeToggler.ClicksWithinRound | src/components/animate-ui/components/buttons/theme-toggler.jsx:29 | before the end of distinct modes, `n` clicks move `n` places on |
| ThemeToggler.ClicksPastEnd | src/components/animate-ui/components/buttons/theme-toggler.jsx:29 | clicking past the last of distinct modes comes back to the first |
| ThemeToggler.ClicksCycle | src/components/animate-ui/components/buttons/theme-toggler.jsx:29 | with distinct modes, as many clicks as modes return to the start, and fewer never do |
| ThemeToggler.UnknownThemeGoesToFirst | src/components/animate-ui/components/buttons/theme-toggler.jsx:28 | a theme that is not a mode goes to the first mode in one click |
| ThemeToggler.GetIcon | src/components/animate-ui/components/buttons/theme-toggler.jsx:11-24 | the theme read is `effective` when "system" is a mode, else `resolved`; a monitor exactly for "system", a moon exactly for "dark", a sun otherwise |
| ThemeToggler.DefaultModesIconChangesOnEveryClick | src/components/animate-ui/components/buttons/theme-toggler.jsx:11-35 | with the default modes every click changes the icon, and three clicks return to the start |
| ExampleForm.OptionalTrim | src/pages/ExampleForm.jsx:93-101 | `?.trim()` succeeds exactly on strings, `undefined` and `null`; it gives `undefined` exactly for the latter two, and a trimmed string otherwise |
| ExampleForm.AsRecord | src/pages/ExampleForm.jsx:92-102 | the payload object sets exactly the nine form keys, each to its field |
| ExampleForm.TitleField | src/pages/ExampleForm.jsx:93 | the trimmed title, or "Untitled" when it is blank or missing; always a trimmed non-empty string |
| ExampleForm.TextField | src/pages/ExampleForm.jsx:95-96 | the trimmed text, left out exactly when it is blank or missing |
| ExampleForm.CodeField | src/pages/ExampleForm.jsx:98-100 | set, and never `null`, exactly when the chosen type is "code"; a given value is kept |
| ExampleForm.EmbedField | src/pages/ExampleForm.jsx:101 | set exactly when the chosen type is "embed", to a trimmed string that is non-empty exactly when the URL is not blank |
| ExampleForm.PayloadThrows | src/pages/ExampleForm.jsx:89-102 | building the payload throws exactly when a field it trims is not a string, `undefined` or `null`, the embed URL only for embed previews; `ExampleForm.Payload` states the split |
| ExampleForm.Payload | src/pages/ExampleForm.jsx:89-102 | the payload is built exactly when no field it reaches makes `trim` throw |
| ExampleForm.WellFormed | src/pages/ExampleForm.jsx:92-102 | the shape of a saved payload; `ExampleForm.PayloadMeaning` proves every built payload has it |
| ExampleForm.PayloadMeaning | src/pages/ExampleForm.jsx:92-102 | a saved payload has a trimmed non-blank title ("Untitled" for a blank one), the chosen category or the first one, the chosen type or "code", code fields exactly for code and an embed URL exactly for embed, never both |
| ExampleForm.SavedFields | src/data/store.js:72 | the stored record holds each payload field after the spread and the JSON round trip |
| ExampleForm.SavedFormPreview | src/pages/ExampleForm.jsx:92-102 | a saved form previews as a code frame for type "code" or no type, as an embed frame for "embed" with a non-blank URL, and as the placeholder otherwise |
| ExampleForm.PayloadKind | src/pages/ExampleForm.jsx:97-101 | the stored type is "code" exactly for "code" or no type, and "embed" exactly for "embed"; the embed URL is set and non-empty exactly for an embed with a non-blank URL |
| ExampleForm.RenderChoice | src/components/LivePreview.jsx:69-98 | a code frame exactly for type "code", and an embed frame exactly for "embed" with a truthy URL |
| ExampleForm.UntypedSaveHasNoCode | src/pages/ExampleForm.jsx:97-100 | a save without a type stores type "code" with no code fields |
| ExampleForm.EditFormValues | src/pages/ExampleForm.jsx:38-48 | the edit form takes the title and category as stored, "code" for a missing type, and "" for any other missing field |
| ExampleForm.StartEdit | src/pages/ExampleForm.jsx:34-55 | a found example fills the form and its preview type; a missing one gives "Example not found" |
| ExampleForm.Refill | src/pages/ExampleForm.jsx:38-48 | the edit form's values for a record holding a payload, field by field; `ExampleForm.RefillIsFixedPoint` proves saving them gives the payload back |
| ExampleForm.RefillIsFixedPoint | src/pages/ExampleForm.jsx:38-102 | a payload saved with a chosen type is rebuilt unchanged from the form refilled with it |
| ExampleForm.ResaveChangesNothing | src/pages/ExampleForm.jsx:34-112 | saving an edit form unchanged writes the same fields back |
| ExampleForm.RefillOfSaved | src/pages/ExampleForm.jsx:38-48 | the form refilled from a stored record holds the refill of the payload it was saved with |
| ExampleForm.SpreadAgain | src/data/store.js:72 | spreading the same payload a second time changes nothing |
| ExampleForm.Finish | src/pages/ExampleForm.jsx:89-118 | a payload that throws changes nothing and reports the error; in edit mode the example is updated and its page opened; otherwise one is added and its page opened |
| ExampleForm.AddedExampleIsShown | src/pages/ExampleForm.jsx:108-111 | the page a new example opens shows that example, holding the fields the form saved |
| ExampleForm.IdentityKeysAreNotPayloadKeys | src/pages/ExampleForm.jsx:92-102 | the payload never sets the `id` or `createdAt` the store gives a record |
| ExampleForm.EditedExampleTakesPayload | src/pages/ExampleForm.jsx:104-107 | an edit keeps every example's place and every other example, and the edited one keeps its id and takes the new title |
| ExampleForm.OnFinish | src/pages/ExampleForm.jsx:89-118 | the store and the outcome are as `Finish` says |
| ExampleForm.ByUrlRecord | src/pages/ExampleForm.jsx:71-79 | an embed record with the resolved URL (left out when empty), title, source, description and thumbnail, the chosen or first category, and no identity |
| ExampleForm.ByUrlTileIsLiveIffEmbedded | src/pages/ExampleForm.jsx:71-79 | a tile added from a link is live exactly when the link resolved to an embed URL, and is then a frame on that URL |
| ExampleForm.AddByUrl | src/pages/ExampleForm.jsx:57-79 | a non-string link throws; a blank one gives "Enter a URL or package command"; an add happens only for a non-blank link that resolves without an error |
| ExampleForm.BlankLinkMakesNoRequest | src/pages/ExampleForm.jsx:58-62 | a blank link is turned away before any request |
| ExampleForm.LinkAddedIffResolved | src/pages/ExampleForm.jsx:58-79 | a link is added exactly when it is not blank and resolves without an error |
| ExampleForm.OnAddByUrl | src/pages/ExampleForm.jsx:57-87 | a resolved link is added and the list opened with "Animation added"; otherwise the message is shown and the store is unchanged |

## Left out

- Local storage, `fetch`, the CORS proxy, CodePen's oEmbed endpoint and `new URL` are not modelled as such. Storage is the field of `Store.CatalogStore`, and every answer from the network or the URL parser is a parameter (`UrlResolver.Network`).
- `JSON.parse` failures and non-array payloads are cases of the `App.Stored` and `ListPage.TileOrders` inputs. A tile-order object is read as a map from category to id list, so a stored object whose values are not arrays is not modelled.
- Fresh ids and timestamps (`crypto.randomUUID`, `new Date()`) are parameters (`Store.Fresh`).
- Calling `.trim()` on a value that is not a string throws. `ExampleForm` models this as a distinct outcome. Where the store trims a non-string title, the title is read as not removed and not de-duplicated.
- LivePreview.BodyHtml: a `codeHtml` that is neither a string, `null` nor `undefined` makes `codeHtml?.trim()` throw in the source. The model reads it as empty text and builds the `<div></div>` body.
- LivePreview.Srcdoc: besides `codeHtml` as above, a truthy `codeCss` or `codeJs` that is not a string makes `(x || '').trim()` throw. The model reads such a field as empty text and still builds a document, where the source's render fails.
- ListPage.TrimmedTitle: a title that is neither a string, `null` nor `undefined` makes `ex.title?.trim()` throw in the source. The model reads it as the empty title, so the tile is hidden from the "Online Inspirations" view.
- Store.FirstSeeding: requires that every stored title that trims to a de-duplicated title is already exact. A stored " Generative Noise " is excluded: the clean-up matches it once trimmed, the seed loop looks titles up exactly, so the first call adds an exact "Generative Noise" that the next clean-up drops (`Store.PaddedTitleChurnsOnEverySeeding`).
- Store.SecondSeedingAddsNothing: carries the same requirement. From a stored " Generative Noise ", every later call drops the exact record and adds it again under a fresh id, so the identities change on every call (`Store.PaddedTitleChurnsOnEverySeeding`).
- Store.CatalogueSecondSeedingAddsNothing: carries the same requirement, and the catalogue's seeds include "Generative Noise", so the same churn applies to a padded stored title.
- Case-insensitive matching folds ASCII letters only. This is exact for the ASCII patterns of the regular expressions. For `toLowerCase` on removed titles it differs only for characters that fold into ASCII letters (`K`, `İ`), which no removed title contains.
- Strings are sequences of code points. JavaScript's UTF-16 lengths (in `titleFromUrl`'s 60-character cut and in `encodeURIComponent` of lone surrogates) are not modelled.
- The seed payloads (HTML, CSS and JS of src/data/seedExample.js) are data. The model keeps only the seed titles and treats the rest of each seed as an arbitrary record.
- UrlResolver.ResolvePage: the title of a page without one comes from `titleFromUrl` over the parser's hostname and pathname. The contract states only that it is a string.
- UrlResolver.FiddleUrlResolves: requires that the URL does not mention `codepen.io/`, because an earlier CodePen branch would take such a URL.
- ListPage.Rank: keys are the saved index or 1e9. Orders longer than 1e9 ids, where the two could collide, are excluded from `ListPage.OrderedListFollowsSavedOrder`.
- ListPage.SortByRank: the engine's sort is modelled as an insertion sort. `ListPage.AnyStableSortIsSortByRank` shows that every stable sort gives the same result.
- The pointer mechanics of dragging are not modelled: hit testing, the 5-pixel threshold, the ghost tile, listener bookkeeping and `setTimeout`. Only the drop's reorder is.
- The dock's own write of its order (src/App.jsx:51-53) is not modelled, and nor is the dock's rendering.
- `addExample` failing inside `onFinish` or `onAddByUrl` (a full storage) is not modelled. The loading flag is not modelled either.
- The theme-switch primitive and `next-themes` are not modelled. Only `getNextTheme` and `getIcon` are.
- ExampleForm.Finish: `message` and `navigate` calls are modelled as an `Outcome` value. "Example updated" is reported even when no record had the id, as the source does.
- ExampleForm.UntypedSaveHasNoCode: states the source's behaviour for a save without a preview type (type "code", no code fields), not a correction of it.
- ThemeToggler.NextIndex: `(i + 1) % modes.length` is written as a wrap to the front. `ThemeToggler.NextIndexIsRemainder` proves the two equal.
- LivePreview.UserStyleClosesAtBoundary: states only that no `</style>` in any ASCII case precedes the appended tag. The source escapes that literal tag and nothing else, so `</style` followed by whitespace or `/` reaches the document unescaped (`LivePreview.SpacedStyleTagIsNotEscaped`), and an HTML tokenizer ends the style element there. The tokenizer itself is not modelled.
- LivePreview.UserScriptClosesAtBoundary: states only that no `</script>` in any ASCII case precedes the appended tag. `</script` followed by whitespace or `/` is not escaped either. JS holding `<!--<script>` puts a tokenizer in the double-escaped state, where the appended `</script>` does not end the element. Neither case is modelled.
- LivePreview.Srcdoc: the closing-tag guarantees are proved for a document in any frame of fixed pieces. `LivePreview.SrcdocIsSandboxDocument` shows that the `srcdoc` is such a document. Full HTML safety is not claimed, only the handling of the two closing tags.
- Posting messages to the frame and the frame's sandbox enforcement are not modelled; neither are CSS semantics.
- The background components (bubble, gravity stars), the detail page, the bootstrap and the build configuration are outside the model.
