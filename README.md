# CBZ reader state machine

A Dafny model of the comic-archive (CBZ) reader in `app.js` of a browser
e-reader. The reader opens a `.cbz` file and keeps its image entries,
sorted by name. It shows one page at a time (or all pages in scroll mode)
and turns pages forward and back. Reverse direction is supported, for
right-to-left reading. It saves the page last shown under the file's name
in local storage and resumes from that page when the same file is opened
again. It also remembers the reading mode and the direction preference.

The model has six modules:

- `Wrappers`: `Option`, which stands for JavaScript's `null` results.
- `Archive`: page selection. Directory entries are dropped. Kept entries have
  a name ending in `.jpg`, `.jpeg`, `.png` or `.gif`, with ASCII letters
  compared without case. The kept names are sorted by name order.
- `Progress`: the progress item. It is absent, corrupt (JSON that does not
  parse) or a parsed map from file name to `{type, page}`. The module has
  `saveProgress`, `loadProgress` and the choice of the start page.
- `Preferences`: restoring the mode and direction preferences, and the strings
  stored for them.
- `Navigator`: the reader's variables and its local storage, as one `State`
  value. Each handler is a pure transition on it. The properties are proved
  here as lemmas.
- `Reader`: class `CbzReader`. Its fields are the module-level variables and
  the storage. It has one method per handler, written imperatively like the
  source. Each handler method's `ensures` says its effect equals the matching
  `Navigator` transition. The exception is `SaveProgress`, which has no
  transition of its own: its `ensures` gives the new progress item as
  `Progress.Save` of the old one.

Rendering page `i` becomes its effect on the state. The index is set to `i`.
If page `i` exists, `{type: 'cbz', page: i}` is saved for the open file. If it
does not exist, `imageFiles[i]` is undefined, decoding throws, and nothing is
saved. The page restored when an archive is opened is not checked against the
page count. So the reader's index is not always within `[0, totalPages - 1]`.
`Navigator.RestoreIsNotRangeChecked` gives an example, and the range lemmas
assume the reader starts on an existing page. A reading mode restored from
storage can be any non-empty string. Page turns need it to be exactly `page`.
Opening an archive shows a single page in every mode except `scroll`.

## Model

| member | source | states |
|---|---|---|
| `Archive.ImageNameAccepts` | app.js:106 | names ending in `.JPG`, `.jpeg` or `.Gif` pass the image test, whatever the letter case |
| `Archive.ImageNameRejects` | app.js:106 | a bare `jpg`, a name with `.jpg` before another suffix, and `.webp` fail the image test |
| `Archive.IsImageName` | app.js:106 | the test `/\.(jpe?g|png|gif)$/i`; a name that passes has at least four characters |
| `Archive.ImageNameHasDot` | app.js:106 | a name that passes the image test has a dot just before a three- or four-letter extension |
| `Archive.Keep` | app.js:106 | the filter `!f.dir && test(f.name)`; a kept entry is not a directory and has a name of at least four characters |
| `Archive.NameLe` | app.js:106 | the name order standing in for `localeCompare`: a prefix comes first, and only the empty name comes before the empty name |
| `Archive.Kept` | app.js:106 | a name is kept exactly when some non-directory entry with an image name has it; no more names are kept than there are entries |
| `Archive.Insert` | app.js:106 | inserting a name into a sorted list gives a sorted list with that name added (equal as multisets) |
| `Archive.SortByName` | app.js:106 | the result is sorted by name and is a permutation of the input |
| `Archive.SortedUnique` | app.js:106 | two sorted permutations of the same names are equal, so any correct sort gives the same page list |
| `Archive.ImageEntries` | app.js:106-107 | `imageFiles` is sorted and is a permutation of the kept names; its length, which becomes `totalPages`, is the number of kept entries; a name is in it exactly when a non-directory image entry has it |
| `Archive.ImageEntriesCharacterized` | app.js:106 | any sorted arrangement of the kept names is the page list |
| `Archive.SampleKept` | app.js:106 | from an archive holding `p3.png`, `p1.png`, a directory, `p2.png` and `notes.txt`, the filter keeps `p3.png`, `p1.png`, `p2.png` in that order |
| `Archive.SamplePages` | app.js:106 | kept names `p3.png`, `p1.png`, `p2.png` give the pages `p1.png`, `p2.png`, `p3.png` |
| `Progress.Save` | app.js:327-335 | a corrupt item stays corrupt and nothing is saved; otherwise the result is a parsed object (an absent item starts as `{}`), the file's key holds the new record, the keys are the old ones plus this one, and every other key keeps its record |
| `Progress.Load` | app.js:337-350 | a record is returned only if it is stored under that name and its type is `cbz` |
| `Progress.LoadAfterSave` | app.js:327-345 | after saving a record, loading the same name gives it back when its type is `cbz` and the item was not corrupt; otherwise it gives none |
| `Progress.SaveLeavesOthers` | app.js:327-345 | saving for one file does not change what any other file name loads |
| `Progress.LoadNone` | app.js:337-350 | loading gives none exactly when the item is absent or corrupt, the name is not stored, or its type is not `cbz` |
| `Progress.StartPage` | app.js:110-114 | a non-zero start page is the numeric page of the saved record |
| `Progress.StartPageFallback` | app.js:110-114 | the start page is 0 unless a `cbz` record with a numeric page is stored; when one is stored, the start page is that page |
| `Progress.ResumeAfterSave` | app.js:110-114 | a page the reader saved is the start page when the same name is opened again, unless the item is corrupt |
| `Preferences.RestoredMode` | app.js:47-50 | a stored non-empty string becomes the mode; when nothing, or the empty string, is stored the current mode stays |
| `Preferences.RestoredReverse` | app.js:51 | the flag is restored as set exactly when the stored text is the one written for `true` |
| `Preferences.ReverseText` | app.js:310 | the stored text is `true` exactly when the flag is set |
| `Preferences.RestoreAfterStore` | app.js:47-51 | a mode of `page` or `scroll` and either direction flag are restored as they were stored |
| `Navigator.Initial` | app.js:37-43 | the reader starts unloaded, with no pages, at index 0, with `totalPages` 0, in page mode, forward, with no file, and it is valid |
| `Navigator.DisplayImage` | app.js:134-144 | only the index and the progress change, and the index becomes `i`; when page `i` exists and a file is open, the progress item becomes `Progress.Save` of it with `{cbz, i}` for that file (so a corrupt item stays corrupt, and other files' records stay), and that file then loads `{cbz, i}` unless the item is corrupt; no other file's load changes; when page `i` does not exist or no file is open nothing is saved |
| `Navigator.Next` | app.js:214-226 | only the index and the saved progress can change |
| `Navigator.Prev` | app.js:228-240 | only the index and the saved progress can change |
| `Navigator.Key` | app.js:242-248 | `ArrowLeft` is `prevPage`, `ArrowRight` is `nextPage`, any other key changes nothing; a key press changes at most the index and the saved progress |
| `Navigator.GoTo` | app.js:313-317 | only the index and the saved progress can change |
| `Navigator.Clear` | app.js:88-90 | the reader is unloaded with an empty page list at index 0; nothing else changes, `totalPages` included; validity is kept |
| `Navigator.OpenCbz` | app.js:96-132 | a rejected archive changes nothing; otherwise the reader is loaded with the selected, sorted pages and `totalPages` is their count; when there are pages and the mode is not `scroll` the index is the start page of the saved record, else it stays; the mode, direction, current file and both stored preferences stay; the progress item becomes the save of the start page for the open file when that page exists (and no file or page means no save) |
| `Navigator.HandleFile` | app.js:57-71 | no file changes nothing; any file becomes the current file; a name not ending in `.cbz` (case-sensitive) only clears the reader; a `.cbz` name clears the reader and then opens the archive under that name |
| `Navigator.IsCbzName` | app.js:66 | `name.endsWith('.cbz')`: a name that passes is some prefix followed by `.cbz` |
| `Navigator.CbzNameExamples` | app.js:66 | `vol.cbz` passes; `vol.CBZ`, `cbz` and `vol.zip` do not |
| `Navigator.UpdateModeButtons` | app.js:268-294 | only the saved progress can change and the index stays; outside scroll mode, with an archive loaded, an existing current page and an open file, the progress item becomes the save of the current page, otherwise it stays |
| `Navigator.RestorePreferences` | app.js:46-53 | the mode and direction become the restored ones; besides them only the saved progress can change (by the re-display), so the loaded flag, the pages, the index, `totalPages`, the current file and the stored preferences stay; the progress item is the save of the current page exactly when the restored mode is not `scroll` and an existing page of an open file is loaded, otherwise it stays |
| `Navigator.SelectMode` | app.js:296-306 | the mode becomes `scroll` or `page` and is stored; besides them only the saved progress can change, so the direction, the loaded flag, the pages, the index, `totalPages`, the current file and the stored direction stay; in page mode with an existing page of an open file loaded the progress item becomes the save of that page, otherwise it stays |
| `Navigator.SetReverse` | app.js:308-311 | the flag is set as chosen and its stored text restores to the same value; nothing else changes |
| `Navigator.Valid` | app.js:37-43 | the reachable-state invariant; in a valid state an index on an existing page means an archive is loaded and the index is below `totalPages` |
| `Navigator.TransitionsKeepValid` | app.js:37-317 | every handler keeps the invariant: `totalPages` is non-negative; when loaded it is the page count and a file is open; when unloaded there are no pages and the index is 0 |
| `Navigator.GoToSpec` | app.js:313-317 | going to page n moves to index n - 1, inside the page list, and saves `{cbz, n - 1}` for the open file exactly when an archive is loaded and 1 <= n <= totalPages; otherwise nothing changes, and page 0 and page totalPages + 1 are refused |
| `Navigator.NextSpec` | app.js:214-226 | `nextPage` moves exactly when loaded, in page mode, and (reverse) the index is above 0 or (forward) below the last page; it moves to index - 1 in reverse and index + 1 forward and shows that page; otherwise nothing changes |
| `Navigator.PrevSpec` | app.js:228-240 | `prevPage` is the mirror: it moves forward in reverse mode and back in forward mode, under the mirrored guards; otherwise nothing changes |
| `Navigator.TurnsKeepRange` | app.js:214-248 | from an existing page, `nextPage`, `prevPage` and the arrow keys always land on an existing page |
| `Navigator.PrevUndoesNext` | app.js:214-240 | from an existing page, a `prevPage` after a `nextPage` that moved returns to the start index |
| `Navigator.NextUndoesPrev` | app.js:214-240 | from an existing page, a `nextPage` after a `prevPage` that moved returns to the start index |
| `Navigator.TurnsInactive` | app.js:214-240 | with no archive loaded, or in any mode other than `page`, `nextPage` and `prevPage` change nothing |
| `Navigator.ReverseSwapsNeighbours` | app.js:214-240 | after the direction flag is toggled, `nextPage` has the effect `prevPage` had before, and the other way round |
| `Navigator.OpenStartsAtZero` | app.js:57-122 | opening a file with no usable saved page starts at index 0; the page list is the new archive's pages, or empty when the name is not `.cbz` or the archive is rejected |
| `Navigator.ReopenResumes` | app.js:96-144 | after page i of the open file was shown, reopening the same name starts at index i (outside scroll mode, item not corrupt, archive has pages); with the same archive that page exists |
| `Navigator.RestoreIsNotRangeChecked` | app.js:110-120 | a saved page 5 restored into a one-page archive gives index 5, which is outside the page list |
| `Navigator.PreferencesSurviveReload` | app.js:46-53 | after the mode is chosen and the direction set, a fresh page load over the same storage restores both |
| `Navigator.ThreePageScenario` | app.js:214-317 | a three-page archive opened without saved progress starts at index 0; going to page 2 then `nextPage` shows index 2; two `prevPage` calls return to index 1 and then 0 |
| `Reader.CbzReader.constructor` | app.js:37-43 | the fields hold the initial values over the given storage |
| `Reader.CbzReader.RestorePreferences` | app.js:46-55 | the effect is `Navigator.RestorePreferences` |
| `Reader.CbzReader.UpdateModeButtons` | app.js:268-294 | the effect is `Navigator.UpdateModeButtons` |
| `Reader.CbzReader.SaveProgress` | app.js:327-335 | only the progress item changes, and it becomes `Progress.Save` of the old one |
| `Reader.CbzReader.DisplayImage` | app.js:134-144 | the effect is `Navigator.DisplayImage` |
| `Reader.CbzReader.NextPage` | app.js:214-226 | the effect is `Navigator.Next` |
| `Reader.CbzReader.PrevPage` | app.js:228-240 | the effect is `Navigator.Prev` |
| `Reader.CbzReader.HandleKeydown` | app.js:242-248 | the effect is `Navigator.Key` |
| `Reader.CbzReader.GoToCbzPage` | app.js:313-317 | the effect is `Navigator.GoTo` |
| `Reader.CbzReader.ClearViewer` | app.js:80-93 | the effect is `Navigator.Clear` |
| `Reader.CbzReader.HandleCbz` | app.js:96-132 | the effect is `Navigator.OpenCbz` |
| `Reader.CbzReader.HandleFile` | app.js:57-71 | the effect is `Navigator.HandleFile` |
| `Reader.CbzReader.SelectScrollMode` | app.js:296-300 | the effect is `Navigator.SelectMode` with scroll |
| `Reader.CbzReader.SelectPageMode` | app.js:302-306 | the effect is `Navigator.SelectMode` with page |
| `Reader.CbzReader.SetReverseDirection` | app.js:308-311 | the effect is `Navigator.SetReverse` |

## Left out

- DOM work is not modelled: CSS classes, modals, overlays, the title, the loading indicator, page-info text and event-listener wiring (app.js:1-26, 61-92, 97-102, 124-131, 192-207, 252-294). None of it changes the reader's variables.
- The keydown listener: it is attached after an archive opens and removed by `clearViewer`. It is not modelled because the page turns it triggers already do nothing while no archive is loaded.
- The progress bar percentage is not modelled (app.js:161-181). It is floating-point arithmetic.
- The clock and `debounce` are not modelled (app.js:28-35, 184-189, 210-211). They depend on timers and `Date`.
- The archive library and base64 image decoding are not modelled (app.js:103-105, 137-139, 151). A file is given with the entries the library yields, or with a rejection. Entry objects are reduced to their names.
- `localeCompare` collation is not modelled (app.js:106). Names are ordered by character code.
- Scroll-mode rendering (`displayAllImages`, app.js:146-159) is left out. It only appends images and changes no reader variable.
- JSON text is not modelled. The progress item is absent, corrupt or a parsed map of `{type, page}` records. A parse result of `null` or another falsy value acts as absent. A parse result that is a non-object, or a stored value that is not a record, is not modelled.
- The `__proto__` file name is not modelled. JavaScript objects treat that key specially.
- A page that is a non-integer JSON number is not modelled. A page is an integer or "not a number".
- A failing `localStorage.setItem` (for example a full quota) is not modelled. The source catches that error in `saveProgress`.
- Asynchrony is not modelled: the `await`s in `handleCbz` and `displayImage`, and races between overlapping loads. Each handler runs as one atomic step.
- The goto button's `parseInt`/`isNaN` handling is not modelled (app.js:320-325). `GoToCbzPage` takes the parsed integer.
- The e-book (EPUB) variant of the reader is not part of this model.
