/**
 * The comic reader's state machine (app.js:37-55, 57-144, 214-248, 268-317)
 * as pure transitions on one state value. The DOM, rendering and image
 * decoding are abstracted away: rendering page `i` is modelled by its effect
 * on the state, which is to set the index and, when page `i` exists, to save
 * it as the reading progress of the open file.
 */
module Navigator {
  import opened Wrappers
  import Archive
  import Progress
  import Preferences

  const PAGE_MODE := Preferences.PAGE_MODE
  const SCROLL_MODE := Preferences.SCROLL_MODE

  /** The three local-storage items the reader uses. */
  datatype LocalStorage = LocalStorage(
    progress: Progress.Blob,       // `liberMeaProgress`
    mode: Option<string>,          // `cbzReadingMode`
    reverse: Option<string>)       // `cbzReverseDirection`

  /**
   * A file chosen by the user: its name, and what the archive library makes
   * of its contents (its entries, or None when it rejects the file).
   */
  datatype File = File(name: string, archive: Option<seq<Archive.Entry>>)

  /** The module-level variables of the reader, and the storage they persist to. */
  datatype State = State(
    loaded: bool,                  // `zip !== null`
    imageFiles: seq<string>,       // names of the pages, in order
    index: int,                    // `currentImageIndex`
    totalPages: int,
    mode: string,                  // `cbzReadingMode`
    reverse: bool,                 // `cbzReverseDirection`
    currentFile: Option<string>,   // name of `currentFile`
    storage: LocalStorage)

  /** What every reachable state satisfies. The index is NOT always in range. */
  predicate Valid(s: State)
    ensures Valid(s) && InRange(s) ==> s.loaded && s.index < s.totalPages
  {
    && 0 <= s.totalPages
    && (s.loaded ==> s.totalPages == |s.imageFiles| && s.currentFile.Some?)
    && (!s.loaded ==> s.imageFiles == [] && s.index == 0)
  }

  /** The index names an existing page. */
  predicate InRange(s: State) {
    0 <= s.index < |s.imageFiles|
  }

  /** Only the index and the saved progress differ between `s` and `r`. */
  predicate OnlyPosition(s: State, r: State) {
    r == s.(index := r.index, storage := s.storage.(progress := r.storage.progress))
  }

  /** The values the variables start with (app.js:37-43), over a given storage. */
  function Initial(storage: LocalStorage): (s: State)
    ensures Valid(s) && !s.loaded && s.imageFiles == [] && s.index == 0 && s.totalPages == 0
    ensures s.mode == PAGE_MODE && !s.reverse && s.currentFile.None? && s.storage == storage
  {
    State(false, [], 0, 0, PAGE_MODE, false, None, storage)
  }

  /** The progress record `displayImage(i)` saves. */
  function ShownRecord(i: int): Progress.Record {
    Progress.Record(Progress.CBZ_TYPE, Progress.Number(i))
  }

  /**
   * `displayImage(i)`: set the index, then render page `i` and save it as the
   * progress of the open file. When there is no page `i` the decode call
   * throws first, so nothing is saved.
   */
  function DisplayImage(s: State, i: int): (r: State)
    ensures OnlyPosition(s, r) && r.index == i
    ensures !(0 <= i < |s.imageFiles|) || s.currentFile.None? ==> r == s.(index := i)
    ensures 0 <= i < |s.imageFiles| && s.currentFile.Some? && !s.storage.progress.Corrupt? ==>
              Progress.Load(r.storage.progress, s.currentFile.value) == Some(ShownRecord(i))
    ensures forall f :: s.currentFile != Some(f) ==>
              Progress.Load(r.storage.progress, f) == Progress.Load(s.storage.progress, f)
    ensures r.storage.progress ==
              if 0 <= i < |s.imageFiles| && s.currentFile.Some? then
                Progress.Save(s.storage.progress, s.currentFile.value, ShownRecord(i))
              else s.storage.progress
  {
    if 0 <= i < |s.imageFiles| && s.currentFile.Some? then
      var f := s.currentFile.value;
      Progress.LoadAfterSave(s.storage.progress, f, ShownRecord(i));
      assert forall g :: g != f ==>
        Progress.Load(Progress.Save(s.storage.progress, f, ShownRecord(i)), g) == Progress.Load(s.storage.progress, g);
      s.(index := i, storage := s.storage.(progress := Progress.Save(s.storage.progress, f, ShownRecord(i))))
    else
      s.(index := i)
  }

  /** `nextPage` (app.js:214-226). */
  function Next(s: State): (r: State)
    ensures OnlyPosition(s, r)
  {
    if s.loaded && s.mode == PAGE_MODE then
      if s.reverse then
        if s.index > 0 then DisplayImage(s, s.index - 1) else s
      else
        if s.index < |s.imageFiles| - 1 then DisplayImage(s, s.index + 1) else s
    else
      s
  }

  /** `prevPage` (app.js:228-240). */
  function Prev(s: State): (r: State)
    ensures OnlyPosition(s, r)
  {
    if s.loaded && s.mode == PAGE_MODE then
      if s.reverse then
        if s.index < |s.imageFiles| - 1 then DisplayImage(s, s.index + 1) else s
      else
        if s.index > 0 then DisplayImage(s, s.index - 1) else s
    else
      s
  }

  /** `handleKeydown` (app.js:242-248): left turns back, right turns forward. */
  function Key(s: State, key: string): (r: State)
    ensures OnlyPosition(s, r)
    ensures key == "ArrowLeft" ==> r == Prev(s)
    ensures key == "ArrowRight" ==> r == Next(s)
    ensures key != "ArrowLeft" && key != "ArrowRight" ==> r == s
  {
    if key == "ArrowLeft" then Prev(s) else if key == "ArrowRight" then Next(s) else s
  }

  /** `goToCbzPage(page)` with a 1-based page number (app.js:313-317). */
  function GoTo(s: State, page: int): (r: State)
    ensures OnlyPosition(s, r)
  {
    if s.loaded && page > 0 && page <= s.totalPages then DisplayImage(s, page - 1) else s
  }

  /** The state part of `clearViewer` (app.js:88-90); `totalPages` is left as it was. */
  function Clear(s: State): (r: State)
    ensures Valid(s) ==> Valid(r)
    ensures !r.loaded && r.imageFiles == [] && r.index == 0
    ensures r == s.(loaded := r.loaded, imageFiles := r.imageFiles, index := r.index)
  {
    s.(loaded := false, imageFiles := [], index := 0)
  }

  /**
   * The state part of `handleCbz` (app.js:96-132) for a file named `name`.
   * When the archive library rejects the file nothing after the `await` runs.
   * In scroll mode the pages are only appended to the view; in any other mode
   * the start page is displayed without a range check.
   */
  function OpenCbz(s: State, name: string, archive: Option<seq<Archive.Entry>>): (r: State)
    ensures archive.None? ==> r == s
    ensures archive.Some? ==>
              r.loaded && r.imageFiles == Archive.ImageEntries(archive.value) && r.totalPages == |r.imageFiles|
    ensures archive.Some? ==>
              && r.mode == s.mode && r.reverse == s.reverse && r.currentFile == s.currentFile
              && r.storage.mode == s.storage.mode && r.storage.reverse == s.storage.reverse
              && r.index == (if |r.imageFiles| > 0 && s.mode != SCROLL_MODE
                             then Progress.StartPage(Progress.Load(s.storage.progress, name))
                             else s.index)
    ensures archive.Some? ==>
              r.storage.progress ==
                if |r.imageFiles| > 0 && s.mode != SCROLL_MODE && InRange(r) && s.currentFile.Some? then
                  Progress.Save(s.storage.progress, s.currentFile.value, ShownRecord(r.index))
                else s.storage.progress
  {
    match archive
    case None => s
    case Some(entries) =>
      var pages := Archive.ImageEntries(entries);
      var t := s.(loaded := true, imageFiles := pages, totalPages := |pages|);
      if |pages| > 0 && t.mode != SCROLL_MODE then
        DisplayImage(t, Progress.StartPage(Progress.Load(t.storage.progress, name)))
      else
        t
  }

  /** `handleFile` (app.js:57-71): only names ending in `.cbz`, in that case, are opened. */
  function HandleFile(s: State, file: Option<File>): (r: State)
    ensures file.None? ==> r == s
    ensures file.Some? ==> r.currentFile == Some(file.value.name)
    ensures file.Some? && !IsCbzName(file.value.name) ==>
              r == Clear(s.(currentFile := Some(file.value.name)))
    ensures file.Some? && IsCbzName(file.value.name) ==>
              r == OpenCbz(Clear(s.(currentFile := Some(file.value.name))), file.value.name, file.value.archive)
  {
    match file
    case None => s
    case Some(f) =>
      var t := Clear(s.(currentFile := Some(f.name)));
      if IsCbzName(f.name) then OpenCbz(t, f.name, f.archive) else t
  }

  /** `name.endsWith('.cbz')`, case-sensitive. */
  predicate IsCbzName(name: string)
    ensures IsCbzName(name) ==> 4 <= |name| && name == name[..|name| - 4] + ".cbz"
  {
    4 <= |name| && name[|name| - 4..] == ".cbz"
  }

  /** The extension test is case-sensitive and needs the dot. */
  lemma CbzNameExamples()
    ensures IsCbzName("vol.cbz") && !IsCbzName("vol.CBZ") && !IsCbzName("cbz") && !IsCbzName("vol.zip")
  {
    var n, u, z := "vol.cbz", "vol.CBZ", "vol.zip";
    assert n[|n| - 4..] == ".cbz";
    assert u[|u| - 4..][1] != ".cbz"[1];
    assert z[|z| - 4..][1] != ".cbz"[1];
  }

  /** `updateCbzModeButtons` (app.js:268-294): leaving scroll mode re-displays the current page. */
  function UpdateModeButtons(s: State): (r: State)
    ensures OnlyPosition(s, r) && r.index == s.index
    ensures r.storage.progress ==
              if s.mode != SCROLL_MODE && s.loaded && InRange(s) && s.currentFile.Some? then
                Progress.Save(s.storage.progress, s.currentFile.value, ShownRecord(s.index))
              else s.storage.progress
  {
    if s.mode != SCROLL_MODE && s.loaded then DisplayImage(s, s.index) else s
  }

  /** The preference restore on page load (app.js:46-53). */
  function RestorePreferences(s: State): (r: State)
    ensures r.mode == Preferences.RestoredMode(s.storage.mode, s.mode)
    ensures r.reverse == Preferences.RestoredReverse(s.storage.reverse)
    ensures r.loaded == s.loaded && r.imageFiles == s.imageFiles && r.index == s.index
    ensures OnlyPosition(s.(mode := r.mode, reverse := r.reverse), r)
    ensures r.storage.progress ==
              if r.mode != SCROLL_MODE && s.loaded && InRange(s) && s.currentFile.Some? then
                Progress.Save(s.storage.progress, s.currentFile.value, ShownRecord(s.index))
              else s.storage.progress
  {
    UpdateModeButtons(s.(mode := Preferences.RestoredMode(s.storage.mode, s.mode),
                         reverse := Preferences.RestoredReverse(s.storage.reverse)))
  }

  /** The scroll or page button of the settings panel (app.js:296-306). */
  function SelectMode(s: State, scroll: bool): (r: State)
    ensures r.mode == (if scroll then SCROLL_MODE else PAGE_MODE) && r.storage.mode == Some(r.mode)
    ensures r.loaded == s.loaded && r.imageFiles == s.imageFiles && r.index == s.index
    ensures OnlyPosition(s.(mode := r.mode, storage := s.storage.(mode := r.storage.mode)), r)
    ensures r.storage.progress ==
              if r.mode != SCROLL_MODE && s.loaded && InRange(s) && s.currentFile.Some? then
                Progress.Save(s.storage.progress, s.currentFile.value, ShownRecord(s.index))
              else s.storage.progress
  {
    var mode := if scroll then SCROLL_MODE else PAGE_MODE;
    UpdateModeButtons(s.(mode := mode, storage := s.storage.(mode := Some(mode))))
  }

  /** The reverse-direction checkbox (app.js:308-311). */
  function SetReverse(s: State, reverse: bool): (r: State)
    ensures r.reverse == reverse && Preferences.RestoredReverse(r.storage.reverse) == reverse
    ensures r == s.(reverse := reverse, storage := s.storage.(reverse := r.storage.reverse))
  {
    s.(reverse := reverse, storage := s.storage.(reverse := Some(Preferences.ReverseText(reverse))))
  }

  // Properties of the transitions

  /** Every transition keeps the state valid. */
  lemma TransitionsKeepValid(s: State, page: int, key: string, file: Option<File>, flag: bool)
    requires Valid(s)
    ensures Valid(Next(s)) && Valid(Prev(s)) && Valid(Key(s, key)) && Valid(GoTo(s, page))
    ensures Valid(HandleFile(s, file))
    ensures Valid(SelectMode(s, flag)) && Valid(SetReverse(s, flag)) && Valid(RestorePreferences(s))
  {
  }

  /**
   * `goToCbzPage(n)` moves to page n (index n - 1) and saves it exactly when
   * an archive is loaded and 1 <= n <= totalPages; otherwise nothing changes.
   */
  lemma GoToSpec(s: State, n: int)
    requires Valid(s)
    ensures s.loaded && 1 <= n <= s.totalPages ==>
              && GoTo(s, n).index == n - 1 && InRange(GoTo(s, n))
              && GoTo(s, n).storage.progress ==
                   Progress.Save(s.storage.progress, s.currentFile.value, ShownRecord(n - 1))
    ensures !(s.loaded && 1 <= n <= s.totalPages) ==> GoTo(s, n) == s
    ensures GoTo(s, 0) == s && GoTo(s, s.totalPages + 1) == s
  {
  }

  /** When `nextPage` moves, and where to: the index changes exactly at the guards of app.js:216-223. */
  lemma NextSpec(s: State)
    ensures Next(s).index != s.index <==>
              s.loaded && s.mode == PAGE_MODE && (if s.reverse then s.index > 0 else s.index < |s.imageFiles| - 1)
    ensures Next(s).index != s.index ==>
              Next(s) == DisplayImage(s, if s.reverse then s.index - 1 else s.index + 1)
    ensures Next(s).index == s.index ==> Next(s) == s
  {
  }

  /** `prevPage` is the mirror image of `nextPage` (app.js:230-237). */
  lemma PrevSpec(s: State)
    ensures Prev(s).index != s.index <==>
              s.loaded && s.mode == PAGE_MODE && (if s.reverse then s.index < |s.imageFiles| - 1 else s.index > 0)
    ensures Prev(s).index != s.index ==>
              Prev(s) == DisplayImage(s, if s.reverse then s.index + 1 else s.index - 1)
    ensures Prev(s).index == s.index ==> Prev(s) == s
  {
  }

  /** Turning pages from an existing page never leaves the page list. */
  lemma TurnsKeepRange(s: State, key: string)
    requires InRange(s)
    ensures InRange(Next(s)) && InRange(Prev(s)) && InRange(Key(s, key))
  {
  }

  /** A `prevPage` after a `nextPage` that moved returns to the page it started from. */
  lemma PrevUndoesNext(s: State)
    requires InRange(s) && Next(s).index != s.index
    ensures Prev(Next(s)).index == s.index
  {
  }

  /** A `nextPage` after a `prevPage` that moved returns to the page it started from. */
  lemma NextUndoesPrev(s: State)
    requires InRange(s) && Prev(s).index != s.index
    ensures Next(Prev(s)).index == s.index
  {
  }

  /** With no archive loaded, or in any mode but `page`, page turns do nothing. */
  lemma TurnsInactive(s: State)
    requires !s.loaded || s.mode != PAGE_MODE
    ensures Next(s) == s && Prev(s) == s
  {
  }

  /** Toggling the direction swaps which neighbour `nextPage` and `prevPage` move to. */
  lemma ReverseSwapsNeighbours(s: State)
    ensures Next(SetReverse(s, !s.reverse)) == SetReverse(Prev(s), !s.reverse)
    ensures Prev(SetReverse(s, !s.reverse)) == SetReverse(Next(s), !s.reverse)
  {
  }

  /**
   * Opening a file: the previous page list is dropped, and without saved
   * progress for its name the reader starts at index 0.
   */
  lemma OpenStartsAtZero(s: State, file: File)
    requires Progress.StartPage(Progress.Load(s.storage.progress, file.name)) == 0
    ensures HandleFile(s, Some(file)).index == 0
    ensures HandleFile(s, Some(file)).imageFiles ==
              if IsCbzName(file.name) && file.archive.Some? then Archive.ImageEntries(file.archive.value) else []
  {
  }

  /**
   * Reopening the file that was open resumes at the page last displayed,
   * provided the archive still has pages and the mode is not scroll; with
   * the same archive that page exists.
   */
  lemma ReopenResumes(s: State, i: int, entries: seq<Archive.Entry>)
    requires s.currentFile.Some? && IsCbzName(s.currentFile.value) && 0 <= i < |s.imageFiles|
    requires !s.storage.progress.Corrupt? && s.mode != SCROLL_MODE
    requires Archive.ImageEntries(entries) != []
    ensures HandleFile(DisplayImage(s, i), Some(File(s.currentFile.value, Some(entries)))).index == i
    ensures Archive.ImageEntries(entries) == s.imageFiles ==>
              InRange(HandleFile(DisplayImage(s, i), Some(File(s.currentFile.value, Some(entries)))))
  {
  }

  /**
   * The restored page is not range-checked: a record saved for the same name
   * against a longer archive puts the index past the last page.
   */
  lemma RestoreIsNotRangeChecked()
    ensures var storage := LocalStorage(Progress.Parsed(map["vol.cbz" := ShownRecord(5)]), None, None);
            var r := HandleFile(Initial(storage), Some(File("vol.cbz", Some([Archive.Entry("p1.png", false)]))));
            r.loaded && r.index == 5 && r.imageFiles == ["p1.png"] && !InRange(r)
  {
    var e := [Archive.Entry("p1.png", false)];
    assert Archive.Keep(e[0]) by { Archive.PngAccepted(); }
    assert Archive.Kept(e) == ["p1.png"];
    assert Archive.ImageEntries(e) == ["p1.png"];
  }

  /** Preferences written by the settings panel are the ones restored after a reload. */
  lemma PreferencesSurviveReload(s: State, scroll: bool, reverse: bool)
    ensures var t := SetReverse(SelectMode(s, scroll), reverse);
            var r := RestorePreferences(Initial(t.storage));
            r.mode == (if scroll then SCROLL_MODE else PAGE_MODE) && r.reverse == reverse
  {
  }

  /**
   * Any archive with three pages, opened with no saved progress: going to
   * page 2 and turning forward shows the third page; turning back twice shows
   * the first.
   */
  lemma ThreePageScenario(storage: LocalStorage, name: string, entries: seq<Archive.Entry>)
    requires IsCbzName(name) && Progress.Load(storage.progress, name).None?
    requires |Archive.ImageEntries(entries)| == 3
    ensures var s := HandleFile(Initial(storage), Some(File(name, Some(entries))));
            && s.index == 0 && s.imageFiles == Archive.ImageEntries(entries)
            && Next(GoTo(s, 2)).index == 2
            && Prev(Next(GoTo(s, 2))).index == 1
            && Prev(Prev(Next(GoTo(s, 2)))).index == 0
  {
  }
}
