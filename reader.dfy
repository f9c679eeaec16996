/**
 * The reader's module-level variables (app.js:37-43) and local storage as
 * the fields of one object, with one method per handler that changes them.
 * Each method is proved to have exactly the effect of the corresponding
 * transition of `Navigator`, where the properties are proved.
 */
module Reader {
  import opened Wrappers
  import Archive
  import Progress
  import Preferences
  import Navigator

  class CbzReader {
    var loaded: bool                    // `zip !== null`
    var imageFiles: seq<string>
    var index: int                      // `currentImageIndex`
    var totalPages: int
    var mode: string                    // `cbzReadingMode`
    var reverse: bool                   // `cbzReverseDirection`
    var currentFile: Option<string>
    var storage: Navigator.LocalStorage

    /** The abstract value of the reader. */
    function State(): Navigator.State
      reads this
    {
      Navigator.State(loaded, imageFiles, index, totalPages, mode, reverse, currentFile, storage)
    }

    /** The script's initial values, over the storage the browser already holds. */
    constructor (storage: Navigator.LocalStorage)
      ensures State() == Navigator.Initial(storage)
    {
      loaded := false;
      imageFiles := [];
      index := 0;
      totalPages := 0;
      mode := Navigator.PAGE_MODE;
      reverse := false;
      currentFile := None;
      this.storage := storage;
    }

    /** The `DOMContentLoaded` handler (app.js:46-55). */
    method RestorePreferences()
      modifies this
      ensures State() == Navigator.RestorePreferences(old(State()))
    {
      var savedMode := storage.mode;
      if savedMode.Some? && savedMode.value != "" {
        mode := savedMode.value;
      }
      reverse := storage.reverse == Some("true");
      UpdateModeButtons();
    }

    /** The state part of `updateCbzModeButtons` (app.js:268-294). */
    method UpdateModeButtons()
      modifies this
      ensures State() == Navigator.UpdateModeButtons(old(State()))
    {
      if mode == Navigator.SCROLL_MODE {
        // the scroll view re-renders every page; no variable changes
      } else if loaded {
        DisplayImage(index);
      }
    }

    /** `saveProgress` (app.js:327-335). */
    method SaveProgress(filename: string, data: Progress.Record)
      modifies this
      ensures State() == old(State()).(storage := old(storage).(progress := Progress.Save(old(storage.progress), filename, data)))
    {
      var progress: map<string, Progress.Record>;
      match storage.progress {
        case Corrupt =>
          return;                       // JSON.parse throws; the error is logged
        case Missing =>
          progress := map[];
        case Parsed(records) =>
          progress := records;
      }
      progress := progress[filename := data];
      storage := storage.(progress := Progress.Parsed(progress));
    }

    /** The state part of `displayImage` (app.js:134-144). */
    method DisplayImage(i: int)
      modifies this
      ensures State() == Navigator.DisplayImage(old(State()), i)
    {
      index := i;
      if 0 <= i < |imageFiles| {
        // page i is decoded and shown; without it, decoding throws before the save
        if currentFile.Some? {
          SaveProgress(currentFile.value, Progress.Record(Progress.CBZ_TYPE, Progress.Number(i)));
        }
      }
    }

    /** `nextPage` (app.js:214-226). */
    method NextPage()
      modifies this
      ensures State() == Navigator.Next(old(State()))
    {
      if loaded && mode == Navigator.PAGE_MODE {
        if reverse {
          if index > 0 {
            index := index - 1;
            DisplayImage(index);
          }
        } else {
          if index < |imageFiles| - 1 {
            index := index + 1;
            DisplayImage(index);
          }
        }
      }
    }

    /** `prevPage` (app.js:228-240). */
    method PrevPage()
      modifies this
      ensures State() == Navigator.Prev(old(State()))
    {
      if loaded && mode == Navigator.PAGE_MODE {
        if reverse {
          if index < |imageFiles| - 1 {
            index := index + 1;
            DisplayImage(index);
          }
        } else {
          if index > 0 {
            index := index - 1;
            DisplayImage(index);
          }
        }
      }
    }

    /** `handleKeydown` (app.js:242-248). */
    method HandleKeydown(key: string)
      modifies this
      ensures State() == Navigator.Key(old(State()), key)
    {
      if key == "ArrowLeft" {
        PrevPage();
      } else if key == "ArrowRight" {
        NextPage();
      }
    }

    /** `goToCbzPage` (app.js:313-317); `page` is the already parsed 1-based number. */
    method GoToCbzPage(page: int)
      modifies this
      ensures State() == Navigator.GoTo(old(State()), page)
    {
      if loaded && page > 0 && page <= totalPages {
        DisplayImage(page - 1);
      }
    }

    /** The state part of `clearViewer` (app.js:80-93). */
    method ClearViewer()
      modifies this
      ensures State() == Navigator.Clear(old(State()))
    {
      loaded := false;
      imageFiles := [];
      index := 0;
    }

    /** The state part of `handleCbz` (app.js:96-132). */
    method HandleCbz(name: string, archive: Option<seq<Archive.Entry>>)
      modifies this
      ensures State() == Navigator.OpenCbz(old(State()), name, archive)
    {
      if archive.None? {
        return;                         // the archive library rejects the file
      }
      loaded := true;
      imageFiles := Archive.ImageEntries(archive.value);
      totalPages := |imageFiles|;
      if |imageFiles| > 0 {
        var savedPage := Progress.Load(storage.progress, name);
        var startPage := 0;
        if savedPage.Some? && savedPage.value.page.Number? {
          startPage := savedPage.value.page.n;
        }
        if mode == Navigator.SCROLL_MODE {
          // every page is appended to the scroll view; no variable changes
        } else {
          DisplayImage(startPage);
        }
      }
    }

    /** `handleFile` (app.js:57-71). */
    method HandleFile(file: Option<Navigator.File>)
      modifies this
      ensures State() == Navigator.HandleFile(old(State()), file)
    {
      if file.None? {
        return;
      }
      currentFile := Some(file.value.name);
      ClearViewer();
      if Navigator.IsCbzName(file.value.name) {
        HandleCbz(file.value.name, file.value.archive);
      }
    }

    /** The scroll button (app.js:296-300). */
    method SelectScrollMode()
      modifies this
      ensures State() == Navigator.SelectMode(old(State()), true)
    {
      mode := Navigator.SCROLL_MODE;
      storage := storage.(mode := Some(mode));
      UpdateModeButtons();
    }

    /** The page button (app.js:302-306). */
    method SelectPageMode()
      modifies this
      ensures State() == Navigator.SelectMode(old(State()), false)
    {
      mode := Navigator.PAGE_MODE;
      storage := storage.(mode := Some(mode));
      UpdateModeButtons();
    }

    /** The reverse-direction checkbox (app.js:308-311). */
    method SetReverseDirection(checked: bool)
      modifies this
      ensures State() == Navigator.SetReverse(old(State()), checked)
    {
      reverse := checked;
      storage := storage.(reverse := Some(Preferences.ReverseText(checked)));
    }
  }
}
