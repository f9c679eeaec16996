/**
 * The two reader preferences kept in local storage (app.js:47-51, 296-311):
 * the reading mode, stored as its name, and the reverse-direction flag,
 * stored as the text of a boolean.
 */
module Preferences {
  import opened Wrappers

  const PAGE_MODE: string := "page"
  const SCROLL_MODE: string := "scroll"

  /** Restoring the mode: a stored non-empty string replaces the current mode, whatever it says. */
  function RestoredMode(stored: Option<string>, current: string): (mode: string)
    ensures mode == current || (stored.Some? && mode == stored.value)
    ensures stored.None? || stored == Some("") ==> mode == current
    ensures stored.Some? && stored.value != "" ==> mode == stored.value
  {
    if stored.Some? && stored.value != "" then stored.value else current
  }

  /** Restoring the flag: set exactly when the stored text is `true`. */
  function RestoredReverse(stored: Option<string>): (reverse: bool)
    ensures reverse <==> stored == Some(ReverseText(true))
  {
    stored == Some("true")
  }

  /** `localStorage.setItem` stores a boolean as its text. */
  function ReverseText(reverse: bool): (text: string)
    ensures text == "true" <==> reverse
  {
    if reverse then "true" else "false"
  }

  /** Both preferences the settings panel writes are restored as they were written. */
  lemma RestoreAfterStore(mode: string, reverse: bool, current: string)
    requires mode == PAGE_MODE || mode == SCROLL_MODE
    ensures RestoredMode(Some(mode), current) == mode
    ensures RestoredReverse(Some(ReverseText(reverse))) == reverse
  {
  }
}
