/**
 * The reading-progress store (app.js:327-350) and the choice of the start
 * page when an archive is opened (app.js:110-114).
 *
 * The browser keeps every record in one local-storage item holding a JSON
 * object from file name to record. The model keeps that item in one of three
 * shapes: absent, text that does not parse, or a parsed object. JSON text
 * itself is not modelled.
 */
module Progress {
  import opened Wrappers

  /** The `type` the comic reader writes and accepts. */
  const CBZ_TYPE: string := "cbz"

  /** The `page` field of a stored record: a JSON number, or any other JSON value. */
  datatype PageValue = Number(n: int) | NotNumber

  /** A stored record `{type, page}`. */
  datatype Record = Record(kind: string, page: PageValue)

  /** The local-storage item that holds the records. */
  datatype Blob =
    | Missing                               // the item is not set (or parses to null)
    | Corrupt                               // the item does not parse: JSON.parse throws
    | Parsed(records: map<string, Record>)

  /**
   * `saveProgress(filename, data)`: read the object (an absent item reads as
   * `{}`), overwrite one key and write it back. When the item does not parse,
   * the exception is caught before anything is written.
   */
  function Save(b: Blob, filename: string, data: Record): (r: Blob)
    ensures b.Corrupt? ==> r == Corrupt
    ensures !b.Corrupt? ==> r.Parsed?
    ensures r.Parsed? ==> filename in r.records && r.records[filename] == data
    ensures r.Parsed? ==> r.records.Keys == {filename} + (if b.Parsed? then b.records.Keys else {})
    ensures b.Parsed? ==> r.Parsed? && forall g :: g in b.records && g != filename ==> r.records[g] == b.records[g]
  {
    match b
    case Missing => Parsed(map[filename := data])
    case Corrupt => Corrupt
    case Parsed(records) => Parsed(records[filename := data])
  }

  /**
   * `loadProgress(filename)`: the stored record for `filename` when there is
   * one and its type is `cbz`, and none otherwise (including when the item
   * does not parse).
   */
  function Load(b: Blob, filename: string): (r: Option<Record>)
    ensures r.Some? ==> r.value.kind == CBZ_TYPE
    ensures r.Some? ==> b.Parsed? && filename in b.records && b.records[filename] == r.value
  {
    if b.Parsed? && filename in b.records && b.records[filename].kind == CBZ_TYPE then
      Some(b.records[filename])
    else
      None
  }

  /** The start page: the saved page when it is a number, else 0. It is not checked against the page count. */
  function StartPage(saved: Option<Record>): (page: int)
    ensures page != 0 ==> saved.Some? && saved.value.page == Number(page)
  {
    if saved.Some? && saved.value.page.Number? then saved.value.page.n else 0
  }

  /** A saved `cbz` record is read back exactly, unless the item is corrupt, in which case nothing was saved. */
  lemma LoadAfterSave(b: Blob, filename: string, data: Record)
    ensures Load(Save(b, filename, data), filename) ==
              if b.Corrupt? || data.kind != CBZ_TYPE then None else Some(data)
  {
  }

  /** Saving for one file leaves what every other file loads unchanged. */
  lemma SaveLeavesOthers(b: Blob, filename: string, data: Record, other: string)
    requires other != filename
    ensures Load(Save(b, filename, data), other) == Load(b, other)
  {
  }

  /** The three ways `loadProgress` finds nothing. */
  lemma LoadNone(b: Blob, filename: string)
    ensures Load(b, filename).None? <==>
              || !b.Parsed?
              || filename !in b.records
              || b.records[filename].kind != CBZ_TYPE
  {
  }

  /** The start page falls back to 0 when there is no record or its page is not a number. */
  lemma StartPageFallback(b: Blob, filename: string)
    ensures StartPage(Load(b, filename)) != 0 ==>
              && b.Parsed? && filename in b.records
              && b.records[filename].kind == CBZ_TYPE
              && b.records[filename].page.Number?
              && StartPage(Load(b, filename)) == b.records[filename].page.n
    ensures b.Parsed? && filename in b.records && b.records[filename].kind == CBZ_TYPE &&
            b.records[filename].page.Number? ==>
              StartPage(Load(b, filename)) == b.records[filename].page.n
  {
  }

  /** A page saved by the reader is the start page next time the same file is opened. */
  lemma ResumeAfterSave(b: Blob, filename: string, page: int)
    requires !b.Corrupt?
    ensures StartPage(Load(Save(b, filename, Record(CBZ_TYPE, Number(page))), filename)) == page
  {
  }
}
