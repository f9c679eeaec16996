/**
 * Selection of the pages of a comic archive (app.js:106-107): keep the
 * non-directory entries whose name ends in .jpg, .jpeg, .png or .gif in any
 * letter case, and order them by name.
 *
 * The archive library itself is not modelled: an unpacked archive is given
 * as the sequence of its entries. The name order is plain lexicographic order
 * on character codes, standing in for `localeCompare`.
 */
module Archive {

  /** One record of an unpacked archive: its path and whether it is a directory. */
  datatype Entry = Entry(name: string, dir: bool)

  /** ASCII lower-casing, the only folding a non-Unicode `/i` regular expression does for these suffixes. */
  function Lower(c: char): char {
    if 'A' <= c <= 'Z' then (c as int + 32) as char else c
  }

  /** `s` ends with the lower-case `suffix` when ASCII letters are compared without regard to case. */
  predicate EndsWithIgnoringCase(s: string, suffix: string) {
    |suffix| <= |s| && forall i :: 0 <= i < |suffix| ==> Lower(s[|s| - |suffix| + i]) == suffix[i]
  }

  /** The test `/\.(jpe?g|png|gif)$/i`. */
  predicate IsImageName(name: string)
    ensures IsImageName(name) ==> 4 <= |name|
  {
    || EndsWithIgnoringCase(name, ".jpg")
    || EndsWithIgnoringCase(name, ".jpeg")
    || EndsWithIgnoringCase(name, ".png")
    || EndsWithIgnoringCase(name, ".gif")
  }

  /** An image name has a dot before its three- or four-letter extension. */
  lemma ImageNameHasDot(name: string)
    requires IsImageName(name)
    ensures name[|name| - 4] == '.' || (5 <= |name| && name[|name| - 5] == '.')
  {
    var suffix := if EndsWithIgnoringCase(name, ".jpeg") then ".jpeg"
                  else if EndsWithIgnoringCase(name, ".jpg") then ".jpg"
                  else if EndsWithIgnoringCase(name, ".png") then ".png" else ".gif";
    assert EndsWithIgnoringCase(name, suffix);
    assert Lower(name[|name| - |suffix| + 0]) == suffix[0] == '.';
  }

  /** The image test ignores letter case. */
  lemma ImageNameAccepts()
    ensures IsImageName("p01.JPG") && IsImageName("x.jpeg") && IsImageName("b.Gif")
  {
  }

  /** The page names of the sample archive below are image names. */
  lemma PngAccepted()
    ensures IsImageName("p1.png") && IsImageName("p2.png") && IsImageName("p3.png")
  {
  }

  /** A name whose last character differs from the suffix's (after folding) does not end with it. */
  lemma LastCharRejects(s: string, suffix: string)
    requires s != [] && suffix != [] && Lower(s[|s| - 1]) != suffix[|suffix| - 1]
    ensures !EndsWithIgnoringCase(s, suffix)
  {
  }

  /** The suffix must be the whole end of the name, dot included. */
  lemma ImageNameRejects()
    ensures !IsImageName("jpg") && !IsImageName("a.jpg.txt") && !IsImageName("a.webp")
  {
    var s, t := "a.jpg.txt", "a.webp";
    assert Lower(s[|s| - 1]) == 't';
    LastCharRejects(s, ".jpg");
    LastCharRejects(s, ".jpeg");
    LastCharRejects(s, ".png");
    LastCharRejects(s, ".gif");
    assert Lower(t[|t| - 1]) == 'p';
    LastCharRejects(t, ".jpg");
    LastCharRejects(t, ".jpeg");
    LastCharRejects(t, ".png");
    LastCharRejects(t, ".gif");
  }

  /** The filter of the entry list: a file, not a directory, with an image name. */
  predicate Keep(e: Entry)
    ensures Keep(e) ==> !e.dir && 4 <= |e.name|
  {
    !e.dir && IsImageName(e.name)
  }

  /** The names of the kept entries, in archive order. */
  function Kept(entries: seq<Entry>): (names: seq<string>)
    ensures |names| <= |entries|
    ensures forall n :: n in names <==> exists e :: e in entries && Keep(e) && e.name == n
  {
    if entries == [] then []
    else
      var rest := Kept(entries[1..]);
      assert forall e :: e in entries <==> e == entries[0] || e in entries[1..];
      (if Keep(entries[0]) then [entries[0].name] else []) + rest
  }

  /** Lexicographic order on character codes; a proper prefix comes first. */
  predicate NameLe(a: string, b: string)
    ensures a <= b ==> NameLe(a, b)
    ensures NameLe(a, b) && b == [] ==> a == []
    decreases |a|
  {
    a == [] || (b != [] && (a[0] < b[0] || (a[0] == b[0] && NameLe(a[1..], b[1..]))))
  }

  lemma {:induction false} NameLeReflexive(a: string)
    ensures NameLe(a, a)
    decreases |a|
  {
    if a != [] {
      NameLeReflexive(a[1..]);
    }
  }

  lemma {:induction false} NameLeTotal(a: string, b: string)
    ensures NameLe(a, b) || NameLe(b, a)
    decreases |a|
  {
    if a != [] && b != [] && a[0] == b[0] {
      NameLeTotal(a[1..], b[1..]);
    }
  }

  lemma {:induction false} NameLeAntisymmetric(a: string, b: string)
    requires NameLe(a, b) && NameLe(b, a)
    ensures a == b
    decreases |a|
  {
    if a != [] {
      NameLeAntisymmetric(a[1..], b[1..]);
      assert a == [a[0]] + a[1..] && b == [b[0]] + b[1..];
    }
  }

  lemma {:induction false} NameLeTransitive(a: string, b: string, c: string)
    requires NameLe(a, b) && NameLe(b, c)
    ensures NameLe(a, c)
    decreases |a|
  {
    if a != [] && a[0] == b[0] && b[0] == c[0] {
      NameLeTransitive(a[1..], b[1..], c[1..]);
    }
  }

  predicate Sorted(s: seq<string>) {
    forall i, j :: 0 <= i < j < |s| ==> NameLe(s[i], s[j])
  }

  /** Inserts `x` into a sorted list, keeping it sorted. */
  function Insert(x: string, s: seq<string>): (r: seq<string>)
    requires Sorted(s)
    ensures Sorted(r)
    ensures multiset(r) == multiset(s) + multiset{x}
  {
    if s == [] then [x]
    else if NameLe(x, s[0]) then
      assert forall j :: 0 <= j < |s| ==> NameLe(x, s[j]) by {
        forall j | 0 <= j < |s| ensures NameLe(x, s[j]) {
          if j > 0 { NameLeTransitive(x, s[0], s[j]); }
        }
      }
      assert s == [s[0]] + s[1..];
      [x] + s
    else
      NameLeTotal(x, s[0]);
      var rest := Insert(x, s[1..]);
      assert s == [s[0]] + s[1..];
      assert forall j :: 0 <= j < |rest| ==> NameLe(s[0], rest[j]) by {
        forall j | 0 <= j < |rest| ensures NameLe(s[0], rest[j]) {
          assert rest[j] in multiset(rest);
          if rest[j] != x {
            assert rest[j] in multiset(s[1..]);
            var k :| 0 <= k < |s[1..]| && s[1..][k] == rest[j];
            assert s[k + 1] == rest[j];
          }
        }
      }
      [s[0]] + rest
  }

  /** Orders names by `NameLe` (an insertion sort). */
  function SortByName(s: seq<string>): (r: seq<string>)
    ensures Sorted(r)
    ensures multiset(r) == multiset(s)
  {
    if s == [] then []
    else
      assert s == [s[0]] + s[1..];
      Insert(s[0], SortByName(s[1..]))
  }

  /** The head of a sorted list is below every element of it. */
  lemma HeadIsLeast(a: seq<string>, x: string)
    requires Sorted(a) && x in multiset(a)
    ensures NameLe(a[0], x)
  {
    var i :| 0 <= i < |a| && a[i] == x;
    if i == 0 { NameLeReflexive(x); }
  }

  lemma TailOf(a: seq<string>)
    requires a != []
    ensures multiset(a[1..]) == multiset(a) - multiset{a[0]}
  {
    assert a == [a[0]] + a[1..];
  }

  /**
   * A sorted permutation is unique: whatever correct sorting algorithm the
   * program uses, the page list is the same.
   */
  lemma {:induction false} SortedUnique(a: seq<string>, b: seq<string>)
    requires Sorted(a) && Sorted(b) && multiset(a) == multiset(b)
    ensures a == b
    decreases |a|
  {
    assert |a| == |multiset(a)| == |multiset(b)| == |b|;
    if a != [] {
      HeadIsLeast(a, b[0]);
      HeadIsLeast(b, a[0]);
      NameLeAntisymmetric(a[0], b[0]);
      TailOf(a);
      TailOf(b);
      SortedUnique(a[1..], b[1..]);
      assert a == [a[0]] + a[1..] && b == [b[0]] + b[1..];
    }
  }

  /** `imageFiles`: the kept entries, sorted by name; `totalPages` is its length. */
  function ImageEntries(entries: seq<Entry>): (pages: seq<string>)
    ensures Sorted(pages)
    ensures multiset(pages) == multiset(Kept(entries))
    ensures |pages| == |Kept(entries)|
    ensures forall n :: n in pages <==> exists e :: e in entries && Keep(e) && e.name == n
  {
    var pages := SortByName(Kept(entries));
    assert forall n :: n in pages <==> n in multiset(pages);
    assert forall n :: n in Kept(entries) <==> n in multiset(Kept(entries));
    assert |pages| == |multiset(pages)|;
    pages
  }

  /** The page list is the only sorted arrangement of the kept names. */
  lemma ImageEntriesCharacterized(entries: seq<Entry>, pages: seq<string>)
    requires Sorted(pages) && multiset(pages) == multiset(Kept(entries))
    ensures ImageEntries(entries) == pages
  {
    SortedUnique(ImageEntries(entries), pages);
  }

  /** A sample archive: three pages out of order, a directory and a text file. */
  const SAMPLE_ENTRIES := [Entry("p3.png", false), Entry("p1.png", false), Entry("extras/", true),
                           Entry("p2.png", false), Entry("notes.txt", false)]

  /** The directory and the text file are dropped; the images keep archive order. */
  lemma SampleKept()
    ensures Kept(SAMPLE_ENTRIES) == ["p3.png", "p1.png", "p2.png"]
  {
    var entries := SAMPLE_ENTRIES;
    PngAccepted();
    var notes := "notes.txt";
    assert Lower(notes[|notes| - 1]) == 't';
    LastCharRejects(notes, ".jpg");
    LastCharRejects(notes, ".jpeg");
    LastCharRejects(notes, ".png");
    LastCharRejects(notes, ".gif");
    assert entries[4..][1..] == [];
    assert Kept(entries[4..]) == [];
    assert entries[3..][1..] == entries[4..];
    assert Kept(entries[3..]) == ["p2.png"];
    assert entries[2..][1..] == entries[3..];
    assert Kept(entries[2..]) == ["p2.png"];
    assert entries[1..][1..] == entries[2..];
    assert Kept(entries[1..]) == ["p1.png", "p2.png"];
  }

  /** The sample's page names are in name order. */
  lemma SampleSorted()
    ensures Sorted(["p1.png", "p2.png", "p3.png"])
  {
  }

  /** Kept names in the sample's archive order come out in name order. */
  lemma SamplePages(entries: seq<Entry>)
    requires Kept(entries) == ["p3.png", "p1.png", "p2.png"]
    ensures ImageEntries(entries) == ["p1.png", "p2.png", "p3.png"]
  {
    SampleSorted();
    var a, b, c := "p1.png", "p2.png", "p3.png";
    assert multiset([c, a, b]) == multiset([a, b, c]);
    ImageEntriesCharacterized(entries, [a, b, c]);
  }
}
