/** `parse_bibtex` and `entry_to_reference` of src-tauri/src/bibtex.rs: raw
    BibTeX text to `BibEntry` records, and each record to the `Reference`
    that the generated TypeScript module holds, with its short key. */
module Bibtex {
  import opened Options
  import opened Ascii
  import opened Strings
  import opened Integers
  import opened BibScan

  /** A raw entry: required fields default to `""`, optional ones are
      present only when the field block held them. */
  datatype BibEntry = BibEntry(
    key: string,
    entryType: string,
    author: string,
    year: string,
    title: string,
    url: Option<string>,
    booktitle: Option<string>,
    pages: Option<string>,
    publisher: Option<string>,
    journal: Option<string>)

  /** The canonical reference written to the TypeScript module. */
  datatype Reference = Reference(
    author: string,
    year: i32,
    title: string,
    shortCite: string,
    booktitle: Option<string>,
    pages: Option<string>,
    publisher: Option<string>,
    url: Option<string>)

  // ---------------------------------------------------------------- parsing

  /** The entry before any field has been read. */
  function Blank(key: string, entryType: string): BibEntry {
    BibEntry(key, entryType, "", "", "", None, None, None, None, None)
  }

  /** `value.replace("--", "-")`, applied to page ranges. */
  function NormalizePages(value: string): string {
    Replace(value, "--", "-")
  }

  /** One step of the field loop: `name` is already lower-cased and `value`
      trimmed. Recognised names overwrite the earlier value; any other name
      leaves the entry unchanged. */
  function SetField(e: BibEntry, name: string, value: string): BibEntry {
    match name
    case "author" => e.(author := value)
    case "year" => e.(year := value)
    case "title" => e.(title := value)
    case "url" => e.(url := Some(value))
    case "booktitle" => e.(booktitle := Some(value))
    case "pages" => e.(pages := Some(NormalizePages(value)))
    case "publisher" => e.(publisher := Some(value))
    case "journal" => e.(journal := Some(value))
    case _ => e
  }

  /** The field loop over the matches of one block, in order. */
  function ApplyFields(e: BibEntry, fs: seq<FieldMatch>): BibEntry
    decreases |fs|
  {
    if |fs| == 0 then e
    else ApplyFields(SetField(e, Lower(fs[0].name), Trim(fs[0].value)), fs[1..])
  }

  /** The trimmed value of the last field match named `name` (compared after
      lower-casing), if any. */
  function LastValue(fs: seq<FieldMatch>, name: string): Option<string>
    decreases |fs|
  {
    if |fs| == 0 then None
    else if Lower(fs[|fs| - 1].name) == name then Some(Trim(fs[|fs| - 1].value))
    else LastValue(fs[..|fs| - 1], name)
  }

  function MapOption(o: Option<string>, f: string -> string): Option<string> {
    match o
    case Some(v) => Some(f(v))
    case None => None
  }

  /** The entry one entry-pattern match yields. */
  function BuildEntry(m: EntryMatch): BibEntry {
    ApplyFields(Blank(Trim(m.key), Lower(m.kind)), ScanFields(m.fields))
  }

  /** The entry a match describes, field by field: the trimmed key, the
      lower-cased type, `""` for a missing author, year or title, no value for
      a missing optional field, and otherwise the last value given (pages with
      `--` made `-`). */
  predicate EntryFrom(m: EntryMatch, r: BibEntry) {
    var fs := ScanFields(m.fields);
    && r.key == Trim(m.key)
    && r.entryType == Lower(m.kind)
    && r.author == LastValue(fs, "author").GetOr("")
    && r.year == LastValue(fs, "year").GetOr("")
    && r.title == LastValue(fs, "title").GetOr("")
    && r.url == LastValue(fs, "url")
    && r.booktitle == LastValue(fs, "booktitle")
    && r.pages == MapOption(LastValue(fs, "pages"), NormalizePages)
    && r.publisher == LastValue(fs, "publisher")
    && r.journal == LastValue(fs, "journal")
  }

  /** `parse_bibtex`: one entry per match of the entry pattern, in order. */
  function ParseBibtex(content: string): (r: seq<BibEntry>)
    ensures |r| == |ScanEntries(content)|
    ensures forall i :: 0 <= i < |r| ==> EntryFrom(ScanEntries(content)[i], r[i])
  {
    var ms := ScanEntries(content);
    var r := seq(|ms|, i requires 0 <= i < |ms| => BuildEntry(ms[i]));
    assert forall i :: 0 <= i < |r| ==> EntryFrom(ms[i], r[i]) by {
      forall i | 0 <= i < |r| {
        ApplyFieldsLast(Blank(Trim(ms[i].key), Lower(ms[i].kind)), ScanFields(ms[i].fields));
      }
    }
    r
  }

  /** A page range written with `--` between two dash-free page numbers
      comes out with a single `-`. */
  lemma PagesRange(a: string, b: string)
    requires NoChar(a, '-') && NoChar(b, '-')
    ensures NormalizePages(a + "--" + b) == a + "-" + b
  {
    var s := a + "--" + b;
    var tail := ReplaceFrom(s, "--", "-", |a| + 2);
    NoDashesBefore(s, a, "--" + b);
    ReplaceUpTo(s, "--", "-", 0, |a|);
    assert s[..|a|] == a;
    assert OccursAt(s, "--", |a|) by {
      assert s[|a|..|a| + 2] == "--";
    }
    assert ReplaceFrom(s, "--", "-", |a|) == "-" + tail;
    assert s[|a| + 2..] == b;
    NoDashesAfter(s, b, |a| + 2);
    ReplaceAbsent(s, "--", "-", |a| + 2);
  }

  /** A page range written with a single `-` is kept. */
  lemma PagesKept(a: string, b: string)
    requires NoChar(a, '-') && NoChar(b, '-')
    ensures NormalizePages(a + "-" + b) == a + "-" + b
  {
    var t := a + "-" + b;
    forall j: nat | j < |t| ensures !OccursAt(t, "--", j) {
      if j < |a| {
        assert t[j] == a[j];
      } else if j + 1 < |t| {
        assert t[j + 1] == b[j - |a|];
      }
    }
    ReplaceAbsent(t, "--", "-", 0);
  }

  /** No `--` starts within a dash-free prefix. */
  lemma NoDashesBefore(s: string, a: string, z: string)
    requires s == a + z && NoChar(a, '-')
    ensures forall j: nat :: 0 <= j < |a| ==> !OccursAt(s, "--", j)
  {
    forall j: nat | j < |a| ensures !OccursAt(s, "--", j) {
      assert s[j] == a[j];
    }
  }

  /** No `--` starts within a dash-free suffix. */
  lemma NoDashesAfter(s: string, b: string, k: nat)
    requires k <= |s| && s[k..] == b && NoChar(b, '-')
    ensures forall j: nat :: k <= j ==> !OccursAt(s, "--", j)
  {
    forall j: nat | k <= j ensures !OccursAt(s, "--", j) {
      if j < |s| {
        assert s[j] == b[j - k];
      }
    }
  }

  /** What one step of the field loop does to each field. */
  lemma SetFieldEffect(e: BibEntry, name: string, v: string)
    ensures SetField(e, name, v).key == e.key
    ensures SetField(e, name, v).entryType == e.entryType
    ensures SetField(e, name, v).author == if name == "author" then v else e.author
    ensures SetField(e, name, v).year == if name == "year" then v else e.year
    ensures SetField(e, name, v).title == if name == "title" then v else e.title
    ensures SetField(e, name, v).url == if name == "url" then Some(v) else e.url
    ensures SetField(e, name, v).booktitle == if name == "booktitle" then Some(v) else e.booktitle
    ensures SetField(e, name, v).pages == if name == "pages" then Some(NormalizePages(v)) else e.pages
    ensures SetField(e, name, v).publisher == if name == "publisher" then Some(v) else e.publisher
    ensures SetField(e, name, v).journal == if name == "journal" then Some(v) else e.journal
  {
  }

  /** The last value a name received, after one more field match. */
  lemma LastValueSnoc(fs: seq<FieldMatch>, f: FieldMatch, name: string)
    ensures LastValue(fs + [f], name)
      == if Lower(f.name) == name then Some(Trim(f.value)) else LastValue(fs, name)
  {
    assert (fs + [f])[..|fs|] == fs;
  }

  /** Every field of a built entry is the last value its name received in
      the block: recognised names that occur again overwrite, a missing
      required field keeps its initial value, a missing optional field
      likewise, pages have `--` rewritten to `-`, and key and type are never
      touched by the field loop. */
  lemma {:induction false} ApplyFieldsLast(e: BibEntry, fs: seq<FieldMatch>)
    decreases |fs|
    ensures ApplyFields(e, fs).key == e.key
    ensures ApplyFields(e, fs).entryType == e.entryType
    ensures ApplyFields(e, fs).author == LastValue(fs, "author").GetOr(e.author)
    ensures ApplyFields(e, fs).year == LastValue(fs, "year").GetOr(e.year)
    ensures ApplyFields(e, fs).title == LastValue(fs, "title").GetOr(e.title)
    ensures ApplyFields(e, fs).url == LastValue(fs, "url").OrElse(e.url)
    ensures ApplyFields(e, fs).booktitle == LastValue(fs, "booktitle").OrElse(e.booktitle)
    ensures ApplyFields(e, fs).pages == MapOption(LastValue(fs, "pages"), NormalizePages).OrElse(e.pages)
    ensures ApplyFields(e, fs).publisher == LastValue(fs, "publisher").OrElse(e.publisher)
    ensures ApplyFields(e, fs).journal == LastValue(fs, "journal").OrElse(e.journal)
  {
    if |fs| > 0 {
      var n := |fs| - 1;
      var init := fs[..n];
      var f := fs[n];
      assert init + [f] == fs;
      ApplyFieldsSnoc(e, init, f);
      ApplyFieldsLast(e, init);
      SetFieldEffect(ApplyFields(e, init), Lower(f.name), Trim(f.value));
      LastValueSnoc(init, f, "author");
      LastValueSnoc(init, f, "year");
      LastValueSnoc(init, f, "title");
      LastValueSnoc(init, f, "url");
      LastValueSnoc(init, f, "booktitle");
      LastValueSnoc(init, f, "pages");
      LastValueSnoc(init, f, "publisher");
      LastValueSnoc(init, f, "journal");
    }
  }

  /** The field loop over `fs + [f]` is the loop over `fs`, then one step. */
  lemma {:induction false} ApplyFieldsSnoc(e: BibEntry, fs: seq<FieldMatch>, f: FieldMatch)
    decreases |fs|
    ensures ApplyFields(e, fs + [f]) == SetField(ApplyFields(e, fs), Lower(f.name), Trim(f.value))
  {
    if |fs| > 0 {
      assert (fs + [f])[1..] == fs[1..] + [f];
      ApplyFieldsSnoc(SetField(e, Lower(fs[0].name), Trim(fs[0].value)), fs[1..], f);
    }
  }
}
