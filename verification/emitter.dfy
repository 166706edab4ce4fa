/** `generate_references_ts`, `read_bib_file` and `sync_references` of
    src-tauri/src/bibtex.rs: the references become a TypeScript module with
    a fixed header, one object per reference in order, and a closing `};`.
    The file steps are inputs: the bibliography as read, and the errors of
    creating the data directory and writing the module. */
module Emitter {
  import opened Options
  import opened Strings
  import opened Integers
  import opened Bibtex
  import opened References

  // ---------------------------------------------------------------- the module text

  /** The fixed start of the module: a notice, the `Reference` interface
      and the opening of the `references` object. */
  const Header :=
    "// Auto-generated from references.bib\n"
    + "// Run: npm run blog sync\n"
    + "// Do NOT edit manually - edit references.bib instead\n"
    + "\n"
    + "export interface Reference {\n"
    + "    author: string;\n"
    + "    year: number;\n"
    + "    title: string;\n"
    + "    shortCite: string;\n"
    + "    booktitle?: string;\n"
    + "    pages?: string;\n"
    + "    publisher?: string;\n"
    + "    url?: string;\n"
    + "}\n"
    + "\n"
    + "export const references: Record<string, Reference> = {\n"

  const Footer := "};\n"

  /** The text pushed for an optional field: after a comma and a new line,
      the field quoted, or nothing when the field is absent. */
  function OptText(name: string, o: Option<string>): string {
    match o
    case None => ""
    case Some(v) => ",\n        " + name + ": \"" + v + "\""
  }

  // The pieces the loop body pushes for one reference, in order.

  function KeyText(key: string): string {
    "    " + key + ": {\n"
  }

  function AuthorText(r: Reference): string {
    "        author: \"" + r.author + "\",\n"
  }

  function YearText(r: Reference): string {
    "        year: " + Decimal(r.year) + ",\n"
  }

  function TitleText(r: Reference): string {
    "        title: \"" + r.title + "\",\n"
  }

  function CiteText(r: Reference): string {
    "        shortCite: \"" + r.shortCite + "\""
  }

  const CloseText := "\n    },\n"

  /** The fields of a reference's object, as pushed. */
  function FieldsText(r: Reference): string {
    AuthorText(r) + YearText(r) + TitleText(r) + CiteText(r)
    + OptText("booktitle", r.booktitle) + OptText("pages", r.pages)
    + OptText("publisher", r.publisher) + OptText("url", r.url)
  }

  /** The object of one reference. */
  function RecordText(key: string, r: Reference): string {
    KeyText(key) + FieldsText(r) + CloseText
  }

  /** The object of one keyed reference. */
  function RecordOf(p: (string, Reference)): string {
    RecordText(p.0, p.1)
  }

  /** The objects of the references glued in order. */
  function Records(refs: seq<(string, Reference)>): string {
    Concat(MapText(refs, RecordOf))
  }

  /** The whole module. */
  function ReferencesTs(refs: seq<(string, Reference)>): string {
    Header + Records(refs) + Footer
  }

  // ---------------------------------------------------------------- the shape of an object

  /** One property line of an object. */
  function FieldLine(name: string, value: string): string {
    "        " + name + ": " + value
  }

  function Quoted(v: string): string {
    "\"" + v + "\""
  }

  /** The line of an optional field, present exactly when the field is. */
  function OptLine(name: string, o: Option<string>): seq<string> {
    match o
    case None => []
    case Some(v) => [FieldLine(name, Quoted(v))]
  }

  /** The four property lines every object has. */
  function RequiredLines(r: Reference): seq<string> {
    [FieldLine("author", Quoted(r.author)), FieldLine("year", Decimal(r.year)),
     FieldLine("title", Quoted(r.title)), FieldLine("shortCite", Quoted(r.shortCite))]
  }

  /** The property lines of a reference's object: the four required ones,
      then each optional one that is present, in the interface's order. */
  function FieldLines(r: Reference): seq<string> {
    RequiredLines(r)
    + OptLine("booktitle", r.booktitle) + OptLine("pages", r.pages)
    + OptLine("publisher", r.publisher) + OptLine("url", r.url)
  }

  /** An optional field's text is its line after the separator. */
  lemma OptTextIsLine(name: string, v: string)
    ensures OptText(name, Some(v)) == ",\n" + FieldLine(name, Quoted(v))
  {
  }

  /** Adding an optional line to the joined lines is pushing its text. */
  lemma JoinOpt(lines: seq<string>, name: string, o: Option<string>)
    requires |lines| >= 1
    ensures Join(lines + OptLine(name, o), ",\n") == Join(lines, ",\n") + OptText(name, o)
  {
    match o
    case None =>
      assert lines + [] == lines;
    case Some(v) =>
      JoinSnoc(lines, FieldLine(name, Quoted(v)), ",\n");
      OptTextIsLine(name, v);
      Assoc(Join(lines, ",\n"), ",\n", FieldLine(name, Quoted(v)));
  }

  lemma AuthorIsLine(r: Reference)
    ensures AuthorText(r) == FieldLine("author", Quoted(r.author)) + ",\n"
  {
  }

  lemma YearIsLine(r: Reference)
    ensures YearText(r) == FieldLine("year", Decimal(r.year)) + ",\n"
  {
  }

  lemma TitleIsLine(r: Reference)
    ensures TitleText(r) == FieldLine("title", Quoted(r.title)) + ",\n"
  {
  }

  lemma CiteIsLine(r: Reference)
    ensures CiteText(r) == FieldLine("shortCite", Quoted(r.shortCite))
  {
  }

  /** The four required lines joined are the four required pieces. */
  lemma JoinRequired(r: Reference)
    ensures Join(RequiredLines(r), ",\n") == AuthorText(r) + YearText(r) + TitleText(r) + CiteText(r)
  {
    var a := FieldLine("author", Quoted(r.author));
    var y := FieldLine("year", Decimal(r.year));
    var t := FieldLine("title", Quoted(r.title));
    var c := FieldLine("shortCite", Quoted(r.shortCite));
    assert [a] + [y] == [a, y] && [a, y] + [t] == [a, y, t] && [a, y, t] + [c] == RequiredLines(r);
    JoinSnoc([a], y, ",\n");
    JoinSnoc([a, y], t, ",\n");
    JoinSnoc([a, y, t], c, ",\n");
    AuthorIsLine(r);
    YearIsLine(r);
    TitleIsLine(r);
    CiteIsLine(r);
    Assoc(a, ",\n", y);
    Assoc(a + ",\n" + y, ",\n", t);
    Assoc(a + ",\n" + y + ",\n" + t, ",\n", c);
    Assoc(a + ",\n", y, ",\n");
    Assoc(a + ",\n" + (y + ",\n"), t, ",\n");
  }

  /** The fields of each object are its property lines joined by a comma
      and a new line: every present optional field has its line and every
      absent one none, in the interface's order, and the last line has no
      trailing comma. */
  lemma FieldsShape(r: Reference)
    ensures FieldsText(r) == Join(FieldLines(r), ",\n")
  {
    var l0 := RequiredLines(r);
    var l1 := l0 + OptLine("booktitle", r.booktitle);
    var l2 := l1 + OptLine("pages", r.pages);
    var l3 := l2 + OptLine("publisher", r.publisher);
    JoinRequired(r);
    JoinOpt(l0, "booktitle", r.booktitle);
    JoinOpt(l1, "pages", r.pages);
    JoinOpt(l2, "publisher", r.publisher);
    JoinOpt(l3, "url", r.url);
  }

  /** Each object: the key, the joined property lines, the closing brace. */
  lemma RecordShape(key: string, r: Reference)
    ensures RecordText(key, r) == "    " + key + ": {\n" + Join(FieldLines(r), ",\n") + "\n    },\n"
  {
    FieldsShape(r);
  }

  /** The optional field of a reference that a property name stands for. */
  function OptField(r: Reference, name: string): Option<string>
    requires name in OptNames
  {
    match name
    case "booktitle" => r.booktitle
    case "pages" => r.pages
    case "publisher" => r.publisher
    case _ => r.url
  }

  const OptNames := ["booktitle", "pages", "publisher", "url"]

  /** The name of a property line sits after the indent, followed by a
      colon. */
  lemma FieldLineColon(n: string, v: string)
    ensures |FieldLine(n, v)| > 8 + |n| && FieldLine(n, v)[8 + |n|] == ':'
    ensures FieldLine(n, v)[8..8 + |n|] == n && FieldLine(n, v)[10 + |n|..] == v
  {
    assert FieldLine(n, v) == "        " + (n + (": " + v));
  }

  /** A property line names its property: lines for two names without a
      colon are equal only when the names and the values are. */
  lemma FieldLineInjective(n1: string, v1: string, n2: string, v2: string)
    requires NoChar(n1, ':') && NoChar(n2, ':')
    requires FieldLine(n1, v1) == FieldLine(n2, v2)
    ensures n1 == n2 && v1 == v2
  {
    FieldLineColon(n1, v1);
    FieldLineColon(n2, v2);
  }


  lemma QuotedInjective(v1: string, v2: string)
    requires Quoted(v1) == Quoted(v2)
    ensures v1 == v2
  {
    assert v1 == Quoted(v1)[1..|Quoted(v1)| - 1];
  }

  /** The four lines every object has never carry an optional property. */
  lemma NotRequired(r: Reference, name: string, v: string)
    requires name in OptNames
    ensures FieldLine(name, Quoted(v)) !in RequiredLines(r)
  {
    var line := FieldLine(name, Quoted(v));
    assert NoChar(name, ':');
    NotNamed(line, name, Quoted(v), "author", Quoted(r.author));
    NotNamed(line, name, Quoted(v), "year", Decimal(r.year));
    NotNamed(line, name, Quoted(v), "title", Quoted(r.title));
    NotNamed(line, name, Quoted(v), "shortCite", Quoted(r.shortCite));
  }

  lemma NotNamed(line: string, name: string, v: string, other: string, w: string)
    requires line == FieldLine(name, v) && NoChar(name, ':') && NoChar(other, ':')
    requires name != other
    ensures line != FieldLine(other, w)
  {
    if line == FieldLine(other, w) {
      FieldLineInjective(name, v, other, w);
    }
  }


  /** The optional lines of an object. */
  function OptLines(r: Reference): seq<string> {
    OptLine("booktitle", r.booktitle) + OptLine("pages", r.pages)
    + OptLine("publisher", r.publisher) + OptLine("url", r.url)
  }

  /** Each optional line comes from one of the optional properties. */
  lemma InOptLines(r: Reference, line: string)
    requires line in OptLines(r)
    ensures exists n :: n in OptNames && line in OptLine(n, OptField(r, n))
  {
    if line in OptLine("booktitle", r.booktitle) {
      assert OptField(r, "booktitle") == r.booktitle;
    } else if line in OptLine("pages", r.pages) {
      assert OptField(r, "pages") == r.pages;
    } else if line in OptLine("publisher", r.publisher) {
      assert OptField(r, "publisher") == r.publisher;
    } else {
      assert OptField(r, "url") == r.url;
    }
  }

  /** An object holds the line of an optional property, with a given value,
      exactly when the reference holds that value for it. */
  lemma OptionalLineIff(r: Reference, name: string, v: string)
    requires name in OptNames
    ensures FieldLine(name, Quoted(v)) in FieldLines(r) <==> OptField(r, name) == Some(v)
  {
    var line := FieldLine(name, Quoted(v));
    assert FieldLines(r) == RequiredLines(r) + OptLines(r);
    NotRequired(r, name, v);
    assert line in FieldLines(r) <==> line in OptLines(r);
    if line in OptLines(r) {
      OptLineFrom(r, name, v);
    }
    if OptField(r, name) == Some(v) {
      assert line in OptLine(name, OptField(r, name));
    }
  }

  /** A line among the optional ones with the property's name carries that
      property's value. */
  lemma OptLineFrom(r: Reference, name: string, v: string)
    requires name in OptNames
    requires FieldLine(name, Quoted(v)) in OptLines(r)
    ensures OptField(r, name) == Some(v)
  {
    var line := FieldLine(name, Quoted(v));
    InOptLines(r, line);
    var n :| n in OptNames && line in OptLine(n, OptField(r, n));
    var w := OptField(r, n).value;
    assert line == FieldLine(n, Quoted(w));
    assert NoChar(name, ':') && NoChar(n, ':');
    FieldLineInjective(name, Quoted(v), n, Quoted(w));
    QuotedInjective(v, w);
  }


  /** The objects of two lists of references are those of the first list
      followed by those of the second: nothing is dropped, merged or
      reordered. */
  lemma RecordsAppend(a: seq<(string, Reference)>, b: seq<(string, Reference)>)
    ensures Records(a + b) == Records(a) + Records(b)
  {
    MapTextAppend(a, b, RecordOf);
    ConcatAppend(MapText(a, RecordOf), MapText(b, RecordOf));
  }

  /** One more reference adds its object at the end. */
  lemma RecordsSnoc(refs: seq<(string, Reference)>, i: nat)
    requires i < |refs|
    ensures Records(refs[..i + 1]) == Records(refs[..i]) + RecordText(refs[i].0, refs[i].1)
  {
    assert refs[..i + 1] == refs[..i] + [refs[i]];
    RecordsAppend(refs[..i], [refs[i]]);
    assert MapText([refs[i]], RecordOf) == [RecordOf(refs[i])];
    assert Concat([RecordOf(refs[i])]) == RecordOf(refs[i]);
  }

  // ---------------------------------------------------------------- the generator

  /** An optional field pushed only when present. */
  method PushOpt(content: string, name: string, o: Option<string>) returns (out: string)
    ensures out == content + OptText(name, o)
  {
    out := content;
    if o.Some? {
      out := out + OptText(name, o);
    } else {
      assert content + OptText(name, o) == content;
    }
  }

  /** The fields of one object pushed in order. */
  method PushFields(content: string, r: Reference) returns (out: string)
    ensures out == content + FieldsText(r)
  {
    ghost var done := AuthorText(r);
    out := content + AuthorText(r);
    out := out + YearText(r);
    Assoc(content, done, YearText(r));
    done := done + YearText(r);
    out := out + TitleText(r);
    Assoc(content, done, TitleText(r));
    done := done + TitleText(r);
    out := out + CiteText(r);
    Assoc(content, done, CiteText(r));
    done := done + CiteText(r);
    out := PushOpt(out, "booktitle", r.booktitle);
    Assoc(content, done, OptText("booktitle", r.booktitle));
    done := done + OptText("booktitle", r.booktitle);
    out := PushOpt(out, "pages", r.pages);
    Assoc(content, done, OptText("pages", r.pages));
    done := done + OptText("pages", r.pages);
    out := PushOpt(out, "publisher", r.publisher);
    Assoc(content, done, OptText("publisher", r.publisher));
    done := done + OptText("publisher", r.publisher);
    out := PushOpt(out, "url", r.url);
    Assoc(content, done, OptText("url", r.url));
  }

  /** The loop body of `generate_references_ts` for one reference. */
  method PushRecord(content: string, key: string, r: Reference) returns (out: string)
    ensures out == content + RecordText(key, r)
  {
    out := content + KeyText(key);
    out := PushFields(out, r);
    Assoc(content, KeyText(key), FieldsText(r));
    out := out + CloseText;
    Assoc(content, KeyText(key) + FieldsText(r), CloseText);
  }

  /** The loop of `generate_references_ts`: the object of each reference
      pushed, in order, after the text so far. */
  method PushRecords(start: string, refs: seq<(string, Reference)>) returns (content: string)
    ensures content == start + Records(refs)
  {
    content := start;
    var i := 0;
    while i < |refs|
      invariant i <= |refs|
      invariant content == start + Records(refs[..i])
    {
      content := PushRecord(content, refs[i].0, refs[i].1);
      RecordsSnoc(refs, i);
      Assoc(start, Records(refs[..i]), RecordText(refs[i].0, refs[i].1));
      i := i + 1;
    }
    assert refs[..i] == refs;
  }

  /** `generate_references_ts`: the header, then the object of each
      reference, then the closing line. */
  method GenerateReferencesTs(refs: seq<(string, Reference)>) returns (content: string)
    ensures content == ReferencesTs(refs)
    ensures |content| >= |Header| + |Footer| && content[..|Header|] == Header
    ensures content[|content| - |Footer|..] == Footer
  {
    content := PushRecords(Header, refs);
    content := content + Footer;
    Ends(Header, Records(refs), Footer);
  }

  // ---------------------------------------------------------------- the commands

  /** The references of the entries, in order. */
  function ToReferences(entries: seq<BibEntry>): (r: seq<(string, Reference)>)
    ensures |r| == |entries|
    ensures forall i :: 0 <= i < |entries| ==> r[i] == EntryToReference(entries[i])
  {
    if |entries| == 0 then [] else [EntryToReference(entries[0])] + ToReferences(entries[1..])
  }

  /** `read_bib_file`: the entries of the bibliography, or why it could not
      be read. */
  function ReadBibFile(bib: FileRead): (r: Result<seq<BibEntry>, string>)
    ensures bib.Missing? ==> r == Err("references.bib not found")
    ensures bib.Unreadable? ==> r == Err("Failed to read bib file: " + bib.error)
    ensures r.Ok? <==> bib.Text?
  {
    match bib
    case Missing => Err("references.bib not found")
    case Unreadable(e) => Err("Failed to read bib file: " + e)
    case Text(t) => Ok(ParseBibtex(t))
  }

  /** What `sync_references` reports: the number of entries and a message. */
  datatype SyncResult = SyncResult(entriesSynced: nat, message: string)

  /** `sync_references`: the result and the module written, if any. */
  function SyncReferences(bib: FileRead, dirError: Option<string>, writeError: Option<string>)
    : (r: (Result<SyncResult, string>, Option<string>))
    ensures bib.Missing? ==> r.0 == Err("references.bib not found")
    ensures bib.Unreadable? ==> r.0 == Err("Failed to read bib file: " + bib.error)
    ensures bib.Text? && dirError.Some? ==> r.0 == Err("Failed to create data directory: " + dirError.value)
    ensures bib.Text? && dirError.None? && writeError.Some? ==>
      r.0 == Err("Failed to write references.ts: " + writeError.value)
    ensures r.0.Ok? <==> bib.Text? && dirError.None? && writeError.None?
    ensures r.1.Some? <==> r.0.Ok?
    ensures r.0.Ok? ==> r.0.value.message == "Synced " + Digits(r.0.value.entriesSynced) + " references"
  {
    match ReadBibFile(bib)
    case Err(e) => (Err(e), None)
    case Ok(entries) =>
      var ts := ReferencesTs(ToReferences(entries));
      if dirError.Some? then (Err("Failed to create data directory: " + dirError.value), None)
      else if writeError.Some? then (Err("Failed to write references.ts: " + writeError.value), None)
      else
        var n := |entries|;
        (Ok(SyncResult(n, "Synced " + Digits(n) + " references")), Some(ts))
  }

  /** A successful sync counts exactly the entries `read_bib_file` reads
      from the same file, and writes one object for each of them, in
      order. */
  lemma SyncCountsEntries(bib: FileRead, dirError: Option<string>, writeError: Option<string>)
    requires SyncReferences(bib, dirError, writeError).0.Ok?
    ensures var (res, written) := SyncReferences(bib, dirError, writeError);
      && ReadBibFile(bib).Ok?
      && res.value.entriesSynced == |ReadBibFile(bib).value|
      && written == Some(ReferencesTs(ToReferences(ReadBibFile(bib).value)))
      && |ToReferences(ReadBibFile(bib).value)| == res.value.entriesSynced
  {
  }
}
