/** Post files of src-tauri/src/blog.rs: the page `generate_post_template`
    writes, the fields `read_post` reads back out of it with plain substring
    searches, and `update_post`, which rewrites a page keeping its date.

    A page is assembled from fixed text and the post's fields:

      ScriptOpen  TitleOpen title DateOpen date ExcerptOpen excerpt
      TagsOpen tags MetaClose  PageHead  ContentMarker BodyOpen body
      BodyClose PageFoot

    and every lemma about reading a page back walks the searches of
    `read_post` over these pieces one by one. */
module Posts {
  import opened Options
  import opened Ascii
  import opened Strings
  import opened Search
  import opened Tags
  import opened Markup

  /** What the commands are given about a post (`PostMetadata`). */
  datatype PostMetadata = PostMetadata(
    title: string, slug: string, excerpt: string, content: string,
    tags: seq<string>, date: string, keywords: string)

  /** What `read_post` returns (`PostContent`). */
  datatype PostContent = PostContent(
    slug: string, title: string, date: string, excerpt: string,
    tags: seq<string>, content: string)

  // ---------------------------------------------------------------- writing

  const Placeholder := "\n\n<!-- Write your content here -->"

  /** The body of the page: the given content, or a heading with the title
      and a placeholder comment when the content is empty. */
  function PostBody(m: PostMetadata): string {
    if |m.content| == 0 then "# " + m.title + Placeholder else m.content
  }

  // The search keys `read_post` looks for are the very texts the template
  // writes before each value.
  const MetaMarker := "export const metadata = {"
  const TitleKey := "title: \""
  const DateLabel := "date: "
  const DateKey := DateLabel + "\""
  const ExcerptLabel := "excerpt: "
  const ExcerptKey := ExcerptLabel + "\""
  const TagsKey := "tags: ["
  const BlockEnd := "};"
  const DivEnd := "</div>"

  const ScriptOpen := "<script context=\"module\">\n    "
  const Indent := "\n        "
  const TitlePad := MetaMarker + Indent
  const FieldPad := "\"," + Indent
  const TitleOpen := TitlePad + TitleKey
  const DateOpen := FieldPad + DateKey
  const ExcerptOpen := FieldPad + ExcerptKey
  const TagsOpen := FieldPad + TagsKey
  const ClosePad := "]\n    "
  const MetaClose := ClosePad + BlockEnd
  const BodyOpen := "\n\n"
  const BodyPad := "\n\n        "
  const BodyClose := BodyPad + DivEnd

  /** The metadata object of the module script from `export` through `};`,
      followed by `z`, built from the back: each function adds one key and
      its value in front of the rest. */
  function Meta(m: PostMetadata, z: string): string {
    TitleOpen + (m.title + DateThen(m, z))
  }

  function DateThen(m: PostMetadata, z: string): string {
    DateOpen + (m.date + ExcerptThen(m, z))
  }

  function ExcerptThen(m: PostMetadata, z: string): string {
    ExcerptOpen + (m.excerpt + TagsThen(m, z))
  }

  function TagsThen(m: PostMetadata, z: string): string {
    TagsOpen + (RenderTags(m.tags) + (MetaClose + z))
  }

  /** The metadata object on its own. */
  function MetadataBlock(m: PostMetadata): string {
    Meta(m, "")
  }

  /** A page around the post: the module script, then `head`, then the
      content division holding the body, then `foot`. */
  function Page(m: PostMetadata, head: string, foot: string): string {
    ScriptOpen + (MetadataBlock(m) + (head + (ContentMarker + (BodyOpen +
      (PostBody(m) + (BodyClose + foot))))))
  }

  /** `generate_post_template`: the page with the fixed Svelte markup. */
  function Template(m: PostMetadata): string {
    Page(m, PageHead, PageFoot)
  }

  // ---------------------------------------------------------------- reading

  /** The metadata block of a page: from the first `export const metadata =
      {` through the first `};` after it. */
  function MetadataOf(file: string): Option<string> {
    Cut(file, MetaMarker, BlockEnd)
  }

  /** The text after the first `key` of `block` (skipping `skip` characters,
      the length of the key) up to the next `close`. */
  function FieldAfter(block: string, key: string, skip: nat, close: string): (r: Option<string>)
    requires skip == |key| && |close| > 0
    ensures r.Some? ==> Contains(block, key) && !Contains(r.value, close)
    ensures !Contains(block, key) ==> r.None?
  {
    match Find(block, key)
    case None => None
    case Some(i) =>
      var rest := block[i + skip..];
      match Find(rest, close)
      case None => None
      case Some(e) =>
        assert !Contains(rest[..e], close) by {
          forall j: nat | OccursAt(rest[..e], close, j) ensures false {
            assert rest[..e][j..j + |close|] == rest[j..j + |close|];
            assert OccursAt(rest, close, j);
          }
        }
        Some(rest[..e])
  }

  /** The title `read_post` falls back on: the slug with dashes as spaces. */
  function SlugTitle(slug: string): string {
    Replace(slug, "-", " ")
  }

  /** The trimmed text between the content division's opening tag and the
      first `</div>` after it, or nothing. */
  function ContentOf(file: string): (r: string)
    ensures NoEdge(r, IsSpace)
    ensures !Contains(file, ContentMarker) ==> r == ""
    ensures var c := Find(file, ContentMarker);
      c.Some? && !Contains(file[c.value + |ContentMarker|..], DivEnd) ==> r == ""
  {
    match Find(file, ContentMarker)
    case None => ""
    case Some(c) =>
      var after := file[c + 26..];
      match Find(after, DivEnd)
      case None => ""
      case Some(e) => Trim(after[..e])
  }

  /** The tags between `tags: [` and the next `]`, or none. */
  function TagsOf(block: string): (r: seq<string>)
    ensures forall k :: 0 <= k < |r| ==> |r[k]| > 0 && NoEdge(r[k], IsQuote)
  {
    match FieldAfter(block, TagsKey, 7, "]")
    case None => []
    case Some(t) => ParseTags(t)
  }

  /** The fields `read_post` takes out of a page's text. */
  function ReadFields(slug: string, file: string): (r: PostContent)
    ensures r.slug == slug && r.content == ContentOf(file)
    ensures !Contains(file, MetaMarker) ==>
      r.title == SlugTitle(slug) && r.date == "" && r.excerpt == "" && r.tags == []
    ensures MetadataOf(file).None? ==>
      r.title == SlugTitle(slug) && r.date == "" && r.excerpt == "" && r.tags == []
    ensures MetadataOf(file).Some? && !Contains(MetadataOf(file).value, TitleKey) ==>
      r.title == SlugTitle(slug)
    ensures MetadataOf(file).Some? && !Contains(MetadataOf(file).value, DateKey) ==> r.date == ""
    ensures MetadataOf(file).Some? && !Contains(MetadataOf(file).value, ExcerptKey) ==> r.excerpt == ""
    ensures r.title != SlugTitle(slug) ==>
      MetadataOf(file).Some? && Contains(MetadataOf(file).value, TitleKey) && !Contains(r.title, "\"")
    ensures r.date != "" ==>
      MetadataOf(file).Some? && Contains(MetadataOf(file).value, DateKey) && !Contains(r.date, "\"")
  {
    var fallback := SlugTitle(slug);
    match MetadataOf(file)
    case None => PostContent(slug, fallback, "", "", [], ContentOf(file))
    case Some(block) =>
      PostContent(
        slug,
        FieldAfter(block, TitleKey, 8, "\"").GetOr(fallback),
        FieldAfter(block, DateKey, 7, "\"").GetOr(""),
        FieldAfter(block, ExcerptKey, 10, "\"").GetOr(""),
        TagsOf(block),
        ContentOf(file))
  }

  /** `read_post`: the page's fields, or why the page could not be read. */
  function ReadPost(slug: string, file: FileRead): (r: Result<PostContent, string>)
    ensures file.Missing? ==> r == Err("Post not found: " + slug)
    ensures file.Unreadable? ==> r == Err("Failed to read post: " + file.error)
    ensures r.Ok? <==> file.Text?
    ensures file.Text? ==> r.value.slug == slug
  {
    match file
    case Missing => Err("Post not found: " + slug)
    case Unreadable(e) => Err("Failed to read post: " + e)
    case Text(t) => Ok(ReadFields(slug, t))
  }

  /** `update_post`: the outcome and the post whose page (its `Template`)
      is written, if any. The page keeps the date read from the old page and
      has no keywords. A failed write is given as its error text. */
  function UpdatePost(slug: string, title: string, excerpt: string, content: string,
                      tags: seq<string>, file: FileRead, writeError: Option<string>)
    : (r: (Result<string, string>, Option<PostMetadata>))
    ensures r.0.Ok? <==> file.Text? && writeError.None?
    ensures r.1.Some? <==> r.0.Ok?
    ensures file.Missing? ==> r.0 == Err("Post not found: " + slug)
    ensures file.Unreadable? ==> r.0 == Err("Failed to read post: " + file.error)
    ensures file.Text? && writeError.Some? ==> r.0 == Err("Failed to write post: " + writeError.value)
    ensures r.0.Ok? ==> r.0.value == "Updated post: " + slug
    ensures r.1.Some? ==>
      r.1.value == Updated(slug, title, excerpt, content, tags, ReadFields(slug, file.text).date)
  {
    match ReadPost(slug, file)
    case Err(e) => (Err(e), None)
    case Ok(existing) =>
      var m := Updated(slug, title, excerpt, content, tags, existing.date);
      match writeError
      case Some(e) => (Err("Failed to write post: " + e), None)
      case None => (Ok("Updated post: " + slug), Some(m))
  }

  // ---------------------------------------------------------------- reading a page back

  /** The metadata block followed by more text. */
  lemma MetaThen(m: PostMetadata, z: string)
    ensures MetadataBlock(m) + z == Meta(m, z)
  {
    assert MetaClose + "" == MetaClose;
  }

  // Each search of `read_post` is followed through the page one level of
  // the metadata block at a time, from the back: first within `TagsThen`,
  // then `ExcerptThen`, `DateThen` and `Meta`. Every step keeps the fact
  // "the first occurrence is the one followed by exactly this text".

  // ---------------------------------------------------------------- the block

  /** No `};` can start in the fixed pieces before the one closing the
      block. */
  lemma BlockEndLiterals()
    ensures Refuted(TitleOpen, BlockEnd, 1, 1) && Refuted(DateOpen, BlockEnd, 1, 1)
    ensures Refuted(ExcerptOpen, BlockEnd, 1, 1) && Refuted(TagsOpen, BlockEnd, 1, 1)
    ensures Refuted(ClosePad, BlockEnd, 1, 1)
  {
  }

  lemma BlockEndInTags(m: PostMetadata, z: string)
    requires forall k :: 0 <= k < |m.tags| ==> NoChar(m.tags[k], '}')
    ensures FoundBefore(TagsThen(m, z), BlockEnd, z)
  {
    var g := RenderTags(m.tags);
    BlockEndLiterals();
    RenderTagsNoChar(m.tags, '}');
    Assoc(ClosePad, BlockEnd, z);
    FoundAfterLiteral(ClosePad, BlockEnd, z, 1, 1);
    StepBeforeChar(g, MetaClose + z, BlockEnd, z);
    StepLiteral(TagsOpen, g + (MetaClose + z), BlockEnd, 1, 1, z);
  }

  lemma BlockEndInExcerpt(m: PostMetadata, z: string)
    requires !Contains(m.excerpt, BlockEnd)
    requires forall k :: 0 <= k < |m.tags| ==> NoChar(m.tags[k], '}')
    ensures FoundBefore(ExcerptThen(m, z), BlockEnd, z)
  {
    var t := TagsThen(m, z);
    BlockEndLiterals();
    BlockEndInTags(m, z);
    StepAbsent(m.excerpt, t, BlockEnd, z);
    StepLiteral(ExcerptOpen, m.excerpt + t, BlockEnd, 1, 1, z);
  }

  lemma BlockEndInDate(m: PostMetadata, z: string)
    requires !Contains(m.date, BlockEnd) && !Contains(m.excerpt, BlockEnd)
    requires forall k :: 0 <= k < |m.tags| ==> NoChar(m.tags[k], '}')
    ensures FoundBefore(DateThen(m, z), BlockEnd, z)
  {
    var e := ExcerptThen(m, z);
    BlockEndLiterals();
    BlockEndInExcerpt(m, z);
    StepAbsent(m.date, e, BlockEnd, z);
    StepLiteral(DateOpen, m.date + e, BlockEnd, 1, 1, z);
  }

  /** The first `};` of the metadata block is the one that closes it,
      whatever follows the block, when no field holds `};` and no tag holds
      `}`. */
  lemma BlockEndFound(m: PostMetadata, z: string)
    requires !Contains(m.title, BlockEnd) && !Contains(m.date, BlockEnd) && !Contains(m.excerpt, BlockEnd)
    requires forall k :: 0 <= k < |m.tags| ==> NoChar(m.tags[k], '}')
    ensures FoundBefore(Meta(m, z), BlockEnd, z)
  {
    var d := DateThen(m, z);
    BlockEndLiterals();
    BlockEndInDate(m, z);
    StepAbsent(m.title, d, BlockEnd, z);
    StepLiteral(TitleOpen, m.title + d, BlockEnd, 1, 1, z);
  }

  /** The metadata block `read_post` cuts out of a page is the one the
      template wrote, when no field holds `};` and no tag holds `}`. */
  lemma MetadataOfPage(m: PostMetadata, z: string)
    requires !Contains(m.title, BlockEnd) && !Contains(m.date, BlockEnd) && !Contains(m.excerpt, BlockEnd)
    requires forall k :: 0 <= k < |m.tags| ==> NoChar(m.tags[k], '}')
    ensures MetadataOf(ScriptOpen + (MetadataBlock(m) + z)) == Some(MetadataBlock(m))
  {
    var q := m.title + DateThen(m, z);
    var r := Indent + (TitleKey + q);
    Assoc(MetaMarker + Indent, TitleKey, q);
    Assoc(MetaMarker, Indent, TitleKey + q);
    assert Refuted(ScriptOpen, MetaMarker, 2, 2);
    FoundAfterLiteral(ScriptOpen, MetaMarker, r, 2, 2);
    MetaThen(m, z);
    BlockEndFound(m, z);
    CutIs(ScriptOpen + Meta(m, z), MetaMarker, r, BlockEnd, MetadataBlock(m), z);
  }

  // ---------------------------------------------------------------- the fields

  /** `FieldAfter` finds the key first where it is followed by `x` and then
      the closing character `c`, which `x` does not hold: the value is `x`. */
  lemma FieldAfterIs(block: string, key: string, x: string, y: string, c: char)
    requires FoundBefore(block, key, x + y)
    requires NoChar(x, c) && |y| > 0 && y[0] == c
    ensures FieldAfter(block, key, |key|, [c]) == Some(x)
  {
    FindFound(block, key, x + y);
    ValueThenClose(x, y, c);
  }

  /** The title is read back when it holds no quote. */
  lemma TitleRead(m: PostMetadata)
    requires NoChar(m.title, '"')
    ensures FieldAfter(MetadataBlock(m), TitleKey, 8, "\"") == Some(m.title)
  {
    var q := m.title + DateThen(m, "");
    Assoc(TitlePad, TitleKey, q);
    assert Refuted(TitlePad, TitleKey, 1, 1);
    FoundAfterLiteral(TitlePad, TitleKey, q, 1, 1);
    FieldAfterIs(MetadataBlock(m), TitleKey, m.title, DateThen(m, ""), '"');
  }

  lemma DateInDate(m: PostMetadata, z: string)
    ensures FoundBefore(DateThen(m, z), DateKey, m.date + ExcerptThen(m, z))
  {
    var q := m.date + ExcerptThen(m, z);
    Assoc(FieldPad, DateKey, q);
    assert Refuted(FieldPad, DateKey, 1, 1);
    FoundAfterLiteral(FieldPad, DateKey, q, 1, 1);
  }

  /** The date is read back when neither it nor the title holds a quote and
      the title does not end with `date: `. */
  lemma DateRead(m: PostMetadata)
    requires NoChar(m.title, '"') && NoChar(m.date, '"') && !EndsWith(m.title, DateLabel)
    ensures FieldAfter(MetadataBlock(m), DateKey, 7, "\"") == Some(m.date)
  {
    var q := m.date + ExcerptThen(m, "");
    DateInDate(m, "");
    StepFieldLabel(m.title, DateThen(m, ""), DateLabel, '"', q);
    assert Refuted(TitleOpen, DateKey, 3, 3);
    StepLiteral(TitleOpen, m.title + DateThen(m, ""), DateKey, 3, 3, q);
    FieldAfterIs(MetadataBlock(m), DateKey, m.date, ExcerptThen(m, ""), '"');
  }

  /** The date opening after a quote-free field is a `",`, an indent and
      the date key. */
  lemma DateOpenParts(q: string)
    ensures DateOpen + q == "\"" + (("," + Indent + DateLabel) + ("\"" + q))
  {
  }

  /** Why a title must not end with `date: `: the search for `date: "` then
      stops at the title's closing quote, and the date read back is the text
      up to the real date's opening quote. */
  lemma DateMisread(m: PostMetadata, t: string)
    requires m.title == t + DateLabel && NoChar(t, '"')
    ensures FieldAfter(MetadataBlock(m), DateKey, 7, "\"") == Some("," + Indent + DateLabel)
  {
    var x := "," + Indent + DateLabel;
    var y := "\"" + (m.date + ExcerptThen(m, ""));
    var r := x + y;
    DateOpenParts(m.date + ExcerptThen(m, ""));
    Assoc(t, DateLabel, "\"" + r);
    Assoc(DateLabel, "\"", r);
    DateKeyAfterTitle(t, r);
    FieldAfterIs(MetadataBlock(m), DateKey, x, y, '"');
  }

  /** A title that is a quote-free `t` followed by `date: `, and its closing
      quote: the date key is found there. */
  lemma DateKeyAfterTitle(t: string, r: string)
    requires NoChar(t, '"')
    ensures FoundBefore(TitleOpen + (t + (DateKey + r)), DateKey, r)
  {
    FoundStart(DateKey, r);
    StepField(t, DateKey + r, DateKey, '"', r);
    assert Refuted(TitleOpen, DateKey, 3, 3);
    StepLiteral(TitleOpen, t + (DateKey + r), DateKey, 3, 3, r);
  }

  lemma ExcerptInDate(m: PostMetadata, z: string)
    requires NoChar(m.date, '"') && !EndsWith(m.date, ExcerptLabel)
    ensures FoundBefore(DateThen(m, z), ExcerptKey, m.excerpt + TagsThen(m, z))
  {
    var q := m.excerpt + TagsThen(m, z);
    Assoc(FieldPad, ExcerptKey, q);
    assert Refuted(FieldPad, ExcerptKey, 1, 1);
    FoundAfterLiteral(FieldPad, ExcerptKey, q, 1, 1);
    StepFieldLabel(m.date, ExcerptThen(m, z), ExcerptLabel, '"', q);
    assert Refuted(DateOpen, ExcerptKey, 1, 1);
    StepLiteral(DateOpen, m.date + ExcerptThen(m, z), ExcerptKey, 1, 1, q);
  }

  /** The excerpt is read back when no field before it holds a quote or
      ends with `excerpt: `. */
  lemma ExcerptRead(m: PostMetadata)
    requires NoChar(m.title, '"') && NoChar(m.date, '"') && NoChar(m.excerpt, '"')
    requires !EndsWith(m.title, ExcerptLabel) && !EndsWith(m.date, ExcerptLabel)
    ensures FieldAfter(MetadataBlock(m), ExcerptKey, 10, "\"") == Some(m.excerpt)
  {
    var q := m.excerpt + TagsThen(m, "");
    ExcerptInDate(m, "");
    StepFieldLabel(m.title, DateThen(m, ""), ExcerptLabel, '"', q);
    assert Refuted(TitleOpen, ExcerptKey, 1, 2);
    StepLiteral(TitleOpen, m.title + DateThen(m, ""), ExcerptKey, 1, 2, q);
    FieldAfterIs(MetadataBlock(m), ExcerptKey, m.excerpt, TagsThen(m, ""), '"');
  }

  lemma TagsInDate(m: PostMetadata, z: string)
    requires !Contains(m.date, TagsKey) && !Contains(m.excerpt, TagsKey)
    ensures FoundBefore(DateThen(m, z), TagsKey, RenderTags(m.tags) + (MetaClose + z))
  {
    var q := RenderTags(m.tags) + (MetaClose + z);
    Assoc(FieldPad, TagsKey, q);
    assert Refuted(FieldPad, TagsKey, 1, 1);
    FoundAfterLiteral(FieldPad, TagsKey, q, 1, 1);
    StepAbsent(m.excerpt, TagsThen(m, z), TagsKey, q);
    assert Refuted(ExcerptOpen, TagsKey, 1, 1);
    StepLiteral(ExcerptOpen, m.excerpt + TagsThen(m, z), TagsKey, 1, 1, q);
    StepAbsent(m.date, ExcerptThen(m, z), TagsKey, q);
    assert Refuted(DateOpen, TagsKey, 1, 1);
    StepLiteral(DateOpen, m.date + ExcerptThen(m, z), TagsKey, 1, 1, q);
  }

  /** The tags are read back when they are plain and hold no `]`, and no
      field before them holds `tags: [`. */
  lemma TagsRead(m: PostMetadata)
    requires !Contains(m.title, TagsKey) && !Contains(m.date, TagsKey) && !Contains(m.excerpt, TagsKey)
    requires forall k :: 0 <= k < |m.tags| ==> PlainTag(m.tags[k]) && NoChar(m.tags[k], ']')
    ensures TagsOf(MetadataBlock(m)) == m.tags
  {
    var g := RenderTags(m.tags);
    var q := g + (MetaClose + "");
    TagsInDate(m, "");
    StepAbsent(m.title, DateThen(m, ""), TagsKey, q);
    assert Refuted(TitleOpen, TagsKey, 1, 2);
    StepLiteral(TitleOpen, m.title + DateThen(m, ""), TagsKey, 1, 2, q);
    RenderTagsNoChar(m.tags, ']');
    FieldAfterIs(MetadataBlock(m), TagsKey, g, MetaClose + "", ']');
    TagsRoundTrip(m.tags);
  }

  // ---------------------------------------------------------------- the content

  /** The first `</div>` after the body's opening is the one the template
      closes the body with, when the body holds no `</div>`. */
  lemma DivEndFound(body: string, foot: string)
    requires !Contains(body, DivEnd)
    ensures FoundBefore(BodyOpen + (body + (BodyClose + foot)), DivEnd, foot)
  {
    Assoc(BodyPad, DivEnd, foot);
    FoundAfterLiteral(BodyPad, DivEnd, foot, 1, 1);
    StepAbsent(body, BodyClose + foot, DivEnd, foot);
    StepLiteral(BodyOpen, body + (BodyClose + foot), DivEnd, 1, 1, foot);
  }

  /** The white space around the body is trimmed away. */
  lemma BodyTrimmed(body: string)
    ensures Trim(BodyOpen + body + BodyPad) == Trim(body)
  {
    assert All(BodyOpen, IsSpace) && All(BodyPad, IsSpace);
    TrimWithPadded(BodyOpen, body, BodyPad, IsSpace);
  }

  /** Cutting the text before the `</div>` found after the body. */
  lemma BeforeDivEnd(v: string, body: string, foot: string)
    requires v == BodyOpen + (body + (BodyClose + foot))
    ensures v[..|v| - |DivEnd| - |foot|] == BodyOpen + body + BodyPad
  {
  }

  /** The content read from a file where the content division's tag is
      first found followed by `v`, and `</div>` first found at `e` in `v`. */
  lemma ContentOfFound(file: string, v: string, e: nat)
    requires FoundBefore(file, ContentMarker, v)
    requires e <= |v| && Find(v, DivEnd) == Some(e)
    ensures ContentOf(file) == Trim(v[..e])
  {
    var c := |file| - |ContentMarker| - |v|;
    FindFound(file, ContentMarker, v);
    assert file[c + 26..] == v;
  }

  /** The content `read_post` takes out of a page whose content division
      opens before the body, when the body holds no `</div>`: the trimmed
      body. */
  lemma ContentOfIs(file: string, body: string, foot: string)
    requires FoundBefore(file, ContentMarker, BodyOpen + (body + (BodyClose + foot)))
    requires !Contains(body, DivEnd)
    ensures ContentOf(file) == Trim(body)
  {
    var v := BodyOpen + (body + (BodyClose + foot));
    var e := |v| - |DivEnd| - |foot|;
    DivEndFound(body, foot);
    FindFound(v, DivEnd, foot);
    ContentOfFound(file, v, e);
    BeforeDivEnd(v, body, foot);
    BodyTrimmed(body);
  }

  /** No `<` can start the content division's tag in the fixed pieces of the
      metadata block. */
  lemma ContentLiterals()
    ensures Refuted(ScriptOpen, ContentMarker, 1, 1) && Refuted(TitleOpen, ContentMarker, 1, 1)
    ensures Refuted(DateOpen, ContentMarker, 1, 1)
  {
  }

  lemma ContentLiteralsAfter()
    ensures Refuted(ExcerptOpen, ContentMarker, 1, 1)
    ensures Refuted(TagsOpen, ContentMarker, 1, 1) && Refuted(MetaClose, ContentMarker, 1, 1)
  {
  }

  /** Each quote of the content division's tag is followed by something
      other than a comma, so the tag cannot run across the `",` that ends a
      field. */
  lemma ContentQuotes()
    ensures '"' in ContentMarker
    ensures forall i :: 0 < i < |ContentMarker| && ContentMarker[i] == '"' ==>
      i + 1 < |ContentMarker| && ContentMarker[i + 1] != ','
  {
    assert ContentMarker[11] == '"';
  }

  /** A field free of quotes, before the `",` that closes it. */
  lemma StepQuoted(x: string, rest: string, v: string)
    requires NoChar(x, '"')
    requires FoundBefore(FieldPad + rest, ContentMarker, v)
    ensures FoundBefore(x + (FieldPad + rest), ContentMarker, v)
  {
    var y := FieldPad + rest;
    assert y[0] == '"' && y[1] == ',';
    ContentQuotes();
    StepField(x, y, ContentMarker, '"', v);
  }

  lemma ContentInTags(m: PostMetadata, w: string, v: string)
    requires forall k :: 0 <= k < |m.tags| ==> NoChar(m.tags[k], '<')
    requires FoundBefore(w, ContentMarker, v)
    ensures FoundBefore(TagsThen(m, w), ContentMarker, v)
  {
    var g := RenderTags(m.tags);
    ContentLiteralsAfter();
    StepLiteral(MetaClose, w, ContentMarker, 1, 1, v);
    RenderTagsNoChar(m.tags, '<');
    StepBeforeChar(g, MetaClose + w, ContentMarker, v);
    StepLiteral(TagsOpen, g + (MetaClose + w), ContentMarker, 1, 1, v);
  }

  lemma ContentInExcerpt(m: PostMetadata, w: string, v: string)
    requires NoChar(m.excerpt, '"')
    requires forall k :: 0 <= k < |m.tags| ==> NoChar(m.tags[k], '<')
    requires FoundBefore(w, ContentMarker, v)
    ensures FoundBefore(ExcerptThen(m, w), ContentMarker, v)
  {
    var rest := TagsKey + (RenderTags(m.tags) + (MetaClose + w));
    ContentInTags(m, w, v);
    Assoc(FieldPad, TagsKey, RenderTags(m.tags) + (MetaClose + w));
    StepQuoted(m.excerpt, rest, v);
    ContentLiteralsAfter();
    StepLiteral(ExcerptOpen, m.excerpt + TagsThen(m, w), ContentMarker, 1, 1, v);
  }

  lemma ContentInDate(m: PostMetadata, w: string, v: string)
    requires NoChar(m.date, '"') && NoChar(m.excerpt, '"')
    requires forall k :: 0 <= k < |m.tags| ==> NoChar(m.tags[k], '<')
    requires FoundBefore(w, ContentMarker, v)
    ensures FoundBefore(DateThen(m, w), ContentMarker, v)
  {
    var rest := ExcerptKey + (m.excerpt + TagsThen(m, w));
    ContentInExcerpt(m, w, v);
    Assoc(FieldPad, ExcerptKey, m.excerpt + TagsThen(m, w));
    StepQuoted(m.date, rest, v);
    ContentLiterals();
    StepLiteral(DateOpen, m.date + ExcerptThen(m, w), ContentMarker, 1, 1, v);
  }

  /** The content division's tag is found first after the page head, where
      the template put it, when no field holds a quote and no tag holds
      `<`. */
  lemma ContentFound(m: PostMetadata, head: string, v: string)
    requires NoChar(m.title, '"') && NoChar(m.date, '"') && NoChar(m.excerpt, '"')
    requires forall k :: 0 <= k < |m.tags| ==> NoChar(m.tags[k], '<')
    requires Refuted(head, ContentMarker, 1, 17)
    ensures FoundBefore(ScriptOpen + (MetadataBlock(m) + (head + (ContentMarker + v))), ContentMarker, v)
  {
    var w := head + (ContentMarker + v);
    var rest := DateKey + (m.date + ExcerptThen(m, w));
    FoundAfterLiteral(head, ContentMarker, v, 1, 17);
    ContentInDate(m, w, v);
    Assoc(FieldPad, DateKey, m.date + ExcerptThen(m, w));
    StepQuoted(m.title, rest, v);
    ContentLiterals();
    StepLiteral(TitleOpen, m.title + DateThen(m, w), ContentMarker, 1, 1, v);
    MetaThen(m, w);
    StepLiteral(ScriptOpen, Meta(m, w), ContentMarker, 1, 1, v);
  }

  // ---------------------------------------------------------------- round trips

  /** The posts whose page `read_post` reads back as written. Every field is
      cut at the first quote and the block at the first `};`, so the values
      must hold neither; a title or date ending with the next field's label
      would be taken for it; `tags: [` in a field would be taken for the
      tags; a tag must survive the comma split and hold none of `]`, `}` and
      `<`; and the body must hold no `</div>` and be trimmed already. */
  ghost predicate Recoverable(m: PostMetadata) {
    && NoChar(m.title, '"') && NoChar(m.date, '"') && NoChar(m.excerpt, '"')
    && !Contains(m.title, BlockEnd) && !Contains(m.date, BlockEnd) && !Contains(m.excerpt, BlockEnd)
    && !Contains(m.title, TagsKey) && !Contains(m.date, TagsKey) && !Contains(m.excerpt, TagsKey)
    && !EndsWith(m.title, DateLabel) && !EndsWith(m.title, ExcerptLabel)
    && !EndsWith(m.date, ExcerptLabel)
    && (forall k :: 0 <= k < |m.tags| ==>
          PlainTag(m.tags[k]) && NoChar(m.tags[k], ']') && NoChar(m.tags[k], '}') && NoChar(m.tags[k], '<'))
    && NoEdge(PostBody(m), IsSpace) && !Contains(PostBody(m), DivEnd)
  }

  /** What reading a page back yields for a recoverable post. */
  function Recovered(slug: string, m: PostMetadata): PostContent {
    PostContent(slug, m.title, m.date, m.excerpt, m.tags, PostBody(m))
  }

  /** A page assembled around any head free of the content tag reads back
      as the post it was written from. */
  lemma ReadPageRoundTrip(m: PostMetadata, slug: string, head: string, foot: string)
    requires Recoverable(m) && Refuted(head, ContentMarker, 1, 17)
    ensures ReadPost(slug, Text(Page(m, head, foot))) == Ok(Recovered(slug, m))
  {
    var body := PostBody(m);
    var v := BodyOpen + (body + (BodyClose + foot));
    MetadataOfPage(m, head + (ContentMarker + v));
    TitleRead(m);
    DateRead(m);
    ExcerptRead(m);
    TagsRead(m);
    ContentFound(m, head, v);
    ContentOfIs(Page(m, head, foot), body, foot);
    TrimWithNoEdge(body, IsSpace);
  }

  /** `read_post` of the page `generate_post_template` writes gives back the
      post's title, date, excerpt, tags and body. */
  lemma ReadPostRoundTrip(m: PostMetadata, slug: string)
    requires Recoverable(m)
    ensures ReadPost(slug, Text(Template(m))) == Ok(Recovered(slug, m))
  {
    PageHeadRefuted();
    ReadPageRoundTrip(m, slug, PageHead, PageFoot);
  }

  /** A file without the metadata marker reads as the slug's title, no date,
      excerpt or tags. */
  lemma ReadWithoutMetadata(slug: string, file: string)
    requires !Contains(file, MetaMarker)
    ensures ReadPost(slug, Text(file)) == Ok(PostContent(slug, SlugTitle(slug), "", "", [], ContentOf(file)))
  {
  }

  /** The post `update_post` writes: the new fields, the date of the old
      page and no keywords. */
  function Updated(slug: string, title: string, excerpt: string, content: string,
                   tags: seq<string>, date: string): PostMetadata {
    PostMetadata(title, slug, excerpt, content, tags, date, "")
  }

  /** Updating a page written by the template keeps its date: the page
      written is the template of the new fields with the old page's date. */
  lemma UpdateKeepsDate(prev: PostMetadata, slug: string, title: string, excerpt: string,
                        content: string, tags: seq<string>)
    requires Recoverable(prev)
    ensures UpdatePost(slug, title, excerpt, content, tags, Text(Template(prev)), None)
      == (Ok("Updated post: " + slug), Some(Updated(slug, title, excerpt, content, tags, prev.date)))
  {
    ReadPostRoundTrip(prev, slug);
  }

  /** Reading back an updated page gives the new fields with the old page's date. */
  lemma UpdateThenRead(prev: PostMetadata, slug: string, title: string, excerpt: string,
                       content: string, tags: seq<string>)
    requires Recoverable(prev)
    requires Recoverable(Updated(slug, title, excerpt, content, tags, prev.date))
    ensures var written := UpdatePost(slug, title, excerpt, content, tags, Text(Template(prev)), None).1;
      written.Some? &&
      ReadPost(slug, Text(Template(written.value)))
        == Ok(Recovered(slug, Updated(slug, title, excerpt, content, tags, prev.date)))
  {
    UpdateKeepsDate(prev, slug, title, excerpt, content, tags);
    ReadPostRoundTrip(Updated(slug, title, excerpt, content, tags, prev.date), slug);
  }
}
