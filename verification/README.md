# Blog manager core: BibTeX references and blog posts

A Dafny model of the text-processing core of a desktop blog manager. The
back end is written in Rust; the modelled code is in `src-tauri/src/bibtex.rs`
and `src-tauri/src/blog.rs`.

**References pipeline** (`bibtex.rs`):

- `parse_bibtex` finds BibTeX entries with one regular expression, and the
  fields inside each entry with another. It lower-cases names, trims values
  and rewrites page ranges.
- `entry_to_reference` turns each entry into a keyed `Reference`:
  - a short TypeScript key;
  - a short citation built from the author's surname and the raw year;
  - the year parsed as an `i32`, with 0 as the fallback;
  - the publisher, falling back on the journal.
- `generate_references_ts` writes the references as a TypeScript module.
- `read_bib_file` and `sync_references` are the commands around these.

**Blog posts** (`blog.rs`):

- `slugify` turns a title into a directory name.
- `generate_post_template` writes a post page, a Svelte page with a metadata
  script and a content division.
- `generate_listing_entry` writes the object for the blog listing.
- `create_blog_post` writes the page and splices the entry into the listing
  after `const posts = [`.
- `read_post` reads a page back with plain substring searches.
- `update_post` rewrites a page and keeps the date read from the old one.
- `get_existing_posts` lists the post directories.

Modules, one per file:

| module | file | what it holds |
|---|---|---|
| `Options` | `options.dfy` | `Option` and `Result`; a file read as an input (`FileRead`) |
| `Ascii` | `ascii.dfy` | character classes and lower-casing, restricted to ASCII |
| `Strings` | `strings.dfy` | generic text functions: runs, trim, split, join, replace, filter, find |
| `Integers` | `integers.dfy` | `str::parse::<i32>` and the decimal rendering of an `i32` |
| `Search` | `search.dfy` | where the first occurrence of a marker is, and how that is preserved when text is prepended |
| `BibScan` | `bibscan.dfy` | the two regular expressions of `parse_bibtex` as deterministic scanners |
| `Bibtex` | `bibtex.dfy` | `BibEntry`, `Reference`, `parse_bibtex` |
| `References` | `references.dfy` | `entry_to_reference` |
| `Emitter` | `emitter.dfy` | `generate_references_ts`, `read_bib_file`, `sync_references` |
| `Tags` | `tags.dfy` | rendering a tag list and reading it back |
| `Markup` | `markup.dfy` | the fixed Svelte markup of the page template |
| `Slugs` | `slug.dfy` | `slugify` |
| `Posts` | `post.dfy` | `generate_post_template`, `read_post`, `update_post` |
| `Listing` | `listing.dfy` | `generate_listing_entry` and the listing splice |
| `Blog` | `blog.dfy` | `create_blog_post`, `get_existing_posts` |

## How the outside world appears

File system steps are inputs, not effects. A file read is a `FileRead`:
`Missing`, `Unreadable(error)` or `Text(contents)`. A step that can fail is
given its error, if any. A command returns its result together with what it
would have written.

The date `chrono::Local::now()` gives a new post is a parameter of
`CreateBlogPost`.

## Model

| member | source | states |
|---|---|---|
| Ascii.ToLower | src-tauri/src/blog.rs:277 | An upper-case ASCII letter becomes the letter 32 code points down; every other character is kept; the result is never upper-case and stays a letter or digit (or word character) exactly when the input was |
| Ascii.Lower | src-tauri/src/bibtex.rs:47 | `to_lowercase` keeps the length and lower-cases each character on its own |
| Ascii.LowerFixedIff | src-tauri/src/blog.rs:277 | Lower-casing leaves a text unchanged exactly when it holds no upper-case letter |
| Integers.DigitChar | src-tauri/src/bibtex.rs:153 | Every value below ten has a digit character that reads back as that value |
| Integers.Digits | src-tauri/src/bibtex.rs:153 | The decimal rendering of a natural number is a non-empty run of digits whose value is the number, with no leading zero unless it is `0` itself |
| Integers.ParseI32 | src-tauri/src/bibtex.rs:112 | A year parses exactly when it is an optional sign followed by one or more digits whose signed value fits in 32 bits, and its value is the digits' value, negated after `-` |
| Integers.ParseDecimal | src-tauri/src/bibtex.rs:112 | Parsing the decimal rendering of any `i32` gives that `i32` back |
| Integers.ParseRejectsNonDigit | src-tauri/src/bibtex.rs:112 | A year holding any character that is neither a digit nor a leading sign does not parse, so the reference's year is 0 |
| Integers.ParseExamples | src-tauri/src/bibtex.rs:112 | `""`, `"n.d."`, `"2024a"` and `"-"` do not parse; `"2020"` parses to 2020 |
| Integers.ParseSignExamples | src-tauri/src/bibtex.rs:112 | `"+2020"` parses to 2020 and `"-0"` to 0 |
| BibScan.MatchEntry | src-tauri/src/bibtex.rs:43 | An entry match consumes at least one character and no more than the text |
| BibScan.MatchEntryBounds | src-tauri/src/bibtex.rs:43 | An entry match starts at `@`, its type is a non-empty run of word characters, and it ends at the end of the text or just before the next `@` |
| BibScan.MatchEntryKey | src-tauri/src/bibtex.rs:43 | The key capture is never empty and never holds a comma |
| BibScan.MatchEntryFields | src-tauri/src/bibtex.rs:43 | The field block capture never holds `@`, so an `@` inside a value ends the entry |
| BibScan.MatchEntryHead | src-tauri/src/bibtex.rs:43 | After `@`, a word and white space up to `{`, the match is decided by the key and field part of the pattern |
| BibScan.EntryAfterBraceAt | src-tauri/src/bibtex.rs:43 | After the `{`, the key runs to the first comma and the field block from there to the next `@` or the end |
| BibScan.MatchEntryAt | src-tauri/src/bibtex.rs:43-49 | An entry read off its positions: type, key and field block are exactly those slices, and the key may hold line breaks and `@`, so an entry without a comma takes in the next entry's header |
| BibScan.ScanEntriesSkip | src-tauri/src/bibtex.rs:46 | Text without `@` yields no entry and leaves the scan of what follows it unchanged |
| BibScan.ValueEnd | src-tauri/src/bibtex.rs:44 | The value loop never ends before it starts |
| BibScan.MatchField | src-tauri/src/bibtex.rs:44 | A field match consumes at least one character and no more than the text, and its name is a non-empty run of word characters |
| BibScan.LoopLenStops | src-tauri/src/bibtex.rs:44 | Over a whole loop value followed by `}` or `"`, the value loop takes exactly the value |
| BibScan.PlainLoopValue | src-tauri/src/bibtex.rs:44 | Text without braces or quotes is a loop value |
| BibScan.GroupLoopValue | src-tauri/src/bibtex.rs:44 | A `{...}` group with no `}` inside, followed by a loop value, is a loop value |
| BibScan.ConcatLoopValue | src-tauri/src/bibtex.rs:44 | Two loop values in a row form a loop value |
| BibScan.MatchFieldAt | src-tauri/src/bibtex.rs:44 | A field read off its positions: the name is the word at the start, the value is the text between the opener and the closer where the value loop stops, and the match ends after the closer |
| BibScan.ValueEndLoop | src-tauri/src/bibtex.rs:44 | The value loop started at a position takes exactly as much as the loop run on the rest of the text |
| BibScan.ValueFound | src-tauri/src/bibtex.rs:44 | A loop value after the opener, followed by a closer, is the value captured: the loop stops at that closer |
| BibScan.MatchFieldBare | src-tauri/src/bibtex.rs:44 | A value that opens with neither `{` nor `"` (such as `year = 2020`) is never captured |
| BibScan.FirstBraceCloses | src-tauri/src/bibtex.rs:44 | A `{` group in a value closes at the first `}` after it, whatever `{` it holds: plain text, such a group and plain text are taken whole, up to the closer after them, so in `{A {B {C} D} E}` the value is `A {B {C} D` |
| BibScan.NestedValue | src-tauri/src/bibtex.rs:44 | One level of nesting is kept: in `{A {B} C}` the value is `A {B} C` |
| BibScan.ScanFieldsSkip | src-tauri/src/bibtex.rs:60 | Text without word characters yields no field and leaves the scan of what follows it unchanged |
| Bibtex.ParseBibtex | src-tauri/src/bibtex.rs:39-92 | One entry per entry match, in the order of the text; each has the trimmed key, the lower-cased type, `""` for a missing author, year or title, no value for a missing optional field, and otherwise the last value given, pages with `--` as `-` |
| Bibtex.PagesRange | src-tauri/src/bibtex.rs:70 | A page range `a--b` of dash-free page numbers becomes `a-b` |
| Bibtex.PagesKept | src-tauri/src/bibtex.rs:70 | A page range `a-b` of dash-free page numbers is kept as it is |
| Bibtex.SetFieldEffect | src-tauri/src/bibtex.rs:64-74 | One field step sets exactly the field it names (pages with `--` as `-`) and leaves every other field, the key and the type alone; unknown names change nothing |
| Bibtex.LastValueSnoc | src-tauri/src/bibtex.rs:60-62 | One more field match becomes the last value of its lower-cased name, trimmed |
| Bibtex.ApplyFieldsLast | src-tauri/src/bibtex.rs:51-75 | After the field loop, each field holds the last trimmed value its name received (pages rewritten), or its initial value when the name never occurs; key and type are untouched |
| Bibtex.ApplyFieldsSnoc | src-tauri/src/bibtex.rs:60-75 | The field loop over one more match is the loop so far followed by one step |
| References.Take | src-tauri/src/bibtex.rs:100 | `take(n)` keeps the first `n` parts, or all of them when there are fewer |
| References.UndashedIsFilter | src-tauri/src/bibtex.rs:98 | Deleting dashes keeps every other character of the key, in order |
| References.ShortKeyClean | src-tauri/src/bibtex.rs:97-102 | A TypeScript key holds neither `-` nor `_` |
| References.ShortKeyWhole | src-tauri/src/bibtex.rs:97-102 | A key without underscores (once dashes are gone) only loses its dashes |
| References.ShortKeyCut | src-tauri/src/bibtex.rs:97-102 | Otherwise the TypeScript key is the text before the first underscore followed by the text up to the second (or the end) |
| References.ShortKeyDropsDash | src-tauri/src/bibtex.rs:98 | Removing a dash from a key never changes its TypeScript key |
| References.ShortKeyOfParts | src-tauri/src/bibtex.rs:97-102 | A dash-free key `a_b` or `a_b_...` becomes `ab` |
| References.ShortKeyPlain | src-tauri/src/bibtex.rs:96 | `thurston2009` stays `thurston2009` |
| References.ShortKeyDated | src-tauri/src/bibtex.rs:96 | `razbuten_2025_12_17` becomes `razbuten2025` |
| References.ShortKeyDashed | src-tauri/src/bibtex.rs:97-102 | `a-b_c_d_e` becomes `abc` |
| References.SurnameIs | src-tauri/src/bibtex.rs:104-110 | The surname is the last whitespace-separated word before the author's first comma |
| References.SurnameUnknown | src-tauri/src/bibtex.rs:104-110 | With no word before the first comma (an empty author, `", Jane"`) the surname is `Unknown` |
| References.EntryToReference | src-tauri/src/bibtex.rs:95-127 | The key is the short key; author, title, booktitle, pages and url are copied; publisher falls back on journal; the year is the parsed year or 0; the short citation is the surname, `", "` and the raw year |
| References.YearRoundTrip | src-tauri/src/bibtex.rs:112 | A year written in decimal becomes that number in the reference |
| Emitter.OptTextIsLine | src-tauri/src/bibtex.rs:157-168 | The text pushed for a present optional field is a comma, a new line and its property line |
| Emitter.JoinOpt | src-tauri/src/bibtex.rs:157-168 | Pushing an optional field extends the joined property lines by its line exactly when it is present |
| Emitter.AuthorIsLine | src-tauri/src/bibtex.rs:152 | The author text is its property line and a comma |
| Emitter.YearIsLine | src-tauri/src/bibtex.rs:153 | The year text is its unquoted property line and a comma |
| Emitter.TitleIsLine | src-tauri/src/bibtex.rs:154 | The title text is its property line and a comma |
| Emitter.CiteIsLine | src-tauri/src/bibtex.rs:155 | The short-citation text is its property line, with no comma after it |
| Emitter.JoinRequired | src-tauri/src/bibtex.rs:152-155 | The four required pieces are the four required lines joined by commas and new lines |
| Emitter.FieldsShape | src-tauri/src/bibtex.rs:152-168 | An object's fields are its property lines joined by `,\n`: the four required ones, then each present optional one in interface order, with no comma after the last |
| Emitter.RecordShape | src-tauri/src/bibtex.rs:151-170 | An object is the key line, the joined property lines and the closing brace |
| Emitter.FieldLineInjective | src-tauri/src/bibtex.rs:152-168 | Two property lines are equal only when their names and values are |
| Emitter.NotRequired | src-tauri/src/bibtex.rs:152-155 | No required line carries an optional property |
| Emitter.OptionalLineIff | src-tauri/src/bibtex.rs:157-168 | An object holds an optional property's line with a value exactly when the reference holds that value for it |
| Emitter.OptLineFrom | src-tauri/src/bibtex.rs:157-168 | An optional line with a property's name carries that property's value |
| Emitter.RecordsAppend | src-tauri/src/bibtex.rs:150-171 | The objects of two lists are those of the first followed by those of the second: nothing dropped, merged or reordered |
| Emitter.RecordsSnoc | src-tauri/src/bibtex.rs:150-171 | One more reference adds its object at the end |
| Emitter.PushOpt | src-tauri/src/bibtex.rs:157-168 | An optional field's text is appended only when the field is present |
| Emitter.PushFields | src-tauri/src/bibtex.rs:152-168 | The fields of one object are appended in order |
| Emitter.PushRecord | src-tauri/src/bibtex.rs:151-170 | One loop iteration appends exactly the object of one reference |
| Emitter.PushRecords | src-tauri/src/bibtex.rs:150-171 | The loop appends the objects of all references, in order, duplicates included |
| Emitter.GenerateReferencesTs | src-tauri/src/bibtex.rs:130-175 | The module is the fixed header, the objects in order and `};\n`; it starts with the header and ends with `};\n` |
| Emitter.ToReferences | src-tauri/src/bibtex.rs:215-217 | One keyed reference per entry, in order |
| Emitter.ReadBibFile | src-tauri/src/bibtex.rs:178-192 | A missing file and a failed read give their errors; a readable file always gives entries |
| Emitter.SyncReferences | src-tauri/src/bibtex.rs:195-234 | Errors in step order (missing file, failed read, directory, write); success exactly when every step succeeds; the module is written exactly on success; the message counts the entries |
| Emitter.SyncCountsEntries | src-tauri/src/bibtex.rs:214-233 | On success the count is the number of entries `read_bib_file` reads from the same file, and the module written has one object per entry, in order |
| Tags.QuoteAll | src-tauri/src/blog.rs:27-29 | Each tag is put in quotes, one for one, in order |
| Tags.CleanTags | src-tauri/src/blog.rs:355-359 | No tag read back is empty or has a quote at either end |
| Tags.ParseTags | src-tauri/src/blog.rs:355-359 | The tags read from the text between the brackets are non-empty and stripped of edge quotes |
| Tags.SpacedJoin | src-tauri/src/blog.rs:30 | Joining with `", "` is joining with `","` after a space is put in front of every later piece |
| Tags.CleanQuoted | src-tauri/src/blog.rs:357 | A quoted plain tag, after any white space, cleans back to the tag |
| Tags.CleanSpaced | src-tauri/src/blog.rs:355-359 | The spaced, quoted later tags clean back to the tags |
| Tags.CleanPieces | src-tauri/src/blog.rs:355-359 | The comma-separated pieces of a rendered list of plain tags clean back to the tags |
| Tags.RenderTagsNoChar | src-tauri/src/blog.rs:27-30 | Rendering adds only quotes, commas and spaces to the tags |
| Tags.NoTagsRoundTrip | src-tauri/src/blog.rs:351-360 | An empty tag list is written as nothing and read back as empty |
| Tags.TagsRoundTrip | src-tauri/src/blog.rs:351-360 | Plain tags (non-empty, no comma, no quote) written with `", "` are read back as the same list |
| Slugs.Dashed | src-tauri/src/blog.rs:279 | Letters and digits stay; every other character becomes `-`; the length is kept |
| Slugs.NonEmpty | src-tauri/src/blog.rs:282 | Only non-empty parts are kept, all taken from the input |
| Slugs.JoinWordsIsSlug | src-tauri/src/blog.rs:281-284 | Runs of lower-case letters and digits joined with single dashes form a slug, empty only when there are no runs |
| Slugs.SlugifyIsSlug | src-tauri/src/blog.rs:276-285 | A slug holds only lower-case letters, digits and `-`, never starts or ends with `-`, and never holds `--` |
| Slugs.SlugifyFixedIff | src-tauri/src/blog.rs:276-285 | `slugify` leaves a text unchanged exactly when it is a slug |
| Slugs.SlugifyIdempotent | src-tauri/src/blog.rs:276-285 | Slugifying twice is slugifying once |
| Slugs.SlugifyKeepsAlnum | src-tauri/src/blog.rs:276-285 | The slug holds the letters and digits of the lower-cased text, in order, and no others |
| Slugs.SlugifyEmptyIff | src-tauri/src/blog.rs:276-285 | The slug is empty exactly when the text has no letter or digit |
| Posts.FieldAfter | src-tauri/src/blog.rs:327-331 | A value is read only when its key occurs, and it never holds the closing text; no key, no value |
| Posts.ContentOf | src-tauri/src/blog.rs:366-371 | The content read is trimmed, and empty when the content division's tag is missing or no `</div>` follows it |
| Posts.TagsOf | src-tauri/src/blog.rs:351-361 | No tag read is empty or has a quote at either end |
| Posts.ReadFields | src-tauri/src/blog.rs:314-371 | The slug is kept and the content is read from the division; without a metadata block (no marker, or no `};` after it) the title is the slug with spaces for dashes, and date, excerpt and tags are empty; a block without the title, date or excerpt key gives the same fallback for that field; a title or date taken from the block holds no quote |
| Posts.ReadPost | src-tauri/src/blog.rs:297-381 | A missing page and a failed read give their errors; a readable page always gives fields, with the slug asked for |
| Posts.UpdatePost | src-tauri/src/blog.rs:384-423 | Success exactly when the page is there, is read and is written; the page is written exactly on success, with the new fields and the date read from the old page; a missing page, an unreadable page and a failed write each give their message |
| Posts.MetadataOfPage | src-tauri/src/blog.rs:322-324 | The metadata block cut from a page is the one the template wrote, when no field holds `};` and no tag holds `}` |
| Posts.TitleRead | src-tauri/src/blog.rs:327-332 | The title written is read back when it holds no quote |
| Posts.DateRead | src-tauri/src/blog.rs:335-340 | The date written is read back when neither it nor the title holds a quote and the title does not end with `date: ` |
| Posts.DateMisread | src-tauri/src/blog.rs:335-340 | A title ending with `date: ` is taken for the date key: the date read back is then the text before the real date |
| Posts.ExcerptRead | src-tauri/src/blog.rs:343-348 | The excerpt written is read back when no field up to it holds a quote and neither title nor date ends with `excerpt: ` |
| Posts.TagsRead | src-tauri/src/blog.rs:351-361 | The tags written are read back when they are plain, hold no `]`, and no earlier field holds `tags: [` |
| Posts.ContentOfIs | src-tauri/src/blog.rs:366-371 | The content read is the trimmed text between the content division's tag and the first `</div>` after it |
| Posts.ReadPageRoundTrip | src-tauri/src/blog.rs:297-381 | Any page laid out as the template lays it out, around a head free of the content tag, reads back as the post it was written from |
| Posts.ReadPostRoundTrip | src-tauri/src/blog.rs:26-135 | The page `generate_post_template` writes reads back as the post's title, date, excerpt, tags and body (the placeholder when the content was empty) |
| Posts.ReadWithoutMetadata | src-tauri/src/blog.rs:315 | A page without the metadata marker reads as the slug's title with dashes as spaces, and no date, excerpt or tags |
| Posts.UpdateKeepsDate | src-tauri/src/blog.rs:404-415 | Updating a template page writes the new fields with the old page's date and no keywords |
| Posts.UpdateThenRead | src-tauri/src/blog.rs:384-423 | Reading an updated page back gives the new fields with the old page's date |
| Listing.EntryTagsRead | src-tauri/src/blog.rs:138-160 | The listing entry writes the tags as the page does: the tag reader gives them back |
| Listing.Splice | src-tauri/src/blog.rs:219-224 | The text before the insertion point is kept, then a new line and the entry, then the rest; the length grows by the entry's length plus one |
| Listing.SpliceTwice | src-tauri/src/blog.rs:219-224 | A second splice at the same place puts its entry before the first |
| Listing.InsertListing | src-tauri/src/blog.rs:214-229 | An error exactly when `const posts = [` is missing, with the error text `Could not find posts array in blog listing`; otherwise the listing grows by the entry and a new line |
| Listing.InsertAt | src-tauri/src/blog.rs:214-224 | The entry goes right after the first `const posts = [`, with everything before and after unchanged |
| Listing.InsertTwice | src-tauri/src/blog.rs:214-224 | The marker stays where it was, so each new post is listed before the earlier ones |
| Blog.CreateBlogPost | src-tauri/src/blog.rs:162-232 | An existing directory is an error and writes nothing; the page is written exactly when the directory is created and the write succeeds; success exactly when the listing is then read, holds the marker and is written; each failure gives its message |
| Blog.CreateThenRead | src-tauri/src/blog.rs:162-202 | A created post reads back as written, dated with the date it was created on |
| Blog.PostsIn | src-tauri/src/blog.rs:247-270 | Success exactly when every directory entry is read; each post listed has a visible name and the title from its slug |
| Blog.ExistingPosts | src-tauri/src/blog.rs:234-273 | A missing blog directory is an error; success exactly when the directory and every entry are read |
| Blog.PostsInFirstError | src-tauri/src/blog.rs:247-248 | The error reported is that of the first entry that cannot be read |
| Blog.PostsInListed | src-tauri/src/blog.rs:251-268 | A post is listed exactly when a directory with its name exists and the name is neither empty nor starts with `.` |

## Left out

- File system effects (existence checks, reads, directory creation, writes, directory listing) are inputs: their outcomes are parameters, and the model returns what would be written.
- The clock reading that dates a new post is a parameter of `CreateBlogPost`.
- Unicode: `\w`, `\s`, `trim`, `split_whitespace`, `to_lowercase` and `is_alphanumeric` are modelled over ASCII only; other characters belong to no class and are not lower-cased.
- The regex engine: only the two fixed patterns of `parse_bibtex` are modelled, as scanners.
- BibScan.MatchEntryAt: covers keys that do not start with white space. The give-back case is in `MatchEntry` but no lemma reads it back. In that case the key is followed directly by a comma, and `\s*` returns one white-space character to the key.
- BibScan.ValueEnd: its contract states only that the loop does not end before it starts; `ValueEndLoop` gives the exact end.
- Posts.ReadPostRoundTrip: `Recoverable` is a sufficient condition on the post (no quotes, no markers in the fields, plain tags, a trimmed body without `</div>`); it is not shown to be necessary.
- Posts.UpdatePost and Blog.CreateBlogPost return the post metadata whose page is written rather than the page text; the page is that metadata's `Template`.
- The `keywords` the listing entry writes under `content` are not read back anywhere in the program, and no lemma is stated about them.
- src/lib/stores/settings.ts is not part of this model (user-interface state kept in browser storage).
- src-tauri/src/lib.rs is not part of this model (command registration only).
