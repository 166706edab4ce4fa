/** The blog listing of src-tauri/src/blog.rs: the entry
    `generate_listing_entry` writes for a new post, and the splice
    `create_blog_post` makes into the listing page right after
    `const posts = [`. */
module Listing {
  import opened Options
  import opened Strings
  import opened Search
  import opened Tags
  import opened Posts

  // ---------------------------------------------------------------- the entry

  const EntryIndent := "\n            "
  const EntryPad := "\"," + EntryIndent
  const EntryOpen := "        {" + EntryIndent + "slug: \""
  const EntryTitle := EntryPad + "title: \""
  const EntryDate := EntryPad + DateKey
  const EntryExcerpt := EntryPad + ExcerptKey
  const EntryTags := EntryPad + TagsKey
  const EntryContent := "]," + EntryIndent + "content: \""
  const EntryClose := "\",\n        },"

  /** `generate_listing_entry`: the post as an object literal of the
      listing's `posts` array, the keywords under `content`. Built from the
      back like the page's metadata block. */
  function ListingEntry(m: PostMetadata): string {
    EntryOpen + (m.slug + (EntryTitle + (m.title + EntryDateThen(m))))
  }

  function EntryDateThen(m: PostMetadata): string {
    EntryDate + (m.date + (EntryExcerpt + (m.excerpt + EntryTagsThen(m))))
  }

  function EntryTagsThen(m: PostMetadata): string {
    EntryTags + (RenderTags(m.tags) + (EntryContent + (m.keywords + EntryClose)))
  }

  lemma EntryTagsInDate(m: PostMetadata)
    requires !Contains(m.date, TagsKey) && !Contains(m.excerpt, TagsKey)
    ensures FoundBefore(EntryDateThen(m), TagsKey, RenderTags(m.tags) + (EntryContent + (m.keywords + EntryClose)))
  {
    var q := RenderTags(m.tags) + (EntryContent + (m.keywords + EntryClose));
    Assoc(EntryPad, TagsKey, q);
    assert Refuted(EntryPad, TagsKey, 1, 1);
    FoundAfterLiteral(EntryPad, TagsKey, q, 1, 1);
    StepAbsent(m.excerpt, EntryTagsThen(m), TagsKey, q);
    assert Refuted(EntryExcerpt, TagsKey, 1, 1);
    StepLiteral(EntryExcerpt, m.excerpt + EntryTagsThen(m), TagsKey, 1, 1, q);
    StepAbsent(m.date, EntryExcerpt + (m.excerpt + EntryTagsThen(m)), TagsKey, q);
    assert Refuted(EntryDate, TagsKey, 1, 1);
    StepLiteral(EntryDate, m.date + (EntryExcerpt + (m.excerpt + EntryTagsThen(m))), TagsKey, 1, 1, q);
  }

  /** The entry writes the tags exactly as the page does: reading them back
      with `read_post`'s own tag reader gives the post's tags, when they are
      plain and hold no `]`, and no field before them holds `tags: [`. */
  lemma EntryTagsRead(m: PostMetadata)
    requires !Contains(m.slug, TagsKey) && !Contains(m.title, TagsKey)
    requires !Contains(m.date, TagsKey) && !Contains(m.excerpt, TagsKey)
    requires forall k :: 0 <= k < |m.tags| ==> PlainTag(m.tags[k]) && NoChar(m.tags[k], ']')
    ensures TagsOf(ListingEntry(m)) == m.tags
  {
    var g := RenderTags(m.tags);
    var q := g + (EntryContent + (m.keywords + EntryClose));
    EntryTagsInDate(m);
    StepAbsent(m.title, EntryDateThen(m), TagsKey, q);
    assert Refuted(EntryTitle, TagsKey, 1, 1);
    StepLiteral(EntryTitle, m.title + EntryDateThen(m), TagsKey, 1, 1, q);
    StepAbsent(m.slug, EntryTitle + (m.title + EntryDateThen(m)), TagsKey, q);
    assert Refuted(EntryOpen, TagsKey, 1, 1);
    StepLiteral(EntryOpen, m.slug + (EntryTitle + (m.title + EntryDateThen(m))), TagsKey, 1, 1, q);
    RenderTagsNoChar(m.tags, ']');
    FieldAfterIs(ListingEntry(m), TagsKey, g, EntryContent + (m.keywords + EntryClose), ']');
    TagsRoundTrip(m.tags);
  }

  // ---------------------------------------------------------------- the splice

  const PostsMarker := "const posts = ["

  const NoPostsArray := "Could not find posts array in blog listing"

  /** The text with a newline and `entry` inserted at `at`. */
  function Splice(s: string, at: nat, entry: string): (r: string)
    requires at <= |s|
    ensures |r| == |s| + |entry| + 1
    ensures r[..at] == s[..at]
    ensures r[at..at + 1 + |entry|] == "\n" + entry
    ensures r[at + 1 + |entry|..] == s[at..]
  {
    var r := s[..at] + "\n" + entry + s[at..];
    assert r[..at] == s[..at];
    assert r[at..at + 1 + |entry|] == "\n" + entry;
    assert r[at + 1 + |entry|..] == s[at..];
    r
  }

  /** Two splices at the same place: the second entry lands before the
      first. */
  lemma SpliceTwice(s: string, at: nat, e1: string, e2: string)
    requires at <= |s|
    ensures Splice(Splice(s, at, e1), at, e2) == s[..at] + "\n" + e2 + "\n" + e1 + s[at..]
  {
    var once := Splice(s, at, e1);
    assert once[..at] == s[..at];
    assert once[at..] == "\n" + e1 + s[at..];
  }

  /** The listing with `"\n" + entry` inserted right after the first
      `const posts = [`, or the error when there is none. */
  function InsertListing(listing: string, entry: string): (r: Result<string, string>)
    ensures r.Err? <==> !Contains(listing, PostsMarker)
    ensures r.Err? ==> r.error == NoPostsArray
    ensures r.Ok? ==> |r.value| == |listing| + |entry| + 1
  {
    match Find(listing, PostsMarker)
    case None => Err(NoPostsArray)
    case Some(pos) => Ok(Splice(listing, pos + |PostsMarker|, entry))
  }

  /** Where the entry goes: with the first marker at `p`, the text through
      the marker is kept, then come a newline and the entry, then the rest
      of the listing, unchanged. */
  lemma InsertAt(listing: string, entry: string, p: nat)
    requires FirstAt(listing, PostsMarker, p)
    ensures var at := p + |PostsMarker|;
      && InsertListing(listing, entry).Ok?
      && InsertListing(listing, entry).value[..at] == listing[..at]
      && InsertListing(listing, entry).value[at..at + 1 + |entry|] == "\n" + entry
      && InsertListing(listing, entry).value[at + 1 + |entry|..] == listing[at..]
  {
    FindFirst(listing, PostsMarker, p);
  }

  /** The marker stays where it was, so each later post is inserted before
      the earlier ones: the listing shows the newest post first. */
  lemma InsertTwice(listing: string, e1: string, e2: string, p: nat)
    requires FirstAt(listing, PostsMarker, p)
    ensures var at := p + |PostsMarker|;
      && InsertListing(listing, e1).Ok?
      && InsertListing(InsertListing(listing, e1).value, e2)
           == Ok(listing[..at] + "\n" + e2 + "\n" + e1 + listing[at..])
  {
    var at := p + |PostsMarker|;
    var once := Splice(listing, at, e1);
    FindFirst(listing, PostsMarker, p);
    FirstInPrefix(listing, once, PostsMarker, p);
    FindFirst(once, PostsMarker, p);
    SpliceTwice(listing, at, e1, e2);
  }
}
