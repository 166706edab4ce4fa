/** The commands of src-tauri/src/blog.rs that create and list posts, with
    their file system steps given as inputs: whether each step fails, and
    with what error text, and what the reads return. The clock reading that
    dates a new post is an input too. */
module Blog {
  import opened Options
  import opened Strings
  import opened Tags
  import opened Posts
  import opened Listing

  // ---------------------------------------------------------------- create_blog_post

  /** What the file system does at each step of `create_blog_post`: whether
      the post's directory is already there, the error (if any) of creating
      it, of writing the page, of reading the listing (or its text), and of
      writing the listing back. */
  datatype CreateSteps = CreateSteps(
    dirExists: bool, createError: Option<string>, pageError: Option<string>,
    listing: Result<string, string>, listingError: Option<string>)

  /** The outcome of `create_blog_post`: the command's result, the post
      whose page (its `Template`) was written into the post's directory, and
      the listing written back, if any. */
  datatype Created = Created(result: Result<string, string>, page: Option<PostMetadata>, listing: Option<string>)

  /** The post `create_blog_post` writes, dated `date`. */
  function NewPost(title: string, slug: string, excerpt: string, content: string,
                   tags: seq<string>, keywords: string, date: string): PostMetadata {
    PostMetadata(title, slug, excerpt, content, tags, date, keywords)
  }

  /** The page is written before the listing is read, so a failure in the
      listing steps leaves the page behind. */
  function CreateBlogPost(title: string, slug: string, excerpt: string, content: string,
                          tags: seq<string>, keywords: string, date: string, io: CreateSteps)
    : (r: Created)
    ensures io.dirExists ==> r == Created(Err("Post directory already exists: " + slug), None, None)
    ensures r.page.Some? <==> !io.dirExists && io.createError.None? && io.pageError.None?
    ensures r.page.Some? ==> r.page.value == NewPost(title, slug, excerpt, content, tags, keywords, date)
    ensures r.result.Ok? <==>
      && r.page.Some? && io.listing.Ok? && Contains(io.listing.value, PostsMarker)
      && io.listingError.None?
    ensures !io.dirExists && io.createError.Some? ==>
      r.result == Err("Failed to create directory: " + io.createError.value)
    ensures !io.dirExists && io.createError.None? && io.pageError.Some? ==>
      r.result == Err("Failed to write post file: " + io.pageError.value)
    ensures r.page.Some? && io.listing.Err? ==>
      r.result == Err("Failed to read blog listing: " + io.listing.error)
    ensures r.page.Some? && io.listing.Ok? && !Contains(io.listing.value, PostsMarker) ==>
      r.result == Err(NoPostsArray)
    ensures r.page.Some? && io.listing.Ok? && Contains(io.listing.value, PostsMarker) && io.listingError.Some? ==>
      r.result == Err("Failed to update blog listing: " + io.listingError.value)
    ensures r.listing.Some? <==> r.result.Ok?
    ensures r.result.Ok? ==> r.result.value == "Created post: " + slug
    ensures r.listing.Some? ==>
      InsertListing(io.listing.value, ListingEntry(NewPost(title, slug, excerpt, content, tags, keywords, date)))
        == Ok(r.listing.value)
  {
    var m := NewPost(title, slug, excerpt, content, tags, keywords, date);
    if io.dirExists then Created(Err("Post directory already exists: " + slug), None, None)
    else if io.createError.Some? then
      Created(Err("Failed to create directory: " + io.createError.value), None, None)
    else if io.pageError.Some? then
      Created(Err("Failed to write post file: " + io.pageError.value), None, None)
    else
      var page := Some(m);
      match io.listing
      case Err(e) => Created(Err("Failed to read blog listing: " + e), page, None)
      case Ok(text) =>
        match InsertListing(text, ListingEntry(m))
        case Err(e) => Created(Err(e), page, None)
        case Ok(updated) =>
          if io.listingError.Some? then
            Created(Err("Failed to update blog listing: " + io.listingError.value), page, None)
          else Created(Ok("Created post: " + slug), page, Some(updated))
  }

  /** A created post is read back by `read_post` as it was written, with the
      date of its creation. */
  lemma CreateThenRead(title: string, slug: string, excerpt: string, content: string,
                       tags: seq<string>, keywords: string, date: string, io: CreateSteps)
    requires Recoverable(NewPost(title, slug, excerpt, content, tags, keywords, date))
    requires CreateBlogPost(title, slug, excerpt, content, tags, keywords, date, io).page.Some?
    ensures var m := CreateBlogPost(title, slug, excerpt, content, tags, keywords, date, io).page.value;
      ReadPost(slug, Text(Template(m))) == Ok(PostContent(slug, title, date, excerpt, tags, PostBody(m)))
  {
    var m := NewPost(title, slug, excerpt, content, tags, keywords, date);
    ReadPostRoundTrip(m, slug);
  }

  // ---------------------------------------------------------------- get_existing_posts

  /** A directory entry of the blog folder: its name, when it is valid text,
      and whether it is a directory. */
  datatype DirEntry = DirEntry(name: Option<string>, isDir: bool)

  /** What `get_existing_posts` reports about a post (`ExistingPost`). */
  datatype ExistingPost = ExistingPost(
    slug: string, title: string, date: string, excerpt: string, tags: seq<string>)

  /** A folder name taken for a post: not empty and not hidden. */
  predicate IsPostName(name: string) {
    |name| > 0 && name[0] != '.'
  }

  /** A folder found in the blog directory, described by its name alone:
      title from the slug, no date, excerpt or tags. */
  function Listed(slug: string): ExistingPost {
    ExistingPost(slug, SlugTitle(slug), "", "", [])
  }

  /** The entry makes a post: a directory with a post name (a name that is
      not valid text counts as empty). */
  predicate MakesPost(e: DirEntry) {
    e.isDir && IsPostName(e.name.GetOr(""))
  }

  /** The posts of the directory entries, in order, or the first error met
      while reading them. */
  function PostsIn(entries: seq<Result<DirEntry, string>>): (r: Result<seq<ExistingPost>, string>)
    ensures r.Ok? <==> forall i :: 0 <= i < |entries| ==> entries[i].Ok?
    ensures r.Ok? ==> |r.value| <= |entries|
    ensures r.Ok? ==> forall k :: 0 <= k < |r.value| ==>
      IsPostName(r.value[k].slug) && r.value[k] == Listed(r.value[k].slug)
  {
    if |entries| == 0 then Ok([])
    else
      match entries[0]
      case Err(e) => Err(e)
      case Ok(d) =>
        match PostsIn(entries[1..])
        case Err(e) => Err(e)
        case Ok(rest) =>
          if MakesPost(d) then Ok([Listed(d.name.value)] + rest) else Ok(rest)
  }

  /** `get_existing_posts`: the blog directory must exist; then the posts of
      its entries, or the first error of reading it. */
  function ExistingPosts(blogDirExists: bool, dir: Result<seq<Result<DirEntry, string>>, string>)
    : (r: Result<seq<ExistingPost>, string>)
    ensures !blogDirExists ==> r == Err("Blog directory not found")
    ensures r.Ok? <==> blogDirExists && dir.Ok? && forall i :: 0 <= i < |dir.value| ==> dir.value[i].Ok?
  {
    if !blogDirExists then Err("Blog directory not found")
    else
      match dir
      case Err(e) => Err(e)
      case Ok(entries) => PostsIn(entries)
  }

  /** The error reported is the first one among the entries. */
  lemma {:induction false} PostsInFirstError(entries: seq<Result<DirEntry, string>>, i: nat)
    requires i < |entries| && entries[i].Err?
    requires forall j :: 0 <= j < i ==> entries[j].Ok?
    ensures PostsIn(entries) == Err(entries[i].error)
  {
    if i > 0 {
      PostsInFirstError(entries[1..], i - 1);
    }
  }

  /** A post is listed exactly when a directory entry with its name makes a
      post. */
  lemma {:induction false} PostsInListed(entries: seq<Result<DirEntry, string>>, slug: string)
    requires PostsIn(entries).Ok?
    ensures Listed(slug) in PostsIn(entries).value <==>
      exists i :: 0 <= i < |entries| && entries[i].value.name == Some(slug) && MakesPost(entries[i].value)
  {
    if |entries| > 0 {
      var d := entries[0].value;
      PostsInListed(entries[1..], slug);
      if exists i :: 1 <= i < |entries| && entries[i].value.name == Some(slug) && MakesPost(entries[i].value) {
        var i :| 1 <= i < |entries| && entries[i].value.name == Some(slug) && MakesPost(entries[i].value);
        assert entries[1..][i - 1] == entries[i];
      }
      if exists i :: 0 <= i < |entries[1..]| && entries[1..][i].value.name == Some(slug) && MakesPost(entries[1..][i].value) {
        var i :| 0 <= i < |entries[1..]| && entries[1..][i].value.name == Some(slug) && MakesPost(entries[1..][i].value);
        assert entries[i + 1] == entries[1..][i];
      }
    }
  }
}
