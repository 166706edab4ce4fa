/** Tag lists of src-tauri/src/blog.rs: written into a post as `"t1", "t2"`
    by the template and the listing entry, read back by `read_post`. */
module Tags {
  import opened Ascii
  import opened Strings

  function Quote(t: string): string {
    "\"" + t + "\""
  }

  function QuoteAll(tags: seq<string>): (r: seq<string>)
    ensures |r| == |tags|
    ensures forall k :: 0 <= k < |r| ==> r[k] == Quote(tags[k])
  {
    if |tags| == 0 then [] else [Quote(tags[0])] + QuoteAll(tags[1..])
  }

  /** The tags quoted and separated by `", "`. */
  function RenderTags(tags: seq<string>): string {
    Join(QuoteAll(tags), ", ")
  }

  predicate IsQuote(c: char) {
    c == '"'
  }

  /** One comma-separated piece of a tag list, trimmed and stripped of the
      quotes at its ends. */
  function CleanTag(piece: string): string {
    TrimWith(Trim(piece), IsQuote)
  }

  /** The cleaned pieces, with the empty ones dropped. */
  function CleanTags(pieces: seq<string>): (r: seq<string>)
    ensures forall k :: 0 <= k < |r| ==> |r[k]| > 0 && NoEdge(r[k], IsQuote)
  {
    if |pieces| == 0 then []
    else
      var t := CleanTag(pieces[0]);
      (if |t| > 0 then [t] else []) + CleanTags(pieces[1..])
  }

  /** The tag text between `[` and `]` read back into a list. */
  function ParseTags(s: string): (r: seq<string>)
    ensures forall k :: 0 <= k < |r| ==> |r[k]| > 0 && NoEdge(r[k], IsQuote)
  {
    CleanTags(Split(s, ','))
  }

  /** A tag that survives writing and reading: not empty, and without the
      comma that separates tags or the quote that delimits them. */
  predicate PlainTag(t: string) {
    |t| > 0 && NoChar(t, ',') && NoChar(t, '"')
  }

  /** Each piece after the first, with the space `", "` leaves before it. */
  function Spaced(xs: seq<string>): (r: seq<string>)
    ensures |r| == |xs|
    ensures forall k :: 0 <= k < |r| ==> r[k] == " " + xs[k]
  {
    if |xs| == 0 then [] else [" " + xs[0]] + Spaced(xs[1..])
  }

  /** Joining with `", "` is joining with `","` after spacing the later
      pieces. */
  lemma {:induction false} SpacedJoin(xs: seq<string>)
    requires |xs| >= 1
    ensures " " + Join(xs, ", ") == Join(Spaced(xs), ",")
  {
    if |xs| > 1 {
      SpacedJoin(xs[1..]);
      assert Spaced(xs) == [" " + xs[0]] + Spaced(xs[1..]);
      JoinCons(" " + xs[0], Spaced(xs[1..]), ",");
      assert " " + Join(xs, ", ") == " " + xs[0] + "," + (" " + Join(xs[1..], ", "));
    }
  }

  /** The pieces a rendered tag list splits into at its commas. */
  lemma RenderedPieces(tags: seq<string>)
    requires |tags| >= 1
    ensures RenderTags(tags) == Join([Quote(tags[0])] + Spaced(QuoteAll(tags[1..])), ",")
  {
    var q := QuoteAll(tags);
    if |tags| > 1 {
      assert q == [q[0]] + q[1..];
      JoinCons(q[0], q[1..], ", ");
      SpacedJoin(q[1..]);
      JoinCons(q[0], Spaced(q[1..]), ",");
      assert q[1..] == QuoteAll(tags[1..]);
    }
  }

  /** A quoted plain tag, with or without leading spaces, cleans back to the
      tag. */
  lemma CleanQuoted(pad: string, t: string)
    requires PlainTag(t) && All(pad, IsSpace)
    ensures CleanTag(pad + Quote(t)) == t
  {
    var q := Quote(t);
    assert pad + q == pad + q + "";
    TrimWithPadded(pad, q, "", IsSpace);
    TrimWithNoEdge(q, IsSpace);
    TrimWithPadded("\"", t, "\"", IsQuote);
    TrimWithNoEdge(t, IsQuote);
  }

  lemma {:induction false} CleanSpaced(tags: seq<string>)
    requires forall k :: 0 <= k < |tags| ==> PlainTag(tags[k])
    ensures CleanTags(Spaced(QuoteAll(tags))) == tags
  {
    if |tags| > 0 {
      CleanQuoted(" ", tags[0]);
      CleanSpaced(tags[1..]);
      assert Spaced(QuoteAll(tags))[1..] == Spaced(QuoteAll(tags[1..]));
    }
  }

  lemma CleanTagsCons(p: string, t: string, rest: seq<string>, r: seq<string>)
    requires CleanTag(p) == t && |t| > 0 && CleanTags(rest) == r
    ensures CleanTags([p] + rest) == [t] + r
  {
    assert ([p] + rest)[1..] == rest;
  }

  /** The pieces of a rendered list of plain tags clean back to the tags. */
  lemma CleanPieces(tags: seq<string>)
    requires |tags| >= 1
    requires forall k :: 0 <= k < |tags| ==> PlainTag(tags[k])
    ensures CleanTags([Quote(tags[0])] + Spaced(QuoteAll(tags[1..]))) == tags
  {
    var t := tags[0];
    var rest := tags[1..];
    var pieces := Spaced(QuoteAll(rest));
    CleanBare(t);
    AllPlainTail(tags);
    CleanSpaced(rest);
    CleanTagsCons(Quote(t), t, pieces, rest);
    assert tags == [t] + rest;
  }

  lemma AllPlainTail(tags: seq<string>)
    requires |tags| >= 1
    requires forall k :: 0 <= k < |tags| ==> PlainTag(tags[k])
    ensures forall k :: 0 <= k < |tags[1..]| ==> PlainTag(tags[1..][k])
  {
    forall k | 0 <= k < |tags[1..]| ensures PlainTag(tags[1..][k]) {
      assert tags[1..][k] == tags[k + 1];
    }
  }

  /** A quoted plain tag cleans back to the tag. */
  lemma CleanBare(t: string)
    requires PlainTag(t)
    ensures CleanTag(Quote(t)) == t
  {
    assert "" + Quote(t) == Quote(t);
    CleanQuoted("", t);
  }

  /** No piece of a rendered list of plain tags holds a comma. */
  lemma PiecesNoComma(tags: seq<string>)
    requires |tags| >= 1
    requires forall k :: 0 <= k < |tags| ==> PlainTag(tags[k])
    ensures var pieces := [Quote(tags[0])] + Spaced(QuoteAll(tags[1..]));
      forall k :: 0 <= k < |pieces| ==> NoChar(pieces[k], ',')
  {
    var pieces := [Quote(tags[0])] + Spaced(QuoteAll(tags[1..]));
    forall k | 0 <= k < |pieces| ensures NoChar(pieces[k], ',') {
      var t := tags[k];
      assert PlainTag(t);
      if k == 0 {
        assert pieces[k] == "\"" + t + "\"";
      } else {
        assert pieces[k] == " " + "\"" + t + "\"";
      }
    }
  }

  /** A character that is neither a quote, a comma nor a space, and that no
      tag holds, does not appear in the rendered list. */
  lemma RenderTagsNoChar(tags: seq<string>, c: char)
    requires c != '"' && c != ',' && c != ' '
    requires forall k :: 0 <= k < |tags| ==> NoChar(tags[k], c)
    ensures NoChar(RenderTags(tags), c)
  {
    var q := QuoteAll(tags);
    forall k | 0 <= k < |q| ensures NoChar(q[k], c) {
      var t := tags[k];
      assert q[k] == "\"" + t + "\"";
      assert forall i :: 0 <= i < |q[k]| ==> q[k][i] == '"' || q[k][i] == t[i - 1];
    }
    JoinNoChar(q, ", ", c);
  }

  /** The empty tag list is written as nothing and read back as empty. */
  lemma NoTagsRoundTrip()
    ensures ParseTags(RenderTags([])) == []
  {
    SpanEndIs("", 0, 0, Differs(','));
    assert Split("", ',') == [""];
    TrimWithNoEdge("", IsSpace);
    TrimWithNoEdge("", IsQuote);
  }

  /** Writing plain tags and reading them back gives the same list. */
  lemma TagsRoundTrip(tags: seq<string>)
    requires forall k :: 0 <= k < |tags| ==> PlainTag(tags[k])
    ensures ParseTags(RenderTags(tags)) == tags
  {
    if |tags| == 0 {
      NoTagsRoundTrip();
    } else {
      var rest := Spaced(QuoteAll(tags[1..]));
      var pieces := [Quote(tags[0])] + rest;
      assert ParseTags(RenderTags(tags)) == CleanTags(pieces) by {
        RenderedPieces(tags);
        PiecesNoComma(tags);
        SplitJoin(pieces, ',');
      }
      CleanPieces(tags);
    }
  }
}
