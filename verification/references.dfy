/** `entry_to_reference` of src-tauri/src/bibtex.rs: the TypeScript key of an
    entry and the `Reference` record stored under it. */
module References {
  import opened Options
  import opened Ascii
  import opened Strings
  import opened Integers
  import opened Bibtex

  // ---------------------------------------------------------------- short key

  /** The first `n` parts, or all of them when there are fewer (`take(n)`). */
  function Take(parts: seq<string>, n: nat): (r: seq<string>)
    ensures |r| == if |parts| < n then |parts| else n
    ensures forall k :: 0 <= k < |r| ==> r[k] == parts[k]
  {
    if |parts| <= n then parts else parts[..n]
  }

  /** The key with every `-` deleted. */
  function Undashed(key: string): string {
    Replace(key, "-", "")
  }

  /** The TypeScript key: dashes deleted, then the parts before the first and
      between the first and second underscore, glued together. */
  function ShortKey(key: string): string {
    Join(Take(Split(Undashed(key), '_'), 2), "")
  }

  /** Deleting dashes keeps every other character, in order. */
  lemma UndashedIsFilter(key: string)
    ensures Undashed(key) == Filter(key, Differs('-'))
  {
    ReplaceCharIsFilter(key, '-', 0);
    assert key[0..] == key;
  }

  /** The pieces of a split are free of any character the text is free of. */
  lemma {:induction false} SplitKeepsNoChar(s: string, c: char, d: char)
    requires NoChar(s, d)
    decreases |s|
    ensures forall k :: 0 <= k < |Split(s, c)| ==> NoChar(Split(s, c)[k], d)
  {
    var j := SpanEnd(s, 0, Differs(c));
    if j < |s| {
      SplitKeepsNoChar(s[j + 1..], c, d);
      assert forall k :: 0 <= k < j ==> s[..j][k] == s[k];
    }
  }

  /** A TypeScript key holds neither `-` nor `_`. */
  lemma ShortKeyClean(key: string)
    ensures NoChar(ShortKey(key), '-') && NoChar(ShortKey(key), '_')
  {
    var u := Undashed(key);
    UndashedIsFilter(key);
    assert NoChar(u, '-');
    SplitKeepsNoChar(u, '_', '-');
    var t := Take(Split(u, '_'), 2);
    JoinNoChar(t, "", '-');
    JoinNoChar(t, "", '_');
  }

  /** A key without underscores is only stripped of its dashes. */
  lemma ShortKeyWhole(key: string)
    requires NoChar(Undashed(key), '_')
    ensures ShortKey(key) == Undashed(key)
  {
    var u := Undashed(key);
    SpanEndIs(u, 0, |u|, Differs('_'));
  }

  /** With underscores, the key is the text before the first one followed by
      the text between the first and the second (or the end). */
  lemma {:induction false} ShortKeyCut(key: string, i: nat, j: nat)
    requires var u := Undashed(key);
      && i < j <= |u| && u[i] == '_' && (j == |u| || u[j] == '_')
      && (forall k :: 0 <= k < i ==> u[k] != '_')
      && (forall k :: i < k < j ==> u[k] != '_')
    ensures ShortKey(key) == Undashed(key)[..i] + Undashed(key)[i + 1..j]
  {
    var u := Undashed(key);
    SplitFirstTwo(u, i, j);
    var t := [u[..i], u[i + 1..j]];
    assert Join(t, "") == u[..i] + "" + Join(t[1..], "");
  }

  /** The first two parts of a split at `_`, given where the first two
      underscores (or the end) are. */
  lemma {:induction false} SplitFirstTwo(u: string, i: nat, j: nat)
    requires i < j <= |u| && u[i] == '_' && (j == |u| || u[j] == '_')
    requires forall k :: 0 <= k < i ==> u[k] != '_'
    requires forall k :: i < k < j ==> u[k] != '_'
    ensures Take(Split(u, '_'), 2) == [u[..i], u[i + 1..j]]
  {
    SpanEndIs(u, 0, i, Differs('_'));
    var rest := u[i + 1..];
    assert Split(u, '_') == [u[..i]] + Split(rest, '_');
    SpanEndIs(rest, 0, j - i - 1, Differs('_'));
    assert rest[..j - i - 1] == u[i + 1..j];
    assert Split(rest, '_')[0] == u[i + 1..j];
  }

  /** Dashes never matter: the key with one dash removed has the same
      TypeScript key. */
  lemma ShortKeyDropsDash(x: string, y: string)
    ensures ShortKey(x + "-" + y) == ShortKey(x + y)
  {
    var d := Differs('-');
    UndashedIsFilter(x + "-" + y);
    UndashedIsFilter(x + y);
    FilterConcat(x + "-", y, d);
    FilterConcat(x, "-", d);
    FilterConcat(x, y, d);
    assert Filter("-", d) == "";
    assert Filter(x + "-", d) == Filter(x, d);
    assert Undashed(x + "-" + y) == Filter(x, d) + Filter(y, d);
  }

  /** A dash-free key `a_b` or `a_b_...` becomes `ab`. */
  lemma ShortKeyOfParts(a: string, b: string, rest: string)
    requires NoChar(a, '_') && NoChar(b, '_') && (rest == "" || rest[0] == '_')
    requires NoChar(a + "_" + b + rest, '-')
    ensures ShortKey(a + "_" + b + rest) == a + b
  {
    var key := a + "_" + b + rest;
    UndashedIsFilter(key);
    FilterNoChar(key, '-');
    var i := |a|;
    var j := |a| + 1 + |b|;
    assert forall k :: 0 <= k < i ==> key[k] == a[k];
    assert forall k :: i < k < j ==> key[k] == b[k - i - 1];
    ShortKeyCut(key, i, j);
    assert key[..i] == a;
    assert key[i + 1..j] == b;
  }

  /** The keys named in the doc comment of `entry_to_reference`: a plain key is kept, a
      dated key keeps its name and year, dashes disappear. */
  lemma ShortKeyPlain(k: string)
    requires k == "thurston2009"
    ensures ShortKey(k) == "thurston2009"
  {
    UndashedIsFilter(k);
    FilterNoChar(k, '-');
    ShortKeyWhole(k);
  }

  lemma ShortKeyDated(k: string)
    requires k == "razbuten_2025_12_17"
    ensures ShortKey(k) == "razbuten2025"
  {
    assert k == "razbuten" + "_" + "2025" + "_12_17";
    ShortKeyOfParts("razbuten", "2025", "_12_17");
  }

  lemma ShortKeyDashed(k: string)
    requires k == "a-b_c_d_e"
    ensures ShortKey(k) == "abc"
  {
    assert k == "a" + "-" + "b_c_d_e";
    ShortKeyDropsDash("a", "b_c_d_e");
    assert "a" + "b_c_d_e" == "ab" + "_" + "c" + "_d_e";
    ShortKeyOfParts("ab", "c", "_d_e");
  }

  // ---------------------------------------------------------------- surname

  /** The last whitespace-separated word of the author text before its first
      comma, or `"Unknown"` when there is none. */
  function Surname(author: string): string {
    var words := Words(Split(author, ',')[0]);
    if |words| == 0 then "Unknown" else words[|words| - 1]
  }

  /** Text that is only white space from `i` on has no words there. */
  lemma WordsFromBlank(s: string, i: nat)
    requires i <= |s|
    requires forall k :: i <= k < |s| ==> IsSpace(s[k])
    ensures WordsFrom(s, i) == []
  {
    SpanEndIs(s, i, |s|, IsSpace);
  }

  /** The last word from `i` on is the non-space run `[a, b)` when only
      white space follows it and it starts a word. */
  lemma {:induction false} WordsFromLast(s: string, i: nat, a: nat, b: nat)
    requires i <= a < b <= |s|
    requires a == i || IsSpace(s[a - 1])
    requires forall k :: a <= k < b ==> !IsSpace(s[k])
    requires forall k :: b <= k < |s| ==> IsSpace(s[k])
    decreases |s| - i
    ensures |WordsFrom(s, i)| > 0 && WordsFrom(s, i)[|WordsFrom(s, i)| - 1] == s[a..b]
  {
    var x := SpanEnd(s, i, IsSpace);
    assert !IsSpace(s[a]);
    assert x <= a;
    var y := SpanEnd(s, x, NotSpace);
    var rest := WordsFrom(s, y);
    assert WordsFrom(s, i) == [s[x..y]] + rest;
    if x == a {
      SpanEndIs(s, a, b, NotSpace);
      WordsFromBlank(s, b);
    } else {
      assert y < a;
      WordsFromLast(s, y, a, b);
    }
  }

  /** The surname is the last word before the first comma. Here `c` is the
      position of the first comma (or the length), `[a, b)` that word. */
  lemma SurnameIs(author: string, c: nat, a: nat, b: nat)
    requires c <= |author| && (c == |author| || author[c] == ',')
    requires forall k :: 0 <= k < c ==> author[k] != ','
    requires a < b <= c && (a == 0 || IsSpace(author[a - 1]))
    requires forall k :: a <= k < b ==> !IsSpace(author[k])
    requires forall k :: b <= k < c ==> IsSpace(author[k])
    ensures Surname(author) == author[a..b]
  {
    SpanEndIs(author, 0, c, Differs(','));
    var p := author[..c];
    assert Split(author, ',')[0] == p;
    WordsFromLast(p, 0, a, b);
    assert p[a..b] == author[a..b];
  }

  /** Without any word before the first comma the surname is `"Unknown"`. */
  lemma SurnameUnknown(author: string, c: nat)
    requires c <= |author| && (c == |author| || author[c] == ',')
    requires forall k :: 0 <= k < c ==> author[k] != ','
    requires forall k :: 0 <= k < c ==> IsSpace(author[k])
    ensures Surname(author) == "Unknown"
  {
    SpanEndIs(author, 0, c, Differs(','));
    WordsFromBlank(author[..c], 0);
  }

  // ---------------------------------------------------------------- reference

  /** `entry_to_reference`: the TypeScript key and the record. */
  function EntryToReference(e: BibEntry): (r: (string, Reference))
    ensures r.0 == ShortKey(e.key)
    ensures r.1.author == e.author && r.1.title == e.title
    ensures r.1.booktitle == e.booktitle && r.1.pages == e.pages && r.1.url == e.url
    ensures e.publisher.Some? ==> r.1.publisher == e.publisher
    ensures e.publisher.None? ==> r.1.publisher == e.journal
    ensures ParseI32(e.year).Some? ==> r.1.year == ParseI32(e.year).value
    ensures ParseI32(e.year).None? ==> r.1.year == 0
    ensures r.1.shortCite == Surname(e.author) + ", " + e.year
  {
    var year := ParseI32(e.year).GetOr(0);
    var shortCite := Surname(e.author) + ", " + e.year;
    (ShortKey(e.key),
     Reference(e.author, year, e.title, shortCite, e.booktitle, e.pages,
               e.publisher.OrElse(e.journal), e.url))
  }

  /** A year written in decimal is read back as that number. */
  lemma YearRoundTrip(e: BibEntry, n: i32)
    requires e.year == Decimal(n)
    ensures EntryToReference(e).1.year == n
  {
    ParseDecimal(n);
  }
}
