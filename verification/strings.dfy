/** The string operations of Rust's standard library that the blog manager's
    core relies on (`find`, `trim`, `trim_matches`, `split`, `join`,
    `split_whitespace`, `replace`), over `seq<char>`.

    The scanning functions take a start position rather than a suffix slice:
    this mirrors how Rust iterators resume inside one string. */
module Strings {
  import opened Options
  import opened Ascii

  /** `p` occurs in `s` starting at position `i`. */
  predicate OccursAt(s: string, p: string, i: nat) {
    i + |p| <= |s| && s[i..i + |p|] == p
  }

  ghost predicate Contains(s: string, p: string) {
    exists i: nat :: OccursAt(s, p, i)
  }

  predicate NoChar(s: string, c: char) {
    forall i :: 0 <= i < |s| ==> s[i] != c
  }

  predicate All(s: string, f: char -> bool) {
    forall i :: 0 <= i < |s| ==> f(s[i])
  }

  /** The character class "anything but `c`". */
  function Differs(c: char): char -> bool {
    x => x != c
  }

  predicate NotSpace(c: char) {
    !IsSpace(c)
  }

  predicate EndsWith(s: string, p: string) {
    |p| <= |s| && s[|s| - |p|..] == p
  }

  // ---------------------------------------------------------------- find

  /** The first occurrence of `p` at or after position `i`. */
  function FindFrom(s: string, p: string, i: nat): (r: Option<nat>)
    decreases |s| - i
    ensures r.Some? ==> i <= r.value && OccursAt(s, p, r.value)
    ensures r.Some? ==> forall j :: i <= j < r.value ==> !OccursAt(s, p, j)
    ensures r.None? ==> forall j: nat :: i <= j ==> !OccursAt(s, p, j)
  {
    if i + |p| > |s| then None
    else if s[i..i + |p|] == p then Some(i)
    else FindFrom(s, p, i + 1)
  }

  /** Rust's `str::find` with a string pattern: the position of the first
      occurrence, or `None` when there is none. */
  function Find(s: string, p: string): (r: Option<nat>)
    ensures r.Some? ==> OccursAt(s, p, r.value)
    ensures r.Some? ==> forall j :: 0 <= j < r.value ==> !OccursAt(s, p, j)
    ensures r.None? <==> !Contains(s, p)
  {
    FindFrom(s, p, 0)
  }

  /** An occurrence with none before it is the one `Find` reports. */
  lemma FindIs(s: string, p: string, k: nat)
    requires OccursAt(s, p, k)
    requires forall j :: 0 <= j < k ==> !OccursAt(s, p, j)
    ensures Find(s, p) == Some(k)
  {
  }

  /** Text made only of characters that cannot start `p` holds no occurrence. */
  lemma NoOccurrenceBeforeFirstChar(s: string, p: string, lo: nat, hi: nat)
    requires |p| > 0
    requires lo <= hi <= |s|
    requires forall j :: lo <= j < hi ==> s[j] != p[0]
    ensures forall j :: lo <= j < hi ==> !OccursAt(s, p, j)
  {
    forall j | lo <= j < hi
      ensures !OccursAt(s, p, j)
    {
      if j + |p| <= |s| {
        assert s[j..j + |p|][0] == s[j];
      }
    }
  }

  /** An occurrence inside a piece of a concatenation is an occurrence of
      that piece. */
  lemma OccursInPiece(a: string, b: string, c: string, p: string, j: nat)
    requires |a| <= j
    requires j + |p| <= |a| + |b|
    requires OccursAt(a + b + c, p, j)
    ensures OccursAt(b, p, j - |a|)
  {
    var s := a + b + c;
    assert s[j..j + |p|] == b[j - |a|..j - |a| + |p|];
  }

  // ---------------------------------------------------------------- spans

  /** The end of the longest run of characters satisfying `f` that starts at
      position `i`. */
  function SpanEnd(s: string, i: nat, f: char -> bool): (r: nat)
    requires i <= |s|
    decreases |s| - i
    ensures i <= r <= |s|
    ensures forall j :: i <= j < r ==> f(s[j])
    ensures r < |s| ==> !f(s[r])
  {
    if i < |s| && f(s[i]) then SpanEnd(s, i + 1, f) else i
  }

  /** The run itself consists of `f` characters. */
  lemma SpanAll(s: string, i: nat, f: char -> bool)
    requires i <= |s|
    ensures All(s[i..SpanEnd(s, i, f)], f)
  {
    var r := SpanEnd(s, i, f);
    assert forall j :: 0 <= j < r - i ==> s[i..r][j] == s[i + j];
  }

  lemma SliceNoChar(s: string, lo: nat, hi: nat, c: char)
    requires lo <= hi <= |s|
    requires forall j :: lo <= j < hi ==> s[j] != c
    ensures NoChar(s[lo..hi], c)
  {
    assert forall j :: 0 <= j < hi - lo ==> s[lo..hi][j] == s[lo + j];
  }

  /** The start of the longest run of characters satisfying `f` that ends at
      position `j`. */
  function SpanBack(s: string, j: nat, f: char -> bool): (r: nat)
    requires j <= |s|
    ensures r <= j
    ensures forall k :: r <= k < j ==> f(s[k])
    ensures r > 0 ==> !f(s[r - 1])
  {
    if j > 0 && f(s[j - 1]) then SpanBack(s, j - 1, f) else j
  }

  /** A run is determined by its two ends. */
  lemma SpanEndIs(s: string, i: nat, k: nat, f: char -> bool)
    requires i <= k <= |s|
    requires forall j :: i <= j < k ==> f(s[j])
    requires k < |s| ==> !f(s[k])
    ensures SpanEnd(s, i, f) == k
  {
  }

  lemma SpanBackIs(s: string, j: nat, k: nat, f: char -> bool)
    requires k <= j <= |s|
    requires forall m :: k <= m < j ==> f(s[m])
    requires k > 0 ==> !f(s[k - 1])
    ensures SpanBack(s, j, f) == k
  {
  }

  /** `SpanEnd` depends only on the text from `i` on. */
  lemma SpanEndShift(s: string, i: nat, f: char -> bool)
    requires i <= |s|
    ensures SpanEnd(s, i, f) == i + SpanEnd(s[i..], 0, f)
  {
    var k := SpanEnd(s[i..], 0, f);
    SpanEndIs(s, i, i + k, f);
  }

  // ---------------------------------------------------------------- trim

  /** No character satisfying `f` at either end. */
  predicate NoEdge(s: string, f: char -> bool) {
    |s| == 0 || (!f(s[0]) && !f(s[|s| - 1]))
  }

  /** Rust's `trim_matches` with a character predicate: strips every
      character satisfying `f` from both ends. */
  function TrimWith(s: string, f: char -> bool): (r: string)
    ensures NoEdge(r, f)
    ensures |r| <= |s|
  {
    var a := SpanEnd(s, 0, f);
    var b := SpanBack(s, |s|, f);
    if a >= b then "" else s[a..b]
  }

  /** Rust's `str::trim`. */
  function Trim(s: string): (r: string)
    ensures NoEdge(r, IsSpace)
  {
    TrimWith(s, IsSpace)
  }

  /** Trimming leaves text without edge characters unchanged. */
  lemma TrimWithNoEdge(s: string, f: char -> bool)
    requires NoEdge(s, f)
    ensures TrimWith(s, f) == s
  {
    if |s| > 0 {
      SpanEndIs(s, 0, 0, f);
      var b := SpanBack(s, |s|, f);
      assert b == |s|;
    }
  }

  /** Trimming removes exactly the padding around a trimmed core: `TrimWith`
      of `a + m + b` with `a`, `b` made of trimmed characters equals that of
      `m`. */
  lemma TrimWithPadded(a: string, m: string, b: string, f: char -> bool)
    requires All(a, f) && All(b, f)
    ensures TrimWith(a + m + b, f) == TrimWith(m, f)
  {
    var ma := SpanEnd(m, 0, f);
    if ma == |m| {
      AllConcat3(a, m, b, f);
      SpanEndIs(a + m + b, 0, |a + m + b|, f);
    } else {
      TrimWithPaddedCore(a, m, b, f, ma, SpanBack(m, |m|, f));
    }
  }

  lemma AllConcat3(a: string, m: string, b: string, f: char -> bool)
    requires All(a, f) && All(m, f) && All(b, f)
    ensures All(a + m + b, f)
  {
    AllConcat(a, m, f);
    AllConcat(a + m, b, f);
  }

  lemma AllConcat(x: string, y: string, f: char -> bool)
    requires All(x, f) && All(y, f)
    ensures All(x + y, f)
  {
    var s := x + y;
    forall j | 0 <= j < |s| ensures f(s[j]) {
      if j < |x| { assert s[j] == x[j]; } else { assert s[j] == y[j - |x|]; }
    }
  }

  lemma SpanEndPadded(a: string, m: string, b: string, f: char -> bool)
    requires All(a, f)
    requires SpanEnd(m, 0, f) < |m|
    ensures SpanEnd(a + m + b, 0, f) == |a| + SpanEnd(m, 0, f)
  {
    var s := a + m + b;
    var ma := SpanEnd(m, 0, f);
    forall j | 0 <= j < |a| + ma ensures f(s[j]) {
      if j < |a| { assert s[j] == a[j]; } else { assert s[j] == m[j - |a|]; }
    }
    assert s[|a| + ma] == m[ma];
    SpanEndIs(s, 0, |a| + ma, f);
  }

  lemma SpanBackPadded(a: string, m: string, b: string, f: char -> bool)
    requires All(b, f)
    requires SpanBack(m, |m|, f) > 0
    ensures SpanBack(a + m + b, |a + m + b|, f) == |a| + SpanBack(m, |m|, f)
  {
    var s := a + m + b;
    var mb := SpanBack(m, |m|, f);
    forall j | |a| + mb <= j < |s| ensures f(s[j]) {
      if j < |a| + |m| { assert s[j] == m[j - |a|]; } else { assert s[j] == b[j - |a| - |m|]; }
    }
    assert s[|a| + mb - 1] == m[mb - 1];
    SpanBackIs(s, |s|, |a| + mb, f);
  }

  lemma TrimWithPaddedCore(a: string, m: string, b: string, f: char -> bool, ma: nat, mb: nat)
    requires All(a, f) && All(b, f)
    requires ma == SpanEnd(m, 0, f) < |m|
    requires mb == SpanBack(m, |m|, f)
    ensures TrimWith(a + m + b, f) == m[ma..mb]
  {
    var s := a + m + b;
    assert mb > ma;
    assert TrimWith(s, f) == s[|a| + ma..|a| + mb] by {
      SpanEndPadded(a, m, b, f);
      SpanBackPadded(a, m, b, f);
      TrimWithIs(s, f, |a| + ma, |a| + mb);
    }
    assert s[|a| + ma..|a| + mb] == m[ma..mb] by {
      SliceOfMiddle(a, m, b, ma, mb);
    }
  }

  lemma TrimWithIs(s: string, f: char -> bool, i: nat, j: nat)
    requires i < j <= |s|
    requires SpanEnd(s, 0, f) == i && SpanBack(s, |s|, f) == j
    ensures TrimWith(s, f) == s[i..j]
  {
  }

  /** A slice that lies inside the middle piece of a concatenation. */
  lemma SliceOfMiddle(a: string, m: string, b: string, i: nat, j: nat)
    requires i <= j <= |m|
    ensures (a + m + b)[|a| + i..|a| + j] == m[i..j]
  {
    var s := a + m + b;
    var x := s[|a| + i..|a| + j];
    assert |x| == j - i;
    forall k | 0 <= k < j - i ensures x[k] == m[i + k] {
      assert x[k] == s[|a| + i + k];
    }
  }

  // ---------------------------------------------------------------- split and join

  /** Rust's `str::split` with a character separator: the pieces between
      separators, empty ones included. */
  function Split(s: string, c: char): (r: seq<string>)
    decreases |s|
    ensures |r| >= 1
    ensures forall k :: 0 <= k < |r| ==> NoChar(r[k], c)
  {
    var j := SpanEnd(s, 0, Differs(c));
    if j == |s| then [s] else [s[..j]] + Split(s[j + 1..], c)
  }

  /** `Vec::join`: the parts with `sep` between consecutive ones. */
  function Join(parts: seq<string>, sep: string): string {
    if |parts| == 0 then ""
    else if |parts| == 1 then parts[0]
    else parts[0] + sep + Join(parts[1..], sep)
  }

  /** Each item rendered as text, in order. */
  function MapText<T>(xs: seq<T>, f: T -> string): (r: seq<string>)
    ensures |r| == |xs|
  {
    if |xs| == 0 then [] else MapText(xs[..|xs| - 1], f) + [f(xs[|xs| - 1])]
  }

  /** Rendering two lists is rendering each, in order. */
  lemma {:induction false} MapTextAppend<T>(a: seq<T>, b: seq<T>, f: T -> string)
    decreases |b|
    ensures MapText(a + b, f) == MapText(a, f) + MapText(b, f)
  {
    if |b| == 0 {
      assert a + b == a;
    } else {
      var b' := b[..|b| - 1];
      var x := b[|b| - 1];
      assert a + b == (a + b') + [x];
      MapTextAppend(a, b', f);
      assert MapText(a + b, f) == MapText(a + b', f) + [f(x)];
      assert MapText(b, f) == MapText(b', f) + [f(x)];
    }
  }

  /** The pieces of a text glued from three parts. */
  lemma Ends(a: string, b: string, c: string)
    ensures |a + b + c| >= |a| + |c|
    ensures (a + b + c)[..|a|] == a && (a + b + c)[|a + b + c| - |c|..] == c
  {
  }

  /** The parts glued together in order. */
  function Concat(parts: seq<string>): string {
    if |parts| == 0 then "" else Concat(parts[..|parts| - 1]) + parts[|parts| - 1]
  }

  /** Gluing two lists of parts is gluing each and then the results. */
  lemma {:induction false} ConcatAppend(a: seq<string>, b: seq<string>)
    ensures Concat(a + b) == Concat(a) + Concat(b)
  {
    if |b| == 0 {
      assert a + b == a;
    } else {
      var b' := b[..|b| - 1];
      ConcatAppend(a, b');
      assert (a + b)[..|a + b| - 1] == a + b';
      assert (a + b)[|a + b| - 1] == b[|b| - 1];
      Assoc(Concat(a), Concat(b'), b[|b| - 1]);
    }
  }

  /** Concatenation regrouped, for proofs that rebuild a text from its
      pieces. */
  lemma Assoc(a: string, b: string, c: string)
    ensures (a + b) + c == a + (b + c)
  {
  }

  lemma JoinCons(a: string, rest: seq<string>, sep: string)
    requires |rest| >= 1
    ensures Join([a] + rest, sep) == a + sep + Join(rest, sep)
  {
    assert ([a] + rest)[1..] == rest;
  }
  /** Joining one more part at the end. */
  lemma {:induction false} JoinSnoc(parts: seq<string>, last: string, sep: string)
    requires |parts| >= 1
    ensures Join(parts + [last], sep) == Join(parts, sep) + sep + last
  {
    if |parts| == 1 {
      assert parts + [last] == [parts[0], last];
      assert [parts[0], last][1..] == [last];
    } else {
      var rest := parts[1..];
      JoinSnoc(rest, last, sep);
      assert (parts + [last])[1..] == rest + [last];
    }
  }


  /** Joining parts free of a character, with a separator free of it, gives
      text free of it. */
  lemma {:induction false} JoinNoChar(parts: seq<string>, sep: string, c: char)
    requires forall k :: 0 <= k < |parts| ==> NoChar(parts[k], c)
    requires NoChar(sep, c)
    ensures NoChar(Join(parts, sep), c)
  {
    if |parts| > 1 {
      JoinNoChar(parts[1..], sep, c);
      var a := parts[0] + sep;
      var b := Join(parts[1..], sep);
      assert Join(parts, sep) == a + b;
      assert forall i :: 0 <= i < |a| ==> a[i] == if i < |parts[0]| then parts[0][i] else sep[i - |parts[0]|];
      assert forall i :: 0 <= i < |a + b| ==> (a + b)[i] == if i < |a| then a[i] else b[i - |a|];
    }
  }

  /** Joining the pieces of a split with the separator gives back the text. */
  lemma {:induction false} JoinSplit(s: string, c: char)
    decreases |s|
    ensures Join(Split(s, c), [c]) == s
  {
    var j := SpanEnd(s, 0, Differs(c));
    if j < |s| {
      JoinSplit(s[j + 1..], c);
      var rest := Split(s[j + 1..], c);
      assert Split(s, c) == [s[..j]] + rest;
      JoinCons(s[..j], rest, [c]);
      assert s[j] == c;
      assert s == s[..j] + [c] + s[j + 1..];
    }
  }

  /** Splitting parts joined with a separator they do not contain gives the
      parts back. */
  lemma {:induction false} SplitJoin(parts: seq<string>, c: char)
    requires |parts| >= 1
    requires forall k :: 0 <= k < |parts| ==> NoChar(parts[k], c)
    ensures Split(Join(parts, [c]), c) == parts
  {
    var s := Join(parts, [c]);
    var p0 := parts[0];
    if |parts| == 1 {
      assert s == p0;
      SpanEndIs(s, 0, |s|, Differs(c));
    } else {
      var rest := Join(parts[1..], [c]);
      assert s == p0 + [c] + rest;
      SpanEndIs(s, 0, |p0|, Differs(c));
      SplitJoin(parts[1..], c);
      assert s[|p0| + 1..] == rest;
      assert s[..|p0|] == p0;
      assert Split(s, c) == [p0] + Split(rest, c);
      assert parts == [p0] + parts[1..];
    }
  }

  // ---------------------------------------------------------------- whitespace words

  /** Rust's `str::split_whitespace` from position `i`: the maximal runs of
      non-space characters, in order. */
  function WordsFrom(s: string, i: nat): (r: seq<string>)
    requires i <= |s|
    decreases |s| - i
    ensures forall k :: 0 <= k < |r| ==> |r[k]| > 0 && All(r[k], NotSpace)
  {
    var a := SpanEnd(s, i, IsSpace);
    if a == |s| then []
    else
      var b := SpanEnd(s, a, NotSpace);
      [s[a..b]] + WordsFrom(s, b)
  }

  function Words(s: string): seq<string> {
    WordsFrom(s, 0)
  }

  // ---------------------------------------------------------------- filter

  /** The characters of `s` that satisfy `f`, in order. */
  function Filter(s: string, f: char -> bool): (r: string)
    ensures |r| <= |s|
    ensures All(r, f)
  {
    if |s| == 0 then ""
    else (if f(s[0]) then [s[0]] else "") + Filter(s[1..], f)
  }

  /** Filtering distributes over concatenation. */
  lemma {:induction false} FilterConcat(x: string, y: string, f: char -> bool)
    decreases |x|
    ensures Filter(x + y, f) == Filter(x, f) + Filter(y, f)
  {
    if |x| > 0 {
      var h := if f(x[0]) then [x[0]] else "";
      assert (x + y)[0] == x[0];
      assert (x + y)[1..] == x[1..] + y;
      FilterConcat(x[1..], y, f);
      assert Filter(x + y, f) == h + (Filter(x[1..], f) + Filter(y, f));
    } else {
      assert x + y == y;
    }
  }

  /** Text free of `c` is left alone by filtering `c` out. */
  lemma {:induction false} FilterNoChar(s: string, c: char)
    requires NoChar(s, c)
    decreases |s|
    ensures Filter(s, Differs(c)) == s
  {
    if |s| > 0 {
      FilterNoChar(s[1..], c);
    }
  }

  // ---------------------------------------------------------------- replace

  /** Rust's `str::replace`: every non-overlapping occurrence of `p`, taken
      left to right from position `i`, replaced by `q`. */
  function ReplaceFrom(s: string, p: string, q: string, i: nat): string
    requires |p| > 0
    requires i <= |s|
    decreases |s| - i
  {
    if i == |s| then ""
    else if OccursAt(s, p, i) then q + ReplaceFrom(s, p, q, i + |p|)
    else [s[i]] + ReplaceFrom(s, p, q, i + 1)
  }

  function Replace(s: string, p: string, q: string): string
    requires |p| > 0
  {
    ReplaceFrom(s, p, q, 0)
  }

  /** Replacing a pattern that does not occur changes nothing. */
  lemma {:induction false} ReplaceAbsent(s: string, p: string, q: string, i: nat)
    requires |p| > 0
    requires i <= |s|
    requires forall j: nat :: i <= j ==> !OccursAt(s, p, j)
    decreases |s| - i
    ensures ReplaceFrom(s, p, q, i) == s[i..]
  {
    if i < |s| {
      ReplaceAbsent(s, p, q, i + 1);
      assert s[i..] == [s[i]] + s[i + 1..];
    }
  }

  /** Up to the first occurrence, replacing copies the text. */
  lemma {:induction false} ReplaceUpTo(s: string, p: string, q: string, i: nat, k: nat)
    requires |p| > 0
    requires i <= k <= |s|
    requires forall j: nat :: i <= j < k ==> !OccursAt(s, p, j)
    decreases k - i
    ensures ReplaceFrom(s, p, q, i) == s[i..k] + ReplaceFrom(s, p, q, k)
  {
    if i < k {
      ReplaceCopies(s, p, q, i);
      ReplaceUpTo(s, p, q, i + 1, k);
      Prepend(s[i], s[i + 1..k], ReplaceFrom(s, p, q, k));
      assert [s[i]] + s[i + 1..k] == s[i..k];
    }
  }

  /** Where the pattern does not start, replacing copies one character. */
  lemma ReplaceCopies(s: string, p: string, q: string, i: nat)
    requires |p| > 0 && i < |s| && !OccursAt(s, p, i)
    ensures ReplaceFrom(s, p, q, i) == [s[i]] + ReplaceFrom(s, p, q, i + 1)
  {
  }

  lemma Prepend(c: char, a: string, b: string)
    ensures [c] + (a + b) == ([c] + a) + b
  {
  }

  /** Replacing a single character with a single character keeps every other
      character in place. */
  lemma {:induction false} ReplaceCharAt(s: string, c: char, d: char, i: nat)
    requires i <= |s|
    decreases |s| - i
    ensures |ReplaceFrom(s, [c], [d], i)| == |s| - i
    ensures forall k :: i <= k < |s| ==>
      ReplaceFrom(s, [c], [d], i)[k - i] == (if s[k] == c then d else s[k])
  {
    if i < |s| {
      ReplaceCharAt(s, c, d, i + 1);
      var r := ReplaceFrom(s, [c], [d], i);
      var r' := ReplaceFrom(s, [c], [d], i + 1);
      assert s[i..i + 1] == [s[i]];
      assert r == [if s[i] == c then d else s[i]] + r';
      forall k | i + 1 <= k < |s|
        ensures r[k - i] == (if s[k] == c then d else s[k])
      {
        assert r[k - i] == r'[k - (i + 1)];
      }
    }
  }

  /** Deleting a character with `replace(c, "")` is filtering it out. */
  lemma {:induction false} ReplaceCharIsFilter(s: string, c: char, i: nat)
    requires i <= |s|
    decreases |s| - i
    ensures ReplaceFrom(s, [c], "", i) == Filter(s[i..], Differs(c))
  {
    if i < |s| {
      ReplaceCharIsFilter(s, c, i + 1);
      assert OccursAt(s, [c], i) <==> s[i] == c by {
        assert s[i..i + 1] == [s[i]];
      }
      assert s[i..][1..] == s[i + 1..];
    }
  }
}
