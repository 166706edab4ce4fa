/** The two regular expressions of `parse_bibtex`, written as deterministic
    scanners that reproduce the regex crate's leftmost-first matching over
    ASCII text:

      entry pattern   @(\w+)\s*\{\s*([^,]+),([^@]*)
      field pattern   (\w+)\s*=\s*[{"]((?:[^{}"]|(?:\{[^}]*\}))*)[}"]

    `captures_iter` tries each start position in turn; after a failed attempt
    the search moves on by one character, after a match it resumes where the
    match ended. Both patterns always consume at least one character. */
module BibScan {
  import opened Options
  import opened Ascii
  import opened Strings

  /** One match of the entry pattern: its capture groups (entry type, raw key,
      field block) and the length of the matched text. */
  datatype EntryMatch = EntryMatch(kind: string, key: string, fields: string, len: nat)

  /** One match of the field pattern: field name, raw value, matched length. */
  datatype FieldMatch = FieldMatch(name: string, value: string, len: nat)

  // ---------------------------------------------------------------- entries

  predicate NotComma(c: char) { c != ',' }
  predicate NotAt(c: char) { c != '@' }

  /** The entry pattern anchored at the start of `s`.

      `\w+` and `\s*` are followed by characters outside their class, so
      their greedy choice never needs revising. In `\s*([^,]+),` the greedy
      `\s*` takes all the white space; `[^,]+` then runs to the first comma.
      When that comma follows the white space directly, `[^,]+` would be
      empty, so the engine gives one white-space character back to it; with
      no white space to give back there is no match. `[^,]+` crosses line
      breaks and `@`, so an entry without a comma runs on into the next one.
      `[^@]*` stops at the next `@`, wherever it is. */
  function MatchEntry(s: string): (r: Option<EntryMatch>)
    ensures r.Some? ==> 0 < r.value.len <= |s|
  {
    if |s| == 0 || s[0] != '@' then None
    else
      var w := SpanEnd(s, 1, IsWordChar);
      var b := SpanEnd(s, w, IsSpace);
      if w == 1 || b == |s| || s[b] != '{' then None
      else EntryAfterBrace(s, w, b + 1)
  }

  /** The rest of the entry pattern, from just after the `{` at `k0 - 1`:
      `\s*([^,]+),([^@]*)`. */
  function EntryAfterBrace(s: string, w: nat, k0: nat): (r: Option<EntryMatch>)
    requires 1 <= w < k0 <= |s|
    ensures r.Some? ==> k0 < r.value.len <= |s|
  {
    var k1 := SpanEnd(s, k0, IsSpace);
    var c := SpanEnd(s, k1, NotComma);
    if c == |s| || (c == k1 && k1 == k0) then None
    else
      var key := if c > k1 then s[k1..c] else s[k1 - 1..c];
      var e := SpanEnd(s, c + 1, NotAt);
      Some(EntryMatch(s[1..w], key, s[c + 1..e], e))
  }

  /** An entry match starts at `@`, captures a non-empty entry type of word
      characters, and ends at the end of the text or at the next `@`. */
  lemma MatchEntryBounds(s: string)
    requires MatchEntry(s).Some?
    ensures var m := MatchEntry(s).value;
      && s[0] == '@' && |m.kind| > 0 && All(m.kind, IsWordChar)
      && (m.len == |s| || s[m.len] == '@')
  {
    SpanAll(s, 1, IsWordChar);
  }

  /** The key capture of an entry match is non-empty and holds no comma. */
  lemma MatchEntryKey(s: string)
    requires MatchEntry(s).Some?
    ensures |MatchEntry(s).value.key| > 0 && NoChar(MatchEntry(s).value.key, ',')
  {
    var w := SpanEnd(s, 1, IsWordChar);
    var b := SpanEnd(s, w, IsSpace);
    var k1 := SpanEnd(s, b + 1, IsSpace);
    var c := SpanEnd(s, k1, NotComma);
    SliceNoChar(s, if c > k1 then k1 else k1 - 1, c, ',');
  }

  /** The field block of an entry match holds no `@`. */
  lemma MatchEntryFields(s: string)
    requires MatchEntry(s).Some?
    ensures NoChar(MatchEntry(s).value.fields, '@')
  {
    var w := SpanEnd(s, 1, IsWordChar);
    var b := SpanEnd(s, w, IsSpace);
    var k1 := SpanEnd(s, b + 1, IsSpace);
    var c := SpanEnd(s, k1, NotComma);
    SliceNoChar(s, c + 1, SpanEnd(s, c + 1, NotAt), '@');
  }

  /** The key and the field block after the `{`: the key runs from `k0` up
      to the first comma at `c`, the field block from there to `e`, the end
      of the text or the next `@`. */
  lemma EntryAfterBraceAt(s: string, w: nat, k0: nat, c: nat, e: nat)
    requires 1 <= w < k0 < c < |s| && c < e <= |s|
    requires !IsSpace(s[k0])
    requires (forall k :: k0 <= k < c ==> NotComma(s[k])) && s[c] == ','
    requires (forall k :: c + 1 <= k < e ==> NotAt(s[k])) && (e == |s| || s[e] == '@')
    ensures EntryAfterBrace(s, w, k0) == Some(EntryMatch(s[1..w], s[k0..c], s[c + 1..e], e))
  {
    SpanEndIs(s, k0, k0, IsSpace);
    SpanEndIs(s, k0, c, NotComma);
    SpanEndIs(s, c + 1, e, NotAt);
  }

  /** An entry match read off the positions of its parts: the word after
      `@` ends at `w`, the brace is at `b`, the key runs from `b + 1` up to
      the first comma at `c`, and the field block from there to `e`, the end
      of the text or the next `@`. Nothing keeps `@` or a line break out of
      the key: an entry without a comma takes in the next entry's header. */
  lemma MatchEntryAt(s: string, w: nat, b: nat, c: nat, e: nat)
    requires 1 < w <= b && b + 1 < c < |s| && c < e <= |s|
    requires s[0] == '@' && (forall k :: 1 <= k < w ==> IsWordChar(s[k]))
    requires forall k :: w <= k < b ==> IsSpace(s[k])
    requires s[b] == '{' && !IsSpace(s[b + 1])
    requires (forall k :: b + 1 <= k < c ==> NotComma(s[k])) && s[c] == ','
    requires (forall k :: c + 1 <= k < e ==> NotAt(s[k])) && (e == |s| || s[e] == '@')
    ensures MatchEntry(s) == Some(EntryMatch(s[1..w], s[b + 1..c], s[c + 1..e], e))
  {
    EntryAfterBraceAt(s, w, b + 1, c, e);
    MatchEntryHead(s, w, b);
  }

  /** The head of an entry: `@`, the word ending at `w`, white space up to
      the `{` at `b`. */
  lemma MatchEntryHead(s: string, w: nat, b: nat)
    requires 1 < w <= b < |s|
    requires s[0] == '@' && (forall k :: 1 <= k < w ==> IsWordChar(s[k]))
    requires forall k :: w <= k < b ==> IsSpace(s[k])
    requires s[b] == '{'
    ensures MatchEntry(s) == EntryAfterBrace(s, w, b + 1)
  {
    HeadSpans(s, w, b);
  }

  lemma HeadSpans(s: string, w: nat, b: nat)
    requires 1 < w <= b < |s|
    requires forall k :: 1 <= k < w ==> IsWordChar(s[k])
    requires forall k :: w <= k < b ==> IsSpace(s[k])
    requires s[b] == '{'
    ensures SpanEnd(s, 1, IsWordChar) == w && SpanEnd(s, w, IsSpace) == b
  {
    assert !IsWordChar(s[w]) by {
      if w < b { assert IsSpace(s[w]); }
    }
    SpanEndIs(s, 1, w, IsWordChar);
    SpanEndIs(s, w, b, IsSpace);
  }

  /** All entry matches, in source order. */
  function ScanEntries(s: string): (r: seq<EntryMatch>)
    decreases |s|
  {
    if |s| == 0 then []
    else match MatchEntry(s)
      case Some(m) => [m] + ScanEntries(s[m.len..])
      case None => ScanEntries(s[1..])
  }

  /** The scan passes over text holding no `@`: entries start only there. */
  lemma {:induction false} ScanEntriesSkip(x: string, s: string)
    requires forall k :: 0 <= k < |x| ==> x[k] != '@'
    decreases |x|
    ensures ScanEntries(x + s) == ScanEntries(s)
  {
    if |x| == 0 {
      assert x + s == s;
    } else {
      var t := x + s;
      assert t[0] == x[0];
      assert t[1..] == x[1..] + s;
      ScanEntriesSkip(x[1..], s);
    }
  }

  // ---------------------------------------------------------------- fields

  /** A character the value loop takes on its own. */
  predicate Plain(c: char) {
    c != '{' && c != '}' && c != '"'
  }

  predicate NotRightBrace(c: char) {
    c != '}'
  }

  /** How much of `t` the value loop `(?:[^{}"]|(?:\{[^}]*\}))*` takes: each
      step takes one character other than `{`, `}` and `"`, or a `{`
      together with everything up to and including the next `}`. A `{` with
      no `}` after it ends the loop, as do `}` and `"`. */
  function LoopLen(t: string): nat
    decreases |t|
  {
    if |t| == 0 then 0
    else if Plain(t[0]) then 1 + LoopLen(t[1..])
    else if t[0] == '{' then
      var j := SpanEnd(t, 1, NotRightBrace);
      if j == |t| then 0 else j + 1 + LoopLen(t[j + 1..])
    else 0
  }

  /** Where the value loop stops when started at position `i` of `s`. */
  function ValueEnd(s: string, i: nat): (r: nat)
    requires i <= |s|
    decreases |s| - i
    ensures i <= r
  {
    if i == |s| then i
    else if Plain(s[i]) then ValueEnd(s, i + 1)
    else if s[i] == '{' then
      var j := SpanEnd(s, i + 1, NotRightBrace);
      if j == |s| then i else ValueEnd(s, j + 1)
    else i
  }

  predicate IsOpener(c: char) { c == '{' || c == '"' }
  predicate IsCloser(c: char) { c == '}' || c == '"' }

  /** The field pattern anchored at the start of `s`. The opener and the
      closer are chosen independently: `{` may be closed by `"` and the other
      way round. The value loop stops only at `}`, `"`, an unclosed `{` or
      the end; only the first two can be closers, and giving loop steps back
      exposes a character that cannot close either, so the first stopping
      point decides the match. A bare value such as `year = 2020` has no
      opener and does not match. */
  function MatchField(s: string): (r: Option<FieldMatch>)
    ensures r.Some? ==> 0 < r.value.len <= |s|
    ensures r.Some? ==> |r.value.name| > 0 && All(r.value.name, IsWordChar)
  {
    var n := SpanEnd(s, 0, IsWordChar);
    var a := SpanEnd(s, n, IsSpace);
    if n == 0 || a == |s| || s[a] != '=' then None
    else
      var b := SpanEnd(s, a + 1, IsSpace);
      if b == |s| || !IsOpener(s[b]) then None
      else
        var e := ValueEnd(s, b + 1);
        if e >= |s| || !IsCloser(s[e]) then None
        else Some(FieldMatch(s[..n], s[b + 1..e], e + 1))
  }

  /** All field matches in one entry's field block, in order. */
  function ScanFields(s: string): (r: seq<FieldMatch>)
    decreases |s|
  {
    if |s| == 0 then []
    else match MatchField(s)
      case Some(m) => [m] + ScanFields(s[m.len..])
      case None => ScanFields(s[1..])
  }

  // ---------------------------------------------------------------- values

  /** A value the value loop takes in whole: characters other than braces
      and quotes, and `{` groups, each closed by the first `}` after it. */
  predicate LoopValue(v: string) {
    LoopLen(v) == |v|
  }

  /** The loop stops at a closer: run over a whole loop value followed by a
      closer, it takes exactly the value. */
  lemma {:induction false} LoopLenStops(v: string, t: string)
    requires LoopValue(v) && |t| > 0 && IsCloser(t[0])
    decreases |v|
    ensures LoopLen(v + t) == |v|
  {
    var s := v + t;
    if |v| == 0 {
      assert s == t;
    } else if Plain(v[0]) {
      assert s[0] == v[0];
      assert s[1..] == v[1..] + t;
      LoopLenStops(v[1..], t);
    } else {
      assert s[0] == v[0];
      var j := SpanEnd(v, 1, NotRightBrace);
      GroupSpan(v, t, j);
      assert s[j + 1..] == v[j + 1..] + t;
      LoopLenStops(v[j + 1..], t);
    }
  }

  /** A group closed inside `v` closes at the same place in `v + t`. */
  lemma GroupSpan(v: string, t: string, j: nat)
    requires 1 <= |v| && j == SpanEnd(v, 1, NotRightBrace) && j < |v|
    ensures SpanEnd(v + t, 1, NotRightBrace) == j
  {
    var s := v + t;
    forall k | 1 <= k < j ensures NotRightBrace(s[k]) {
      assert s[k] == v[k];
    }
    assert s[j] == v[j];
    SpanEndIs(s, 1, j, NotRightBrace);
  }

  /** Text without braces or quotes is a loop value. */
  lemma {:induction false} PlainLoopValue(x: string)
    requires All(x, Plain)
    decreases |x|
    ensures LoopValue(x)
  {
    if |x| > 0 {
      assert Plain(x[0]);
      assert All(x[1..], Plain) by {
        forall k | 0 <= k < |x[1..]| ensures Plain(x[1..][k]) {
          assert x[1..][k] == x[k + 1];
        }
      }
      PlainLoopValue(x[1..]);
    }
  }

  /** A `{` group whose inside holds no `}`, then a loop value, is a loop
      value. */
  lemma GroupLoopValue(x: string, rest: string)
    requires NoChar(x, '}') && LoopValue(rest)
    ensures LoopValue("{" + x + "}" + rest)
  {
    var v := "{" + x + "}" + rest;
    forall k | 1 <= k < |x| + 1 ensures NotRightBrace(v[k]) {
      assert v[k] == x[k - 1];
    }
    assert v[|x| + 1] == '}';
    SpanEndIs(v, 1, |x| + 1, NotRightBrace);
    assert v[|x| + 2..] == rest;
  }

  /** Loop values followed by loop values are loop values. */
  lemma {:induction false} ConcatLoopValue(a: string, b: string)
    requires LoopValue(a) && LoopValue(b)
    decreases |a|
    ensures LoopValue(a + b)
  {
    var v := a + b;
    if |a| == 0 {
      assert v == b;
    } else if Plain(a[0]) {
      assert v[0] == a[0];
      assert v[1..] == a[1..] + b;
      ConcatLoopValue(a[1..], b);
    } else {
      assert v[0] == a[0];
      var j := SpanEnd(a, 1, NotRightBrace);
      GroupSpan(a, b, j);
      assert v[j + 1..] == a[j + 1..] + b;
      ConcatLoopValue(a[j + 1..], b);
    }
  }

  // ---------------------------------------------------------------- fields read back

  /** The field pattern read off the positions its parts end at. */
  lemma MatchFieldAt(s: string, n: nat, a: nat, b: nat, e: nat)
    requires 0 < n <= |s| && SpanEnd(s, 0, IsWordChar) == n
    requires a < |s| && SpanEnd(s, n, IsSpace) == a && s[a] == '='
    requires b < |s| && SpanEnd(s, a + 1, IsSpace) == b && IsOpener(s[b])
    requires e < |s| && ValueEnd(s, b + 1) == e && IsCloser(s[e])
    ensures MatchField(s) == Some(FieldMatch(s[..n], s[b + 1..e], e + 1))
  {
    assert n != 0 && a != |s| && s[a] == '=';
    assert b != |s| && IsOpener(s[b]);
    assert e != |s| && IsCloser(s[e]);
  }

  /** Started at `i`, the value loop takes `LoopLen` of the rest of the
      text. */
  lemma {:induction false} ValueEndLoop(s: string, i: nat)
    requires i <= |s|
    decreases |s| - i
    ensures ValueEnd(s, i) == i + LoopLen(s[i..])
  {
    if i < |s| {
      if Plain(s[i]) {
        ValueEndLoop(s, i + 1);
        PlainStep(s, i);
      } else if s[i] == '{' {
        var j := SpanEnd(s, i + 1, NotRightBrace);
        if j < |s| {
          ValueEndLoop(s, j + 1);
        }
        GroupStep(s, i, j);
      } else {
        LoopLenCloser(s, i);
        ValueEndCloser(s, i);
      }
    }
  }

  lemma PlainStep(s: string, i: nat)
    requires i < |s| && Plain(s[i])
    requires ValueEnd(s, i + 1) == i + 1 + LoopLen(s[i + 1..])
    ensures ValueEnd(s, i) == i + LoopLen(s[i..])
  {
    LoopLenPlain(s, i);
    ValueEndPlain(s, i);
  }

  lemma GroupStep(s: string, i: nat, j: nat)
    requires i < |s| && s[i] == '{' && j == SpanEnd(s, i + 1, NotRightBrace)
    requires j < |s| ==> ValueEnd(s, j + 1) == j + 1 + LoopLen(s[j + 1..])
    ensures ValueEnd(s, i) == i + LoopLen(s[i..])
  {
    LoopLenGroup(s, i, j);
    ValueEndGroup(s, i, j);
  }

  lemma ValueEndPlain(s: string, i: nat)
    requires i < |s| && Plain(s[i])
    ensures ValueEnd(s, i) == ValueEnd(s, i + 1)
  {
  }

  lemma ValueEndCloser(s: string, i: nat)
    requires i < |s| && !Plain(s[i]) && s[i] != '{'
    ensures ValueEnd(s, i) == i
  {
  }

  lemma ValueEndGroup(s: string, i: nat, j: nat)
    requires i < |s| && s[i] == '{' && j == SpanEnd(s, i + 1, NotRightBrace)
    ensures j == |s| ==> ValueEnd(s, i) == i
    ensures j < |s| ==> ValueEnd(s, i) == ValueEnd(s, j + 1)
  {
  }

  lemma LoopLenPlain(s: string, i: nat)
    requires i < |s| && Plain(s[i])
    ensures LoopLen(s[i..]) == 1 + LoopLen(s[i + 1..])
  {
    var t := s[i..];
    assert t[0] == s[i];
    assert t[1..] == s[i + 1..];
  }

  lemma LoopLenCloser(s: string, i: nat)
    requires i < |s| && !Plain(s[i]) && s[i] != '{'
    ensures LoopLen(s[i..]) == 0
  {
    assert s[i..][0] == s[i];
  }

  lemma LoopLenGroup(s: string, i: nat, j: nat)
    requires i < |s| && s[i] == '{' && j == SpanEnd(s, i + 1, NotRightBrace)
    ensures j == |s| ==> LoopLen(s[i..]) == 0
    ensures j < |s| ==> LoopLen(s[i..]) == j - i + 1 + LoopLen(s[j + 1..])
  {
    var t := s[i..];
    assert t[0] == s[i];
    SpanEndShift(s, i + 1, NotRightBrace);
    SpanEndShift(t, 1, NotRightBrace);
    assert t[1..] == s[i + 1..];
    if j < |s| {
      assert t[j - i + 1..] == s[j + 1..];
    }
  }

  /** A loop value right after the opener at `b`, followed by a closer, is
      where the value loop stops. */
  lemma ValueFound(s: string, b: nat, v: string, t: string)
    requires b < |s| && s[b + 1..] == v + t && LoopValue(v) && |t| > 0 && IsCloser(t[0])
    ensures b + 1 + |v| < |s| && ValueEnd(s, b + 1) == b + 1 + |v|
    ensures IsCloser(s[b + 1 + |v|]) && s[b + 1..b + 1 + |v|] == v
  {
    ValueEndLoop(s, b + 1);
    LoopLenStops(v, t);
    var e := b + 1 + |v|;
    assert s[e] == t[0] by {
      assert s[b + 1..][|v|] == (v + t)[|v|];
    }
    assert s[b + 1..e] == s[b + 1..][..|v|];
  }

  /** Only braced or quoted values are captured: when the first character
      after `=` and its white space opens neither, the field pattern fails
      here. */
  lemma MatchFieldBare(s: string, n: nat, a: nat, b: nat)
    requires 0 < n <= |s| && SpanEnd(s, 0, IsWordChar) == n
    requires a < |s| && SpanEnd(s, n, IsSpace) == a && s[a] == '='
    requires SpanEnd(s, a + 1, IsSpace) == b && (b == |s| || !IsOpener(s[b]))
    ensures MatchField(s) == None
  {
  }

  /** A `{` group inside a value closes at the first `}` after it, whatever
      `{` it holds: over plain text, a group, plain text and a closer, the
      loop takes everything before the closer. A second level of nesting is
      therefore cut short: in `{A {B {C} D} E}` the inner `}` closes the outer
      group and the value ends at the second `}`. */
  lemma {:induction false} FirstBraceCloses(p: string, x: string, q: string, t: string)
    requires All(p, Plain) && NoChar(x, '}') && All(q, Plain)
    requires |t| > 0 && IsCloser(t[0])
    ensures LoopLen(p + "{" + x + "}" + q + t) == |p| + |x| + 2 + |q|
  {
    var v := p + "{" + x + "}" + q;
    GroupedLoopValue(p, x, q, v);
    LoopLenStops(v, t);
  }

  /** Plain text, a `{` group holding no `}`, then plain text is a loop value. */
  lemma {:induction false} GroupedLoopValue(p: string, x: string, q: string, v: string)
    requires All(p, Plain) && NoChar(x, '}') && All(q, Plain)
    requires v == p + "{" + x + "}" + q
    ensures LoopValue(v)
  {
    PlainLoopValue(q);
    GroupLoopValue(x, q);
    PlainLoopValue(p);
    ConcatLoopValue(p, "{" + x + "}" + q);
    assert v == p + ("{" + x + "}" + q);
  }

  /** One level of nested braces is kept in a value: in `{A {B} C}` the loop
      takes the inner group whole and stops at the outer `}`. */
  lemma NestedValue()
    ensures LoopLen("A {B} C}") == |"A {B} C"|
  {
    assert All("A ", Plain) && All(" C", Plain) && NoChar("B", '}');
    FirstBraceCloses("A ", "B", " C", "}");
    assert "A " + "{" + "B" + "}" + " C" + "}" == "A {B} C}";
  }

  /** The scan passes over text holding no word character. */
  lemma {:induction false} ScanFieldsSkip(x: string, s: string)
    requires forall k :: 0 <= k < |x| ==> !IsWordChar(x[k])
    decreases |x|
    ensures ScanFields(x + s) == ScanFields(s)
  {
    if |x| == 0 {
      assert x + s == s;
    } else {
      var t := x + s;
      assert t[0] == x[0];
      SpanEndIs(t, 0, 0, IsWordChar);
      assert t[1..] == x[1..] + s;
      ScanFieldsSkip(x[1..], s);
    }
  }
}
