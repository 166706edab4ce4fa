/** Reasoning about `str::find` on text assembled from pieces: where the first
    occurrence of a marker lies when the text is a fixed literal, a field
    value, another literal, and so on. */
module Search {
  import opened Options
  import opened Strings

  /** No occurrence of `p` starts at a position in `[lo, hi)`. */
  predicate NoneIn(s: string, p: string, lo: nat, hi: nat) {
    forall j: nat :: lo <= j < hi ==> !OccursAt(s, p, j)
  }

  /** The first occurrence of `p` in `s` starts at `k`: the fact `Find`
      reports, stated without unfolding the search itself. */
  predicate FirstAt(s: string, p: string, k: nat) {
    OccursAt(s, p, k) && NoneIn(s, p, 0, k)
  }

  /** `Find` reports the first occurrence. */
  lemma FindFirst(s: string, p: string, k: nat)
    requires FirstAt(s, p, k)
    ensures Find(s, p) == Some(k)
  {
    FindIs(s, p, k);
  }

  lemma OccursChar(s: string, p: string, j: nat, i: nat)
    requires OccursAt(s, p, j) && i < |p|
    ensures s[j + i] == p[i]
  {
    assert s[j..j + |p|][i] == s[j + i];
  }

  /** Occurrences to the right of a prefix are occurrences in the rest. */
  lemma OccursRight(x: string, y: string, p: string, j: nat)
    ensures OccursAt(x + y, p, |x| + j) <==> OccursAt(y, p, j)
  {
    if j + |p| <= |y| {
      assert (x + y)[|x| + j..|x| + j + |p|] == y[j..j + |p|];
    }
  }

  /** Skipping a prefix in which no occurrence starts. */
  lemma FirstSkip(x: string, y: string, p: string, k: nat)
    requires NoneIn(x + y, p, 0, |x|) && FirstAt(y, p, k)
    ensures FirstAt(x + y, p, |x| + k)
  {
    forall j: nat | |x| <= j
      ensures OccursAt(x + y, p, j) <==> OccursAt(y, p, j - |x|)
    {
      OccursRight(x, y, p, j - |x|);
    }
  }

  /** A text that starts with the marker has its first occurrence at 0. */
  lemma FirstStart(p: string, y: string)
    ensures FirstAt(p + y, p, 0)
  {
    assert (p + y)[0..|p|] == p;
  }

  /** Every start of the marker's first character in `x` is refuted by the
      character `k1` or `k2` places further on, inside `x`. */
  predicate Refuted(x: string, p: string, k1: nat, k2: nat) {
    && 0 < k1 < |p| && 0 < k2 < |p|
    && forall j {:trigger x[j]} :: 0 <= j < |x| && x[j] == p[0] ==>
      (j + k1 < |x| && x[j + k1] != p[k1]) || (j + k2 < |x| && x[j + k2] != p[k2])
  }

  /** A prefix in which every start of the marker's first character is
      refuted cannot hold the start of an occurrence. */
  lemma NoneInLiteral(x: string, y: string, p: string, k1: nat, k2: nat)
    requires Refuted(x, p, k1, k2)
    ensures NoneIn(x + y, p, 0, |x|)
  {
    var s := x + y;
    forall j: nat | j < |x| && OccursAt(s, p, j)
      ensures false
    {
      OccursChar(s, p, j, 0);
      assert x[j] == p[0];
      assert (j + k1 < |x| && x[j + k1] != p[k1]) || (j + k2 < |x| && x[j + k2] != p[k2]);
      if j + k1 < |x| && x[j + k1] != p[k1] {
        OccursChar(s, p, j, k1);
      } else {
        OccursChar(s, p, j, k2);
      }
    }
  }

  /** Refutation carries over to a concatenation. */
  lemma RefutedConcat(a: string, b: string, p: string, k1: nat, k2: nat)
    requires Refuted(a, p, k1, k2) && Refuted(b, p, k1, k2)
    ensures Refuted(a + b, p, k1, k2)
  {
    var s := a + b;
    forall j | 0 <= j < |s| && s[j] == p[0]
      ensures (j + k1 < |s| && s[j + k1] != p[k1]) || (j + k2 < |s| && s[j + k2] != p[k2])
    {
      if j < |a| {
        assert a[j] == p[0];
        assert (j + k1 < |a| && a[j + k1] != p[k1]) || (j + k2 < |a| && a[j + k2] != p[k2]);
      } else {
        var i := j - |a|;
        assert b[i] == p[0];
        assert (i + k1 < |b| && b[i + k1] != p[k1]) || (i + k2 < |b| && b[i + k2] != p[k2]);
      }
    }
  }

  /** A prefix holding none of some character of the marker, followed by text
      whose first character does not occur in the marker after its first
      position (so no occurrence can run across the joint). */
  lemma NoneInField(x: string, y: string, p: string, c: char)
    requires c in p && NoChar(x, c)
    requires |y| > 0
    requires forall m :: 0 < m < |p| && p[m] == y[0] ==> m + 1 < |p| && |y| > 1 && p[m + 1] != y[1]
    ensures NoneIn(x + y, p, 0, |x|)
  {
    var s := x + y;
    var ic: nat :| ic < |p| && p[ic] == c;
    forall j: nat | j < |x| && OccursAt(s, p, j)
      ensures false
    {
      if j + |p| <= |x| {
        OccursChar(s, p, j, ic);
      } else {
        var m := |x| - j;
        OccursChar(s, p, j, m);
        assert s[j + m] == y[0];
        if m + 1 < |p| {
          OccursChar(s, p, j, m + 1);
        }
      }
    }
  }

  /** As `NoneInField`, for a marker whose last character is the one that
      follows the field: an occurrence across the joint then needs the
      field to end with the rest of the marker, which is excluded. */
  lemma NoneInFieldBeforeLast(x: string, y: string, p: string, c: char)
    requires c in p && NoChar(x, c)
    requires |y| > 0 && |p| > 1 && p[|p| - 1] == y[0]
    requires forall m :: 0 < m < |p| - 1 ==> p[m] != y[0]
    requires !EndsWith(x, p[..|p| - 1])
    ensures NoneIn(x + y, p, 0, |x|)
  {
    var s := x + y;
    var ic: nat :| ic < |p| && p[ic] == c;
    forall j: nat | j < |x| && OccursAt(s, p, j)
      ensures false
    {
      if j + |p| <= |x| {
        OccursChar(s, p, j, ic);
      } else {
        OccursChar(s, p, j, |x| - j);
      }
    }
  }

  /** A field with no occurrence of the marker at all, followed by text
      whose first character does not occur in the marker after its first
      position. */
  lemma NoneInAbsent(x: string, y: string, p: string)
    requires !Contains(x, p)
    requires |y| > 0
    requires forall m :: 0 < m < |p| ==> p[m] != y[0]
    ensures NoneIn(x + y, p, 0, |x|)
  {
    var s := x + y;
    forall j: nat | j < |x| && OccursAt(s, p, j)
      ensures false
    {
      if j + |p| <= |x| {
        assert s[j..j + |p|] == x[j..j + |p|];
        assert OccursAt(x, p, j);
      } else {
        var m := |x| - j;
        OccursChar(s, p, j, m);
      }
    }
  }

  /** A text made of pieces none of which holds the marker's first
      character, up to the point where the marker starts. */
  lemma NoneBeforeChar(x: string, y: string, p: string)
    requires |p| > 0 && NoChar(x, p[0])
    ensures NoneIn(x + y, p, 0, |x|)
  {
    var s := x + y;
    forall j: nat | j < |x| && OccursAt(s, p, j)
      ensures false
    {
      OccursChar(s, p, j, 0);
    }
  }

  /** The first occurrence of `p` in `s` is the one followed by exactly `r`
      up to the end. Naming what follows, rather than the position, keeps
      the fact unchanged when pieces are added in front. */
  predicate FoundBefore(s: string, p: string, r: string) {
    EndsWith(s, p + r) && FirstAt(s, p, |s| - |p| - |r|)
  }

  /** What `Find` reports, and the text after the marker. */
  lemma FindFound(s: string, p: string, r: string)
    requires FoundBefore(s, p, r)
    ensures Find(s, p) == Some(|s| - |p| - |r|)
    ensures s[|s| - |r|..] == r
  {
    FindFirst(s, p, |s| - |p| - |r|);
    assert s[|s| - |r|..] == s[|s| - |p + r|..][|p|..];
  }

  lemma EndsWithMore(x: string, y: string, t: string)
    requires EndsWith(y, t)
    ensures EndsWith(x + y, t)
  {
    assert (x + y)[|x + y| - |t|..] == y[|y| - |t|..];
  }

  // The steps of a search over a text assembled from pieces: each carries
  // the first occurrence found in the rest past one more piece in front.

  lemma StepLiteral(x: string, y: string, p: string, k1: nat, k2: nat, r: string)
    requires Refuted(x, p, k1, k2) && FoundBefore(y, p, r)
    ensures FoundBefore(x + y, p, r)
  {
    NoneInLiteral(x, y, p, k1, k2);
    FirstSkip(x, y, p, |y| - |p| - |r|);
    EndsWithMore(x, y, p + r);
  }

  lemma StepField(x: string, y: string, p: string, c: char, r: string)
    requires c in p && NoChar(x, c)
    requires |y| > 0
    requires forall m :: 0 < m < |p| && p[m] == y[0] ==> m + 1 < |p| && |y| > 1 && p[m + 1] != y[1]
    requires FoundBefore(y, p, r)
    ensures FoundBefore(x + y, p, r)
  {
    NoneInField(x, y, p, c);
    FirstSkip(x, y, p, |y| - |p| - |r|);
    EndsWithMore(x, y, p + r);
  }

  lemma StepFieldBeforeLast(x: string, y: string, p: string, c: char, r: string)
    requires c in p && NoChar(x, c)
    requires |y| > 0 && |p| > 1 && p[|p| - 1] == y[0]
    requires forall m :: 0 < m < |p| - 1 ==> p[m] != y[0]
    requires !EndsWith(x, p[..|p| - 1])
    requires FoundBefore(y, p, r)
    ensures FoundBefore(x + y, p, r)
  {
    NoneInFieldBeforeLast(x, y, p, c);
    FirstSkip(x, y, p, |y| - |p| - |r|);
    EndsWithMore(x, y, p + r);
  }

  lemma StepAbsent(x: string, y: string, p: string, r: string)
    requires !Contains(x, p)
    requires |y| > 0
    requires forall m :: 0 < m < |p| ==> p[m] != y[0]
    requires FoundBefore(y, p, r)
    ensures FoundBefore(x + y, p, r)
  {
    NoneInAbsent(x, y, p);
    FirstSkip(x, y, p, |y| - |p| - |r|);
    EndsWithMore(x, y, p + r);
  }

  lemma StepBeforeChar(x: string, y: string, p: string, r: string)
    requires |p| > 0 && NoChar(x, p[0])
    requires FoundBefore(y, p, r)
    ensures FoundBefore(x + y, p, r)
  {
    NoneBeforeChar(x, y, p);
    FirstSkip(x, y, p, |y| - |p| - |r|);
    EndsWithMore(x, y, p + r);
  }

  /** The text from the first `open` through the first `close` after it. */
  function Cut(s: string, open: string, close: string): (r: Option<string>)
    ensures r.Some? ==> EndsWith(r.value, close)
    ensures r.Some? ==> Contains(s, open)
    ensures !Contains(s, open) ==> r.None?
  {
    match Find(s, open)
    case None => None
    case Some(start) =>
      match Find(s[start..], close)
      case None => None
      case Some(end) =>
        assert s[start..][..end + |close|] == s[start..start + end + |close|];
        Some(s[start..start + end + |close|])
  }

  /** The cut is `b` when the first `open` is followed by `r`, the text from
      there on is `b + z`, and the first `close` in it ends `b`. */
  lemma CutIs(s: string, open: string, r: string, close: string, b: string, z: string)
    requires FoundBefore(s, open, r) && open + r == b + z && FoundBefore(b + z, close, z)
    ensures Cut(s, open, close) == Some(b)
  {
    var start := |s| - |b + z|;
    var end := |b| - |close|;
    FindFound(s, open, r);
    FindFound(b + z, close, z);
    assert Find(s, open) == Some(start);
    assert s[start..] == b + z;
    assert Find(s[start..], close) == Some(end);
    assert s[start..][..end + |close|] == b;
    assert s[start..start + end + |close|] == b;
  }

  /** Two texts that agree on their first `n` characters agree on every
      occurrence that ends within them. */
  lemma OccursInPrefix(s: string, t: string, p: string, j: nat, n: nat)
    requires n <= |s| && n <= |t| && s[..n] == t[..n] && j + |p| <= n
    ensures OccursAt(s, p, j) <==> OccursAt(t, p, j)
  {
    assert s[j..j + |p|] == s[..n][j..j + |p|];
    assert t[j..j + |p|] == t[..n][j..j + |p|];
  }

  /** The first occurrence stays first in any text with the same prefix
      through the end of that occurrence. */
  lemma FirstInPrefix(s: string, t: string, p: string, k: nat)
    requires FirstAt(s, p, k)
    requires k + |p| <= |t| && s[..k + |p|] == t[..k + |p|]
    ensures FirstAt(t, p, k)
  {
    OccursInPrefix(s, t, p, k, k + |p|);
    forall j: nat | j < k ensures !OccursAt(t, p, j) {
      OccursInPrefix(s, t, p, j, k + |p|);
    }
  }

  /** A field free of `c` before text starting with `c`, searched for a
      label followed by `c`: no occurrence starts in the field unless the
      field ends with the label. */
  lemma StepFieldLabel(x: string, y: string, q: string, c: char, r: string)
    requires |q| > 0 && NoChar(q, c) && NoChar(x, c)
    requires |y| > 0 && y[0] == c
    requires !EndsWith(x, q)
    requires FoundBefore(y, q + [c], r)
    ensures FoundBefore(x + y, q + [c], r)
  {
    var p := q + [c];
    assert p[..|p| - 1] == q;
    assert p[|p| - 1] == c;
    StepFieldBeforeLast(x, y, p, c, r);
  }

  /** The marker at the front of the text. */
  lemma FoundStart(p: string, r: string)
    ensures FoundBefore(p + r, p, r)
  {
    FirstStart(p, r);
  }

  /** The marker right after a literal piece in which it cannot start. */
  lemma FoundAfterLiteral(x: string, p: string, r: string, k1: nat, k2: nat)
    requires Refuted(x, p, k1, k2)
    ensures FoundBefore(x + (p + r), p, r)
  {
    FoundStart(p, r);
    StepLiteral(x, p + r, p, k1, k2, r);
  }

  /** A value free of the closing character `c`, followed by `c`: the first
      `c` is the one right after the value. */
  lemma ValueThenClose(x: string, y: string, c: char)
    requires NoChar(x, c) && |y| > 0 && y[0] == c
    ensures Find(x + y, [c]) == Some(|x|) && (x + y)[..|x|] == x
  {
    NoneBeforeChar(x, y, [c]);
    assert y == [c] + y[1..];
    FirstStart([c], y[1..]);
    FirstSkip(x, y, [c], 0);
    FindFirst(x + y, [c], |x|);
  }

  lemma NoCharConcat(a: string, b: string, c: char)
    requires NoChar(a, c) && NoChar(b, c)
    ensures NoChar(a + b, c)
  {
    assert forall i :: 0 <= i < |a + b| ==> (a + b)[i] == if i < |a| then a[i] else b[i - |a|];
  }

  /** The rest after a prefix. */
  lemma DropPrefix(x: string, y: string, i: nat)
    requires i <= |y|
    ensures (x + y)[|x| + i..] == y[i..]
  {
  }
}
