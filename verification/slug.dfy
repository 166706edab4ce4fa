/** `slugify` of src-tauri/src/blog.rs: a title turned into the name of the
    post's directory. */
module Slugs {
  import opened Ascii
  import opened Strings

  /** A character kept by `slugify`, or `-` for any other. */
  function DashFor(c: char): char {
    if IsAlnum(c) then c else '-'
  }

  /** The character map of `slugify`: letters and digits stay, everything
      else becomes `-`. */
  function Dashed(s: string): (r: string)
    ensures |r| == |s|
    ensures forall i :: 0 <= i < |s| ==> r[i] == DashFor(s[i])
  {
    if |s| == 0 then "" else [DashFor(s[0])] + Dashed(s[1..])
  }

  /** The non-empty parts, in order. */
  function NonEmpty(parts: seq<string>): (r: seq<string>)
    ensures forall x :: x in r ==> x in parts && |x| > 0
  {
    if |parts| == 0 then []
    else (if |parts[0]| > 0 then [parts[0]] else []) + NonEmpty(parts[1..])
  }

  /** `slugify`: lower-case, map every other character to `-`, and join the
      non-empty runs between dashes with single dashes. */
  function Slugify(text: string): string {
    Join(NonEmpty(Split(Dashed(Lower(text)), '-')), "-")
  }

  predicate IsLowerAlnum(c: char) {
    IsDigit(c) || IsLowerLetter(c)
  }

  /** A well-formed slug: lower-case letters, digits and dashes, no dash at
      either end and never two dashes in a row. */
  predicate IsSlug(s: string) {
    && (forall i :: 0 <= i < |s| ==> IsLowerAlnum(s[i]) || s[i] == '-')
    && (|s| > 0 ==> s[0] != '-' && s[|s| - 1] != '-')
    && (forall i :: 0 <= i < |s| - 1 ==> s[i] != '-' || s[i + 1] != '-')
  }

  /** A run of lower-case letters and digits. */
  predicate IsWord(p: string) {
    |p| > 0 && All(p, IsLowerAlnum)
  }

  // ---------------------------------------------------------------- shape

  /** Words joined with single dashes form a slug, which is empty only when
      there are no words. */
  lemma {:induction false} JoinWordsIsSlug(parts: seq<string>)
    requires forall k :: 0 <= k < |parts| ==> IsWord(parts[k])
    ensures IsSlug(Join(parts, "-"))
    ensures |parts| > 0 ==> |Join(parts, "-")| > 0
  {
    if |parts| > 1 {
      var p := parts[0];
      var rest := Join(parts[1..], "-");
      JoinWordsIsSlug(parts[1..]);
      var s := p + "-" + rest;
      assert Join(parts, "-") == s;
      assert forall i :: 0 <= i < |p| ==> s[i] == p[i];
      assert forall i :: |p| < i < |s| ==> s[i] == rest[i - |p| - 1];
      assert IsLowerAlnum(p[|p| - 1]);
      assert IsLowerAlnum(rest[0]);
      assert s[|s| - 1] == rest[|rest| - 1];
    } else if |parts| == 1 {
      assert IsLowerAlnum(parts[0][0]);
      assert IsLowerAlnum(parts[0][|parts[0]| - 1]);
    }
  }

  /** After lower-casing and dashing, every character is a letter, a digit
      or a dash. */
  lemma DashedLowerChars(text: string)
    ensures forall i :: 0 <= i < |text| ==>
      IsLowerAlnum(Dashed(Lower(text))[i]) || Dashed(Lower(text))[i] == '-'
  {
  }

  /** The parts between dashes of such text are runs of letters and digits. */
  lemma {:induction false} SplitSlugChars(s: string)
    requires forall i :: 0 <= i < |s| ==> IsLowerAlnum(s[i]) || s[i] == '-'
    decreases |s|
    ensures forall k :: 0 <= k < |Split(s, '-')| ==> All(Split(s, '-')[k], IsLowerAlnum)
  {
    var j := SpanEnd(s, 0, Differs('-'));
    if j < |s| {
      SplitSlugChars(s[j + 1..]);
      assert forall i :: 0 <= i < j ==> s[..j][i] == s[i] && Differs('-')(s[i]);
    } else {
      assert forall i :: 0 <= i < |s| ==> Differs('-')(s[i]);
    }
  }

  /** The result of `slugify` is always a well-formed slug. */
  lemma SlugifyIsSlug(text: string)
    ensures IsSlug(Slugify(text))
  {
    var s := Dashed(Lower(text));
    DashedLowerChars(text);
    SplitSlugChars(s);
    var parts := NonEmpty(Split(s, '-'));
    assert forall k :: 0 <= k < |parts| ==> parts[k] in Split(s, '-');
    JoinWordsIsSlug(parts);
  }

  // ---------------------------------------------------------------- idempotence

  /** Keeping the non-empty parts of non-empty parts changes nothing. */
  lemma {:induction false} NonEmptyOfWords(parts: seq<string>)
    requires forall k :: 0 <= k < |parts| ==> |parts[k]| > 0
    ensures NonEmpty(parts) == parts
  {
    if |parts| > 0 {
      NonEmptyOfWords(parts[1..]);
    }
  }

  /** Every slug is made of words joined with single dashes. */
  lemma SlugWords(s: string)
    requires IsSlug(s)
    ensures NonEmpty(Split(s, '-')) == Split(s, '-') || s == ""
    ensures forall k :: 0 <= k < |NonEmpty(Split(s, '-'))| ==> IsWord(NonEmpty(Split(s, '-'))[k])
    ensures Join(NonEmpty(Split(s, '-')), "-") == s
  {
    SplitSlugChars(s);
    var ps := Split(s, '-');
    JoinSplit(s, '-');
    if s == "" {
      SpanEndIs(s, 0, 0, Differs('-'));
      assert ps == [""];
      assert NonEmpty(ps) == [];
    } else {
      SlugPartsNonEmpty(s);
      NonEmptyOfWords(ps);
    }
  }

  /** The parts between the dashes of a non-empty slug are all non-empty. */
  lemma {:induction false} SlugPartsNonEmpty(s: string)
    requires IsSlug(s) && s != ""
    decreases |s|
    ensures forall k :: 0 <= k < |Split(s, '-')| ==> |Split(s, '-')[k]| > 0
  {
    var j := SpanEnd(s, 0, Differs('-'));
    assert j > 0;
    if j < |s| {
      var t := s[j + 1..];
      assert s[j] == '-';
      assert j + 1 < |s|;
      assert s[j + 1] != '-';
      assert IsSlug(t) by {
        assert forall i :: 0 <= i < |t| ==> t[i] == s[j + 1 + i];
      }
      SlugPartsNonEmpty(t);
    }
  }

  /** Lower-casing and dashing leave a slug alone. */
  lemma DashedLowerOfSlug(s: string)
    requires IsSlug(s)
    ensures Dashed(Lower(s)) == s
  {
    assert NoUpper(s) by {
      assert forall i :: 0 <= i < |s| ==> IsLowerAlnum(s[i]) || s[i] == '-';
    }
    LowerFixedIff(s);
    assert forall i :: 0 <= i < |s| ==> Dashed(s)[i] == s[i];
  }

  /** The slugs are exactly the texts `slugify` leaves unchanged. */
  lemma SlugifyFixedIff(s: string)
    ensures Slugify(s) == s <==> IsSlug(s)
  {
    if IsSlug(s) {
      DashedLowerOfSlug(s);
      SlugWords(s);
    } else {
      SlugifyIsSlug(s);
    }
  }

  /** Slugifying twice is slugifying once. */
  lemma SlugifyIdempotent(text: string)
    ensures Slugify(Slugify(text)) == Slugify(text)
  {
    SlugifyIsSlug(text);
    SlugifyFixedIff(Slugify(text));
  }

  // ---------------------------------------------------------------- contents

  /** The dashes between parts carry no letter or digit. */
  lemma {:induction false} FilterJoinDash(parts: seq<string>)
    ensures Filter(Join(parts, "-"), IsAlnum) == Filter(Join(parts, ""), IsAlnum)
  {
    if |parts| > 1 {
      var p := parts[0];
      var rest := parts[1..];
      FilterJoinDash(rest);
      assert Join(parts, "-") == (p + "-") + Join(rest, "-");
      assert Join(parts, "") == p + Join(rest, "");
      FilterConcat(p + "-", Join(rest, "-"), IsAlnum);
      FilterConcat(p, "-", IsAlnum);
      FilterConcat(p, Join(rest, ""), IsAlnum);
      assert Filter("-", IsAlnum) == "";
    }
  }

  /** Gluing parts together is the same without the empty ones. */
  lemma {:induction false} ConcatNonEmpty(parts: seq<string>)
    ensures Join(NonEmpty(parts), "") == Join(parts, "")
  {
    if |parts| > 0 {
      var p := parts[0];
      var rest := parts[1..];
      ConcatNonEmpty(rest);
      var ne := NonEmpty(rest);
      assert Join(parts, "") == p + Join(rest, "") by {
        if |rest| == 0 { assert Join(parts, "") == p; }
      }
      if |p| > 0 {
        assert NonEmpty(parts) == [p] + ne;
        assert Join([p] + ne, "") == p + Join(ne, "") by {
          if |ne| > 0 { JoinCons(p, ne, ""); }
        }
      } else {
        assert NonEmpty(parts) == ne;
      }
    }
  }

  /** Filtering letters and digits out of parts joined by dashes is the
      same with or without the empty parts. */
  lemma FilterJoin(parts: seq<string>)
    ensures Filter(Join(parts, "-"), IsAlnum) == Filter(Join(NonEmpty(parts), "-"), IsAlnum)
  {
    FilterJoinDash(parts);
    FilterJoinDash(NonEmpty(parts));
    ConcatNonEmpty(parts);
  }

  /** Dashing only touches characters that are neither letters nor digits. */
  lemma {:induction false} FilterDashed(s: string)
    decreases |s|
    ensures Filter(Dashed(s), IsAlnum) == Filter(s, IsAlnum)
  {
    if |s| > 0 {
      FilterDashed(s[1..]);
      assert Dashed(s)[1..] == Dashed(s[1..]);
    }
  }

  /** The slug keeps every letter and digit of the lower-cased text, in
      order, and no other letter or digit. */
  lemma SlugifyKeepsAlnum(text: string)
    ensures Filter(Slugify(text), IsAlnum) == Filter(Lower(text), IsAlnum)
  {
    var s := Dashed(Lower(text));
    JoinSplit(s, '-');
    FilterJoin(Split(s, '-'));
    FilterDashed(Lower(text));
  }

  /** Text filtered down to nothing holds no character of the class. */
  lemma {:induction false} FilterEmpty(s: string, f: char -> bool)
    decreases |s|
    ensures Filter(s, f) == "" <==> forall i :: 0 <= i < |s| ==> !f(s[i])
  {
    if |s| > 0 {
      FilterEmpty(s[1..], f);
      assert forall i :: 1 <= i < |s| ==> s[i] == s[1..][i - 1];
    }
  }

  /** The slug is empty exactly when the text has no letter or digit. */
  lemma SlugifyEmptyIff(text: string)
    ensures Slugify(text) == "" <==> forall i :: 0 <= i < |text| ==> !IsAlnum(text[i])
  {
    var r := Slugify(text);
    SlugifyKeepsAlnum(text);
    SlugifyIsSlug(text);
    FilterEmpty(r, IsAlnum);
    FilterEmpty(Lower(text), IsAlnum);
    if r != "" {
      assert IsAlnum(r[0]);
    }
  }
}
