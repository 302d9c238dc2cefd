/**
 * The slug generator shared by the category form of the back office and the
 * product-creation route of the server: lower-case the name, decompose it,
 * strip combining diacritical marks (U+0300..U+036F) and replace every
 * maximal run of characters outside `[a-z0-9]` by one `-`.
 *
 * Unicode decomposition (NFD) is not modelled: the pipeline is exact on
 * names made of ASCII characters and combining marks.
 */
module Slug {
  import Seqs
  import Text

  /** A character of the class `[a-z0-9]`. */
  predicate IsSlugAlnum(c: char) { 'a' <= c <= 'z' || '0' <= c <= '9' }

  /** A combining diacritical mark, U+0300 to U+036F. */
  predicate IsCombiningMark(c: char) { '\U{0300}' <= c <= '\U{036F}' }

  /** Only `[a-z0-9]` and `-`, and never two dashes in a row. */
  ghost predicate IsSlugText(t: string) {
    && (forall i :: 0 <= i < |t| ==> IsSlugAlnum(t[i]) || t[i] == '-')
    && (forall i :: 0 <= i < |t| - 1 ==> !(t[i] == '-' && t[i + 1] == '-'))
  }

  /** Removes every combining diacritical mark. */
  function StripMarks(s: string): (r: string)
    ensures |r| <= |s|
    ensures forall i :: 0 <= i < |r| ==> !IsCombiningMark(r[i])
    ensures r == Seqs.Filter(s, Seqs.Not(IsCombiningMark))
  {
    if s == [] then []
    else
      var rest := StripMarks(s[1..]);
      if IsCombiningMark(s[0]) then rest else [s[0]] + rest
  }

  /** Drops the run of non-`[a-z0-9]` characters at the front of `s`. */
  function SkipRun(s: string): (r: string)
    ensures |r| <= |s|
    ensures r == [] || IsSlugAlnum(r[0])
    ensures r == s[|s| - |r|..]
    ensures forall i :: 0 <= i < |s| - |r| ==> !IsSlugAlnum(s[i])
  {
    if s != [] && !IsSlugAlnum(s[0]) then SkipRun(s[1..]) else s
  }

  /** `.replace(/[^a-z0-9]+/g, '-')`. */
  function CollapseRuns(s: string): (r: string)
    ensures IsSlugText(r)
    ensures |r| <= |s|
    ensures s == [] <==> r == []
    ensures s != [] ==> (IsSlugAlnum(r[0]) <==> IsSlugAlnum(s[0]))
    decreases |s|
  {
    if s == [] then []
    else if IsSlugAlnum(s[0]) then [s[0]] + CollapseRuns(s[1..])
    else ['-'] + CollapseRuns(SkipRun(s[1..]))
  }

  /** A letter or digit is copied, and collapsing goes on after it. */
  lemma CollapseRunsAlnum(c: char, v: string)
    requires IsSlugAlnum(c)
    ensures CollapseRuns([c] + v) == [c] + CollapseRuns(v)
  {
    assert ([c] + v)[1..] == v;
  }

  /** Skipping a whole run that is followed by a letter, a digit or the end leaves exactly what follows. */
  lemma {:induction false} SkipRunOfRun(w: string, v: string)
    requires forall i :: 0 <= i < |w| ==> !IsSlugAlnum(w[i])
    requires v == [] || IsSlugAlnum(v[0])
    ensures SkipRun(w + v) == v
  {
    if w == [] {
      assert w + v == v;
    } else {
      assert (w + v)[0] == w[0];
      assert (w + v)[1..] == w[1..] + v;
      SkipRunOfRun(w[1..], v);
    }
  }

  /**
   * A maximal run of characters outside `[a-z0-9]` (non-empty, followed by
   * a letter, a digit or the end) becomes exactly one `-`.
   */
  lemma CollapseRunsRun(w: string, v: string)
    requires w != [] && forall i :: 0 <= i < |w| ==> !IsSlugAlnum(w[i])
    requires v == [] || IsSlugAlnum(v[0])
    ensures CollapseRuns(w + v) == "-" + CollapseRuns(v)
  {
    assert (w + v)[0] == w[0];
    assert (w + v)[1..] == w[1..] + v;
    SkipRunOfRun(w[1..], v);
  }

  /** The slug of a name, as both the back office and the server compute it. */
  function Slugify(nome: string): (r: string)
    ensures IsSlugText(r)
    ensures |r| <= |nome|
  {
    CollapseRuns(StripMarks(Text.ToLower(nome)))
  }

  /** The `[a-z0-9]` characters of `s`, in order. */
  function AlnumOnly(s: string): (r: string)
  {
    if s == [] then [] else (if IsSlugAlnum(s[0]) then [s[0]] else []) + AlnumOnly(s[1..])
  }

  /** Skipping a run loses no `[a-z0-9]` character. */
  lemma {:induction false} SkipRunKeepsAlnum(s: string)
    ensures AlnumOnly(SkipRun(s)) == AlnumOnly(s)
  {
    if s != [] && !IsSlugAlnum(s[0]) {
      SkipRunKeepsAlnum(s[1..]);
    }
  }

  /** Collapsing keeps every `[a-z0-9]` character, in order, and adds none. */
  lemma {:induction false} CollapseRunsKeepsAlnum(s: string)
    ensures AlnumOnly(CollapseRuns(s)) == AlnumOnly(s)
    decreases |s|
  {
    if s != [] {
      if IsSlugAlnum(s[0]) {
        CollapseRunsKeepsAlnum(s[1..]);
        var r := [s[0]] + CollapseRuns(s[1..]);
        assert r[0] == s[0] && r[1..] == CollapseRuns(s[1..]);
      } else {
        SkipRunKeepsAlnum(s[1..]);
        CollapseRunsKeepsAlnum(SkipRun(s[1..]));
        var r := ['-'] + CollapseRuns(SkipRun(s[1..]));
        assert r[0] == '-' && r[1..] == CollapseRuns(SkipRun(s[1..]));
      }
    }
  }

  /** A slug text is left as it is by the collapsing step. */
  lemma {:induction false} CollapseRunsFixpoint(t: string)
    requires IsSlugText(t)
    ensures CollapseRuns(t) == t
    decreases |t|
  {
    if t != [] {
      var rest := t[1..];
      SlugTextTail(t);
      CollapseRunsFixpoint(rest);
      assert t == [t[0]] + rest;
      if !IsSlugAlnum(t[0]) {
        assert rest == [] || IsSlugAlnum(rest[0]) by {
          if rest != [] {
            assert t[0] == '-' && rest[0] == t[1];
          }
        }
        assert SkipRun(rest) == rest;
      }
    }
  }

  /** Dropping the first character of a slug text leaves a slug text. */
  lemma SlugTextTail(t: string)
    requires IsSlugText(t) && t != []
    ensures IsSlugText(t[1..])
  {
    var rest := t[1..];
    forall i | 0 <= i < |rest| ensures IsSlugAlnum(rest[i]) || rest[i] == '-' {
      assert rest[i] == t[i + 1];
    }
    forall i | 0 <= i < |rest| - 1 ensures !(rest[i] == '-' && rest[i + 1] == '-') {
      assert rest[i] == t[i + 1] && rest[i + 1] == t[i + 2];
    }
  }

  /** A string without combining marks is left as it is by the stripping step. */
  lemma {:induction false} StripMarksIdentity(s: string)
    requires forall i :: 0 <= i < |s| ==> !IsCombiningMark(s[i])
    ensures StripMarks(s) == s
  {
    if s != [] {
      StripMarksIdentity(s[1..]);
    }
  }

  /** The letters and digits of the name (after lower-casing and stripping marks) survive in order. */
  lemma SlugKeepsAlnum(nome: string)
    ensures AlnumOnly(Slugify(nome)) == AlnumOnly(StripMarks(Text.ToLower(nome)))
  {
    CollapseRunsKeepsAlnum(StripMarks(Text.ToLower(nome)));
  }

  /** The slug of a slug is the slug itself. */
  lemma SlugIdempotent(nome: string)
    ensures Slugify(Slugify(nome)) == Slugify(nome)
  {
    var t := Slugify(nome);
    Text.ToLowerIdentity(t);
    StripMarksIdentity(t);
    CollapseRunsFixpoint(t);
  }
}
