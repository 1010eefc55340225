/** `slugify`: turns a heading title into the anchor slug used in file
    names, URLs and in-document links. The script runs under Python 2 on
    byte strings in the C locale, so `isalnum` and `lower` only know ASCII;
    every other character is treated as punctuation and dropped. */
module Slug {

  /** `c.isalnum()` on an ASCII character. */
  predicate IsAlnum(c: char) {
    'a' <= c <= 'z' || 'A' <= c <= 'Z' || '0' <= c <= '9'
  }

  /** The characters a slug is made of: lower-case letters, digits and '-'. */
  predicate IsSlugChar(c: char) {
    'a' <= c <= 'z' || '0' <= c <= '9' || c == '-'
  }

  predicate IsSlug(s: string) {
    forall i | 0 <= i < |s| :: IsSlugChar(s[i])
  }

  /** `c.lower()` on an ASCII character. */
  function Lower(c: char): (r: char)
    ensures IsAlnum(c) ==> IsSlugChar(r) && r != '-'
    ensures 'A' <= c <= 'Z' ==> r != c
    ensures !('A' <= c <= 'Z') ==> r == c
  {
    if 'A' <= c <= 'Z' then (c as int - 'A' as int + 'a' as int) as char else c
  }

  /** The comprehension's filter: keep letters, digits, spaces and '-'. */
  function Keep(t: string): (r: string)
    ensures |r| <= |t|
    ensures forall i | 0 <= i < |r| :: IsAlnum(r[i]) || r[i] == ' ' || r[i] == '-'
  {
    if t == [] then []
    else (if IsAlnum(t[0]) || t[0] == ' ' || t[0] == '-' then [t[0]] else []) + Keep(t[1..])
  }

  /** `.replace(" ", "-")` */
  function SpacesToDashes(s: string): (r: string)
    ensures |r| == |s|
    ensures forall i | 0 <= i < |s| :: r[i] == (if s[i] == ' ' then '-' else s[i])
  {
    if s == [] then [] else [if s[0] == ' ' then '-' else s[0]] + SpacesToDashes(s[1..])
  }

  /** `.lower()` */
  function LowerAll(s: string): (r: string)
    ensures |r| == |s|
    ensures forall i | 0 <= i < |s| :: r[i] == Lower(s[i])
  {
    if s == [] then [] else [Lower(s[0])] + LowerAll(s[1..])
  }

  /** split.py's `slugify`, composed as the script composes it. */
  function Slugify(title: string): (r: string)
    ensures IsSlug(r)
    ensures |r| <= |title|
  {
    LowerAll(SpacesToDashes(Keep(title)))
  }

  /** What one input character contributes to the slug: a space or '-'
      becomes '-', a letter or digit its lower-case self, anything else
      nothing. */
  function SlugOfChar(c: char): string
  {
    if c == ' ' || c == '-' then "-"
    else if IsAlnum(c) then [Lower(c)]
    else []
  }

  lemma {:induction false} KeepAppend(a: string, b: string)
    ensures Keep(a + b) == Keep(a) + Keep(b)
  {
    if a != [] {
      var head := if IsAlnum(a[0]) || a[0] == ' ' || a[0] == '-' then [a[0]] else [];
      assert (a + b)[0] == a[0] && (a + b)[1..] == a[1..] + b;
      KeepAppend(a[1..], b);
      calc {
        Keep(a + b);
        head + Keep(a[1..] + b);
        head + (Keep(a[1..]) + Keep(b));
        (head + Keep(a[1..])) + Keep(b);
      }
    } else {
      assert a + b == b;
    }
  }

  lemma SpacesToDashesAppend(a: string, b: string)
    ensures SpacesToDashes(a + b) == SpacesToDashes(a) + SpacesToDashes(b)
  {
    var d := SpacesToDashes(a + b);
    assert forall i | 0 <= i < |d| :: d[i] == (SpacesToDashes(a) + SpacesToDashes(b))[i];
  }

  lemma LowerAllAppend(a: string, b: string)
    ensures LowerAll(a + b) == LowerAll(a) + LowerAll(b)
  {
    var l := LowerAll(a + b);
    assert forall i | 0 <= i < |l| :: l[i] == (LowerAll(a) + LowerAll(b))[i];
  }

  /** Slugify works character by character: the slug of a concatenation is
      the concatenation of the slugs. */
  lemma SlugifyAppend(a: string, b: string)
    ensures Slugify(a + b) == Slugify(a) + Slugify(b)
  {
    KeepAppend(a, b);
    SpacesToDashesAppend(Keep(a), Keep(b));
    LowerAllAppend(SpacesToDashes(Keep(a)), SpacesToDashes(Keep(b)));
  }

  /** Each space becomes '-', letters and digits are lower-cased, and every
      other character is dropped. */
  lemma SlugifySingleChar(c: char)
    ensures Slugify([c]) == SlugOfChar(c)
  {
    assert [c][1..] == [];
  }

  /** Slugify as a fold of SlugOfChar over the title, the reference reading
      of the comprehension. */
  lemma {:induction false} SlugifyCharwise(t: string)
    requires t != []
    ensures Slugify(t) == Slugify(t[..|t| - 1]) + SlugOfChar(t[|t| - 1])
  {
    assert t == t[..|t| - 1] + [t[|t| - 1]];
    SlugifyAppend(t[..|t| - 1], [t[|t| - 1]]);
    SlugifySingleChar(t[|t| - 1]);
  }

  lemma {:induction false} KeepSlug(s: string)
    requires IsSlug(s)
    ensures Keep(s) == s
  {
    if s != [] {
      KeepSlug(s[1..]);
      assert s == [s[0]] + s[1..];
    }
  }

  /** A string that is already a slug is left unchanged. */
  lemma SlugifyFixesSlugs(s: string)
    requires IsSlug(s)
    ensures Slugify(s) == s
  {
    KeepSlug(s);
    assert SpacesToDashes(s) == s;
    assert LowerAll(s) == s;
  }

  /** Slugify is idempotent. */
  lemma SlugifyIdempotent(t: string)
    ensures Slugify(Slugify(t)) == Slugify(t)
  {
    SlugifyFixesSlugs(Slugify(t));
  }
}
