/** `substitute_link` and the `link_regex.sub` pass over a line: every
    in-document link `](#slug)` is pointed at the page that now holds the
    slug. The regular expression `\]\(#([-a-zA-Z0-9]+)\)` is written out
    as a left-to-right scan. */
module Links {
  import opened Text
  import opened Slug
  import opened Splitter

  /** The URL of the page generated for a section slug. */
  function Url(slug: string): string {
    slug + ".html"
  }

  /** `"{0}".format(owner)`: an owner that was never set prints as "None". */
  function OwnerText(owner: Option<string>): string {
    match owner
    case Some(slug) => slug
    case None => "None"
  }

  /** split.py's `substitute_link`, given the anchor the pattern captured.
      Section slugs win over subsection slugs; an unknown anchor is
      replaced by its bare text. */
  function SubstituteLink(link: string, sectionSlugs: set<string>, subsectionSlugs: map<string, Option<string>>): (r: string)
    ensures link in sectionSlugs || link in subsectionSlugs ==>
      |r| >= 8 && StartsWith(r, "](") && r[|r| - 1] == ')'
    ensures link !in sectionSlugs && link !in subsectionSlugs ==> r == link
  {
    if link in sectionSlugs then "](" + Url(link) + ")"
    else if link in subsectionSlugs then "](" + Url(OwnerText(subsectionSlugs[link])) + "#" + link + ")"
    else link
  }

  /** The character class `[-a-zA-Z0-9]`. */
  predicate IsLinkChar(c: char) {
    c == '-' || IsAlnum(c)
  }

  /** Every slug is made of characters the pattern accepts. */
  lemma SlugIsLinkText(s: string)
    requires IsSlug(s)
    ensures forall i | 0 <= i < |s| :: IsLinkChar(s[i])
  {
  }

  /** The length of the longest prefix of `s` in the character class: what
      the greedy `+` consumes. */
  function LinkRun(s: string): (n: nat)
    ensures n <= |s|
    ensures forall i | 0 <= i < n :: IsLinkChar(s[i])
    ensures n < |s| ==> !IsLinkChar(s[n])
  {
    if s != [] && IsLinkChar(s[0]) then 1 + LinkRun(s[1..]) else 0
  }

  const Opener: string := "](#"

  /** Whether the pattern matches at the start of `s`, and if so the index of
      its closing ')'. The class never contains ')', so backtracking from
      the greedy run cannot find a shorter match. */
  function MatchAt(s: string): (close: Option<nat>)
    ensures close.Some? ==> && 3 < close.value < |s| && s[close.value] == ')'
                            && StartsWith(s, Opener)
                            && forall i | 3 <= i < close.value :: IsLinkChar(s[i])
  {
    if StartsWith(s, Opener) then
      var close := 3 + LinkRun(s[3..]);
      if 3 < close < |s| && s[close] == ')' then Some(close) else None
    else None
  }

  /** `link_regex.sub(substitute_link, line)`: leftmost matches, replaced
      one after another without overlapping. Every match starts with ']',
      so a line without one is returned as it is. */
  function RewriteLinks(s: string, sectionSlugs: set<string>, subsectionSlugs: map<string, Option<string>>): (r: string)
    ensures ']' !in s ==> r == s
    decreases |s|
  {
    if s == [] then []
    else match MatchAt(s)
      case Some(close) =>
        assert s[0] == Opener[0];
        SubstituteLink(s[3..close], sectionSlugs, subsectionSlugs)
          + RewriteLinks(s[close + 1..], sectionSlugs, subsectionSlugs)
      case None =>
        [s[0]] + RewriteLinks(s[1..], sectionSlugs, subsectionSlugs)
  }

  /** Where no link starts, the first character is copied as it is. */
  lemma RewriteCopiesFirst(s: string, sectionSlugs: set<string>, subsectionSlugs: map<string, Option<string>>)
    requires s != [] && MatchAt(s) == None
    ensures RewriteLinks(s, sectionSlugs, subsectionSlugs) == [s[0]] + RewriteLinks(s[1..], sectionSlugs, subsectionSlugs)
  {
  }

  /** No match of the pattern starts at any of the first `k` positions
      of `s`. */
  predicate NoMatchBefore(s: string, k: nat)
    requires k <= |s|
  {
    k == 0 || (MatchAt(s) == None && NoMatchBefore(s[1..], k - 1))
  }

  lemma {:induction false} NoMatchBeforeFromAll(s: string, k: nat)
    requires k <= |s| && forall q | 0 <= q < k :: MatchAt(s[q..]) == None
    ensures NoMatchBefore(s, k)
  {
    if k > 0 {
      assert s[0..] == s;
      forall q | 0 <= q < k - 1
        ensures MatchAt(s[1..][q..]) == None
      {
        assert s[1..][q..] == s[q + 1..];
      }
      NoMatchBeforeFromAll(s[1..], k - 1);
    }
  }

  /** The first `k` characters of `s`, at none of which a match starts, are
      copied unchanged before the rewrite of the rest. A ']' that starts no
      link, as in `[text](url)` or a broken anchor, is copied like any
      other character. */
  lemma {:induction false} RewriteKeepsUnmatchedPrefix(
    s: string, k: nat, sectionSlugs: set<string>, subsectionSlugs: map<string, Option<string>>)
    requires k <= |s| && NoMatchBefore(s, k)
    ensures RewriteLinks(s, sectionSlugs, subsectionSlugs) == s[..k] + RewriteLinks(s[k..], sectionSlugs, subsectionSlugs)
  {
    if k == 0 {
      assert s[k..] == s;
    } else {
      var rest := RewriteLinks(s[k..], sectionSlugs, subsectionSlugs);
      assert s[1..][k - 1..] == s[k..];
      calc {
        RewriteLinks(s, sectionSlugs, subsectionSlugs);
        { RewriteCopiesFirst(s, sectionSlugs, subsectionSlugs); }
        [s[0]] + RewriteLinks(s[1..], sectionSlugs, subsectionSlugs);
        { RewriteKeepsUnmatchedPrefix(s[1..], k - 1, sectionSlugs, subsectionSlugs); }
        [s[0]] + (s[1..][..k - 1] + rest);
        ([s[0]] + s[1..][..k - 1]) + rest;
        { assert [s[0]] + s[1..][..k - 1] == s[..k]; }
        s[..k] + rest;
      }
    }
  }

  /** Text without ']' cannot start a match and is copied unchanged. */
  lemma RewriteKeepsPlainPrefix(
    p: string, s: string, sectionSlugs: set<string>, subsectionSlugs: map<string, Option<string>>)
    requires ']' !in p
    ensures RewriteLinks(p + s, sectionSlugs, subsectionSlugs) == p + RewriteLinks(s, sectionSlugs, subsectionSlugs)
  {
    var u := p + s;
    forall q | 0 <= q < |p|
      ensures MatchAt(u[q..]) == None
    {
      assert u[q..][0] == p[q] != Opener[0];
    }
    NoMatchBeforeFromAll(u, |p|);
    RewriteKeepsUnmatchedPrefix(u, |p|, sectionSlugs, subsectionSlugs);
    assert u[..|p|] == p && u[|p|..] == s;
  }

  /** A link that follows text in which no match starts, such as
      `[x](u) [y](#ab)`: the text is copied, and the link is replaced by
      `substitute_link` of its anchor. */
  lemma RewriteLinkAfterUnmatched(
    s: string, k: nat, slug: string, rest: string,
    sectionSlugs: set<string>, subsectionSlugs: map<string, Option<string>>)
    requires k <= |s| && forall q | 0 <= q < k :: MatchAt(s[q..]) == None
    requires slug != [] && forall i | 0 <= i < |slug| :: IsLinkChar(slug[i])
    requires s[k..] == Opener + slug + ")" + rest
    ensures RewriteLinks(s, sectionSlugs, subsectionSlugs)
         == s[..k] + SubstituteLink(slug, sectionSlugs, subsectionSlugs) + RewriteLinks(rest, sectionSlugs, subsectionSlugs)
  {
    NoMatchBeforeFromAll(s, k);
    RewriteKeepsUnmatchedPrefix(s, k, sectionSlugs, subsectionSlugs);
    RewriteOneLink(slug, rest, sectionSlugs, subsectionSlugs);
  }

  /** `](#` occurs at position `p` of `s`. */
  predicate OpenerAt(s: string, p: nat) {
    p + 3 <= |s| && s[p] == ']' && s[p + 1] == '(' && s[p + 2] == '#'
  }

  /** `](#` occurs nowhere in `s`. */
  predicate NoOpener(s: string) {
    forall p | 0 <= p < |s| :: !OpenerAt(s, p)
  }

  /** A line in which `](#` never occurs is copied unchanged: ordinary
      Markdown links `[text](url)` are left as they are. */
  lemma {:induction false} RewriteKeepsUnlinkedLine(
    s: string, sectionSlugs: set<string>, subsectionSlugs: map<string, Option<string>>)
    requires NoOpener(s)
    ensures RewriteLinks(s, sectionSlugs, subsectionSlugs) == s
  {
    if s != [] {
      assert !OpenerAt(s, 0);
      assert !StartsWith(s, Opener);
      forall p | 0 <= p < |s| - 1
        ensures !OpenerAt(s[1..], p)
      {
        assert !OpenerAt(s, p + 1);
      }
      RewriteKeepsUnlinkedLine(s[1..], sectionSlugs, subsectionSlugs);
      assert s == [s[0]] + s[1..];
    }
  }

  /** A link `](#slug)` at the head of the text is replaced by
      `substitute_link(slug)`, and scanning resumes after its ')'. */
  lemma RewriteOneLink(
    slug: string, rest: string, sectionSlugs: set<string>, subsectionSlugs: map<string, Option<string>>)
    requires slug != [] && forall i | 0 <= i < |slug| :: IsLinkChar(slug[i])
    ensures RewriteLinks(Opener + slug + ")" + rest, sectionSlugs, subsectionSlugs)
         == SubstituteLink(slug, sectionSlugs, subsectionSlugs) + RewriteLinks(rest, sectionSlugs, subsectionSlugs)
  {
    var s := Opener + slug + ")" + rest;
    var close := 3 + |slug|;
    assert s[..3] == Opener;
    assert s[3..] == slug + (")" + rest);
    LinkRunOfSlug(slug, ")" + rest);
    assert s[close] == ')';
    assert MatchAt(s) == Some(close);
    assert s[3..close] == slug;
    assert s[close + 1..] == rest;
  }

  lemma {:induction false} LinkRunOfSlug(slug: string, rest: string)
    requires forall i | 0 <= i < |slug| :: IsLinkChar(slug[i])
    requires rest != [] && !IsLinkChar(rest[0])
    ensures LinkRun(slug + rest) == |slug|
  {
    if slug != [] {
      assert (slug + rest)[1..] == slug[1..] + rest;
      LinkRunOfSlug(slug[1..], rest);
    } else {
      assert slug + rest == rest;
    }
  }

  /** Where a rewritten link points, for the tables the splitter builds: a
      section slug goes to that section's page; a subsection slug goes to
      the page of the section it was found in, or to "None.html" when it
      was found in the Introduction (and only then); anything else loses
      its link syntax. */
  lemma LinkTargets(lines: seq<string>, link: string)
    ensures var st := Process(lines);
      var r := SubstituteLink(link, st.sectionSlugs, st.subsectionSlugs);
      && (link in st.sectionSlugs ==>
            r == "](" + Url(link) + ")"
            && exists k | 1 <= k < |st.sections| :: st.sections[k].slug == link)
      && (link !in st.sectionSlugs && link in st.subsectionSlugs ==>
            IsSlug(link)
            && match st.subsectionSlugs[link]
               case Some(owner) =>
                 r == "](" + Url(owner) + "#" + link + ")"
                 && exists k | 1 <= k < |st.sections| :: st.sections[k].slug == owner
               case None =>
                 r == "](" + Url("None") + "#" + link + ")"
                 && exists n | 0 <= n < |lines| :: IntroHeadingAt(lines, n, link))
      && (link !in st.sectionSlugs && link !in st.subsectionSlugs ==> r == link)
  {
    var st := Process(lines);
    ProcessValid(lines);
    HeadingSlugsMember(st.sections, link);
    if link !in st.sectionSlugs && link in st.subsectionSlugs {
      if st.subsectionSlugs[link].Some? {
        HeadingSlugsMember(st.sections, st.subsectionSlugs[link].value);
      } else {
        UnownedMeansIntroduction(lines, link);
      }
    }
  }

  /** End to end: a link `](#slug)` to any section the splitter produced
      (other than the Introduction) is rewritten to that section's page. */
  lemma SectionLinkRewritten(lines: seq<string>, k: nat, rest: string)
    requires var st := Process(lines); 1 <= k < |st.sections| && st.sections[k].slug != []
    ensures var st := Process(lines);
      var slug := st.sections[k].slug;
      RewriteLinks(Opener + slug + ")" + rest, st.sectionSlugs, st.subsectionSlugs)
        == "](" + Url(slug) + ")" + RewriteLinks(rest, st.sectionSlugs, st.subsectionSlugs)
  {
    var st := Process(lines);
    var slug := st.sections[k].slug;
    ProcessValid(lines);
    HeadingSlugsMember(st.sections, slug);
    SlugIsLinkText(slug);
    RewriteOneLink(slug, rest, st.sectionSlugs, st.subsectionSlugs);
  }

  /** A subsection heading that comes right after the preamble is owned
      by no section: `current_section_slug` is still `None`. */
  lemma IntroductionSubsectionOwner(pre: seq<string>, heading: string)
    requires Marker !in pre
    requires StartsWith(heading, "#") && !StartsWith(heading, "## ")
    ensures var st := Process(pre + [Marker, heading]);
      && st.sectionSlugs == {}
      && st.subsectionSlugs == map[Slugify(SubsectionTitle(heading)) := None]
  {
    var lines := pre + [Marker, heading];
    PreambleOpensIntroduction(pre);
    assert lines[..|lines| - 1] == pre + [Marker];
    assert Process(lines) == Step(Process(pre + [Marker]), heading);
    assert heading != Marker && heading != "\n" by { assert heading[0] == '#'; }
  }

  /** A link to a subsection slug whose owner is `None` (and that is not
      also a section slug) is rewritten to point at "None.html". */
  lemma UnownedSubsectionLink(
    slug: string, rest: string, sectionSlugs: set<string>, subsectionSlugs: map<string, Option<string>>)
    requires slug != [] && IsSlug(slug)
    requires slug !in sectionSlugs && slug in subsectionSlugs && subsectionSlugs[slug] == None
    ensures RewriteLinks(Opener + slug + ")" + rest, sectionSlugs, subsectionSlugs)
         == "](" + Url("None") + "#" + slug + ")" + RewriteLinks(rest, sectionSlugs, subsectionSlugs)
  {
    RewriteOneLink(slug, rest, sectionSlugs, subsectionSlugs);
  }
}
