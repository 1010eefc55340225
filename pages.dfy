/** The output loop of split.py: for each section, in order, its file name
    `NN-slug.md`, its entry in the YAML index, its lines with links
    rewritten, and a footer with Previous/Next navigation. Writing the
    files is left to the caller; the pages are returned as values. */
module Pages {
  import opened Text
  import opened Splitter
  import opened Links

  // ---------------------------------------------------------------------
  // File names

  predicate IsDigit(c: char) {
    '0' <= c <= '9'
  }

  predicate AllDigits(s: string) {
    forall i | 0 <= i < |s| :: IsDigit(s[i])
  }

  function DigitChar(d: nat): (c: char)
    requires d < 10
    ensures IsDigit(c)
  {
    ('0' as int + d) as char
  }

  function DigitValue(c: char): (d: nat)
    requires IsDigit(c)
    ensures d < 10
  {
    c as int - '0' as int
  }

  /** `str(n)`: the decimal digits of `n`, without leading zeros. */
  function Decimal(n: nat): (r: string)
    ensures 1 <= |r| && AllDigits(r)
    ensures |r| == 1 <==> n < 10
    ensures |r| == 2 <==> 10 <= n < 100
  {
    if n < 10 then [DigitChar(n)] else Decimal(n / 10) + [DigitChar(n % 10)]
  }

  /** Reads a string of digits back as a number: the inverse of Decimal. */
  function ParseDecimal(s: string): nat
    requires AllDigits(s)
  {
    if s == [] then 0 else ParseDecimal(s[..|s| - 1]) * 10 + DigitValue(s[|s| - 1])
  }

  lemma {:induction false} DecimalRoundTrip(n: nat)
    ensures ParseDecimal(Decimal(n)) == n
  {
    if n >= 10 {
      var r := Decimal(n);
      assert r[..|r| - 1] == Decimal(n / 10);
      DecimalRoundTrip(n / 10);
    }
  }

  lemma {:induction false} LeadingZero(s: string)
    requires AllDigits(s)
    ensures AllDigits("0" + s) && ParseDecimal("0" + s) == ParseDecimal(s)
  {
    if s != [] {
      var z := "0" + s;
      assert z[..|z| - 1] == "0" + s[..|s| - 1];
      LeadingZero(s[..|s| - 1]);
    }
  }

  /** `"{0:02}".format(n)`: at least two digits, zero-padded. */
  function Pad2(n: nat): (r: string)
    ensures 2 <= |r| && AllDigits(r)
    ensures |r| == 2 <==> n < 100
  {
    if n < 10 then "0" + Decimal(n) else Decimal(n)
  }

  /** The padding loses nothing: the number can be read back. */
  lemma Pad2RoundTrip(n: nat)
    ensures ParseDecimal(Pad2(n)) == n
  {
    DecimalRoundTrip(n);
    if n < 10 {
      LeadingZero(Decimal(n));
    }
  }

  /** `"{0:02}-{1}.md".format(i, slug)` */
  function FileName(i: nat, slug: string): string {
    Pad2(i) + "-" + slug + ".md"
  }

  /** A file name can be read back: its leading digits give the position,
      and the slug sits between the first '-' and the ".md" extension. */
  lemma FileNameReadBack(i: nat, slug: string)
    ensures var r, d := FileName(i, slug), |Pad2(i)|;
      && |r| == d + |slug| + 4
      && AllDigits(r[..d]) && ParseDecimal(r[..d]) == i
      && r[d] == '-' && r[d + 1..|r| - 3] == slug && r[|r| - 3..] == ".md"
  {
    Pad2RoundTrip(i);
    var p, r := Pad2(i), FileName(i, slug);
    assert r[..|p|] == p && r[|p| + 1..|r| - 3] == slug && r[|r| - 3..] == ".md";
  }

  /** Two different positions never get the same file name, whatever the
      slugs, so no page overwrites another. */
  lemma FileNamesDistinct(i: nat, j: nat, s: string, t: string)
    requires i != j
    ensures FileName(i, s) != FileName(j, t)
  {
    var a, b := Pad2(i), Pad2(j);
    var x, y := FileName(i, s), FileName(j, t);
    if x == y {
      if |a| == |b| {
        assert x[..|a|] == a && y[..|b|] == b;
        Pad2RoundTrip(i);
        Pad2RoundTrip(j);
      } else if |a| < |b| {
        FileNameShape(i, s, |a|);
        FileNameShape(j, t, |a|);
        assert false;
      } else {
        FileNameShape(i, s, |b|);
        FileNameShape(j, t, |b|);
        assert false;
      }
    }
  }

  /** A file name is the padded number, then '-': the first non-digit ends
      the number. */
  lemma FileNameShape(i: nat, slug: string, k: nat)
    requires k <= |Pad2(i)|
    ensures k < |FileName(i, slug)|
    ensures k < |Pad2(i)| ==> IsDigit(FileName(i, slug)[k])
    ensures k == |Pad2(i)| ==> FileName(i, slug)[k] == '-'
  {
  }

  // ---------------------------------------------------------------------
  // YAML index

  /** The index entry written for section `i`: a YAML list item that ends
      with a blank line, so consecutive entries stay apart. */
  function YamlEntry(i: nat, section: Section): (r: string)
    ensures StartsWith(r, "- md: ") && |r| >= 2 && r[|r| - 2..] == "\n\n"
  {
    var r := "- md: " + FileName(i, section.slug) + "\n  url: " + Url(section.slug)
      + "\n  title: \"" + section.title + "\"\n\n";
    assert r[..6] == "- md: " && r[|r| - 2..] == "\n\n";
    r
  }

  /** The whole index: one entry per section, in order. */
  function YamlIndex(sections: seq<Section>): string {
    if sections == [] then []
    else YamlIndex(sections[..|sections| - 1]) + YamlEntry(|sections| - 1, sections[|sections| - 1])
  }

  /** The index of the first `m` sections is the start of the whole index:
      entries are only ever appended. */
  lemma {:induction false} YamlIndexPrefix(sections: seq<Section>, m: nat)
    requires m <= |sections|
    ensures YamlIndex(sections[..m]) <= YamlIndex(sections)
  {
    if m < |sections| {
      var init := sections[..|sections| - 1];
      assert init[..m] == sections[..m];
      YamlIndexPrefix(init, m);
    } else {
      assert sections[..m] == sections;
    }
  }

  lemma SliceOfPrefix(before: string, entry: string, upto: string, whole: string)
    requires upto == before + entry && upto <= whole
    ensures |before| <= |upto| <= |whole| && whole[|before|..|upto|] == entry
  {
    assert whole[..|upto|] == upto;
    assert whole[|before|..|upto|] == upto[|before|..];
  }

  /** Entry `k` of the index is the entry of section `k`, placed after the
      entries of the sections before it. */
  lemma YamlIndexEntry(sections: seq<Section>, k: nat)
    requires k < |sections|
    ensures var a, b := |YamlIndex(sections[..k])|, |YamlIndex(sections[..k + 1])|;
      a <= b <= |YamlIndex(sections)| && YamlIndex(sections)[a..b] == YamlEntry(k, sections[k])
  {
    YamlIndexStep(sections, k);
    YamlIndexPrefix(sections, k + 1);
    SliceOfPrefix(YamlIndex(sections[..k]), YamlEntry(k, sections[k]), YamlIndex(sections[..k + 1]), YamlIndex(sections));
  }

  // ---------------------------------------------------------------------
  // Navigation

  /** The arrow characters of the footer links (U+2190 and U+2192). */
  const LeftArrow: string := "\U{2190}"
  const RightArrow: string := "\U{2192}"

  function PreviousLink(section: Section): string {
    "[" + LeftArrow + " Previous: " + section.title + "](" + Url(section.slug) + ")"
  }

  function NextLink(section: Section): string {
    "[Next: " + section.title + " " + RightArrow + "](" + Url(section.slug) + ")"
  }

  predicate IsPreviousLink(link: string) {
    StartsWith(link, "[" + LeftArrow)
  }

  predicate IsNextLink(link: string) {
    StartsWith(link, "[Next: ")
  }

  /** The `navigation` list of page `i`: at most two links, and at least
      one as soon as the guide has more than one section. */
  function Navigation(sections: seq<Section>, i: nat): (r: seq<string>)
    requires i < |sections|
    ensures |r| <= 2
    ensures |sections| >= 2 ==> |r| >= 1
  {
    (if i > 0 then [PreviousLink(sections[i - 1])] else [])
      + (if i < |sections| - 1 then [NextLink(sections[i + 1])] else [])
  }

  /** The footer line built from a `navigation` list: a rule, then the
      links joined with " | ". */
  function FooterOf(navigation: seq<string>): string {
    "\n\n---\n\n" + Join(navigation, " | ") + "\n"
  }

  /** The footer shows the Previous link, then the Next link, separated by
      " | " when both are there, below a horizontal rule. */
  lemma FooterLinks(sections: seq<Section>, i: nat)
    requires i < |sections|
    ensures var links :=
        if 0 < i < |sections| - 1 then PreviousLink(sections[i - 1]) + " | " + NextLink(sections[i + 1])
        else if 0 < i then PreviousLink(sections[i - 1])
        else if i < |sections| - 1 then NextLink(sections[i + 1])
        else "";
      FooterOf(Navigation(sections, i)) == "\n\n---\n\n" + links + "\n"
  {
    var nav := Navigation(sections, i);
    if 0 < i < |sections| - 1 {
      assert nav == [PreviousLink(sections[i - 1]), NextLink(sections[i + 1])];
      assert nav[1..] == [NextLink(sections[i + 1])];
      assert Join(nav, " | ") == nav[0] + " | " + nav[1];
    } else if 0 < i {
      assert nav == [PreviousLink(sections[i - 1])];
    } else if i < |sections| - 1 {
      assert nav == [NextLink(sections[i + 1])];
    } else {
      assert nav == [];
    }
  }

  /** A page has a Previous link exactly when it is not the first, a Next
      link exactly when it is not the last, and each points at the
      neighbouring section's page. */
  lemma NavigationLinks(sections: seq<Section>, i: nat)
    requires i < |sections|
    ensures var nav := Navigation(sections, i);
      && (i > 0 <==> exists l | l in nav :: IsPreviousLink(l))
      && (i < |sections| - 1 <==> exists l | l in nav :: IsNextLink(l))
      && (forall l | l in nav && IsPreviousLink(l) :: i > 0 && l == PreviousLink(sections[i - 1]))
      && (forall l | l in nav && IsNextLink(l) :: i < |sections| - 1 && l == NextLink(sections[i + 1]))
  {
    var nav := Navigation(sections, i);
    if i > 0 {
      var p := PreviousLink(sections[i - 1]);
      assert p[..|"[" + LeftArrow|] == "[" + LeftArrow;
      assert IsPreviousLink(p) && !IsNextLink(p) by { assert p[1] != "[Next: "[1]; }
    }
    if i < |sections| - 1 {
      var n := NextLink(sections[i + 1]);
      assert n[..|"[Next: "|] == "[Next: ";
      assert IsNextLink(n) && !IsPreviousLink(n) by { assert n[1] != ("[" + LeftArrow)[1]; }
    }
  }

  /** Neighbouring pages link to each other. */
  lemma NavigationSymmetric(sections: seq<Section>, i: nat)
    requires i + 1 < |sections|
    ensures NextLink(sections[i + 1]) in Navigation(sections, i)
    ensures PreviousLink(sections[i]) in Navigation(sections, i + 1)
  {
  }

  // ---------------------------------------------------------------------
  // The output loop

  datatype Page = Page(fileName: string, lines: seq<string>)

  /** The page written for section `i`: its file name, its lines with links
      rewritten one by one, and the footer as its last line. */
  ghost predicate IsPageOf(page: Page, sections: seq<Section>, i: nat,
                           sectionSlugs: set<string>, subsectionSlugs: map<string, Option<string>>)
    requires i < |sections|
  {
    && page.fileName == FileName(i, sections[i].slug)
    && |page.lines| == |sections[i].lines| + 1
    && (forall j | 0 <= j < |sections[i].lines| ::
          page.lines[j] == RewriteLinks(sections[i].lines[j], sectionSlugs, subsectionSlugs))
    && page.lines[|sections[i].lines|] == FooterOf(Navigation(sections, i))
  }

  lemma YamlIndexStep(sections: seq<Section>, i: nat)
    requires i < |sections|
    ensures YamlIndex(sections[..i + 1]) == YamlIndex(sections[..i]) + YamlEntry(i, sections[i])
  {
    assert sections[..i + 1][..i] == sections[..i];
  }

  lemma AssembledPage(sections: seq<Section>, i: nat, sectionSlugs: set<string>,
                      subsectionSlugs: map<string, Option<string>>, rewritten: seq<string>)
    requires i < |sections| && |rewritten| == |sections[i].lines|
    requires forall m | 0 <= m < |rewritten| ::
      rewritten[m] == RewriteLinks(sections[i].lines[m], sectionSlugs, subsectionSlugs)
    ensures IsPageOf(Page(FileName(i, sections[i].slug), rewritten + [FooterOf(Navigation(sections, i))]),
                     sections, i, sectionSlugs, subsectionSlugs)
  {
  }

  /** `for j, line in enumerate(section): section[j] = link_regex.sub(...)` */
  method RewriteSection(section: seq<string>, sectionSlugs: set<string>, subsectionSlugs: map<string, Option<string>>)
    returns (lines: seq<string>)
    ensures |lines| == |section|
    ensures forall m | 0 <= m < |lines| :: lines[m] == RewriteLinks(section[m], sectionSlugs, subsectionSlugs)
  {
    lines := section;
    var j := 0;
    while j < |lines|
      invariant 0 <= j <= |lines| && |lines| == |section|
      invariant forall m | 0 <= m < j :: lines[m] == RewriteLinks(section[m], sectionSlugs, subsectionSlugs)
      invariant forall m | j <= m < |lines| :: lines[m] == section[m]
    {
      lines := lines[j := RewriteLinks(lines[j], sectionSlugs, subsectionSlugs)];
      j := j + 1;
    }
  }

  /** The `navigation` list of page `i`, built as the script builds it.
      Its contents are characterised by NavigationLinks. */
  method BuildNavigation(sections: seq<Section>, i: nat) returns (navigation: seq<string>)
    requires i < |sections|
    ensures navigation == Navigation(sections, i)
  {
    navigation := [];
    if i > 0 {
      navigation := navigation + [PreviousLink(sections[i - 1])];
    }
    if i < |sections| - 1 {
      navigation := navigation + [NextLink(sections[i + 1])];
    }
  }

  /** One iteration of the output loop: the index entry and the page of
      section `i`. */
  method AssemblePage(sections: seq<Section>, i: nat, sectionSlugs: set<string>,
                      subsectionSlugs: map<string, Option<string>>)
    returns (entry: string, page: Page)
    requires i < |sections|
    ensures entry == YamlEntry(i, sections[i])
    ensures IsPageOf(page, sections, i, sectionSlugs, subsectionSlugs)
  {
    var section := sections[i];
    entry := YamlEntry(i, section);
    var lines := RewriteSection(section.lines, sectionSlugs, subsectionSlugs);
    var navigation := BuildNavigation(sections, i);
    page := Page(FileName(i, section.slug), lines + [FooterOf(navigation)]);
    AssembledPage(sections, i, sectionSlugs, subsectionSlugs, lines);
  }

  /** split.py's output loop over `sections`: the YAML index it writes, and
      the name and lines of every page it writes. */
  method AssemblePages(sections: seq<Section>, sectionSlugs: set<string>, subsectionSlugs: map<string, Option<string>>)
    returns (yaml: string, pages: seq<Page>)
    ensures yaml == YamlIndex(sections)
    ensures |pages| == |sections|
    ensures forall i | 0 <= i < |pages| :: IsPageOf(pages[i], sections, i, sectionSlugs, subsectionSlugs)
  {
    yaml, pages := [], [];
    var i := 0;
    while i < |sections|
      invariant 0 <= i <= |sections|
      invariant yaml == YamlIndex(sections[..i])
      invariant |pages| == i
      invariant forall k | 0 <= k < i :: IsPageOf(pages[k], sections, k, sectionSlugs, subsectionSlugs)
    {
      var entry, page := AssemblePage(sections, i, sectionSlugs, subsectionSlugs);
      YamlIndexStep(sections, i);
      yaml := yaml + entry;
      pages := pages + [page];
      i := i + 1;
    }
    assert sections[..i] == sections;
  }

  /** Lines in which no `](#` occurs reach their page unchanged, at the
      same position. */
  lemma PlainLinesUnchanged(
    sections: seq<Section>, sectionSlugs: set<string>, subsectionSlugs: map<string, Option<string>>,
    pages: seq<Page>, i: nat, j: nat)
    requires |pages| == |sections| && i < |pages| && j < |sections[i].lines|
    requires IsPageOf(pages[i], sections, i, sectionSlugs, subsectionSlugs)
    requires NoOpener(sections[i].lines[j])
    ensures pages[i].lines[j] == sections[i].lines[j]
  {
    RewriteKeepsUnlinkedLine(sections[i].lines[j], sectionSlugs, subsectionSlugs);
  }
}
