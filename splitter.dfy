/** The README line loop of split.py: a state machine that skips the
    preamble, cuts the guide into one section per "## " heading, demotes
    deeper headings and records which section owns each subsection slug.

    `Step` and `Run` give the meaning of the loop one line at a time;
    `SplitReadme` is the loop itself, proved to compute `Process`. */
module Splitter {
  import opened Text
  import opened Slug

  /** The line that ends the preamble, and later ends the guide. */
  const Marker: string := "---\n"
  const IntroTitle: string := "Introduction"
  const IntroSlug: string := "introduction"
  const ContentsTitle: string := "Contents"

  /** One entry of `sections`: `(title, slug, lines)`. */
  datatype Section = Section(title: string, slug: string, lines: seq<string>)

  /** The script's global state. `currentSlug` is `current_section_slug`,
      which stays `None` until the first "## " heading; `stopped` is the
      `break` at the closing marker. The current section is the last one. */
  datatype State = State(
    seenPreamble: bool,
    stopped: bool,
    sections: seq<Section>,
    sectionSlugs: set<string>,
    subsectionSlugs: map<string, Option<string>>,
    currentSlug: Option<string>)

  const Init: State := State(false, false, [], {}, map[], None)

  /** `current_section.append(line)`: the list is shared with the last
      entry of `sections`, so the append shows up there. */
  function AppendLine(sections: seq<Section>, line: string): (r: seq<Section>)
    ensures |r| == |sections|
    ensures forall k | 0 <= k < |r| :: r[k].title == sections[k].title && r[k].slug == sections[k].slug
    ensures forall k | 0 <= k < |r| - 1 :: r[k] == sections[k]
    ensures sections != [] ==> r[|r| - 1].lines == sections[|sections| - 1].lines + [line]
  {
    if sections == [] then sections
    else
      var last := sections[|sections| - 1];
      sections[|sections| - 1 := last.(lines := last.lines + [line])]
  }

  /** `not current_section`: the current section has no line yet. */
  predicate CurrentEmpty(sections: seq<Section>) {
    sections == [] || sections[|sections| - 1].lines == []
  }

  /** `line[3:-1]` of a "## " heading. */
  function HeadingTitle(line: string): string {
    SliceToLast(line, 3)
  }

  /** `line.replace("#", "")[1:-1]` of a deeper heading. */
  function SubsectionTitle(line: string): string {
    SliceToLast(Without(line, '#'), 1)
  }

  /** One iteration of the loop over README.md's lines. A stopped loop
      ignores the line; otherwise at most one section is opened, every
      section keeps its title and slug, and the slug tables only grow. */
  function Step(st: State, line: string): (r: State)
    ensures st.stopped ==> r == st
    ensures |st.sections| <= |r.sections| <= |st.sections| + 1
    ensures forall k | 0 <= k < |st.sections| ::
      r.sections[k].title == st.sections[k].title && r.sections[k].slug == st.sections[k].slug
    ensures st.sectionSlugs <= r.sectionSlugs
    ensures st.subsectionSlugs.Keys <= r.subsectionSlugs.Keys
  {
    if st.stopped then st
    else if !st.seenPreamble then
      if line == Marker then
        st.(seenPreamble := true, sections := st.sections + [Section(IntroTitle, IntroSlug, [])])
      else st
    else if line == Marker then st.(stopped := true)
    else if StartsWith(line, "## ") then
      var title := HeadingTitle(line);
      if title == ContentsTitle then st.(sections := AppendLine(st.sections, line))
      else
        var slug := Slugify(title);
        st.(sections := st.sections + [Section(title, slug, [])],
            sectionSlugs := st.sectionSlugs + {slug},
            currentSlug := Some(slug))
    else if CurrentEmpty(st.sections) && line == "\n" then st
    else if StartsWith(line, "#") then
      st.(sections := AppendLine(st.sections, line[1..]),
          subsectionSlugs := st.subsectionSlugs[Slugify(SubsectionTitle(line)) := st.currentSlug])
    else st.(sections := AppendLine(st.sections, line))
  }

  /** The loop run over `lines`, starting from `st`: at most one section
      per line is opened, sections keep their titles and slugs, and the
      slug tables only grow. */
  function Run(st: State, lines: seq<string>): (r: State)
    ensures |st.sections| <= |r.sections| <= |st.sections| + |lines|
    ensures forall k | 0 <= k < |st.sections| ::
      r.sections[k].title == st.sections[k].title && r.sections[k].slug == st.sections[k].slug
    ensures st.sectionSlugs <= r.sectionSlugs
    ensures st.subsectionSlugs.Keys <= r.subsectionSlugs.Keys
  {
    if lines == [] then st else Step(Run(st, lines[..|lines| - 1]), lines[|lines| - 1])
  }

  /** The state the whole file leaves behind. */
  function Process(lines: seq<string>): State
  {
    Run(Init, lines)
  }

  // ---------------------------------------------------------------------
  // The loop

  /** split.py's loop over README.md, with the file's lines as input and
      `sections`, `section_slugs` and `subsection_slugs` as output. */
  method SplitReadme(lines: seq<string>)
    returns (sections: seq<Section>, sectionSlugs: set<string>, subsectionSlugs: map<string, Option<string>>)
    ensures sections == Process(lines).sections
    ensures sectionSlugs == Process(lines).sectionSlugs
    ensures subsectionSlugs == Process(lines).subsectionSlugs
  {
    var seenPreamble := false;
    var currentSlug: Option<string> := None;
    sections, sectionSlugs, subsectionSlugs := [], {}, map[];
    var i := 0;
    while i < |lines|
      invariant 0 <= i <= |lines|
      invariant Process(lines[..i])
             == State(seenPreamble, false, sections, sectionSlugs, subsectionSlugs, currentSlug)
    {
      var line := lines[i];
      assert lines[..i + 1] == lines[..i] + [line];
      assert Process(lines[..i + 1]) == Step(Process(lines[..i]), line) by {
        assert lines[..i + 1][..i] == lines[..i];
      }
      if !seenPreamble {
        if line == Marker {
          seenPreamble := true;
          sections := sections + [Section(IntroTitle, IntroSlug, [])];
        }
      } else if line == Marker {
        RunStopped(Process(lines[..i + 1]), lines[i + 1..]);
        assert lines == lines[..i + 1] + lines[i + 1..];
        RunAppend(Init, lines[..i + 1], lines[i + 1..]);
        return;
      } else if StartsWith(line, "## ") {
        var title := line[3..if |line| > 3 then |line| - 1 else 3];
        if title == ContentsTitle {
          sections := AppendLine(sections, line);
        } else {
          var slug := Slugify(title);
          sections := sections + [Section(title, slug, [])];
          sectionSlugs := sectionSlugs + {slug};
          currentSlug := Some(slug);
        }
      } else if CurrentEmpty(sections) && line == "\n" {
      } else if StartsWith(line, "#") {
        sections := AppendLine(sections, line[1..]);
        subsectionSlugs := subsectionSlugs[Slugify(SubsectionTitle(line)) := currentSlug];
      } else {
        sections := AppendLine(sections, line);
      }
      i := i + 1;
    }
    assert lines[..i] == lines;
  }

  // ---------------------------------------------------------------------
  // Running the loop on concatenated input

  lemma {:induction false} RunAppend(st: State, a: seq<string>, b: seq<string>)
    ensures Run(st, a + b) == Run(Run(st, a), b)
  {
    if b == [] {
      assert a + b == a;
    } else {
      assert (a + b)[..|a + b| - 1] == a + b[..|b| - 1];
      RunAppend(st, a, b[..|b| - 1]);
    }
  }

  /** Once the closing marker has been read, no later line changes anything. */
  lemma {:induction false} RunStopped(st: State, lines: seq<string>)
    requires st.stopped
    ensures Run(st, lines) == st
  {
    if lines != [] {
      RunStopped(st, lines[..|lines| - 1]);
    }
  }

  /** Between the opening and the closing marker the loop keeps going. */
  lemma {:induction false} RunOpen(st: State, lines: seq<string>)
    requires st.seenPreamble && !st.stopped
    requires Marker !in lines
    ensures Run(st, lines).seenPreamble && !Run(st, lines).stopped
  {
    if lines != [] {
      RunOpen(st, lines[..|lines| - 1]);
    }
  }

  // ---------------------------------------------------------------------
  // Preamble and end marker

  /** Lines before the first marker produce nothing. */
  lemma {:induction false} PreambleProducesNothing(pre: seq<string>)
    requires Marker !in pre
    ensures Process(pre) == Init
  {
    if pre != [] {
      PreambleProducesNothing(pre[..|pre| - 1]);
    }
  }

  /** The first marker opens the "Introduction" section. */
  lemma PreambleOpensIntroduction(pre: seq<string>)
    requires Marker !in pre
    ensures Process(pre + [Marker])
         == Init.(seenPreamble := true, sections := [Section(IntroTitle, IntroSlug, [])])
  {
    PreambleProducesNothing(pre);
    assert (pre + [Marker])[..|pre|] == pre;
  }

  /** The second marker ends processing: nothing after it reaches any
      section or slug table. */
  lemma EndMarkerStops(pre: seq<string>, body: seq<string>, rest: seq<string>)
    requires Marker !in pre && Marker !in body
    ensures Process(pre + [Marker] + body + [Marker] + rest)
         == Process(pre + [Marker] + body).(stopped := true)
  {
    var start := pre + [Marker];
    PreambleOpensIntroduction(pre);
    RunAppend(Init, start, body);
    RunOpen(Process(start), body);
    var upto := start + body + [Marker];
    assert upto[..|upto| - 1] == start + body;
    RunStopped(Process(upto), rest);
    RunAppend(Init, upto, rest);
  }

  /** The guide has sections exactly when the file has a marker line:
      without one, everything is preamble. */
  lemma {:induction false} SectionsIffMarker(lines: seq<string>)
    ensures Process(lines).sections != [] <==> Marker in lines
  {
    if Marker !in lines {
      PreambleProducesNothing(lines);
    } else {
      var init := lines[..|lines| - 1];
      assert lines == init + [lines[|lines| - 1]];
      if Marker in init {
        SectionsIffMarker(init);
      } else {
        PreambleProducesNothing(init);
      }
    }
  }

  // ---------------------------------------------------------------------
  // What the loop keeps true

  /** The set of slugs of `sections[1..]`, the ones that come from "## "
      headings. */
  function HeadingSlugs(sections: seq<Section>): set<string>
  {
    if |sections| <= 1 then {} else HeadingSlugs(sections[..|sections| - 1]) + {sections[|sections| - 1].slug}
  }

  /** The loop's invariant: the Introduction comes first; every later
      section is named by the slug of its title; `section_slugs` holds
      exactly those slugs; `current_section_slug` is the slug of the
      current section once a "## " heading has been seen; and every
      subsection slug is a slug owned by a known section (or by `None`,
      inside the Introduction). */
  ghost predicate Valid(st: State)
  {
    && (!st.seenPreamble ==> st == Init)
    && (st.seenPreamble ==>
          |st.sections| >= 1 && st.sections[0].title == IntroTitle && st.sections[0].slug == IntroSlug)
    && st.currentSlug == (if |st.sections| >= 2 then Some(st.sections[|st.sections| - 1].slug) else None)
    && st.sectionSlugs == HeadingSlugs(st.sections)
    && (forall k | 1 <= k < |st.sections| :: st.sections[k].slug == Slugify(st.sections[k].title))
    && (forall key | key in st.subsectionSlugs ::
          IsSlug(key) && (st.subsectionSlugs[key].Some? ==> st.subsectionSlugs[key].value in st.sectionSlugs))
  }

  lemma {:induction false} HeadingSlugsAppendLine(sections: seq<Section>, line: string)
    ensures HeadingSlugs(AppendLine(sections, line)) == HeadingSlugs(sections)
  {
    if |sections| > 1 {
      var r := AppendLine(sections, line);
      assert r[..|r| - 1] == sections[..|sections| - 1];
    }
  }

  /** A slug is in `HeadingSlugs` exactly when some section after the
      Introduction carries it. */
  lemma {:induction false} HeadingSlugsMember(sections: seq<Section>, slug: string)
    ensures slug in HeadingSlugs(sections) <==> exists k | 1 <= k < |sections| :: sections[k].slug == slug
  {
    if |sections| > 1 {
      var init := sections[..|sections| - 1];
      HeadingSlugsMember(init, slug);
      if slug in HeadingSlugs(sections) && slug !in HeadingSlugs(init) {
        assert sections[|sections| - 1].slug == slug;
      }
      if exists k | 1 <= k < |sections| :: sections[k].slug == slug {
        var k :| 1 <= k < |sections| && sections[k].slug == slug;
        if k < |sections| - 1 {
          assert init[k].slug == slug;
        }
      }
    }
  }

  lemma AppendLineValid(st: State, line: string)
    requires Valid(st) && st.seenPreamble
    ensures Valid(st.(sections := AppendLine(st.sections, line)))
  {
    HeadingSlugsAppendLine(st.sections, line);
  }

  lemma NewSectionValid(st: State, title: string)
    requires Valid(st) && st.seenPreamble
    ensures var slug := Slugify(title);
      Valid(st.(sections := st.sections + [Section(title, slug, [])],
                sectionSlugs := st.sectionSlugs + {slug},
                currentSlug := Some(slug)))
  {
    var secs := st.sections + [Section(title, Slugify(title), [])];
    assert secs[..|secs| - 1] == st.sections;
  }

  lemma SubsectionValid(st: State, key: string)
    requires Valid(st) && st.seenPreamble && IsSlug(key)
    ensures Valid(st.(subsectionSlugs := st.subsectionSlugs[key := st.currentSlug]))
  {
    var m := st.subsectionSlugs[key := st.currentSlug];
    if st.currentSlug.Some? {
      var secs := st.sections;
      assert HeadingSlugs(secs) == HeadingSlugs(secs[..|secs| - 1]) + {secs[|secs| - 1].slug};
    }
    forall k | k in m
      ensures IsSlug(k) && (m[k].Some? ==> m[k].value in st.sectionSlugs)
    {
      if k != key {
        assert m[k] == st.subsectionSlugs[k];
      }
    }
  }

  lemma StepValid(st: State, line: string)
    requires Valid(st)
    ensures Valid(Step(st, line))
  {
    if !st.stopped && st.seenPreamble && line != Marker {
      if StartsWith(line, "## ") {
        if HeadingTitle(line) == ContentsTitle {
          AppendLineValid(st, line);
        } else {
          NewSectionValid(st, HeadingTitle(line));
        }
      } else if CurrentEmpty(st.sections) && line == "\n" {
      } else if StartsWith(line, "#") {
        var key := Slugify(SubsectionTitle(line));
        SubsectionValid(st, key);
        AppendLineValid(st.(subsectionSlugs := st.subsectionSlugs[key := st.currentSlug]), line[1..]);
      } else {
        AppendLineValid(st, line);
      }
    }
  }

  /** Every state the loop reaches satisfies the invariant. */
  lemma {:induction false} ProcessValid(lines: seq<string>)
    ensures Valid(Process(lines))
  {
    if lines != [] {
      ProcessValid(lines[..|lines| - 1]);
      StepValid(Process(lines[..|lines| - 1]), lines[|lines| - 1]);
    }
  }

  // ---------------------------------------------------------------------
  // One line at a time

  /** A "## t" heading other than "## Contents" starts a new, empty section
      titled `t` with slug `Slugify(t)`, and records the slug. */
  lemma HeadingOpensSection(st: State, t: string)
    requires st.seenPreamble && !st.stopped
    requires t != ContentsTitle
    ensures var slug := Slugify(t);
      Step(st, "## " + t + "\n")
        == st.(sections := st.sections + [Section(t, slug, [])],
               sectionSlugs := st.sectionSlugs + {slug},
               currentSlug := Some(slug))
  {
    var line := "## " + t + "\n";
    assert StartsWith(line, "## ");
    assert line != Marker by { assert line[0] == '#'; }
    assert HeadingTitle(line) == t;
  }

  /** "## Contents" is kept as a line of the current section; no section
      starts. */
  lemma ContentsStaysInSection(st: State)
    requires st.seenPreamble && !st.stopped
    ensures Step(st, "## Contents\n") == st.(sections := AppendLine(st.sections, "## Contents\n"))
  {
    var line := "## Contents\n";
    assert line[..3] == "## " && line[3..|line| - 1] == ContentsTitle;
    assert line != Marker by { assert line[0] != Marker[0]; }
  }

  /** Any other heading is demoted by one '#', and its slug is recorded as
      owned by the enclosing section: the last "## " section, or `None`
      while still in the Introduction. A later heading with the same slug
      overwrites the owner. */
  lemma DeeperHeadingDemoted(st: State, line: string)
    requires Valid(st) && st.seenPreamble && !st.stopped
    requires StartsWith(line, "#") && !StartsWith(line, "## ")
    ensures var next := Step(st, line);
      var key := Slugify(SubsectionTitle(line));
      && next.sections == AppendLine(st.sections, line[1..])
      && |next.sections| == |st.sections|
      && next.subsectionSlugs.Keys == st.subsectionSlugs.Keys + {key}
      && next.subsectionSlugs[key]
         == (if |st.sections| >= 2 then Some(st.sections[|st.sections| - 1].slug) else None)
      && (forall k | k in st.subsectionSlugs && k != key :: next.subsectionSlugs[k] == st.subsectionSlugs[k])
  {
    assert line != Marker by { assert line[0] == '#'; }
    assert line != "\n" by { assert line[0] == '#'; }
  }

  /** A blank line that arrives while the current section is still empty
      is dropped. */
  lemma LeadingBlankDropped(st: State)
    requires st.seenPreamble && !st.stopped && CurrentEmpty(st.sections)
    ensures Step(st, "\n") == st
  {
  }

  /** Every other line is appended unchanged to the current section. */
  lemma OrdinaryLineAppended(st: State, line: string)
    requires st.seenPreamble && !st.stopped
    requires line != Marker && !StartsWith(line, "#")
    requires !(CurrentEmpty(st.sections) && line == "\n")
    ensures Step(st, line) == st.(sections := AppendLine(st.sections, line))
  {
  }

  // ---------------------------------------------------------------------
  // Order and provenance of the output lines

  /** How a line looks once kept: a heading other than a "## " one loses
      its first '#'. */
  function Demote(line: string): string
  {
    if StartsWith(line, "#") && !StartsWith(line, "## ") then line[1..] else line
  }

  function DemoteAll(lines: seq<string>): (r: seq<string>)
    ensures |r| == |lines|
  {
    if lines == [] then [] else DemoteAll(lines[..|lines| - 1]) + [Demote(lines[|lines| - 1])]
  }

  /** All lines of all sections, in section order. */
  function AllLines(sections: seq<Section>): seq<string>
  {
    if sections == [] then [] else AllLines(sections[..|sections| - 1]) + sections[|sections| - 1].lines
  }

  /** `a` is obtained from `b` by deleting elements. */
  predicate IsSubsequence(a: seq<string>, b: seq<string>)
  {
    if a == [] then true
    else if b == [] then false
    else if a[|a| - 1] == b[|b| - 1] then IsSubsequence(a[..|a| - 1], b[..|b| - 1])
    else IsSubsequence(a, b[..|b| - 1])
  }

  lemma {:induction false} SubsequenceExtend(a: seq<string>, b: seq<string>, x: string)
    requires IsSubsequence(a, b)
    ensures IsSubsequence(a, b + [x])
    decreases |b|, 1
  {
    if a != [] {
      assert (b + [x])[..|b|] == b;
      if a[|a| - 1] == x {
        SubsequenceInit(a, b);
      }
    }
  }

  lemma {:induction false} SubsequenceInit(a: seq<string>, b: seq<string>)
    requires a != [] && IsSubsequence(a, b)
    ensures IsSubsequence(a[..|a| - 1], b)
    decreases |b|, 0
  {
    var front := b[..|b| - 1];
    assert front + [b[|b| - 1]] == b;
    if a[|a| - 1] == b[|b| - 1] {
      SubsequenceExtend(a[..|a| - 1], front, b[|b| - 1]);
    } else {
      SubsequenceInit(a, front);
      SubsequenceExtend(a[..|a| - 1], front, b[|b| - 1]);
    }
  }

  lemma AllLinesAppendLine(sections: seq<Section>, line: string)
    requires sections != []
    ensures AllLines(AppendLine(sections, line)) == AllLines(sections) + [line]
  {
    var r := AppendLine(sections, line);
    assert r[..|r| - 1] == sections[..|sections| - 1];
  }

  lemma AllLinesNewSection(sections: seq<Section>, s: Section)
    requires s.lines == []
    ensures AllLines(sections + [s]) == AllLines(sections)
  {
    assert (sections + [s])[..|sections|] == sections;
  }

  /** One step adds at most one line to the output, and that line is the
      input line, demoted if it is a deeper heading. */
  lemma StepOutput(st: State, line: string)
    requires Valid(st)
    ensures var before := AllLines(st.sections);
      var after := AllLines(Step(st, line).sections);
      after == before || after == before + [Demote(line)]
  {
    if !st.stopped && st.seenPreamble && line != Marker {
      if StartsWith(line, "## ") {
        if HeadingTitle(line) == ContentsTitle {
          AllLinesAppendLine(st.sections, line);
        } else {
          AllLinesNewSection(st.sections, Section(HeadingTitle(line), Slugify(HeadingTitle(line)), []));
        }
      } else if !(CurrentEmpty(st.sections) && line == "\n") {
        AllLinesAppendLine(st.sections, Demote(line));
      }
    } else if !st.stopped && line == Marker {
      AllLinesNewSection(st.sections, Section(IntroTitle, IntroSlug, []));
    }
  }

  /** The sections' lines, read in order, are input lines in their input
      order (deeper headings demoted by one level): nothing is invented,
      duplicated or reordered. */
  lemma {:induction false} OutputKeepsInputOrder(lines: seq<string>)
    ensures IsSubsequence(AllLines(Process(lines).sections), DemoteAll(lines))
  {
    if lines == [] {
    } else {
      var init := lines[..|lines| - 1];
      var last := lines[|lines| - 1];
      OutputKeepsInputOrder(init);
      ProcessValid(init);
      StepOutput(Process(init), last);
      var before := AllLines(Process(init).sections);
      if AllLines(Process(lines).sections) == before {
        SubsequenceExtend(before, DemoteAll(init), Demote(last));
      } else {
        var a := before + [Demote(last)];
        var b := DemoteAll(init) + [Demote(last)];
        assert a[..|a| - 1] == before && b[..|b| - 1] == DemoteAll(init);
      }
    }
  }

  // ---------------------------------------------------------------------
  // Where a `None` owner comes from

  /** Line `n` of the file is a deeper heading for slug `key`, read after the
      preamble while the Introduction was still the current section. */
  ghost predicate IntroHeadingAt(lines: seq<string>, n: nat, key: string)
    requires n < |lines|
  {
    var st := Process(lines[..n]);
    && st.seenPreamble && !st.stopped && |st.sections| == 1
    && StartsWith(lines[n], "#") && !StartsWith(lines[n], "## ")
    && Slugify(SubsectionTitle(lines[n])) == key
  }

  /** While `current_section_slug` is `None`, the Introduction is the only
      section. */
  lemma IntroductionWhileUnowned(lines: seq<string>)
    ensures var st := Process(lines);
      st.seenPreamble && st.currentSlug == None ==> |st.sections| == 1
  {
    ProcessValid(lines);
  }

  /** `line` is a deeper heading for slug `key`, read after the preamble
      while no "## " section has been opened yet. */
  predicate StepSetsUnowned(st: State, line: string, key: string)
  {
    && !st.stopped && st.seenPreamble && |st.sections| == 1
    && StartsWith(line, "#") && !StartsWith(line, "## ")
    && Slugify(SubsectionTitle(line)) == key
  }

  /** Unless the line is such a heading, a slug owned by `None` after the
      step was already owned by `None` before it. */
  lemma StepKeepsOtherOwners(st: State, line: string, key: string)
    requires st.seenPreamble && st.currentSlug == None ==> |st.sections| == 1
    requires var next := Step(st, line); key in next.subsectionSlugs && next.subsectionSlugs[key] == None
    requires !StepSetsUnowned(st, line, key)
    ensures key in st.subsectionSlugs && st.subsectionSlugs[key] == None
  {
    if !st.stopped && st.seenPreamble && line != Marker && !StartsWith(line, "## ")
       && !(CurrentEmpty(st.sections) && line == "\n") && StartsWith(line, "#") {
      assert Step(st, line).subsectionSlugs == st.subsectionSlugs[Slugify(SubsectionTitle(line)) := st.currentSlug];
    }
  }

  lemma IntroHeadingLast(lines: seq<string>, key: string)
    requires lines != []
    requires StepSetsUnowned(Process(lines[..|lines| - 1]), lines[|lines| - 1], key)
    ensures IntroHeadingAt(lines, |lines| - 1, key)
  {
  }

  lemma IntroHeadingExtend(lines: seq<string>, n: nat, key: string)
    requires n < |lines| - 1 && IntroHeadingAt(lines[..|lines| - 1], n, key)
    ensures IntroHeadingAt(lines, n, key)
  {
    assert lines[..|lines| - 1][..n] == lines[..n];
  }

  /** A subsection slug is owned by `None` only if a heading for it was read
      inside the Introduction, before the first "## " section. */
  lemma {:induction false} UnownedMeansIntroduction(lines: seq<string>, key: string)
    requires key in Process(lines).subsectionSlugs && Process(lines).subsectionSlugs[key] == None
    ensures exists n | 0 <= n < |lines| :: IntroHeadingAt(lines, n, key)
  {
    var init := lines[..|lines| - 1];
    var line := lines[|lines| - 1];
    IntroductionWhileUnowned(init);
    if StepSetsUnowned(Process(init), line, key) {
      IntroHeadingLast(lines, key);
    } else {
      StepKeepsOtherOwners(Process(init), line, key);
      UnownedMeansIntroduction(init, key);
      var n :| 0 <= n < |init| && IntroHeadingAt(init, n, key);
      IntroHeadingExtend(lines, n, key);
    }
  }
}
