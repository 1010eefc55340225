# split.py, modelled in Dafny

The repository is a guide to Kotlin for Python developers, written as one
long `README.md`. Its only code is `split.py`, the build script that cuts
that file into one Markdown page per top-level section for kotlinlang.org.
This project models the script's logic:

- **Slug** (`slug.dfy`) — `slugify`: keep letters, digits, spaces and `-`,
  turn spaces into `-`, lower-case. The script runs under Python 2 on byte
  strings in the C locale, so "letter" and "lower-case" mean ASCII.
- **Splitter** (`splitter.dfy`) — the loop over README.md's lines. It skips
  the preamble up to the first `---` line and opens an "Introduction"
  section there. It stops at the second `---` line. Each `## ` heading
  except `## Contents` starts a section. Every deeper heading is demoted by
  one `#`, and its slug is recorded as owned by the current section. A
  blank line at the start of a section is dropped. `Step` and `Run` give
  the meaning of one iteration and of the whole loop. `SplitReadme` is the
  loop itself, with the script's variables, proved to compute them.
- **Links** (`links.dfy`) — `substitute_link` and the pass of the link
  pattern `\]\(#([-a-zA-Z0-9]+)\)` over a line. The pattern is written out
  as a left-to-right scan: leftmost match first, no overlap, greedy class.
- **Pages** (`pages.dfy`) — the output loop: the file name `NN-slug.md`,
  the YAML index entry, links rewritten line by line, and the
  Previous/Next footer. `AssemblePages` returns the index text and the
  pages instead of writing files.
- **Text** (`text.dfy`) — Python slicing and `str` methods on `seq<char>`.

Behaviour kept exactly as the script has it:

- `current_section_slug` is `None` until the first `## ` heading. So a
  subsection heading inside the Introduction is recorded with owner
  `None`. A link to it becomes `](None.html#slug)`, with two exceptions:
  a `## ` section with the same slug takes priority, and a later heading
  with that slug, read inside a `## ` section, overwrites the owner.
  `IntroductionSubsectionOwner` and `UnownedSubsectionLink` state this.
  `UnownedMeansIntroduction` proves that this is the only way to get a
  `None` owner.
- Opening the Introduction at the first `---` line (split.py:33-36) does
  not add its slug `introduction` to `section_slugs`. Only a later
  `## Introduction` heading would add it.
- An unknown anchor `](#x)` is replaced by the bare text `x`.
- A title is taken as `line[3:-1]` and a subsection title as
  `line.replace("#", "")[1:-1]`. Both always drop the last character,
  whether or not it is a newline.

The guide's prose also explains Kotlin's line-continuation rule and
fixed-width integer overflow. No code in the repository implements either,
so neither is modelled.

## Model

| member | source | states |
|---|---|---|
| Slug.Slugify | split.py:27-28 | the slug contains only lower-case ASCII letters, digits and `-`, and is never longer than the title |
| Slug.SlugifySingleChar | split.py:28 | a space or `-` becomes `-`, a letter or digit becomes its lower-case self, and any other character is dropped |
| Slug.SlugifyAppend | split.py:28 | slugify works character by character: the slug of `a + b` is the slug of `a` followed by the slug of `b` |
| Slug.SlugifyCharwise | split.py:28 | slugify is the left fold of the per-character rule over the title |
| Slug.SlugifyFixesSlugs | split.py:28 | a string that is already a slug is returned unchanged |
| Slug.SlugifyIdempotent | split.py:28 | slugifying a slug again changes nothing |
| Text.SliceToLast | split.py:40 | Python's `line[k:-1]`: the characters strictly between position k and the last one, or empty |
| Text.Without | split.py:52 | `replace("#", "")` leaves no `#`, keeps only characters of the input, and is never longer |
| Splitter.Step | split.py:31-55 | one iteration: a stopped loop ignores the line; otherwise at most one section is opened, every existing section keeps its title and slug, and `section_slugs` and the keys of `subsection_slugs` only grow |
| Splitter.Run | split.py:31-55 | the loop over any list of lines opens at most one section per line, never changes an existing section's title or slug, and never removes a recorded slug |
| Splitter.SectionsIffMarker | split.py:32-36 | the loop produces sections exactly when the file has a `---` line; without one everything is preamble |
| Splitter.SplitReadme | split.py:30-55 | the loop, with the script's own variables and its `break`, produces exactly the `sections`, `section_slugs` and `subsection_slugs` of the line-by-line meaning `Process` |
| Splitter.PreambleProducesNothing | split.py:32-33 | lines before the first `---` line leave the state as it started: no section, no slug |
| Splitter.PreambleOpensIntroduction | split.py:32-36 | the first `---` line opens one empty section titled "Introduction" with slug "introduction" and records no slug |
| Splitter.RunStopped | split.py:37-38 | once the closing `---` line has been read, no later line changes the state |
| Splitter.EndMarkerStops | split.py:37-38 | for a whole file, everything after the second `---` line is ignored: the result equals that of the file cut just before it |
| Splitter.ProcessValid | split.py:35-53 | the loop keeps its invariant: the Introduction is first; every later section's slug is the slug of its title; `section_slugs` is exactly the set of those slugs; `current_section_slug` is the last section's slug, or `None` inside the Introduction; every subsection slug is a slug whose owner is a known section slug or `None` |
| Splitter.StepValid | split.py:32-55 | one iteration preserves that invariant |
| Splitter.HeadingOpensSection | split.py:39-47 | a line `## t` with `t` other than "Contents" appends a new empty section `(t, slugify(t))`, adds the slug to `section_slugs` and makes it the current slug |
| Splitter.ContentsStaysInSection | split.py:40-43 | `## Contents` is appended to the current section as an ordinary line, and no section starts |
| Splitter.DeeperHeadingDemoted | split.py:50-53 | any other line starting with `#` is appended without its first `#`; its slug is mapped to the enclosing section's slug (or `None` in the Introduction), overwriting an earlier entry for the same slug; all other entries are kept |
| Splitter.LeadingBlankDropped | split.py:48-49 | a blank line arriving while the current section is empty changes nothing |
| Splitter.OrdinaryLineAppended | split.py:54-55 | every other line is appended unchanged to the current section |
| Splitter.StepOutput | split.py:39-55 | one line adds at most one output line, and that line is the input line, demoted if it is a deeper heading |
| Splitter.OutputKeepsInputOrder | split.py:30-55 | read section by section, the output lines are a subsequence of the input lines (deeper headings demoted): nothing is invented, duplicated or reordered |
| Splitter.HeadingSlugsMember | split.py:46-47 | a slug is in the recorded set exactly when some section after the Introduction carries it |
| Splitter.UnownedMeansIntroduction | split.py:50-53 | a subsection slug ends up owned by `None` only if a deeper heading with that slug was read after the preamble while the Introduction was still the only section |
| Links.MatchAt | split.py:9 | a match is `](#`, at least one character of the class `[-a-zA-Z0-9]`, then `)` |
| Links.RewriteOneLink | split.py:62 | a link `](#slug)` is replaced by `substitute_link(slug)`, and scanning resumes after its `)` |
| Links.RewriteKeepsUnmatchedPrefix | split.py:62 | the first `k` characters, at none of which a match starts, are copied unchanged before the rewrite of the rest; a `]` that starts no link, as in `[text](url)` or a broken anchor, is copied like any other character |
| Links.RewriteLinkAfterUnmatched | split.py:62 | a link `](#slug)` that follows text in which no match starts, as in `[x](u) [y](#ab)`, is replaced by `substitute_link(slug)` after that text is copied |
| Links.RewriteKeepsPlainPrefix | split.py:62 | text without `]` cannot start a match and is copied unchanged |
| Links.RewriteLinks | split.py:62 | every match starts with `]`, so a line without `]` comes out of the rewrite unchanged |
| Links.RewriteKeepsUnlinkedLine | split.py:62 | a line in which `](#` never occurs is copied unchanged, including ordinary Markdown links `[text](url)` |
| Links.SubstituteLink | split.py:17-25 | a section or subsection anchor is replaced by link text that starts with `](` and ends with `)`; any other anchor is replaced by its bare text |
| Links.LinkTargets | split.py:17-25 | a section slug becomes `](slug.html)`, naming a section that exists. Otherwise a subsection slug becomes `](owner.html#slug)`, where the owner is an existing section, or `None`, which happens only for a heading read in the Introduction. Any other anchor becomes its bare text. Section slugs take priority |
| Links.SectionLinkRewritten | split.py:19-20 | end to end: a link `](#slug)` to any section the splitter produced, other than the Introduction, is rewritten to `](slug.html)`, the page with url `slug.html` (two sections with the same slug share that url) |
| Links.IntroductionSubsectionOwner | split.py:50-53 | a deeper heading right after the preamble is recorded with owner `None` and no section slug |
| Links.UnownedSubsectionLink | split.py:21-22 | a link to a subsection owned by `None` is rewritten to point at `None.html` |
| Pages.Pad2 | split.py:59 | `{0:02}`: at least two digits, exactly two for numbers below 100 |
| Pages.Pad2RoundTrip | split.py:59 | reading the padded number back gives the number |
| Pages.FileNameReadBack | split.py:59 | a file name `NN-slug.md` can be read back: its leading digits give the position, then `-`, the slug and `.md` |
| Pages.FileNamesDistinct | split.py:59 | two different positions never get the same file name, whatever their slugs |
| Pages.YamlEntry | split.py:60 | each index entry is a YAML list item starting `- md: ` and ends with a blank line, so entries stay apart |
| Pages.YamlIndexEntry | split.py:58-60 | the index is the entries in section order: entry `k` sits right after the entries of sections `0..k-1` |
| Pages.Navigation | split.py:63-67 | a page has at most two navigation links, and at least one whenever the guide has more than one section |
| Pages.FooterLinks | split.py:68 | the footer is a horizontal rule, then the Previous link and the Next link, joined by a vertical-bar separator when both are present |
| Pages.NavigationLinks | split.py:63-67 | page `i` has a Previous link exactly when `i > 0`, pointing at section `i-1`, and a Next link exactly when `i < n-1`, pointing at section `i+1` |
| Pages.NavigationSymmetric | split.py:64-67 | neighbouring pages link to each other |
| Pages.BuildNavigation | split.py:63-67 | the `navigation` list the loop builds is the Previous/Next list of page `i` |
| Pages.RewriteSection | split.py:61-62 | rewriting a section in place replaces each line by its link-rewritten self, at the same position |
| Pages.AssemblePage | split.py:59-68 | one iteration of the output loop gives the index entry of section `i` and its page |
| Pages.AssemblePages | split.py:57-68 | the index lists one entry per section in order; page `i` is named `NN-slug.md`, holds the section's lines with links rewritten, and ends with the footer, a rule followed by the Previous and Next links joined by a vertical-bar separator |
| Pages.PlainLinesUnchanged | split.py:61-62 | a line in which `](#` never occurs reaches its page unchanged, at the same position |

## Left out

- File I/O: reading README.md and writing `kotlinlang.org.yaml` and the pages (split.py:30, 57, 69-71). The lines come in as a sequence; the index text and the pages are returned.
- The copyright notice written before each page (split.py:11-15, 70). It is a constant prefix.
- The `print` of unknown links (split.py:24), which only writes to the console, and the unused `stdin` import (split.py:1).
- UTF-8 encoding of the output (split.py:71). The arrows of the footer are the constants U+2190 and U+2192.
- Pages.AssemblePages: the script fails on non-ASCII input, and the model does not capture that failure. Under Python 2 the titles and lines are byte strings. So `u"...".format(title)` (split.py:65, 67) raises `UnicodeDecodeError` when a neighbouring section's title holds a byte above 127. `u"".join(section)` (split.py:71) raises the same error for such a line. The model returns every page for every input. It describes the script's output only for input whose titles and lines are ASCII.
- Locale-dependent `isalnum` and `lower` for bytes above 127. The model uses the C locale, where only ASCII letters and digits count.
- The regex engine itself (split.py:9). The pattern is modelled by the scan `MatchAt`/`RewriteLinks`.
- Aliasing: `current_section` is the same list object as the last entry of `sections`. The model appends to the last section instead, which gives the same contents.
- In-place mutation of `sections` during the output loop: lines are rewritten into a new sequence per section. The navigation reads only titles and slugs, which the mutation does not touch.
- YAML escaping: a title containing `"` is written into the index unescaped, as in the script. No property about YAML well-formedness is stated.
