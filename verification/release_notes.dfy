/**
 * Release-note rendering (scripts/render_release_notes.py): cutting one
 * version's section out of a changelog given as its lines, and filling the
 * release-notes template around it.
 */
module ReleaseNotes {
  import opened Wrappers

  /** The heading that opens a version's section: the version in square brackets after `## `. */
  function Header(version: string): string {
    "## [" + version + "]"
  }

  /** Any second-level heading. */
  predicate IsHeading(line: string) {
    "## " <= line
  }

  predicate IsHeader(line: string, version: string) {
    Header(version) <= line
  }

  /** A heading of some other section: where collection stops. */
  predicate IsStop(line: string, version: string) {
    IsHeading(line) && !IsHeader(line, version)
  }

  /** The first index at or after `from` holding the version's header, or `|lines|`. */
  function FirstHeader(lines: seq<string>, version: string, from: nat): (r: nat)
    requires from <= |lines|
    ensures from <= r <= |lines|
    ensures forall j :: from <= j < r ==> !IsHeader(lines[j], version)
    ensures r < |lines| ==> IsHeader(lines[r], version)
    decreases |lines| - from
  {
    if from == |lines| || IsHeader(lines[from], version) then from
    else FirstHeader(lines, version, from + 1)
  }

  /** The first index at or after `from` holding another section's heading, or `|lines|`. */
  function FirstStop(lines: seq<string>, version: string, from: nat): (r: nat)
    requires from <= |lines|
    ensures from <= r <= |lines|
    ensures forall j :: from <= j < r ==> !IsStop(lines[j], version)
    ensures r < |lines| ==> IsStop(lines[r], version)
    decreases |lines| - from
  {
    if from == |lines| || IsStop(lines[from], version) then from
    else FirstStop(lines, version, from + 1)
  }

  /**
   * The section a changelog holds for `version`, stated without the scan:
   * from the first header line up to, not including, the next heading of
   * another section; empty when no line is a header.
   */
  function Section(lines: seq<string>, version: string): seq<string> {
    var h := FirstHeader(lines, version, 0);
    if h == |lines| then [] else lines[h..FirstStop(lines, version, h + 1)]
  }

  /**
   * The scan of `extract_changelog_section`: start collecting at a header
   * line, keep every line that is not a heading, keep further header lines,
   * and stop at the first heading of another section.
   */
  method CollectSection(lines: seq<string>, version: string) returns (buffer: seq<string>)
    ensures buffer == Section(lines, version)
  {
    var header := Header(version);
    var collecting := false;
    buffer := [];
    ghost var h := FirstHeader(lines, version, 0);
    var i := 0;
    while i < |lines|
      invariant 0 <= i <= |lines|
      invariant collecting <==> h < i
      invariant !collecting ==> buffer == []
      invariant collecting ==> h < |lines| && buffer == lines[h..i] && FirstStop(lines, version, h + 1) >= i
    {
      var line := lines[i];
      if !collecting {
        HeaderAt(lines, version, i);
      } else {
        StopAt(lines, version, h + 1, i);
      }
      if h <= i {
        assert lines[h..i + 1] == lines[h..i] + [line];
      }
      if "## " <= line {
        if header <= line {
          collecting := true;
          buffer := buffer + [line];
          i := i + 1;
          continue;
        } else if collecting {
          break;
        }
      } else if collecting {
        buffer := buffer + [line];
      }
      i := i + 1;
    }
  }

  /** Scanning forward from where no header was seen yet, line `i` is a header exactly when it is the first. */
  lemma HeaderAt(lines: seq<string>, version: string, i: nat)
    requires i < |lines| && FirstHeader(lines, version, 0) >= i
    ensures IsHeader(lines[i], version) <==> FirstHeader(lines, version, 0) == i
  {
  }

  /** Scanning forward from where no stop was seen yet, line `i` is a stop exactly when it is the first. */
  lemma StopAt(lines: seq<string>, version: string, from: nat, i: nat)
    requires from <= i < |lines| && FirstStop(lines, version, from) >= i
    ensures IsStop(lines[i], version) <==> FirstStop(lines, version, from) == i
  {
  }

  /** Drops the blank lines at the end of the collected section, and only those. */
  function TrimTrailingBlanks(buffer: seq<string>): (r: seq<string>)
    ensures r <= buffer
    ensures r == [] || r[|r| - 1] != ""
    ensures forall j :: |r| <= j < |buffer| ==> buffer[j] == ""
    decreases |buffer|
  {
    if |buffer| > 0 && buffer[|buffer| - 1] == "" then TrimTrailingBlanks(buffer[..|buffer| - 1])
    else buffer
  }

  /** The lines with one newline between each two and none at either end. */
  function JoinLines(lines: seq<string>): (r: string)
    ensures lines == [] ==> r == ""
    ensures lines != [] ==> lines[0] <= r
    ensures |lines| > 1 ==> |r| > |lines[0]| && r[|lines[0]|] == '\n'
    decreases |lines|
  {
    if |lines| == 0 then ""
    else if |lines| == 1 then lines[0]
    else lines[0] + "\n" + JoinLines(lines[1..])
  }

  datatype Error = VersionNotFound(version: string)

  /** The lines `extract_changelog_section` joins into its result. */
  function SectionLines(lines: seq<string>, version: string): seq<string> {
    TrimTrailingBlanks(Section(lines, version))
  }

  /**
   * `extract_changelog_section` on the lines of the changelog: the section's
   * lines without trailing blank lines, joined with newlines; `ValueError`
   * exactly when no line starts with the version's header.
   */
  method ExtractChangelogSection(lines: seq<string>, version: string) returns (r: Result<string, Error>)
    ensures r.Failure? <==> forall j :: 0 <= j < |lines| ==> !IsHeader(lines[j], version)
    ensures r.Failure? ==> r.error == VersionNotFound(version)
    ensures r.Success? ==> r.value == JoinLines(SectionLines(lines, version))
  {
    var buffer := CollectSection(lines, version);
    if buffer == [] {
      return Failure(VersionNotFound(version));
    }
    SectionEmptyIffNoHeader(lines, version);
    r := Success(JoinLines(TrimTrailingBlanks(buffer)));
  }

  lemma SectionEmptyIffNoHeader(lines: seq<string>, version: string)
    ensures Section(lines, version) == [] <==> forall j :: 0 <= j < |lines| ==> !IsHeader(lines[j], version)
  {
    var h := FirstHeader(lines, version, 0);
    if h < |lines| {
      assert Section(lines, version)[0] == lines[h];
    }
  }

  /**
   * What `extract_changelog_section` returns, in terms of the changelog: the
   * lines from the first header line onwards, never an earlier one, ending
   * before the next heading of another section, with only blank lines cut
   * from the end; the header line itself always survives.
   */
  lemma SectionShape(lines: seq<string>, version: string)
    requires exists j :: 0 <= j < |lines| && IsHeader(lines[j], version)
    ensures var h := FirstHeader(lines, version, 0);
            var stop := FirstStop(lines, version, h + 1);
            var out := SectionLines(lines, version);
            && h < stop <= |lines|
            && (forall j :: 0 <= j < h ==> !IsHeader(lines[j], version))
            && (stop < |lines| ==> IsStop(lines[stop], version))
            && 0 < |out| <= stop - h
            && out == lines[h..h + |out|]
            && IsHeader(out[0], version)
            && out[|out| - 1] != ""
            && (forall j :: h + |out| <= j < stop ==> lines[j] == "")
  {
    var h := FirstHeader(lines, version, 0);
    var stop := FirstStop(lines, version, h + 1);
    SectionStart(lines, version);
    var out := SectionLines(lines, version);
    TrimmedSection(lines, version, h, stop, out);
    assert IsHeader(out[0], version);
  }

  /** With some header line present, the first one opens a run of at least one line. */
  lemma SectionStart(lines: seq<string>, version: string)
    requires exists j :: 0 <= j < |lines| && IsHeader(lines[j], version)
    ensures FirstHeader(lines, version, 0) < |lines|
  {
    var w :| 0 <= w < |lines| && IsHeader(lines[w], version);
    assert FirstHeader(lines, version, 0) <= w;
  }

  /** The section's lines, trimmed, are a prefix of the run between header and stop. */
  lemma TrimmedSection(lines: seq<string>, version: string, h: nat, stop: nat, out: seq<string>)
    requires h == FirstHeader(lines, version, 0) < |lines|
    requires stop == FirstStop(lines, version, h + 1)
    requires out == SectionLines(lines, version)
    ensures && 0 < |out| <= stop - h
            && out == lines[h..h + |out|]
            && out[0] == lines[h]
            && out[|out| - 1] != ""
            && forall j :: h + |out| <= j < stop ==> lines[j] == ""
  {
    HeaderLineNotBlank(lines[h], version);
    SectionIsSlice(lines, version);
    TrimInside(lines, h, stop, out);
  }

  /** Trimming the lines `h..stop`, the first of them non-blank, keeps that line and cuts only blanks. */
  lemma TrimInside(lines: seq<string>, h: nat, stop: nat, out: seq<string>)
    requires h < stop <= |lines| && lines[h] != ""
    requires out == TrimTrailingBlanks(lines[h..stop])
    ensures && 0 < |out| <= stop - h
            && out == lines[h..h + |out|]
            && out[0] == lines[h]
            && out[|out| - 1] != ""
            && forall j :: h + |out| <= j < stop ==> lines[j] == ""
  {
    var run := lines[h..stop];
    assert run[0] == lines[h];
    assert run[..|out|] == lines[h..h + |out|];
    forall j | h + |out| <= j < stop ensures lines[j] == "" {
      assert lines[j] == run[j - h];
    }
  }

  lemma HeaderLineNotBlank(line: string, version: string)
    requires IsHeader(line, version)
    ensures line != ""
  {
    assert line[0] == Header(version)[0];
  }

  /**
   * A line between the header and the stop is kept in place, blank lines,
   * `### ` subheadings and repeated headers of the same version included.
   */
  lemma LineInsideSectionKept(lines: seq<string>, version: string, j: nat)
    requires j < |lines|
    requires FirstHeader(lines, version, 0) < j < FirstStop(lines, version, FirstHeader(lines, version, 0) + 1)
    ensures Section(lines, version)[j - FirstHeader(lines, version, 0)] == lines[j]
    ensures !IsStop(lines[j], version)
  {
    var h := FirstHeader(lines, version, 0);
    var stop := FirstStop(lines, version, h + 1);
    SectionIsSlice(lines, version);
    assert lines[h..stop][j - h] == lines[j];
    NoStopBefore(lines, version, h + 1, j);
  }

  lemma NoStopBefore(lines: seq<string>, version: string, from: nat, j: nat)
    requires from <= |lines| && from <= j < FirstStop(lines, version, from)
    ensures !IsStop(lines[j], version)
  {
  }

  lemma SectionIsSlice(lines: seq<string>, version: string)
    requires FirstHeader(lines, version, 0) < |lines|
    ensures var h := FirstHeader(lines, version, 0);
            Section(lines, version) == lines[h..FirstStop(lines, version, h + 1)]
  {
  }

  /** Joining two non-empty runs of lines puts one newline between their joins. */
  lemma {:induction false} JoinLinesAppend(a: seq<string>, b: seq<string>)
    requires a != [] && b != []
    ensures JoinLines(a + b) == JoinLines(a) + "\n" + JoinLines(b)
    decreases |a|
  {
    if |a| == 1 {
      assert (a + b)[1..] == b;
    } else {
      assert (a + b)[1..] == a[1..] + b;
      JoinLinesAppend(a[1..], b);
    }
  }

  /** The published image's name under the given owner on the GitHub container registry. */
  function ImageRef(owner: string): string {
    "ghcr.io/" + owner + "/image_store_service"
  }

  function ImageLine(owner: string, version: string): string {
    "- Image: `" + ImageRef(owner) + ":" + version + "`"
  }

  function DigestLine(owner: string, digest: string): string {
    "- Digest: `" + ImageRef(owner) + "@" + digest + "`"
  }

  /** The template lines before the image references. */
  function Preamble(changelogSection: string): seq<string> {
    [changelogSection, "", "---", "", "## Deployment", ""]
  }

  /** The template lines after the image references. */
  const Trailer: seq<string> := [
    "- Cosign: Keyless signature via GitHub OIDC (attached attestation)",
    "- SBOM: `sbom.spdx.json` (SPDX JSON)",
    "- Provenance: `provenance.intoto.jsonl` (SLSA provenance attestation)",
    "- Example config: `example.env`",
    "- Compose snippet: `compose.service.yaml`",
    "- Debug bundle: `dist.tar.gz`",
    "",
    "## Operations",
    "",
    "- Health endpoint: `GET /health`",
    "- Storage: File-system blobs at `ISS_DATA` (no DB migrations required)",
    "- Backward compatibility: Compatible with previous `ISS_DATA` contents"
  ]

  /** `render_notes`: the template lines joined with newlines, plus one final newline. */
  function RenderNotes(version: string, owner: string, digest: string, changelogSection: string): (r: string)
    ensures changelogSection <= r
    ensures |r| > |changelogSection| && r[|changelogSection|] == '\n'
    ensures r[|r| - 1] == '\n'
  {
    JoinLines(Preamble(changelogSection) + [ImageLine(owner, version), DigestLine(owner, digest)] + Trailer) + "\n"
  }

  /** Joining a line in front of a non-empty run puts one newline between them. */
  lemma JoinCons(x: string, rest: seq<string>)
    requires rest != []
    ensures JoinLines([x] + rest) == x + "\n" + JoinLines(rest)
  {
    assert ([x] + rest)[1..] == rest;
  }

  /** The six preamble lines joined, one newline between each two. */
  lemma JoinSix(a: string, b: string, c: string, d: string, e: string, f: string)
    ensures JoinLines([a, b, c, d, e, f]) == a + "\n" + (b + "\n" + (c + "\n" + (d + "\n" + (e + "\n" + f))))
  {
    JoinCons(e, [f]);
    assert [e, f] == [e] + [f];
    JoinCons(d, [e, f]);
    assert [d, e, f] == [d] + [e, f];
    JoinCons(c, [d, e, f]);
    assert [c, d, e, f] == [c] + [d, e, f];
    JoinCons(b, [c, d, e, f]);
    assert [b, c, d, e, f] == [b] + [c, d, e, f];
    JoinCons(a, [b, c, d, e, f]);
    assert [a, b, c, d, e, f] == [a] + [b, c, d, e, f];
  }

  lemma JoinPreamble(changelogSection: string)
    ensures JoinLines(Preamble(changelogSection)) == changelogSection + "\n\n---\n\n## Deployment\n"
  {
    JoinSix(changelogSection, "", "---", "", "## Deployment", "");
    var tail := "\n" + ("" + "\n" + ("---" + "\n" + ("" + "\n" + ("## Deployment" + "\n" + ""))));
    assert tail == "\n\n---\n\n## Deployment\n";
  }

  /** Two lines placed between two non-empty runs of lines keep their own line breaks. */
  lemma JoinAround(pre: seq<string>, img: string, dig: string, post: seq<string>)
    requires pre != [] && post != []
    ensures JoinLines(pre + [img, dig] + post)
         == JoinLines(pre) + "\n" + img + "\n" + dig + "\n" + JoinLines(post)
  {
    var refs := [img, dig];
    assert pre + refs + post == pre + (refs + post);
    JoinLinesAppend(pre, refs + post);
    JoinLinesAppend(refs, post);
    assert JoinLines(refs) == img + "\n" + dig by {
      assert refs[1..] == [dig];
    }
  }

  /** Regroupings of a concatenation of eight strings. */
  lemma Regroup(a: string, b: string, c: string, d: string, e: string, f: string, g: string, h: string)
    ensures a + b <= a + b + c + d + e + f + g + h
    ensures a + b + c + d + e + f + g + h == a + b + c + d + e + f + (g + h)
    ensures a + b + c + d + e + f + g + h == (a + b + c + d + e + f) + (g + h)
  {
    assert a + b + c + d + e + f + g + h == (a + b) + (c + d + e + f + g + h);
  }

  /** The middle of a concatenation of eight strings is an infix of it. */
  lemma MiddleIsInfix(a: string, b: string, c: string, d: string, e: string, f: string, g: string, h: string)
    ensures exists pre, post :: a + b + c + d + e + f + g + h == pre + b + c + d + e + f + post
  {
    Regroup(a, b, c, d, e, f, g, h);
  }

  /** The rendered text cut at the two reference lines. */
  lemma RenderNotesParts(version: string, owner: string, digest: string, changelogSection: string)
    ensures RenderNotes(version, owner, digest, changelogSection)
         == (changelogSection + "\n\n---\n\n## Deployment\n") + "\n" + ImageLine(owner, version) + "\n"
            + DigestLine(owner, digest) + "\n" + JoinLines(Trailer) + "\n"
  {
    JoinAround(Preamble(changelogSection), ImageLine(owner, version), DigestLine(owner, digest), Trailer);
    JoinPreamble(changelogSection);
  }

  /** The rendered notes open with the changelog section and the deployment heading. */
  lemma RenderNotesStartsWithSection(version: string, owner: string, digest: string, changelogSection: string)
    ensures changelogSection + "\n\n---\n\n## Deployment\n\n" <= RenderNotes(version, owner, digest, changelogSection)
  {
    RenderNotesParts(version, owner, digest, changelogSection);
    var opening := changelogSection + "\n\n---\n\n## Deployment\n";
    Regroup(opening, "\n", ImageLine(owner, version), "\n", DigestLine(owner, digest), "\n", JoinLines(Trailer), "\n");
    assert opening + "\n" == changelogSection + "\n\n---\n\n## Deployment\n\n";
  }

  /** The rendered notes end with exactly one newline. */
  lemma RenderNotesEndsWithOneNewline(version: string, owner: string, digest: string, changelogSection: string)
    ensures var r := RenderNotes(version, owner, digest, changelogSection);
            |r| >= 2 && r[|r| - 1] == '\n' && r[|r| - 2] != '\n'
  {
    var all := Preamble(changelogSection) + [ImageLine(owner, version), DigestLine(owner, digest)] + Trailer;
    var last := Trailer[|Trailer| - 1];
    assert all[|all| - 1] == last;
    assert last[|last| - 1] == 's';
    JoinEndsWithLastLine(all);
    OneFinalNewline(JoinLines(all));
  }

  /** The join of lines whose last line is non-empty ends with that line's last character. */
  lemma {:induction false} JoinEndsWithLastLine(lines: seq<string>)
    requires lines != [] && lines[|lines| - 1] != ""
    ensures var j, last := JoinLines(lines), lines[|lines| - 1];
            j != "" && j[|j| - 1] == last[|last| - 1]
    decreases |lines|
  {
    if |lines| > 1 {
      JoinEndsWithLastLine(lines[1..]);
      var rest := JoinLines(lines[1..]);
      var j := lines[0] + "\n" + rest;
      assert j[|j| - 1] == rest[|rest| - 1];
    }
  }

  lemma OneFinalNewline(text: string)
    requires text != "" && text[|text| - 1] != '\n'
    ensures var r := text + "\n"; |r| >= 2 && r[|r| - 1] == '\n' && r[|r| - 2] != '\n'
  {
  }

  /** The image and digest references appear as whole lines of the rendered notes. */
  lemma RenderNotesHasReferences(version: string, owner: string, digest: string, changelogSection: string)
    ensures exists pre, post ::
              RenderNotes(version, owner, digest, changelogSection)
              == pre + "\n" + ImageLine(owner, version) + "\n" + DigestLine(owner, digest) + "\n" + post
  {
    RenderNotesParts(version, owner, digest, changelogSection);
    var opening := changelogSection + "\n\n---\n\n## Deployment\n";
    MiddleIsInfix(opening, "\n", ImageLine(owner, version), "\n", DigestLine(owner, digest), "\n", JoinLines(Trailer), "\n");
  }
}
