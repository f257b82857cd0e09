/** The search half of the YouTube Music client: cutting the embedded JSON
    out of a search page, undoing its escapes, and walking the decoded
    rendering tree to the first video id. */
module YouTube {
  import opened Wrappers
  import opened RustStr

  // ---------------------------------------------------------------------
  // Extraction of the embedded fragment

  /** Precedes the search payload in the page's script. */
  const OpeningMarker: string := "initialData.push({path: '\\/search',"
  /** Separates the request parameters from the escaped payload. */
  const DataMarker: string := "), data: '"
  /** Follows the payload. */
  const ClosingMarker: string := "'});ytcfg.set({'YTMUSIC_INITIAL_DATA'"

  /** The split/get/expect chain that cuts the fragment out of the body: the
      second piece at the opening marker, the second piece of that at the
      data marker, and the first piece of that at the closing marker. */
  function ExtractFragment(body: string): (r: Outcome<string>)
    ensures r.Panicked? ==> r.message == "Missing 1st data element" || r.message == "Missing 2nd data element"
  {
    match Get(Split(body, OpeningMarker), 1)
    case None => Panicked("Missing 1st data element")
    case Some(afterOpening) =>
      match Get(Split(afterOpening, DataMarker), 1)
      case None => Panicked("Missing 2nd data element")
      case Some(afterData) =>
        match Get(Split(afterData, ClosingMarker), 0)
        case None => Panicked("Missing 3rd data element")
        case Some(fragment) => Returned(fragment)
  }

  /** The opening and the data marker must be there, or extraction panics;
      a missing closing marker is never an error. */
  lemma ExtractionPanics(body: string)
    ensures ExtractFragment(body) == Panicked("Missing 1st data element")
            <==> !Contains(body, OpeningMarker)
    ensures Contains(body, OpeningMarker) ==>
              (ExtractFragment(body) == Panicked("Missing 2nd data element")
               <==> !Contains(Split(body, OpeningMarker)[1], DataMarker))
    ensures ExtractFragment(body).Panicked? ==>
              ExtractFragment(body).message != "Missing 3rd data element"
  {
  }

  /** The fragment lies between the markers: it is a substring of the body,
      contains none of the three markers, and runs to the end of the data
      piece when the closing marker is missing. */
  lemma ExtractionBounds(body: string)
    requires ExtractFragment(body).Returned?
    ensures var fragment := ExtractFragment(body).value;
            && Contains(body, fragment)
            && !Contains(fragment, OpeningMarker)
            && !Contains(fragment, DataMarker)
            && !Contains(fragment, ClosingMarker)
    ensures var afterData := Split(Split(body, OpeningMarker)[1], DataMarker)[1];
            && Contains(afterData, ExtractFragment(body).value)
            && (!Contains(afterData, ClosingMarker) ==> ExtractFragment(body).value == afterData)
  {
    var afterOpening := Split(body, OpeningMarker)[1];
    var afterData := Split(afterOpening, DataMarker)[1];
    var fragment := Split(afterData, ClosingMarker)[0];
    assert ExtractFragment(body).value == fragment;
    SplitPiece(body, OpeningMarker, 1);
    SplitPiece(afterOpening, DataMarker, 1);
    SplitPiece(afterData, ClosingMarker, 0);
    FirstPiece(afterData, ClosingMarker);
    ContainsTrans(afterOpening, afterData, fragment);
    ContainsTrans(body, afterOpening, fragment);
    if Contains(fragment, OpeningMarker) {
      ContainsTrans(afterOpening, fragment, OpeningMarker);
      assert false;
    }
    if Contains(fragment, DataMarker) {
      ContainsTrans(afterData, fragment, DataMarker);
      assert false;
    }
  }

  // ---------------------------------------------------------------------
  // Unescaping

  /** The eight replace-all steps of the unescape chain, in the order they
      run: hex escapes become `\u00` escapes, six of those become the
      structural characters they stand for, and a doubled backslash becomes
      one. */
  const UnescapeSteps: seq<(string, string)> := [
    ("\\x", "\\u00"),
    ("\\u0022", "\""),
    ("\\u003d", "="),
    ("\\u005d", "]"),
    ("\\u005b", "["),
    ("\\u007b", "{"),
    ("\\u007d", "}"),
    ("\\\\", "\\")
  ]

  /** The hex codes that the chain turns into structural characters, in the
      order of their steps (step `k + 1` handles entry `k`). */
  const StructuralHex: seq<(string, char)> := [
    ("22", '"'), ("3d", '='), ("5d", ']'), ("5b", '['), ("7b", '{'), ("7d", '}')
  ]

  ghost predicate PatternsStartWithBackslash(steps: seq<(string, string)>) {
    forall j :: 0 <= j < |steps| ==> |steps[j].0| > 0 && steps[j].0[0] == '\\'
  }

  /** `s.replace(p0, r0).replace(p1, r1)...` over the given steps. */
  function ApplySteps(s: string, steps: seq<(string, string)>): (r: string)
    requires forall j :: 0 <= j < |steps| ==> |steps[j].0| > 0
    ensures (forall j :: 0 <= j < |steps| ==> !Contains(s, steps[j].0)) ==> r == s
    decreases |steps|
  {
    if steps == [] then s
    else ApplySteps(ReplaceAll(s, steps[0].0, steps[0].1), steps[1..])
  }

  /** The unescape chain applied to the extracted fragment. Every pattern
      starts with a backslash, so text without one passes through the whole
      chain unchanged. */
  function Unescape(data: string): (r: string)
    ensures '\\' !in data ==> r == data
  {
    UnescapeStepsShape();
    ApplyStepsNoBackslash(data, UnescapeSteps);
    ApplySteps(data, UnescapeSteps)
  }

  // ---------------------------------------------------------------------
  // Facts about single replace steps

  lemma AbsentFirstChar(s: string, pat: string)
    requires |pat| > 0 && pat[0] !in s
    ensures forall rep :: ReplaceAll(s, pat, rep) == s
  {
  }

  /** Text that starts with the pattern has it replaced there first. */
  lemma ReplaceAtStart(pat: string, t: string, rep: string)
    requires |pat| > 0
    ensures ReplaceAll(pat + t, pat, rep) == rep + ReplaceAll(t, pat, rep)
  {
    var s := pat + t;
    assert s[..|pat|] == pat;
    assert IsAt(s, pat, 0);
    assert s[|pat|..] == t;
  }

  /** A backslash only at the start, and no match there: nothing changes. */
  lemma ReplaceMiss(s: string, pat: string, rep: string)
    requires |s| > 0 && |pat| > 0 && pat[0] == '\\' && '\\' !in s[1..]
    requires !IsAt(s, pat, 0)
    ensures ReplaceAll(s, pat, rep) == s
  {
    forall j: nat | 0 < j ensures !IsAt(s, pat, j) {
      if j < |s| { assert s[j] == s[1..][j - 1]; }
    }
  }

  // ---------------------------------------------------------------------
  // Facts about runs of steps

  /** The first step runs first. */
  lemma ApplyStepsCons(s: string, steps: seq<(string, string)>)
    requires |steps| > 0 && PatternsStartWithBackslash(steps)
    ensures PatternsStartWithBackslash(steps[1..])
    ensures ApplySteps(s, steps) == ApplySteps(ReplaceAll(s, steps[0].0, steps[0].1), steps[1..])
  {
  }

  lemma {:induction false} ApplyStepsAppend(s: string, a: seq<(string, string)>, b: seq<(string, string)>)
    requires PatternsStartWithBackslash(a) && PatternsStartWithBackslash(b)
    ensures PatternsStartWithBackslash(a + b)
    ensures ApplySteps(s, a + b) == ApplySteps(ApplySteps(s, a), b)
    decreases |a|
  {
    if a != [] {
      assert (a + b)[1..] == a[1..] + b;
      ApplyStepsAppend(ReplaceAll(s, a[0].0, a[0].1), a[1..], b);
    } else {
      assert a + b == b;
    }
  }

  lemma {:induction false} ApplyStepsNoBackslash(s: string, steps: seq<(string, string)>)
    requires PatternsStartWithBackslash(steps)
    ensures '\\' !in s ==> ApplySteps(s, steps) == s
    decreases |steps|
  {
    if steps != [] && '\\' !in s {
      AbsentFirstChar(s, steps[0].0);
      ApplyStepsNoBackslash(s, steps[1..]);
    }
  }

  lemma {:induction false} ApplyStepsMiss(s: string, steps: seq<(string, string)>)
    requires PatternsStartWithBackslash(steps)
    requires |s| > 0 && '\\' !in s[1..]
    requires forall j :: 0 <= j < |steps| ==> !IsAt(s, steps[j].0, 0)
    ensures ApplySteps(s, steps) == s
    decreases |steps|
  {
    if steps != [] {
      ReplaceMiss(s, steps[0].0, steps[0].1);
      ApplyStepsMiss(s, steps[1..]);
    }
  }

  // ---------------------------------------------------------------------
  // What the chain does

  /** Step `k + 1` of the chain turns `\u00` followed by the `k`-th hex code
      into its character. */
  lemma StructuralSteps()
    ensures forall k :: 0 <= k < |StructuralHex| ==>
              UnescapeSteps[k + 1] == ("\\u00" + StructuralHex[k].0, [StructuralHex[k].1])
    ensures forall k :: 0 <= k < |StructuralHex| ==>
              |StructuralHex[k].0| == 2 && '\\' !in StructuralHex[k].0 && StructuralHex[k].1 != '\\'
    ensures forall j, k :: 0 <= j < k < |StructuralHex| ==> StructuralHex[j].0 != StructuralHex[k].0
  {
    forall k | 0 <= k < |StructuralHex|
      ensures UnescapeSteps[k + 1] == ("\\u00" + StructuralHex[k].0, [StructuralHex[k].1])
    {
      if k == 0 {
        assert "\\u00" + "22" == "\\u0022";
      } else if k == 1 {
        assert "\\u00" + "3d" == "\\u003d";
      } else if k == 2 {
        assert "\\u00" + "5d" == "\\u005d";
      } else if k == 3 {
        assert "\\u00" + "5b" == "\\u005b";
      } else if k == 4 {
        assert "\\u00" + "7b" == "\\u007b";
      } else {
        assert "\\u00" + "7d" == "\\u007d";
      }
    }
  }

  /** `\x22`, `\x3d`, `\x5d`, `\x5b`, `\x7b` and `\x7d` followed by text
      without backslashes come out as `"`, `=`, `]`, `[`, `{` and `}`
      followed by that text, because the hex step runs first. */
  lemma UnescapeStructuralHex(k: nat, rest: string)
    requires k < |StructuralHex| && '\\' !in rest
    ensures Unescape("\\x" + StructuralHex[k].0 + rest) == [StructuralHex[k].1] + rest
  {
    StructuralSteps();
    UnescapeStepsShape();
    EarlierStructuralStepsMiss(k, rest);
    HexChain(StructuralHex[k].0, rest, UnescapeSteps, k + 1, StructuralHex[k].1);
  }

  /** A chain whose first step turns `\x` into `\u00`, whose next steps
      leave `\u00` + `hex` alone, and whose following step turns that into
      `c`, maps `\x` + `hex` to `c` (when nothing else has a backslash). */
  lemma HexChain(hex: string, rest: string, steps: seq<(string, string)>, m: nat, c: char)
    requires PatternsStartWithBackslash(steps) && 1 <= m < |steps|
    requires steps[0] == ("\\x", "\\u00") && steps[m] == ("\\u00" + hex, [c])
    requires '\\' !in hex + rest && c != '\\'
    requires ApplySteps("\\u00" + hex + rest, steps[1..m]) == "\\u00" + hex + rest
    ensures ApplySteps("\\x" + hex + rest, steps) == [c] + rest
  {
    HexFirst(hex, rest, steps);
    assert steps[1..][..m - 1] == steps[1..m];
    assert "\\u00" + hex + rest == ("\\u00" + hex) + rest;
    AfterHex("\\u00" + hex, rest, steps[1..], m - 1, c);
  }

  /** The first step rewrites the leading `\x`; the rest of the chain sees
      `\u00` in its place. */
  lemma HexFirst(hex: string, rest: string, steps: seq<(string, string)>)
    requires PatternsStartWithBackslash(steps) && |steps| > 0
    requires steps[0] == ("\\x", "\\u00") && '\\' !in hex + rest
    ensures ApplySteps("\\x" + hex + rest, steps) == ApplySteps("\\u00" + hex + rest, steps[1..])
  {
    HexStep(hex, rest);
    ApplyStepsCons("\\x" + hex + rest, steps);
  }

  /** Steps that leave `pat` + `rest` alone, then the step that turns `pat`
      into `c`, then any steps: the result is `c` + `rest`. */
  lemma AfterHex(pat: string, rest: string, steps: seq<(string, string)>, m: nat, c: char)
    requires PatternsStartWithBackslash(steps) && m < |steps|
    requires |pat| > 0 && pat[0] == '\\' && steps[m] == (pat, [c])
    requires '\\' !in rest && c != '\\'
    requires ApplySteps(pat + rest, steps[..m]) == pat + rest
    ensures ApplySteps(pat + rest, steps) == [c] + rest
  {
    var before, after := steps[..m], steps[m..];
    assert steps == before + after;
    ApplyStepsAppend(pat + rest, before, after);
    assert after == [(pat, [c])] + steps[m + 1..];
    ReplaceThenClean(pat, c, rest, steps[m + 1..]);
  }

  /** The hex step turns the leading `\x` into `\u00`. */
  lemma HexStep(hex: string, rest: string)
    requires '\\' !in hex + rest
    ensures ReplaceAll("\\x" + hex + rest, "\\x", "\\u00") == "\\u00" + hex + rest
  {
    assert "\\x" + hex + rest == "\\x" + (hex + rest);
    ReplaceAtStart("\\x", hex + rest, "\\u00");
    AbsentFirstChar(hex + rest, "\\x");
  }

  /** The structural steps that run before the one for the `k`-th code find
      no match in `\u00` followed by that code. */
  lemma EarlierStructuralStepsMiss(k: nat, rest: string)
    requires k < |StructuralHex| && '\\' !in rest
    ensures PatternsStartWithBackslash(UnescapeSteps[1..k + 1])
    ensures ApplySteps("\\u00" + StructuralHex[k].0 + rest, UnescapeSteps[1..k + 1])
            == "\\u00" + StructuralHex[k].0 + rest
  {
    StructuralSteps();
    var hex := StructuralHex[k].0;
    var s1 := "\\u00" + hex + rest;
    var before := UnescapeSteps[1..k + 1];
    UnescapeStepsShape();
    assert s1 == ("\\u00" + hex) + rest;
    forall j | 0 <= j < |before| ensures !IsAt(s1, before[j].0, 0) {
      var other := StructuralHex[j].0;
      assert before[j].0 == "\\u00" + other;
      assert ("\\u00" + other)[4..] == other && ("\\u00" + hex)[4..] == hex;
      SameLengthMismatch("\\u00" + other, "\\u00" + hex, rest);
    }
    assert s1[1..] == "u00" + hex + rest;
    assert '\\' !in s1[1..];
    ApplyStepsMiss(s1, before);
  }

  /** A pattern of the same length as, but different from, the start of the
      text does not occur at its start. */
  lemma SameLengthMismatch(pat: string, start: string, rest: string)
    requires |pat| == |start| && pat != start
    ensures !IsAt(start + rest, pat, 0)
  {
    assert (start + rest)[..|pat|] == start;
  }

  /** A step whose pattern starts the text replaces it by a character other
      than a backslash; no later step then finds anything. */
  lemma ReplaceThenClean(pat: string, c: char, rest: string, after: seq<(string, string)>)
    requires |pat| > 0 && pat[0] == '\\' && c != '\\' && '\\' !in rest
    requires PatternsStartWithBackslash(after)
    ensures PatternsStartWithBackslash([(pat, [c])] + after)
    ensures ApplySteps(pat + rest, [(pat, [c])] + after) == [c] + rest
  {
    var steps := [(pat, [c])] + after;
    assert steps[0] == (pat, [c]) && steps[1..] == after;
    ReplaceAtStart(pat, rest, [c]);
    AbsentFirstChar(rest, pat);
    assert ReplaceAll(pat + rest, pat, [c]) == [c] + rest;
    assert '\\' !in [c] + rest;
    ApplyStepsNoBackslash([c] + rest, after);
  }

  /** Every step's pattern starts with a backslash. */
  lemma UnescapeStepsShape()
    ensures PatternsStartWithBackslash(UnescapeSteps)
  {
  }

  /** A doubled backslash followed by text without backslashes that does
      not start with `x` or `u` comes out as one backslash followed by that
      text: the first seven patterns need an `x` or a `u` after their
      backslash, and the last step halves the pair. */
  lemma UnescapeDoubledBackslash(rest: string)
    requires '\\' !in rest && (rest == [] || (rest[0] != 'x' && rest[0] != 'u'))
    ensures Unescape("\\\\" + rest) == "\\" + rest
  {
    var s := "\\\\" + rest;
    var before, at := UnescapeSteps[..7], UnescapeSteps[7];
    assert UnescapeSteps == before + [at];
    UnescapeStepsShape();
    assert at == ("\\\\", "\\");
    forall j | 0 <= j < |before| ensures !Contains(s, before[j].0) {
      var p := before[j].0;
      assert |p| >= 2 && (p[1] == 'x' || p[1] == 'u');
      DoubledMiss(p, rest);
    }
    ApplyStepsAppend(s, before, [at]);
    ReplaceAtStart(at.0, rest, at.1);
    AbsentFirstChar(rest, at.0);
    assert ApplySteps(s, [at]) == ReplaceAll(s, at.0, at.1);
  }

  /** A pattern made of a backslash and a character that is neither a
      backslash nor the first character of `rest` does not occur in a
      doubled backslash followed by `rest`. */
  lemma DoubledMiss(p: string, rest: string)
    requires |p| >= 2 && p[0] == '\\' && p[1] != '\\'
    requires '\\' !in rest && (rest == [] || rest[0] != p[1])
    ensures !Contains("\\\\" + rest, p)
  {
    var s := "\\\\" + rest;
    forall i: nat ensures !IsAt(s, p, i) {
      if i + |p| <= |s| {
        var w := s[i..i + |p|];
        if i == 0 {
          assert w[1] == s[1] == '\\';
        } else if i == 1 {
          assert w[1] == s[2] == rest[0];
        } else {
          assert w[0] == s[i] == rest[i - 2];
        }
      }
    }
  }

  // ---------------------------------------------------------------------
  // The decoded rendering tree, one datatype per wrapper record

  /** The whole decoded payload (the record `Search`). */
  datatype SearchData = SearchData(contents: Contents)
  datatype Contents = Contents(tabbedSearchResultsRenderer: TabbedSearchResultsRenderer)
  datatype TabbedSearchResultsRenderer = TabbedSearchResultsRenderer(tabs: seq<Tab>)
  datatype Tab = Tab(tabRenderer: TabRenderer)
  datatype TabRenderer = TabRenderer(content: Content1)
  datatype Content1 = Content1(sectionListRenderer: SectionListRenderer)
  datatype SectionListRenderer = SectionListRenderer(contents: seq<Content2>)
  datatype Content2 = Content2(musicShelfRenderer: MusicShelfRenderer)
  datatype MusicShelfRenderer = MusicShelfRenderer(contents: seq<Content3>)
  datatype Content3 = Content3(musicResponsiveListItemRenderer: MusicResponsiveListItemRenderer)
  datatype MusicResponsiveListItemRenderer = MusicResponsiveListItemRenderer(flexColumns: seq<FlexColumn>)
  datatype FlexColumn = FlexColumn(musicResponsiveListItemFlexColumnRenderer: MusicResponsiveListItemFlexColumnRenderer)
  datatype MusicResponsiveListItemFlexColumnRenderer = MusicResponsiveListItemFlexColumnRenderer(text: Text)
  datatype Text = Text(runs: seq<Run>)
  datatype Run = Run(navigationEndpoint: Option<NavigationEndpoint>)
  datatype NavigationEndpoint = NavigationEndpoint(watchEndpoint: Option<WatchEndpoint>)
  datatype WatchEndpoint = WatchEndpoint(videoId: string)

  /** A run whose navigation endpoint carries a watch endpoint. */
  predicate HasWatch(r: Run) {
    r.navigationEndpoint.Some? && r.navigationEndpoint.value.watchEndpoint.Some?
  }

  function WatchId(r: Run): string
    requires HasWatch(r)
  {
    r.navigationEndpoint.value.watchEndpoint.value.videoId
  }

  function RunsOf(fc: FlexColumn): seq<Run> {
    fc.musicResponsiveListItemFlexColumnRenderer.text.runs
  }

  /** Run `j` is the first run of `rs` with a watch endpoint. */
  ghost predicate FirstWatchAt(rs: seq<Run>, j: int) {
    0 <= j < |rs| && HasWatch(rs[j]) && forall j' :: 0 <= j' < j ==> !HasWatch(rs[j'])
  }

  /** Run `j` of column `i` is the first run with a watch endpoint when the
      columns are read in order and each column's runs in order. */
  ghost predicate FirstWatchInColumnsAt(fcs: seq<FlexColumn>, i: int, j: int) {
    && 0 <= i < |fcs|
    && FirstWatchAt(RunsOf(fcs[i]), j)
    && forall i', j' :: 0 <= i' < i && 0 <= j' < |RunsOf(fcs[i'])| ==> !HasWatch(RunsOf(fcs[i'])[j'])
  }

  /** The inner loop: the video id of the first run with a watch endpoint;
      a run without a navigation endpoint, or with one that has no watch
      endpoint, is skipped. */
  function FirstInRuns(rs: seq<Run>): (r: Option<string>)
    ensures r.None? <==> forall j :: 0 <= j < |rs| ==> !HasWatch(rs[j])
    ensures r.Some? ==> exists j :: FirstWatchAt(rs, j) && WatchId(rs[j]) == r.value
  {
    if rs == [] then None
    else if HasWatch(rs[0]) then
      assert FirstWatchAt(rs, 0);
      Some(WatchId(rs[0]))
    else
      var r := FirstInRuns(rs[1..]);
      assert forall j :: 1 <= j < |rs| ==> rs[j] == rs[1..][j - 1];
      assert r.Some? ==> exists j :: FirstWatchAt(rs, j) && WatchId(rs[j]) == r.value by {
        if r.Some? {
          var j :| FirstWatchAt(rs[1..], j) && WatchId(rs[1..][j]) == r.value;
          assert FirstWatchAt(rs, j + 1);
        }
      }
      r
  }

  /** The outer loop: the first column (in order) in which the inner loop
      finds a run with a watch endpoint. */
  function FirstInColumns(fcs: seq<FlexColumn>): (r: Option<string>)
    ensures r.None? <==>
              forall i, j :: 0 <= i < |fcs| && 0 <= j < |RunsOf(fcs[i])| ==> !HasWatch(RunsOf(fcs[i])[j])
    ensures r.Some? ==>
              exists i, j :: FirstWatchInColumnsAt(fcs, i, j) && WatchId(RunsOf(fcs[i])[j]) == r.value
  {
    if fcs == [] then None
    else
      match FirstInRuns(RunsOf(fcs[0]))
      case Some(id) =>
        assert exists i, j :: FirstWatchInColumnsAt(fcs, i, j) && WatchId(RunsOf(fcs[i])[j]) == id by {
          var j :| FirstWatchAt(RunsOf(fcs[0]), j) && WatchId(RunsOf(fcs[0])[j]) == id;
          assert FirstWatchInColumnsAt(fcs, 0, j);
        }
        Some(id)
      case None =>
        var r := FirstInColumns(fcs[1..]);
        assert forall i :: 1 <= i < |fcs| ==> fcs[i] == fcs[1..][i - 1];
        assert r.Some? ==>
                 exists i, j :: FirstWatchInColumnsAt(fcs, i, j) && WatchId(RunsOf(fcs[i])[j]) == r.value by {
          if r.Some? {
            var i, j :| FirstWatchInColumnsAt(fcs[1..], i, j) && WatchId(RunsOf(fcs[1..][i])[j]) == r.value;
            assert FirstWatchInColumnsAt(fcs, i + 1, j);
          }
        }
        r
  }

  /** All runs of all columns, in reading order. */
  function AllRuns(fcs: seq<FlexColumn>): seq<Run> {
    if fcs == [] then [] else RunsOf(fcs[0]) + AllRuns(fcs[1..])
  }

  lemma {:induction false} FirstInRunsConcat(a: seq<Run>, b: seq<Run>)
    ensures FirstInRuns(a + b) == if FirstInRuns(a).Some? then FirstInRuns(a) else FirstInRuns(b)
    decreases |a|
  {
    if a != [] {
      assert (a + b)[0] == a[0];
      assert (a + b)[1..] == a[1..] + b;
      FirstInRunsConcat(a[1..], b);
    } else {
      assert a + b == b;
    }
  }

  /** The nested loops return what one scan over all runs, read column by
      column, would return. */
  lemma {:induction false} FirstInColumnsIsFirstOfAllRuns(fcs: seq<FlexColumn>)
    ensures FirstInColumns(fcs) == FirstInRuns(AllRuns(fcs))
    decreases |fcs|
  {
    if fcs != [] {
      FirstInRunsConcat(RunsOf(fcs[0]), AllRuns(fcs[1..]));
      FirstInColumnsIsFirstOfAllRuns(fcs[1..]);
    }
  }

  // ---------------------------------------------------------------------
  // The walk along the fixed path

  /** Tab 0, section-list entry 1 and shelf item 0 all exist. */
  predicate FixedPathExists(contents: Contents) {
    var tabs := contents.tabbedSearchResultsRenderer.tabs;
    && |tabs| > 0
    && |tabs[0].tabRenderer.content.sectionListRenderer.contents| > 1
    && |tabs[0].tabRenderer.content.sectionListRenderer.contents[1].musicShelfRenderer.contents| > 0
  }

  /** The flex columns of shelf item 0 of section-list entry 1 of tab 0. */
  function FixedColumns(contents: Contents): seq<FlexColumn>
    requires FixedPathExists(contents)
  {
    contents.tabbedSearchResultsRenderer.tabs[0].tabRenderer.content.sectionListRenderer
      .contents[1].musicShelfRenderer.contents[0].musicResponsiveListItemRenderer.flexColumns
  }

  /** `get_video_id`: walk the fixed path, panicking at the first missing
      step, then scan the flex columns. */
  function GetVideoId(contents: Contents): (r: Outcome<Option<string>>)
    ensures r.Panicked? <==> !FixedPathExists(contents)
    ensures r.Panicked? ==> r.message in {"Missing tab 0", "Missing contents 1", "Missing contents 0"}
    ensures var tabs := contents.tabbedSearchResultsRenderer.tabs;
            && (|tabs| == 0 ==> r == Panicked("Missing tab 0"))
            && (|tabs| > 0 && |tabs[0].tabRenderer.content.sectionListRenderer.contents| <= 1 ==>
                  r == Panicked("Missing contents 1"))
            && (|tabs| > 0 && |tabs[0].tabRenderer.content.sectionListRenderer.contents| > 1
                && |tabs[0].tabRenderer.content.sectionListRenderer.contents[1].musicShelfRenderer.contents| == 0 ==>
                  r == Panicked("Missing contents 0"))
  {
    match Get(contents.tabbedSearchResultsRenderer.tabs, 0)
    case None => Panicked("Missing tab 0")
    case Some(tab) =>
      match Get(tab.tabRenderer.content.sectionListRenderer.contents, 1)
      case None => Panicked("Missing contents 1")
      case Some(section) =>
        match Get(section.musicShelfRenderer.contents, 0)
        case None => Panicked("Missing contents 0")
        case Some(item) => Returned(FirstInColumns(item.musicResponsiveListItemRenderer.flexColumns))
  }

  /** Only the fixed path is inspected: a missing tab, section or item
      panics (never `None`); otherwise the result is the first run with a
      watch endpoint over the columns of that one item, and `None` exactly
      when no run there has one. */
  lemma GetVideoIdSpec(contents: Contents)
    ensures GetVideoId(contents).Panicked? <==> !FixedPathExists(contents)
    ensures FixedPathExists(contents) ==>
              && GetVideoId(contents).value == FirstInRuns(AllRuns(FixedColumns(contents)))
              && (GetVideoId(contents).value.None? <==>
                    forall i, j :: 0 <= i < |FixedColumns(contents)| && 0 <= j < |RunsOf(FixedColumns(contents)[i])|
                      ==> !HasWatch(RunsOf(FixedColumns(contents)[i])[j]))
    ensures |contents.tabbedSearchResultsRenderer.tabs| == 0 ==> GetVideoId(contents) == Panicked("Missing tab 0")
  {
    if FixedPathExists(contents) {
      FirstInColumnsIsFirstOfAllRuns(FixedColumns(contents));
    }
  }

  // ---------------------------------------------------------------------
  // The whole extraction

  /** `search` after the HTTP request: extract, unescape, decode with the
      given JSON decoder, walk. A decoder error is returned as an error;
      missing markers and a missing tab, section or item panic. */
  function Search(body: string, decode: string -> Result<SearchData>): (r: Outcome<Result<Option<string>>>)
    ensures r.Panicked? ==> r.message in {"Missing 1st data element", "Missing 2nd data element",
                                          "Missing tab 0", "Missing contents 1", "Missing contents 0"}
  {
    match ExtractFragment(body)
    case Panicked(message) => Panicked(message)
    case Returned(data) =>
      match decode(Unescape(data))
      case Failure(e) => Returned(Failure(e))
      case Success(d) =>
        match GetVideoId(d.contents)
        case Panicked(message) => Panicked(message)
        case Returned(id) => Returned(Success(id))
  }

  /** A body without the opening marker, or without the data marker after
      it, aborts before the decoder is consulted; a decoder error becomes an
      `Err`; with a decoded payload whose fixed path exists, the result is
      the first watch id on that path, or `None`. */
  lemma SearchOutcomes(body: string, decode: string -> Result<SearchData>)
    ensures !Contains(body, OpeningMarker) ==>
              Search(body, decode) == Panicked("Missing 1st data element")
    ensures Contains(body, OpeningMarker) && !Contains(Split(body, OpeningMarker)[1], DataMarker) ==>
              Search(body, decode) == Panicked("Missing 2nd data element")
    ensures ExtractFragment(body).Returned? ==>
              var decoded := decode(Unescape(ExtractFragment(body).value));
              && (decoded.Failure? ==> Search(body, decode) == Returned(Failure(decoded.error)))
              && (decoded.Success? && FixedPathExists(decoded.value.contents) ==>
                    Search(body, decode) == Returned(Success(FirstInRuns(AllRuns(FixedColumns(decoded.value.contents))))))
  {
    ExtractionPanics(body);
    if ExtractFragment(body).Returned? {
      var decoded := decode(Unescape(ExtractFragment(body).value));
      if decoded.Success? {
        GetVideoIdSpec(decoded.value.contents);
      }
    }
  }
}
