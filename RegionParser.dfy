/**
 * The region parser: one forward pass over the lines of the generated file,
 * cutting it into named regions. Every region carries a copy of the lines seen
 * outside any region so far (the imports) followed by its own body.
 */
module RegionParser {
  import opened Wrappers
  import opened Text
  import opened Replace
  import opened Regions

  const REGION_START := "#region"
  const REGION_END := "#endregion"

  /** The line, once its leading whitespace is skipped, starts with "#region". */
  predicate IsRegionStart(line: string)
  {
    if line != [] && IsWhiteSpace(line[0]) then IsRegionStart(line[1..])
    else StartsWith(line, REGION_START)
  }

  /** The line, once its leading whitespace is skipped, starts with "#endregion". */
  predicate IsRegionEnd(line: string)
  {
    if line != [] && IsWhiteSpace(line[0]) then IsRegionEnd(line[1..])
    else StartsWith(line, REGION_END)
  }

  predicate IsMarker(line: string)
  {
    IsRegionStart(line) || IsRegionEnd(line)
  }

  /** The marker tests are the tests on the left-trimmed line. */
  lemma {:induction false} MarkerTests(line: string)
    ensures IsRegionStart(line) == StartsWith(TrimStart(line), REGION_START)
    ensures IsRegionEnd(line) == StartsWith(TrimStart(line), REGION_END)
  {
    if line != [] && IsWhiteSpace(line[0]) {
      MarkerTests(line[1..]);
    }
  }

  /** No line is both kinds of marker ("#endregion" does not start with "#region"). */
  lemma StartIsNotEnd(line: string)
    ensures !(IsRegionStart(line) && IsRegionEnd(line))
  {
    MarkerTests(line);
    var t := TrimStart(line);
    if IsRegionStart(line) && |REGION_END| <= |t| {
      assert t[..|REGION_START|][1] == 'r';
      assert t[..|REGION_END|][1] == 'r';
    }
  }

  /** The name a #region line gives: every "#region" removed from the left-trimmed line, then trimmed. */
  function RegionName(line: string): string
  {
    Trim(ReplaceAll(TrimStart(line), REGION_START, ""))
  }

  /** The parser's variables between two lines. */
  datatype State = State(
    inRegion: bool,
    currentRegion: string,
    currentLines: seq<string>,
    imports: seq<string>,
    regions: seq<Region>)

  const START: State := State(false, "", [], [], [])

  /** What reading one line does to the parser's variables. */
  function Step(st: State, line: string): State
  {
    if IsRegionStart(line) then
      st.(inRegion := true, currentRegion := RegionName(line))
    else if IsRegionEnd(line) then
      if st.inRegion then
        st.(regions := st.regions + [Region(st.currentRegion, st.imports + st.currentLines)],
            currentLines := [], inRegion := false)
      else st
    else if !st.inRegion then
      st.(imports := st.imports + [line])
    else
      st.(currentLines := st.currentLines + [line])
  }

  /** The variables after reading all of `lines`. */
  function StateAfter(lines: seq<string>): State
  {
    if lines == [] then START
    else Step(StateAfter(lines[..|lines| - 1]), lines[|lines| - 1])
  }

  function ParseLines(lines: seq<string>): seq<Region>
  {
    StateAfter(lines).regions
  }

  /** RegionParser.Parse: `file` is None when the file does not exist, else its lines. */
  method Parse(file: Option<seq<string>>) returns (regions: seq<Region>)
    ensures file.None? ==> regions == []
    ensures file.Some? ==> regions == ParseLines(file.value)
  {
    if file.None? {
      return [];
    }
    var lines := file.value;
    regions := [];
    var currentRegion := "";
    var currentLines: seq<string> := [];
    var imports: seq<string> := [];
    var inRegion := false;
    for i := 0 to |lines|
      invariant StateAfter(lines[..i]) == State(inRegion, currentRegion, currentLines, imports, regions)
    {
      var line := lines[i];
      assert lines[..i + 1][..i] == lines[..i];
      var trimmed := TrimStart(line);
      MarkerTests(line);
      if StartsWith(trimmed, REGION_START) {
        inRegion := true;
        currentRegion := RegionName(line);
        continue;
      }
      if StartsWith(trimmed, REGION_END) {
        if inRegion {
          regions := regions + [Region(currentRegion, imports + currentLines)];
          currentLines := [];
          inRegion := false;
        }
        continue;
      }
      if !inRegion {
        imports := imports + [line];
      } else {
        currentLines := currentLines + [line];
      }
    }
    assert lines[..|lines|] == lines;
  }

  // ---------------------------------------------------------------------------
  // A declarative reading of the same file, line by line.
  // ---------------------------------------------------------------------------

  /** No marker line follows position `o`. */
  ghost predicate QuietAfter(lines: seq<string>, o: int)
  {
    forall m :: 0 <= o < m < |lines| ==> !IsMarker(lines[m])
  }

  /** The #region line at `o` is still open at the end of `lines`. */
  ghost predicate OpenedAt(lines: seq<string>, o: int)
  {
    0 <= o < |lines| && IsRegionStart(lines[o]) && QuietAfter(lines, o)
  }

  /** A region is open after `lines`: the last marker line among them is a #region line. */
  ghost predicate Opens(lines: seq<string>)
  {
    exists o :: OpenedAt(lines, o)
  }

  /** The name given by the last #region line, or "" when there is none. */
  function LastName(lines: seq<string>): string
  {
    if lines == [] then ""
    else if IsRegionStart(lines[|lines| - 1]) then RegionName(lines[|lines| - 1])
    else LastName(lines[..|lines| - 1])
  }

  /** The ordinary lines read while no region was open, in order. */
  ghost function Outside(lines: seq<string>): seq<string>
  {
    if lines == [] then []
    else
      var n := |lines| - 1;
      Outside(lines[..n]) + (if !IsMarker(lines[n]) && !Opens(lines[..n]) then [lines[n]] else [])
  }

  /** The ordinary lines at positions `from` and later read while a region was open, in order. */
  ghost function Inside(lines: seq<string>, from: int): seq<string>
  {
    if lines == [] then []
    else
      var n := |lines| - 1;
      Inside(lines[..n], from) + (if from <= n && !IsMarker(lines[n]) && Opens(lines[..n]) then [lines[n]] else [])
  }

  /** The positions of the #endregion lines that close an open region, in increasing order. */
  ghost function Closings(lines: seq<string>): (cs: seq<int>)
    ensures forall k :: 0 <= k < |cs| ==> 0 <= cs[k] < |lines|
    ensures forall k, m :: 0 <= k < m < |cs| ==> cs[k] < cs[m]
  {
    if lines == [] then []
    else
      var n := |lines| - 1;
      Closings(lines[..n]) + (if IsRegionEnd(lines[n]) && Opens(lines[..n]) then [n] else [])
  }

  /** Where the body of the next region begins: just after the last closing marker. */
  ghost function Resume(lines: seq<string>): (r: int)
    ensures 0 <= r <= |lines|
  {
    var cs := Closings(lines);
    if cs == [] then 0 else cs[|cs| - 1] + 1
  }

  /** The region emitted by the closing marker at position `j`. */
  ghost function EmittedAt(lines: seq<string>, j: int): Region
    requires 0 <= j <= |lines|
  {
    var before := lines[..j];
    Region(LastName(before), Outside(before) + Inside(before, Resume(before)))
  }

  /** One region per closing marker, in the order of the markers. */
  ghost function Reference(lines: seq<string>): seq<Region>
  {
    var cs := Closings(lines);
    seq(|cs|, k requires 0 <= k < |cs| => EmittedAt(lines, cs[k]))
  }

  lemma OpensAfterStart(lines: seq<string>, line: string)
    requires IsRegionStart(line)
    ensures Opens(lines + [line])
  {
    assert OpenedAt(lines + [line], |lines|);
  }

  lemma ClosedAfterEnd(lines: seq<string>, line: string)
    requires IsRegionEnd(line)
    ensures !Opens(lines + [line])
  {
    var all := lines + [line];
    forall o | 0 <= o < |all| && IsRegionStart(all[o]) ensures !QuietAfter(all, o) {
      StartIsNotEnd(line);
      assert o < |lines| && IsMarker(all[|lines|]);
    }
  }

  lemma OpensAfterOrdinary(lines: seq<string>, line: string)
    requires !IsMarker(line)
    ensures Opens(lines + [line]) == Opens(lines)
  {
    var all := lines + [line];
    if Opens(lines) {
      var o :| OpenedAt(lines, o);
      assert OpenedAt(all, o);
    }
    if Opens(all) {
      var o :| OpenedAt(all, o);
      forall m | 0 <= o < m < |lines| ensures !IsMarker(lines[m]) {
        assert all[m] == lines[m];
      }
      assert OpenedAt(lines, o);
    }
  }

  lemma OpensSnoc(lines: seq<string>, line: string)
    ensures Opens(lines + [line]) ==
      if IsRegionStart(line) then true else if IsRegionEnd(line) then false else Opens(lines)
  {
    if IsRegionStart(line) {
      OpensAfterStart(lines, line);
    } else if IsRegionEnd(line) {
      ClosedAfterEnd(lines, line);
    } else {
      OpensAfterOrdinary(lines, line);
    }
  }

  lemma {:induction false} InsideBeyond(lines: seq<string>, from: int)
    requires from >= |lines|
    ensures Inside(lines, from) == []
  {
    if lines != [] {
      InsideBeyond(lines[..|lines| - 1], from);
    }
  }

  lemma {:induction false} OpenMatches(lines: seq<string>)
    ensures StateAfter(lines).inRegion == Opens(lines)
  {
    if lines != [] {
      var n := |lines| - 1;
      assert lines == lines[..n] + [lines[n]];
      OpenMatches(lines[..n]);
      OpensSnoc(lines[..n], lines[n]);
    }
  }

  lemma {:induction false} NameMatches(lines: seq<string>)
    ensures StateAfter(lines).currentRegion == LastName(lines)
  {
    if lines != [] {
      NameMatches(lines[..|lines| - 1]);
    }
  }

  lemma {:induction false} ImportsMatch(lines: seq<string>)
    ensures StateAfter(lines).imports == Outside(lines)
  {
    if lines != [] {
      var n := |lines| - 1;
      ImportsMatch(lines[..n]);
      OpenMatches(lines[..n]);
    }
  }

  lemma ClosingsSnoc(lines: seq<string>, line: string)
    ensures Closings(lines + [line]) ==
      Closings(lines) + (if IsRegionEnd(line) && Opens(lines) then [|lines|] else [])
  {
    assert (lines + [line])[..|lines|] == lines;
  }

  lemma InsideSnoc(lines: seq<string>, line: string, from: int)
    ensures Inside(lines + [line], from) ==
      Inside(lines, from) + (if from <= |lines| && !IsMarker(line) && Opens(lines) then [line] else [])
  {
    assert (lines + [line])[..|lines|] == lines;
  }

  lemma StateAfterSnoc(lines: seq<string>, line: string)
    ensures StateAfter(lines + [line]) == Step(StateAfter(lines), line)
  {
    assert (lines + [line])[..|lines|] == lines;
  }

  lemma StepBody(lines: seq<string>, line: string)
    requires StateAfter(lines).currentLines == Inside(lines, Resume(lines))
    requires StateAfter(lines).inRegion == Opens(lines)
    ensures StateAfter(lines + [line]).currentLines == Inside(lines + [line], Resume(lines + [line]))
  {
    var all := lines + [line];
    assert StateAfter(all) == Step(StateAfter(lines), line) by { StateAfterSnoc(lines, line); }
    StartIsNotEnd(line);
    if IsRegionEnd(line) && Opens(lines) {
      assert Resume(all) == |lines| + 1 by { ClosingsSnoc(lines, line); }
      InsideSnoc(lines, line, |lines| + 1);
      InsideBeyond(lines, |lines| + 1);
    } else {
      assert Resume(all) == Resume(lines) by { ClosingsSnoc(lines, line); }
      InsideSnoc(lines, line, Resume(lines));
    }
  }

  lemma {:induction false} BodyMatches(lines: seq<string>)
    ensures StateAfter(lines).currentLines == Inside(lines, Resume(lines))
  {
    if lines != [] {
      var n := |lines| - 1;
      assert lines == lines[..n] + [lines[n]];
      BodyMatches(lines[..n]);
      OpenMatches(lines[..n]);
      StepBody(lines[..n], lines[n]);
    }
  }

  lemma EmittedAtPrefix(lines: seq<string>, n: int, j: int)
    requires 0 <= j <= n <= |lines|
    ensures EmittedAt(lines[..n], j) == EmittedAt(lines, j)
  {
    assert lines[..n][..j] == lines[..j];
  }

  /** Reading one more line adds a region exactly when it closes an open one. */
  lemma ReferenceSnoc(init: seq<string>, line: string)
    ensures Reference(init + [line]) ==
      Reference(init) + (if IsRegionEnd(line) && Opens(init) then [EmittedAt(init + [line], |init|)] else [])
  {
    var lines := init + [line];
    var n := |init|;
    assert lines[..n] == init;
    var cs0, cs := Closings(init), Closings(lines);
    var closes := IsRegionEnd(line) && Opens(init);
    assert cs == cs0 + (if closes then [n] else []) by { ClosingsSnoc(init, line); }
    var r0, r := Reference(init), Reference(lines);
    var tail := if closes then [EmittedAt(lines, n)] else [];
    assert |r| == |r0| + |tail|;
    forall k | 0 <= k < |r| ensures r[k] == (r0 + tail)[k] {
      if k < |cs0| {
        assert cs[k] == cs0[k];
        EmittedAtPrefix(lines, n, cs0[k]);
      } else {
        assert cs[k] == n;
      }
    }
    assert r == r0 + tail;
  }

  lemma {:induction false} RegionsMatch(lines: seq<string>)
    ensures StateAfter(lines).regions == Reference(lines)
  {
    if lines != [] {
      var n := |lines| - 1;
      var init, line := lines[..n], lines[n];
      var st := StateAfter(init);
      assert lines == init + [line];
      assert StateAfter(lines) == Step(st, line) by { StateAfterSnoc(init, line); }
      RegionsMatch(init);
      OpenMatches(init);
      StartIsNotEnd(line);
      ReferenceSnoc(init, line);
      if IsRegionEnd(line) && Opens(init) {
        assert EmittedAt(lines, n) == Region(st.currentRegion, st.imports + st.currentLines) by {
          EmittedAtPrefix(lines, n, n);
          assert init[..n] == init;
          NameMatches(init);
          ImportsMatch(init);
          BodyMatches(init);
        }
      }
    }
  }

  /**
   * The parser's variables after any prefix are given by the declarative
   * reading: a region is open iff the last marker opened one, the name is the
   * last #region line's, the imports are the lines read outside regions, the
   * body is the lines read inside a region since the last closing marker, and
   * the regions are one per closing marker.
   */
  lemma StateMatchesReading(lines: seq<string>)
    ensures StateAfter(lines).inRegion == Opens(lines)
    ensures StateAfter(lines).currentRegion == LastName(lines)
    ensures StateAfter(lines).imports == Outside(lines)
    ensures StateAfter(lines).currentLines == Inside(lines, Resume(lines))
    ensures StateAfter(lines).regions == Reference(lines)
  {
    OpenMatches(lines);
    NameMatches(lines);
    ImportsMatch(lines);
    BodyMatches(lines);
    RegionsMatch(lines);
  }

  /** Parse emits exactly the declarative reading: one region per closing marker, in order. */
  lemma ParseIsReference(lines: seq<string>)
    ensures ParseLines(lines) == Reference(lines)
  {
    StateMatchesReading(lines);
  }

  // ---------------------------------------------------------------------------
  // Properties of the parse.
  // ---------------------------------------------------------------------------

  /** The closing positions are exactly the #endregion lines read while a region was open. */
  lemma {:induction false} ClosingsAreClosingMarkers(lines: seq<string>, j: int)
    ensures j in Closings(lines) <==> 0 <= j < |lines| && IsRegionEnd(lines[j]) && Opens(lines[..j])
  {
    if lines != [] {
      var n := |lines| - 1;
      ClosingsAreClosingMarkers(lines[..n], j);
      if 0 <= j < n {
        assert lines[..n][j] == lines[j] && lines[..n][..j] == lines[..j];
      }
    }
  }

  /** The closings of a prefix are the closings of the whole that lie in the prefix. */
  lemma {:induction false} ClosingsOfPrefix(lines: seq<string>, n: int)
    requires 0 <= n <= |lines|
    ensures Closings(lines[..n]) <= Closings(lines)
    ensures forall k :: |Closings(lines[..n])| <= k < |Closings(lines)| ==> Closings(lines)[k] >= n
  {
    if n < |lines| {
      var m := |lines| - 1;
      assert lines[..m][..n] == lines[..n];
      ClosingsOfPrefix(lines[..m], n);
    } else {
      assert lines[..n] == lines;
    }
  }

  /** The closings before the k-th closing are the first k closings. */
  lemma ClosingsBefore(lines: seq<string>, k: int)
    requires 0 <= k < |Closings(lines)|
    ensures Closings(lines[..Closings(lines)[k]]) == Closings(lines)[..k]
  {
    var cs := Closings(lines);
    var pre := Closings(lines[..cs[k]]);
    ClosingsOfPrefix(lines, cs[k]);
    assert cs[..|pre|] == pre;
    var m := |pre|;
    if m > 0 {
      assert cs[m - 1] == pre[m - 1] < cs[k];
      assert m - 1 < k;
    }
    if m < |cs| {
      assert cs[m] >= cs[k];
      assert m >= k;
    }
  }

  /** The imports copied into the k-th region: those read before its closing marker. */
  ghost function ImportsOf(lines: seq<string>, k: int): seq<string>
    requires 0 <= k < |Closings(lines)|
  {
    Outside(lines[..Closings(lines)[k]])
  }

  /** The body of the k-th region: the lines read inside a region since the previous closing. */
  ghost function BodyOf(lines: seq<string>, k: int): seq<string>
    requires 0 <= k < |Closings(lines)|
  {
    var cs := Closings(lines);
    Inside(lines[..cs[k]], if k == 0 then 0 else cs[k - 1] + 1)
  }

  /**
   * Each region's lines are the snapshot of the imports at its #endregion
   * followed by the body gathered since the previous emission.
   */
  lemma RegionIsImportsThenBody(lines: seq<string>, k: int)
    requires 0 <= k < |ParseLines(lines)|
    ensures |ParseLines(lines)| == |Closings(lines)|
    ensures ParseLines(lines)[k].lines == ImportsOf(lines, k) + BodyOf(lines, k)
  {
    var cs := Closings(lines);
    RegionsMatch(lines);
    assert ParseLines(lines)[k] == EmittedAt(lines, cs[k]);
    var before := lines[..cs[k]];
    assert Resume(before) == (if k == 0 then 0 else cs[k - 1] + 1) by {
      ClosingsBefore(lines, k);
    }
  }

  lemma {:induction false} OutsideGrows(lines: seq<string>, m: int, n: int)
    requires 0 <= m <= n <= |lines|
    ensures Outside(lines[..m]) <= Outside(lines[..n])
  {
    if m < n {
      assert lines[..n - 1] == lines[..n][..n - 1];
      OutsideGrows(lines, m, n - 1);
    }
  }

  /**
   * The imports only grow: an earlier region's import prefix is a prefix of
   * every later region's, and of the imports at the end of the file.
   */
  lemma ImportsOnlyGrow(lines: seq<string>, k1: int, k2: int)
    requires 0 <= k1 <= k2 < |Closings(lines)|
    ensures ImportsOf(lines, k1) <= ImportsOf(lines, k2)
    ensures ImportsOf(lines, k2) <= StateAfter(lines).imports
  {
    var cs := Closings(lines);
    OutsideGrows(lines, cs[k1], cs[k2]);
    OutsideGrows(lines, cs[k2], |lines|);
    assert lines[..|lines|] == lines;
    ImportsMatch(lines);
  }

  /** An #endregion read while no region is open changes nothing. */
  lemma StrayEndIgnored(st: State, line: string)
    requires !st.inRegion && IsRegionEnd(line)
    ensures Step(st, line) == st
  {
    StartIsNotEnd(line);
  }

  lemma {:induction false} OutsidePlain(lines: seq<string>)
    ensures forall x :: x in Outside(lines) ==> x in lines && !IsMarker(x)
  {
    if lines != [] {
      var n := |lines| - 1;
      OutsidePlain(lines[..n]);
      assert lines == lines[..n] + [lines[n]];
    }
  }

  lemma {:induction false} InsidePlain(lines: seq<string>, from: int)
    ensures forall x :: x in Inside(lines, from) ==> x in lines && !IsMarker(x)
  {
    if lines != [] {
      var n := |lines| - 1;
      InsidePlain(lines[..n], from);
      assert lines == lines[..n] + [lines[n]];
    }
  }

  /**
   * Marker lines are never copied into a region: every line of every region is
   * a line of the file whose left-trimmed text starts with neither marker.
   */
  lemma NoMarkerInRegions(lines: seq<string>, k: int, i: int)
    requires 0 <= k < |ParseLines(lines)| && 0 <= i < |ParseLines(lines)[k].lines|
    ensures ParseLines(lines)[k].lines[i] in lines
    ensures !StartsWith(TrimStart(ParseLines(lines)[k].lines[i]), REGION_START)
    ensures !StartsWith(TrimStart(ParseLines(lines)[k].lines[i]), REGION_END)
  {
    ParseIsReference(lines);
    var j := Closings(lines)[k];
    var before := lines[..j];
    OutsidePlain(before);
    InsidePlain(before, Resume(before));
    var x := ParseLines(lines)[k].lines[i];
    assert x in Outside(before) + Inside(before, Resume(before));
    assert x in before;
    MarkerTests(x);
  }

  /** The number of #region lines. */
  function StartCount(lines: seq<string>): nat
  {
    if lines == [] then 0
    else StartCount(lines[..|lines| - 1]) + (if IsRegionStart(lines[|lines| - 1]) then 1 else 0)
  }

  /** The number of #endregion lines. */
  function EndCount(lines: seq<string>): nat
  {
    if lines == [] then 0
    else EndCount(lines[..|lines| - 1]) + (if IsRegionEnd(lines[|lines| - 1]) then 1 else 0)
  }

  lemma {:induction false} ClosingsCounted(lines: seq<string>)
    ensures |Closings(lines)| + (if Opens(lines) then 1 else 0) <= StartCount(lines)
    ensures |Closings(lines)| <= EndCount(lines)
  {
    if lines != [] {
      var n := |lines| - 1;
      assert lines == lines[..n] + [lines[n]];
      ClosingsCounted(lines[..n]);
      OpensSnoc(lines[..n], lines[n]);
      StartIsNotEnd(lines[n]);
    }
  }

  /** There are no more regions than #region lines, nor than #endregion lines. */
  lemma RegionCountBounded(lines: seq<string>)
    ensures |ParseLines(lines)| <= StartCount(lines)
    ensures |ParseLines(lines)| <= EndCount(lines)
  {
    ParseIsReference(lines);
    ClosingsCounted(lines);
  }

  /** Lines after the last #endregion emit nothing: a region still open at the end is dropped. */
  lemma {:induction false} UnclosedTailDropped(done: seq<string>, rest: seq<string>)
    requires forall i :: 0 <= i < |rest| ==> !IsRegionEnd(rest[i])
    ensures ParseLines(done + rest) == ParseLines(done)
  {
    if rest != [] {
      var m := |rest| - 1;
      assert done + rest == (done + rest[..m]) + [rest[m]];
      UnclosedTailDropped(done, rest[..m]);
      StateAfterSnoc(done + rest[..m], rest[m]);
    } else {
      assert done + rest == done;
    }
  }

  lemma {:induction false} LastNameIsOpeningName(lines: seq<string>, o: int)
    requires OpenedAt(lines, o)
    ensures LastName(lines) == RegionName(lines[o])
  {
    var n := |lines| - 1;
    if o < n {
      assert OpenedAt(lines[..n], o);
      LastNameIsOpeningName(lines[..n], o);
    }
  }

  /**
   * A region's name comes from the #region line that opened it: the last marker
   * line before its #endregion.
   */
  lemma RegionNameFromOpeningLine(lines: seq<string>, k: int)
    requires 0 <= k < |ParseLines(lines)|
    ensures |ParseLines(lines)| == |Closings(lines)|
    ensures exists o ::
      (0 <= o < Closings(lines)[k] && IsRegionStart(lines[o])
       && (forall m :: o < m < Closings(lines)[k] ==> !IsMarker(lines[m]))
       && ParseLines(lines)[k].name == RegionName(lines[o]))
  {
    ParseIsReference(lines);
    var j := Closings(lines)[k];
    ClosingsAreClosingMarkers(lines, j);
    var o :| OpenedAt(lines[..j], o);
    LastNameIsOpeningName(lines[..j], o);
    assert forall m :: o < m < j ==> lines[m] == lines[..j][m];
  }

  lemma TrimStartSkips(indent: string, t: string)
    requires IsBlank(indent) && (t == [] || !IsWhiteSpace(t[0]))
    ensures TrimStart(indent + t) == t
  {
    if indent != [] {
      assert (indent + t)[1..] == indent[1..] + t;
      TrimStartSkips(indent[1..], t);
    }
  }

  /**
   * The usual marker line: indentation, "#region", a space and a name free of
   * "#region" gives the trimmed name.
   */
  lemma TypicalRegionName(indent: string, name: string)
    requires IsBlank(indent) && !Contains(name, REGION_START)
    ensures IsRegionStart(indent + REGION_START + " " + name)
    ensures RegionName(indent + REGION_START + " " + name) == Trim(name)
  {
    var line := indent + REGION_START + " " + name;
    var rest := REGION_START + " " + name;
    assert line == indent + rest;
    TrimStartSkips(indent, rest);
    MarkerTests(line);
    assert rest[..|REGION_START|] == REGION_START;
    assert rest[|REGION_START|..] == " " + name;
    assert ReplaceAll(rest, REGION_START, "") == ReplaceAll(" " + name, REGION_START, "");
    assert (" " + name)[1..] == name;
    NoMatch(name, REGION_START, "");
    assert ReplaceAll(" " + name, REGION_START, "") == " " + name;
    assert TrimStart(" " + name) == TrimStart(name);
  }

  /** After indentation, the leading "#region" opens the region and is dropped from the name. */
  lemma LeadingMarker(indent: string, w: string)
    requires IsBlank(indent)
    ensures IsRegionStart(indent + REGION_START + w)
    ensures RegionName(indent + REGION_START + w) == Trim(ReplaceAll(w, REGION_START, ""))
  {
    var rest := REGION_START + w;
    var line := indent + REGION_START + w;
    assert line == indent + rest;
    assert rest[..|REGION_START|] == REGION_START;
    assert TrimStart(line) == rest by { TrimStartSkips(indent, rest); }
    MarkerTests(line);
    assert ReplaceAll(rest, REGION_START, "") == ReplaceAll(w, REGION_START, "") by {
      ReplaceAtStart(rest, REGION_START, "");
      assert rest[|REGION_START|..] == w;
    }
    assert RegionName(line) == Trim(ReplaceAll(rest, REGION_START, ""));
  }

  /**
   * Every "#region" in an opening line is removed, not only the leading
   * marker: a second marker after a '#'-free stretch `u` disappears too.
   */
  lemma InnerMarkerRemoved(indent: string, u: string, v: string)
    requires IsBlank(indent) && '#' !in u
    ensures IsRegionStart(indent + REGION_START + u + REGION_START + v)
    ensures RegionName(indent + REGION_START + u + REGION_START + v) ==
      Trim(u + ReplaceAll(v, REGION_START, ""))
  {
    var w := u + REGION_START + v;
    var line := indent + REGION_START + u + REGION_START + v;
    assert IsRegionStart(line) && RegionName(line) == Trim(ReplaceAll(w, REGION_START, "")) by {
      assert line == indent + REGION_START + w;
      LeadingMarker(indent, w);
    }
    assert ReplaceAll(w, REGION_START, "") == u + ReplaceAll(v, REGION_START, "") by {
      assert REGION_START[0] == '#';
      ReplaceAfterFree(u, REGION_START, "", v);
      assert u + "" + ReplaceAll(v, REGION_START, "") == u + ReplaceAll(v, REGION_START, "");
    }
  }

  /** The line `#region a#regionb` opens a region named "ab". */
  lemma InnerMarkerExample()
    ensures RegionName("#region a#regionb") == "ab"
  {
    assert RegionName("#region a#regionb") == Trim(" a" + ReplaceAll("b", REGION_START, "")) by {
      assert "#region a#regionb" == "" + REGION_START + " a" + REGION_START + "b";
      assert '#' !in " a";
      InnerMarkerRemoved("", " a", "b");
    }
    assert ReplaceAll("b", REGION_START, "") == "b" by { assert |"b"| < |REGION_START|; }
    assert Trim(" a" + "b") == "ab" by {
      assert " a" + "b" == " ab";
      assert TrimStart(" ab") == "ab";
      assert TrimEnd("ab") == "ab";
    }
  }


  /** A line that starts with neither whitespace nor '#' is no marker. */
  lemma UnindentedPlain(line: string)
    requires line == [] || (!IsWhiteSpace(line[0]) && line[0] != '#')
    ensures !IsMarker(line)
  {
    MarkerTests(line);
    TrimStartSkips([], line);
    assert [] + line == line;
  }

  /** An indented line whose text starts with neither whitespace nor '#' is no marker. */
  lemma IndentedPlain(indent: string, t: string)
    requires IsBlank(indent) && t != [] && !IsWhiteSpace(t[0]) && t[0] != '#'
    ensures !IsMarker(indent + t)
  {
    MarkerTests(indent + t);
    TrimStartSkips(indent, t);
  }

  /** An indented "#endregion" closes a region. */
  lemma IndentedEnd(indent: string)
    requires IsBlank(indent)
    ensures IsRegionEnd(indent + REGION_END)
  {
    MarkerTests(indent + REGION_END);
    TrimStartSkips(indent, REGION_END);
  }

  /** A marker line naming a region whose name carries no '#' and no outer whitespace gets exactly that name. */
  lemma NamedStart(indent: string, name: string)
    requires IsBlank(indent) && '#' !in name
    requires name != [] && !IsWhiteSpace(name[0]) && !IsWhiteSpace(name[|name| - 1])
    ensures IsRegionStart(indent + REGION_START + " " + name)
    ensures RegionName(indent + REGION_START + " " + name) == name
  {
    assert !Contains(name, REGION_START) by {
      forall i | 0 <= i <= |name| ensures !Occurs(name, REGION_START, i) {
        if i + |REGION_START| <= |name| {
          assert name[i..i + |REGION_START|][0] == name[i] != '#';
        }
      }
    }
    TypicalRegionName(indent, name);
    assert TrimStart(name) == name;
  }

  /**
   * The body is not reset at #region: lines of a region left open carry over
   * into the next one that closes.
   */
  lemma UnclosedBodyCarriesOver(open1: string, x: string, open2: string, y: string, close: string)
    requires IsRegionStart(open1) && IsRegionStart(open2) && IsRegionEnd(close)
    requires !IsMarker(x) && !IsMarker(y)
    ensures ParseLines([open1, x, open2, y, close]) == [Region(RegionName(open2), [x, y])]
  {
    StartIsNotEnd(close);
    StateAfterSnoc([], open1);
    assert [] + [open1] == [open1];
    assert StateAfter([open1]) == State(true, RegionName(open1), [], [], []);
    StateAfterSnoc([open1], x);
    assert [open1] + [x] == [open1, x];
    assert StateAfter([open1, x]) == State(true, RegionName(open1), [x], [], []);
    StateAfterSnoc([open1, x], open2);
    assert [open1, x] + [open2] == [open1, x, open2];
    assert StateAfter([open1, x, open2]) == State(true, RegionName(open2), [x], [], []);
    StateAfterSnoc([open1, x, open2], y);
    assert [open1, x, open2] + [y] == [open1, x, open2, y];
    assert StateAfter([open1, x, open2, y]) == State(true, RegionName(open2), [x, y], [], []);
    StateAfterSnoc([open1, x, open2, y], close);
    assert [] + [x, y] == [x, y];
    assert [open1, x, open2, y] + [close] == [open1, x, open2, y, close];
  }

  /** An ordinary line is appended to the imports outside a region and to the body inside one. */
  lemma PlainStep(st: State, line: string)
    requires !IsMarker(line)
    ensures Step(st, line) ==
      if st.inRegion then st.(currentLines := st.currentLines + [line]) else st.(imports := st.imports + [line])
  {
  }

  /** Ordinary lines are appended to the imports outside a region and to the body inside one. */
  lemma {:induction false} PlainRun(lines: seq<string>, run: seq<string>)
    requires forall i :: 0 <= i < |run| ==> !IsMarker(run[i])
    ensures var st := StateAfter(lines);
      StateAfter(lines + run) ==
        if st.inRegion then st.(currentLines := st.currentLines + run) else st.(imports := st.imports + run)
  {
    if run == [] {
      assert lines + run == lines;
    } else {
      var m := |run| - 1;
      var init, last := run[..m], run[m];
      var st, mid := StateAfter(lines), StateAfter(lines + init);
      PlainRun(lines, init);
      assert StateAfter(lines + run) == Step(mid, last) by {
        assert lines + run == (lines + init) + [last];
        StateAfterSnoc(lines + init, last);
      }
      PlainStep(mid, last);
      if st.inRegion {
        assert st.currentLines + run == (st.currentLines + init) + [last];
      } else {
        assert st.imports + run == (st.imports + init) + [last];
      }
    }
  }

  /**
   * A whole region read outside any region: it is emitted with the imports,
   * whatever body was left over, and its own body.
   */
  lemma ReadRegion(lines: seq<string>, open: string, body: seq<string>, close: string)
    requires !StateAfter(lines).inRegion && IsRegionStart(open) && IsRegionEnd(close)
    requires forall i :: 0 <= i < |body| ==> !IsMarker(body[i])
    ensures var st := StateAfter(lines);
      StateAfter(lines + [open] + body + [close]) ==
        st.(currentRegion := RegionName(open), currentLines := [],
            regions := st.regions + [Region(RegionName(open), st.imports + (st.currentLines + body))])
  {
    StartIsNotEnd(close);
    StateAfterSnoc(lines, open);
    PlainRun(lines + [open], body);
    StateAfterSnoc(lines + [open] + body, close);
  }

  /** A file with one region: it holds the lines before it followed by its body. */
  lemma OneRegion(pre: seq<string>, open: string, body: seq<string>, close: string, post: seq<string>)
    requires IsRegionStart(open) && IsRegionEnd(close)
    requires forall i :: 0 <= i < |pre| ==> !IsMarker(pre[i])
    requires forall i :: 0 <= i < |body| ==> !IsMarker(body[i])
    requires forall i :: 0 <= i < |post| ==> !IsMarker(post[i])
    ensures ParseLines(pre + [open] + body + [close] + post) == [Region(RegionName(open), pre + body)]
  {
    PlainRun([], pre);
    assert [] + pre == pre;
    ReadRegion(pre, open, body, close);
    assert [] + body == body;
    PlainRun(pre + [open] + body + [close], post);
  }

  /**
   * A file with two regions: lines between them keep accumulating as imports,
   * so the second region holds the lines before the first, the lines between
   * the two, and its own body.
   */
  lemma TwoRegions(pre: seq<string>, open1: string, body1: seq<string>, close1: string, mid: seq<string>,
                   open2: string, body2: seq<string>, close2: string, post: seq<string>)
    requires IsRegionStart(open1) && IsRegionEnd(close1) && IsRegionStart(open2) && IsRegionEnd(close2)
    requires forall i :: 0 <= i < |pre| ==> !IsMarker(pre[i])
    requires forall i :: 0 <= i < |body1| ==> !IsMarker(body1[i])
    requires forall i :: 0 <= i < |mid| ==> !IsMarker(mid[i])
    requires forall i :: 0 <= i < |body2| ==> !IsMarker(body2[i])
    requires forall i :: 0 <= i < |post| ==> !IsMarker(post[i])
    ensures ParseLines(pre + [open1] + body1 + [close1] + mid + [open2] + body2 + [close2] + post) ==
      [Region(RegionName(open1), pre + body1), Region(RegionName(open2), pre + mid + body2)]
  {
    var first := pre + [open1] + body1 + [close1];
    PlainRun([], pre);
    assert [] + pre == pre;
    ReadRegion(pre, open1, body1, close1);
    assert [] + body1 == body1 && [] + body2 == body2;
    PlainRun(first, mid);
    ReadRegion(first + mid, open2, body2, close2);
    PlainRun(first + mid + [open2] + body2 + [close2], post);
  }
}
