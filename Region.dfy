/**
 * A region of the generated source: its name and its lines (the shared preamble
 * followed by the region's body), and its rendering back to source text with the
 * blank lines dropped.
 */
module Regions {
  import opened Text

  /** Environment.NewLine, the separator the rendering puts between lines. */
  const NEW_LINE: char := '\n'

  datatype Region = Region(name: string, lines: seq<string>)
  {
    /** The non-blank lines, in order, joined by NEW_LINE. */
    function GetSourceCode(): string
    {
      Join(NEW_LINE, NonBlank(lines))
    }
  }

  /** The lines that are not null-or-whitespace, in their original order. */
  function NonBlank(lines: seq<string>): (kept: seq<string>)
    ensures |kept| <= |lines|
    ensures forall k :: 0 <= k < |kept| ==> !IsBlank(kept[k]) && kept[k] in lines
  {
    if lines == [] then []
    else
      var last := lines[|lines| - 1];
      NonBlank(lines[..|lines| - 1]) + (if IsBlank(last) then [] else [last])
  }

  /** The positions of the non-blank lines, in increasing order. */
  ghost function KeptPositions(lines: seq<string>): seq<int>
  {
    if lines == [] then []
    else
      var n := |lines| - 1;
      KeptPositions(lines[..n]) + (if IsBlank(lines[n]) then [] else [n])
  }

  /**
   * The filter keeps exactly the non-blank lines, unchanged and in their order:
   * the k-th kept line is the line at the k-th non-blank position.
   */
  lemma NonBlankSelectsInOrder(lines: seq<string>)
    ensures |KeptPositions(lines)| == |NonBlank(lines)|
    ensures forall k :: 0 <= k < |KeptPositions(lines)| ==>
      0 <= KeptPositions(lines)[k] < |lines| && NonBlank(lines)[k] == lines[KeptPositions(lines)[k]]
    ensures forall k, m :: 0 <= k < m < |KeptPositions(lines)| ==> KeptPositions(lines)[k] < KeptPositions(lines)[m]
    ensures forall i :: 0 <= i < |lines| ==> (i in KeptPositions(lines) <==> !IsBlank(lines[i]))
  {
    KeptAtPositions(lines);
    PositionsIncrease(lines);
    PositionsAreNonBlank(lines);
  }

  lemma {:induction false} KeptAtPositions(lines: seq<string>)
    ensures |KeptPositions(lines)| == |NonBlank(lines)|
    ensures forall k :: 0 <= k < |KeptPositions(lines)| ==>
      0 <= KeptPositions(lines)[k] < |lines| && NonBlank(lines)[k] == lines[KeptPositions(lines)[k]]
  {
    if lines != [] {
      var n := |lines| - 1;
      var init := lines[..n];
      KeptAtPositions(init);
      forall k | 0 <= k < |KeptPositions(init)| ensures init[KeptPositions(init)[k]] == lines[KeptPositions(init)[k]] { }
    }
  }

  lemma {:induction false} PositionsBelow(lines: seq<string>)
    ensures forall k :: 0 <= k < |KeptPositions(lines)| ==> 0 <= KeptPositions(lines)[k] < |lines|
  {
    if lines != [] {
      PositionsBelow(lines[..|lines| - 1]);
    }
  }

  lemma {:induction false} PositionsIncrease(lines: seq<string>)
    ensures forall k, m :: 0 <= k < m < |KeptPositions(lines)| ==> KeptPositions(lines)[k] < KeptPositions(lines)[m]
  {
    if lines != [] {
      var n := |lines| - 1;
      PositionsIncrease(lines[..n]);
      PositionsBelow(lines[..n]);
    }
  }

  lemma {:induction false} PositionsAreNonBlank(lines: seq<string>)
    ensures forall i :: 0 <= i < |lines| ==> (i in KeptPositions(lines) <==> !IsBlank(lines[i]))
  {
    if lines != [] {
      var n := |lines| - 1;
      var init := lines[..n];
      PositionsAreNonBlank(init);
      PositionsBelow(init);
      assert KeptPositions(lines) == KeptPositions(init) + (if IsBlank(lines[n]) then [] else [n]);
      forall i | 0 <= i < |lines| ensures i in KeptPositions(lines) <==> !IsBlank(lines[i]) {
        if i < n { assert init[i] == lines[i]; }
      }
    }
  }

  lemma NonBlankEmpty(lines: seq<string>)
    ensures NonBlank(lines) == [] <==> forall i :: 0 <= i < |lines| ==> IsBlank(lines[i])
  {
    NonBlankSelectsInOrder(lines);
  }

  /** A rendering is empty exactly when every line is null or whitespace. */
  lemma EmptyRenderingIffAllBlank(r: Region)
    ensures r.GetSourceCode() == "" <==> forall i :: 0 <= i < |r.lines| ==> IsBlank(r.lines[i])
  {
    var kept := NonBlank(r.lines);
    JoinEmpty(NEW_LINE, kept);
    NonBlankEmpty(r.lines);
    assert IsBlank("");
  }

  /**
   * Cutting the rendering at each NEW_LINE gives back exactly the non-blank
   * lines, in order, so the rendering holds no blank line.
   */
  lemma RenderedLinesAreKeptLines(r: Region)
    requires forall i :: 0 <= i < |r.lines| ==> NEW_LINE !in r.lines[i]
    requires exists i :: 0 <= i < |r.lines| && !IsBlank(r.lines[i])
    ensures Split(r.GetSourceCode(), NEW_LINE) == NonBlank(r.lines)
    ensures forall piece :: piece in Split(r.GetSourceCode(), NEW_LINE) ==> !IsBlank(piece)
  {
    var kept := NonBlank(r.lines);
    NonBlankEmpty(r.lines);
    SplitJoin(kept, NEW_LINE);
  }

  /** A non-blank line shows up, unaltered, in the rendering. */
  lemma KeptLineRendered(r: Region, i: int)
    requires 0 <= i < |r.lines| && !IsBlank(r.lines[i])
    ensures Contains(r.GetSourceCode(), r.lines[i])
  {
    NonBlankSelectsInOrder(r.lines);
    var ps := KeptPositions(r.lines);
    var k :| 0 <= k < |ps| && ps[k] == i;
    JoinContains(NEW_LINE, NonBlank(r.lines), k);
  }

  /** Filtering the blank lines out beforehand changes nothing: the filter is idempotent. */
  lemma {:induction false} NonBlankIdempotent(lines: seq<string>)
    ensures NonBlank(NonBlank(lines)) == NonBlank(lines)
  {
    if lines != [] {
      var n := |lines| - 1;
      NonBlankIdempotent(lines[..n]);
      NonBlankSnoc(NonBlank(lines[..n]), if IsBlank(lines[n]) then [] else [lines[n]]);
    }
  }

  lemma NonBlankSnoc(kept: seq<string>, extra: seq<string>)
    requires |extra| <= 1 && forall k :: 0 <= k < |extra| ==> !IsBlank(extra[k])
    ensures NonBlank(kept + extra) == NonBlank(kept) + extra
  {
    if extra != [] {
      assert (kept + extra)[..|kept + extra| - 1] == kept;
    } else {
      assert kept + extra == kept;
    }
  }

  lemma RenderingIgnoresBlankLines(name: string, lines: seq<string>)
    ensures Region(name, NonBlank(lines)).GetSourceCode() == Region(name, lines).GetSourceCode()
  {
    NonBlankIdempotent(lines);
  }
}
