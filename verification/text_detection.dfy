/** Text line and word detection inside a region: connected components (whose
    statistics come from OpenCV and are inputs here) are filtered by area,
    grouped into lines by centroid height, and each line is split into words
    at horizontal gaps. Boxes are found in region coordinates and translated
    back to the page by the region's origin. */
module TextDetection {
  import opened Common
  import opened Boxes
  import Grouping
  import Sorting

  // ---------------------------------------------------------------------------
  // Connected components
  // ---------------------------------------------------------------------------

  /** One row of `connectedComponentsWithStats`: x, y, w, h, area and the
      centroid. */
  datatype Stat = Stat(x: int, y: int, w: int, h: int, area: int, cx: real, cy: real)

  datatype TextComponent = TextComponent(bbox: PixelBox, cx: real, cy: real, height: int, width: int)

  const MinTextArea := 20
  const MaxTextArea := 5000

  predicate KeepStat(s: Stat) { MinTextArea <= s.area <= MaxTextArea }

  function ComponentOf(s: Stat): (c: TextComponent)
    ensures c.bbox.x2 - c.bbox.x1 == s.w && c.bbox.y2 - c.bbox.y1 == s.h
  {
    TextComponent(PixelBox(s.x, s.y, s.x + s.w, s.y + s.h), s.cx, s.cy, s.h, s.w)
  }

  /** The kept components of a list of statistics rows, in order. */
  function KeptComponents(stats: seq<Stat>): (r: seq<TextComponent>)
    ensures |r| <= |stats|
    ensures forall s :: s in stats && KeepStat(s) ==> ComponentOf(s) in r
    ensures forall c :: c in r ==> exists s :: s in stats && KeepStat(s) && c == ComponentOf(s)
  {
    if |stats| == 0 then []
    else
      var n := |stats| - 1;
      assert stats == stats[..n] + [stats[n]];
      KeptComponents(stats[..n]) + (if KeepStat(stats[n]) then [ComponentOf(stats[n])] else [])
  }

  /** `find_connected_components`: label 0 (the background) is skipped and
      components with an area outside [20, 5000] are dropped. */
  function FindConnectedComponents(stats: seq<Stat>): (r: seq<TextComponent>)
    ensures forall c :: c in r ==> exists i :: 1 <= i < |stats| && KeepStat(stats[i]) && c == ComponentOf(stats[i])
    ensures forall i :: 1 <= i < |stats| && KeepStat(stats[i]) ==> ComponentOf(stats[i]) in r
  {
    if |stats| == 0 then []
    else
      var r := KeptComponents(stats[1..]);
      assert forall i :: 1 <= i < |stats| ==> stats[i] == stats[1..][i - 1];
      assert forall s :: s in stats[1..] ==> exists i :: 1 <= i < |stats| && s == stats[i];
      r
  }

  /** The background row is never looked at. */
  lemma BackgroundIgnored(b1: Stat, b2: Stat, rest: seq<Stat>)
    ensures FindConnectedComponents([b1] + rest) == FindConnectedComponents([b2] + rest)
  {
    assert ([b1] + rest)[1..] == rest == ([b2] + rest)[1..];
  }

  // ---------------------------------------------------------------------------
  // Lines
  // ---------------------------------------------------------------------------

  const LineYThreshold: real := 10.0

  function CentroidYs(line: seq<TextComponent>): (r: seq<real>)
    ensures |r| == |line| && forall i :: 0 <= i < |line| ==> r[i] == line[i].cy
  {
    seq(|line|, i requires 0 <= i < |line| => line[i].cy)
  }

  function AbsReal(x: real): real { if x < 0.0 then -x else x }

  /** A component joins a line when its centroid height is within the
      threshold of the line's mean centroid height. */
  predicate NearLine(line: seq<TextComponent>, c: TextComponent, yThreshold: real)
  {
    AbsReal(c.cy - Mean(CentroidYs(line))) < yThreshold
  }

  function LineRule(yThreshold: real): (seq<TextComponent>, TextComponent) -> bool
  {
    (line, c) => NearLine(line, c, yThreshold)
  }

  function CentroidY(c: TextComponent): real { c.cy }

  /** `group_components_into_lines`: components sorted by centroid height,
      each placed in the first line that accepts it, else in a new line. */
  function GroupComponentsIntoLines(cs: seq<TextComponent>, yThreshold: real): (r: seq<seq<TextComponent>>)
    ensures multiset(Grouping.Flatten(r)) == multiset(cs)
    ensures forall i :: 0 <= i < |r| ==> |r[i]| > 0
    ensures |r| <= |cs|
  {
    var sorted := Sorting.SortBy(cs, CentroidY);
    Grouping.GroupAllPartitions(sorted, LineRule(yThreshold));
    Grouping.GroupAll(sorted, LineRule(yThreshold))
  }

  /** Every member of a line after the first was within the threshold of the
      mean centroid height of the members before it. */
  predicate Coherent(line: seq<TextComponent>, yThreshold: real)
  {
    forall k :: 1 <= k < |line| ==> NearLine(line[..k], line[k], yThreshold)
  }

  /** Every line the grouping builds is coherent. */
  lemma LinesCoherent(cs: seq<TextComponent>, yThreshold: real)
    ensures forall line :: line in GroupComponentsIntoLines(cs, yThreshold) ==> Coherent(line, yThreshold)
  {
    var inv := (g: seq<TextComponent>) => Coherent(g, yThreshold);
    var accepts := LineRule(yThreshold);
    forall g: seq<TextComponent>, x: TextComponent | inv(g) && accepts(g, x) ensures inv(g + [x]) {
      var h := g + [x];
      forall k | 1 <= k < |h| ensures NearLine(h[..k], h[k], yThreshold) {
        if k < |g| {
          assert h[..k] == g[..k] && h[k] == g[k];
        } else {
          assert h[..k] == g && h[k] == x;
        }
      }
    }
    Grouping.GroupAllInvariant(Sorting.SortBy(cs, CentroidY), accepts, inv);
  }

  // ---------------------------------------------------------------------------
  // Words
  // ---------------------------------------------------------------------------

  const WordGapThreshold := 15

  /** The horizontal gap from one component to the next. */
  function Gap(prev: TextComponent, curr: TextComponent): int { curr.bbox.x1 - prev.bbox.x2 }

  function Last<T>(s: seq<T>): T requires |s| > 0 { s[|s| - 1] }

  /** Consecutive members of a run are closer than the threshold. */
  predicate Tight(run: seq<TextComponent>, gap: int)
  {
    forall j :: 0 <= j < |run| - 1 ==> Gap(run[j], run[j + 1]) < gap
  }

  /** The maximal runs of a non-empty line in which consecutive gaps are
      below the threshold. */
  function Runs(line: seq<TextComponent>, gap: int): (r: seq<seq<TextComponent>>)
    requires |line| > 0
    ensures |r| > 0 && forall k :: 0 <= k < |r| ==> |r[k]| > 0
    ensures Grouping.Flatten(r) == line
  {
    if |line| == 1 then
      assert Grouping.Flatten([line]) == Grouping.Flatten([line][..0]) + line;
      [line]
    else
      var n := |line| - 1;
      var rs := Runs(line[..n], gap);
      assert line == line[..n] + [line[n]];
      if Gap(line[n - 1], line[n]) < gap then
        RunsExtendLast(rs, line[n]);
        rs[..|rs| - 1] + [rs[|rs| - 1] + [line[n]]]
      else
        Grouping.FlattenAppend(rs, [line[n]]);
        rs + [[line[n]]]
  }

  lemma RunsExtendLast<T>(rs: seq<seq<T>>, x: T)
    requires |rs| > 0
    ensures Grouping.Flatten(rs[..|rs| - 1] + [rs[|rs| - 1] + [x]]) == Grouping.Flatten(rs) + [x]
  {
    var m := |rs| - 1;
    var r := rs[..m] + [rs[m] + [x]];
    assert r[..m] == rs[..m];
    assert Grouping.Flatten(rs) == Grouping.Flatten(rs[..m]) + rs[m];
  }

  /** Runs whose members are close and whose neighbours are far apart. */
  predicate Maximal(r: seq<seq<TextComponent>>, gap: int)
    requires forall k :: 0 <= k < |r| ==> |r[k]| > 0
  {
    && (forall k :: 0 <= k < |r| ==> Tight(r[k], gap))
    && (forall k :: 0 <= k < |r| - 1 ==> Gap(Last(r[k]), r[k + 1][0]) >= gap)
  }

  /** The runs are maximal: gaps inside a run are below the threshold and
      the gap between consecutive runs is not. */
  lemma {:induction false} RunsMaximal(line: seq<TextComponent>, gap: int)
    requires |line| > 0
    ensures var r := Runs(line, gap);
      && (forall k :: 0 <= k < |r| ==> Tight(r[k], gap))
      && (forall k :: 0 <= k < |r| - 1 ==> Gap(Last(r[k]), r[k + 1][0]) >= gap)
      && Last(r[|r| - 1]) == line[|line| - 1]
  {
    if |line| > 1 {
      var n := |line| - 1;
      RunsMaximal(line[..n], gap);
      var rs := Runs(line[..n], gap);
      assert Maximal(rs, gap);
      if Gap(line[n - 1], line[n]) < gap {
        ExtendKeepsMaximal(rs, line[n], gap);
      } else {
        StartKeepsMaximal(rs, line[n], gap);
      }
    }
  }

  /** A close component joins the last run, and the runs stay maximal. */
  lemma ExtendKeepsMaximal(rs: seq<seq<TextComponent>>, x: TextComponent, gap: int)
    requires |rs| > 0 && forall k :: 0 <= k < |rs| ==> |rs[k]| > 0
    requires Maximal(rs, gap) && Gap(Last(rs[|rs| - 1]), x) < gap
    ensures var r := rs[..|rs| - 1] + [rs[|rs| - 1] + [x]];
      (forall k :: 0 <= k < |r| ==> |r[k]| > 0) && Maximal(r, gap)
  {
    var m := |rs| - 1;
    var g := rs[m] + [x];
    var r := rs[..m] + [g];
    assert Tight(g, gap) by {
      forall j | 0 <= j < |g| - 1 ensures Gap(g[j], g[j + 1]) < gap {
        if j < |rs[m]| - 1 {
          assert g[j] == rs[m][j] && g[j + 1] == rs[m][j + 1];
        }
      }
    }
    forall k | 0 <= k < |r| ensures Tight(r[k], gap) {
      if k < m { assert r[k] == rs[k]; }
    }
    forall k | 0 <= k < |r| - 1 ensures Gap(Last(r[k]), r[k + 1][0]) >= gap {
      assert r[k] == rs[k];
      if k + 1 < m { assert r[k + 1] == rs[k + 1]; } else { assert r[k + 1][0] == rs[m][0]; }
    }
  }

  /** A far component starts a run of its own, and the runs stay maximal. */
  lemma StartKeepsMaximal(rs: seq<seq<TextComponent>>, x: TextComponent, gap: int)
    requires |rs| > 0 && forall k :: 0 <= k < |rs| ==> |rs[k]| > 0
    requires Maximal(rs, gap) && Gap(Last(rs[|rs| - 1]), x) >= gap
    ensures var r := rs + [[x]];
      (forall k :: 0 <= k < |r| ==> |r[k]| > 0) && Maximal(r, gap)
  {
    var r := rs + [[x]];
    forall k | 0 <= k < |r| ensures Tight(r[k], gap) {
      if k < |rs| { assert r[k] == rs[k]; }
    }
    forall k | 0 <= k < |r| - 1 ensures Gap(Last(r[k]), r[k + 1][0]) >= gap {
      assert r[k] == rs[k];
      if k + 1 < |rs| { assert r[k + 1] == rs[k + 1]; }
    }
  }

  function X1(c: TextComponent): real { c.bbox.x1 as real }

  /** Smallest and largest value of a non-empty list. */
  function MinOf(s: seq<int>): (r: int)
    requires |s| > 0
    ensures r in s && forall i :: 0 <= i < |s| ==> r <= s[i]
  {
    if |s| == 1 then s[0] else MinInt(s[0], MinOf(s[1..]))
  }

  function MaxOf(s: seq<int>): (r: int)
    requires |s| > 0
    ensures r in s && forall i :: 0 <= i < |s| ==> r >= s[i]
  {
    if |s| == 1 then s[0] else MaxInt(s[0], MaxOf(s[1..]))
  }

  /** Both x coordinates (or both y coordinates) of every member. */
  function Xs(cs: seq<TextComponent>): (r: seq<int>)
    ensures |r| == 2 * |cs|
  {
    if |cs| == 0 then [] else [cs[0].bbox.x1, cs[0].bbox.x2] + Xs(cs[1..])
  }

  function Ys(cs: seq<TextComponent>): (r: seq<int>)
    ensures |r| == 2 * |cs|
  {
    if |cs| == 0 then [] else [cs[0].bbox.y1, cs[0].bbox.y2] + Ys(cs[1..])
  }

  /** The coordinate lists hold the coordinates of every member and nothing
      else. */
  lemma {:induction false} CoordsOf(cs: seq<TextComponent>, v: int)
    ensures v in Xs(cs) <==> exists c :: c in cs && (v == c.bbox.x1 || v == c.bbox.x2)
    ensures v in Ys(cs) <==> exists c :: c in cs && (v == c.bbox.y1 || v == c.bbox.y2)
  {
    if |cs| > 0 {
      CoordsOf(cs[1..], v);
      assert cs == [cs[0]] + cs[1..];
      assert forall c :: c in cs <==> c == cs[0] || c in cs[1..];
    }
  }

  /** The box of a group of components: min and max over all their x and y
      coordinates. */
  function SpanBox(cs: seq<TextComponent>): (r: PixelBox)
    requires |cs| > 0
  {
    PixelBox(MinOf(Xs(cs)), MinOf(Ys(cs)), MaxOf(Xs(cs)), MaxOf(Ys(cs)))
  }

  /** The span box encloses every member and each side is a coordinate of
      some member. */
  lemma SpanBoxEncloses(cs: seq<TextComponent>, c: TextComponent)
    requires c in cs
    ensures PixelEncloses(SpanBox(cs), c.bbox)
  {
    CoordsOf(cs, c.bbox.x1);
    CoordsOf(cs, c.bbox.x2);
    CoordsOf(cs, c.bbox.y1);
    CoordsOf(cs, c.bbox.y2);
  }

  datatype Word = Word(wordId: nat, bbox: PixelBox)

  /** `group_line_into_words`: the line sorted by left edge, split into
      maximal runs with gaps below 15, numbered from 1. An empty line would
      raise IndexError; lines are never empty. */
  function GroupLineIntoWords(line: seq<TextComponent>): (r: seq<Word>)
    requires |line| > 0
    ensures var runs := Runs(Sorting.SortBy(line, X1), WordGapThreshold);
      |r| == |runs| && forall k :: 0 <= k < |r| ==> r[k] == Word(k + 1, SpanBox(runs[k]))
  {
    var runs := Runs(Sorting.SortBy(line, X1), WordGapThreshold);
    seq(|runs|, k requires 0 <= k < |runs| => Word(k + 1, SpanBox(runs[k])))
  }

  /** The span of a part of a group lies inside the span of the group. */
  lemma SpanBoxOfPart(part: seq<TextComponent>, whole: seq<TextComponent>)
    requires |part| > 0 && |whole| > 0 && forall c :: c in part ==> c in whole
    ensures PixelEncloses(SpanBox(whole), SpanBox(part))
  {
    assert part[0] in whole;
    var p := SpanBox(part);
    CoordsOf(part, p.x1);
    CoordsOf(part, p.x2);
    CoordsOf(part, p.y1);
    CoordsOf(part, p.y2);
    CoordsOf(whole, p.x1);
    CoordsOf(whole, p.x2);
    CoordsOf(whole, p.y1);
    CoordsOf(whole, p.y2);
  }

  lemma {:induction false} FlattenMembers<T>(gs: seq<seq<T>>, k: nat, x: T)
    requires k < |gs| && x in gs[k]
    ensures x in Grouping.Flatten(gs)
  {
    Grouping.FlattenContains(gs, k);
    assert x in multiset(gs[k]);
  }

  /** Every word box lies inside the box of its line. */
  lemma WordsInsideLine(line: seq<TextComponent>, k: nat)
    requires |line| > 0 && k < |GroupLineIntoWords(line)|
    ensures PixelEncloses(SpanBox(line), GroupLineIntoWords(line)[k].bbox)
  {
    var sorted := Sorting.SortBy(line, X1);
    var runs := Runs(sorted, WordGapThreshold);
    forall c | c in runs[k] ensures c in line {
      FlattenMembers(runs, k, c);
      assert c in multiset(sorted);
    }
    SpanBoxOfPart(runs[k], line);
  }

  // ---------------------------------------------------------------------------
  // detect_text_in_region
  // ---------------------------------------------------------------------------

  function Translate(b: PixelBox, dx: int, dy: int): PixelBox
  {
    PixelBox(b.x1 + dx, b.y1 + dy, b.x2 + dx, b.y2 + dy)
  }

  datatype TextLine = TextLine(lineId: nat, bbox: PixelBox, words: seq<Word>)

  function TranslateWords(ws: seq<Word>, dx: int, dy: int): (r: seq<Word>)
    ensures |r| == |ws| && forall j :: 0 <= j < |r| ==> r[j] == Word(ws[j].wordId, Translate(ws[j].bbox, dx, dy))
  {
    seq(|ws|, j requires 0 <= j < |ws| => Word(ws[j].wordId, Translate(ws[j].bbox, dx, dy)))
  }

  /** `detect_text_in_region` on the component statistics of the region
      whose top-left corner is (x1, y1): lines numbered from 1, line and word
      boxes moved to page coordinates. */
  function DetectTextInRegion(region: PixelBox, stats: seq<Stat>): (r: seq<TextLine>)
    ensures var lines := GroupComponentsIntoLines(FindConnectedComponents(stats), LineYThreshold);
      && |r| == |lines|
      && forall i :: 0 <= i < |r| ==>
           r[i].lineId == i + 1
           && r[i].bbox == Translate(SpanBox(lines[i]), region.x1, region.y1)
           && r[i].words == TranslateWords(GroupLineIntoWords(lines[i]), region.x1, region.y1)
  {
    var lines := GroupComponentsIntoLines(FindConnectedComponents(stats), LineYThreshold);
    seq(|lines|, i requires 0 <= i < |lines| =>
      TextLine(i + 1, Translate(SpanBox(lines[i]), region.x1, region.y1),
               TranslateWords(GroupLineIntoWords(lines[i]), region.x1, region.y1)))
  }

  /** In page coordinates too, every word of a detected line lies inside the
      line's box. */
  lemma DetectedWordsInsideLines(region: PixelBox, stats: seq<Stat>, i: nat, j: nat)
    requires i < |DetectTextInRegion(region, stats)| && j < |DetectTextInRegion(region, stats)[i].words|
    ensures var l := DetectTextInRegion(region, stats)[i];
      PixelEncloses(l.bbox, l.words[j].bbox)
  {
    var lines := GroupComponentsIntoLines(FindConnectedComponents(stats), LineYThreshold);
    WordsInsideLine(lines[i], j);
  }

  /** Moving a box by an offset and back restores it, so the page boxes
      determine the region-local ones. */
  lemma TranslateInverse(b: PixelBox, dx: int, dy: int)
    ensures Translate(Translate(b, dx, dy), -dx, -dy) == b
  {
  }
}
