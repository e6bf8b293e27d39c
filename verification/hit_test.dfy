/**
  The hit test run on every click: a linear scan over the collected text
  lines that keeps the LAST line whose box contains the clicked point, or
  reports a fixed "not found" message.
 */
module HitTest {
  import opened Outcomes

  /**
    One entry of the coordinate list: the trimmed text of a line and its box
    in screen space (origin top-left), in the list's own field order
    `[text, x0, x1, y0, y1]`.
   */
  datatype Line = Line(text: string, x0: real, x1: real, y0: real, y1: real)

  /** The message shown when no line contains the click ("could not be found"). */
  const NotFound: string := "見つかりませんでした"

  /** A line contains a point when the point lies in its box, edges included. */
  predicate Contains(line: Line, x: real, y: real) {
    line.x0 <= x <= line.x1 && line.y0 <= y <= line.y1
  }

  /** The index of the last line containing (x, y), if any line does. */
  function LastHit(lines: seq<Line>, x: real, y: real): (r: Option<nat>)
    ensures r.None? ==> forall j :: 0 <= j < |lines| ==> !Contains(lines[j], x, y)
    ensures r.Some? ==> r.value < |lines| && Contains(lines[r.value], x, y)
    ensures r.Some? ==> forall j :: r.value < j < |lines| ==> !Contains(lines[j], x, y)
    decreases |lines|
  {
    if lines == [] then None
    else if Contains(lines[|lines| - 1], x, y) then Some(|lines| - 1)
    else LastHit(lines[..|lines| - 1], x, y)
  }

  /**
    What a click at (x, y) reports: the text of the last containing line, or
    the not-found message. The answer is always one of those two.
   */
  function Search(lines: seq<Line>, x: real, y: real): (r: string)
    ensures r == NotFound || exists i :: 0 <= i < |lines| && r == lines[i].text
  {
    match LastHit(lines, x, y)
    case None => NotFound
    case Some(i) => lines[i].text
  }

  /**
    The scan itself: start from the not-found message and overwrite the
    result with every line whose box contains the point.
   */
  method SearchPdf(inX: real, inY: real, coordinates: seq<Line>) returns (result: string)
    ensures result == Search(coordinates, inX, inY)
    ensures result == NotFound || exists i :: 0 <= i < |coordinates| && result == coordinates[i].text
  {
    result := NotFound;
    for i := 0 to |coordinates|
      invariant result == Search(coordinates[..i], inX, inY)
    {
      assert coordinates[..i + 1][..i] == coordinates[..i];
      if coordinates[i].x0 <= inX <= coordinates[i].x1 {
        if coordinates[i].y0 <= inY <= coordinates[i].y1 {
          result := coordinates[i].text;
        }
      }
    }
    assert coordinates[..|coordinates|] == coordinates;
  }

  /** A click outside every box reports the not-found message. */
  lemma MissGivesNotFound(lines: seq<Line>, x: real, y: real)
    requires forall j :: 0 <= j < |lines| ==> !Contains(lines[j], x, y)
    ensures Search(lines, x, y) == NotFound
  {
  }

  /** A click reports the text of the highest-index line containing it. */
  lemma LastMatchWins(lines: seq<Line>, x: real, y: real, i: nat)
    requires i < |lines| && Contains(lines[i], x, y)
    requires forall j :: i < j < |lines| ==> !Contains(lines[j], x, y)
    ensures Search(lines, x, y) == lines[i].text
  {
  }

  /**
    Of two overlapping lines both containing the click, the earlier one is
    overwritten: the answer comes from the later one or from a line after it.
   */
  lemma EarlierMatchOverwritten(lines: seq<Line>, x: real, y: real, i: nat, j: nat)
    requires i < j < |lines|
    requires Contains(lines[i], x, y) && Contains(lines[j], x, y)
    ensures exists k :: j <= k < |lines| && Contains(lines[k], x, y) && Search(lines, x, y) == lines[k].text
  {
    var k := LastHit(lines, x, y).value;
    assert j <= k;
  }

  /**
    All four edges of a box belong to it: a click on an edge of a
    well-formed box is a hit, and reports that line's text when no later
    line contains the click.
   */
  lemma EdgesAreInclusive(lines: seq<Line>, x: real, y: real, i: nat)
    requires i < |lines| && lines[i].x0 <= lines[i].x1 && lines[i].y0 <= lines[i].y1
    requires || ((x == lines[i].x0 || x == lines[i].x1) && lines[i].y0 <= y <= lines[i].y1)
             || ((y == lines[i].y0 || y == lines[i].y1) && lines[i].x0 <= x <= lines[i].x1)
    requires forall j :: i < j < |lines| ==> !Contains(lines[j], x, y)
    ensures Contains(lines[i], x, y)
    ensures Search(lines, x, y) == lines[i].text
  {
    LastMatchWins(lines, x, y, i);
  }

  /**
    The last hit in a list made of two parts: the last hit of the later part,
    shifted past the earlier part, or else the last hit of the earlier part.
   */
  lemma {:induction false} LastHitConcat(front: seq<Line>, back: seq<Line>, x: real, y: real)
    ensures LastHit(front + back, x, y)
         == if LastHit(back, x, y).Some? then Some(|front| + LastHit(back, x, y).value) else LastHit(front, x, y)
    decreases |back|
  {
    if back == [] {
      assert front + back == front;
    } else {
      var n := |back| - 1;
      assert (front + back)[|front + back| - 1] == back[n];
      if !Contains(back[n], x, y) {
        assert (front + back)[..|front + back| - 1] == front + back[..n];
        LastHitConcat(front, back[..n], x, y);
      }
    }
  }

  /**
    Scanning a list made of two parts: a hit in the later part decides the
    answer, and otherwise the earlier part does.
   */
  lemma SearchConcat(front: seq<Line>, back: seq<Line>, x: real, y: real)
    ensures Search(front + back, x, y)
         == if LastHit(back, x, y).Some? then Search(back, x, y) else Search(front, x, y)
  {
    LastHitConcat(front, back, x, y);
    var h := LastHit(back, x, y);
    if h.Some? {
      assert (front + back)[|front| + h.value] == back[h.value];
    } else {
      var g := LastHit(front, x, y);
      if g.Some? {
        assert (front + back)[g.value] == front[g.value];
      }
    }
  }
}
