/**
  The arithmetic and the data flow of the viewer window that surround the
  hit test: where the page image is drawn on the canvas, and what a click
  on the canvas reports.
 */
module Viewer {
  import opened HitTest
  import opened Layout
  import opened Sizing

  /**
    The offset at which an image side is drawn so that it sits in the middle
    of the canvas side (true division, so half pixels are kept): the margins
    before and after it are equal, and non-negative exactly when the image
    side fits.
   */
  function CentreOffset(canvasSide: int, imageSide: int): (r: real)
    ensures r + imageSide as real + r == canvasSide as real
    ensures 0.0 <= r <==> imageSide <= canvasSide
  {
    (canvasSide - imageSide) as real / 2.0
  }

  /** The top-left corner at which the page image is drawn. */
  function ImageOrigin(canvasWidth: int, canvasHeight: int, image: Size): (origin: (real, real))
    ensures origin.0 + image.width as real + origin.0 == canvasWidth as real
    ensures origin.1 + image.height as real + origin.1 == canvasHeight as real
  {
    (CentreOffset(canvasWidth, image.width), CentreOffset(canvasHeight, image.height))
  }

  /**
    A page image sized to fit a non-negative canvas is drawn wholly inside
    it: both offsets are non-negative and the image ends within the canvas.
   */
  lemma FittedImageInsideCanvas(originalWidth: nat, originalHeight: nat, canvasWidth: int, canvasHeight: int)
    requires 0 <= canvasWidth && 0 <= canvasHeight
    requires FitWithin(originalWidth, originalHeight, canvasWidth, canvasHeight).Success?
    ensures var image := FitWithin(originalWidth, originalHeight, canvasWidth, canvasHeight).value;
            var origin := ImageOrigin(canvasWidth, canvasHeight, image);
            0.0 <= origin.0 && origin.0 + image.width as real <= canvasWidth as real
            && 0.0 <= origin.1 && origin.1 + image.height as real <= canvasHeight as real
  {
  }

  /**
    A click on the canvas: collect the lines of the current page (the pages
    layout analysis yields for the requested page numbers) and report what
    the hit test finds at the clicked pixel.
   */
  method OnClick(x: int, y: int, pages: seq<Page>, trim: string -> string) returns (answer: string)
    ensures answer == Search(PagesRecords(pages, trim), x as real, y as real)
    ensures answer == NotFound
            || exists i, j, k :: 0 <= i < |pages| && 0 <= j < |pages[i].elements| && pages[i].elements[j].isTextContainer
                 && 0 <= k < |pages[i].elements[j].children| && pages[i].elements[j].children[k].isHorizontalLine
                 && answer == trim(pages[i].elements[j].children[k].text)
  {
    var result := Collect(pages, trim);
    answer := SearchPdf(x as real, y as real, result);
    if answer != NotFound {
      var r :| 0 <= r < |result| && answer == result[r].text;
      PagesRecordsSound(pages, trim, r);
    }
  }

  /**
    A click searched over the records of several pages: a hit among a later
    page's records decides the answer, and otherwise the earlier pages do.
   */
  lemma LaterPageHitDecides(earlier: seq<Page>, later: seq<Page>, trim: string -> string, x: real, y: real)
    ensures var back := PagesRecords(later, trim);
            Search(PagesRecords(earlier + later, trim), x, y)
            == if LastHit(back, x, y).Some? then Search(back, x, y) else Search(PagesRecords(earlier, trim), x, y)
  {
    PagesRecordsConcat(earlier, later, trim);
    SearchConcat(PagesRecords(earlier, trim), PagesRecords(later, trim), x, y);
  }

  /**
    The worked example of a 600 x 800 point page holding one line "Hello"
    whose PDF box spans x 50..150 and y 700..720: its screen box spans
    y 80..100, a click at (100, 90) reports "Hello" and a click at
    (100, 500) reports the not-found message.
   */
  lemma HelloPage(trim: string -> string)
    requires trim("Hello") == "Hello"
    ensures var page := Page(Box(0.0, 0.0, 600.0, 800.0),
                             [Element(true, [Child(true, "Hello", 50.0, 700.0, 150.0, 720.0)])]);
            var lines := PagesRecords([page], trim);
            lines == [Line("Hello", 50.0, 150.0, 80.0, 100.0)]
            && Search(lines, 100.0, 90.0) == "Hello"
            && Search(lines, 100.0, 500.0) == NotFound
  {
    var child := Child(true, "Hello", 50.0, 700.0, 150.0, 720.0);
    var page := Page(Box(0.0, 0.0, 600.0, 800.0), [Element(true, [child])]);
    var line := Line("Hello", 50.0, 150.0, 80.0, 100.0);
    assert ChildRecords([child], 800.0, trim) == [line];
    assert ElementsRecords(page.elements, 800.0, trim) == [line];
    assert PagesRecords([page], trim) == [line];
    LastMatchWins([line], 100.0, 90.0, 0);
  }
}
