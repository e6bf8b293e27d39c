/**
  Collecting the text lines of analysed pages into the coordinate list the
  hit test scans. Layout analysis itself is an input: each page arrives as
  its bounding box and its top-level elements, each element tagged as a
  text container or not and holding its children, each child tagged as a
  horizontal text line or not. Boxes here are in PDF space (origin
  bottom-left); the records produced are in screen space (origin top-left).
 */
module Layout {
  import opened HitTest

  /** A box in PDF space, in the order (x0, y0, x1, y1). */
  datatype Box = Box(x0: real, y0: real, x1: real, y1: real)

  /** A child of a layout element: its raw text and its box in PDF space. */
  datatype Child = Child(isHorizontalLine: bool, text: string, x0: real, y0: real, x1: real, y1: real)

  /** A top-level layout element and its children in document order. */
  datatype Element = Element(isTextContainer: bool, children: seq<Child>)

  /** One analysed page. */
  datatype Page = Page(bbox: Box, elements: seq<Element>)

  /**
   * The height used for the flip: the top edge of the page box. The analyser's
   * page boxes start at the origin, so this is the page height.
   */
  function PageHeight(page: Page): real {
    page.bbox.y1
  }

  /** Mirror a y coordinate about the horizontal line at height h / 2. */
  function FlipY(h: real, y: real): real {
    h - y
  }

  /** The record a horizontal text line contributes; `trim` stands for stripping its text. */
  function Record(c: Child, h: real, trim: string -> string): Line {
    Line(trim(c.text), c.x0, c.x1, FlipY(h, c.y1), FlipY(h, c.y0))
  }

  /** The records of one text container's children, in order. */
  function ChildRecords(cs: seq<Child>, h: real, trim: string -> string): seq<Line> {
    if cs == [] then []
    else (if cs[0].isHorizontalLine then [Record(cs[0], h, trim)] else []) + ChildRecords(cs[1..], h, trim)
  }

  /** The records of one element: none unless it is a text container. */
  function ElementRecords(e: Element, h: real, trim: string -> string): seq<Line> {
    if e.isTextContainer then ChildRecords(e.children, h, trim) else []
  }

  /** The records of a page's elements, element after element. */
  function ElementsRecords(es: seq<Element>, h: real, trim: string -> string): seq<Line> {
    if es == [] then [] else ElementRecords(es[0], h, trim) + ElementsRecords(es[1..], h, trim)
  }

  /** The records of several pages, page after page, each flipped with its own height. */
  function PagesRecords(pages: seq<Page>, trim: string -> string): seq<Line> {
    if pages == [] then []
    else ElementsRecords(pages[0].elements, PageHeight(pages[0]), trim) + PagesRecords(pages[1..], trim)
  }

  /** The number of horizontal text lines among some children. */
  function CountLines(cs: seq<Child>): nat {
    if cs == [] then 0 else (if cs[0].isHorizontalLine then 1 else 0) + CountLines(cs[1..])
  }

  /** The number of horizontal text lines held by the text containers among some elements. */
  function CountElementLines(es: seq<Element>): nat {
    if es == [] then 0
    else (if es[0].isTextContainer then CountLines(es[0].children) else 0) + CountElementLines(es[1..])
  }

  /** The number of horizontal text lines held by the text containers of some pages. */
  function CountPageLines(pages: seq<Page>): nat {
    if pages == [] then 0 else CountElementLines(pages[0].elements) + CountPageLines(pages[1..])
  }

  /**
    The collection loop: for every page, every element that is a text
    container and every child of it that is a horizontal text line, append
    that line's trimmed text, its x range and its flipped y range. The loop
    over a container's children is `AppendLines`.
   */
  method Collect(pages: seq<Page>, trim: string -> string) returns (coordinates: seq<Line>)
    ensures coordinates == PagesRecords(pages, trim)
  {
    coordinates := [];
    for p := 0 to |pages|
      invariant coordinates == PagesRecords(pages[..p], trim)
    {
      var layout := pages[p];
      var pageHeight := layout.bbox.y1;
      var elements := layout.elements;
      ghost var before := coordinates;
      for e := 0 to |elements|
        invariant coordinates == before + ElementsRecords(elements[..e], pageHeight, trim)
      {
        var element := elements[e];
        ElementsRecordsSnoc(elements, e, pageHeight, trim);
        if element.isTextContainer {
          coordinates := AppendLines(coordinates, element.children, pageHeight, trim);
        }
      }
      assert elements[..|elements|] == elements;
      PagesRecordsSnoc(pages, p, trim);
    }
    assert pages[..|pages|] == pages;
  }

  /**
    The innermost loop of the collection: append, in order, the record of
    every child of a text container that is a horizontal text line.
   */
  method AppendLines(coordinates: seq<Line>, children: seq<Child>, pageHeight: real, trim: string -> string)
    returns (result: seq<Line>)
    ensures result == coordinates + ChildRecords(children, pageHeight, trim)
  {
    result := coordinates;
    for c := 0 to |children|
      invariant result == coordinates + ChildRecords(children[..c], pageHeight, trim)
    {
      var textLine := children[c];
      ChildRecordsSnoc(children, c, pageHeight, trim);
      if textLine.isHorizontalLine {
        var y0 := pageHeight - textLine.y1;
        var y1 := pageHeight - textLine.y0;
        var record := Line(trim(textLine.text), textLine.x0, textLine.x1, y0, y1);
        assert record == Record(textLine, pageHeight, trim);
        result := result + [record];
      }
    }
    assert children[..|children|] == children;
  }

  /** Handling one more child appends that child's record, if it has one. */
  lemma ChildRecordsSnoc(cs: seq<Child>, c: nat, h: real, trim: string -> string)
    requires c < |cs|
    ensures ChildRecords(cs[..c + 1], h, trim)
         == ChildRecords(cs[..c], h, trim) + if cs[c].isHorizontalLine then [Record(cs[c], h, trim)] else []
  {
    var last := [cs[c]];
    assert ChildRecords(last, h, trim) == if cs[c].isHorizontalLine then [Record(cs[c], h, trim)] else [] by {
      assert last[0] == cs[c] && last[1..] == [];
    }
    assert cs[..c + 1] == cs[..c] + last;
    ChildRecordsConcat(cs[..c], last, h, trim);
  }

  /** Handling one more element appends that element's records. */
  lemma ElementsRecordsSnoc(es: seq<Element>, e: nat, h: real, trim: string -> string)
    requires e < |es|
    ensures ElementsRecords(es[..e + 1], h, trim) == ElementsRecords(es[..e], h, trim) + ElementRecords(es[e], h, trim)
  {
    var last := [es[e]];
    assert ElementsRecords(last, h, trim) == ElementRecords(es[e], h, trim) by {
      assert last[0] == es[e] && last[1..] == [];
    }
    assert es[..e + 1] == es[..e] + last;
    ElementsRecordsConcat(es[..e], last, h, trim);
  }

  /** Handling one more page appends that page's records, flipped with its own height. */
  lemma PagesRecordsSnoc(pages: seq<Page>, p: nat, trim: string -> string)
    requires p < |pages|
    ensures PagesRecords(pages[..p + 1], trim)
         == PagesRecords(pages[..p], trim) + ElementsRecords(pages[p].elements, PageHeight(pages[p]), trim)
  {
    var last := [pages[p]];
    assert PagesRecords(last, trim) == ElementsRecords(pages[p].elements, PageHeight(pages[p]), trim) by {
      assert last[0] == pages[p] && last[1..] == [];
    }
    assert pages[..p + 1] == pages[..p] + last;
    PagesRecordsConcat(pages[..p], last, trim);
  }

  /** Records of consecutive children come out in the children's order. */
  lemma {:induction false} ChildRecordsConcat(a: seq<Child>, b: seq<Child>, h: real, trim: string -> string)
    ensures ChildRecords(a + b, h, trim) == ChildRecords(a, h, trim) + ChildRecords(b, h, trim)
  {
    if a == [] {
      assert a + b == b;
    } else {
      var first := if a[0].isHorizontalLine then [Record(a[0], h, trim)] else [];
      assert (a + b)[0] == a[0];
      assert (a + b)[1..] == a[1..] + b;
      assert ChildRecords(a + b, h, trim) == first + ChildRecords(a[1..] + b, h, trim);
      ChildRecordsConcat(a[1..], b, h, trim);
      assert ChildRecords(a, h, trim) == first + ChildRecords(a[1..], h, trim);
    }
  }

  /** Records of consecutive elements come out in the elements' order. */
  lemma {:induction false} ElementsRecordsConcat(a: seq<Element>, b: seq<Element>, h: real, trim: string -> string)
    ensures ElementsRecords(a + b, h, trim) == ElementsRecords(a, h, trim) + ElementsRecords(b, h, trim)
  {
    if a == [] {
      assert a + b == b;
    } else {
      var first := ElementRecords(a[0], h, trim);
      assert (a + b)[0] == a[0];
      assert (a + b)[1..] == a[1..] + b;
      assert ElementsRecords(a + b, h, trim) == first + ElementsRecords(a[1..] + b, h, trim);
      ElementsRecordsConcat(a[1..], b, h, trim);
      assert ElementsRecords(a, h, trim) == first + ElementsRecords(a[1..], h, trim);
    }
  }

  /** Records of consecutive pages come out in the pages' order. */
  lemma {:induction false} PagesRecordsConcat(a: seq<Page>, b: seq<Page>, trim: string -> string)
    ensures PagesRecords(a + b, trim) == PagesRecords(a, trim) + PagesRecords(b, trim)
  {
    if a == [] {
      assert a + b == b;
    } else {
      var first := ElementsRecords(a[0].elements, PageHeight(a[0]), trim);
      assert (a + b)[0] == a[0];
      assert (a + b)[1..] == a[1..] + b;
      assert PagesRecords(a + b, trim) == first + PagesRecords(a[1..] + b, trim);
      PagesRecordsConcat(a[1..], b, trim);
      assert PagesRecords(a, trim) == first + PagesRecords(a[1..], trim);
    }
  }

  /**
    The screen box of a record: x range as in PDF space, y range flipped
    with the page height, so a well-formed PDF box gives a well-formed screen
    box, and flipping the screen ys back with the same height restores the
    PDF ys.
   */
  lemma RecordFlipsBox(c: Child, h: real, trim: string -> string)
    ensures Record(c, h, trim).x0 == c.x0 && Record(c, h, trim).x1 == c.x1
    ensures Record(c, h, trim).y0 == h - c.y1 && Record(c, h, trim).y1 == h - c.y0
    ensures c.y0 <= c.y1 ==> Record(c, h, trim).y0 <= Record(c, h, trim).y1
    ensures FlipY(h, Record(c, h, trim).y1) == c.y0 && FlipY(h, Record(c, h, trim).y0) == c.y1
  {
  }

  /** Every record of some children comes from one of them that is a horizontal text line. */
  lemma {:induction false} ChildRecordsSound(cs: seq<Child>, h: real, trim: string -> string, k: nat)
    requires k < |ChildRecords(cs, h, trim)|
    ensures exists j :: 0 <= j < |cs| && cs[j].isHorizontalLine && ChildRecords(cs, h, trim)[k] == Record(cs[j], h, trim)
    decreases |cs|
  {
    var head := if cs[0].isHorizontalLine then [Record(cs[0], h, trim)] else [];
    if k < |head| {
      assert ChildRecords(cs, h, trim)[k] == Record(cs[0], h, trim);
    } else {
      ChildRecordsSound(cs[1..], h, trim, k - |head|);
      var j :| 0 <= j < |cs[1..]| && cs[1..][j].isHorizontalLine
             && ChildRecords(cs[1..], h, trim)[k - |head|] == Record(cs[1..][j], h, trim);
      assert cs[j + 1] == cs[1..][j];
    }
  }

  /** Every horizontal text line among some children contributes its record. */
  lemma {:induction false} ChildRecordsComplete(cs: seq<Child>, h: real, trim: string -> string, j: nat)
    requires j < |cs| && cs[j].isHorizontalLine
    ensures Record(cs[j], h, trim) in ChildRecords(cs, h, trim)
    decreases |cs|
  {
    if j > 0 {
      ChildRecordsComplete(cs[1..], h, trim, j - 1);
      assert cs[1..][j - 1] == cs[j];
    }
  }

  /** Exactly one record per horizontal text line. */
  lemma {:induction false} ChildRecordsCount(cs: seq<Child>, h: real, trim: string -> string)
    ensures |ChildRecords(cs, h, trim)| == CountLines(cs)
  {
    if cs != [] {
      ChildRecordsCount(cs[1..], h, trim);
    }
  }

  /**
    Every record of a page's elements comes from a horizontal text line held
    by an element that is a text container, flipped with that page's height.
   */
  lemma {:induction false} ElementsRecordsSound(es: seq<Element>, h: real, trim: string -> string, k: nat)
    requires k < |ElementsRecords(es, h, trim)|
    ensures exists i, j :: 0 <= i < |es| && es[i].isTextContainer && 0 <= j < |es[i].children|
              && es[i].children[j].isHorizontalLine && ElementsRecords(es, h, trim)[k] == Record(es[i].children[j], h, trim)
    decreases |es|
  {
    var first := ElementRecords(es[0], h, trim);
    if k < |first| {
      assert es[0].isTextContainer;
      ChildRecordsSound(es[0].children, h, trim, k);
      var j :| 0 <= j < |es[0].children| && es[0].children[j].isHorizontalLine
             && ChildRecords(es[0].children, h, trim)[k] == Record(es[0].children[j], h, trim);
      assert ElementsRecords(es, h, trim)[k] == first[k];
    } else {
      ElementsRecordsSound(es[1..], h, trim, k - |first|);
      var i, j :| 0 <= i < |es[1..]| && es[1..][i].isTextContainer && 0 <= j < |es[1..][i].children|
                && es[1..][i].children[j].isHorizontalLine
                && ElementsRecords(es[1..], h, trim)[k - |first|] == Record(es[1..][i].children[j], h, trim);
      assert es[i + 1] == es[1..][i];
    }
  }

  /** Every horizontal text line held by a text container contributes its record. */
  lemma {:induction false} ElementsRecordsComplete(es: seq<Element>, h: real, trim: string -> string, i: nat, j: nat)
    requires i < |es| && es[i].isTextContainer && j < |es[i].children| && es[i].children[j].isHorizontalLine
    ensures Record(es[i].children[j], h, trim) in ElementsRecords(es, h, trim)
    decreases |es|
  {
    if i == 0 {
      ChildRecordsComplete(es[0].children, h, trim, j);
    } else {
      ElementsRecordsComplete(es[1..], h, trim, i - 1, j);
      assert es[1..][i - 1] == es[i];
    }
  }

  /** Exactly one record per horizontal text line of a text container; nothing else counts. */
  lemma {:induction false} ElementsRecordsCount(es: seq<Element>, h: real, trim: string -> string)
    ensures |ElementsRecords(es, h, trim)| == CountElementLines(es)
  {
    if es != [] {
      if es[0].isTextContainer {
        ChildRecordsCount(es[0].children, h, trim);
      }
      ElementsRecordsCount(es[1..], h, trim);
    }
  }

  /**
    Every record collected from several pages comes from a horizontal text
    line held by a text container of one of those pages, flipped with that
    page's height.
   */
  lemma {:induction false} PagesRecordsSound(pages: seq<Page>, trim: string -> string, k: nat)
    requires k < |PagesRecords(pages, trim)|
    ensures exists i, j, c :: 0 <= i < |pages| && 0 <= j < |pages[i].elements| && pages[i].elements[j].isTextContainer
              && 0 <= c < |pages[i].elements[j].children| && pages[i].elements[j].children[c].isHorizontalLine
              && PagesRecords(pages, trim)[k] == Record(pages[i].elements[j].children[c], PageHeight(pages[i]), trim)
    decreases |pages|
  {
    var first := ElementsRecords(pages[0].elements, PageHeight(pages[0]), trim);
    if k < |first| {
      ElementsRecordsSound(pages[0].elements, PageHeight(pages[0]), trim, k);
      var j, c :| 0 <= j < |pages[0].elements| && pages[0].elements[j].isTextContainer
                && 0 <= c < |pages[0].elements[j].children| && pages[0].elements[j].children[c].isHorizontalLine
                && first[k] == Record(pages[0].elements[j].children[c], PageHeight(pages[0]), trim);
      assert PagesRecords(pages, trim)[k] == first[k];
    } else {
      PagesRecordsSound(pages[1..], trim, k - |first|);
      var i, j, c :| 0 <= i < |pages[1..]| && 0 <= j < |pages[1..][i].elements| && pages[1..][i].elements[j].isTextContainer
                   && 0 <= c < |pages[1..][i].elements[j].children| && pages[1..][i].elements[j].children[c].isHorizontalLine
                   && PagesRecords(pages[1..], trim)[k - |first|]
                      == Record(pages[1..][i].elements[j].children[c], PageHeight(pages[1..][i]), trim);
      assert pages[i + 1] == pages[1..][i];
    }
  }

  /** Every horizontal text line held by a text container of one of the pages contributes its record. */
  lemma {:induction false} PagesRecordsComplete(pages: seq<Page>, trim: string -> string, i: nat, j: nat, c: nat)
    requires i < |pages| && j < |pages[i].elements| && pages[i].elements[j].isTextContainer
    requires c < |pages[i].elements[j].children| && pages[i].elements[j].children[c].isHorizontalLine
    ensures Record(pages[i].elements[j].children[c], PageHeight(pages[i]), trim) in PagesRecords(pages, trim)
    decreases |pages|
  {
    if i == 0 {
      ElementsRecordsComplete(pages[0].elements, PageHeight(pages[0]), trim, j, c);
    } else {
      PagesRecordsComplete(pages[1..], trim, i - 1, j, c);
      assert pages[1..][i - 1] == pages[i];
    }
  }

  /** Exactly one record per horizontal text line in a text container, over all pages. */
  lemma {:induction false} PagesRecordsCount(pages: seq<Page>, trim: string -> string)
    ensures |PagesRecords(pages, trim)| == CountPageLines(pages)
  {
    if pages != [] {
      ElementsRecordsCount(pages[0].elements, PageHeight(pages[0]), trim);
      PagesRecordsCount(pages[1..], trim);
    }
  }
}
