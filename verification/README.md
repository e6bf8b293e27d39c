# PDF_Fill_in: click-to-text mapping, in Dafny

PDF_Fill_in is a small desktop viewer. It shows one page of a PDF on a canvas.
When the user clicks the canvas, it reports the text line under the mouse.
This project models and proves the computational core of `fill_in_blanks.py`:

- **Collecting the lines** (`main`, module `Layout`). Each analysed page arrives
  as its bounding box and its elements. Every horizontal text line inside a text
  container becomes one record `[text, x0, x1, y0, y1]`. The record keeps the
  line's x range and flips its y range into screen space (origin top-left) with
  the page's top edge `H`, so `y0 = H - y1` and `y1 = H - y0`. Records come out
  in page, then element, then child order. `Layout.Collect` is the nested loop
  that appends the records. `PagesRecords` specifies it.
- **The hit test** (`searchPDF`, module `HitTest`). A linear scan starts from
  the message `見つかりませんでした` ("could not be found"). It overwrites the
  result with the text of every record whose box contains the click, edges
  included. So the last containing record wins. `HitTest.SearchPdf` is the loop.
  `LastHit` and `Search` specify it.
- **Sizing the page image** (`get_specific_page_image`, module `Sizing`). An
  image that fits the canvas is kept as it is. Otherwise it is scaled, keeping
  its aspect ratio, so that one side equals the canvas side and the other fits.
  Python's `int()` on a float is modelled as truncation toward zero (`Trunc`).
  An image that does not fit and has a zero side raises `ZeroDivisionError`:
  a zero height at `original_width / original_height`, a zero width at
  `canvas_width / aspect_ratio`. This is modelled as `Failure(ZeroDivision)`.
- **Centring and the click** (`ImageViewer.display_image` and `on_click`,
  module `Viewer`). The image is drawn at `((canvasW - imgW) / 2,
  (canvasH - imgH) / 2)`. A click runs the collection and then the hit test.

The flip uses `layout.bbox[3]`, the top edge of the analysed page's box. The
layout analyser builds that box with its lower-left corner at the origin, so the
top edge is the page height, the same value `get_page_dimensions` computes as
`y1 - y0`. The model accepts any page box and flips with its top edge, as the
code does (`Layout.PageHeight`). For every page the analyser produces, this is
the page height, so allowing any box is a safe generalisation.

One place where the code does not do what it is meant to do: the resize branch
divides by the image height and then by the aspect ratio. An image with a zero
side that does not fit the canvas therefore fails with a division by zero rather
than being resized. The model keeps that error path.

## Model

| member | source | states |
|---|---|---|
| `HitTest.LastHit` | fill_in_blanks.py:127-130 | None only when no record contains the point; otherwise the index of a containing record with no containing record after it (the last match) |
| `HitTest.Search` | fill_in_blanks.py:125-131 | the answer is always the not-found message or the text of some record in the list |
| `HitTest.SearchPdf` | fill_in_blanks.py:125-131 | the scan's result equals the text of the last containing record, or the not-found message when there is none; it is always the sentinel or one of the records' texts |
| `HitTest.MissGivesNotFound` | fill_in_blanks.py:126-131 | if no record's box contains the click, the answer is `見つかりませんでした` |
| `HitTest.LastMatchWins` | fill_in_blanks.py:127-130 | a containing record with no containing record after it supplies the answer, whatever earlier records matched |
| `HitTest.EarlierMatchOverwritten` | fill_in_blanks.py:127-130 | when two records both contain the click, the answer comes from the later one or from a containing record after it, never from the earlier one's position |
| `HitTest.EdgesAreInclusive` | fill_in_blanks.py:127-130 | in any list, a click on any edge of a well-formed box (x equal to x0 or x1 within the y range, or y equal to y0 or y1 within the x range) is a hit, and with no later hit it reports that line's text |
| `HitTest.LastHitConcat` | fill_in_blanks.py:127-130 | the last hit in a list made of two parts is the later part's last hit, shifted past the earlier part, or else the earlier part's last hit |
| `HitTest.SearchConcat` | fill_in_blanks.py:127-130 | scanning a list made of two parts: a hit in the later part decides the answer; with no hit there, the earlier part decides it |
| `Layout.Collect` | fill_in_blanks.py:104-123 | the nested loop's list equals the specified records of all pages, page after page, element after element, child after child |
| `Layout.AppendLines` | fill_in_blanks.py:118-122 | the innermost loop extends the list by exactly the records of the container's horizontal text lines, in order, and keeps what was there |
| `Layout.RecordFlipsBox` | fill_in_blanks.py:114-122 | x range kept; `y0 = H - y1_pdf` and `y1 = H - y0_pdf`; a well-formed PDF box stays well formed; flipping the screen ys again with the same H gives back the PDF ys |
| `Layout.ChildRecordsConcat` | fill_in_blanks.py:118-122 | records of consecutive children come out in the children's order |
| `Layout.ElementsRecordsConcat` | fill_in_blanks.py:116-122 | records of consecutive elements come out in the elements' order |
| `Layout.PagesRecordsConcat` | fill_in_blanks.py:111-122 | records of consecutive pages come out in the pages' order |
| `Layout.ChildRecordsSound` | fill_in_blanks.py:118-122 | every record of a container's children is the flipped record of one of its horizontal text lines |
| `Layout.ChildRecordsComplete` | fill_in_blanks.py:118-122 | every horizontal text line among the children contributes its record |
| `Layout.ChildRecordsCount` | fill_in_blanks.py:118-122 | exactly one record per horizontal text line |
| `Layout.ElementsRecordsSound` | fill_in_blanks.py:116-122 | every record of a page comes from a horizontal text line inside an element that is a text container |
| `Layout.ElementsRecordsComplete` | fill_in_blanks.py:116-122 | every horizontal text line of every text container contributes its record |
| `Layout.ElementsRecordsCount` | fill_in_blanks.py:116-122 | the number of records is the number of horizontal text lines held by text containers; other elements and children add nothing |
| `Layout.PagesRecordsSound` | fill_in_blanks.py:111-122 | every collected record comes from a horizontal text line of some page, flipped with that page's own `bbox[3]` |
| `Layout.PagesRecordsCount` | fill_in_blanks.py:111-122 | the number of records collected from several pages is the number of horizontal text lines held by text containers of those pages |
| `Layout.PagesRecordsComplete` | fill_in_blanks.py:111-122 | every horizontal text line in a text container of any page contributes its record, flipped with its page's `bbox[3]` |
| `Sizing.Trunc` | fill_in_blanks.py:96-98 | `int()` on a number: the integer at or below a non-negative value and within one of it, the integer at or above a negative value and within one of it |
| `Sizing.FitWithin` | fill_in_blanks.py:90-102 | fails exactly when the image overflows and has a zero side; an image that fits is returned unchanged; any result fits the canvas in both dimensions; a resized result matches the canvas exactly on one side |
| `Sizing.FitNeverUpscales` | fill_in_blanks.py:92-102 | with a non-negative canvas the shown size is never larger than the rasterised page in either dimension, and never negative |
| `Sizing.FitKeepsAspectRatio` | fill_in_blanks.py:93-99 | a resized image keeps the page's aspect ratio up to truncation of the computed side: `h*ow <= w*oh < (h+1)*ow` when the width was fixed, `w*oh <= h*ow < (w+1)*oh` when the height was fixed |
| `Viewer.CentreOffset` | fill_in_blanks.py:40-41 | the margins before and after the image are equal, and non-negative exactly when the image fits |
| `Viewer.ImageOrigin` | fill_in_blanks.py:38-42 | the drawn image leaves equal margins on both sides horizontally and vertically |
| `Viewer.FittedImageInsideCanvas` | fill_in_blanks.py:40-41 | an image sized by the resize step is drawn wholly inside a non-negative canvas: both offsets are non-negative and its far edges are within the canvas |
| `Viewer.OnClick` | fill_in_blanks.py:44-48 | a click reports the hit test over the collected records; the answer is the not-found message or the trimmed text of a horizontal text line inside a text container |
| `Viewer.LaterPageHitDecides` | fill_in_blanks.py:111-131 | when a click is searched over the records of several pages, a hit among a later page's records decides the answer; with no hit there, the earlier pages decide it |
| `Viewer.HelloPage` | fill_in_blanks.py:114-131 | on a 600 x 800 page with "Hello" at PDF box x 50..150, y 700..720, the screen box is y 80..100; a click at (100, 90) reports "Hello" and one at (100, 500) the not-found message |

## Left out

- Window, canvas, labels and the "<" / ">" buttons (fill_in_blanks.py:10-36, 49-57, 133-168): these are toolkit calls with no logic beyond a page counter. The navigation buttons `nextButton`/`backButton` are not modelled, and neither is their missing bounds check.
- `get_page_dimensions` and the canvas size `int(page_width)`, `int(page_height)` (fill_in_blanks.py:16-18, 59-82): these need the PDF parser. The canvas size is a parameter of the sizing functions.
- Opening the file, `PDFPage.get_pages`, `process_page` and `get_text()` (fill_in_blanks.py:105-113, 122): these are PDF library calls. Their result is an input, a sequence of `Layout.Page` values already restricted to the requested page numbers. Each child carries the text that `get_text()` would return.
- `str.strip()` (fill_in_blanks.py:122): this is a parameter `trim: string -> string`. Python's whitespace rules are not modelled.
- Rasterisation and resampling, `convert_from_path` and `Image.resize` (fill_in_blanks.py:85, 100): these are image libraries. Only the chosen target size is modelled. The rasterised image's size is an input.
- Sizing.FitWithin: uses exact real arithmetic. The IEEE double rounding of `original_width / original_height`, of the division and product by the aspect ratio, and of `int()` applied to the rounded value is not captured. A result can therefore differ by one pixel from the program's at a rounding boundary.
- Layout.RecordFlipsBox: PDF coordinates, the flip `page_height - y` and the hit test's comparisons use exact reals. The IEEE double rounding of the subtraction is not captured. The round-trip clause (flipping twice gives back the PDF ys) holds only under exact arithmetic; in doubles it can be off by one ulp (792.0 - (792.0 - 0.1) is 0.10000000000002274). The same rounding can make a click exactly on a flipped edge (HitTest.Search, HitTest.EdgesAreInclusive) come out differently from the program. The ordering clause is unaffected, since rounded subtraction is monotone.
- Layout.Record: the flipped ys are exact differences, not rounded doubles, for the reason above.
- Viewer.CentreOffset: exact real division. The float offsets Python computes are exact for these integer operands in practice, and Tkinter's own rounding of the drawing position is not modelled.
- Text is compared as Dafny strings, with no Unicode normalisation.
