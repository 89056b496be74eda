/** The page navigation of the side-by-side PDF and JSONL viewer
    (frontend/src/components/PDFJSONLViewer.tsx): the page count derived from
    the data, the Previous/Next clamps and their disabled conditions, the
    go-to-page form and bounding-box selection.

    `pageNumber` and `onPageChange` are props owned by the parent page: the
    current page is a parameter here, and the page a handler asks the parent
    to show is the handler's result. Page numbers are JavaScript numbers taken
    as integers. */
module PdfJsonlViewer {
  import opened Wrappers
  import opened JsText

  /** One line of the JSONL file (frontend/src/types/bbox.ts). */
  datatype BboxData = BboxData(
    id: string,
    page: int,
    seqNo: int,
    sentence: string,
    kind: string,
    location: seq<(real, real, real, real)>,
    detectedType: string)

  /** JavaScript `n || fallback` on a page count that is `null` until set:
      both `null` and `0` are falsy. */
  function OrElse(n: Option<int>, fallback: int): (r: int)
    ensures n.Some? && n.value != 0 ==> r == n.value
    ensures n.None? || n.value == 0 ==> r == fallback
  {
    if n.Some? && n.value != 0 then n.value else fallback
  }

  // ------------------------------------------------------- page count

  /** `Math.max(...jsonlData.map(item => item.page))`: a page that some item
      has, and no item has a later one. */
  function MaxPage(data: seq<BboxData>): (m: int)
    requires data != []
    ensures exists i :: 0 <= i < |data| && data[i].page == m
    ensures forall i :: 0 <= i < |data| ==> data[i].page <= m
    decreases |data|
  {
    if |data| == 1 then data[0].page
    else
      var rest := MaxPage(data[1..]);
      assert forall i :: 1 <= i < |data| ==> data[i] == data[1..][i - 1];
      if data[0].page >= rest then data[0].page else rest
  }

  // ------------------------------------------------ Previous and Next

  /** What Previous asks for: `Math.max(pageNumber - 1, 1)`. */
  function PreviousTarget(pageNumber: int): int {
    if pageNumber - 1 >= 1 then pageNumber - 1 else 1
  }

  /** What Next asks for: `Math.min(pageNumber + 1, numPages || pageNumber)`. */
  function NextTarget(pageNumber: int, numPages: Option<int>): int {
    var last := OrElse(numPages, pageNumber);
    if pageNumber + 1 <= last then pageNumber + 1 else last
  }

  /** `pageNumber <= 1`. */
  predicate PreviousDisabled(pageNumber: int) {
    pageNumber <= 1
  }

  /** `pageNumber >= (numPages || 0)`. */
  predicate NextDisabled(pageNumber: int, numPages: Option<int>) {
    pageNumber >= OrElse(numPages, 0)
  }

  /** Previous never asks for a page before the first; when enabled it asks
      for exactly the page before, and it is enabled exactly when there is
      one. */
  lemma PreviousClamped(pageNumber: int)
    ensures PreviousTarget(pageNumber) >= 1
    ensures !PreviousDisabled(pageNumber) <==> PreviousTarget(pageNumber) == pageNumber - 1
    ensures PreviousDisabled(pageNumber) ==> PreviousTarget(pageNumber) == 1
  {
  }

  /** Next never asks for a page past the last one, and with the count
      unset (or 0) it asks for the current page: a no-op. */
  lemma NextClamped(pageNumber: int, numPages: Option<int>)
    ensures numPages.Some? && numPages.value != 0 ==> NextTarget(pageNumber, numPages) <= numPages.value
    ensures numPages.None? || numPages.value == 0 ==> NextTarget(pageNumber, numPages) == pageNumber
  {
  }

  /** An enabled Next asks for exactly the following page, which exists. */
  lemma NextEnabledStep(pageNumber: int, numPages: Option<int>)
    requires !NextDisabled(pageNumber, numPages)
    requires pageNumber >= 1
    ensures numPages.Some? && numPages.value != 0
    ensures NextTarget(pageNumber, numPages) == pageNumber + 1 <= numPages.value
  {
  }

  /** Next is disabled on the last page and whenever the count is unset
      (for every page from the first on). */
  lemma NextDisabledWhen(pageNumber: int, numPages: Option<int>)
    requires pageNumber >= 1
    ensures numPages.None? ==> NextDisabled(pageNumber, numPages)
    ensures numPages.Some? && numPages.value != 0 ==>
              (NextDisabled(pageNumber, numPages) <==> pageNumber >= numPages.value)
  {
  }

  // ------------------------------------------------------- go to page

  /** The page `handleGoToPage` moves to: `parseInt(goToPage, 10)` when it
      reads a number from 1 to the page count (1 when the count is unset or
      0), and none otherwise. */
  function GoToTarget(text: string, numPages: Option<int>): (r: Option<int>)
    ensures r.Some? ==> ParseInt(text) == r && 1 <= r.value <= OrElse(numPages, 1)
    ensures r.None? <==> ParseInt(text).None? || ParseInt(text).value < 1 || ParseInt(text).value > OrElse(numPages, 1)
  {
    var page := ParseInt(text);
    if page.Some? && page.value >= 1 && page.value <= OrElse(numPages, 1) then page else None
  }

  /** The form accepts the decimal text of exactly the pages that exist. */
  lemma GoToWrittenPage(p: int, numPages: Option<int>)
    ensures GoToTarget(IntToString(p), numPages).Some? <==> 1 <= p <= OrElse(numPages, 1)
    ensures GoToTarget(IntToString(p), numPages).Some? ==> GoToTarget(IntToString(p), numPages).value == p
  {
    ParseIntOfIntToString(p, []);
    assert IntToString(p) + [] == IntToString(p);
  }

  /** Text that does not start with a number (after leading whitespace and a
      sign) never moves the page. */
  lemma GoToRejectsNonNumeric(text: string, numPages: Option<int>)
    requires ParseInt(text).None?
    ensures GoToTarget(text, numPages) == None
  {
  }

  /** Every page that the data mentions, from 1 on, can be reached through
      the form once the count has been derived from that data. */
  lemma GoToReachesDataPages(data: seq<BboxData>, i: int)
    requires 0 <= i < |data| && data[i].page >= 1
    ensures GoToTarget(IntToString(data[i].page), Some(MaxPage(data))) == Some(data[i].page)
  {
    GoToWrittenPage(data[i].page, Some(MaxPage(data)));
  }

  /** The viewer's own state. */
  class Viewer {
    var numPages: Option<int>
    var selectedBbox: Option<BboxData>
    var goToPage: string

    constructor ()
      ensures numPages == None && selectedBbox == None && goToPage == []
    {
      numPages := None;
      selectedBbox := None;
      goToPage := [];
    }

    /** The effect on `jsonlData`: with data, the count becomes its largest
        page; without, the count is left as it was. */
    method SyncNumPages(jsonlData: seq<BboxData>)
      modifies this`numPages
      ensures jsonlData != [] ==> numPages == Some(MaxPage(jsonlData))
      ensures jsonlData == [] ==> numPages == old(numPages)
    {
      if |jsonlData| > 0 {
        numPages := Some(MaxPage(jsonlData));
      }
    }

    /** The go-to input's `onChange`. */
    method SetGoToPage(text: string)
      modifies this`goToPage
      ensures goToPage == text
    {
      goToPage := text;
    }

    /** `handleGoToPage`: returns the page asked of the parent, if any; on
        success the input is rewritten to that page's decimal text. */
    method HandleGoToPage() returns (request: Option<int>)
      modifies this`goToPage
      ensures request == GoToTarget(old(goToPage), numPages)
      ensures request.Some? ==> goToPage == IntToString(request.value)
      ensures request.None? ==> goToPage == old(goToPage)
    {
      var page := ParseInt(goToPage);
      if page.Some? && page.value >= 1 && page.value <= OrElse(numPages, 1) {
        request := Some(page.value);
        goToPage := IntToString(page.value);
      } else {
        request := None;
      }
    }

    /** `handleSelectBbox`: the box becomes the selection and its page is
        asked of the parent. */
    method HandleSelectBbox(bbox: BboxData) returns (request: int)
      modifies this`selectedBbox
      ensures selectedBbox == Some(bbox)
      ensures request == bbox.page
    {
      selectedBbox := Some(bbox);
      request := bbox.page;
    }
  }

  /** Submitting the form twice asks for the same page: the rewritten input
      reads back as the page it was rewritten from. */
  lemma GoToIdempotent(text: string, numPages: Option<int>)
    requires GoToTarget(text, numPages).Some?
    ensures GoToTarget(IntToString(GoToTarget(text, numPages).value), numPages) == GoToTarget(text, numPages)
  {
    GoToWrittenPage(GoToTarget(text, numPages).value, numPages);
  }
}
