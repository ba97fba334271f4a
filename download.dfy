/** The prescription download of the patient's appointment page: the page
    loop that slices the rendered prescription image into pages, and the
    handler that names the file. Heights are whole numbers of points. */
module PrescriptionDownload {
  import opened Wrappers
  import opened JsText
  import opened JsNumber
  import opened DateFormat

  /** Reference page count: max(1, ceil(imgHeight / pageHeight)). */
  function PageCount(imgHeight: int, pageHeight: int): (n: nat)
    requires pageHeight > 0
    ensures n >= 1
  {
    if imgHeight <= pageHeight then 1 else (imgHeight + pageHeight - 1) / pageHeight
  }

  /** Multiplying by a positive height keeps order. */
  lemma MulMonotone(a: int, b: int, h: int)
    requires a <= b && h > 0
    ensures a * h <= b * h
  {
    assert b * h - a * h == (b - a) * h;
  }

  /** Page `k` of height `h` holds the row `y` exactly when `k` is `y / h`. */
  lemma PageOfRow(y: int, k: int, h: int)
    requires h > 0
    ensures k * h <= y < (k + 1) * h <==> k == y / h
  {
    var q := y / h;
    assert q * h <= y < (q + 1) * h;
    if k * h <= y < (k + 1) * h {
      if k < q {
        MulMonotone(k + 1, q, h);
      } else if k > q {
        MulMonotone(q + 1, k, h);
      }
    }
  }

  /** The bracket that stops the page loop determines the page count: the
      count `n` is the reference count when `n` pages reach the bottom of
      the image and `n - 1` pages (if more than one) do not. */
  lemma PageCountUnique(imgHeight: int, pageHeight: int, n: nat)
    requires pageHeight > 0 && n >= 1
    requires n * pageHeight >= imgHeight
    requires n == 1 || (n - 1) * pageHeight < imgHeight
    ensures n == PageCount(imgHeight, pageHeight)
  {
    if imgHeight <= pageHeight {
      if n > 1 {
        MulMonotone(1, n - 1, pageHeight);
      }
    } else {
      // one page cannot hold an image taller than a page
      if n != 1 {
        // the last row `imgHeight - 1` lies on page `n - 1`
        assert (n - 1) * pageHeight <= imgHeight - 1 < n * pageHeight;
        PageOfRow(imgHeight - 1, n - 1, pageHeight);
        assert n - 1 == (imgHeight - 1) / pageHeight;
        var c := (imgHeight + pageHeight - 1) / pageHeight;
        assert c == (imgHeight - 1) / pageHeight + 1 by {
          var q := (imgHeight - 1) / pageHeight;
          var r := (imgHeight - 1) % pageHeight;
          assert imgHeight + pageHeight - 1 == (q + 1) * pageHeight + r;
          PageOfRow(imgHeight + pageHeight - 1, q + 1, pageHeight);
        }
      }
    }
  }

  /** The loop of the download handler. The first page draws the image at
      offset 0; while some height is left, one more page draws it one page
      height higher. The result lists each page's vertical offset. */
  method PageOffsets(imgHeight: int, pageHeight: int) returns (offsets: seq<int>)
    requires pageHeight > 0
    ensures |offsets| == PageCount(imgHeight, pageHeight)
    ensures offsets[0] == 0
    ensures forall k :: 0 <= k < |offsets| ==> offsets[k] == -k * pageHeight
  {
    var heightLeft := imgHeight;
    var position := 0;
    offsets := [position];
    heightLeft := heightLeft - pageHeight;
    while heightLeft > 0
      invariant |offsets| >= 1
      invariant heightLeft == imgHeight - |offsets| * pageHeight
      invariant |offsets| == 1 || (|offsets| - 1) * pageHeight < imgHeight
      invariant forall k :: 0 <= k < |offsets| ==> offsets[k] == -k * pageHeight
      decreases heightLeft
    {
      position := heightLeft - imgHeight;
      offsets := offsets + [position];
      heightLeft := heightLeft - pageHeight;
    }
    PageCountUnique(imgHeight, pageHeight, |offsets|);
  }

  /** The image rows the page at `offset` shows. */
  predicate OnPage(y: int, offset: int, pageHeight: int) {
    -offset <= y < -offset + pageHeight
  }

  /** The pages tile the image: every row of the image is on exactly one
      page, and every page after the first starts inside the image, so no
      slice is skipped, repeated or blank. */
  lemma PagesTile(imgHeight: int, pageHeight: int, offsets: seq<int>)
    requires pageHeight > 0
    requires |offsets| == PageCount(imgHeight, pageHeight)
    requires forall k :: 0 <= k < |offsets| ==> offsets[k] == -k * pageHeight
    ensures forall y :: 0 <= y < imgHeight ==>
      0 <= y / pageHeight < |offsets| && OnPage(y, offsets[y / pageHeight], pageHeight)
    ensures forall y, k :: 0 <= y < imgHeight && 0 <= k < |offsets| && OnPage(y, offsets[k], pageHeight) ==>
      k == y / pageHeight
    ensures forall k :: 1 <= k < |offsets| ==> -offsets[k] < imgHeight
  {
    var n := |offsets|;
    assert n * pageHeight >= imgHeight && (n == 1 || (n - 1) * pageHeight < imgHeight) by {
      PageCountBracket(imgHeight, pageHeight);
    }
    forall y | 0 <= y < imgHeight
      ensures 0 <= y / pageHeight < n && OnPage(y, offsets[y / pageHeight], pageHeight)
    {
      var q := y / pageHeight;
      PageOfRow(y, q, pageHeight);
      if q >= n {
        MulMonotone(n, q, pageHeight);
      }
      assert q * pageHeight + pageHeight == (q + 1) * pageHeight;
    }
    forall y, k | 0 <= y < imgHeight && 0 <= k < n && OnPage(y, offsets[k], pageHeight)
      ensures k == y / pageHeight
    {
      assert (k + 1) * pageHeight == k * pageHeight + pageHeight;
      PageOfRow(y, k, pageHeight);
    }
    forall k | 1 <= k < n ensures -offsets[k] < imgHeight {
      MulMonotone(k, n - 1, pageHeight);
    }
  }

  /** The reference count brackets the image: its pages reach the bottom,
      and one page fewer (when there is more than one) does not. */
  lemma PageCountBracket(imgHeight: int, pageHeight: int)
    requires pageHeight > 0
    ensures PageCount(imgHeight, pageHeight) * pageHeight >= imgHeight
    ensures PageCount(imgHeight, pageHeight) == 1
         || (PageCount(imgHeight, pageHeight) - 1) * pageHeight < imgHeight
  {
    if imgHeight > pageHeight {
      var c := imgHeight + pageHeight - 1;
      var q := c / pageHeight;
      var r := c % pageHeight;
      assert c == q * pageHeight + r && 0 <= r < pageHeight;
      assert (q - 1) * pageHeight == q * pageHeight - pageHeight;
    }
  }

  /** The download handler's name and page plan: the display date, the
      file-name date (reassigned along the raw-key, parsed-date and
      fallback branches), the doctor part, the page offsets and the file
      name. `parsed` is what the browser's date parser makes of the display
      date. */
  method DownloadPrescription(doctorName: string, slotDate: string, parsed: Option<CalendarDate>,
                              imgHeight: int, pageHeight: int)
    returns (filename: string, offsets: seq<int>)
    requires pageHeight > 0
    ensures filename == Filename(doctorName, slotDate, parsed)
    ensures |offsets| == PageCount(imgHeight, pageHeight)
    ensures forall k :: 0 <= k < |offsets| ==> offsets[k] == -k * pageHeight
  {
    var displayDate := SlotDateFormat(slotDate);
    var filenameDate := "";
    if '_' in slotDate {
      var parts := Split(slotDate, '_');
      filenameDate := RawKeyFilenameDate(parts);
    } else if parsed.Some? {
      var date := parsed.value;
      filenameDate := IntToString(date.year) + "-" + Pad2(NatToString(date.month))
                      + "-" + Pad2(NatToString(date.day));
    } else {
      filenameDate := ReplaceSpaceRuns(displayDate, "_");
    }
    var safeDoc := SafeDoc(doctorName);
    offsets := PageOffsets(imgHeight, pageHeight);
    filename := "Prescription_" + safeDoc + "_" + (if filenameDate != "" then filenameDate else "date") + ".pdf";
  }
}
