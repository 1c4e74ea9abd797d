/** The translation run: `pdf_to_images` turns an inclusive 1-based page range
    into page images, and the page loop sends each image through
    `translate_image`, builds the page-tagged transcript, keeps the list of
    failed pages and votes for the most frequently detected language.

    A document is the sequence of its pages' rasters (what `get_pixmap` at
    2x gives for each page, opaque here). `net(i)(k)` is the response to the
    k-th request made for the i-th image. Sleeps are recorded, not performed. */
module Pipeline {
  import opened Wrappers
  import opened Text
  import opened Translation

  /** One rasterised page: its 1-based page number and its image. */
  datatype PageImage<P> = PageImage(pageNum: nat, data: P)

  /** `pdf_to_images`: one image per page of `[startPage, endPage]`, in page
      order. */
  method PdfToImages<P>(doc: seq<P>, startPage: nat, endPage: nat) returns (images: seq<PageImage<P>>)
    requires 1 <= startPage && endPage <= |doc|
    ensures |images| == if startPage <= endPage then endPage - startPage + 1 else 0
    ensures forall j :: 0 <= j < |images| ==> images[j] == PageImage(startPage + j, doc[startPage - 1 + j])
  {
    images := [];
    var pageIndex := startPage - 1;
    while pageIndex < endPage
      invariant startPage - 1 <= pageIndex
      invariant pageIndex <= endPage || pageIndex == startPage - 1
      invariant |images| == pageIndex - (startPage - 1)
      invariant forall j :: 0 <= j < |images| ==> images[j] == PageImage(startPage + j, doc[startPage - 1 + j])
    {
      images := images + [PageImage(pageIndex + 1, doc[pageIndex])];
      pageIndex := pageIndex + 1;
    }
  }

  /** A sleep of the run: the fixed pause between pages, or a retry backoff
      inside one page's call. */
  datatype Pause = Pacing(seconds: nat) | RetryDelay(seconds: nat)

  /** Python's truthiness of the returned translation: present and non-empty. */
  predicate Succeeded(o: Outcome) {
    o.translation.Some? && o.translation.value != ""
  }

  /** `str(error)` in the placeholder: `None` prints as "None". */
  function ErrorText(error: Option<string>): string {
    match error
    case None => "None"
    case Some(m) => m
  }

  function PageHeader(pageNum: nat): string {
    "\n--- Page " + Decimal(pageNum) + " ---\n"
  }

  function Placeholder(o: Outcome): string {
    "[Translation failed: " + ErrorText(o.error) + "]"
  }

  /** The transcript entry of one page. */
  function Entry(pageNum: nat, o: Outcome): string {
    PageHeader(pageNum) + (if Succeeded(o) then o.translation.value else Placeholder(o))
  }

  /** The call made for every image, with the retry budget `retryCount`. */
  function Calls<P>(images: seq<PageImage<P>>, net: nat -> nat -> Response, modelId: string, retryCount: nat): (calls: seq<Call>)
    ensures |calls| == |images|
  {
    seq(|images|, i requires 0 <= i < |images| => Attempts(net(i), modelId, retryCount, 0))
  }

  function Entries<P>(images: seq<PageImage<P>>, calls: seq<Call>): (entries: seq<string>)
    requires |images| == |calls|
    ensures |entries| == |images|
  {
    seq(|images|, i requires 0 <= i < |images| => Entry(images[i].pageNum, calls[i].outcome))
  }

  function FailedPages<P>(images: seq<PageImage<P>>, calls: seq<Call>): seq<nat>
    requires |images| == |calls|
  {
    if |images| == 0 then []
    else
      var n := |images| - 1;
      FailedPages(images[..n], calls[..n]) + (if Succeeded(calls[n].outcome) then [] else [images[n].pageNum])
  }

  /** The languages reported by pages that succeeded, where one was reported. */
  function DetectedLanguages(calls: seq<Call>): seq<string> {
    if |calls| == 0 then []
    else
      var n := |calls| - 1;
      var o := calls[n].outcome;
      DetectedLanguages(calls[..n])
        + (if Succeeded(o) && o.detected.Some? && o.detected.value != "" then [o.detected.value] else [])
  }

  function RetryDelays(backoffs: seq<nat>): (pauses: seq<Pause>)
    ensures |pauses| == |backoffs|
  {
    seq(|backoffs|, k requires 0 <= k < |backoffs| => RetryDelay(backoffs[k]))
  }

  /** Every sleep of the run, in order: before each page but the first the
      pacing wait, then that page's retry backoffs. */
  function PauseLog(waitTime: nat, calls: seq<Call>): seq<Pause> {
    if |calls| == 0 then []
    else
      var n := |calls| - 1;
      PauseLog(waitTime, calls[..n]) + (if n > 0 then [Pacing(waitTime)] else []) + RetryDelays(calls[n].backoffs)
  }

  /** `detected_languages.count(x)`. */
  function Count(xs: seq<string>, x: string): nat {
    if |xs| == 0 then 0
    else Count(xs[..|xs| - 1], x) + (if xs[|xs| - 1] == x then 1 else 0)
  }

  predicate IsPlurality(m: string, xs: seq<string>) {
    m in xs && forall y :: y in xs ==> Count(xs, y) <= Count(xs, m)
  }

  /** `max(set(xs), key=xs.count)`: a value of the list with the greatest
      count. */
  method MostCommon(xs: seq<string>) returns (m: string)
    requires |xs| > 0
    ensures m in xs
    ensures forall y :: y in xs ==> Count(xs, y) <= Count(xs, m)
  {
    m := xs[0];
    var best := Count(xs, m);
    var i := 1;
    while i < |xs|
      invariant 1 <= i <= |xs|
      invariant m in xs && best == Count(xs, m)
      invariant forall j :: 0 <= j < i ==> Count(xs, xs[j]) <= best
    {
      var c := Count(xs, xs[i]);
      if c > best {
        m, best := xs[i], c;
      }
      i := i + 1;
    }
  }

  /** The "Start Translation" handler after the images are made: the joined
      transcript, the failed page numbers, the plurality language, the number
      of pages and every sleep taken. */
  method TranslatePages<P>(images: seq<PageImage<P>>, net: nat -> nat -> Response, modelId: string, waitTime: nat)
    returns (transcript: string, failedPages: seq<nat>, detectedLanguage: Option<string>, totalPages: nat, pauses: seq<Pause>)
    ensures transcript == JoinWith("\n", Entries(images, Calls(images, net, modelId, DefaultRetryCount)))
    ensures failedPages == FailedPages(images, Calls(images, net, modelId, DefaultRetryCount))
    ensures detectedLanguage.None? <==> DetectedLanguages(Calls(images, net, modelId, DefaultRetryCount)) == []
    ensures detectedLanguage.Some? ==> IsPlurality(detectedLanguage.value, DetectedLanguages(Calls(images, net, modelId, DefaultRetryCount)))
    ensures totalPages == |images|
    ensures pauses == PauseLog(waitTime, Calls(images, net, modelId, DefaultRetryCount))
  {
    var allTranslations, detectedLanguages;
    allTranslations, failedPages, detectedLanguages, pauses := PageLoop(images, net, modelId, DefaultRetryCount, waitTime);
    transcript := JoinWith("\n", allTranslations);
    totalPages := |images|;
    if |detectedLanguages| > 0 {
      var m := MostCommon(detectedLanguages);
      detectedLanguage := Some(m);
    } else {
      detectedLanguage := None;
    }
  }

  /** The page loop: one translation call per page, a pause between pages,
      and what each call adds to the transcript, the failed pages and the
      detected languages. */
  method PageLoop<P>(images: seq<PageImage<P>>, net: nat -> nat -> Response, modelId: string, retryCount: nat, waitTime: nat)
    returns (allTranslations: seq<string>, failedPages: seq<nat>, detectedLanguages: seq<string>, pauses: seq<Pause>)
    ensures allTranslations == Entries(images, Calls(images, net, modelId, retryCount))
    ensures failedPages == FailedPages(images, Calls(images, net, modelId, retryCount))
    ensures detectedLanguages == DetectedLanguages(Calls(images, net, modelId, retryCount))
    ensures pauses == PauseLog(waitTime, Calls(images, net, modelId, retryCount))
  {
    ghost var all := Calls(images, net, modelId, retryCount);
    allTranslations, detectedLanguages := [], [];
    failedPages, pauses := [], [];
    ghost var calls: seq<Call> := [];
    var i := 0;
    while i < |images|
      invariant 0 <= i <= |images|
      invariant calls == all[..i]
      invariant allTranslations == Entries(images[..i], calls)
      invariant failedPages == FailedPages(images[..i], calls)
      invariant detectedLanguages == DetectedLanguages(calls)
      invariant pauses == PauseLog(waitTime, calls)
    {
      var pageNum := images[i].pageNum;
      if i > 0 {
        pauses := pauses + [Pacing(waitTime)];
      }
      var outcome, requests, backoffs := TranslateImage(net(i), modelId, retryCount);
      pauses := pauses + RetryDelays(backoffs);
      AppendPage(images, calls, Call(outcome, requests, backoffs), waitTime);
      assert all[..i + 1] == calls + [Call(outcome, requests, backoffs)];
      calls := calls + [Call(outcome, requests, backoffs)];
      if outcome.translation.Some? && outcome.translation.value != "" {
        allTranslations := allTranslations + [PageHeader(pageNum) + outcome.translation.value];
        if outcome.detected.Some? && outcome.detected.value != "" {
          detectedLanguages := detectedLanguages + [outcome.detected.value];
        }
      } else {
        allTranslations := allTranslations + [PageHeader(pageNum) + Placeholder(outcome)];
        failedPages := failedPages + [pageNum];
      }
      i := i + 1;
    }
    assert images[..i] == images;
    assert calls == all;
  }

  /** What one more page adds to each of the loop's accumulators. */
  lemma AppendPage<P>(images: seq<PageImage<P>>, calls: seq<Call>, c: Call, waitTime: nat)
    requires |calls| < |images|
    ensures var i := |calls|;
      && Entries(images[..i + 1], calls + [c]) == Entries(images[..i], calls) + [Entry(images[i].pageNum, c.outcome)]
      && FailedPages(images[..i + 1], calls + [c])
         == FailedPages(images[..i], calls) + (if Succeeded(c.outcome) then [] else [images[i].pageNum])
      && DetectedLanguages(calls + [c])
         == DetectedLanguages(calls)
            + (if Succeeded(c.outcome) && c.outcome.detected.Some? && c.outcome.detected.value != "" then [c.outcome.detected.value] else [])
      && PauseLog(waitTime, calls + [c])
         == PauseLog(waitTime, calls) + (if i > 0 then [Pacing(waitTime)] else []) + RetryDelays(c.backoffs)
  {
    var i := |calls|;
    assert (calls + [c])[..i] == calls;
    assert images[..i + 1][..i] == images[..i];
  }

  /** A failed-page list holds only numbers of the pages it was built from. */
  lemma {:induction false} FailedPagesBelow<P>(images: seq<PageImage<P>>, calls: seq<Call>, bound: nat)
    requires |images| == |calls|
    requires forall j :: 0 <= j < |images| ==> images[j].pageNum < bound
    ensures forall p | p in FailedPages(images, calls) :: p < bound
  {
    if |images| > 0 {
      var n := |images| - 1;
      FailedPagesBelow(images[..n], calls[..n], bound);
    }
  }

  /** With increasing page numbers, a page is in the failed list exactly when
      its call did not produce a (non-empty) translation. */
  lemma {:induction false} FailedPagesExact<P>(images: seq<PageImage<P>>, calls: seq<Call>, i: nat)
    requires |images| == |calls| && i < |images|
    requires forall a, b :: 0 <= a < b < |images| ==> images[a].pageNum < images[b].pageNum
    ensures images[i].pageNum in FailedPages(images, calls) <==> !Succeeded(calls[i].outcome)
  {
    var n := |images| - 1;
    var prefix := FailedPages(images[..n], calls[..n]);
    assert FailedPages(images, calls) == prefix + (if Succeeded(calls[n].outcome) then [] else [images[n].pageNum]);
    if i == n {
      FailedPagesBelow(images[..n], calls[..n], images[n].pageNum);
    } else {
      FailedPagesExact(images[..n], calls[..n], i);
      assert images[i].pageNum < images[n].pageNum;
    }
  }

  function CountPacing(pauses: seq<Pause>): nat {
    if |pauses| == 0 then 0
    else CountPacing(pauses[..|pauses| - 1]) + (if pauses[|pauses| - 1].Pacing? then 1 else 0)
  }

  lemma {:induction false} CountPacingAppend(a: seq<Pause>, b: seq<Pause>)
    ensures CountPacing(a + b) == CountPacing(a) + CountPacing(b)
    decreases |b|
  {
    if |b| > 0 {
      var m := |b| - 1;
      assert (a + b)[..|a + b| - 1] == a + b[..m];
      assert (a + b)[|a + b| - 1] == b[m];
      CountPacingAppend(a, b[..m]);
      assert CountPacing(a + b) == CountPacing(a + b[..m]) + (if b[m].Pacing? then 1 else 0);
      assert CountPacing(b) == CountPacing(b[..m]) + (if b[m].Pacing? then 1 else 0);
    } else {
      assert a + b == a;
    }
  }

  lemma {:induction false} NoPacingInRetries(backoffs: seq<nat>)
    ensures CountPacing(RetryDelays(backoffs)) == 0
    decreases |backoffs|
  {
    if |backoffs| > 0 {
      var m := |backoffs| - 1;
      assert RetryDelays(backoffs)[..m] == RetryDelays(backoffs[..m]);
      NoPacingInRetries(backoffs[..m]);
    }
  }

  /** The pacing wait is taken once before every page but the first: a run
      over n > 0 pages paces n - 1 times, and the first page's call starts
      without one. */
  lemma {:induction false} PacingCount(waitTime: nat, calls: seq<Call>)
    ensures CountPacing(PauseLog(waitTime, calls)) == if |calls| == 0 then 0 else |calls| - 1
    ensures |calls| > 0 ==> PauseLog(waitTime, calls[..1]) == RetryDelays(calls[0].backoffs)
  {
    if |calls| > 0 {
      var n := |calls| - 1;
      var pacing: seq<Pause> := if n > 0 then [Pacing(waitTime)] else [];
      PacingCount(waitTime, calls[..n]);
      CountPacingAppend(PauseLog(waitTime, calls[..n]) + pacing, RetryDelays(calls[n].backoffs));
      CountPacingAppend(PauseLog(waitTime, calls[..n]), pacing);
      NoPacingInRetries(calls[n].backoffs);
      assert CountPacing(pacing) == if n > 0 then 1 else 0 by {
        if n > 0 {
          assert pacing[..0] == [];
        }
      }
      assert calls[..1][..0] == [];
    }
  }
}
