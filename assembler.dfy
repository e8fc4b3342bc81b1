/**
 * The document assembler (`generatePDFWithContentAndBarcode`) and the
 * `/upload` handler that drives it.
 */
module Assembler {
  import opened Basics
  import opened Text
  import opened Identifier
  import opened Layout
  import opened Upload

  /**
   * The assembled document (the copied pages with their overlays, then the
   * summary page), the identifiers of the run and the name the file is
   * written under.
   */
  datatype Output = Output(stamped: seq<OutPage>, summary: OutPage, barcodeList: seq<string>, fileName: string)

  /** The pages of the document in order: the summary page comes after every copied page. */
  function Document(o: Output): seq<OutPage> {
    o.stamped + [o.summary]
  }

  /**
   * Why generating the document failed: the upload does not load as a PDF,
   * the encoder failed on a page, or saving/writing the output failed.
   */
  datatype GenError = ParseFailed | EncodeFailed(page: nat) | WriteFailed

  /** The handler's reply. */
  datatype Response =
    | BadRequest(message: string)    // 400
    | HandlerThrew                   // the request failed on a thrown TypeError
    | MoveFailed                     // 500 'Error moving the file.'
    | GenerationFailed(cause: GenError) // 500 'Error generating PDF: ' + the error's message
    | Generated(downloadUrl: string) // the JSON reply with the download link

  /** `generated_${n}.pdf`: the number's decimal digits between a fixed stem and the extension. */
  function OutputFileName(n: nat): (r: string)
    ensures |r| >= 15 && r[..10] == "generated_" && r[|r| - 4..] == ".pdf"
    ensures AllDigits(r[10..|r| - 4]) && ParseDigits(r[10..|r| - 4]) == n
  {
    DigitsOfShape(n);
    ParseDigitsOf(n);
    var r := "generated_" + DigitsOf(n) + ".pdf";
    assert r[10..|r| - 4] == DigitsOf(n);
    r
  }

  /**
   * The identifier of page k in a run whose counter starts at c0 and whose
   * clock reads clock(k) at page k (IssuedIdsNumbered gives its sequence number).
   */
  function IdOfPage(c0: nat, clock: nat -> Date, k: nat): (id: string)
    ensures IsCalendarDate(clock(k)) && !(0 <= clock(k).year < 10) && c0 + k < 100000 ==> |id| == 16
  {
    ContentId(DateCode(clock(k)), c0 + k)
  }

  /** `f(0), ..., f(n - 1)`, built by appending one at a time as a loop over pages does. */
  function Listing(f: nat -> string, n: nat): seq<string> {
    if n == 0 then [] else Listing(f, n - 1) + [f(n - 1)]
  }

  lemma {:induction false} ListingLength(f: nat -> string, n: nat)
    ensures |Listing(f, n)| == n
  {
    if n > 0 {
      ListingLength(f, n - 1);
    }
  }

  /** Entry k of the listing is f(k). */
  lemma {:induction false} ListingAt(f: nat -> string, n: nat, k: nat)
    requires k < n
    ensures |Listing(f, n)| == n
    ensures Listing(f, n)[k] == f(k)
  {
    ListingLength(f, n - 1);
    if k < n - 1 {
      ListingAt(f, n - 1, k);
    }
  }

  /** The identifiers a run whose counter starts at c0 issues for its first n pages, in page order. */
  function IssuedIds(c0: nat, clock: nat -> Date, n: nat): (ids: seq<string>)
    ensures |ids| == n
  {
    ListingLength((k: nat) => IdOfPage(c0, clock, k), n);
    Listing((k: nat) => IdOfPage(c0, clock, k), n)
  }

  /** Page k of the run gets the identifier with counter c0 + k and the date code of its own clock reading. */
  lemma IssuedIdAt(c0: nat, clock: nat -> Date, n: nat, k: nat)
    requires k < n
    ensures |IssuedIds(c0, clock, n)| == n
    ensures IssuedIds(c0, clock, n)[k] == ContentId(DateCode(clock(k)), c0 + k)
  {
    ListingAt((k: nat) => IdOfPage(c0, clock, k), n, k);
  }

  /** One more page appends its identifier. */
  lemma IssuedIdsAppend(c0: nat, clock: nat -> Date, n: nat)
    ensures IssuedIds(c0, clock, n + 1) == IssuedIds(c0, clock, n) + [ContentId(DateCode(clock(n)), c0 + n)]
  {
  }

  /**
   * The identifiers of a run carry the sequence numbers c0, c0 + 1, ... in
   * page order, and no two of them are equal, even when the date changes
   * during the run.
   */
  lemma IssuedIdsNumbered(c0: nat, clock: nat -> Date, n: nat)
    ensures |IssuedIds(c0, clock, n)| == n
    ensures forall k :: 0 <= k < n ==> SequenceNumber(IssuedIds(c0, clock, n)[k]) == Some(c0 + k)
    ensures forall i, j :: 0 <= i < j < n ==> IssuedIds(c0, clock, n)[i] != IssuedIds(c0, clock, n)[j]
  {
    var ids := IssuedIds(c0, clock, n);
    forall k | 0 <= k < n
      ensures SequenceNumber(ids[k]) == Some(c0 + k)
    {
      IssuedIdAt(c0, clock, n, k);
      SequenceNumberOfContentId(DateCode(clock(k)), c0 + k);
    }
  }

  /** Distinct numbers give distinct file names, and the same number the same name. */
  lemma OutputFileNameInjective(m: nat, n: nat)
    ensures OutputFileName(m) == OutputFileName(n) <==> m == n
  {
    if OutputFileName(m) == OutputFileName(n) {
      var a := OutputFileName(m);
      assert ParseDigits(a[10..|a| - 4]) == m;
    }
  }

  /**
   * A run of p >= 1 pages that starts with the counter at c0 ends with it at
   * c0 + p and writes `generated_${c0 + p - 1}.pdf`: the file is named after
   * the sequence number of the run's last identifier, and after no earlier one.
   */
  lemma OutputFileNameOfRun(c0: nat, clock: nat -> Date, p: nat)
    requires c0 >= 1 && p >= 1
    ensures var ids := IssuedIds(c0, clock, p);
      && SequenceNumber(ids[p - 1]).Some?
      && OutputFileName(c0 + p - 1) == OutputFileName(SequenceNumber(ids[p - 1]).value)
      && forall k :: 0 <= k < p - 1 ==>
           SequenceNumber(ids[k]).Some? && OutputFileName(c0 + p - 1) != OutputFileName(SequenceNumber(ids[k]).value)
  {
    var ids := IssuedIds(c0, clock, p);
    IssuedIdsNumbered(c0, clock, p);
    forall k | 0 <= k < p - 1
      ensures OutputFileName(c0 + p - 1) != OutputFileName(SequenceNumber(ids[k]).value)
    {
      OutputFileNameInjective(c0 + p - 1, c0 + k);
    }
  }

  /** Every identifier a run draws on its pages is encodable. */
  ghost predicate AllEncoded(ids: seq<string>, encode: string -> Option<Image>) {
    forall k {:trigger encode(ids[k])} :: 0 <= k < |ids| ==> encode(ids[k]).Some?
  }

  /** One page whose identifier the encoder rejects is enough for the run not to have every identifier encoded. */
  lemma UnencodableIdFailsRun(c0: nat, clock: nat -> Date, n: nat, k: nat, encode: string -> Option<Image>)
    requires k < n && encode(IdOfPage(c0, clock, k)).None?
    ensures !AllEncoded(IssuedIds(c0, clock, n), encode)
  {
    IssuedIdAt(c0, clock, n, k);
    var ids := IssuedIds(c0, clock, n);
    assert encode(ids[k]).None?;
  }

  /** The first |ids| source pages with their overlays: page k stamped with ids[k], its barcode and clock(k)'s date. */
  ghost predicate Stamped(out: seq<OutPage>, pages: seq<SourcePage>, ids: seq<string>,
                          clock: nat -> Date, encode: string -> Option<Image>)
    requires |ids| <= |pages| && AllEncoded(ids, encode)
  {
    |out| == |ids|
    && forall k {:trigger out[k]} :: 0 <= k < |ids| ==>
         out[k] == Annotate(pages[k], ids[k], encode(ids[k]).value, clock(k).localeText)
  }

  /** Stamping the next page extends the stamped prefix by one. */
  lemma StampedAppend(out: seq<OutPage>, pages: seq<SourcePage>, ids: seq<string>,
                      clock: nat -> Date, encode: string -> Option<Image>, id: string)
    requires |ids| < |pages| && AllEncoded(ids, encode) && Stamped(out, pages, ids, clock, encode)
    requires encode(id).Some?
    ensures AllEncoded(ids + [id], encode)
    ensures Stamped(out + [Annotate(pages[|ids|], id, encode(id).value, clock(|ids|).localeText)],
                    pages, ids + [id], clock, encode)
  {
  }

  /**
   * The page loop of the assembler: for each page in order, read the date,
   * issue the next identifier, encode it and stamp the page. Stops at the
   * first page whose identifier the encoder rejects, after that page's
   * identifier was issued.
   */
  method StampPages(counter: ContentCounter, pages: seq<SourcePage>, clock: nat -> Date,
                    encode: string -> Option<Image>)
    returns (out: seq<OutPage>, barcodeList: seq<string>, failedAt: Option<nat>)
    requires counter.Valid()
    modifies counter
    ensures counter.Valid()
    ensures AllEncoded(barcodeList, encode)
    ensures failedAt.None? ==>
      && barcodeList == IssuedIds(old(counter.value), clock, |pages|)
      && |barcodeList| == |pages|
      && Stamped(out, pages, barcodeList, clock, encode)
      && counter.value == old(counter.value) + |pages|
      && counter.issued == old(counter.issued) + barcodeList
    ensures failedAt.Some? ==>
      var k := failedAt.value;
      && k < |pages|
      && barcodeList == IssuedIds(old(counter.value), clock, k)
      && encode(IdOfPage(old(counter.value), clock, k)).None?
      && counter.value == old(counter.value) + k + 1
      && counter.issued == old(counter.issued) + barcodeList + [IdOfPage(old(counter.value), clock, k)]
  {
    ghost var c0, issued0 := counter.value, counter.issued;
    out, barcodeList, failedAt := [], [], None;
    var i := 0;
    while i < |pages|
      invariant 0 <= i <= |pages|
      invariant counter.Valid()
      invariant barcodeList == IssuedIds(c0, clock, i) && |barcodeList| == i
      invariant AllEncoded(barcodeList, encode)
      invariant failedAt == None
      invariant counter.value == c0 + i && counter.issued == issued0 + barcodeList
      invariant Stamped(out, pages, barcodeList, clock, encode)
    {
      var today := clock(i);
      var contentId := counter.NextId(today);
      assert contentId == IdOfPage(c0, clock, i);
      IssuedIdsAppend(c0, clock, i);
      var image := encode(contentId);
      if image.None? {
        failedAt := Some(i);
        break;
      }
      StampedAppend(out, pages, barcodeList, clock, encode, contentId);
      out := out + [Annotate(pages[i], contentId, image.value, today.localeText)];
      barcodeList := barcodeList + [contentId];
      i := i + 1;
    }
  }

  /**
   * One run of the assembler (`generatePDFWithContentAndBarcode`): stamp the
   * pages, append the summary page, and write the document under
   * `generated_${counter - 1}.pdf`. Nothing is written unless every page was
   * encoded and saving succeeds.
   */
  method GeneratePdf(counter: ContentCounter, pages: seq<SourcePage>, clock: nat -> Date,
                     encode: string -> Option<Image>, writeOk: bool)
    returns (r: Result<Output, GenError>)
    requires counter.Valid()
    modifies counter
    ensures counter.Valid()
    ensures |IssuedIds(old(counter.value), clock, |pages|)| == |pages|
    ensures r.Ok? <==> writeOk && AllEncoded(IssuedIds(old(counter.value), clock, |pages|), encode)
    ensures r == Err(WriteFailed) <==> !writeOk && AllEncoded(IssuedIds(old(counter.value), clock, |pages|), encode)
    ensures r.Err? ==> r.error.EncodeFailed? || r.error == WriteFailed
    ensures !(r.Err? && r.error.EncodeFailed?) ==>
      && AllEncoded(IssuedIds(old(counter.value), clock, |pages|), encode)
      && counter.value == old(counter.value) + |pages|
      && counter.issued == old(counter.issued) + IssuedIds(old(counter.value), clock, |pages|)
    ensures r.Ok? ==>
      var ids, out := IssuedIds(old(counter.value), clock, |pages|), r.value;
      && out.barcodeList == ids
      && Stamped(out.stamped, pages, ids, clock, encode)
      && out.summary == SummaryPage(ids, DefaultPageHeight)
      && |Document(out)| == |pages| + 1
      && out.fileName == OutputFileName(old(counter.value) + |pages| - 1)
    ensures r.Err? && r.error.EncodeFailed? ==>
      var k := r.error.page;
      && k < |pages|
      && AllEncoded(IssuedIds(old(counter.value), clock, k), encode)
      && encode(IdOfPage(old(counter.value), clock, k)).None?
      && counter.value == old(counter.value) + k + 1
      && counter.issued == old(counter.issued) + IssuedIds(old(counter.value), clock, k + 1)
  {
    ghost var c0 := counter.value;
    var stamped, barcodeList, failedAt := StampPages(counter, pages, clock, encode);
    if failedAt.Some? {
      IssuedIdsAppend(c0, clock, failedAt.value);
      UnencodableIdFailsRun(c0, clock, |pages|, failedAt.value, encode);
      r := Err(EncodeFailed(failedAt.value));
      return;
    }
    var summaryPage := BuildSummary(barcodeList, DefaultPageHeight);
    var outputFileName := OutputFileName(counter.value - 1);
    if !writeOk {
      r := Err(WriteFailed);
    } else {
      r := Ok(Output(stamped, summaryPage, barcodeList, outputFileName));
    }
  }

  /**
   * The `/upload` handler: validate, move the upload into place (which may
   * fail), parse it as a PDF (None when the bytes are not one), then run the
   * assembler and answer with the download link. Every failure after the
   * move is a 500 carrying the error that ended the run.
   */
  method HandleUpload(counter: ContentCounter, req: Request, moveOk: bool, parsed: Option<seq<SourcePage>>,
                      clock: nat -> Date, encode: string -> Option<Image>, writeOk: bool)
    returns (resp: Response)
    requires counter.Valid()
    modifies counter
    ensures counter.Valid()
    ensures Validate(req).Rejected? ==> resp == BadRequest(RejectionMessage(Validate(req).reason))
    ensures Validate(req) == Threw ==> resp == HandlerThrew
    ensures Validate(req).Accepted? && !moveOk ==> resp == MoveFailed
    ensures Validate(req).Accepted? && moveOk && !resp.Generated? ==> resp.GenerationFailed?
    ensures Validate(req).Accepted? && moveOk && parsed.None? ==> resp == GenerationFailed(ParseFailed)
    ensures resp == GenerationFailed(ParseFailed) ==> Validate(req).Accepted? && moveOk && parsed.None?
    ensures Validate(req).Accepted? && moveOk && parsed.Some?
            && !AllEncoded(IssuedIds(old(counter.value), clock, |parsed.value|), encode) ==>
      resp.GenerationFailed? && resp.cause.EncodeFailed?
    ensures !Validate(req).Accepted? || !moveOk || parsed.None? ==>
      counter.value == old(counter.value) && counter.issued == old(counter.issued)
    ensures resp.Generated? <==>
      && Validate(req).Accepted? && moveOk && parsed.Some? && writeOk
      && AllEncoded(IssuedIds(old(counter.value), clock, |parsed.value|), encode)
    ensures resp == GenerationFailed(WriteFailed) <==>
      && Validate(req).Accepted? && moveOk && parsed.Some? && !writeOk
      && AllEncoded(IssuedIds(old(counter.value), clock, |parsed.value|), encode)
    ensures resp.Generated? || resp == GenerationFailed(WriteFailed) ==>
      && counter.value == old(counter.value) + |parsed.value|
      && counter.issued == old(counter.issued) + IssuedIds(old(counter.value), clock, |parsed.value|)
    ensures resp.Generated? ==>
      resp.downloadUrl == "/uploads/" + OutputFileName(old(counter.value) + |parsed.value| - 1)
    ensures resp.GenerationFailed? && resp.cause.EncodeFailed? ==>
      var k := resp.cause.page;
      && Validate(req).Accepted? && moveOk && parsed.Some?
      && k < |parsed.value|
      && AllEncoded(IssuedIds(old(counter.value), clock, k), encode)
      && encode(IdOfPage(old(counter.value), clock, k)).None?
      && counter.value == old(counter.value) + k + 1
      && counter.issued == old(counter.issued) + IssuedIds(old(counter.value), clock, k + 1)
  {
    var verdict := Validate(req);
    match verdict
    case Rejected(reason) =>
      resp := BadRequest(RejectionMessage(reason));
    case Threw =>
      resp := HandlerThrew;
    case Accepted(file) =>
      if !moveOk {
        resp := MoveFailed;
      } else if parsed.None? {
        resp := GenerationFailed(ParseFailed);
      } else {
        var r := GeneratePdf(counter, parsed.value, clock, encode, writeOk);
        if r.Ok? {
          resp := Generated("/uploads/" + r.value.fileName);
        } else {
          resp := GenerationFailed(r.error);
        }
      }
  }

  /**
   * Two runs in a row, the second over a document with no pages: the second
   * issues no identifier, leaves the counter where the first left it, and
   * writes its (summary-only) document under the same file name as the
   * first, replacing the first run's output.
   */
  method EmptyRunReusesFileName(counter: ContentCounter, pages: seq<SourcePage>, clock: nat -> Date,
                                encode: string -> Option<Image>)
    returns (first: Result<Output, GenError>, second: Result<Output, GenError>)
    requires counter.Valid()
    modifies counter
    ensures first.Ok? ==> second.Ok? && second.value.barcodeList == []
    ensures first.Ok? ==> second.value.fileName == first.value.fileName
  {
    first := GeneratePdf(counter, pages, clock, encode, true);
    ghost var c1 := counter.value;
    assert AllEncoded(IssuedIds(c1, clock, 0), encode);
    second := GeneratePdf(counter, [], clock, encode, true);
  }
}
