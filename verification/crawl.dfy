/** The spider's per-page loop: construction (workbook bootstrap and the
    initial delay), then for every response the pacing update, the marker
    check, field extraction and the workbook upsert. The pages are processed
    one after another; the sleep between them is not modelled. */
module Crawl {
  import opened Wrappers
  import Pacing
  import Extraction
  import Store
  import Text

  /** The spider's state between pages. */
  datatype Spider = Spider(delay: int, store: Store.StoreFile)

  /** Everything one call of `parse` depends on: whether the browser
      navigated to the response's URL (`driver.get` raises otherwise), the
      response, the page the browser rendered for it and whether the
      workbook write succeeds. */
  datatype Visit = Visit(navigated: bool, response: Pacing.Response, page: Extraction.Page, writeOk: bool)

  predicate Invariant(s: Spider)
  {
    && Pacing.InRange(s.delay)
    && Store.WellFormedFile(s.store)
    && (s.store.Present? ==> Store.UrlsUnique(s.store.table.rows))
  }

  /** Construction: the workbook is bootstrapped and the delay starts at its
      initial value. An existing workbook is kept without being read. */
  function Start(file: Store.StoreFile, writeOk: bool): (r: Result<Spider, Store.StoreError>)
    ensures r.Success? <==> Store.Bootstrap(file, writeOk).Success?
    ensures r.Success? ==> r.value.delay == Pacing.InitialDelay
    ensures r.Success? ==> r.value.store == Store.Bootstrap(file, writeOk).value
    ensures r.Success? && !file.Absent? ==> r.value.store == file
    ensures r.Success? && file.Absent? ==> r.value.store == Store.Present(Store.Table(Store.Schema, []))
    ensures r.Success? && Store.WellFormedFile(file) && (file.Present? ==> Store.UrlsUnique(file.table.rows)) ==>
      Invariant(r.value)
  {
    var store :- Store.Bootstrap(file, writeOk);
    Success(Spider(Pacing.InitialDelay, store))
  }

  /** The record `parse` hands to `update_excel` for a page with the marker. */
  function RecordOf(v: Visit): (rec: Store.Record)
    requires v.page.options.Some?
    ensures rec.url == v.response.url && rec.urlType == v.response.urlType
    ensures Extraction.Extract(v.page) == Some(rec.data)
  {
    Store.Record(v.response.url, Extraction.Extract(v.page).value, v.response.urlType)
  }

  /** The delay update at the top of `parse`, skipped when navigation
      raised before it. */
  function Pace(s: Spider, v: Visit): (delay: int)
    ensures !v.navigated ==> delay == s.delay
    ensures Pacing.InRange(s.delay) ==> Pacing.InRange(delay)
    ensures v.navigated && Pacing.IsBlocked(v.response) && s.delay <= Pacing.MaxDelay ==> s.delay <= delay
    ensures v.navigated && !Pacing.IsBlocked(v.response) && Pacing.MinDelay <= s.delay ==> delay <= s.delay
    ensures v.navigated ==> delay == Pacing.Run(s.delay, [Pacing.IsBlocked(v.response)])
  {
    if v.navigated then Pacing.Observe(s.delay, Pacing.IsBlocked(v.response)) else s.delay
  }

  /** One call of `parse` as written. A failed navigation ends it with
      nothing changed. Otherwise the delay is updated first, whatever the
      page holds; a page without the marker is then skipped; otherwise the
      extracted record goes through `update_excel` as written, which appends
      a new URL and leaves a known one untouched. */
  function Parse(s: Spider, v: Visit): (r: Spider)
    requires Store.WellFormedFile(s.store)
    ensures Invariant(s) ==> Invariant(r)
    ensures Store.WellFormedFile(r.store)
    ensures !v.navigated ==> r == s
    ensures r.delay == Pace(s, v)
    ensures v.page.options.None? ==> r.store == s.store
    ensures !(s.store.Present? && v.writeOk) ==> r.store == s.store
    ensures s.store.Present? && Store.HasUrl(s.store.table.rows, v.response.url) ==> r.store == s.store
    ensures v.navigated && v.page.options.Some? && s.store.Present? && v.writeOk
            && !Store.HasUrl(s.store.table.rows, v.response.url) ==>
      r.store == Store.Present(Store.Table(Store.Schema,
        s.store.table.rows + [[None] + Store.DataCells(RecordOf(v))]))
  {
    if !v.navigated then s
    else
      var delay := Pace(s, v);
      if v.page.options.None? then Spider(delay, s.store)
      else Spider(delay, Store.UpdateExcelAsWritten(s.store, RecordOf(v), v.writeOk))
  }

  /** One call of `parse` with the intended `update_excel`: as `Parse`,
      except that a known URL's row is overwritten with the page's values. */
  function ParseIntended(s: Spider, v: Visit): (r: Spider)
    requires Store.WellFormedFile(s.store)
    ensures Invariant(s) ==> Invariant(r)
    ensures Store.WellFormedFile(r.store)
    ensures !v.navigated ==> r == s
    ensures r.delay == Pace(s, v)
    ensures !(v.navigated && v.page.options.Some? && s.store.Present? && v.writeOk) ==> r.store == s.store
    ensures v.navigated && v.page.options.Some? && s.store.Present? && v.writeOk ==>
      r.store == Store.Present(Store.Upsert(s.store.table, RecordOf(v)))
    ensures v.navigated && v.page.options.Some? && s.store.Present? && v.writeOk
            && !Store.HasUrl(s.store.table.rows, v.response.url) ==>
      r.store == Parse(s, v).store
  {
    if !v.navigated then s
    else
      var delay := Pace(s, v);
      if v.page.options.None? then Spider(delay, s.store)
      else Spider(delay, Store.UpdateExcel(s.store, RecordOf(v), v.writeOk))
  }

  /** The spider after a sequence of visits, oldest first. */
  function Crawl(s: Spider, visits: seq<Visit>): (r: Spider)
    requires Store.WellFormedFile(s.store)
    ensures Store.WellFormedFile(r.store)
    ensures Invariant(s) ==> Invariant(r)
    decreases |visits|
  {
    if visits == [] then s else Crawl(Parse(s, visits[0]), visits[1..])
  }

  /** The block verdicts of the visits whose navigation succeeded. */
  function Verdicts(visits: seq<Visit>): (obs: seq<bool>)
    ensures |obs| <= |visits|
    ensures (forall i :: 0 <= i < |visits| ==> visits[i].navigated) ==>
      |obs| == |visits| && forall i :: 0 <= i < |visits| ==> obs[i] == Pacing.IsBlocked(visits[i].response)
    ensures |visits| == 1 ==> obs == (if visits[0].navigated then [Pacing.IsBlocked(visits[0].response)] else [])
  {
    if visits == [] then []
    else if visits[0].navigated then [Pacing.IsBlocked(visits[0].response)] + Verdicts(visits[1..])
    else Verdicts(visits[1..])
  }

  /** Verdicts distribute over concatenation: together with the one-visit
      case, this pins down the verdicts of any visit sequence. */
  lemma {:induction false} VerdictsAppend(a: seq<Visit>, b: seq<Visit>)
    ensures Verdicts(a + b) == Verdicts(a) + Verdicts(b)
    decreases |a|
  {
    if a == [] {
      assert a + b == b;
    } else {
      assert (a + b)[0] == a[0];
      assert (a + b)[1..] == a[1..] + b;
      VerdictsAppend(a[1..], b);
    }
  }

  /** The delay after a crawl is the pacing run over the block verdicts of
      the pages the browser reached: nothing else steers it. */
  lemma {:induction false} CrawlDelayIsRun(s: Spider, visits: seq<Visit>)
    requires Store.WellFormedFile(s.store)
    ensures Crawl(s, visits).delay == Pacing.Run(s.delay, Verdicts(visits))
    decreases |visits|
  {
    if visits != [] {
      CrawlDelayIsRun(Parse(s, visits[0]), visits[1..]);
      if visits[0].navigated {
        assert Verdicts(visits)[1..] == Verdicts(visits[1..]);
      }
    }
  }

  /** Pages without the marker never touch the workbook. */
  lemma {:induction false} SkippedPagesLeaveStore(s: Spider, visits: seq<Visit>)
    requires Store.WellFormedFile(s.store)
    requires forall i :: 0 <= i < |visits| ==> visits[i].page.options.None?
    ensures Crawl(s, visits).store == s.store
    decreases |visits|
  {
    if visits != [] {
      SkippedPagesLeaveStore(Parse(s, visits[0]), visits[1..]);
    }
  }

  /** The single-page scenario: one seed URL, status 200, a page with the
      marker reading `Widget`, the price `$5`, no images and nothing else. */
  const WidgetUrl: string := "https://x/1"

  const WidgetPage: Extraction.Page := Extraction.Page(
    Some(Extraction.Found("Widget")), Extraction.Found("$5"),
    Extraction.Failed, Extraction.Failed, Extraction.Listed([]), Extraction.Listed([]),
    Extraction.Failed, Extraction.Failed, Extraction.Failed, Extraction.Failed,
    Extraction.Failed, Extraction.Failed, Extraction.Failed)

  const WidgetVisit: Visit := Visit(true, Pacing.Response(WidgetUrl, 200, "", "New"), WidgetPage, true)

  const WidgetRow: seq<Store.Cell> := [
    None, Some(WidgetUrl), Some("Widget"), Some("$5"), None, None, Some(""), Some(""),
    None, None, None, None, None, None, None, Some("New")]

  /** The scenario page yields the name and the price and nothing else. */
  lemma WidgetPageExtraction()
    ensures Extraction.Extract(WidgetPage) == Some(Extraction.Product(
      Some("Widget"), Some("$5"), None, None, [], [], None, None, None, None, None, None, None))
  {
    Text.TrimCharacterization("Widget", 0, "Widget");
    Text.TrimCharacterization("$5", 0, "$5");
  }

  /** The scenario's record, stored as a row, is the expected row. */
  lemma WidgetRecordRow()
    ensures [None] + Store.DataCells(RecordOf(WidgetVisit)) == WidgetRow
  {
    assert RecordOf(WidgetVisit).data == Extraction.Product(
      Some("Widget"), Some("$5"), None, None, [], [], None, None, None, None, None, None, None) by {
      WidgetPageExtraction();
    }
  }

  /** The scenario page on a fresh, empty workbook appends exactly the
      expected row, and the delay drops from 10 to 8. */
  lemma WidgetFirstVisit()
    ensures Parse(Spider(Pacing.InitialDelay, Store.Present(Store.Table(Store.Schema, []))), WidgetVisit)
            == Spider(8, Store.Present(Store.Table(Store.Schema, [WidgetRow])))
  {
    var t := Store.Table(Store.Schema, []);
    WidgetRecordRow();
    assert !Store.HasUrl(t.rows, WidgetUrl);
    assert t.rows + [WidgetRow] == [WidgetRow];
    assert !Pacing.IsBlocked(WidgetVisit.response);
  }

  /** The scenario leaves a fresh workbook with exactly one row: `No` empty,
      both image lists stored as empty strings, URL type `New`; the delay
      drops from 10 to 8. */
  lemma SingleWidgetPage()
    ensures Start(Store.Absent, true).Success?
    ensures Crawl(Start(Store.Absent, true).value, [WidgetVisit]) ==
      Spider(8, Store.Present(Store.Table(Store.Schema, [WidgetRow])))
  {
    var s0 := Spider(Pacing.InitialDelay, Store.Present(Store.Table(Store.Schema, [])));
    assert Start(Store.Absent, true) == Success(s0);
    WidgetFirstVisit();
    assert Crawl(s0, [WidgetVisit]) == Crawl(Parse(s0, WidgetVisit), []);
  }
}
