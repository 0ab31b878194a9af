/**
 * Bulletin page extraction: a downloaded bulletin is parsed into pages and
 * each page gets one `BulletinPage` row keyed by (bulletin, index). A page
 * whose text layer is long enough is stored as clean text; any other page
 * falls back to OCR. Only new pages and pages flagged `harvest` but not
 * `clean` are extracted again.
 *
 * The download, the PDF parser and the OCR engine are inputs: `content` is
 * what the download yielded, `parse` is the PDF loader and each `DocPage`
 * carries the text layer and the OCR reading of its rendering.
 */
module Bulletins {
  import opened Wrappers
  import opened Text

  type Bytes = seq<bv8>

  /** `CAMPUSONLINE_BULLETIN_OCR_THRESHOLD`'s default. */
  const DefaultOcrThreshold: int := 50

  /** One page of a parsed PDF: its text layer and what OCR reads from its rendering. */
  datatype DocPage = DocPage(textLayer: string, ocrText: string)

  /** The stored columns of a `BulletinPage`. */
  datatype PageRow = PageRow(text: Option<string>, clean: bool, harvest: bool)

  /** A page as `get_or_create` inserts it: no text, both flags at their default `False`. */
  const NewRow := PageRow(None, false, false)

  /** The row after `BulletinPage.extract(page)`. */
  function ExtractedRow(row: PageRow, page: DocPage, threshold: int): (r: PageRow)
    ensures r.harvest == row.harvest
    ensures r.text.Some? && Trimmed(r.text.value)
  {
    var text := Strip(page.textLayer);
    StripTrimmed(page.textLayer);
    StripTrimmed(page.ocrText);
    if |text| > threshold then PageRow(Some(text), true, row.harvest)
    else PageRow(Some(Strip(page.ocrText)), false, row.harvest)
  }

  /**
   * Extraction looks only at the page and keeps the flag it does not set:
   * extracting again gives the same row, and the outcome does not depend on
   * the text the row held before.
   */
  lemma ExtractedRowIdempotent(row: PageRow, other: PageRow, page: DocPage, threshold: int)
    requires other.harvest == row.harvest
    ensures ExtractedRow(ExtractedRow(row, page, threshold), page, threshold) == ExtractedRow(row, page, threshold)
    ensures ExtractedRow(other, page, threshold) == ExtractedRow(row, page, threshold)
  {
  }

  /** A `BulletinPage` object; `bulletin` and `index` identify it. */
  class BulletinPage {
    const bulletin: int
    const index: nat
    var text: Option<string>
    var clean: bool
    var harvest: bool

    constructor (bulletin: int, index: nat, row: PageRow)
      ensures this.bulletin == bulletin && this.index == index && Row() == row
    {
      this.bulletin := bulletin;
      this.index := index;
      text := row.text;
      clean := row.clean;
      harvest := row.harvest;
    }

    function Row(): PageRow
      reads this
    {
      PageRow(text, clean, harvest)
    }

    /**
     * `BulletinPage.extract`: the stripped text layer is kept as clean text
     * when it is longer than `threshold`; otherwise the stripped OCR text
     * is kept and the page is marked not clean. `harvest` is not touched.
     */
    method Extract(page: DocPage, threshold: int)
      modifies this
      ensures clean <==> |Strip(page.textLayer)| > threshold
      ensures clean ==> text == Some(Strip(page.textLayer))
      ensures !clean ==> text == Some(Strip(page.ocrText))
      ensures harvest == old(harvest)
      ensures Row() == ExtractedRow(old(Row()), page, threshold)
    {
      var t := Strip(page.textLayer);
      if |t| > threshold {
        clean := true;
        text := Some(t);
        return;
      }
      var scanned := Strip(page.ocrText);
      clean := false;
      text := Some(scanned);
    }
  }

  /**
   * The `BulletinPage` table. Keying it by (bulletin, index) is the
   * `unique_together` constraint: there is at most one row per page.
   */
  class PageTable {
    var rows: map<(int, nat), PageRow>

    constructor (rows: map<(int, nat), PageRow>)
      ensures this.rows == rows
    {
      this.rows := rows;
    }

    /** `BulletinPage.objects.get_or_create(bulletin=b, index=n)`. */
    method GetOrCreate(b: int, n: nat) returns (bp: BulletinPage, created: bool)
      modifies this
      ensures fresh(bp)
      ensures bp.bulletin == b && bp.index == n
      ensures created <==> (b, n) !in old(rows)
      ensures bp.Row() == if created then NewRow else old(rows)[(b, n)]
      ensures rows == old(rows)[(b, n) := bp.Row()]
    {
      if (b, n) in rows {
        bp := new BulletinPage(b, n, rows[(b, n)]);
        created := false;
      } else {
        bp := new BulletinPage(b, n, NewRow);
        rows := rows[(b, n) := NewRow];
        created := true;
      }
    }

    /** `bp.save()`. */
    method Save(bp: BulletinPage)
      modifies this
      ensures rows == old(rows)[(bp.bulletin, bp.index) := bp.Row()]
    {
      rows := rows[(bp.bulletin, bp.index) := bp.Row()];
    }
  }

  /** What the loop body of `Bulletin.extract` does to the table for page `n`. */
  function PageStep(rows: map<(int, nat), PageRow>, b: int, n: nat, page: DocPage, threshold: int): map<(int, nat), PageRow> {
    if (b, n) !in rows then rows[(b, n) := ExtractedRow(NewRow, page, threshold)]
    else if rows[(b, n)].harvest && !rows[(b, n)].clean then rows[(b, n) := ExtractedRow(rows[(b, n)], page, threshold)]
    else rows
  }

  /** The table after the loop has handled the first `n` pages of `doc`. */
  function ExtractUpTo(rows: map<(int, nat), PageRow>, b: int, doc: seq<DocPage>, threshold: int, n: nat): map<(int, nat), PageRow>
    requires n <= |doc|
  {
    if n == 0 then rows else PageStep(ExtractUpTo(rows, b, doc, threshold, n - 1), b, n - 1, doc[n - 1], threshold)
  }

  /** The pages `parse` finds in the downloaded content, if there is content and it parses. */
  function Parsed(content: Option<Bytes>, parse: Bytes -> Option<seq<DocPage>>): Option<seq<DocPage>> {
    if content.None? || content.value == [] then None else parse(content.value)
  }

  /** The table after `Bulletin.extract` of bulletin `b`. */
  function ExtractSpec(rows: map<(int, nat), PageRow>, b: int, content: Option<Bytes>,
                       parse: Bytes -> Option<seq<DocPage>>, threshold: int): map<(int, nat), PageRow> {
    match Parsed(content, parse)
    case None => rows
    case Some(doc) => ExtractUpTo(rows, b, doc, threshold, |doc|)
  }

  /** The row `Bulletin.extract` leaves for page `k` of `doc`, given the row it found (if any). */
  function PageOutcome(old_: Option<PageRow>, page: DocPage, threshold: int): PageRow {
    match old_
    case None => ExtractedRow(NewRow, page, threshold)
    case Some(row) => if row.harvest && !row.clean then ExtractedRow(row, page, threshold) else row
  }

  /** A row the first `n` pages do not handle, including every row of other bulletins, is as it was. */
  lemma {:induction false} Untouched(rows: map<(int, nat), PageRow>, b: int, doc: seq<DocPage>, threshold: int, n: nat, k: (int, nat))
    requires n <= |doc| && !(k.0 == b && k.1 < n)
    ensures Found(ExtractUpTo(rows, b, doc, threshold, n), k) == Found(rows, k)
  {
    if n > 0 {
      Untouched(rows, b, doc, threshold, n - 1, k);
      PageStepEffect(ExtractUpTo(rows, b, doc, threshold, n - 1), b, n - 1, doc[n - 1], threshold);
    }
  }

  /** Once page `i` is handled, its row is its outcome from the row it had before the loop. */
  lemma {:induction false} Handled(rows: map<(int, nat), PageRow>, b: int, doc: seq<DocPage>, threshold: int, n: nat, i: nat)
    requires i < n <= |doc|
    ensures Found(ExtractUpTo(rows, b, doc, threshold, n), (b, i)) == Some(PageOutcome(Found(rows, (b, i)), doc[i], threshold))
  {
    var prev := ExtractUpTo(rows, b, doc, threshold, n - 1);
    PageStepEffect(prev, b, n - 1, doc[n - 1], threshold);
    if i == n - 1 {
      Untouched(rows, b, doc, threshold, n - 1, (b, i));
    } else {
      Handled(rows, b, doc, threshold, n - 1, i);
    }
  }

  /** The row stored under `k`, if any. */
  function Found(rows: map<(int, nat), PageRow>, k: (int, nat)): (r: Option<PageRow>)
    ensures r.Some? <==> k in rows
    ensures r.Some? ==> r.value == rows[k]
  {
    if k in rows then Some(rows[k]) else None
  }

  /** One page handled: its row is its outcome, and nothing else changes. */
  lemma PageStepEffect(rows: map<(int, nat), PageRow>, b: int, n: nat, page: DocPage, threshold: int)
    ensures forall k :: k in PageStep(rows, b, n, page, threshold) <==> k in rows || k == (b, n)
    ensures (b, n) in PageStep(rows, b, n, page, threshold)
    ensures PageStep(rows, b, n, page, threshold)[(b, n)] == PageOutcome(Found(rows, (b, n)), page, threshold)
    ensures forall k :: k in rows && k != (b, n) ==> PageStep(rows, b, n, page, threshold)[k] == rows[k]
  {
  }

  /**
   * `Bulletin.extract` for one bulletin. Without content, or when the
   * content does not parse, the table is left as it is. Otherwise every page
   * gets its row, created when missing, and a row is extracted and saved iff
   * it was just created or is flagged `harvest` but not `clean`.
   */
  method ExtractBulletin(table: PageTable, b: int, content: Option<Bytes>,
                         parse: Bytes -> Option<seq<DocPage>>, threshold: int)
    modifies table
    ensures table.rows == ExtractSpec(old(table.rows), b, content, parse, threshold)
  {
    if content.None? || content.value == [] {
      return;
    }
    var doc := parse(content.value);
    if doc.None? {
      return;
    }
    var pages := doc.value;
    ghost var start := table.rows;
    var n := 0;
    while n < |pages|
      invariant 0 <= n <= |pages|
      invariant table.rows == ExtractUpTo(start, b, pages, threshold, n)
    {
      var bp, created := table.GetOrCreate(b, n);
      if created || (bp.harvest && !bp.clean) {
        bp.Extract(pages[n], threshold);
        table.Save(bp);
      }
      n := n + 1;
    }
  }

  /** Without usable content nothing is created or changed. */
  lemma ExtractWithoutDocument(rows: map<(int, nat), PageRow>, b: int, content: Option<Bytes>,
                               parse: Bytes -> Option<seq<DocPage>>, threshold: int)
    requires content.None? || content.value == [] || parse(content.value).None?
    ensures ExtractSpec(rows, b, content, parse, threshold) == rows
  {
  }

  /**
   * After extracting a parsed bulletin there is exactly one row per page
   * index of the document, each holding that page's outcome; rows of other
   * bulletins and rows beyond the document's length are untouched.
   */
  lemma ExtractBulletinEffect(rows: map<(int, nat), PageRow>, b: int, content: Option<Bytes>,
                              parse: Bytes -> Option<seq<DocPage>>, threshold: int, doc: seq<DocPage>)
    requires Parsed(content, parse) == Some(doc)
    ensures var r := ExtractSpec(rows, b, content, parse, threshold);
      (forall n: nat :: n < |doc| ==>
         (b, n) in r && r[(b, n)] == PageOutcome(Found(rows, (b, n)), doc[n], threshold)) &&
      (forall k :: k in r && !(k.0 == b && k.1 < |doc|) ==> k in rows && r[k] == rows[k])
  {
    var r := ExtractSpec(rows, b, content, parse, threshold);
    forall n: nat | n < |doc|
      ensures (b, n) in r && r[(b, n)] == PageOutcome(Found(rows, (b, n)), doc[n], threshold)
    {
      Handled(rows, b, doc, threshold, |doc|, n);
    }
    forall k: (int, nat) | k in r && !(k.0 == b && k.1 < |doc|)
      ensures k in rows && r[k] == rows[k]
    {
      Untouched(rows, b, doc, threshold, |doc|, k);
    }
  }

  /** Extracting the same download twice leaves the table as extracting it once. */
  lemma ExtractIdempotent(rows: map<(int, nat), PageRow>, b: int, content: Option<Bytes>,
                          parse: Bytes -> Option<seq<DocPage>>, threshold: int)
    ensures ExtractSpec(ExtractSpec(rows, b, content, parse, threshold), b, content, parse, threshold)
         == ExtractSpec(rows, b, content, parse, threshold)
  {
    match Parsed(content, parse)
    case None =>
    case Some(doc) =>
      var once := ExtractSpec(rows, b, content, parse, threshold);
      var twice := ExtractSpec(once, b, content, parse, threshold);
      forall k: (int, nat)
        ensures Found(twice, k) == Found(once, k)
      {
        if k.0 == b && k.1 < |doc| {
          var page := doc[k.1];
          Handled(rows, b, doc, threshold, |doc|, k.1);
          Handled(once, b, doc, threshold, |doc|, k.1);
          if k in rows {
            ExtractedRowIdempotent(rows[k], rows[k], page, threshold);
          } else {
            ExtractedRowIdempotent(NewRow, NewRow, page, threshold);
          }
        } else {
          Untouched(once, b, doc, threshold, |doc|, k);
        }
      }
      SameRows(twice, once);
  }

  /** Two tables with the same row under every key are the same table. */
  lemma SameRows(m1: map<(int, nat), PageRow>, m2: map<(int, nat), PageRow>)
    requires forall k: (int, nat) :: Found(m1, k) == Found(m2, k)
    ensures m1 == m2
  {
    forall k | k in m1.Keys + m2.Keys
      ensures k in m1 && k in m2 && m1[k] == m2[k]
    {
      assert Found(m1, k) == Found(m2, k);
    }
    assert m1.Keys == m2.Keys;
  }

  /** A bulletin as `Bulletin.update` finds it: its id and what downloading it yields. */
  datatype Download = Download(id: int, content: Option<Bytes>)

  /** The table after `Bulletin.update` has run `extract` on each bulletin in turn. */
  function UpdateSpec(rows: map<(int, nat), PageRow>, bulletins: seq<Download>,
                      parse: Bytes -> Option<seq<DocPage>>, threshold: int): map<(int, nat), PageRow> {
    if bulletins == [] then rows
    else
      var last := bulletins[|bulletins| - 1];
      ExtractSpec(UpdateSpec(rows, bulletins[..|bulletins| - 1], parse, threshold), last.id, last.content, parse, threshold)
  }

  /** The model class name `Bulletin.update` reacts to. */
  const BulletinModel := "Bulletin"

  /**
   * `Bulletin.update`, the handler of the materialised-view refresh signal:
   * nothing happens unless the refreshed model is `Bulletin`; then every
   * bulletin is extracted.
   */
  method Update(table: PageTable, model: string, bulletins: seq<Download>,
                parse: Bytes -> Option<seq<DocPage>>, threshold: int)
    modifies table
    ensures model != BulletinModel ==> table.rows == old(table.rows)
    ensures model == BulletinModel ==> table.rows == UpdateSpec(old(table.rows), bulletins, parse, threshold)
  {
    if model != BulletinModel {
      return;
    }
    ghost var start := table.rows;
    for i := 0 to |bulletins|
      invariant table.rows == UpdateSpec(start, bulletins[..i], parse, threshold)
    {
      assert bulletins[..i + 1][..i] == bulletins[..i];
      ExtractBulletin(table, bulletins[i].id, bulletins[i].content, parse, threshold);
    }
    assert bulletins[..|bulletins|] == bulletins;
  }

  /** `Bulletin.update` only writes rows of the bulletins it was given. */
  lemma {:induction false} UpdateTouchesOnlyListed(rows: map<(int, nat), PageRow>, bulletins: seq<Download>,
                                                   parse: Bytes -> Option<seq<DocPage>>, threshold: int, k: (int, nat))
    requires forall d :: d in bulletins ==> d.id != k.0
    ensures var r := UpdateSpec(rows, bulletins, parse, threshold);
      (k in r <==> k in rows) && (k in rows ==> r[k] == rows[k])
  {
    if bulletins != [] {
      var init := bulletins[..|bulletins| - 1];
      var last := bulletins[|bulletins| - 1];
      UpdateTouchesOnlyListed(rows, init, parse, threshold, k);
      var mid := UpdateSpec(rows, init, parse, threshold);
      match Parsed(last.content, parse)
      case None =>
      case Some(doc) =>
        Untouched(mid, last.id, doc, threshold, |doc|, k);
    }
  }
}
