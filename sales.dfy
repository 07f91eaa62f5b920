/**
 * The `sales` table as the read endpoints see it: the listing, which
 * attaches a public receipt URL to every row (GET /api/sales), and the
 * statistics, which count the rows and add up their ticket quantities
 * (GET /api/stats). What the database and the object store answer is an
 * input.
 */
module Sales {
  import opened Wrappers

  /**
   * An error object from the database or the object store: its `message`
   * (empty when it has none) and `text`, what `${error}` renders it as.
   */
  datatype Failure = Failure(message: string, text: string)

  /**
   * The columns the submission handler writes. `ticketQuantity` is what
   * `parseInt` made of the form field; `None` is `NaN`, which reaches the
   * database as JSON `null`.
   */
  datatype NewSale = NewSale(
    teamLeader: string,
    rrppName: string,
    ticketQuantity: Option<int>,
    city: string,
    receiptFilename: Option<string>)

  /** A stored row: the written columns plus the id and creation time the database assigns. */
  datatype SaleRow = SaleRow(id: nat, sale: NewSale, createdAt: nat)

  /** A row as listed: every column of the row, plus `receipt_url`. */
  datatype ListedSale = ListedSale(row: SaleRow, receiptUrl: Option<string>)

  /** What a select returns: `data` (possibly `null`) or an error. */
  datatype SelectReply<T> = Selected(data: Option<seq<T>>) | SelectFailed(error: Failure)

  /** An endpoint's answer: a JSON body with status 200, or a status with `{ error: message }`. */
  datatype ApiReply<T> = Json(body: T) | Error(status: nat, message: string)

  // ---------------------------------------------------------------------
  // Listing
  // ---------------------------------------------------------------------

  /**
   * `receipt_url` of a row: only a non-empty `receipt_filename` is looked
   * up, and an absent or empty public URL becomes `null`. `publicUrl` is
   * the object store's `getPublicUrl` on the receipts bucket.
   */
  function ReceiptUrl(filename: Option<string>, publicUrl: string -> Option<string>): (url: Option<string>)
    ensures url.Some? <==>
            filename.Some? && filename.value != [] &&
            publicUrl(filename.value).Some? && publicUrl(filename.value).value != []
    ensures url.Some? ==> url == publicUrl(filename.value)
  {
    if filename.Some? && filename.value != [] then
      match publicUrl(filename.value)
      case Some(u) => if u != [] then Some(u) else None
      case None => None
    else None
  }

  /** The `.map` that turns the selected rows into listed rows. */
  function EnrichRows(rows: seq<SaleRow>, publicUrl: string -> Option<string>): (listed: seq<ListedSale>)
    ensures |listed| == |rows|
    ensures forall i :: 0 <= i < |rows| ==>
              listed[i].row == rows[i] &&
              listed[i].receiptUrl == ReceiptUrl(rows[i].sale.receiptFilename, publicUrl)
  {
    seq(|rows|, i requires 0 <= i < |rows| => ListedSale(rows[i], ReceiptUrl(rows[i].sale.receiptFilename, publicUrl)))
  }

  /** The rows underneath a listing, with `receipt_url` dropped. */
  function Unlisted(listed: seq<ListedSale>): (rows: seq<SaleRow>)
    ensures |rows| == |listed|
    ensures forall i :: 0 <= i < |listed| ==> rows[i] == listed[i].row
  {
    seq(|listed|, i requires 0 <= i < |listed| => listed[i].row)
  }

  /** Enrichment only adds `receipt_url`: dropping it gives back the rows, in their order. */
  lemma UnlistEnriched(rows: seq<SaleRow>, publicUrl: string -> Option<string>)
    ensures Unlisted(EnrichRows(rows, publicUrl)) == rows
  {
  }

  /** Enrichment is row by row: enriching a concatenation concatenates the enrichments. */
  lemma EnrichRowsAppend(a: seq<SaleRow>, b: seq<SaleRow>, publicUrl: string -> Option<string>)
    ensures EnrichRows(a + b, publicUrl) == EnrichRows(a, publicUrl) + EnrichRows(b, publicUrl)
  {
  }

  /** A row without a receipt file is listed with `receipt_url: null`. */
  lemma NoReceiptNoUrl(rows: seq<SaleRow>, publicUrl: string -> Option<string>, i: nat)
    requires i < |rows| && rows[i].sale.receiptFilename.None?
    ensures EnrichRows(rows, publicUrl)[i].receiptUrl.None?
  {
  }

  /**
   * GET /api/sales: a failed select is a 500 carrying the error's
   * message; otherwise the rows (`null` read as none) are listed in the
   * order the database returned them, each with its own receipt's URL.
   */
  function ListSales(reply: SelectReply<SaleRow>, publicUrl: string -> Option<string>): (r: ApiReply<seq<ListedSale>>)
    ensures reply.SelectFailed? ==> r == Error(500, reply.error.message)
    ensures reply.Selected? ==> r.Json? && Unlisted(r.body) == reply.data.GetOr([])
    ensures reply.Selected? ==>
              forall i :: 0 <= i < |r.body| ==>
                r.body[i].receiptUrl == ReceiptUrl(r.body[i].row.sale.receiptFilename, publicUrl)
  {
    match reply
    case SelectFailed(e) => Error(500, e.message)
    case Selected(data) =>
      var rows := data.GetOr([]);
      UnlistEnriched(rows, publicUrl);
      Json(EnrichRows(rows, publicUrl))
  }

  // ---------------------------------------------------------------------
  // Statistics
  // ---------------------------------------------------------------------

  datatype Totals = Totals(totalSales: nat, totalTickets: int)

  /**
   * The `reduce` over the selected ticket quantities, left to right from
   * 0. A `null` quantity adds nothing, as `n + null` is `n` in JavaScript.
   */
  function TicketSum(quantities: seq<Option<int>>): int
  {
    if quantities == [] then 0
    else TicketSum(quantities[..|quantities| - 1]) + quantities[|quantities| - 1].GetOr(0)
  }

  lemma {:induction false} TicketSumAppend(a: seq<Option<int>>, b: seq<Option<int>>)
    ensures TicketSum(a + b) == TicketSum(a) + TicketSum(b)
    decreases |b|
  {
    if b == [] {
      assert a + b == a;
    } else {
      assert (a + b)[..|a + b| - 1] == a + b[..|b| - 1];
      TicketSumAppend(a, b[..|b| - 1]);
    }
  }

  /** The total does not depend on the order the database returns the rows in. */
  lemma {:induction false} TicketSumOrderIndependent(a: seq<Option<int>>, b: seq<Option<int>>)
    requires multiset(a) == multiset(b)
    ensures TicketSum(a) == TicketSum(b)
    decreases |a|
  {
    if a != [] {
      var init, last := a[..|a| - 1], a[|a| - 1];
      assert a == init + [last];
      assert last in multiset(b);
      var j :| 0 <= j < |b| && b[j] == last;
      var rest := b[..j] + b[j + 1..];
      MultisetWithout(init, last, b, j);
      TicketSumOrderIndependent(init, rest);
      TicketSumWithout(b, j);
    }
  }

  /** Taking the same element out of two equal multisets leaves equal multisets. */
  lemma MultisetWithout<T>(init: seq<T>, last: T, b: seq<T>, j: nat)
    requires j < |b| && b[j] == last
    requires multiset(init + [last]) == multiset(b)
    ensures multiset(init) == multiset(b[..j] + b[j + 1..])
  {
    var rest := b[..j] + b[j + 1..];
    assert b == b[..j] + [last] + b[j + 1..];
    assert multiset(b) == multiset(rest) + multiset{last};
    assert multiset(init + [last]) == multiset(init) + multiset{last};
    assert multiset(init) == multiset(init) + multiset{last} - multiset{last};
    assert multiset(rest) == multiset(rest) + multiset{last} - multiset{last};
  }

  /** The sum is the sum without the `j`-th quantity, plus that quantity. */
  lemma TicketSumWithout(b: seq<Option<int>>, j: nat)
    requires j < |b|
    ensures TicketSum(b) == TicketSum(b[..j] + b[j + 1..]) + b[j].GetOr(0)
  {
    var left, upto, right := b[..j], b[..j + 1], b[j + 1..];
    assert upto[..j] == left && upto[j] == b[j];
    TicketSumSplit(b, j + 1);
    TicketSumAppend(left, right);
  }

  /** Summing a prefix and then the rest gives the whole sum. */
  lemma {:induction false} TicketSumSplit(b: seq<Option<int>>, k: nat)
    requires k <= |b|
    ensures TicketSum(b) == TicketSum(b[..k]) + TicketSum(b[k..])
    decreases |b|
  {
    if k == |b| {
      assert b[..k] == b && b[k..] == [];
    } else {
      var init := b[..|b| - 1];
      TicketSumSplit(init, k);
      assert init[..k] == b[..k];
      assert init[k..] == b[k..][..|b[k..]| - 1];
    }
  }

  /** The message of the `TypeError` that `data.length` throws when `data` is `null`. */
  const NullDataMessage := "Cannot read properties of null (reading 'length')"

  /**
   * GET /api/stats: the number of rows and the sum of their quantities; a
   * failed select, or a `null` data array, is a 500.
   */
  function Stats(reply: SelectReply<Option<int>>): (r: ApiReply<Totals>)
    ensures reply.SelectFailed? ==> r == Error(500, reply.error.message)
    ensures reply.Selected? && reply.data.None? ==> r == Error(500, NullDataMessage)
    ensures reply.Selected? && reply.data.Some? ==>
              r.Json? && r.body.totalSales == |reply.data.value| &&
              r.body.totalTickets == TicketSum(reply.data.value)
  {
    match reply
    case SelectFailed(e) => Error(500, e.message)
    case Selected(None) => Error(500, NullDataMessage)
    case Selected(Some(rows)) => Json(Totals(|rows|, TicketSum(rows)))
  }

  /** No rows give `{ totalSales: 0, totalTickets: 0 }`; quantities 2, 3 and 5 give 3 and 10. */
  lemma StatsExamples()
    ensures Stats(Selected(Some([]))) == Json(Totals(0, 0))
    ensures Stats(Selected(Some([Some(2), Some(3), Some(5)]))) == Json(Totals(3, 10))
  {
    assert [Some(2), Some(3), Some(5)][..2] == [Some(2), Some(3)];
    assert [Some(2), Some(3)][..1] == [Some(2)];
    assert [Some(2)][..0] == [];
  }
}
