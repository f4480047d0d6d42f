/** The paged transaction table: its Previous and Next buttons and what its
    body shows. */
module TransactionTable {
  import opened Optional
  import opened Timestamps
  import opened Ledger
  import opened StatusBadge

  /** Previous: `Math.max(1, page - 1)`. */
  function PreviousPage(page: int): (r: int)
    ensures r >= 1
    ensures page > 1 ==> r == page - 1
    ensures page <= 1 ==> r == 1
  {
    if page - 1 >= 1 then page - 1 else 1
  }

  /** Next: `Math.min(totalPages, page + 1)`. */
  function NextPage(page: int, totalPages: int): (r: int)
    ensures r <= totalPages
    ensures page < totalPages ==> r == page + 1
    ensures page >= totalPages ==> r == totalPages
  {
    if totalPages <= page + 1 then totalPages else page + 1
  }

  /** On a valid page both buttons keep the page within 1..totalPages, and
      each undoes the other away from the ends. */
  lemma PageButtonsStayInRange(page: int, totalPages: int)
    requires 1 <= page <= totalPages
    ensures 1 <= PreviousPage(page) <= totalPages
    ensures 1 <= NextPage(page, totalPages) <= totalPages
    ensures page > 1 ==> NextPage(PreviousPage(page), totalPages) == page
    ensures page < totalPages ==> PreviousPage(NextPage(page, totalPages)) == page
  {
  }

  /** The response the table is handed, when there is one. */
  datatype TableData = TableData(transactions: Option<seq<Transaction>>, totalPages: int, hasNextPage: bool)

  /** One drawn row: merchant, date, amount and status badge. */
  datatype RowView = RowView(
    merchantName: string,
    merchantImage: string,
    date: Timestamp,
    amountCents: int,
    statusLabel: string,
    statusColour: BadgeColour)

  /** What the table body shows. */
  datatype Body =
    | Skeletons(count: nat)
    | NoTransactions
    | Rows(rows: seq<RowView>)
    | Blank

  const SkeletonRows := 20

  function RowOf(t: Transaction): (v: RowView)
    ensures v.statusLabel == CapitalizeFirstLetter(t.status)
    ensures v.statusColour == StatusColour(t.status)
    ensures v.merchantName == t.merchantName && v.date == t.date && v.amountCents == t.amountCents
  {
    RowView(t.merchantName, t.merchantImage, t.date, t.amountCents, CapitalizeFirstLetter(t.status), StatusColour(t.status))
  }

  /** The body: skeleton rows while loading, else the empty message for an
      empty list, else one row per transaction in order; with no list at all
      nothing is drawn. */
  function BodyOf(data: Option<TableData>, isLoading: bool): (b: Body)
    ensures b.Skeletons? <==> isLoading
    ensures b.Skeletons? ==> b.count == SkeletonRows
    ensures b.NoTransactions? <==> !isLoading && data.Some? && data.value.transactions == Some([])
    ensures b.Blank? <==> !isLoading && (data.None? || data.value.transactions.None?)
    ensures b.Rows? ==> var ts := data.value.transactions.value;
      && ts != []
      && |b.rows| == |ts|
      && forall i | 0 <= i < |ts| :: b.rows[i] == RowOf(ts[i])
  {
    if isLoading then Skeletons(SkeletonRows)
    else if data.Some? && data.value.transactions == Some([]) then NoTransactions
    else if data.None? || data.value.transactions.None? then Blank
    else Rows(seq(|data.value.transactions.value|, i requires 0 <= i < |data.value.transactions.value| => RowOf(data.value.transactions.value[i])))
  }

  /** Whether the Next button is marked disabled: `!data?.pagination.hasNextPage`. */
  predicate NextMarkedDisabled(data: Option<TableData>) {
    data.None? || !data.value.hasNextPage
  }

  /** Whether the Previous button is marked disabled. */
  predicate PreviousMarkedDisabled(page: int) {
    page == 1
  }

  /** The marks are advisory: Previous on page 1 stays on page 1. */
  lemma PreviousOnFirstPageStays()
    ensures PreviousMarkedDisabled(1) && PreviousPage(1) == 1
  {
  }
}
