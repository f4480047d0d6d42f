/** The filterable transaction page: the query it sends for the chosen
    page, range, merchant and amounts, the merchant choices, the page count
    it remembers, the address-bar parameters it keeps in step with the
    filters, and the page reset on every filter change. */
module TransactionPage {
  import opened Optional
  import opened Digits
  import opened JsNumbers
  import opened Timestamps
  import opened SearchParams
  import opened DateRangePicker
  import opened AmountRangePicker
  import opened TransactionTable
  import opened PagedList

  /** The merchant choice that means no merchant filter. */
  const AllMerchants := "all"

  /** Appends `name` only when there is a value for it. */
  function AppendIfSome(p: Params, name: string, value: Option<string>): (r: Params)
    requires !Has(p, name)
    ensures Get(r, name) == value
    ensures forall other | other != name :: Get(r, other) == Get(p, other)
  {
    if value.Some? then Append(p, name, value.value) else p
  }

  /** An amount bound as the query sends it: whole cents, when truthy. */
  function CentsParam(bound: Option<int>): (v: Option<string>)
    ensures v.Some? <==> Truthy(bound)
    ensures v.Some? ==> ParseInt(v.value) == Some(100 * bound.value)
  {
    if Truthy(bound) then
      ParseIntOfShowInt(100 * bound.value);
      Some(ShowInt(100 * bound.value))
    else None
  }

  /** The filter parameters added after page and range, each present
      exactly when it has a value. */
  function WithFilters(p: Params, merchant: Option<string>, minAmount: Option<string>, maxAmount: Option<string>): (r: Params)
    requires !Has(p, "merchant") && !Has(p, "minAmount") && !Has(p, "maxAmount")
    ensures Get(r, "merchant") == merchant
    ensures Get(r, "minAmount") == minAmount
    ensures Get(r, "maxAmount") == maxAmount
    ensures forall other | other != "merchant" && other != "minAmount" && other != "maxAmount" ::
      Get(r, other) == Get(p, other)
  {
    FilterNamesDistinct();
    var p1 := AppendIfSome(p, "merchant", merchant);
    assert Get(p1, "minAmount") == Get(p, "minAmount");
    assert Get(p1, "maxAmount") == Get(p, "maxAmount");
    WithAmounts(p1, minAmount, maxAmount)
  }

  /** The amount bounds, each present exactly when it has a value. */
  function WithAmounts(p: Params, minAmount: Option<string>, maxAmount: Option<string>): (r: Params)
    requires !Has(p, "minAmount") && !Has(p, "maxAmount")
    ensures Get(r, "minAmount") == minAmount
    ensures Get(r, "maxAmount") == maxAmount
    ensures forall other | other != "minAmount" && other != "maxAmount" :: Get(r, other) == Get(p, other)
  {
    FilterNamesDistinct();
    var p1 := AppendIfSome(p, "minAmount", minAmount);
    assert Get(p1, "maxAmount") == Get(p, "maxAmount");
    AppendIfSome(p1, "maxAmount", maxAmount)
  }

  lemma FilterNamesDistinct()
    ensures "merchant" != "minAmount" && "merchant" != "maxAmount" && "minAmount" != "maxAmount"
  {
    assert "merchant"[1] != "minAmount"[1];
    assert "merchant"[1] != "maxAmount"[1];
    assert "minAmount"[1] != "maxAmount"[1];
  }

  /** `fetchTransactions`' query: page and range as the paged list sends
      them, then `merchant` unless "all" is chosen, then each amount bound in
      cents when it is truthy. */
  function FetchParams(page: int, range: Option<DateRange>, merchant: string, amounts: AmountRange): (p: Params)
    ensures forall name | name != "merchant" && name != "minAmount" && name != "maxAmount" ::
      Get(p, name) == Get(PageQuery(page, range), name)
    ensures Get(p, "merchant") == if merchant != AllMerchants then Some(merchant) else None
    ensures Get(p, "minAmount") == CentsParam(amounts.min)
    ensures Get(p, "maxAmount") == CentsParam(amounts.max)
  {
    var p0 := PageQuery(page, range);
    assert !Has(p0, "merchant") && !Has(p0, "minAmount") && !Has(p0, "maxAmount");
    WithFilters(p0, if merchant != AllMerchants then Some(merchant) else None,
                CentsParam(amounts.min), CentsParam(amounts.max))
  }

  /** The amount bounds are sent as whole cents: `parseInt` of the text sent
      for a truthy bound gives 100 times it, and a bound that is 0 or unset
      is not sent. */
  lemma AmountsInCents(page: int, range: Option<DateRange>, merchant: string, amounts: AmountRange)
    ensures var p := FetchParams(page, range, merchant, amounts);
      && (Truthy(amounts.min) ==> ParseInt(Get(p, "minAmount").value) == Some(100 * amounts.min.value))
      && (Truthy(amounts.max) ==> ParseInt(Get(p, "maxAmount").value) == Some(100 * amounts.max.value))
      && (!Truthy(amounts.min) ==> !Has(p, "minAmount"))
      && (!Truthy(amounts.max) ==> !Has(p, "maxAmount"))
  {
  }

  /** One choice of the merchant box. */
  datatype MerchantOption = MerchantOption(value: string, caption: string)

  /** `merchantOptions`: "All Merchants" first, then each merchant the
      response lists, in order. */
  function MerchantOptions(allMerchants: Option<seq<string>>): (opts: seq<MerchantOption>)
    ensures |opts| == 1 + |allMerchants.GetOr([])|
    ensures opts[0] == MerchantOption(AllMerchants, "All Merchants")
    ensures forall i | 0 <= i < |allMerchants.GetOr([])| ::
      opts[i + 1] == MerchantOption(allMerchants.value[i], allMerchants.value[i])
  {
    var names := allMerchants.GetOr([]);
    [MerchantOption(AllMerchants, "All Merchants")]
      + seq(|names|, i requires 0 <= i < |names| => MerchantOption(names[i], names[i]))
  }

  /** `lastTotalPages`: replaced only by a truthy `totalPages`. */
  function RememberTotalPages(last: int, totalPages: Option<int>): (r: int)
    ensures Truthy(totalPages) ==> r == totalPages.value
    ensures !Truthy(totalPages) ==> r == last
  {
    if Truthy(totalPages) then totalPages.value else last
  }

  /** Over any sequence of responses, starting from 1: the remembered count
      is the last truthy one seen, or 1, and never 0. */
  function TotalPagesAfter(responses: seq<Option<int>>): (r: int)
    ensures r != 0
    ensures (forall i | 0 <= i < |responses| :: !Truthy(responses[i])) ==> r == 1
    ensures (forall i | 0 <= i < |responses| :: responses[i].Some? ==> responses[i].value >= 0) ==> r >= 1
  {
    if responses == [] then 1
    else RememberTotalPages(TotalPagesAfter(responses[..|responses| - 1]), responses[|responses| - 1])
  }

  /** `updateUrlWithDateRange`: `from` and `to` set to the new bounds or
      deleted, each on its own; every other parameter kept. */
  function UpdateUrlWithDateRange(url: Params, range: Option<DateRange>): (r: Params)
    ensures Get(r, "from") == if FromOf(range).Some? then Some(ToIso(FromOf(range).value)) else None
    ensures Get(r, "to") == if ToOf(range).Some? then Some(ToIso(ToOf(range).value)) else None
    ensures forall name | name != "from" && name != "to" :: Get(r, name) == Get(url, name)
  {
    var u1 := if FromOf(range).Some? then Set(url, "from", ToIso(FromOf(range).value)) else Delete(url, "from");
    if ToOf(range).Some? then Set(u1, "to", ToIso(ToOf(range).value)) else Delete(u1, "to")
  }

  /** `updateUrlWithMerchant`: `merchant` set when the choice is non-empty
      and not "all", deleted otherwise; every other parameter kept. */
  function UpdateUrlWithMerchant(url: Params, merchant: string): (r: Params)
    ensures Get(r, "merchant") == if merchant != "" && merchant != AllMerchants then Some(merchant) else None
    ensures forall name | name != "merchant" :: Get(r, name) == Get(url, name)
  {
    if merchant != "" && merchant != AllMerchants then Set(url, "merchant", merchant)
    else Delete(url, "merchant")
  }

  /** The merchant the page starts with: `searchParams.get("merchant") || ""`. */
  function InitialMerchant(url: Params): (m: string)
    ensures Has(url, "merchant") ==> m == Get(url, "merchant").value
    ensures !Has(url, "merchant") ==> m == ""
  {
    Get(url, "merchant").GetOr("")
  }

  /** With no merchant in the address, the first query filters on the empty
      merchant rather than on none: only "all" is left out of the query. */
  lemma MissingMerchantIsSentEmpty(url: Params, page: int, range: Option<DateRange>, amounts: AmountRange)
    requires !Has(url, "merchant")
    ensures Get(FetchParams(page, range, InitialMerchant(url), amounts), "merchant") == Some("")
  {
  }

  /** Choosing "all" or nothing removes the merchant from both the address
      and the next query, and the address reads back the chosen merchant
      otherwise. */
  lemma MerchantChoiceRoundTrip(url: Params, merchant: string, page: int, range: Option<DateRange>, amounts: AmountRange)
    ensures merchant != "" ==> InitialMerchant(UpdateUrlWithMerchant(url, merchant)) == if merchant == AllMerchants then "" else merchant
    ensures merchant == AllMerchants ==> !Has(FetchParams(page, range, merchant, amounts), "merchant")
    ensures merchant != AllMerchants ==> Get(FetchParams(page, range, merchant, amounts), "merchant") == Some(merchant)
  {
  }

  /** A range written to the address reads back as the same range. */
  lemma DateRangeRoundTrip(url: Params, range: Option<DateRange>)
    ensures var u := UpdateUrlWithDateRange(url, range);
      && (FromOf(range).Some? ==> ParseIso(Get(u, "from").value) == FromOf(range))
      && (ToOf(range).Some? ==> ParseIso(Get(u, "to").value) == ToOf(range))
      && (FromOf(range).None? ==> !Has(u, "from"))
      && (ToOf(range).None? ==> !Has(u, "to"))
  {
    if FromOf(range).Some? {
      ParseIsoOfToIso(FromOf(range).value);
    }
    if ToOf(range).Some? {
      ParseIsoOfToIso(ToOf(range).value);
    }
  }

  /** What the page holds between renders. */
  datatype PageState = PageState(
    url: Params,
    range: Option<DateRange>,
    merchant: string,
    amounts: AmountRange,
    page: int,
    lastTotalPages: int)

  /** A new range: held, written to the address, page back to 1. */
  function ChangeDateRange(s: PageState, range: Option<DateRange>): (r: PageState)
    ensures r.range == range && r.page == 1 && r.url == UpdateUrlWithDateRange(s.url, range)
    ensures r.merchant == s.merchant && r.amounts == s.amounts && r.lastTotalPages == s.lastTotalPages
  {
    s.(range := range, url := UpdateUrlWithDateRange(s.url, range), page := 1)
  }

  /** A new merchant: held, written to the address, page back to 1. */
  function ChangeMerchant(s: PageState, merchant: string): (r: PageState)
    ensures r.merchant == merchant && r.page == 1 && r.url == UpdateUrlWithMerchant(s.url, merchant)
    ensures r.range == s.range && r.amounts == s.amounts && r.lastTotalPages == s.lastTotalPages
  {
    s.(merchant := merchant, url := UpdateUrlWithMerchant(s.url, merchant), page := 1)
  }

  /** New amount bounds from the picker: held, page back to 1; the address
      does not carry amounts. */
  function ChangeAmounts(s: PageState, amounts: AmountRange): (r: PageState)
    ensures r.amounts == amounts && r.page == 1
    ensures r.url == s.url && r.range == s.range && r.merchant == s.merchant && r.lastTotalPages == s.lastTotalPages
  {
    s.(amounts := amounts, page := 1)
  }

  /** A response's `totalPages`, remembered when truthy. */
  function Receive(s: PageState, totalPages: Option<int>): (r: PageState)
    ensures r.lastTotalPages == RememberTotalPages(s.lastTotalPages, totalPages)
    ensures r.page == s.page && r.url == s.url
    ensures r.range == s.range && r.merchant == s.merchant && r.amounts == s.amounts
  {
    s.(lastTotalPages := RememberTotalPages(s.lastTotalPages, totalPages))
  }

  /** The events the page reacts to. */
  datatype PageEvent =
    | DateRangeChosen(range: Option<DateRange>)
    | MerchantChosen(merchant: string)
    | AmountsChosen(amounts: AmountRange)
    | Response(totalPages: Option<int>)
    | PreviousClicked
    | NextClicked

  function Step(s: PageState, e: PageEvent): PageState {
    match e
    case DateRangeChosen(range) => ChangeDateRange(s, range)
    case MerchantChosen(m) => ChangeMerchant(s, m)
    case AmountsChosen(a) => ChangeAmounts(s, a)
    case Response(t) => Receive(s, t)
    case PreviousClicked => s.(page := PreviousPage(s.page))
    case NextClicked => s.(page := NextPage(s.page, s.lastTotalPages))
  }

  /** Page numbers and the remembered count stay at least 1 whatever
      happens, as long as responses never report a negative count. */
  predicate PageInvariant(s: PageState) {
    s.page >= 1 && s.lastTotalPages >= 1
  }

  predicate SaneEvent(e: PageEvent) {
    e.Response? && e.totalPages.Some? ==> e.totalPages.value >= 0
  }

  function Run(s: PageState, events: seq<PageEvent>): (r: PageState)
    requires PageInvariant(s)
    requires forall i | 0 <= i < |events| :: SaneEvent(events[i])
    ensures PageInvariant(r)
    ensures (forall i | 0 <= i < |events| :: !events[i].Response?) ==> r.lastTotalPages == s.lastTotalPages
    decreases |events|
  {
    if events == [] then s
    else
      assert SaneEvent(events[0]);
      Run(Step(s, events[0]), events[1..])
  }

  /** The page's first state. */
  function InitialPage(url: Params, range: Option<DateRange>): (s: PageState)
    ensures PageInvariant(s)
    ensures s.page == 1 && s.lastTotalPages == 1 && s.amounts == Unset
    ensures s.merchant == InitialMerchant(url)
  {
    PageState(url, range, InitialMerchant(url), Unset, 1, 1)
  }
}
