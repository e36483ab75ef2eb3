/** The ICCID lookup handler: it validates the query, posts the fixed search
    request upstream, and turns the reply into a status code and a JSON body.
    The upstream reply and the clock are parameters. */
module Check {
  import opened Wrappers
  import opened Text
  import opened Payload
  import opened Packages
  import Throwing

  const MissingIccidMessage: string := "Missing ICCID query parameter."
  const NoMatchMessage: string := "No matching customers found."

  /** The search request body posted upstream. */
  datatype SearchBody = SearchBody(
    pageSize: int,
    pageIndex: int,
    searchKey: string,
    searchQuery: string,
    searchMode: string,
    onlyActiveProfiles: bool)

  /** A failed upstream call: the body of the error response, when there was
      one, and the error's own message. */
  datatype UpstreamError = UpstreamError(responseData: Option<string>, message: string)

  /** What the upstream call gave back. */
  datatype Reply = Failed(error: UpstreamError) | Answered(data: SearchData)

  datatype Summary = Summary(totalAvailableBalance: string)

  /** The three JSON body shapes the handler sends. */
  datatype Body =
    | ErrorBody(error: string)
    | MessageBody(message: string)
    | Found(summary: Summary, customer: CustomerView)

  datatype Response = Response(status: int, body: Body)

  /** `!iccid` is false: the parameter is present and not empty. */
  predicate HasIccid(iccid: Option<string>) {
    iccid.Some? && iccid.value != ""
  }

  function SearchFor(iccid: string): (b: SearchBody)
    ensures b.searchQuery == iccid && b.searchKey == "ICCID" && b.searchMode == "contains"
    ensures b.pageSize == 50 && b.pageIndex == 0 && b.onlyActiveProfiles
  {
    SearchBody(pageSize := 50, pageIndex := 0, searchKey := "ICCID", searchQuery := iccid,
               searchMode := "contains", onlyActiveProfiles := true)
  }

  /** `error.response?.data || error.message`. */
  function ErrorText(e: UpstreamError): string {
    if e.responseData.Some? && e.responseData.value != "" then e.responseData.value else e.message
  }

  /** `!data.customers || data.customers.length === 0`. */
  predicate NoCustomers(data: SearchData) {
    data.customers.None? || |data.customers.value| == 0
  }

  // ---- The summed total ----

  /** A JavaScript number as far as the sum needs one: adding `undefined`
      turns it into NaN, and NaN absorbs everything added later. */
  datatype Number = Num(n: int) | NaN

  function AddSize(acc: Number, v: Option<int>): Number {
    match (acc, v)
    case (Num(a), Some(x)) => Num(a + x)
    case _ => NaN
  }

  /** `totalAvailableBalance.sizeValue` of a record. */
  function SizeOf(r: CustomerRecord): Option<int> {
    if r.totalAvailableBalance.Some? then r.totalAvailableBalance.value.sizeValue else None
  }

  /** `totalAvailableBalanceSum` after the loop has visited `recs`. */
  function SumAvailable(recs: seq<CustomerRecord>): Number {
    if recs == [] then Num(0)
    else AddSize(SumAvailable(recs[..|recs| - 1]), SizeOf(recs[|recs| - 1]))
  }

  /** The sum of the sizes of records, first to last, absent sizes left out. */
  function SumSizes(recs: seq<CustomerRecord>): int {
    if recs == [] then 0 else SizeOf(recs[0]).GetOr(0) + SumSizes(recs[1..])
  }

  lemma {:induction false} SumSizesSnoc(recs: seq<CustomerRecord>, r: CustomerRecord)
    ensures SumSizes(recs + [r]) == SumSizes(recs) + SizeOf(r).GetOr(0)
  {
    if recs != [] {
      assert (recs + [r])[1..] == recs[1..] + [r];
      SumSizesSnoc(recs[1..], r);
    }
  }

  /** The summed total is the sum of every record's size, and NaN exactly
      when some record has no size. */
  lemma {:induction false} SumAvailableIsSumOfSizes(recs: seq<CustomerRecord>)
    ensures SumAvailable(recs).NaN? <==> exists k :: 0 <= k < |recs| && SizeOf(recs[k]).None?
    ensures SumAvailable(recs).Num? ==> SumAvailable(recs).n == SumSizes(recs)
  {
    if recs != [] {
      var n := |recs| - 1;
      var init := recs[..n];
      SumAvailableIsSumOfSizes(init);
      assert recs == init + [recs[n]];
      SumSizesSnoc(init, recs[n]);
      assert forall k :: 0 <= k < n ==> init[k] == recs[k];
      if SumAvailable(recs).NaN? && SizeOf(recs[n]).Some? {
        var k :| 0 <= k < n && SizeOf(init[k]).None?;
        assert SizeOf(recs[k]).None?;
      }
    }
  }

  /** `summary.totalAvailableBalance`: the sum with `toFixed(2)` and a GB suffix. */
  function SummaryText(sum: Number): string {
    match sum
    case Num(n) => IntToString(n) + ".00 GB"
    case NaN => "NaN GB"
  }

  // ---- The activated-balance accumulator ----

  function ItemsOf(r: CustomerRecord): seq<ActivatedItem> {
    r.activatedItems.GetOr([])
  }

  /** `totalActivatedBalanceSum` after the loop has visited `recs`. */
  function ActivatedSum(recs: seq<CustomerRecord>): int {
    if recs == [] then 0
    else ActivatedSum(recs[..|recs| - 1]) + ItemsAvailable(ItemsOf(recs[|recs| - 1]))
  }

  /** Every activated item of every record, in upstream order. */
  function AllItems(recs: seq<CustomerRecord>): seq<ActivatedItem> {
    if recs == [] then [] else ItemsOf(recs[0]) + AllItems(recs[1..])
  }

  lemma {:induction false} AllItemsSnoc(recs: seq<CustomerRecord>, r: CustomerRecord)
    ensures AllItems(recs + [r]) == AllItems(recs) + ItemsOf(r)
  {
    if recs != [] {
      assert (recs + [r])[1..] == recs[1..] + [r];
      AllItemsSnoc(recs[1..], r);
    }
  }

  /** The accumulator is the sum of `available` over all items of all records. */
  lemma {:induction false} ActivatedSumIsOverAllItems(recs: seq<CustomerRecord>)
    ensures ActivatedSum(recs) == ItemsAvailable(AllItems(recs))
  {
    if recs != [] {
      var n := |recs| - 1;
      ActivatedSumIsOverAllItems(recs[..n]);
      assert recs == recs[..n] + [recs[n]];
      AllItemsSnoc(recs[..n], recs[n]);
      ItemsAvailableAppend(AllItems(recs[..n]), ItemsOf(recs[n]));
    }
  }

  // ---- One customer record ----

  /** `${totalAvailableBalance.sizeValue} ${totalAvailableBalance.sizeUnit}`. */
  function CustomerText(m: Measure): string {
    TemplateNumber(m.sizeValue) + " " + TemplateText(m.sizeUnit)
  }

  /** A record maps without an exception: it has its four parts and every
      item maps. */
  predicate CustomerMaps(r: CustomerRecord, now: int) {
    && r.totalAvailableBalance.Some?
    && r.activatedItems.Some?
    && (forall k :: 0 <= k < |r.activatedItems.value| ==> Maps(r.activatedItems.value[k]))
    && r.relatedEsims.Some?
    && r.customer.Some?
  }

  /** The callback of `data.customers.map`, in the order it reads the record:
      the total's size, the items, the eSIMs, then the customer's identity. */
  function MapCustomer(r: CustomerRecord, now: int): (res: Result<CustomerView, Fault>)
    ensures res.Ok? <==> CustomerMaps(r, now)
    ensures r.totalAvailableBalance.None? ==> res == Err(NoTotalAvailableBalance)
    ensures r.totalAvailableBalance.Some? && r.activatedItems.None? ==> res == Err(NoActivatedItems)
  {
    match r.totalAvailableBalance
    case None => Err(NoTotalAvailableBalance)
    case Some(total) =>
      match r.activatedItems
      case None => Err(NoActivatedItems)
      case Some(items) =>
        match DerivePackages(items, now)
        case Err(f) => Err(f)
        case Ok(packages) =>
          match r.relatedEsims
          case None => Err(NoRelatedEsims)
          case Some(esims) =>
            match r.customer
            case None => Err(NoCustomer)
            case Some(c) =>
              Ok(CustomerView(
                email := c.email,
                uid := c.uid,
                profileUrl := c.profileUrl,
                totalAvailableBalance := CustomerText(total),
                lastPackage := LastPackage(packages),
                relatedEsims := CopyEsims(esims)))
  }

  function CustomerFn(now: int): CustomerRecord -> Result<CustomerView, Fault> {
    r => MapCustomer(r, now)
  }

  /** `data.customers.map(...)`. */
  function MapCustomers(recs: seq<CustomerRecord>, now: int): Result<seq<CustomerView>, Fault> {
    Throwing.MapOrThrow(CustomerFn(now), recs)
  }

  // ---- The handler ----

  /** The response for a query parameter, an upstream reply and the instant
      the countdowns are computed at. */
  function Respond(iccid: Option<string>, reply: Reply, now: int): (r: Response)
    ensures r.status in {200, 400, 404, 500}
    ensures r.status == 400 <==> !HasIccid(iccid)
    ensures r.status == 400 ==> r.body == ErrorBody(MissingIccidMessage)
    ensures r.status == 404 <==> HasIccid(iccid) && reply.Answered? && NoCustomers(reply.data)
    ensures r.status == 404 ==> r.body == MessageBody(NoMatchMessage)
    ensures r.status == 200 <==>
      HasIccid(iccid) && reply.Answered? && !NoCustomers(reply.data) &&
      forall k :: 0 <= k < |reply.data.customers.value| ==> CustomerMaps(reply.data.customers.value[k], now)
    ensures r.status == 500 ==> r.body.ErrorBody?
    ensures HasIccid(iccid) && reply.Failed? ==> r == Response(500, ErrorBody(ErrorText(reply.error)))
  {
    if !HasIccid(iccid) then Response(400, ErrorBody(MissingIccidMessage))
    else
      match reply
      case Failed(e) => Response(500, ErrorBody(ErrorText(e)))
      case Answered(data) =>
        if NoCustomers(data) then Response(404, MessageBody(NoMatchMessage))
        else
          var recs := data.customers.value;
          match MapCustomers(recs, now)
          case Err(f) => Response(500, ErrorBody(f.Message()))
          case Ok(views) =>
            Response(200, Found(Summary(SummaryText(SumAvailable(recs))), views[0]))
  }

  /** The customer mapping raises the exception of the first record that
      does not map. */
  lemma CustomersFailAt(recs: seq<CustomerRecord>, i: int, now: int)
    requires 0 <= i < |recs|
    requires MapCustomers(recs[..i], now).Ok? && MapCustomer(recs[i], now).Err?
    ensures MapCustomers(recs, now) == Err(MapCustomer(recs[i], now).error)
  {
    forall j | 0 <= j < i ensures CustomerFn(now)(recs[j]).Ok? {
      assert recs[..i][j] == recs[j];
    }
    Throwing.MapOrThrowFailsAt(CustomerFn(now), recs, i);
  }

  lemma ItemsFailAt(items: seq<ActivatedItem>, j: int, now: int)
    requires 0 <= j < |items|
    requires DerivePackages(items[..j], now).Ok? && !Maps(items[j])
    ensures DerivePackages(items, now) == Err(ItemFault(items[j]))
  {
    forall k | 0 <= k < j ensures PackageFn(now)(items[k]).Ok? {
      assert items[..j][k] == items[k];
    }
    Throwing.MapOrThrowFailsAt(PackageFn(now), items, j);
  }

  // ---- Properties of the handler ----

  /** Without an ICCID the answer is 400 whatever upstream would have said:
      the reply is not consulted. */
  lemma MissingIccidIgnoresUpstream(iccid: Option<string>, a: Reply, b: Reply, now: int)
    requires !HasIccid(iccid)
    ensures Respond(iccid, a, now) == Respond(iccid, b, now) == Response(400, ErrorBody(MissingIccidMessage))
  {
  }

  /** A successful response carries only the first record's view, next to a
      total summed over every record. */
  lemma SuccessShowsFirstCustomer(iccid: Option<string>, reply: Reply, now: int)
    requires Respond(iccid, reply, now).status == 200
    ensures var recs, body := reply.data.customers.value, Respond(iccid, reply, now).body;
      && body.Found?
      && Ok(body.customer) == MapCustomer(recs[0], now)
      && body.summary.totalAvailableBalance == SummaryText(SumAvailable(recs))
  {
    var recs := reply.data.customers.value;
    assert CustomerFn(now)(recs[0]) == MapCustomer(recs[0], now);
  }

  /** A record without its total, its items or its eSIMs makes the whole
      request fail with 500, wherever it stands in the list. */
  lemma MalformedRecordFails(iccid: Option<string>, data: SearchData, k: int, now: int)
    requires HasIccid(iccid) && !NoCustomers(data) && 0 <= k < |data.customers.value|
    requires var r := data.customers.value[k];
      r.totalAvailableBalance.None? || r.activatedItems.None? || r.relatedEsims.None?
    ensures Respond(iccid, Answered(data), now).status == 500
  {
    assert !CustomerMaps(data.customers.value[k], now);
  }

  /** The 500 body names the exception of the first record that does not map. */
  lemma FirstFaultReported(iccid: Option<string>, data: SearchData, k: int, now: int)
    requires HasIccid(iccid) && !NoCustomers(data) && 0 <= k < |data.customers.value|
    requires var recs := data.customers.value;
      !CustomerMaps(recs[k], now) && forall j :: 0 <= j < k ==> CustomerMaps(recs[j], now)
    ensures Respond(iccid, Answered(data), now) ==
      Response(500, ErrorBody(MapCustomer(data.customers.value[k], now).error.Message()))
  {
    var recs := data.customers.value;
    forall j | 0 <= j < k ensures CustomerFn(now)(recs[j]).Ok? {
    }
    Throwing.MapOrThrowFailsAt(CustomerFn(now), recs, k);
  }

  // The worked example of the design: one customer with one 10 GB package
  // of which 2 GB are left, expiring on 2099-01-01 and viewed on 2024-01-01.

  const ExampleNow: int := 1704067200000
  const ExampleBalance: Balance :=
    Balance(Some("P1"), Some("2024-01-01T00:00:00Z"), Some(4070908800000),
            Some(Measure(Some(2), Some("GB"))), Some(Measure(Some(10), Some("GB"))))
  const ExampleItem: ActivatedItem := ActivatedItem(Some("T"), Some(ExampleBalance))
  const ExampleRecord: CustomerRecord :=
    CustomerRecord(Some(CustomerInfo(Some("a@b.com"), Some("u1"), Some("x"))),
                   Some(Measure(Some(5), Some("GB"))), Some([ExampleItem]), Some([]))

  lemma ExamplePackage()
    ensures DerivePackage(ExampleItem, ExampleNow) ==
      Ok(PackageView(Some("P1"), Some("2024-01-01T00:00:00Z"), 4070908800000,
                     "2 GB", 80, "27394d 0h 0m 0s remaining", Some("T")))
  {
    assert Remaining(ExampleBalance) == "2 GB";
    PercentageUsedExample();
    Countdown.CountdownExample();
  }

  lemma SingleItem(item: ActivatedItem, now: int)
    requires Maps(item)
    ensures DerivePackages([item], now) == Ok([DerivePackage(item, now).value])
  {
    var r := DerivePackages([item], now);
    assert PackageFn(now)([item][0]) == DerivePackage(item, now);
    assert r.Ok? && |r.value| == 1 && r.value[0] == DerivePackage(item, now).value;
    assert r.value == [DerivePackage(item, now).value];
  }

  /** The response to a search that matches exactly one record that maps. */
  lemma SingleRecord(iccid: Option<string>, rec: CustomerRecord, now: int)
    requires HasIccid(iccid) && CustomerMaps(rec, now)
    ensures Respond(iccid, Answered(SearchData(Some([rec]))), now) ==
      Response(200, Found(Summary(SummaryText(AddSize(Num(0), SizeOf(rec)))), MapCustomer(rec, now).value))
  {
    var r := MapCustomers([rec], now);
    assert CustomerFn(now)([rec][0]) == MapCustomer(rec, now);
    assert r.Ok? && |r.value| == 1 && r.value[0] == MapCustomer(rec, now).value;
    assert [rec][..0] == [];
    assert SumAvailable([rec]) == AddSize(Num(0), SizeOf(rec));
    assert !NoCustomers(SearchData(Some([rec])));
  }

  const ExampleView: CustomerView :=
    CustomerView(Some("a@b.com"), Some("u1"), Some("x"), "5 GB",
      Some(PackageView(Some("P1"), Some("2024-01-01T00:00:00Z"), 4070908800000,
                       "2 GB", 80, "27394d 0h 0m 0s remaining", Some("T"))),
      [])

  lemma ExampleRecordMaps()
    ensures MapCustomer(ExampleRecord, ExampleNow) == Ok(ExampleView)
  {
    SingleItem(ExampleItem, ExampleNow);
    ExamplePackage();
    assert CustomerText(Measure(Some(5), Some("GB"))) == "5 GB";
  }

  lemma ExampleSummary()
    ensures SummaryText(AddSize(Num(0), SizeOf(ExampleRecord))) == "5.00 GB"
  {
    assert IntToString(5) == "5";
  }

  /** The whole response of the worked example: 80 percent used, "2 GB"
      remaining, and "5.00 GB" in the summary. */
  lemma WorkedExample()
    ensures Respond(Some("8988"), Answered(SearchData(Some([ExampleRecord]))), ExampleNow) ==
      Response(200, Found(Summary("5.00 GB"), ExampleView))
  {
    ExampleRecordMaps();
    SingleRecord(Some("8988"), ExampleRecord, ExampleNow);
    ExampleSummary();
  }
}
