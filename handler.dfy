/** The handler as the source runs it: two accumulators updated inside the
    nested loops over customers and their activated items. */
module Handler {
  import opened Wrappers
  import opened Payload
  import opened Packages
  import opened Check
  import Throwing

  /** `activatedItems.map(...)` of one record: derives each item's package in
      order and adds each item's `available` to the activated accumulator,
      stopping at the first item that throws. */
  method DeriveItems(items: seq<ActivatedItem>, now: int, activatedBefore: int)
    returns (res: Result<seq<PackageView>, Fault>, activated: int)
    ensures res == DerivePackages(items, now)
    ensures res.Ok? ==> activated == activatedBefore + ItemsAvailable(items)
  {
    activated := activatedBefore;
    var packages: seq<PackageView> := [];
    var j := 0;
    while j < |items|
      invariant 0 <= j <= |items|
      invariant DerivePackages(items[..j], now) == Ok(packages)
      invariant activated == activatedBefore + ItemsAvailable(items[..j])
    {
      var item := items[j];
      assert items[..j + 1][..j] == items[..j] && items[..j + 1][j] == item;
      if item.balance.None? {
        ItemsFailAt(items, j, now);
        return Err(NoBalance), activated;
      }
      activated := activated + Available(item.balance.value);
      var p := DerivePackage(item, now);
      if p.Err? {
        ItemsFailAt(items, j, now);
        return Err(p.error), activated;
      }
      Throwing.MapOrThrowSnoc(PackageFn(now), items[..j], item);
      packages := packages + [p.value];
      j := j + 1;
    }
    assert items[..j] == items;
    res := Ok(packages);
  }

  /** The callback of `data.customers.map` for one record. It updates the two
      accumulators it closes over, passed in and handed back here. */
  method MapRecord(rec: CustomerRecord, now: int, sumBefore: Number, activatedBefore: int)
    returns (res: Result<CustomerView, Fault>, sum: Number, activated: int)
    ensures res == MapCustomer(rec, now)
    ensures res.Ok? ==> sum == AddSize(sumBefore, SizeOf(rec))
    ensures res.Ok? ==> activated == activatedBefore + ItemsAvailable(ItemsOf(rec))
  {
    sum, activated := sumBefore, activatedBefore;
    if rec.totalAvailableBalance.None? {
      return Err(NoTotalAvailableBalance), sum, activated;
    }
    var total := rec.totalAvailableBalance.value;
    sum := AddSize(sum, total.sizeValue);
    if rec.activatedItems.None? {
      return Err(NoActivatedItems), sum, activated;
    }
    var packages;
    packages, activated := DeriveItems(rec.activatedItems.value, now, activated);
    if packages.Err? {
      return Err(packages.error), sum, activated;
    }
    var lastPackage := LastPackage(packages.value);
    if rec.relatedEsims.None? {
      return Err(NoRelatedEsims), sum, activated;
    }
    var esims := CopyEsims(rec.relatedEsims.value);
    if rec.customer.None? {
      return Err(NoCustomer), sum, activated;
    }
    var c := rec.customer.value;
    res := Ok(CustomerView(c.email, c.uid, c.profileUrl, CustomerText(total), lastPackage, esims));
  }

  /** `data.customers.map(...)` with both accumulators: every record's view
      in order, or the first exception raised. */
  method MapRecords(recs: seq<CustomerRecord>, now: int)
    returns (res: Result<seq<CustomerView>, Fault>, sum: Number, activated: int)
    ensures res == MapCustomers(recs, now)
    ensures res.Ok? ==> sum == SumAvailable(recs) && activated == ActivatedSum(recs)
  {
    sum, activated := Num(0), 0;
    var views: seq<CustomerView> := [];
    var i := 0;
    while i < |recs|
      invariant 0 <= i <= |recs|
      invariant MapCustomers(recs[..i], now) == Ok(views)
      invariant sum == SumAvailable(recs[..i])
      invariant activated == ActivatedSum(recs[..i])
    {
      var rec := recs[i];
      assert recs[..i + 1][..i] == recs[..i] && recs[..i + 1][i] == rec;
      var view;
      view, sum, activated := MapRecord(rec, now, sum, activated);
      if view.Err? {
        CustomersFailAt(recs, i, now);
        return Err(view.error), sum, activated;
      }
      Throwing.MapOrThrowSnoc(CustomerFn(now), recs[..i], rec);
      views := views + [view.value];
      i := i + 1;
    }
    assert recs[..i] == recs;
    res := Ok(views);
  }

  /** Handles one request. `sent` is the search request posted upstream, None
      when no call is made; `reply` is what that call gives back. The
      activated-balance accumulator is returned beside the response, which
      has no field for it. */
  method Handle(iccid: Option<string>, reply: Reply, now: int)
    returns (sent: Option<SearchBody>, resp: Response, activatedTotal: int)
    ensures sent.None? <==> !HasIccid(iccid)
    ensures sent.Some? ==> sent.value == SearchFor(iccid.value)
    ensures resp == Respond(iccid, reply, now)
    ensures resp.status == 200 ==> activatedTotal == ActivatedSum(reply.data.customers.value)
  {
    activatedTotal := 0;
    if !HasIccid(iccid) {
      sent := None;
      resp := Response(400, ErrorBody(MissingIccidMessage));
      return;
    }
    sent := Some(SearchFor(iccid.value));
    if reply.Failed? {
      resp := Response(500, ErrorBody(ErrorText(reply.error)));
      return;
    }
    var data := reply.data;
    if NoCustomers(data) {
      resp := Response(404, MessageBody(NoMatchMessage));
      return;
    }
    var views, sum;
    views, sum, activatedTotal := MapRecords(data.customers.value, now);
    if views.Err? {
      resp := Response(500, ErrorBody(views.error.Message()));
      return;
    }
    resp := Response(200, Found(Summary(SummaryText(sum)), views.value[0]));
  }
}
