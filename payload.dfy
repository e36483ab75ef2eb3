/** The upstream search-customers payload as the handler reads it, and the
    view the handler returns. A field that may be missing from the JSON is an
    Option; balance sizes are whole numbers. */
module Payload {
  import opened Wrappers

  /** A balance measurement: `{ sizeValue, sizeUnit }`. */
  datatype Measure = Measure(sizeValue: Option<int>, sizeUnit: Option<string>)

  /** `item.balance`. `expiresAt` is the instant, in milliseconds since the
      epoch, that `new Date(b.expiresAt)` parses the upstream text to; None when
      the text is absent or does not parse (an invalid Date). */
  datatype Balance = Balance(
    name: Option<string>,
    activatedAt: Option<string>,
    expiresAt: Option<int>,
    availableBalance: Option<Measure>,
    totalBalance: Option<Measure>)

  datatype ActivatedItem = ActivatedItem(activationType: Option<string>, balance: Option<Balance>)

  /** A related eSIM; `otherFields` stands for whatever else upstream sends. */
  datatype RelatedEsim = RelatedEsim(
    iccid: Option<string>,
    imsi: Option<string>,
    state: Option<string>,
    activatedAt: Option<string>,
    appleUniversalLink: Option<string>,
    otherFields: map<string, string>)

  datatype CustomerInfo = CustomerInfo(email: Option<string>, uid: Option<string>, profileUrl: Option<string>)

  /** One element of `data.customers`. */
  datatype CustomerRecord = CustomerRecord(
    customer: Option<CustomerInfo>,
    totalAvailableBalance: Option<Measure>,
    activatedItems: Option<seq<ActivatedItem>>,
    relatedEsims: Option<seq<RelatedEsim>>)

  /** `response.data` of the search call. */
  datatype SearchData = SearchData(customers: Option<seq<CustomerRecord>>)

  /** A derived package. `expiresAt` is the instant that the source renders
      with `toISOString()`. */
  datatype PackageView = PackageView(
    name: Option<string>,
    activatedAt: Option<string>,
    expiresAt: int,
    remaining: string,
    percentageUsed: int,
    countdown: string,
    activationType: Option<string>)

  datatype EsimView = EsimView(
    iccid: Option<string>,
    imsi: Option<string>,
    state: Option<string>,
    activatedAt: Option<string>,
    appleUniversalLink: Option<string>)

  datatype CustomerView = CustomerView(
    email: Option<string>,
    uid: Option<string>,
    profileUrl: Option<string>,
    totalAvailableBalance: string,
    lastPackage: Option<PackageView>,
    relatedEsims: seq<EsimView>)

  /** The exceptions the mapping code can raise on a malformed record, in the
      words of the JavaScript engine (V8). */
  datatype Fault =
    | NoTotalAvailableBalance   // `totalAvailableBalance.sizeValue` on undefined
    | NoActivatedItems          // `activatedItems.map` on undefined
    | NoBalance                 // `b.availableBalance` with `b` undefined
    | InvalidExpiry             // `toISOString()` of an invalid Date
    | NoRelatedEsims            // `relatedEsims.map` on undefined
    | NoCustomer                // `customer.email` on undefined
  {
    function Message(): string {
      match this
      case NoTotalAvailableBalance => "Cannot read properties of undefined (reading 'sizeValue')"
      case NoActivatedItems => "Cannot read properties of undefined (reading 'map')"
      case NoBalance => "Cannot read properties of undefined (reading 'availableBalance')"
      case InvalidExpiry => "Invalid time value"
      case NoRelatedEsims => "Cannot read properties of undefined (reading 'map')"
      case NoCustomer => "Cannot read properties of undefined (reading 'email')"
    }
  }
}
