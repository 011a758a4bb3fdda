/** Shared value types of the cancellation protocol: the experiment variant,
    the subscription status, the three response bodies and the pricing rule
    used by the server and by every client screen that shows an offer. */
module Types {

  datatype Option<+T> = None | Some(value: T) {
    /** JavaScript's `x ?? d` on a nullable value. */
    function GetOr(default: T): T {
      match this
      case Some(v) => v
      case None => default
    }
  }

  /** The two arms of the pricing experiment. */
  datatype Variant = A | B

  datatype SubStatus = Active | PendingCancellation | Cancelled

  /** Opaque timestamp, as produced by `new Date().toISOString()`. */
  type Timestamp = string

  /** Body of a successful `/api/cancel/start` response. */
  datatype StartBody = StartBody(subscriptionId: string, priceCents: int, variant: Option<Variant>)

  /** Body of a successful `/api/cancel/assign` response. */
  datatype AssignBody = AssignBody(variant: Variant, priceCents: int, offerCents: int)

  /** Body of a successful `/api/cancel/decide` response. */
  datatype DecideBody = DecideBody(status: SubStatus)

  /** What a route handler answers: its JSON body, a 404 or a 500. */
  datatype Response<T> = Ok(body: T) | NotFound | StoreError

  /** What a client `fetch` observes: an ok response with its parsed body,
      or a non-ok status code. */
  datatype HttpReply<T> = Success(body: T) | HttpError(code: int)

  /** The transport between a handler and the client's `fetch`. */
  function ToHttp<T>(r: Response<T>): (h: HttpReply<T>)
    ensures h.Success? <==> r.Ok?
    ensures r.Ok? ==> h.body == r.body
    ensures r.NotFound? ==> h == HttpError(404)
    ensures r.StoreError? ==> h == HttpError(500)
  {
    match r
    case Ok(b) => Success(b)
    case NotFound => HttpError(404)
    case StoreError => HttpError(500)
  }

  /** The JSON body a client posts to `/api/cancel/decide`. */
  datatype DecideRequest = DecideRequest(subscriptionId: string, accepted: bool, reason: string)

  /** The fixed retention discount, in cents ($10.00). */
  const Discount: int := 1000

  /** `Math.max(0, price - 1000)`: the discounted price, never negative. */
  function DiscountedPrice(price: int): (r: int)
    ensures r >= 0 && r >= price - Discount
    ensures r == 0 || r == price - Discount
    ensures price >= 0 ==> r <= price
    ensures price >= Discount ==> r == price - Discount
  {
    if price - Discount > 0 then price - Discount else 0
  }

  /** The offer the server computes for a variant: B sees the discount,
      A sees the full price. */
  function OfferFor(v: Variant, price: int): (r: int)
    ensures v == A ==> r == price
    ensures v == B ==> r == DiscountedPrice(price)
    ensures price >= 0 ==> 0 <= r <= price
  {
    if v == B then DiscountedPrice(price) else price
  }

  /** `offerCents ?? Math.max(0, priceCents - 1000)`: the offer a client
      screen shows, falling back to the B-arm price when none was received. */
  function ShownOffer(offerCents: Option<int>, priceCents: int): (r: int)
    ensures offerCents.Some? ==> r == offerCents.value
    ensures offerCents.None? ==> r == OfferFor(B, priceCents) && r >= 0
  {
    offerCents.GetOr(DiscountedPrice(priceCents))
  }

  /** The fallback agrees with the server: a screen that received the B
      offer computed by the server shows what it would show without it. */
  lemma ShownOfferMatchesServer(priceCents: int)
    ensures ShownOffer(Some(OfferFor(B, priceCents)), priceCents) == ShownOffer(None, priceCents)
  {
  }
}
