/** The checkout page: the total of the loaded cart, the license
    verification and the pay gate. The verification request's outcome is a
    parameter; the popup timer and the payment itself are left out. */
module CheckoutPage {
  import opened Wrappers
  import opened Catalog
  import opened ServerState
  import opened CartService
  import CartPage

  /** The page state. */
  datatype Checkout = Checkout(items: seq<CartLine>, total: int, licenseNumber: string,
                               licenseVerified: bool, error: string, showPopup: bool,
                               isVerifying: bool)

  const Initial := Checkout([], 0, "", false, "", false, false)

  const LicenseRequired := "License number is required."
  const LicenseRejected := "Invalid or unregistered license."
  const VerifyFailed := "Verification failed. Try again."

  /** The cart load on mount: a listing replaces the items and the total;
      a failed request changes nothing. */
  function Load(c: Checkout, f: CartPage.Fetch): (r: Checkout)
    ensures f.Fetched? ==> r.items == f.lines && r.total == CartPage.Total(f.lines)
    ensures f.Fetched? ==> r.(items := c.items, total := c.total) == c
    ensures f.FetchFailed? ==> r == c
  {
    match f
    case Fetched(lines) => c.(items := lines, total := CartPage.Total(lines))
    case FetchFailed => c
  }

  /** The outcome of the verification request: an answer carrying
      `verified`, or a failed request. */
  datatype Outcome = Answered(verified: bool) | RequestFailed

  /** The synchronous part of `handleVerify`: an empty license number sets
      the error and sends nothing; otherwise the request is sent with the
      spinner on and the error cleared. */
  function StartVerify(c: Checkout): (res: (bool, Checkout))
    ensures !res.0 <==> c.licenseNumber == ""
    ensures !res.0 ==> res.1 == c.(error := LicenseRequired)
    ensures res.0 ==> res.1.isVerifying && res.1.error == ""
    ensures res.0 ==> res.1.(isVerifying := c.isVerifying, error := c.error) == c
  {
    if c.licenseNumber == "" then (false, c.(error := LicenseRequired))
    else (true, c.(isVerifying := true, error := ""))
  }

  /** The request's settlement: the spinner stops; an answer sets the
      verified flag and its message; a failed request keeps the flag. */
  function FinishVerify(c: Checkout, o: Outcome): (r: Checkout)
    ensures !r.isVerifying
    ensures o.Answered? ==> r.licenseVerified == o.verified
    ensures o.RequestFailed? ==> r.licenseVerified == c.licenseVerified && r.error == VerifyFailed
    ensures r.error == "" <==> o == Answered(true)
    ensures r.(isVerifying := c.isVerifying, licenseVerified := c.licenseVerified, error := c.error) == c
  {
    match o
    case Answered(v) =>
      if v then c.(isVerifying := false, licenseVerified := true, error := "")
      else c.(isVerifying := false, licenseVerified := false, error := LicenseRejected)
    case RequestFailed => c.(isVerifying := false, error := VerifyFailed)
  }

  /** `handlePay`: without a verified license the popup is shown and
      nothing proceeds; with one, payment proceeds and the state is kept. */
  function Pay(c: Checkout): (res: (bool, Checkout))
    ensures res.0 <==> c.licenseVerified
    ensures res.0 ==> res.1 == c
    ensures !res.0 ==> res.1 == c.(showPopup := true)
  {
    if !c.licenseVerified then (false, c.(showPopup := true)) else (true, c)
  }

  /** What can happen on the page. */
  datatype Event =
    | Loaded(fetch: CartPage.Fetch)
    | Typed(text: string)
    | VerifyClicked
    | Settled(outcome: Outcome)
    | PayClicked
    | PopupHidden

  /** One event's effect on the page state: only a verification answer
      changes whether the license counts as verified, and only a load
      changes the items and the total. */
  function Step(c: Checkout, e: Event): (r: Checkout)
    ensures e.Settled? && e.outcome.Answered? ==> r.licenseVerified == e.outcome.verified
    ensures !(e.Settled? && e.outcome.Answered?) ==> r.licenseVerified == c.licenseVerified
    ensures !e.Loaded? ==> r.items == c.items && r.total == c.total
  {
    match e
    case Loaded(f) => Load(c, f)
    case Typed(t) => c.(licenseNumber := t)
    case VerifyClicked => StartVerify(c).1
    case Settled(o) => FinishVerify(c, o)
    case PayClicked => Pay(c).1
    case PopupHidden => c.(showPopup := false)
  }

  /** The page state after a sequence of events: without a load the items
      and the total are those it started with, and without an answer so is
      the verified flag. */
  function Run(c: Checkout, events: seq<Event>): (r: Checkout)
    ensures (forall i :: 0 <= i < |events| ==> !events[i].Loaded?) ==> r.items == c.items && r.total == c.total
    ensures (forall i :: 0 <= i < |events| ==> !(events[i].Settled? && events[i].outcome.Answered?)) ==>
      r.licenseVerified == c.licenseVerified
    decreases |events|
  {
    if |events| == 0 then c
    else Step(Run(c, events[..|events| - 1]), events[|events| - 1])
  }

  /** The last verification answer among the events, if any. */
  function LastAnswer(events: seq<Event>): Option<bool>
    decreases |events|
  {
    if |events| == 0 then None
    else
      var e := events[|events| - 1];
      if e.Settled? && e.outcome.Answered? then Some(e.outcome.verified)
      else LastAnswer(events[..|events| - 1])
  }

  /** The license counts as verified exactly when the last answer said so:
      failed requests, edits of the number, loads and clicks keep it. */
  lemma {:induction false} VerifiedIffLastAnswer(events: seq<Event>)
    ensures Run(Initial, events).licenseVerified <==> LastAnswer(events) == Some(true)
    decreases |events|
  {
    if |events| > 0 {
      VerifiedIffLastAnswer(events[..|events| - 1]);
    }
  }

  /** Payment proceeds exactly when the last verification answer was
      positive. */
  lemma PayNeedsVerifiedAnswer(events: seq<Event>)
    ensures Pay(Run(Initial, events)).0 <==> LastAnswer(events) == Some(true)
  {
    VerifiedIffLastAnswer(events);
  }

  /** The number verified is not bound to the number paid with: after a
      positive answer, typing another number still lets payment proceed. */
  lemma EditAfterVerifyStillPays(a: string, b: string)
    requires a != "" && a != b
    ensures var c := Run(Initial, [Typed(a), VerifyClicked, Settled(Answered(true)), Typed(b)]);
      c.licenseNumber == b && Pay(c).0
  {
    VerifiedIffLastAnswer([Typed(a), VerifyClicked, Settled(Answered(true)), Typed(b)]);
  }

  /** The total of a logged-in user's listing of a valid cart is never
      negative when no catalog price is. */
  lemma ListingTotalNonNegative(s: State)
    requires Valid(s) && s.session.Some?
    requires forall k :: k in s.medicines ==> s.medicines[k].price >= 0
    ensures Load(Initial, CartPage.Fetched(ListItems(s).lines)).total >= 0
  {
    var lines := ListItems(s).lines;
    forall k | 0 <= k < |lines|
      ensures lines[k].product.price >= 0 && lines[k].quantity >= 0
    {
      assert lines[k] in lines;
      assert FromCallerRow(lines[k], s.cart, s.session.value.id, s.medicines);
    }
  }
}
