# MediTrust cart, session and recommendation core in Dafny

MediTrust is a storefront for ordering pharmaceuticals in bulk. It has three parts:

- an Express backend that provides session-based signup and login and a per-user cart over a medicines catalog;
- React pages for products, cart and checkout;
- a Flask service that predicts how much of each product a user will order next.

This project models the logic of those parts as pure Dafny functions over immutable state and proves properties about them.

- **Backend (`ServerState`, `Auth`, `CartService`).** Each handler maps a state and a request to a reply and a new state:
  - signup validation (all fields present, a password of at least six characters, an unused email);
  - login by the first user with the email;
  - logout;
  - the session gate (401 before anything else);
  - add with merge: the quantity of the first matching row plus the new quantity is written to every matching row, or a row is inserted;
  - update with an absolute set, 404 when no row matched, and no catalog lookup;
  - remove: deletes every matching row, 404 when none was deleted;
  - list: the inner join of the caller's rows with the catalog.

  The cart table is a sequence of rows, so "at most one row per (user, product)" is an invariant that the handlers are proved to keep, not an assumption.
- **Cart page (`CartPage`).**
  - The +/- buttons send `max(1, quantity + delta)`. A confirmed reply merges the new quantity locally; any other reply re-fetches.
  - Remove filters locally on any 2xx reply. On failure it sets the banner and re-fetches.
  - The total is computed from the listed items.

  Two lemmas show that, on a page that shows the server's listing, a +/- or a remove leaves the page showing the server's new listing.
- **Products page (`ProductsPage`).**
  - The quantity pickers: default 1, the `parseInt` change handler, +, and - with a floor of 1.
  - "Use Recommended".
  - The add-to-cart guard (a user and an id `sr_number || product_id` are required).
  - The case-insensitive search over recommendations and products, and the exclusion of recommended products from the ordinary list.
- **Checkout page (`CheckoutPage`).** The loaded total, license verification (start and settlement) and the pay gate. A lemma shows that payment proceeds exactly when the last verification answer was positive.
- **Recommendation service (`Recommender`).**
  - `/predict` checks the request and pads or truncates the sequence to five records.
  - The user's order rows are grouped per product in insertion order.
  - Predictions that fail are skipped.
  - The products are sorted by prediction, stable and descending, and the top three are kept.
  - Each served product carries its predicted quantity, looked up with a default of 0.

The JavaScript and Python semantics the handlers depend on are written out in `JsValues`:

- truthiness of optional numbers and strings (`!x` rejects a missing value, `0` and `""`);
- `||` with a fallback;
- ASCII `toLowerCase`;
- `String.prototype.includes`;
- `parseInt`: leading white space, a sign, a `0x` prefix and the longest run of digits.

Money is in integer paise. Predictions are in integer hundredths, because the service rounds to two decimals.

Where the prose design of the cart and the code differ, the model follows the code:

- **The 401 gate.** Add is gated by the session (401) as well as list, update and remove.
- **Add's merge.** It reads the first matching row and then updates all matching rows in two steps. The model treats one request as one step, so the lost-update race between two concurrent adds is outside the model (see Left out).
- **Uniqueness of cart rows.** Nothing in the code enforces one row per (user, product). The model proves that the handlers never create a second row.

## Model

| member | source | states |
|---|---|---|
| `JsValues.ToLower` | src/pages/ProductsPage.jsx:122 | the result has the input's length, maps each character by the ASCII lower-case table, and contains no upper-case letter |
| `JsValues.Includes` | src/pages/ProductsPage.jsx:125-126 | every string includes the empty term, and no string includes a term longer than itself |
| `JsValues.IncludesIffOccurs` | src/pages/ProductsPage.jsx:125-126 | `includes` holds exactly when the term occurs at some index of the text |
| `JsValues.TrimStart` | src/pages/ProductsPage.jsx:67 | `parseInt` skips a prefix made only of white space and stops at the first character that is not white space |
| `JsValues.Decimal` | src/pages/ProductsPage.jsx:67 | the decimal rendering of a natural number is non-empty, all digits, and has no leading zero |
| `JsValues.ParseIntOfDecimal` | src/pages/ProductsPage.jsx:67 | `parseInt` inverts decimal rendering for every integer, negative ones included |
| `JsValues.ParseIntStopsAtNonDigit` | src/pages/ProductsPage.jsx:67 | `parseInt` of a decimal number followed by text that starts with neither a digit nor an `x` (a fraction, an exponent, a unit) reads the number alone |
| `JsValues.ParseIntSkipsSpace` | src/pages/ProductsPage.jsx:67 | leading white space does not change what `parseInt` returns |
| `JsValues.ParseInt` | src/pages/ProductsPage.jsx:67-68 | every text without a decimal digit parses to NaN (`None`): the empty string, a lone sign, white space, letters, even hexadecimal digits without the `0x` prefix |
| `Auth.FindByEmail` | server/server.js:96-100 | the lookup picks the first user with the email; it returns the length of the table exactly when no user has the email |
| `Auth.Signup` | server/server.js:110-131 | missing fields give 400 "All fields are required"; success (201) happens exactly when all fields are present, the password has at least 6 characters and the email is unused; every refusal leaves the state unchanged; success appends exactly one user holding the hashed password |
| `Auth.Login` | server/server.js:91-107 | success happens exactly when both fields are present, the email is registered and the password matches the stored hash of the first user with that email; the session is then that user's id, name and email; every refusal leaves the state unchanged |
| `Auth.Logout` | server/server.js:82-88 | the session is gone; users, cart and catalog are kept |
| `Auth.SignupKeepsEmailsUnique` | server/server.js:120-122 | signup never creates a second user with the same email |
| `Auth.SignupTwiceRefused` | server/server.js:122 | a second signup with a registered email is refused with "Email already registered" |
| `Auth.SignupThenLogin` | server/server.js:96-105 | when `compare` accepts a password against its own hash, signing up and then logging in with the same credentials logs in as the new user |
| `CartService.FirstIndex` | server/server.js:162-170 | `existingCart[0]` is the first row of the pair; the index equals the table length exactly when the pair has no row |
| `CartService.Others` | server/server.js:227 | the rows the DELETE keeps: no row of the pair remains, every kept row was in the table, and nothing changes when the pair had no row |
| `CartService.OthersCounts` | server/server.js:227 | the DELETE keeps every row of another pair exactly as many times as the table held it, and no row of the pair |
| `CartService.SetQuantity` | server/server.js:254 | the UPDATE keeps the keys row by row, gives every row of the pair the new quantity, and leaves every other row as it was |
| `CartService.MergeRow` | server/server.js:162-192 | after the write, the pair reads its prior quantity (0 when new) plus the added quantity; other pairs' rows are unchanged; an existing pair keeps its keys; a new pair is appended as one row |
| `CartService.ValidItem` | server/server.js:152-154 | for integer quantities the body check passes exactly when the product id is present and non-zero and the quantity is present and at least 1 |
| `CartService.AddItem` | server/server.js:146-196 | the checks run in order (401, then 400 "Valid product ID and quantity required", then 400 "Product not found"); success happens exactly when there is a session, a truthy positive quantity, a truthy id and a catalog entry; "Cart updated with new quantity" is returned exactly when a row existed; every failure leaves the state unchanged |
| `CartService.UpdateItem` | server/server.js:243-267 | 401, then 400, then 404 "Item not found in cart" when the caller has no row; success happens exactly when there is a session, a valid body and a row; the pair then reads the new quantity while other rows and keys are unchanged; no catalog lookup |
| `CartService.RemoveItem` | server/server.js:220-240 | 401; success happens exactly when the caller has a row for the product, otherwise 404 with the state unchanged; afterwards no row of the pair remains, the other rows are unchanged and the table is shorter |
| `CartService.OthersShrinks` | server/server.js:234-238 | a DELETE that matched removes at least one row, and repeating it removes nothing more |
| `CartService.Lines` | server/server.js:204-209 | every joined line comes from one of the caller's rows whose product is in the catalog, and every such row is listed |
| `CartService.ListItems` | server/server.js:199-217 | 401 exactly when there is no session; otherwise the join contains exactly the caller's rows that have catalog records, each with the live catalog record |
| `CartProperties.LinesCounts` | server/server.js:204-209 | the join lists the line for product p, quantity q and p's catalog record exactly as many times as the caller has a row (p, q), and lists no other line |
| `CartProperties.ListingCounts` | server/server.js:199-217 | the same multiplicities for the listing a logged-in caller receives |
| `CartProperties.AddKeepsValid` | server/server.js:162-192 | add keeps the table free of duplicate (user, product) rows and every quantity positive |
| `CartProperties.UpdateKeepsValid` | server/server.js:249-265 | update keeps the same invariant |
| `CartProperties.RemoveKeepsValid` | server/server.js:227-238 | remove keeps the same invariant |
| `CartProperties.AuthKeepsValid` | server/server.js:82-131 | signup, login and logout keep the invariant and unique emails |
| `CartProperties.AddOnce` | server/server.js:146-192 | an add of a catalog product with a positive quantity succeeds, answers "Cart updated with new quantity" exactly when the pair had a row, and leaves the pair with a row reading its prior quantity plus the added one |
| `CartProperties.AddTwiceAccumulates` | server/server.js:168-176 | two adds of q1 and q2 leave the prior quantity plus q1 plus q2, and the second add answers "Cart updated with new quantity" |
| `CartProperties.SetQuantityTwice` | server/server.js:254 | two UPDATEs of the same pair equal the second alone |
| `CartProperties.UpdateOverwrites` | server/server.js:254-265 | update is an absolute set: after a successful update, a second update gives the same reply and state as the second update alone |
| `CartProperties.UpdateIgnoresCatalog` | server/server.js:253-255 | update's reply and cart do not depend on the catalog |
| `CartProperties.RemoveTwiceNotFound` | server/server.js:234-235 | a remove repeated right after a successful remove answers 404 and changes nothing |
| `CartProperties.RowsOf` | server/server.js:207-208 | a row is among one user's rows exactly when it is in the table and belongs to that user |
| `CartProperties.RowsOfCounts` | server/server.js:207-208 | the user's rows appear as many times as the table holds them, and no row of another user appears |
| `CartProperties.RowsOfOthers` | server/server.js:227 | the DELETE of one user's pair keeps every other user's rows in order |
| `CartProperties.OtherUsersUntouched` | server/server.js:146-267 | add, update and remove by one user leave every other user's rows as they were |
| `CartProperties.ListingIsOwnRows` | server/server.js:204-209 | every listed line is one of the caller's rows, with its product and quantity |
| `CartProperties.CartScenario` | server/server.js:146-267 | add 2, add 3 give 5; update to 1 gives 1; remove succeeds, the listing then has no line for the product, and a second remove is a 404 |
| `CartPage.Refresh` | src/pages/CartPage.jsx:17-27 | a listing replaces the items and keeps the banner, so a success never clears the banner of an earlier failure; a failure sets "Failed to load cart items" and keeps the items |
| `CartPage.FindItem` | src/pages/CartPage.jsx:31 | `find` returns the first item with the serial number, or none |
| `CartPage.UpdateRequest` | src/pages/CartPage.jsx:30-36 | no request when no item has the serial number; otherwise the quantity sent is at least 1, at least the item's quantity plus delta, and equal to it whenever above 1 |
| `CartPage.SetLocalQuantity` | src/pages/CartPage.jsx:42-46 | the local merge sets every item of the product to the new quantity and keeps every other item |
| `CartPage.UpdateQuantity` | src/pages/CartPage.jsx:30-59 | a confirmed reply merges locally; any other reply or a failed request re-fetches; no item means no request and no change |
| `CartPage.RemoveLocal` | src/pages/CartPage.jsx:68-70 | the filter keeps exactly the items of other products |
| `CartPage.RemoveLocalAppend` | src/pages/CartPage.jsx:68-70 | the filter keeps relative order (it distributes over concatenation) |
| `CartPage.RemoveLocalNoMatch` | src/pages/CartPage.jsx:68-70 | filtering out a serial number that no item carries leaves the list unchanged: same items, same order, same multiplicities |
| `CartPage.HandleRemove` | src/pages/CartPage.jsx:63-78 | any 2xx reply sets the items to exactly the local filter's result: the other products, in their order and with their multiplicities. The banner is kept. Otherwise the banner reads "Failed to remove item from cart" and the items are re-fetched |
| `CartPage.TotalAppend` | src/pages/CartPage.jsx:81-86 | the total of concatenated lists is the sum of their totals |
| `CartPage.Total` | src/pages/CartPage.jsx:81-86 | with non-negative prices and quantities the total is non-negative |
| `CartPage.TotalAfterRemove` | src/pages/CartPage.jsx:81-86 | removing a product takes exactly its items' share off the total |
| `CartPage.TotalAfterSet` | src/pages/CartPage.jsx:81-86 | setting a product's quantity to n makes its share n times its unit prices and leaves the rest of the total alone |
| `CartPage.LinesAfterSet` | src/pages/CartPage.jsx:42-46 | joining after the server's UPDATE equals the page's local merge of the joined listing |
| `CartPage.LinesAfterDelete` | src/pages/CartPage.jsx:68-70 | joining after the server's DELETE equals the page's local filter of the joined listing |
| `CartPage.UpdateKeepsPageInSync` | src/pages/CartPage.jsx:30-59 | on a page that shows the server's listing, a +/- leaves the page showing the server's new listing, whether it merged locally or re-fetched |
| `CartPage.RemoveKeepsPageInSync` | src/pages/CartPage.jsx:63-78 | on a page that shows the server's listing, a remove leaves the page showing the server's new listing |
| `ProductsPage.Shown` | src/pages/ProductsPage.jsx:159-166 | the picker shows and add-to-cart sends the stored quantity when it is present and non-zero, and 1 otherwise; at least 1 whenever every stored quantity is |
| `ProductsPage.InitDefaults` | src/pages/ProductsPage.jsx:50-58 | every loaded product gets an entry; existing entries are kept; new entries are 1 |
| `ProductsPage.ChangeQuantity` | src/pages/ProductsPage.jsx:66-71 | the entry changes exactly when `parseInt` gives a number above 0, and then holds that number |
| `ProductsPage.TypedQuantity` | src/pages/ProductsPage.jsx:66-71 | typing a positive decimal number (with any non-digit tail) stores it; typing 0, a negative number or nothing changes nothing |
| `ProductsPage.Increase` | src/pages/ProductsPage.jsx:73-75 | the product's quantity becomes the shown quantity plus 1; every other entry is kept |
| `ProductsPage.Decrease` | src/pages/ProductsPage.jsx:77-82 | the product's quantity drops by 1 but never below 1; every other entry is kept |
| `ProductsPage.QuantitiesStayAtLeastOne` | src/pages/ProductsPage.jsx:50-82 | defaults, change, +, - and the corrected "Use Recommended" keep every quantity at least 1 |
| `ProductsPage.IncreaseThenDecrease` | src/pages/ProductsPage.jsx:73-82 | + then - restores the pickers |
| `ProductsPage.RecommendedQuantity` | src/pages/ProductsPage.jsx:179 | `Math.ceil` of a prediction in hundredths: the least integer k with 100·k at least the prediction |
| `ProductsPage.UseRecommendedAsWritten` | src/pages/ProductsPage.jsx:211-214 | the rounded prediction is stored as it is; every other entry is kept |
| `ProductsPage.UseRecommendedBreaksFloor` | src/pages/ProductsPage.jsx:179 | a prediction of -1.50 stores -1; the floor of 1 breaks, and the server would reject that quantity |
| `ProductsPage.UseRecommended` | src/pages/ProductsPage.jsx:211-214 | the stored quantity is at least 1 and equals the rounded prediction when that is at least 1 |
| `ProductsPage.AddToCart` | src/pages/ProductsPage.jsx:90-120 | a request is sent exactly when a user is logged in and `sr_number`, else `product_id`, is truthy; it carries that id (`sr_number` first) and the chosen quantity |
| `ProductsPage.CardAddAccepted` | src/pages/ProductsPage.jsx:166 | a card's add, with the pickers' invariant, sends a request the server's add accepts |
| `ProductsPage.FilterRecommendations` | src/pages/ProductsPage.jsx:124-127 | keeps exactly the recommendations whose name or generic name contains the lower-cased term |
| `ProductsPage.FilterProductsAsWritten` | src/pages/ProductsPage.jsx:129-135 | keeps exactly the matching products whose serial number is no recommendation's `sr_number` key |
| `ProductsPage.RecommendedProductShownTwice` | src/pages/ProductsPage.jsx:129-131 | a served recommendation (keyed `product_id`) is still listed among the ordinary products |
| `ProductsPage.FilterProducts` | src/pages/ProductsPage.jsx:129-135 | keeps exactly the matching products whose serial number is no recommendation's key (`product_id`, else `sr_number`) |
| `ProductsPage.RecommendedProductsNotRepeated` | src/pages/ProductsPage.jsx:180 | with recommendations identified as their cards identify them, no served product appears again in the ordinary list |
| `ProductsPage.EmptySearch` | src/pages/ProductsPage.jsx:132-135 | an empty search keeps exactly the products that have a name or a generic name |
| `ProductsPage.SearchIgnoresCase` | src/pages/ProductsPage.jsx:122-126 | terms that agree up to ASCII case select the same products, and so do names and generic names that agree up to case |
| `ProductsPage.SearchFindsSubstring` | src/pages/ProductsPage.jsx:122-126 | a product matches exactly when the lower-cased term occurs at some position of its lower-cased name or generic name |
| `ProductsPage.SearchExample` | src/pages/ProductsPage.jsx:122-126 | typing "ASP" finds a product named "Aspirin" |
| `CheckoutPage.Load` | src/pages/CheckoutPage.jsx:15-27 | a loaded cart sets the items and a total equal to the cart page's total; a failed load changes nothing |
| `CheckoutPage.StartVerify` | src/pages/CheckoutPage.jsx:29-37 | an empty number sets "License number is required." and sends nothing; otherwise the request is sent with the spinner on and the error cleared |
| `CheckoutPage.FinishVerify` | src/pages/CheckoutPage.jsx:45-59 | the spinner stops; an answer sets the verified flag to the answer; a failed request keeps the flag and reads "Verification failed. Try again."; the error is empty exactly after a positive answer |
| `CheckoutPage.Pay` | src/pages/CheckoutPage.jsx:62-71 | payment proceeds exactly when the license is verified; otherwise the popup is shown |
| `CheckoutPage.Step` | src/pages/CheckoutPage.jsx:15-71 | only a verification answer changes whether the license counts as verified, and it sets the flag to the answer; only a load changes the items and the total |
| `CheckoutPage.Run` | src/pages/CheckoutPage.jsx:15-71 | after events that include no load, the items and the total are those the page started with; after events that include no answer, so is the verified flag |
| `CheckoutPage.VerifiedIffLastAnswer` | src/pages/CheckoutPage.jsx:29-71 | after any sequence of page events, the license counts as verified exactly when the last verification answer was positive |
| `CheckoutPage.PayNeedsVerifiedAnswer` | src/pages/CheckoutPage.jsx:62-67 | payment proceeds exactly when the last verification answer was positive |
| `CheckoutPage.EditAfterVerifyStillPays` | src/pages/CheckoutPage.jsx:116 | editing the license number after a positive answer does not withdraw the verification |
| `CheckoutPage.ListingTotalNonNegative` | src/pages/CheckoutPage.jsx:21-24 | the total of a valid cart's listing is non-negative when catalog prices are |
| `Recommender.Pad` | src/App.py:92-98 | the padded sequence has five records: the first five given, then blank records |
| `Recommender.PadLaws` | src/App.py:92-98 | padding is idempotent, keeps a five-record sequence, and ignores records past the fifth |
| `Recommender.PredictRequest` | src/App.py:76-98 | 400 for a falsy id or an empty or missing sequence, 400 for an id the encoder does not know, otherwise the padded sequence for that id |
| `Recommender.History` | src/App.py:134-145 | one group per product, each holding exactly that product's records in query order, and every row's product has a group |
| `Recommender.HistoryKeepsEveryRow` | src/App.py:134-145 | the group sizes sum to the number of rows |
| `Recommender.Collect` | src/App.py:147-167 | every prediction comes from a group's padded records, and every group whose prediction succeeds contributes one |
| `Recommender.CollectDistinct` | src/App.py:147-167 | groups with distinct products give at most one prediction per product, so the predictions are fixed up to order |
| `Recommender.Predictions` | src/App.py:134-167 | a user's history gives at most one prediction per product |
| `Recommender.Insert` | src/App.py:172 | inserting into a sequence ordered largest first keeps it ordered and adds exactly one element |
| `Recommender.SortDescending` | src/App.py:172 | the result is ordered largest first and is a permutation of the input |
| `Recommender.Top` | src/App.py:172 | at most three predictions, ordered, drawn from the input; every prediction left out is at most every one kept |
| `Recommender.DistinctIdsOfSubMultiset` | src/App.py:172 | sorting and cutting predictions with distinct products cannot repeat a product |
| `Recommender.TopIds` | src/App.py:172 | the ids of the kept predictions, best first, one per prediction; no id twice when the predictions are for distinct products |
| `Recommender.PredictedQuantity` | src/App.py:185 | the first prediction for the product, or 0 when there is none |
| `Recommender.Describe` | src/App.py:182-189 | exactly the catalog products among the ids, each with its looked-up prediction |
| `Recommender.DescribeDistinct` | src/App.py:174-189 | distinct ids over a catalog keyed by serial number give distinct medicines, so the reply is fixed up to order |
| `Recommender.RecommendationsDistinct` | src/App.py:111-191 | with a catalog keyed by serial number, no medicine is served twice |
| `Recommender.UserRecommendations` | src/App.py:111-191 | 400 exactly for a falsy user id; no predictions give an empty list; at most three products, which are exactly the top ids found in the catalog, each with its prediction |

## Left out

- Store and process failures (every 500 reply, database errors, a session store that fails to destroy): the store is total in the model.
- The lost-update race between two concurrent adds of the same pair: each request runs as one step.
- bcrypt: the hash function and `compare` are parameters. The user table's auto-increment id is a parameter. Row ids and `added_at` timestamps are not modelled.
- The session cookie, its 24-hour lifetime and server restarts: the session is an optional value in the state.
- The order of rows returned by the join and by `SELECT ... WHERE sr_number IN (...)`: without `ORDER BY`, SQL leaves both unspecified. The join is modelled in table order. `Recommender.Describe` emits the medicines in the order of the top ids (best first), because the catalog is a map, which has no order. `CartProperties.LinesCounts`, `Recommender.Describe`, `Recommender.DescribeDistinct` and `Recommender.UserRecommendations` state membership and multiplicity, not order.
- Floating point: prices are integer paise and predictions are integer hundredths. `Math.ceil` is modelled on hundredths. JavaScript `getTotal`'s `|| 0` only guards against NaN, which integer prices cannot produce.
- `Recommender.SortDescending`: does not state that ties keep their input order, because ties among equal predictions affect only which equal-valued product is dropped from the top three. `Insert` places equal values after existing ones, as Python's stable sort does.
- `Recommender.UserRecommendations`: the fifty-row limit and date ordering of the order query are not modelled, because the query's rows are a parameter. Date-part extraction (`weekday`, ISO week) is likewise left to that parameter.
- The demand model, the scalers and the label encoder: `predict` is a parameter (`None` when prediction fails). The encoder's known ids are a set parameter in `Recommender.PredictRequest`.
- License verification itself: the BERT model, the `/api/verify-license` proxy and the Flask `/verify_license` route. Their outcome is a parameter of `CheckoutPage.FinishVerify`.
- `/auth-status`, `/api/products` and `/api/predict-demand`: they only read or forward data. Rendering, popups and their timers, navigation and the disabled state of buttons are also left out.
- `JsValues.ParseInt`: no precision loss beyond 2^53, and no radix argument other than the default.
- `JsValues.ToLower`: ASCII only, with no Unicode case mapping.
- `Auth.Signup`: measures the password length in characters, not UTF-16 code units.
- `CartService.AddItem`: quantities are integers. The source accepts any JSON number that passes `!quantity || quantity <= 0`, so a fractional quantity such as 0.4 passes the check and is inserted, or added to the stored quantity (2 + 0.4). What the cart column then holds depends on its schema, which is not part of this model. A quantity sent as a JSON string would make `existingCart[0].quantity + quantity` concatenate strings.
- `CartService.UpdateItem`: quantities are integers. A fractional quantity such as 0.4 passes the same check and is written by the UPDATE.
- `CartProperties.AddKeepsValid`: "every quantity is at least 1" relies on integer quantities. With fractional JSON quantities, the source only keeps every quantity above 0.
- `CartProperties.UpdateKeepsValid`: the same reliance on integer quantities as `CartProperties.AddKeepsValid`.
- `CartService.RemoveItem`: the product id is an integer. In the source it is the path parameter, a string that MySQL converts to a number when comparing it with `product_id`. That conversion is not modelled.
- `Auth.FindByEmail`: emails are compared by exact equality. Under MySQL's default case-insensitive collation, "A@x.com" and "a@x.com" are the same email to the lookups at server/server.js:96 and :120, for login and for signup's uniqueness check. `Auth.Registered` and `ServerState.UniqueEmails` are likewise case-sensitive.
- `ProductsPage.RecommendedProductsNotRepeated`: needs non-zero serial numbers, because `product_id || sr_number` reads a serial number of 0 as missing.

## Findings

| source | as written | input that shows it | evidently intended | confidence | as-written member | corrected member |
|---|---|---|---|---|---|---|
| src/pages/ProductsPage.jsx:129 | `recommendedIds` is built from each recommendation's `sr_number`, but the service sends the serial number as `product_id` (src/App.py:176), so the set holds only `undefined` | a recommendation `{product_id: 10, product_name: "X"}` and catalog product 10 named "X", with an empty search: product 10 is shown both as a recommended card and as an ordinary card | identify a recommendation by `product_id`, else `sr_number`, as its card does at line 180 | medium; not executed | `ProductsPage.RecommendedProductShownTwice` | `ProductsPage.RecommendedProductsNotRepeated` |
| src/pages/ProductsPage.jsx:179 | "Use Recommended" stores `Math.ceil(predicted_quantity)` unclamped, although every other picker path keeps the quantity at least 1 | a prediction of -1.5 stores -1; the picker shows -1 and add-to-cart sends quantity -1, which the server rejects with 400 | store `max(1, ceil(prediction))` | low (needs a negative prediction); not executed | `ProductsPage.UseRecommendedBreaksFloor` | `ProductsPage.UseRecommended` |
