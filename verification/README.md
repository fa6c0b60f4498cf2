# Quick-buy table: cart reconciliation, in Dafny

This project models the cart reconciliation path of the WooCommerce plugin
"quick buy table" (`WC_Quick_Buy_Table`). The plugin renders a signed-in
shopper's order list ("bestellijst") as a table with one quantity field per
product. When the table is rendered, the plugin takes a snapshot of the live
cart (a map from product or variation id to quantity). It encodes the
snapshot, tags it with a keyed hash of the payload and the user id, and
sends both with the form.

On submission the token is decoded. Any problem gives the empty snapshot.
The decoded snapshot is then compared with the live cart's snapshot by
strict equality. When they differ, nothing changes and the shopper is sent
back to the list. When they match, every posted quantity is read with PHP's
integer cast and rounded up to the product's step. The step is 6 when the
display price is below 20 and 1 otherwise. The quantity is then set in the
cart: the first line of the product is updated or removed, or a new line is
added. The ids of the products ordered are merged into the order list kept
in user meta. The browser script mirrors the rounding and adds the step
arithmetic of the plus and minus buttons and the summary's quantity total.

The model is functional:

- the cart is an optional sequence of lines (`Products.Cart`);
- the catalog is a partial map from id to product;
- a ksorted PHP array of quantities is a sequence of entries with strictly
  ascending ids (`Snapshot.Sorted`), read as a map by `Snapshot.ToMap`;
- the site's keyed hash `wp_hash` is an uninterpreted function parameter;
- a submission is a pure transition (`Reconciler.ProcessSubmission`) to
  `Rejected(cart)` or `Applied(cart, wishlist update)`.

Modules: `Maybe` (option type), `Text` (PHP and JavaScript integer reading,
decimal text, `trim`, `explode`, `implode`), `Products` (products, cart
lines, per-id totals), `Snapshot` (snapshot building and normalisation),
`Codec` (token text, tag, decoding, gate), `Quantity` (step rule and
normaliser), `CartUpdate` (find and upsert or remove), `Wishlist` (order-list
merge), `Listing` (in-cart flags, cart-only products, primary term, the cart
group), `Reconciler` (the submission), `Client` (the browser script).

Three behaviours of the code shape the model:

- The gate is strict `===` on two ksorted arrays, so a snapshot entry with
  quantity 0 differs from a missing entry. A token for {101: 2, 102: 0} is
  refused against a cart holding {101: 2}
  (`Reconciler.ZeroEntryIsNotAbsent`).
- An invalid, missing or tampered token has no outcome of its own. It
  decodes to the empty snapshot, which passes the gate exactly when the
  live snapshot is empty
  (`Reconciler.UntrustedTokenAcceptedOnlyOnEmptyCart`).
- A missing cart gives the empty snapshot, and every update on it does
  nothing (`CartUpdate.UpdateCartQuantity`). The order list is still
  updated in that case.

## Model

| member | source | states |
|---|---|---|
| Quantity.QuantityStep | includes/class-wc-quick-buy-table.php:858-862 | The step is 6 exactly when the display price is below 20, and 1 exactly when it is 20 or more. |
| Quantity.NormalizeQuantity | includes/class-wc-quick-buy-table.php:193-202 | A request of 0 or less gives 0. With step 1 or less a positive request passes through. With a larger step it becomes the least multiple of the step that is at least the request. |
| Quantity.NormalizeIdempotent | includes/class-wc-quick-buy-table.php:193-202 | Normalising an already normalised quantity changes nothing. |
| Quantity.NormalizeMonotone | includes/class-wc-quick-buy-table.php:193-202 | A larger request never gives a smaller quantity. |
| Quantity.MultipleIsFixed | includes/class-wc-quick-buy-table.php:197-199 | A positive quantity already on a step boundary is kept as it is. |
| Quantity.BulkExamples | includes/class-wc-quick-buy-table.php:193-202 | With step 6: 1 gives 6, 6 gives 6, 7 gives 12, 0 and -3 give 0. With step 1, 7 stays 7. |
| Quantity.QuantityForProduct | includes/class-wc-quick-buy-table.php:193-202 | The normalised quantity of posted text is positive exactly when the text's integer cast is positive. It is never below the cast and is a multiple of the product's step. |
| Text.ParseLeadingInt | includes/class-wc-quick-buy-table.php:194 | PHP's `(int)` and JavaScript's `parseInt` find no number exactly when no digit follows the leading whitespace and optional sign. |
| Text.ParseLeadingIntOfText | includes/class-wc-quick-buy-table.php:194 | The decimal text of any integer, followed by anything that is not a digit, reads back as that integer. |
| Text.AbsInt | includes/class-wc-quick-buy-table.php:157-161 | `absint` of a request key is 0 exactly when its integer cast is 0, which is when the item is skipped. |
| Text.SplitJoin | includes/class-wc-quick-buy-table.php:541-558 | Splitting a comma-joined list whose pieces hold no comma gives the pieces back. |
| Text.ReadIntOfText | includes/class-wc-quick-buy-table.php:773-788 | An integer written as JSON writes it reads back as the same integer with the same length. |
| Text.JsonIntOfText | includes/class-wc-quick-buy-table.php:734 | The decimal text of an integer never starts with a zero followed by another digit, so it is a JSON number. |
| Products.QuantityOfConcat | includes/class-wc-quick-buy-table.php:664-672 | The per-id total of two runs of lines is the sum of their totals. |
| Snapshot.SnapshotOfLines | includes/class-wc-quick-buy-table.php:689-703 | The snapshot is sorted. Its ids are exactly the positive ids some line is counted under, each holding the sum of those lines' quantities. |
| Snapshot.CartSnapshot | includes/class-wc-quick-buy-table.php:682-706 | An absent cart gives the empty snapshot. Otherwise the snapshot is sorted, holds exactly the positive effective ids of the lines, and holds each id's summed quantity. |
| Snapshot.CartQuantities | includes/class-wc-quick-buy-table.php:657-675 | The quantities map has a key for every effective id of a line, zero and negative ids included, holding the summed quantity. An absent cart gives the empty map. |
| Snapshot.SnapshotIsPositivePart | includes/class-wc-quick-buy-table.php:657-706 | The snapshot is the quantities map restricted to positive ids. |
| Snapshot.Put | includes/class-wc-quick-buy-table.php:729-732 | Assigning an id in a sorted snapshot and sorting again gives a sorted snapshot holding the new value under that id and nothing else changed. |
| Snapshot.SortedUnique | includes/class-wc-quick-buy-table.php:703 | Two sorted snapshots with the same contents are the same snapshot. |
| Snapshot.NormalizeState | includes/class-wc-quick-buy-table.php:722-732 | The result is normalised (sorted, positive ids, no negative quantity). Its ids are the input's positive ids, and each holds the input's value clamped at 0. |
| Snapshot.NormalizeStateDeterministic | includes/class-wc-quick-buy-table.php:715-734 | Inputs with the same contents, in any key order, normalise to the same snapshot. |
| Snapshot.NormalizeStateFixed | includes/class-wc-quick-buy-table.php:781-793 | A snapshot that is already normalised comes out of normalisation unchanged. |
| Snapshot.NormalizedEntries | includes/class-wc-quick-buy-table.php:724-729 | Every entry of a normalised snapshot has a positive id and a non-negative quantity. |
| Codec.ParseToJson | includes/class-wc-quick-buy-table.php:734 | The JSON text of a list of id/quantity pairs (`[]` when empty) parses back to that list. |
| Codec.EncodeCartState | includes/class-wc-quick-buy-table.php:715-734 | The payload parses back to the normalised snapshot, and is never empty in the sense of PHP's `empty()`. |
| Codec.LeadingZeroValueRejected | includes/class-wc-quick-buy-table.php:773-777 | A value with a leading zero (`{"1":007}`) is not JSON, so the text does not decode. |
| Codec.LeadingZeroKeyRead | includes/class-wc-quick-buy-table.php:781-788 | A key is a string, so `{"007":1}` decodes and its key casts to 7. |
| Codec.HashMessage | includes/class-wc-quick-buy-table.php:744-746 | The hashed text is the payload, then a bar, then text whose integer cast is the user id. |
| Codec.HashMessageInjective | includes/class-wc-quick-buy-table.php:744-746 | For payloads without a bar, two hashed messages are equal exactly when both the payloads and the user ids are equal. |
| Codec.DecodeCartState | includes/class-wc-quick-buy-table.php:756-794 | The decoded snapshot is always normalised. An empty payload or tag, a tag other than this user's hash of the payload, a payload that does not decode, or one that decodes to a scalar all give the empty snapshot. |
| Codec.CodecRoundTrip | includes/class-wc-quick-buy-table.php:715-794 | Decoding an encoded payload with the tag this user's hash gives it yields the encoded snapshot with ids of 0 or less dropped, quantities clamped at 0 and ids sorted. |
| Codec.CodecRoundTripNormalized | includes/class-wc-quick-buy-table.php:715-794 | For an already normalised snapshot the round trip gives back the snapshot itself. |
| Codec.EncodeDeterministic | includes/class-wc-quick-buy-table.php:715-746 | Two snapshots with the same contents, in any key order, give the same payload and the same tag. |
| Codec.UntrustedTokenGate | includes/class-wc-quick-buy-table.php:756-777 | A token that fails any check passes the equality gate exactly when the live snapshot is empty. |
| Codec.CartStatesMatch | includes/class-wc-quick-buy-table.php:804-814 | On sorted snapshots the strict equality of the gate holds exactly when both hold the same ids with the same quantities. |
| CartUpdate.FindCartItem | includes/class-wc-quick-buy-table.php:251-263 | No position is found exactly when no line is counted under the id. Otherwise the position is that of the first such line. |
| CartUpdate.NewLine | includes/class-wc-quick-buy-table.php:217-225 | A variation is added under its parent with its own id as the variation id and its attributes. Anything else is added under its own id with no variation. Either way the new line is counted under the product's id. |
| CartUpdate.UpdateLines | includes/class-wc-quick-buy-table.php:227-242 | With a line found and a positive quantity, only that line changes and its quantity is set (not added to). With a line found and quantity 0 or less, only that line is removed. With no line found, a positive quantity appends one new line and anything else leaves the lines alone. |
| CartUpdate.UpdateCartQuantity | includes/class-wc-quick-buy-table.php:210-215 | An absent cart stays absent. A present cart gets the line update. |
| CartUpdate.UpdateKeepsOtherIds | includes/class-wc-quick-buy-table.php:210-242 | Every id other than the product's keeps its lines and its total quantity. |
| CartUpdate.UpdateSetsTarget | includes/class-wc-quick-buy-table.php:210-242 | In a cart with one line per id, the product ends with a line exactly when the quantity is positive, and then holds exactly that quantity. The cart still has one line per id. |
| CartUpdate.UpdateTargetTotal | includes/class-wc-quick-buy-table.php:210-242 | In any cart, also one with several lines per id, the product's total afterwards is the requested quantity (0 when not positive) plus the quantities of its lines other than the first. With no line, it is just the requested quantity. |
| CartUpdate.UpdateWithDuplicateLines | includes/class-wc-quick-buy-table.php:227-242 | With two lines of product 5 holding 2 and 3, asking for 6 leaves 9 in the cart and asking for 0 leaves 3. |
| Wishlist.MergeIds | includes/class-wc-quick-buy-table.php:550-556 | The existing ids are a prefix of the result, order and repeats kept. The result holds exactly the existing and the new ids. Each appended id was not there before, is appended once, and the appended ids follow their first-occurrence order. |
| Wishlist.CleanIds | includes/class-wc-quick-buy-table.php:532 | The cleaned list holds exactly the non-zero magnitudes of the given ids, each once, in the order of their first occurrence. |
| Wishlist.NonZeroAbsOrder | includes/class-wc-quick-buy-table.php:532 | Dropping zeros and taking magnitudes keeps the order in which each magnitude first occurs. |
| Wishlist.ParseStoredIds | includes/class-wc-quick-buy-table.php:538-548 | A stored value of "" or "0" gives no ids, and every id read from a stored list is positive. |
| Wishlist.AddProductsToWishlist | includes/class-wc-quick-buy-table.php:525-563 | Nothing is stored for a guest or for an empty cleaned id list. A value is stored only when it differs from the stored text, and it is the comma-joined merge. When nothing is stored, the merge joins to the stored text. |
| Wishlist.ParseJoinIds | includes/class-wc-quick-buy-table.php:541-558 | A non-empty list of positive ids written with `implode` reads back as the same list. |
| Wishlist.MergeIsIdempotent | includes/class-wc-quick-buy-table.php:525-563 | Merging the same ids into the text a merge writes gives back that text, so submitting the same products twice stores nothing the second time. |
| Listing.ProductIsInCart | includes/class-wc-quick-buy-table.php:872-890 | A product is in the cart exactly when its own id has a positive quantity, or it is a variable product and one of its children's ids has one. |
| Listing.CartQuantityForProduct | includes/class-wc-quick-buy-table.php:900-922 | A product with its own entry gets that entry, whatever its value. Otherwise a variable product gets its children's summed quantities and any other product gets 0. |
| Listing.InCartIffPositiveQuantity | includes/class-wc-quick-buy-table.php:872-922 | When all cart quantities are positive, a product is flagged as in the cart exactly when its shown cart quantity is positive. |
| Listing.CartProductsNotInList | includes/class-wc-quick-buy-table.php:1004-1036 | An absent cart gives nothing. Every product returned is keyed by its own id, is not in the list and has a non-zero cart quantity. The keys are exactly the ids of lines whose product object is present and qualifies. |
| Listing.NotInListOfCart | includes/class-wc-quick-buy-table.php:1004-1036 | When each line's product object has the line's effective id and every line quantity is positive, then against the live cart's own quantities the products returned are exactly those of lines with a product object whose id is not in the list. |
| Listing.PrimaryTerm | includes/class-wc-quick-buy-table.php:639-650 | The result is one of the terms. It is the first term in group 0 when there is one, else the first term. An empty list gives none. |
| Listing.SortRows | includes/class-wc-quick-buy-table.php:958-963 | The rows come out in case-insensitive name order, as a permutation of the input, and rows whose names compare equal keep their input order, as PHP 8's stable `usort` leaves them. |
| Listing.CartRows | includes/class-wc-quick-buy-table.php:936-953 | The rows collected are the in-cart rows of all groups, in their original order. |
| Listing.Remaining | includes/class-wc-quick-buy-table.php:936-986 | The groups kept are, in their original order, exactly the input groups that still have a row once in-cart rows are taken out. Each keeps its title, note and flag with its rows not in the cart, in order. |
| Listing.ElevateCartProductsGroup | includes/class-wc-quick-buy-table.php:933-994 | The output holds the input rows, each once. If any row is in the cart, a leading group flagged as the cart group holds exactly the in-cart rows sorted by name, followed by the remaining groups. If none is, the remaining groups are returned, or the input groups when none remain. |
| Reconciler.ApplyItem | includes/class-wc-quick-buy-table.php:156-174 | An item whose key reads as 0 or names no product is skipped. Otherwise the product's normalised quantity is set in the cart, and the product's id is collected when that quantity is positive. |
| Reconciler.ApplyItems | includes/class-wc-quick-buy-table.php:154-175 | The loop keeps the cart absent or present. The ids collected before it are a prefix of those collected after, and each item adds at most one id. |
| Reconciler.ListedAreOrdered | includes/class-wc-quick-buy-table.php:154-175 | The ids collected are exactly those of the products some applicable item orders with a positive quantity. |
| Reconciler.SkipInapplicable | includes/class-wc-quick-buy-table.php:156-167 | A skipped item does not affect the items before or after it. |
| Reconciler.ProcessSubmission | includes/class-wc-quick-buy-table.php:142-177 | The submission is rejected exactly when the decoded and live snapshots differ, and a rejection leaves the cart and the order list alone. An accepted one applies every item in order and merges the ids collected into the order list. An absent cart stays absent. |
| Reconciler.GateIsContentEquality | includes/class-wc-quick-buy-table.php:142-150 | A submission is rejected exactly when the decoded and live snapshots differ in some id or quantity. |
| Reconciler.UntrustedTokenAcceptedOnlyOnEmptyCart | includes/class-wc-quick-buy-table.php:142-150 | A token that does not verify is accepted exactly when the live cart has no positive-id line. |
| Reconciler.FreshTokenAccepted | includes/class-wc-quick-buy-table.php:285-288 | The token rendered for the live cart is accepted when the cart is still the same, provided its line quantities are not negative. |
| Reconciler.ApplyKeepsUniqueIds | includes/class-wc-quick-buy-table.php:154-175 | A cart with one line per id still has one line per id after all updates. |
| Reconciler.ApplyKeepsUnrequested | includes/class-wc-quick-buy-table.php:154-175 | An id no applicable item names keeps its lines and total quantity. |
| Reconciler.ApplyReachesRequested | includes/class-wc-quick-buy-table.php:154-175 | In a cart with one line per id, for the last applicable item naming a product, the product ends with exactly that item's normalised quantity, and has no line when that is 0. |
| Reconciler.AppliedSnapshot | includes/class-wc-quick-buy-table.php:142-177 | In a cart with one line per id, after an accepted submission, the product of the last applicable item naming it is in the new snapshot exactly when its normalised quantity is positive, and holds that quantity. |
| Reconciler.StaleTokenRejected | includes/class-wc-quick-buy-table.php:142-150 | A token issued for {101: 2} is refused once the cart holds 3 of product 101, and the cart is left as it is. |
| Reconciler.ZeroEntryIsNotAbsent | includes/class-wc-quick-buy-table.php:804-814 | A token listing {101: 2, 102: 0} is refused against a cart holding only 2 of product 101. |
| Client.NormalizeQuantityJs | assets/js/quick-buy-table.js:39-51 | An unreadable, zero or negative value gives 0. A positive value is never lowered. |
| Client.ClientMatchesServer | assets/js/quick-buy-table.js:39-51 | For a step written as a number and a value in plain decimal text, the browser's normaliser gives what the server's gives for the same text. |
| Client.ClientValueIsServerFixed | assets/js/quick-buy-table.js:114-121 | The value the browser writes into a field passes the server's normalisation unchanged. |
| Client.DataStep | assets/js/quick-buy-table.js:98 | The step read from the page is never 0. A missing, unreadable or zero step counts as 1, and any other step is used as read. |
| Client.CurrentValue | assets/js/quick-buy-table.js:99 | An unreadable field value counts as 0, any other as read. |
| Client.PlusClick | assets/js/quick-buy-table.js:94-102 | The plus button adds exactly the step to the current value. |
| Client.MinusClick | assets/js/quick-buy-table.js:104-112 | The minus button never goes below 0. It subtracts the step, or gives 0 when that would be negative. |
| Client.MinusUndoesPlus | assets/js/quick-buy-table.js:94-112 | With a positive step and a value that is not negative, minus after plus restores the value. |
| Client.SummaryTotal | assets/js/quick-buy-table.js:72-84 | The summary's quantity total is the sum over the rows that have a field of each field's value, unreadable ones counted as 0. |

## Left out

- Hook registration, the singleton, the shortcode's HTML, assets and localised strings: templating and plumbing with no logic to prove.
- Login and checkout redirects, `get_current_form_url`, notices, the nonce check, `exit` and `wc_load_cart`: HTTP and I/O. A rejection is the `Rejected` outcome rather than a redirect.
- `wp_hash` and `hash_equals`: the hash is a function parameter and the comparison is equality. Nothing is claimed about collisions; only the hashed messages of different users are shown to differ.
- Codec.HashCartState: states nothing beyond applying the hash to `Codec.HashMessage`, since the hash is a parameter.
- The base64 layer of the token: a reversible re-encoding of the JSON text, so the payload is the JSON text itself.
- JSON beyond what `wp_json_encode` writes for an int-keyed array of ints: the decoder accepts `[]`, `{}`, objects of `"int":int` members and a bare integer, with JSON's ban on leading zeros in numbers. Valid JSON outside that subset (whitespace, lists, fractions, other keys or values) counts as not decodable here, although `json_decode` accepts it; the encoder never writes such text.
- Codec.DecodeCartState: object keys are read with `(int)` whatever their spelling, and an id given twice keeps its last value. PHP's `json_decode` keeps a key spelled "01" apart from "1" and overwrites a repeated key in its first position, so `{"1":2,"01":3,"1":4}` gives {1: 3} in PHP and {1: 4} here. The encoder never repeats an id, so only a forged tag reaches such text. A JSON list of values (keys 0, 1, …) is not modelled.
- Floating-point prices: the display price is an exact `real` compared with 20. `formatPrice`, the row subtotals and the summary's amount are left out.
- PHP numeric strings with exponents or fractions, 64-bit saturation of `(int)`, and JavaScript's loss of precision above 2^53: integers are unbounded.
- Text.ParseLeadingInt: only ASCII whitespace is skipped before the number.
- `wc_clean`, `sanitize_text_field` and `wp_unslash` on the posted values: taken as already applied.
- WooCommerce's `add_to_cart` validation and merging: adding a line always succeeds and appends one line. A variable parent posted without a variation is added as a plain line.
- WooCommerce cart item keys: a line is addressed by its position, and the key the code tests is always truthy.
- Reconciler.ApplyReachesRequested: requires a cart with one line per id; with several lines for an id only the first is set, as `CartUpdate.UpdateTargetTotal` states.
- Reconciler.AppliedSnapshot: requires a cart with one line per id; with several lines for an id the snapshot holds the sum of the set line and the untouched ones.
- Client.ClientMatchesServer: PHP's `(int)` reads exponent notation ("1e3" gives 1000) and the two casts treat non-ASCII whitespace differently, while `parseInt` stops at `e`; both are read by one model here, so agreement is stated only for plain decimal text.
- CartUpdate.UpdateSetsTarget: requires a cart with at most one line per id, which WooCommerce's merging of equal items keeps; a cart with two lines for one id is not covered.
- Reconciler.FreshTokenAccepted: requires non-negative line quantities, since the encoder clamps negatives to 0 and the clamped token would not match the live snapshot.
- `get_products_for_current_user` and `get_product_ids_from_current_user`: user meta and ACF lookups, which are foreign calls. Only the cleaning they share with the merge (`Wishlist.CleanIds`) is modelled.
- `group_products_by_category`: the groups are taken as input. Its grouping in first-seen order and its `usort` and `uasort` are not modelled.
- PHP array order in the quantities map: it is read only by key, so it is a map. The cart-only product map is also a map here, although its insertion order decides the order in which `group_products_by_category` meets products; that order matters only to the grouping, which is left out.
- Listing.SortRows: on PHP 7.4, which the plugin still supports, `usort` is not stable, so the order of rows whose names tie (two variations of one parent, say) is unspecified there; the model fixes PHP 8's stable order.
- Listing.ElevateCartProductsGroup: a `Group` always has a note and a cart flag, so the defaults it gives a group missing `note` or `is_cart` are not modelled.
- DOM and jQuery event wiring, and `updateRow`'s price arithmetic.
