/** The form submission (`maybe_process_form_submission`, the part after
    the nonce check): the snapshot token posted with the form is decoded and
    compared with the live cart; when they differ nothing is changed and the
    shopper is sent back to the list, otherwise every posted quantity is
    normalised and applied to the cart, and the products ordered are added
    to the shopper's order list. */
module Reconciler {
  import opened Maybe
  import opened Text
  import opened Products
  import opened Snapshot
  import opened Codec
  import opened Quantity
  import opened CartUpdate
  import opened Wishlist

  /** One entry of `$_POST['quantities']`: the posted key (a product id as
      text) and the posted quantity text. */
  datatype RequestItem = RequestItem(key: string, rawQuantity: string)

  /** The request key as a product id (`absint`). */
  function RequestedId(item: RequestItem): nat {
    AbsInt(item.key)
  }

  /** An item the loop acts on: a non-zero id that names a product. */
  predicate IsApplicable(item: RequestItem, catalog: Catalog) {
    RequestedId(item) != 0 && RequestedId(item) in catalog
  }

  /** The normalised quantity of an applicable item. */
  function ItemQuantity(item: RequestItem, catalog: Catalog): nat
    requires IsApplicable(item, catalog)
  {
    QuantityForProduct(catalog[RequestedId(item)], item.rawQuantity)
  }

  /** The loop's state: the cart and the ids collected for the order list. */
  datatype ApplyState = ApplyState(cart: Cart, listed: seq<int>)

  /** One pass of the loop: skip the item when its id is 0 or names no
      product; otherwise set the product's normalised quantity in the cart
      and, when it is positive, collect the product's id. */
  function ApplyItem(st: ApplyState, catalog: Catalog, item: RequestItem): (r: ApplyState)
    ensures !IsApplicable(item, catalog) ==> r == st
    ensures IsApplicable(item, catalog) ==>
      var p := catalog[RequestedId(item)];
      var q := ItemQuantity(item, catalog);
      r.cart == UpdateCartQuantity(st.cart, p, q)
      && r.listed == (if q > 0 then st.listed + [p.id] else st.listed)
  {
    var id := RequestedId(item);
    if id == 0 || id !in catalog then st
    else
      var p := catalog[id];
      var q := QuantityForProduct(p, item.rawQuantity);
      var cart := UpdateCartQuantity(st.cart, p, q);
      ApplyState(cart, if q > 0 then st.listed + [p.id] else st.listed)
  }

  /** The item is applicable and orders product x with a positive quantity. */
  predicate Orders(item: RequestItem, catalog: Catalog, x: int) {
    IsApplicable(item, catalog) && catalog[RequestedId(item)].id == x && ItemQuantity(item, catalog) > 0
  }

  /** Some item orders product x. */
  predicate OrderedBy(items: seq<RequestItem>, catalog: Catalog, x: int) {
    exists i :: 0 <= i < |items| && Orders(items[i], catalog, x)
  }

  /** The loop over all posted items, in order. The ids collected are those
      of the products ordered with a positive quantity. */
  function ApplyItems(st: ApplyState, catalog: Catalog, items: seq<RequestItem>): (r: ApplyState)
    ensures r.cart.None? <==> st.cart.None?
    ensures |st.listed| <= |r.listed| <= |st.listed| + |items|
    ensures r.listed[..|st.listed|] == st.listed
    decreases |items|
  {
    if |items| == 0 then st
    else ApplyItems(ApplyItem(st, catalog, items[0]), catalog, items[1..])
  }

  /** The ids the loop collects are those of the products ordered with a
      positive quantity (added to the ones collected before). */
  lemma {:induction false} ListedAreOrdered(st: ApplyState, catalog: Catalog, items: seq<RequestItem>)
    ensures forall x :: x in ApplyItems(st, catalog, items).listed <==> x in st.listed || OrderedBy(items, catalog, x)
    decreases |items|
  {
    if |items| > 0 {
      OrderedByCons(items, catalog);
      ListedAreOrdered(ApplyItem(st, catalog, items[0]), catalog, items[1..]);
    }
  }

  lemma OrderedByCons(items: seq<RequestItem>, catalog: Catalog)
    requires |items| > 0
    ensures forall x :: OrderedBy(items, catalog, x) <==> Orders(items[0], catalog, x) || OrderedBy(items[1..], catalog, x)
  {
    forall x | OrderedBy(items, catalog, x) && !Orders(items[0], catalog, x)
      ensures OrderedBy(items[1..], catalog, x)
    {
      var i :| 0 <= i < |items| && Orders(items[i], catalog, x);
      assert items[1..][i - 1] == items[i];
    }
    forall x | OrderedBy(items[1..], catalog, x) ensures OrderedBy(items, catalog, x) {
      var i :| 0 <= i < |items[1..]| && Orders(items[1..][i], catalog, x);
      assert items[i + 1] == items[1..][i];
    }
  }

  lemma {:induction false} ApplyItemsConcat(st: ApplyState, catalog: Catalog, a: seq<RequestItem>, b: seq<RequestItem>)
    ensures ApplyItems(st, catalog, a + b) == ApplyItems(ApplyItems(st, catalog, a), catalog, b)
    decreases |a|
  {
    if |a| == 0 {
      assert a + b == b;
    } else {
      assert (a + b)[0] == a[0] && (a + b)[1..] == a[1..] + b;
      ApplyItemsConcat(ApplyItem(st, catalog, a[0]), catalog, a[1..], b);
    }
  }

  /** An item whose id is 0 or names no product is skipped without
      affecting the items around it. */
  lemma SkipInapplicable(st: ApplyState, catalog: Catalog, a: seq<RequestItem>, x: RequestItem, b: seq<RequestItem>)
    requires !IsApplicable(x, catalog)
    ensures ApplyItems(st, catalog, a + [x] + b) == ApplyItems(st, catalog, a + b)
  {
    ApplyItemsConcat(st, catalog, a + [x], b);
    ApplyItemsConcat(st, catalog, a, [x]);
    ApplyItemsConcat(st, catalog, a, b);
    var mid := ApplyItems(st, catalog, a);
    assert ApplyItems(mid, catalog, [x]) == ApplyItems(ApplyItem(mid, catalog, x), catalog, []);
  }

  /** The outcome of a submission: the cart left as it was and the shopper
      sent back to the list, or the cart after the updates and what happens
      to the stored order list. */
  datatype Outcome = Rejected(cart: Cart) | Applied(cart: Cart, wishlist: MetaUpdate)

  /** `maybe_process_form_submission` from the decoding of the token on:
      `payload` and `tag` are the posted `wc_qbt_cart_state` and
      `wc_qbt_cart_state_hash`, `userId` the current user, `wpHash` the
      site's keyed hash, `cart` the live cart, `catalog` what
      `wc_get_product` finds, `items` the posted quantities and
      `storedList` the stored order-list value. */
  function ProcessSubmission(payload: string, tag: string, userId: int, wpHash: string -> string,
                             cart: Cart, catalog: Catalog, items: seq<RequestItem>, storedList: string): (o: Outcome)
    ensures o.Rejected? <==> DecodeCartState(payload, tag, userId, wpHash) != CartSnapshot(cart)
    ensures o.Rejected? ==> o.cart == cart
    ensures o.Applied? ==> o.cart == ApplyItems(ApplyState(cart, []), catalog, items).cart
    ensures o.Applied? ==> o.wishlist == AddProductsToWishlist(userId, ApplyItems(ApplyState(cart, []), catalog, items).listed, storedList)
    ensures o.Applied? && cart.None? ==> o.cart.None?
  {
    var initial := DecodeCartState(payload, tag, userId, wpHash);
    var current := CartSnapshot(cart);
    if !CartStatesMatch(initial, current) then Rejected(cart)
    else
      var st := ApplyItems(ApplyState(cart, []), catalog, items);
      Applied(st.cart, AddProductsToWishlist(userId, st.listed, storedList))
  }

  /** The gate compares contents: a submission is rejected exactly when the
      decoded snapshot and the live one differ in some id or quantity. */
  lemma GateIsContentEquality(payload: string, tag: string, userId: int, wpHash: string -> string,
                              cart: Cart, catalog: Catalog, items: seq<RequestItem>, storedList: string)
    ensures ProcessSubmission(payload, tag, userId, wpHash, cart, catalog, items, storedList).Rejected?
      <==> ToMap(DecodeCartState(payload, tag, userId, wpHash)) != ToMap(CartSnapshot(cart))
  {
  }

  /** A token that does not verify is accepted exactly when the live cart
      has no positive-id line. */
  lemma UntrustedTokenAcceptedOnlyOnEmptyCart(payload: string, tag: string, userId: int, wpHash: string -> string,
                                              cart: Cart, catalog: Catalog, items: seq<RequestItem>, storedList: string)
    requires IsEmptyString(payload) || IsEmptyString(tag) || tag != HashCartState(payload, userId, wpHash)
    ensures ProcessSubmission(payload, tag, userId, wpHash, cart, catalog, items, storedList).Applied?
      <==> CartSnapshot(cart) == []
  {
    UntrustedTokenGate(payload, tag, userId, wpHash, CartSnapshot(cart));
  }

  /** A token issued for the live cart's own snapshot is accepted (the
      cart's quantities being non-negative, so that the snapshot survives
      the clamping of the encoder). */
  lemma FreshTokenAccepted(userId: int, wpHash: string -> string,
                           cart: Cart, catalog: Catalog, items: seq<RequestItem>, storedList: string)
    requires cart.Some? ==> forall i :: 0 <= i < |cart.value| ==> cart.value[i].quantity >= 0
    requires !IsEmptyString(HashCartState(EncodeCartState(CartSnapshot(cart)), userId, wpHash))
    ensures var payload := EncodeCartState(CartSnapshot(cart));
      ProcessSubmission(payload, HashCartState(payload, userId, wpHash), userId, wpHash, cart, catalog, items, storedList).Applied?
  {
    var s := CartSnapshot(cart);
    assert Normalized(s) by {
      if cart.Some? {
        forall k | k in ToMap(s) ensures ToMap(s)[k] >= 0 {
          QuantityOfNonNegative(cart.value, k);
        }
      }
    }
    CodecRoundTripNormalized(s, userId, wpHash);
  }

  // ---------------------------------------------------------------------
  // Effect of the loop on the cart

  lemma ApplyItemKeepsUniqueIds(st: ApplyState, catalog: Catalog, item: RequestItem)
    requires WellFormed(catalog)
    requires st.cart.Some? ==> UniqueIds(st.cart.value)
    ensures var r := ApplyItem(st, catalog, item);
      r.cart.Some? ==> UniqueIds(r.cart.value)
  {
    if IsApplicable(item, catalog) && st.cart.Some? {
      UpdateSetsTarget(st.cart.value, catalog[RequestedId(item)], ItemQuantity(item, catalog));
    }
  }

  /** One line per id is kept by every update. */
  lemma {:induction false} ApplyKeepsUniqueIds(st: ApplyState, catalog: Catalog, items: seq<RequestItem>)
    requires WellFormed(catalog)
    requires st.cart.Some? ==> UniqueIds(st.cart.value)
    ensures var r := ApplyItems(st, catalog, items);
      r.cart.Some? ==> UniqueIds(r.cart.value)
    decreases |items|
  {
    if |items| > 0 {
      ApplyItemKeepsUniqueIds(st, catalog, items[0]);
      ApplyKeepsUniqueIds(ApplyItem(st, catalog, items[0]), catalog, items[1..]);
    }
  }

  /** No applicable item names product x. */
  predicate NotRequested(items: seq<RequestItem>, catalog: Catalog, x: int) {
    forall i :: 0 <= i < |items| && IsApplicable(items[i], catalog) ==> catalog[RequestedId(items[i])].id != x
  }

  /** Ids no posted item names keep their lines and total quantity. */
  lemma {:induction false} ApplyKeepsUnrequested(st: ApplyState, catalog: Catalog, items: seq<RequestItem>, x: int)
    requires WellFormed(catalog) && st.cart.Some?
    requires NotRequested(items, catalog, x)
    ensures var r := ApplyItems(st, catalog, items);
      r.cart.Some?
      && QuantityOf(r.cart.value, x) == QuantityOf(st.cart.value, x)
      && (HasLine(r.cart.value, x) <==> HasLine(st.cart.value, x))
    decreases |items|
  {
    if |items| > 0 {
      var next := ApplyItem(st, catalog, items[0]);
      if IsApplicable(items[0], catalog) {
        var p := catalog[RequestedId(items[0])];
        UpdateKeepsOtherIds(st.cart.value, p, ItemQuantity(items[0], catalog), x);
      }
      assert NotRequested(items[1..], catalog, x) by {
        forall i | 0 <= i < |items[1..]| && IsApplicable(items[1..][i], catalog)
          ensures catalog[RequestedId(items[1..][i])].id != x
        {
          assert items[1..][i] == items[i + 1];
        }
      }
      ApplyKeepsUnrequested(next, catalog, items[1..], x);
    }
  }

  /** For a cart with one line per id, when item k is the last applicable
      item naming its product, the product ends with exactly the item's
      normalised quantity: present with that quantity when it is positive,
      gone when it is 0. */
  lemma ApplyReachesRequested(st: ApplyState, catalog: Catalog, items: seq<RequestItem>, k: nat)
    requires WellFormed(catalog) && st.cart.Some? && UniqueIds(st.cart.value)
    requires k < |items| && IsApplicable(items[k], catalog)
    requires NotRequested(items[k + 1..], catalog, RequestedId(items[k]))
    ensures var r := ApplyItems(st, catalog, items);
      var x := RequestedId(items[k]);
      var q := ItemQuantity(items[k], catalog);
      r.cart.Some?
      && (HasLine(r.cart.value, x) <==> q > 0)
      && (q > 0 ==> QuantityOf(r.cart.value, x) == q)
  {
    var x := RequestedId(items[k]);
    ApplyAround(st, catalog, items, k);
    var before := ApplyItems(st, catalog, items[..k]);
    ApplyKeepsUniqueIds(st, catalog, items[..k]);
    ApplyItemSetsTarget(before, catalog, items[k]);
    ApplyKeepsUnrequested(ApplyItem(before, catalog, items[k]), catalog, items[k + 1..], x);
  }

  /** One applicable item gives its product exactly its normalised quantity. */
  lemma ApplyItemSetsTarget(st: ApplyState, catalog: Catalog, item: RequestItem)
    requires WellFormed(catalog) && st.cart.Some? && UniqueIds(st.cart.value)
    requires IsApplicable(item, catalog)
    ensures var r := ApplyItem(st, catalog, item);
      var x := RequestedId(item);
      var q := ItemQuantity(item, catalog);
      r.cart.Some?
      && (HasLine(r.cart.value, x) <==> q > 0)
      && (q > 0 ==> QuantityOf(r.cart.value, x) == q)
  {
    UpdateSetsTarget(st.cart.value, catalog[RequestedId(item)], ItemQuantity(item, catalog));
  }

  /** The loop split around item k. */
  lemma ApplyAround(st: ApplyState, catalog: Catalog, items: seq<RequestItem>, k: nat)
    requires k < |items|
    ensures ApplyItems(st, catalog, items)
      == ApplyItems(ApplyItem(ApplyItems(st, catalog, items[..k]), catalog, items[k]), catalog, items[k + 1..])
  {
    assert items == items[..k] + [items[k]] + items[k + 1..];
    ApplyItemsConcat(st, catalog, items[..k] + [items[k]], items[k + 1..]);
    ApplyItemsConcat(st, catalog, items[..k], [items[k]]);
    var before := ApplyItems(st, catalog, items[..k]);
    assert ApplyItems(before, catalog, [items[k]]) == ApplyItems(ApplyItem(before, catalog, items[k]), catalog, []);
  }

  /** Stated on the snapshot: after an accepted submission, the product of
      the last item naming it is in the snapshot exactly when its normalised
      quantity is positive, with that quantity. */
  lemma AppliedSnapshot(payload: string, tag: string, userId: int, wpHash: string -> string,
                        lines: seq<CartLine>, catalog: Catalog, items: seq<RequestItem>, storedList: string, k: nat)
    requires WellFormed(catalog) && UniqueIds(lines)
    requires k < |items| && IsApplicable(items[k], catalog)
    requires NotRequested(items[k + 1..], catalog, RequestedId(items[k]))
    requires DecodeCartState(payload, tag, userId, wpHash) == CartSnapshot(Some(lines))
    ensures var o := ProcessSubmission(payload, tag, userId, wpHash, Some(lines), catalog, items, storedList);
      var x := RequestedId(items[k]);
      var q := ItemQuantity(items[k], catalog);
      o.Applied? && (x in ToMap(CartSnapshot(o.cart)) <==> q > 0)
      && (q > 0 ==> ToMap(CartSnapshot(o.cart))[x] == q)
  {
    ApplyReachesRequested(ApplyState(Some(lines), []), catalog, items, k);
  }

  // ---------------------------------------------------------------------
  // Worked cases

  /** A cart line of a simple product. */
  function SimpleLine(id: int, quantity: int): CartLine {
    CartLine(id, 0, quantity, map[], None)
  }

  /** A token issued for {101: 2} is refused once the cart holds 3 of 101. */
  lemma StaleTokenRejected(userId: int, wpHash: string -> string, catalog: Catalog, items: seq<RequestItem>, storedList: string)
    requires !IsEmptyString(HashCartState(EncodeCartState([Entry(101, 2)]), userId, wpHash))
    ensures var payload := EncodeCartState([Entry(101, 2)]);
      ProcessSubmission(payload, HashCartState(payload, userId, wpHash), userId, wpHash,
        Some([SimpleLine(101, 3)]), catalog, items, storedList) == Rejected(Some([SimpleLine(101, 3)]))
  {
    var s := [Entry(101, 2)];
    assert Normalized(s);
    CodecRoundTripNormalized(s, userId, wpHash);
    SnapshotOfOneLine(101, 3);
  }

  /** A token that lists a product with quantity 0 is refused against a cart
      without that product: the gate compares exactly, so {101: 2, 102: 0}
      does not match {101: 2}. */
  lemma ZeroEntryIsNotAbsent(userId: int, wpHash: string -> string, catalog: Catalog, items: seq<RequestItem>, storedList: string)
    requires !IsEmptyString(HashCartState(EncodeCartState([Entry(101, 2), Entry(102, 0)]), userId, wpHash))
    ensures var payload := EncodeCartState([Entry(101, 2), Entry(102, 0)]);
      ProcessSubmission(payload, HashCartState(payload, userId, wpHash), userId, wpHash,
        Some([SimpleLine(101, 2)]), catalog, items, storedList).Rejected?
  {
    var s := [Entry(101, 2), Entry(102, 0)];
    assert Normalized(s);
    SnapshotOfOneLine(101, 2);
    assert s != [Entry(101, 2)];
    RejectedOnOtherSnapshot(s, userId, wpHash, Some([SimpleLine(101, 2)]), catalog, items, storedList);
  }

  lemma RejectedOnOtherSnapshot(s: seq<Entry>, userId: int, wpHash: string -> string,
                                cart: Cart, catalog: Catalog, items: seq<RequestItem>, storedList: string)
    requires Normalized(s) && s != CartSnapshot(cart)
    requires !IsEmptyString(HashCartState(EncodeCartState(s), userId, wpHash))
    ensures var payload := EncodeCartState(s);
      ProcessSubmission(payload, HashCartState(payload, userId, wpHash), userId, wpHash, cart, catalog, items, storedList).Rejected?
  {
    CodecRoundTripNormalized(s, userId, wpHash);
  }

  lemma SnapshotOfOneLine(id: int, quantity: int)
    requires id > 0
    ensures CartSnapshot(Some([SimpleLine(id, quantity)])) == [Entry(id, quantity)]
  {
    var lines := [SimpleLine(id, quantity)];
    assert lines[..0] == [];
    assert SnapshotOfLines(lines[..0]) == [];
  }
}
