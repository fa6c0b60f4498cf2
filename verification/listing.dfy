/** The helpers that shape the order-list table: whether a product is in
    the cart and with what quantity (`product_is_in_cart`,
    `get_cart_quantity_for_product`), the cart products missing from the
    configured list (`get_cart_products_not_in_list`), a product's primary
    category (`get_primary_term`) and the move of in-cart rows into a
    leading cart group (`elevate_cart_products_group`). */
module Listing {
  import opened Maybe
  import opened Products
  import opened Snapshot

  // ---------------------------------------------------------------------
  // Cart membership and quantity of a listed product

  /** Some child of a variable product has a positive cart quantity. */
  predicate SomeChildInCart(children: seq<int>, cq: map<int, int>) {
    exists i :: 0 <= i < |children| && children[i] in cq && cq[children[i]] > 0
  }

  /** `product_is_in_cart`: the product's own id has a positive quantity,
      or, for a variable product, one of its children's ids has. */
  function ProductIsInCart(p: Product, cq: map<int, int>): (b: bool)
    ensures b <==> (p.id in cq && cq[p.id] > 0) || (p.kind == Variable && SomeChildInCart(p.children, cq))
  {
    if p.id in cq && cq[p.id] > 0 then true
    else p.kind == Variable && ChildInCart(p.children, cq)
  }

  /** The loop over `get_children()` in `product_is_in_cart`. */
  function ChildInCart(children: seq<int>, cq: map<int, int>): (b: bool)
    ensures b <==> SomeChildInCart(children, cq)
  {
    if |children| == 0 then false
    else if children[0] in cq && cq[children[0]] > 0 then true
    else
      SomeChildInCartCons(children, cq);
      ChildInCart(children[1..], cq)
  }

  lemma SomeChildInCartCons(children: seq<int>, cq: map<int, int>)
    requires |children| > 0
    ensures SomeChildInCart(children, cq) <==>
      (children[0] in cq && cq[children[0]] > 0) || SomeChildInCart(children[1..], cq)
  {
    if SomeChildInCart(children, cq) && !(children[0] in cq && cq[children[0]] > 0) {
      var i :| 0 <= i < |children| && children[i] in cq && cq[children[i]] > 0;
      assert children[1..][i - 1] == children[i];
    }
    if SomeChildInCart(children[1..], cq) {
      var i :| 0 <= i < |children[1..]| && children[1..][i] in cq && cq[children[1..][i]] > 0;
      assert children[i + 1] == children[1..][i];
    }
  }

  /** Sum of the cart quantities of the children that have one (each
      listed child counted as often as it is listed). */
  function ChildrenQuantity(children: seq<int>, cq: map<int, int>): int {
    if |children| == 0 then 0
    else (if children[0] in cq then cq[children[0]] else 0) + ChildrenQuantity(children[1..], cq)
  }

  /** `get_cart_quantity_for_product`: the product's own entry when it has
      one (whatever its value), else for a variable product the sum over
      its children, else 0. */
  function CartQuantityForProduct(p: Product, cq: map<int, int>): (q: int)
    ensures p.id in cq ==> q == cq[p.id]
    ensures p.id !in cq && p.kind != Variable ==> q == 0
    ensures p.id !in cq && p.kind == Variable ==> q == ChildrenQuantity(p.children, cq)
  {
    if p.id in cq then cq[p.id]
    else if p.kind == Variable then ChildrenQuantity(p.children, cq)
    else 0
  }

  /** All recorded quantities are positive, as in a cart whose lines all
      hold a positive quantity. */
  predicate AllPositive(cq: map<int, int>) {
    forall k :: k in cq ==> cq[k] > 0
  }

  lemma {:induction false} ChildrenQuantityPositive(children: seq<int>, cq: map<int, int>)
    requires AllPositive(cq)
    ensures ChildrenQuantity(children, cq) >= 0
    ensures ChildrenQuantity(children, cq) > 0 <==> SomeChildInCart(children, cq)
  {
    if |children| > 0 {
      ChildrenQuantityPositive(children[1..], cq);
      SomeChildInCartCons(children, cq);
      var c := children[0];
      assert c in cq ==> cq[c] > 0;
    }
  }

  /** With positive cart quantities the two helpers agree: a product is
      shown as in the cart exactly when its shown cart quantity is positive. */
  lemma InCartIffPositiveQuantity(p: Product, cq: map<int, int>)
    requires AllPositive(cq)
    ensures ProductIsInCart(p, cq) <==> CartQuantityForProduct(p, cq) > 0
  {
    ChildrenQuantityPositive(p.children, cq);
  }

  // ---------------------------------------------------------------------
  // Cart products that are not in the configured list

  /** `$existing_lookup`: the listed ids as a set. */
  function ExistingLookup(existingIds: seq<int>): (s: set<int>)
    ensures forall x :: x in s <==> x in existingIds
  {
    set x | x in existingIds
  }

  /** A line whose product object is present, not in the list, and whose id
      has a non-empty (non-zero) cart quantity. */
  predicate Qualifies(line: CartLine, existing: set<int>, cq: map<int, int>) {
    line.data.Some? && line.data.value.id !in existing
    && line.data.value.id in cq && cq[line.data.value.id] != 0
  }

  /** The cart loop of `get_cart_products_not_in_list` over a list of lines:
      a later line with the same product id replaces the earlier one. */
  function NotInListOfLines(lines: seq<CartLine>, existing: set<int>, cq: map<int, int>): (r: map<int, Product>)
    ensures forall k :: k in r <==> exists i :: 0 <= i < |lines| && Qualifies(lines[i], existing, cq) && lines[i].data.value.id == k
    ensures forall k :: k in r ==> r[k].id == k && exists i :: 0 <= i < |lines| && lines[i].data == Some(r[k])
  {
    if |lines| == 0 then map[]
    else
      var init := lines[..|lines| - 1];
      var last := lines[|lines| - 1];
      var m := NotInListOfLines(init, existing, cq);
      assert forall i :: 0 <= i < |init| ==> init[i] == lines[i];
      if Qualifies(last, existing, cq) then m[last.data.value.id := last.data.value] else m
  }

  /** `get_cart_products_not_in_list`: ids listed already (cast to int) are
      skipped, and an absent cart gives none. */
  function CartProductsNotInList(existingIds: seq<int>, cq: map<int, int>, cart: Cart): (r: map<int, Product>)
    ensures cart.None? ==> r == map[]
    ensures forall k :: k in r ==> k !in existingIds && k in cq && cq[k] != 0 && r[k].id == k
    ensures cart.Some? ==> forall k :: k in r <==>
      exists i :: 0 <= i < |cart.value| && Qualifies(cart.value[i], ExistingLookup(existingIds), cq) && cart.value[i].data.value.id == k
  {
    match cart
    case None => map[]
    case Some(lines) => NotInListOfLines(lines, ExistingLookup(existingIds), cq)
  }

  /** Each line's product object is the product the line is counted under. */
  predicate DataMatchesLines(lines: seq<CartLine>) {
    forall i :: 0 <= i < |lines| ==> lines[i].data.Some? ==> lines[i].data.value.id == EffectiveId(lines[i])
  }

  /** Against the live cart's own quantities (all positive), the products
      returned are exactly those of the lines whose product object is known
      and whose id is not in the list. */
  lemma NotInListOfCart(existingIds: seq<int>, lines: seq<CartLine>)
    requires DataMatchesLines(lines)
    requires forall i :: 0 <= i < |lines| ==> lines[i].quantity > 0
    ensures var r := CartProductsNotInList(existingIds, CartQuantities(Some(lines)), Some(lines));
      forall k :: k in r <==> k !in existingIds && exists i :: 0 <= i < |lines| && lines[i].data.Some? && EffectiveId(lines[i]) == k
  {
    var cq := CartQuantities(Some(lines));
    forall i | 0 <= i < |lines| && lines[i].data.Some? && lines[i].data.value.id !in existingIds
      ensures Qualifies(lines[i], ExistingLookup(existingIds), cq)
    {
      var k := EffectiveId(lines[i]);
      assert HasLine(lines, k);
      QuantityOfPositive(lines, i);
    }
  }

  lemma {:induction false} QuantityOfPositive(lines: seq<CartLine>, i: nat)
    requires i < |lines|
    requires forall j :: 0 <= j < |lines| ==> lines[j].quantity > 0
    ensures QuantityOf(lines, EffectiveId(lines[i])) > 0
  {
    var init := lines[..|lines| - 1];
    assert forall j :: 0 <= j < |init| ==> init[j] == lines[j];
    QuantityOfNonNegative(init, EffectiveId(lines[i]));
    if i < |lines| - 1 {
      QuantityOfPositive(init, i);
    }
  }

  // ---------------------------------------------------------------------
  // Primary category

  /** A category term: id, name and, when set, its term group. */
  datatype Term = Term(termId: int, name: string, termGroup: Option<int>)

  /** `get_primary_term`: the first term in group 0, else the first term;
      None (PHP's `false` from `reset`) for an empty list. */
  function PrimaryTerm(terms: seq<Term>): (r: Option<Term>)
    ensures r.None? <==> |terms| == 0
    ensures r.Some? ==> r.value in terms
    ensures (exists i :: 0 <= i < |terms| && terms[i].termGroup == Some(0)) ==>
      r.Some? && r.value.termGroup == Some(0)
      && exists i :: 0 <= i < |terms| && terms[i] == r.value && forall j :: 0 <= j < i ==> terms[j].termGroup != Some(0)
    ensures (forall i :: 0 <= i < |terms| ==> terms[i].termGroup != Some(0)) && |terms| > 0 ==> r == Some(terms[0])
  {
    if |terms| == 0 then None
    else
      match FirstInGroupZero(terms)
      case Some(i) => Some(terms[i])
      case None => Some(terms[0])
  }

  /** The position of the first term whose group is 0. */
  function FirstInGroupZero(terms: seq<Term>): (r: Option<nat>)
    ensures r.None? <==> forall i :: 0 <= i < |terms| ==> terms[i].termGroup != Some(0)
    ensures r.Some? ==> r.value < |terms| && terms[r.value].termGroup == Some(0)
    ensures r.Some? ==> forall j :: 0 <= j < r.value ==> terms[j].termGroup != Some(0)
  {
    if |terms| == 0 then None
    else if terms[0].termGroup == Some(0) then Some(0)
    else
      assert forall j :: 1 <= j < |terms| ==> terms[j] == terms[1..][j - 1];
      match FirstInGroupZero(terms[1..])
      case None => None
      case Some(i) => Some(i + 1)
  }

  // ---------------------------------------------------------------------
  // Case-insensitive name order (`strcasecmp`)

  /** ASCII lower-casing, as `strcasecmp` folds bytes. */
  function Lower(c: char): char {
    if 'A' <= c <= 'Z' then (c as int + 32) as char else c
  }

  /** `strcasecmp(a, b) <= 0`: a is at most b, comparing case-folded
      characters left to right, a proper prefix first. */
  predicate NameLeq(a: string, b: string) {
    if |a| == 0 then true
    else if |b| == 0 then false
    else if Lower(a[0]) != Lower(b[0]) then Lower(a[0]) < Lower(b[0])
    else NameLeq(a[1..], b[1..])
  }

  lemma {:induction false} NameLeqTotal(a: string, b: string)
    ensures NameLeq(a, b) || NameLeq(b, a)
  {
    if |a| > 0 && |b| > 0 && Lower(a[0]) == Lower(b[0]) {
      NameLeqTotal(a[1..], b[1..]);
    }
  }

  // ---------------------------------------------------------------------
  // Groups of rows and the cart group

  /** One product row: the product id, the display name the rows are sorted
      by, whether it is in the cart, its cart quantity and step. */
  datatype Row = Row(productId: int, name: string, inCart: bool, cartQuantity: int, step: nat)

  /** A category group as `group_products_by_category` builds it. */
  datatype Group = Group(title: string, note: string, rows: seq<Row>, isCart: bool)

  /** Adjacent rows are in name order. */
  predicate SortedByName(rows: seq<Row>) {
    forall i :: 0 < i < |rows| ==> NameLeq(rows[i - 1].name, rows[i].name)
  }

  /** Insert a row before the first row whose name is not below it. */
  function InsertRow(x: Row, rows: seq<Row>): (r: seq<Row>)
    requires SortedByName(rows)
    ensures SortedByName(r)
    ensures multiset(r) == multiset(rows) + multiset{x}
    ensures |r| > 0 && (r[0] == x || (|rows| > 0 && r[0] == rows[0]))
  {
    if |rows| == 0 || NameLeq(x.name, rows[0].name) then [x] + rows
    else
      NameLeqTotal(x.name, rows[0].name);
      var t := InsertRow(x, rows[1..]);
      assert rows == [rows[0]] + rows[1..];
      [rows[0]] + t
  }

  /** `usort` with `strcasecmp` on the display names: the rows in name
      order, and rows whose names compare equal keep their input order, as
      PHP 8's `usort` leaves them. */
  function SortRows(rows: seq<Row>): (r: seq<Row>)
    ensures SortedByName(r)
    ensures multiset(r) == multiset(rows)
    ensures forall key :: SameName(r, key) == SameName(rows, key)
  {
    if |rows| == 0 then []
    else
      assert rows == [rows[0]] + rows[1..];
      var t := SortRows(rows[1..]);
      forall key
        ensures SameName(InsertRow(rows[0], t), key) == SameName(rows, key)
      {
        InsertRowSame(rows[0], t, key);
      }
      InsertRow(rows[0], t)
  }

  /** The names compare equal under `strcasecmp`. */
  predicate NameEq(a: string, b: string) {
    NameLeq(a, b) && NameLeq(b, a)
  }

  /** The rows whose names compare equal to key, in order. */
  function SameName(rows: seq<Row>, key: string): seq<Row> {
    if |rows| == 0 then []
    else (if NameEq(rows[0].name, key) then [rows[0]] else []) + SameName(rows[1..], key)
  }

  lemma {:induction false} NameLeqTrans(a: string, b: string, c: string)
    requires NameLeq(a, b) && NameLeq(b, c)
    ensures NameLeq(a, c)
  {
    if |a| > 0 && |b| > 0 && |c| > 0 && Lower(a[0]) == Lower(b[0]) == Lower(c[0]) {
      NameLeqTrans(a[1..], b[1..], c[1..]);
    }
  }

  /** Inserting x puts it after every row with an equal name. */
  lemma {:induction false} InsertRowSame(x: Row, rows: seq<Row>, key: string)
    requires SortedByName(rows)
    ensures SameName(InsertRow(x, rows), key)
      == (if NameEq(x.name, key) then [x] else []) + SameName(rows, key)
  {
    if |rows| == 0 || NameLeq(x.name, rows[0].name) {
      SameNameCons(x, rows, key);
    } else {
      var h, rest := rows[0], rows[1..];
      var t := InsertRow(x, rest);
      assert InsertRow(x, rows) == [h] + t;
      assert rows == [h] + rest;
      InsertRowSame(x, rest, key);
      SameNameCons(h, t, key);
      SameNameCons(h, rest, key);
      if NameEq(x.name, key) && NameEq(h.name, key) {
        NameLeqTrans(x.name, key, h.name);
        assert false;
      }
    }
  }

  lemma SameNameCons(h: Row, t: seq<Row>, key: string)
    ensures SameName([h] + t, key) == (if NameEq(h.name, key) then [h] else []) + SameName(t, key)
  {
    assert ([h] + t)[1..] == t;
  }

  /** The rows of `rows` whose in-cart flag is `inCart`, in order. */
  function RowsWhere(rows: seq<Row>, inCart: bool): (r: seq<Row>)
    ensures forall i :: 0 <= i < |r| ==> r[i].inCart == inCart
    ensures |r| <= |rows|
  {
    if |rows| == 0 then []
    else (if rows[0].inCart == inCart then [rows[0]] else []) + RowsWhere(rows[1..], inCart)
  }

  lemma {:induction false} RowsWhereSplit(rows: seq<Row>)
    ensures multiset(RowsWhere(rows, true)) + multiset(RowsWhere(rows, false)) == multiset(rows)
  {
    if |rows| > 0 {
      var h, t := rows[0], rows[1..];
      RowsWhereSplit(t);
      assert rows == [h] + t;
      assert multiset(rows) == multiset{h} + multiset(t);
      if h.inCart {
        assert RowsWhere(rows, true) == [h] + RowsWhere(t, true);
        assert RowsWhere(rows, false) == RowsWhere(t, false);
      } else {
        assert RowsWhere(rows, true) == RowsWhere(t, true);
        assert RowsWhere(rows, false) == [h] + RowsWhere(t, false);
      }
    }
  }

  lemma {:induction false} RowsWhereConcat(a: seq<Row>, b: seq<Row>, inCart: bool)
    ensures RowsWhere(a + b, inCart) == RowsWhere(a, inCart) + RowsWhere(b, inCart)
  {
    if |a| > 0 {
      assert (a + b)[1..] == a[1..] + b;
      RowsWhereConcat(a[1..], b, inCart);
    } else {
      assert a + b == b;
    }
  }

  /** All rows of the groups, group after group. */
  function Flatten(groups: seq<Group>): seq<Row> {
    if |groups| == 0 then [] else groups[0].rows + Flatten(groups[1..])
  }

  /** The in-cart rows collected by the first loop, in order. */
  function CartRows(groups: seq<Group>): (r: seq<Row>)
    ensures r == RowsWhere(Flatten(groups), true)
  {
    if |groups| == 0 then []
    else
      RowsWhereConcat(groups[0].rows, Flatten(groups[1..]), true);
      RowsWhere(groups[0].rows, true) + CartRows(groups[1..])
  }

  /** A group the second loop keeps: it has rows, none of them in the cart. */
  predicate KeptGroup(g: Group) {
    g.rows != [] && forall j :: 0 <= j < |g.rows| ==> !g.rows[j].inCart
  }

  lemma FlattenCons(g: Group, rest: seq<Group>)
    ensures Flatten([g] + rest) == g.rows + Flatten(rest)
  {
    assert ([g] + rest)[1..] == rest;
  }

  /** A group with its in-cart rows taken out. */
  function Kept(g: Group): Group {
    g.(rows := RowsWhere(g.rows, false))
  }

  /** The positions from lo on, in increasing order, of the groups that
      still have a row once their in-cart rows are taken out. */
  function KeptFrom(groups: seq<Group>, lo: nat): (ks: seq<nat>)
    requires lo <= |groups|
    ensures forall i :: 0 <= i < |ks| ==> lo <= ks[i] < |groups| && Kept(groups[ks[i]]).rows != []
    ensures forall i, j :: 0 <= i < j < |ks| ==> ks[i] < ks[j]
    ensures forall k :: lo <= k < |groups| && Kept(groups[k]).rows != [] ==> k in ks
    decreases |groups| - lo
  {
    if lo == |groups| then []
    else
      var t := KeptFrom(groups, lo + 1);
      if Kept(groups[lo]).rows == [] then t else [lo] + t
  }

  /** The second loop from group lo on. */
  function RemainingFrom(groups: seq<Group>, lo: nat): (r: seq<Group>)
    requires lo <= |groups|
    ensures Flatten(r) == RowsWhere(Flatten(groups[lo..]), false)
    ensures forall i :: 0 <= i < |r| ==> KeptGroup(r[i])
    ensures |r| == |KeptFrom(groups, lo)|
    ensures forall i :: 0 <= i < |r| ==> r[i] == Kept(groups[KeptFrom(groups, lo)[i]])
    decreases |groups| - lo
  {
    if lo == |groups| then []
    else
      var g := groups[lo];
      var rest := RemainingFrom(groups, lo + 1);
      FlattenStep(groups, lo, rest);
      KeptStep(groups, lo, rest);
      if Kept(g).rows == [] then rest else [Kept(g)] + rest
  }

  lemma FlattenStep(groups: seq<Group>, lo: nat, rest: seq<Group>)
    requires lo < |groups|
    requires Flatten(rest) == RowsWhere(Flatten(groups[lo + 1..]), false)
    ensures var r := if Kept(groups[lo]).rows == [] then rest else [Kept(groups[lo])] + rest;
      Flatten(r) == RowsWhere(Flatten(groups[lo..]), false)
  {
    var g := groups[lo];
    assert groups[lo..] == [g] + groups[lo + 1..];
    FlattenCons(g, groups[lo + 1..]);
    RowsWhereConcat(g.rows, Flatten(groups[lo + 1..]), false);
    FlattenCons(Kept(g), rest);
  }

  lemma KeptStep(groups: seq<Group>, lo: nat, rest: seq<Group>)
    requires lo < |groups|
    requires |rest| == |KeptFrom(groups, lo + 1)|
    requires forall i :: 0 <= i < |rest| ==> rest[i] == Kept(groups[KeptFrom(groups, lo + 1)[i]])
    ensures var r := if Kept(groups[lo]).rows == [] then rest else [Kept(groups[lo])] + rest;
      |r| == |KeptFrom(groups, lo)| && forall i :: 0 <= i < |r| ==> r[i] == Kept(groups[KeptFrom(groups, lo)[i]])
  {
    var t := KeptFrom(groups, lo + 1);
    if Kept(groups[lo]).rows != [] {
      var r := [Kept(groups[lo])] + rest;
      assert KeptFrom(groups, lo) == [lo] + t;
      forall i | 0 <= i < |r|
        ensures r[i] == Kept(groups[KeptFrom(groups, lo)[i]])
      {
        if i > 0 {
          assert r[i] == rest[i - 1];
        }
      }
    }
  }

  /** The groups the second loop keeps: each group with only its rows not
      in the cart, in the order given, exactly the groups left with a row. */
  function Remaining(groups: seq<Group>): (r: seq<Group>)
    ensures Flatten(r) == RowsWhere(Flatten(groups), false)
    ensures forall i :: 0 <= i < |r| ==> KeptGroup(r[i])
    ensures |r| == |KeptFrom(groups, 0)| <= |groups|
    ensures forall i :: 0 <= i < |r| ==> r[i] == Kept(groups[KeptFrom(groups, 0)[i]])
  {
    assert groups[0..] == groups;
    KeptFromBound(groups, 0);
    RemainingFrom(groups, 0)
  }

  lemma {:induction false} KeptFromBound(groups: seq<Group>, lo: nat)
    requires lo <= |groups|
    ensures |KeptFrom(groups, lo)| <= |groups| - lo
    decreases |groups| - lo
  {
    if lo < |groups| {
      KeptFromBound(groups, lo + 1);
    }
  }

  /** `elevate_cart_products_group`: the in-cart rows, sorted by name, form
      a leading group with the given title and note flagged as the cart
      group; the other groups follow with their in-cart rows removed, empty
      ones dropped. When there is nothing to show the groups are returned
      as they came. */
  function ElevateCartProductsGroup(groups: seq<Group>, cartTitle: string, cartNote: string): (r: seq<Group>)
    ensures multiset(Flatten(r)) == multiset(Flatten(groups))
    ensures CartRows(groups) != [] ==>
      |r| > 0 && r[0].isCart && r[0].title == cartTitle && r[0].note == cartNote
      && SortedByName(r[0].rows) && multiset(r[0].rows) == multiset(CartRows(groups))
      && r[1..] == Remaining(groups)
    ensures CartRows(groups) == [] && Remaining(groups) != [] ==> r == Remaining(groups)
    ensures CartRows(groups) == [] && Remaining(groups) == [] ==> r == groups
  {
    var cart := CartRows(groups);
    var rest := Remaining(groups);
    RowsWhereSplit(Flatten(groups));
    var ordered := (if cart == [] then [] else [Group(cartTitle, cartNote, SortRows(cart), true)]) + rest;
    if ordered == [] then groups
    else
      assert cart != [] ==> ordered[1..] == rest && Flatten(ordered) == SortRows(cart) + Flatten(rest);
      assert cart == [] ==> ordered == rest;
      ordered
  }
}
