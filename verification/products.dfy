/** The catalog and cart records the plugin reads through WooCommerce:
    products (simple, variable parents and their variations), the catalog as
    a partial map from id to product, and the live cart as a sequence of lines. */
module Products {
  import opened Maybe

  /** `is_type('variation')` and `is_type('variable')`; every other product
      type behaves as Simple here. */
  datatype Kind = Simple | Variable | Variation

  /** A product as the code uses it: its id, type, parent (for variations),
      children (for variable products), display price and the variation
      attributes passed to `add_to_cart`. */
  datatype Product = Product(
    id: int,
    kind: Kind,
    parentId: int,
    children: seq<int>,
    displayPrice: real,
    attributes: map<string, string>)

  /** `wc_get_product`: a partial map from id to product. */
  type Catalog = map<int, Product>

  /** What `wc_get_product` promises: every product is filed under its own,
      positive id. */
  ghost predicate WellFormed(catalog: Catalog) {
    forall id :: id in catalog ==> catalog[id].id == id && id > 0
  }

  /** One entry of `WC()->cart->get_cart()`: product and variation id (0
      when none), quantity, variation attributes and the product object
      stored under 'data'. Cart item keys are represented by position. */
  datatype CartLine = CartLine(
    productId: int,
    variationId: int,
    quantity: int,
    variation: map<string, string>,
    data: Option<Product>)

  /** `WC()->cart`, which may be absent (None). */
  type Cart = Option<seq<CartLine>>

  /** The id a line is counted under: the variation id when it is non-empty
      (PHP `empty` treats 0 as empty), else the product id. */
  function EffectiveId(line: CartLine): int {
    if line.variationId != 0 then line.variationId else line.productId
  }

  /** Some line of the cart is counted under `id`. */
  predicate HasLine(lines: seq<CartLine>, id: int) {
    exists i :: 0 <= i < |lines| && EffectiveId(lines[i]) == id
  }

  /** At most one line per effective id: what WooCommerce's add-to-cart keeps
      for lines without extra cart-item data. */
  predicate UniqueIds(lines: seq<CartLine>) {
    forall i, j :: 0 <= i < |lines| && 0 <= j < |lines| && EffectiveId(lines[i]) == EffectiveId(lines[j]) ==> i == j
  }

  /** The total quantity of the lines counted under `id`. */
  function QuantityOf(lines: seq<CartLine>, id: int): int {
    if |lines| == 0 then 0
    else
      var last := lines[|lines| - 1];
      QuantityOf(lines[..|lines| - 1], id) + (if EffectiveId(last) == id then last.quantity else 0)
  }

  lemma {:induction false} QuantityOfConcat(a: seq<CartLine>, b: seq<CartLine>, id: int)
    ensures QuantityOf(a + b, id) == QuantityOf(a, id) + QuantityOf(b, id)
  {
    if |b| > 0 {
      assert (a + b)[..|a + b| - 1] == a + b[..|b| - 1];
      QuantityOfConcat(a, b[..|b| - 1], id);
    } else {
      assert a + b == a;
    }
  }

  lemma QuantityOfSingle(line: CartLine, id: int)
    ensures QuantityOf([line], id) == if EffectiveId(line) == id then line.quantity else 0
  {
    assert [line][..0] == [];
  }

  lemma {:induction false} QuantityOfWithout(lines: seq<CartLine>, id: int)
    requires !HasLine(lines, id)
    ensures QuantityOf(lines, id) == 0
  {
    if |lines| > 0 {
      var init := lines[..|lines| - 1];
      assert !HasLine(init, id) by {
        forall i | 0 <= i < |init| ensures EffectiveId(init[i]) != id {
          assert init[i] == lines[i];
        }
      }
      QuantityOfWithout(init, id);
    }
  }

  lemma HasLineSnoc(lines: seq<CartLine>)
    requires |lines| > 0
    ensures forall x :: HasLine(lines, x) <==> HasLine(lines[..|lines| - 1], x) || x == EffectiveId(lines[|lines| - 1])
  {
    var init := lines[..|lines| - 1];
    forall x | HasLine(lines, x) ensures HasLine(init, x) || x == EffectiveId(lines[|lines| - 1]) {
      var i :| 0 <= i < |lines| && EffectiveId(lines[i]) == x;
      if i < |lines| - 1 {
        assert init[i] == lines[i];
      }
    }
    forall x | HasLine(init, x) ensures HasLine(lines, x) {
      var i :| 0 <= i < |init| && EffectiveId(init[i]) == x;
      assert lines[i] == init[i];
    }
  }

  /** Lines with non-negative quantities have non-negative totals. */
  lemma {:induction false} QuantityOfNonNegative(lines: seq<CartLine>, id: int)
    requires forall j :: 0 <= j < |lines| ==> lines[j].quantity >= 0
    ensures QuantityOf(lines, id) >= 0
  {
    if |lines| > 0 {
      var init := lines[..|lines| - 1];
      assert forall j :: 0 <= j < |init| ==> init[j] == lines[j];
      QuantityOfNonNegative(init, id);
    }
  }
}
