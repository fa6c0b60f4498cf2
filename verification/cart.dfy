/** Per-product changes to the live cart: `find_cart_item_key` locates the
    first line counted under a product's id, and `update_cart_quantity`
    sets, removes or adds that line. */
module CartUpdate {
  import opened Maybe
  import opened Products

  /** `find_cart_item_key`: the position of the first line whose effective
      id is `target`, or None when no line is counted under it. */
  function FindCartItem(lines: seq<CartLine>, target: int): (r: Option<nat>)
    ensures r.None? <==> !HasLine(lines, target)
    ensures r.Some? ==> r.value < |lines| && EffectiveId(lines[r.value]) == target
    ensures r.Some? ==> forall j :: 0 <= j < r.value ==> EffectiveId(lines[j]) != target
  {
    if |lines| == 0 then None
    else if EffectiveId(lines[0]) == target then Some(0)
    else
      match FindCartItem(lines[1..], target)
      case None =>
        assert !HasLine(lines, target) by {
          forall i | 0 <= i < |lines| ensures EffectiveId(lines[i]) != target {
            if i > 0 {
              assert lines[i] == lines[1..][i - 1];
            }
          }
        }
        None
      case Some(i) =>
        assert forall j :: 1 <= j <= i ==> lines[j] == lines[1..][j - 1];
        Some(i + 1)
  }

  /** The line `add_to_cart` creates for a product: a variation is added
      under its parent with its own id as variation id and its attributes;
      anything else under its own id with no variation. */
  function NewLine(p: Product, quantity: int): (line: CartLine)
    ensures p.kind == Variation ==> line.productId == p.parentId && line.variationId == p.id
    ensures p.kind != Variation ==> line.productId == p.id && line.variationId == 0
    ensures p.id != 0 ==> EffectiveId(line) == p.id
    ensures line.quantity == quantity && line.data == Some(p)
  {
    if p.kind == Variation then CartLine(p.parentId, p.id, quantity, p.attributes, Some(p))
    else CartLine(p.id, 0, quantity, map[], Some(p))
  }

  /** The lines after setting the quantity of the first line of `p`, removing
      it, or adding a new one. */
  function UpdateLines(lines: seq<CartLine>, p: Product, quantity: int): (r: seq<CartLine>)
    ensures FindCartItem(lines, p.id).None? && quantity > 0 ==>
      r == lines + [NewLine(p, quantity)]
    ensures FindCartItem(lines, p.id).None? && quantity <= 0 ==> r == lines
    ensures FindCartItem(lines, p.id).Some? && quantity > 0 ==>
      var i := FindCartItem(lines, p.id).value;
      |r| == |lines| && r[i] == lines[i].(quantity := quantity)
      && forall j :: 0 <= j < |lines| && j != i ==> r[j] == lines[j]
    ensures FindCartItem(lines, p.id).Some? && quantity <= 0 ==>
      var i := FindCartItem(lines, p.id).value;
      |r| == |lines| - 1
      && (forall j :: 0 <= j < i ==> r[j] == lines[j])
      && (forall j :: i <= j < |r| ==> r[j] == lines[j + 1])
  {
    match FindCartItem(lines, p.id)
    case Some(i) =>
      if quantity > 0 then lines[i := lines[i].(quantity := quantity)]
      else lines[..i] + lines[i + 1..]
    case None =>
      if quantity > 0 then lines + [NewLine(p, quantity)] else lines
  }

  /** `update_cart_quantity`: with no cart there is nothing to change. */
  function UpdateCartQuantity(cart: Cart, p: Product, quantity: int): (r: Cart)
    ensures cart.None? <==> r.None?
    ensures cart.Some? ==> r.value == UpdateLines(cart.value, p, quantity)
  {
    match cart
    case None => None
    case Some(lines) => Some(UpdateLines(lines, p, quantity))
  }

  lemma QuantityOfSplit(lines: seq<CartLine>, i: nat, id: int)
    requires i < |lines|
    ensures QuantityOf(lines, id) == QuantityOf(lines[..i], id) + QuantityOf([lines[i]], id) + QuantityOf(lines[i + 1..], id)
  {
    assert lines == lines[..i] + [lines[i]] + lines[i + 1..];
    QuantityOfConcat(lines[..i] + [lines[i]], lines[i + 1..], id);
    QuantityOfConcat(lines[..i], [lines[i]], id);
  }

  lemma HasLineSplit(lines: seq<CartLine>, i: nat, id: int)
    requires i < |lines|
    ensures HasLine(lines, id) <==> HasLine(lines[..i], id) || EffectiveId(lines[i]) == id || HasLine(lines[i + 1..], id)
  {
    if HasLine(lines, id) {
      var j :| 0 <= j < |lines| && EffectiveId(lines[j]) == id;
      if j < i {
        assert lines[..i][j] == lines[j];
      } else if j > i {
        assert lines[i + 1..][j - i - 1] == lines[j];
      }
    }
    if HasLine(lines[..i], id) {
      var j :| 0 <= j < i && EffectiveId(lines[..i][j]) == id;
      assert lines[j] == lines[..i][j];
    }
    if HasLine(lines[i + 1..], id) {
      var j :| 0 <= j < |lines[i + 1..]| && EffectiveId(lines[i + 1..][j]) == id;
      assert lines[i + 1 + j] == lines[i + 1..][j];
    }
  }

  lemma HasLineAppend(lines: seq<CartLine>, line: CartLine, id: int)
    ensures HasLine(lines + [line], id) <==> HasLine(lines, id) || EffectiveId(line) == id
  {
    HasLineSnoc(lines + [line]);
    assert (lines + [line])[..|lines|] == lines;
  }

  /** Changing the line of `p` leaves every other id's lines and total as
      they were. */
  lemma UpdateKeepsOtherIds(lines: seq<CartLine>, p: Product, quantity: int, x: int)
    requires p.id != 0 && x != p.id
    ensures var r := UpdateLines(lines, p, quantity);
      QuantityOf(r, x) == QuantityOf(lines, x) && (HasLine(r, x) <==> HasLine(lines, x))
  {
    var r := UpdateLines(lines, p, quantity);
    match FindCartItem(lines, p.id)
    case None =>
      if quantity > 0 {
        QuantityOfConcat(lines, [NewLine(p, quantity)], x);
        QuantityOfSingle(NewLine(p, quantity), x);
        HasLineAppend(lines, NewLine(p, quantity), x);
      }
    case Some(i) =>
      QuantityOfSplit(lines, i, x);
      QuantityOfSingle(lines[i], x);
      HasLineSplit(lines, i, x);
      if quantity > 0 {
        assert r[..i] == lines[..i] && r[i + 1..] == lines[i + 1..];
        QuantityOfSplit(r, i, x);
        QuantityOfSingle(r[i], x);
        HasLineSplit(r, i, x);
      } else {
        assert r == lines[..i] + lines[i + 1..];
        QuantityOfConcat(lines[..i], lines[i + 1..], x);
        HasLineConcat(lines[..i], lines[i + 1..], x);
      }
  }

  lemma HasLineConcat(a: seq<CartLine>, b: seq<CartLine>, id: int)
    ensures HasLine(a + b, id) <==> HasLine(a, id) || HasLine(b, id)
  {
    if HasLine(a, id) {
      var j :| 0 <= j < |a| && EffectiveId(a[j]) == id;
      assert (a + b)[j] == a[j];
    }
    if HasLine(a + b, id) {
      var j :| 0 <= j < |a + b| && EffectiveId((a + b)[j]) == id;
      if j >= |a| {
        assert b[j - |a|] == (a + b)[j];
      }
    }
    if HasLine(b, id) {
      var j :| 0 <= j < |b| && EffectiveId(b[j]) == id;
      assert (a + b)[|a| + j] == b[j];
    }
  }

  /** Under one line per id, the product ends up with exactly the requested
      quantity when it is positive and with no line otherwise, and the cart
      still has one line per id. */
  lemma UpdateSetsTarget(lines: seq<CartLine>, p: Product, quantity: int)
    requires p.id != 0 && UniqueIds(lines)
    ensures var r := UpdateLines(lines, p, quantity);
      (HasLine(r, p.id) <==> quantity > 0)
      && (quantity > 0 ==> QuantityOf(r, p.id) == quantity)
      && UniqueIds(r)
  {
    match FindCartItem(lines, p.id)
    case None =>
      if quantity > 0 {
        AppendKeepsUnique(lines, NewLine(p, quantity));
      }
    case Some(i) =>
      if quantity > 0 {
        SetKeepsUnique(lines, i, quantity);
      } else {
        RemoveKeepsUnique(lines, i);
      }
  }

  /** Whatever the cart holds, the product's total afterwards is the
      requested quantity (none when it is not positive) plus what its other
      lines held: only the first line counted under its id is changed. */
  lemma UpdateTargetTotal(lines: seq<CartLine>, p: Product, quantity: int)
    requires p.id != 0
    ensures var q := if quantity > 0 then quantity else 0;
      var found := FindCartItem(lines, p.id);
      QuantityOf(UpdateLines(lines, p, quantity), p.id)
        == if found.None? then q else QuantityOf(lines, p.id) - lines[found.value].quantity + q
  {
    var r := UpdateLines(lines, p, quantity);
    match FindCartItem(lines, p.id)
    case None =>
      QuantityOfWithout(lines, p.id);
      if quantity > 0 {
        QuantityOfConcat(lines, [NewLine(p, quantity)], p.id);
        QuantityOfSingle(NewLine(p, quantity), p.id);
      }
    case Some(i) =>
      QuantityOfSplit(lines, i, p.id);
      QuantityOfSingle(lines[i], p.id);
      if quantity > 0 {
        assert r[..i] == lines[..i] && r[i + 1..] == lines[i + 1..];
        QuantityOfSplit(r, i, p.id);
        QuantityOfSingle(r[i], p.id);
      } else {
        QuantityOfConcat(lines[..i], lines[i + 1..], p.id);
      }
  }

  /** A cart with two lines of product 5 (2 and 3 items): asking for 6
      sets the first line, leaving 9 in the cart; asking for 0 removes the
      first line, leaving 3. */
  lemma UpdateWithDuplicateLines()
    ensures var p := Product(5, Simple, 0, [], 1.0, map[]);
      var lines := [CartLine(5, 0, 2, map[], None), CartLine(5, 0, 3, map[], None)];
      QuantityOf(UpdateLines(lines, p, 6), 5) == 9 && QuantityOf(UpdateLines(lines, p, 0), 5) == 3
  {
    var p := Product(5, Simple, 0, [], 1.0, map[]);
    var lines := [CartLine(5, 0, 2, map[], None), CartLine(5, 0, 3, map[], None)];
    assert FindCartItem(lines, 5) == Some(0);
    assert QuantityOf(lines, 5) == 5 by {
      assert lines == [lines[0]] + [lines[1]];
      QuantityOfConcat([lines[0]], [lines[1]], 5);
      QuantityOfSingle(lines[0], 5);
      QuantityOfSingle(lines[1], 5);
    }
    UpdateTargetTotal(lines, p, 6);
    UpdateTargetTotal(lines, p, 0);
  }

  lemma AppendKeepsUnique(lines: seq<CartLine>, line: CartLine)
    requires UniqueIds(lines) && !HasLine(lines, EffectiveId(line))
    ensures var r := lines + [line];
      UniqueIds(r) && HasLine(r, EffectiveId(line)) && QuantityOf(r, EffectiveId(line)) == line.quantity
  {
    var r := lines + [line];
    var id := EffectiveId(line);
    QuantityOfWithout(lines, id);
    QuantityOfConcat(lines, [line], id);
    QuantityOfSingle(line, id);
    HasLineAppend(lines, line, id);
    assert forall a :: 0 <= a < |lines| ==> r[a] == lines[a];
  }

  lemma SetKeepsUnique(lines: seq<CartLine>, i: nat, quantity: int)
    requires UniqueIds(lines) && i < |lines|
    ensures var r := lines[i := lines[i].(quantity := quantity)];
      var id := EffectiveId(lines[i]);
      UniqueIds(r) && HasLine(r, id) && QuantityOf(r, id) == quantity
  {
    var r := lines[i := lines[i].(quantity := quantity)];
    var id := EffectiveId(lines[i]);
    NotInRest(lines, i);
    assert r[..i] == lines[..i] && r[i + 1..] == lines[i + 1..];
    QuantityOfSplit(r, i, id);
    QuantityOfSingle(r[i], id);
    QuantityOfWithout(lines[..i], id);
    QuantityOfWithout(lines[i + 1..], id);
    assert forall a :: 0 <= a < |r| ==> EffectiveId(r[a]) == EffectiveId(lines[a]);
  }

  lemma RemoveKeepsUnique(lines: seq<CartLine>, i: nat)
    requires UniqueIds(lines) && i < |lines|
    ensures var r := lines[..i] + lines[i + 1..];
      UniqueIds(r) && !HasLine(r, EffectiveId(lines[i]))
  {
    var r := lines[..i] + lines[i + 1..];
    NotInRest(lines, i);
    HasLineConcat(lines[..i], lines[i + 1..], EffectiveId(lines[i]));
    forall a, b | 0 <= a < |r| && 0 <= b < |r| && EffectiveId(r[a]) == EffectiveId(r[b]) ensures a == b {
      var a', b' := if a < i then a else a + 1, if b < i then b else b + 1;
      assert r[a] == lines[a'] && r[b] == lines[b'];
    }
  }

  /** Under one line per id, the line found is the only one counted under
      its id. */
  lemma NotInRest(lines: seq<CartLine>, i: nat)
    requires UniqueIds(lines) && i < |lines|
    ensures !HasLine(lines[..i], EffectiveId(lines[i]))
    ensures !HasLine(lines[i + 1..], EffectiveId(lines[i]))
  {
    var id := EffectiveId(lines[i]);
    forall j | 0 <= j < i ensures EffectiveId(lines[..i][j]) != id {
      assert lines[..i][j] == lines[j];
    }
    var rest := lines[i + 1..];
    forall j | 0 <= j < |rest| ensures EffectiveId(rest[j]) != id {
      assert rest[j] == lines[i + 1 + j];
    }
  }
}
