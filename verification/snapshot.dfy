/** Cart snapshots: the id-to-quantity arrays the plugin builds from the
    cart, normalises for transport and compares. A PHP array with integer
    keys sorted by `ksort` is modelled as a sequence of entries with strictly
    ascending ids. */
module Snapshot {
  import opened Maybe
  import opened Products

  datatype Entry = Entry(id: int, qty: int)

  /** Ids strictly ascending: the order `ksort` leaves an int-keyed array in. */
  predicate Sorted(s: seq<Entry>) {
    forall i, j :: 0 <= i < j < |s| ==> s[i].id < s[j].id
  }

  /** The array PHP builds by assigning the entries in order: for an id that
      occurs twice the later value wins (`+` on maps keeps the right value). */
  function ToMap(s: seq<Entry>): map<int, int> {
    if |s| == 0 then map[] else map[s[0].id := s[0].qty] + ToMap(s[1..])
  }

  lemma {:induction false} KeyOfIndex(s: seq<Entry>, i: int)
    requires 0 <= i < |s|
    ensures s[i].id in ToMap(s)
  {
    if i > 0 {
      KeyOfIndex(s[1..], i - 1);
    }
  }

  lemma {:induction false} IndexOfKey(s: seq<Entry>, k: int)
    requires k in ToMap(s)
    ensures exists i :: 0 <= i < |s| && s[i].id == k
  {
    if s[0].id != k {
      IndexOfKey(s[1..], k);
      var i :| 0 <= i < |s[1..]| && s[1..][i].id == k;
      assert s[i + 1].id == k;
    }
  }

  /** The head of a sorted list is below every id behind it. */
  lemma SortedHead(s: seq<Entry>)
    requires Sorted(s) && |s| > 0
    ensures Sorted(s[1..])
    ensures forall k :: k in ToMap(s[1..]) ==> s[0].id < k
  {
    forall k | k in ToMap(s[1..]) ensures s[0].id < k {
      IndexOfKey(s[1..], k);
      var i :| 0 <= i < |s[1..]| && s[1..][i].id == k;
      assert s[1..][i] == s[i + 1];
    }
  }

  lemma SortedCons(e: Entry, t: seq<Entry>)
    requires Sorted(t)
    requires forall k :: k in ToMap(t) ==> e.id < k
    ensures Sorted([e] + t)
  {
    var r := [e] + t;
    forall i, j | 0 <= i < j < |r| ensures r[i].id < r[j].id {
      assert r[j] == t[j - 1];
      KeyOfIndex(t, j - 1);
      if i > 0 {
        assert r[i] == t[i - 1];
      }
    }
  }

  lemma ToMapEmpty(s: seq<Entry>)
    ensures ToMap(s) == map[] <==> |s| == 0
  {
    if |s| > 0 {
      assert s[0].id in ToMap(s);
    }
  }

  lemma ToMapCons(e: Entry, t: seq<Entry>)
    ensures ToMap([e] + t) == map[e.id := e.qty] + ToMap(t)
  {
    assert ([e] + t)[1..] == t;
  }

  /** `$array[id] = qty` on a sorted snapshot followed by `ksort`. */
  function Put(s: seq<Entry>, id: int, qty: int): (r: seq<Entry>)
    requires Sorted(s)
    ensures Sorted(r)
    ensures ToMap(r) == ToMap(s)[id := qty]
  {
    if |s| == 0 then
      [Entry(id, qty)]
    else if id < s[0].id then
      SortedHead(s);
      SortedCons(Entry(id, qty), s);
      ToMapCons(Entry(id, qty), s);
      [Entry(id, qty)] + s
    else if id == s[0].id then
      SortedHead(s);
      SortedCons(Entry(id, qty), s[1..]);
      ToMapCons(Entry(id, qty), s[1..]);
      [Entry(id, qty)] + s[1..]
    else
      SortedHead(s);
      var t := Put(s[1..], id, qty);
      SortedCons(s[0], t);
      ToMapCons(s[0], t);
      [s[0]] + t
  }

  /** Sorted entries are determined by their contents: two sorted lists that
      build the same array are the same list. This is what makes `===` on
      ksorted arrays a comparison of contents. */
  lemma {:induction false} SortedUnique(a: seq<Entry>, b: seq<Entry>)
    requires Sorted(a) && Sorted(b)
    requires ToMap(a) == ToMap(b)
    ensures a == b
  {
    ToMapEmpty(a);
    ToMapEmpty(b);
    if |a| > 0 {
      SortedHead(a);
      SortedHead(b);
      assert a[0].id == b[0].id by {
        assert a[0].id in ToMap(b) && b[0].id in ToMap(a);
      }
      assert ToMap(a[1..]) == ToMap(a) - {a[0].id};
      assert ToMap(b[1..]) == ToMap(b) - {b[0].id};
      SortedUnique(a[1..], b[1..]);
      assert a == [a[0]] + a[1..];
      assert b == [b[0]] + b[1..];
    }
  }

  /** A snapshot as it leaves `encode_cart_state` or `decode_cart_state`:
      sorted, positive ids, no negative quantity. */
  predicate Normalized(s: seq<Entry>) {
    && Sorted(s)
    && forall k :: k in ToMap(s) ==> k > 0 && ToMap(s)[k] >= 0
  }

  /** The normalisation loop of `encode_cart_state` and `decode_cart_state`:
      drop ids <= 0, clamp quantities at 0, keep the last value per id, sort. */
  function NormalizeState(pairs: seq<Entry>): (s: seq<Entry>)
    ensures Normalized(s)
    ensures forall id :: id in ToMap(s) <==> id > 0 && id in ToMap(pairs)
    ensures forall id :: id in ToMap(s) ==> ToMap(s)[id] == if ToMap(pairs)[id] < 0 then 0 else ToMap(pairs)[id]
  {
    if |pairs| == 0 then []
    else
      var s := NormalizeState(pairs[1..]);
      var first := pairs[0];
      if first.id <= 0 || first.id in ToMap(pairs[1..]) then s
      else Put(s, first.id, if first.qty < 0 then 0 else first.qty)
  }

  /** Normalising depends only on the contents of the input, not on the
      order its ids come in. */
  lemma NormalizeStateDeterministic(a: seq<Entry>, b: seq<Entry>)
    requires ToMap(a) == ToMap(b)
    ensures NormalizeState(a) == NormalizeState(b)
  {
    var na, nb := NormalizeState(a), NormalizeState(b);
    assert ToMap(na).Keys == ToMap(nb).Keys;
    assert ToMap(na) == ToMap(nb);
    SortedUnique(na, nb);
  }

  /** A snapshot that is already normalised is left as it is. */
  lemma NormalizeStateFixed(s: seq<Entry>)
    requires Normalized(s)
    ensures NormalizeState(s) == s
  {
    SortedUnique(NormalizeState(s), s);
  }

  /** In a sorted list every entry is what the array holds under its id. */
  lemma {:induction false} SortedValue(s: seq<Entry>, i: int)
    requires Sorted(s) && 0 <= i < |s|
    ensures s[i].id in ToMap(s) && ToMap(s)[s[i].id] == s[i].qty
  {
    SortedHead(s);
    if i > 0 {
      SortedValue(s[1..], i - 1);
      assert s[1..][i - 1] == s[i];
    }
  }

  /** Every entry of a normalised snapshot has a positive id and a
      non-negative quantity. */
  lemma NormalizedEntries(s: seq<Entry>)
    requires Normalized(s)
    ensures forall i :: 0 <= i < |s| ==> s[i].id > 0 && s[i].qty >= 0
  {
    forall i | 0 <= i < |s| ensures s[i].id > 0 && s[i].qty >= 0 {
      SortedValue(s, i);
    }
  }

  /** Snapshot of a list of cart lines: the aggregation loop of
      `get_cart_snapshot_data`. */
  function SnapshotOfLines(lines: seq<CartLine>): (s: seq<Entry>)
    ensures Sorted(s)
    ensures forall id :: id in ToMap(s) <==> id > 0 && HasLine(lines, id)
    ensures forall id :: id in ToMap(s) ==> ToMap(s)[id] == QuantityOf(lines, id)
  {
    if |lines| == 0 then []
    else
      var init := lines[..|lines| - 1];
      var last := lines[|lines| - 1];
      var s := SnapshotOfLines(init);
      var id := EffectiveId(last);
      HasLineSnoc(lines);
      if id <= 0 then s
      else
        var prev := if id in ToMap(s) then ToMap(s)[id] else 0;
        assert id !in ToMap(s) ==> QuantityOf(init, id) == 0 by {
          if id !in ToMap(s) {
            QuantityOfWithout(init, id);
          }
        }
        Put(s, id, prev + last.quantity)
  }

  /** `get_cart_snapshot_data`: the sorted per-id totals of the live cart,
      skipping ids <= 0; an absent cart gives the empty snapshot. */
  function CartSnapshot(cart: Cart): (s: seq<Entry>)
    ensures Sorted(s)
    ensures forall id :: id in ToMap(s) ==> id > 0
    ensures cart.None? ==> s == []
    ensures cart.Some? ==> forall id :: id in ToMap(s) <==> id > 0 && HasLine(cart.value, id)
    ensures cart.Some? ==> forall id :: id in ToMap(s) ==> ToMap(s)[id] == QuantityOf(cart.value, id)
  {
    match cart
    case None => []
    case Some(lines) => SnapshotOfLines(lines)
  }

  /** The loop of `get_cart_quantities` over a list of lines. */
  function QuantitiesOfLines(lines: seq<CartLine>): (m: map<int, int>)
    ensures forall id :: id in m <==> HasLine(lines, id)
    ensures forall id :: id in m ==> m[id] == QuantityOf(lines, id)
  {
    if |lines| == 0 then map[]
    else
      var init := lines[..|lines| - 1];
      var last := lines[|lines| - 1];
      var m := QuantitiesOfLines(init);
      var id := EffectiveId(last);
      HasLineSnoc(lines);
      assert id !in m ==> QuantityOf(init, id) == 0 by {
        if id !in m {
          QuantityOfWithout(init, id);
        }
      }
      m[id := (if id in m then m[id] else 0) + last.quantity]
  }

  /** `get_cart_quantities`: per-id totals of the live cart keyed by
      effective id, ids <= 0 included; an absent cart gives the empty map.
      The array's insertion order is not modelled: it is only read by key. */
  function CartQuantities(cart: Cart): (m: map<int, int>)
    ensures cart.None? ==> m == map[]
    ensures cart.Some? ==> forall id :: id in m <==> HasLine(cart.value, id)
    ensures cart.Some? ==> forall id :: id in m ==> m[id] == QuantityOf(cart.value, id)
  {
    match cart
    case None => map[]
    case Some(lines) => QuantitiesOfLines(lines)
  }

  /** The snapshot holds exactly the positive-id part of the quantity map. */
  lemma SnapshotIsPositivePart(cart: Cart)
    ensures ToMap(CartSnapshot(cart)) == map id | id in CartQuantities(cart) && id > 0 :: CartQuantities(cart)[id]
  {
  }
}
