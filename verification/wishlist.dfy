/** The shopper's order list ("bestellijst"): a comma-separated id list kept
    in the user meta field `wishlist_ianenwijn`. After a submission the ids
    of the products ordered are merged into it (`add_products_to_bestellijst`). */
module Wishlist {
  import opened Text

  /** What the merge does to the stored meta value. */
  datatype MetaUpdate = Keep | Store(value: string)

  /** `absint` on an integer. */
  function Abs(i: int): nat {
    if i < 0 then -i else i
  }

  /** Position of the first occurrence of x in ids. */
  function FirstIndex(ids: seq<nat>, x: nat): (k: nat)
    requires x in ids
    ensures k < |ids| && ids[k] == x
    ensures forall j :: 0 <= j < k ==> ids[j] != x
  {
    if ids[0] == x then 0 else 1 + FirstIndex(ids[1..], x)
  }

  lemma FirstIndexOfPrefix(ids: seq<nat>, x: nat, n: nat)
    requires n <= |ids| && x in ids[..n]
    ensures FirstIndex(ids, x) == FirstIndex(ids[..n], x)
  {
    var k := FirstIndex(ids[..n], x);
    assert ids[k] == x;
    var m := FirstIndex(ids, x);
    assert ids[..n][m] == x by {
      if m >= k {
        assert m == k;
      }
    }
  }

  /** The merge loop of `add_products_to_bestellijst`: each id not yet in the
      list (strict `in_array`) is appended. The existing ids keep their
      order and repeats; the appended ones are every new id, once, in the
      order of their first occurrence. */
  function MergeIds(existing: seq<nat>, ids: seq<nat>): (r: seq<nat>)
    ensures |r| >= |existing| && r[..|existing|] == existing
    ensures forall x :: x in r <==> x in existing || x in ids
    ensures forall i :: |existing| <= i < |r| ==> r[i] !in existing
    ensures forall i, j :: |existing| <= i < j < |r| ==> r[i] != r[j]
    ensures forall i, j :: |existing| <= i < j < |r| ==> FirstIndex(ids, r[i]) < FirstIndex(ids, r[j])
  {
    if |ids| == 0 then existing
    else
      var init := ids[..|ids| - 1];
      var x := ids[|ids| - 1];
      var m := MergeIds(existing, init);
      assert forall y :: y in ids <==> y in init || y == x;
      forall i | |existing| <= i < |m| ensures FirstIndex(ids, m[i]) == FirstIndex(init, m[i]) {
        FirstIndexOfPrefix(ids, m[i], |init|);
      }
      if x in m then m
      else
        assert FirstIndex(ids, x) == |init|;
        m + [x]
  }

  /** Some entry of ids has magnitude x. */
  predicate HasAbs(ids: seq<int>, x: nat) {
    exists i :: 0 <= i < |ids| && Abs(ids[i]) == x
  }

  /** `array_values(array_unique(array_filter(array_map('absint', $ids))))`:
      the magnitudes, zeros dropped, each id once at its first occurrence. */
  function CleanIds(ids: seq<int>): (r: seq<nat>)
    ensures forall x :: x in r <==> x > 0 && HasAbs(ids, x)
    ensures forall i, j :: 0 <= i < j < |r| ==> r[i] != r[j]
    ensures forall i, j :: 0 <= i < j < |r| ==> FirstAbs(ids, r[i]) < FirstAbs(ids, r[j])
  {
    var n := NonZeroAbs(ids);
    var r := MergeIds([], n);
    forall i, j | 0 <= i < j < |r|
      ensures FirstAbs(ids, r[i]) < FirstAbs(ids, r[j])
    {
      NonZeroAbsOrder(ids, r[i], r[j]);
    }
    r
  }

  /** Position of the first entry of ids with magnitude x. */
  function FirstAbs(ids: seq<int>, x: nat): (k: nat)
    requires HasAbs(ids, x)
    ensures k < |ids| && Abs(ids[k]) == x
    ensures forall j :: 0 <= j < k ==> Abs(ids[j]) != x
  {
    if Abs(ids[0]) == x then 0
    else
      HasAbsCons(ids);
      1 + FirstAbs(ids[1..], x)
  }

  /** The magnitudes keep the order in which they first occur in ids. */
  lemma {:induction false} NonZeroAbsOrder(ids: seq<int>, x: nat, y: nat)
    requires x in NonZeroAbs(ids) && y in NonZeroAbs(ids)
    requires FirstIndex(NonZeroAbs(ids), x) < FirstIndex(NonZeroAbs(ids), y)
    ensures FirstAbs(ids, x) < FirstAbs(ids, y)
  {
    var n := NonZeroAbs(ids);
    var rest := NonZeroAbs(ids[1..]);
    HasAbsCons(ids);
    if ids[0] == 0 {
      assert n == rest;
      NonZeroAbsOrder(ids[1..], x, y);
    } else {
      var a := Abs(ids[0]);
      assert n == [a] + rest;
      if x != a {
        assert y != a;
        assert FirstIndex(n, x) == 1 + FirstIndex(rest, x);
        assert FirstIndex(n, y) == 1 + FirstIndex(rest, y);
        NonZeroAbsOrder(ids[1..], x, y);
      }
    }
  }

  function NonZeroAbs(ids: seq<int>): (r: seq<nat>)
    ensures forall x :: x in r <==> x > 0 && HasAbs(ids, x)
  {
    if |ids| == 0 then []
    else
      var rest := NonZeroAbs(ids[1..]);
      HasAbsCons(ids);
      if ids[0] == 0 then rest else [Abs(ids[0])] + rest
  }

  lemma HasAbsCons(ids: seq<int>)
    requires |ids| > 0
    ensures forall x :: HasAbs(ids, x) <==> Abs(ids[0]) == x || HasAbs(ids[1..], x)
  {
    forall x | HasAbs(ids, x) ensures Abs(ids[0]) == x || HasAbs(ids[1..], x) {
      var i :| 0 <= i < |ids| && Abs(ids[i]) == x;
      if i > 0 {
        assert ids[1..][i - 1] == ids[i];
      }
    }
    forall x | HasAbs(ids[1..], x) ensures HasAbs(ids, x) {
      var i :| 0 <= i < |ids[1..]| && Abs(ids[1..][i]) == x;
      assert ids[i + 1] == ids[1..][i];
    }
  }

  /** The ids read from a stored list: each comma-separated piece trimmed and
      `absint`ed, zeros dropped. */
  function IdsOfParts(parts: seq<string>): (r: seq<nat>)
    ensures forall i :: 0 <= i < |r| ==> r[i] > 0
  {
    if |parts| == 0 then []
    else
      var n := AbsInt(Trim(parts[0]));
      if n == 0 then IdsOfParts(parts[1..]) else [n] + IdsOfParts(parts[1..])
  }

  /** The existing ids of `add_products_to_bestellijst`: none when the stored
      value is falsy in PHP ("" or "0"), else the list read piece by piece.
      Repeats are kept. */
  function ParseStoredIds(raw: string): (r: seq<nat>)
    ensures forall i :: 0 <= i < |r| ==> r[i] > 0
    ensures raw == "" || raw == "0" ==> r == []
  {
    if raw == "" || raw == "0" then [] else IdsOfParts(Split(raw, ','))
  }

  function IdTexts(ids: seq<nat>): (r: seq<string>)
    ensures |r| == |ids|
    ensures forall i :: 0 <= i < |ids| ==> r[i] == NatToString(ids[i])
  {
    if |ids| == 0 then [] else [NatToString(ids[0])] + IdTexts(ids[1..])
  }

  /** `implode(',', $ids)`. */
  function JoinIds(ids: seq<nat>): string {
    Join(IdTexts(ids), ',')
  }

  /** `add_products_to_bestellijst` for user `userId`, the product ids of the
      submission and the currently stored value: nothing for a guest or
      when no id is left after cleaning; otherwise the merged list is
      written back unless its text equals the stored value. */
  function AddProductsToWishlist(userId: int, ids: seq<int>, existingRaw: string): (u: MetaUpdate)
    ensures userId <= 0 || CleanIds(ids) == [] ==> u == Keep
    ensures u.Store? ==> u.value != existingRaw
    ensures u.Store? ==> u.value == JoinIds(MergeIds(ParseStoredIds(existingRaw), CleanIds(ids)))
    ensures userId > 0 && CleanIds(ids) != [] && u == Keep ==>
      JoinIds(MergeIds(ParseStoredIds(existingRaw), CleanIds(ids))) == existingRaw
  {
    var clean := CleanIds(ids);
    if userId <= 0 || clean == [] then Keep
    else
      var updated := JoinIds(MergeIds(ParseStoredIds(existingRaw), clean));
      if updated != existingRaw then Store(updated) else Keep
  }

  lemma NatTextClean(n: nat)
    ensures ',' !in NatToString(n)
    ensures Trim(NatToString(n)) == NatToString(n)
    ensures AbsInt(NatToString(n)) == n
  {
    NatTextNoComma(n);
    NatTextTrimmed(n);
    NatTextAbsInt(n);
  }

  lemma NatTextNoComma(n: nat)
    ensures ',' !in NatToString(n)
  {
    var t := NatToString(n);
    assert forall i :: 0 <= i < |t| ==> IsDigit(t[i]);
  }

  lemma NatTextTrimmed(n: nat)
    ensures Trim(NatToString(n)) == NatToString(n)
  {
    var t := NatToString(n);
    assert IsDigit(t[0]) && IsDigit(t[|t| - 1]);
  }

  lemma NatTextAbsInt(n: nat)
    ensures AbsInt(NatToString(n)) == n
  {
    ParseLeadingIntOfText(n, "");
    assert IntToString(n) + "" == NatToString(n);
  }

  lemma {:induction false} IdsOfIdTexts(ids: seq<nat>)
    requires forall i :: 0 <= i < |ids| ==> ids[i] > 0
    ensures IdsOfParts(IdTexts(ids)) == ids
  {
    if |ids| > 0 {
      IdsOfIdTexts(ids[1..]);
      IdsOfIdTextsCons(ids[0], ids[1..]);
      assert [ids[0]] + ids[1..] == ids;
    }
  }

  lemma IdsOfIdTextsCons(x: nat, t: seq<nat>)
    requires x > 0
    ensures IdsOfParts(IdTexts([x] + t)) == [x] + IdsOfParts(IdTexts(t))
  {
    var parts := IdTexts([x] + t);
    assert ([x] + t)[1..] == t;
    assert parts[0] == NatToString(x) && parts[1..] == IdTexts(t);
    NatTextClean(x);
    IdsOfPartsCons(parts, x, IdsOfParts(IdTexts(t)));
  }

  lemma IdsOfPartsCons(parts: seq<string>, n: nat, rest: seq<nat>)
    requires |parts| > 0 && n > 0
    requires AbsInt(Trim(parts[0])) == n
    requires IdsOfParts(parts[1..]) == rest
    ensures IdsOfParts(parts) == [n] + rest
  {
  }

  /** A list of positive ids written with `implode` reads back as the same
      list: the stored value round-trips. */
  lemma ParseJoinIds(ids: seq<nat>)
    requires |ids| > 0
    requires forall i :: 0 <= i < |ids| ==> ids[i] > 0
    ensures ParseStoredIds(JoinIds(ids)) == ids
  {
    var parts := IdTexts(ids);
    forall i | 0 <= i < |parts| ensures ',' !in parts[i] {
      NatTextClean(ids[i]);
    }
    SplitJoin(parts, ',');
    IdsOfIdTexts(ids);
    JoinIdsTruthy(ids);
  }

  /** A non-empty list of positive ids is never written as "" or "0". */
  lemma JoinIdsTruthy(ids: seq<nat>)
    requires |ids| > 0 && ids[0] > 0
    ensures JoinIds(ids) != "" && JoinIds(ids) != "0"
  {
    var t := NatToString(ids[0]);
    var s := JoinIds(ids);
    ParseLeadingIntOfText(ids[0], "");
    assert t + "" == t;
    assert |t| > 0 && t[0] != '0' by {
      LeadingDigitOfPositive(ids[0]);
    }
    assert s[..|t|] == t by {
      JoinPrefix(IdTexts(ids), ',');
    }
  }

  lemma JoinPrefix(parts: seq<string>, sep: char)
    requires |parts| > 0
    ensures |Join(parts, sep)| >= |parts[0]| && Join(parts, sep)[..|parts[0]|] == parts[0]
  {
  }

  /** Submitting the same products again changes nothing: merging the ids
      into the text the merge writes gives back that text, so nothing is
      stored the second time. */
  lemma MergeIsIdempotent(userId: int, ids: seq<int>, existingRaw: string)
    ensures var stored := JoinIds(MergeIds(ParseStoredIds(existingRaw), CleanIds(ids)));
      AddProductsToWishlist(userId, ids, stored) == Keep
  {
    var clean := CleanIds(ids);
    if userId > 0 && clean != [] {
      var merged := MergeIds(ParseStoredIds(existingRaw), clean);
      MergedIsPositive(ParseStoredIds(existingRaw), clean);
      ParseJoinIds(merged);
      MergeOfPresent(merged, clean);
    }
  }

  lemma MergedIsPositive(existing: seq<nat>, ids: seq<nat>)
    requires |ids| > 0
    requires forall i :: 0 <= i < |existing| ==> existing[i] > 0
    requires forall i :: 0 <= i < |ids| ==> ids[i] > 0
    ensures |MergeIds(existing, ids)| > 0
    ensures forall i :: 0 <= i < |MergeIds(existing, ids)| ==> MergeIds(existing, ids)[i] > 0
  {
    var merged := MergeIds(existing, ids);
    assert ids[0] in merged;
    forall i | 0 <= i < |merged| ensures merged[i] > 0 {
      assert merged[i] in existing || merged[i] in ids;
    }
  }

  /** Merging ids that are all present already leaves the list as it is. */
  lemma {:induction false} MergeOfPresent(existing: seq<nat>, ids: seq<nat>)
    requires forall i :: 0 <= i < |ids| ==> ids[i] in existing
    ensures MergeIds(existing, ids) == existing
  {
    if |ids| > 0 {
      MergeOfPresent(existing, ids[..|ids| - 1]);
    }
  }
}
