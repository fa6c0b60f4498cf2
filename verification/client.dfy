/** The browser side of the order list (assets/js/quick-buy-table.js):
    `normalizeQuantity`, the step arithmetic of the plus and minus buttons
    and the total quantity shown in the summary. `parseInt(x, 10)` is
    ParseLeadingInt, with None standing for NaN. */
module Client {
  import opened Maybe
  import opened Text
  import opened Quantity

  /** `normalizeQuantity(value, step)`: an unreadable or negative value
      becomes 0; a positive value is rounded up to a whole number of steps
      (`Math.max(step, Math.ceil(quantity / step) * step)`) when the step
      reads as a number above 1. */
  function NormalizeQuantityJs(value: string, step: string): (q: nat)
    ensures ParseLeadingInt(value).None? ==> q == 0
    ensures ParseLeadingInt(value).Some? && ParseLeadingInt(value).value <= 0 ==> q == 0
    ensures ParseLeadingInt(value).Some? && ParseLeadingInt(value).value > 0 ==> q >= ParseLeadingInt(value).value
  {
    var quantity: nat := match ParseLeadingInt(value)
      case None => 0
      case Some(v) => if v < 0 then 0 else v;
    match ParseLeadingInt(step)
    case Some(k) =>
      if k > 1 && quantity > 0 then
        var rounded := CeilDiv(quantity, k) * k;
        if k > rounded then k else rounded
      else quantity
    case None => quantity
  }

  /** The client and the server normalise alike: for a step written as a
      number, `normalizeQuantity` gives what `normalize_quantity_for_product`
      gives for the same text. */
  lemma ClientMatchesServer(value: string, step: int)
    ensures NormalizeQuantityJs(value, IntToString(step)) == NormalizeQuantity(PhpIntCast(value), step)
  {
    ParseLeadingIntOfText(step, "");
    assert IntToString(step) + "" == IntToString(step);
  }

  /** The value the client writes into the field passes the server's
      normalisation unchanged. */
  lemma ClientValueIsServerFixed(value: string, step: int)
    ensures var q := NormalizeQuantityJs(value, IntToString(step));
      NormalizeQuantity(PhpIntCast(IntToString(q)), step) == q
  {
    var q := NormalizeQuantityJs(value, IntToString(step));
    ClientMatchesServer(value, step);
    ParseLeadingIntOfText(q, "");
    assert IntToString(q) + "" == IntToString(q);
    NormalizeIdempotent(PhpIntCast(value), step);
  }

  /** `parseInt($container.data('step'), 10) || 1`: a missing, unreadable or
      zero step counts as 1. */
  function DataStep(text: string): (step: int)
    ensures step != 0
    ensures ParseLeadingInt(text).None? ==> step == 1
    ensures ParseLeadingInt(text).Some? && ParseLeadingInt(text).value != 0 ==> step == ParseLeadingInt(text).value
  {
    match ParseLeadingInt(text)
    case None => 1
    case Some(v) => if v == 0 then 1 else v
  }

  /** `parseInt($input.val(), 10) || 0`: an unreadable value counts as 0. */
  function CurrentValue(text: string): (v: int)
    ensures ParseLeadingInt(text).None? ==> v == 0
    ensures ParseLeadingInt(text).Some? ==> v == ParseLeadingInt(text).value
  {
    ParseLeadingInt(text).GetOr(0)
  }

  /** The plus button: the current value plus the step. */
  function PlusClick(input: string, stepText: string): (v: int)
    ensures v - CurrentValue(input) == DataStep(stepText)
  {
    CurrentValue(input) + DataStep(stepText)
  }

  /** The minus button: the current value minus the step, never below 0. */
  function MinusClick(input: string, stepText: string): (v: nat)
    ensures v >= CurrentValue(input) - DataStep(stepText)
    ensures v == 0 || v == CurrentValue(input) - DataStep(stepText)
  {
    var next := CurrentValue(input) - DataStep(stepText);
    if next < 0 then 0 else next
  }

  /** With a positive step and a value that is not negative, minus undoes
      plus. */
  lemma MinusUndoesPlus(input: string, stepText: string)
    requires CurrentValue(input) >= 0 && DataStep(stepText) > 0
    ensures MinusClick(IntToString(PlusClick(input, stepText)), stepText) == CurrentValue(input)
  {
    var v := PlusClick(input, stepText);
    ParseLeadingIntOfText(v, "");
    assert IntToString(v) + "" == IntToString(v);
  }

  /** The summary's quantity total over the rows (None for a row without a
      quantity field, which is skipped). */
  function RowsTotal(rows: seq<Option<string>>): int {
    if |rows| == 0 then 0
    else
      var last := rows[|rows| - 1];
      RowsTotal(rows[..|rows| - 1]) + (if last.Some? then CurrentValue(last.value) else 0)
  }

  /** The quantity half of `updateSummary`: each row's field read with
      `parseInt(..) || 0` and added up. */
  method SummaryTotal(rows: seq<Option<string>>) returns (total: int)
    ensures total == RowsTotal(rows)
  {
    total := 0;
    var i := 0;
    while i < |rows|
      invariant 0 <= i <= |rows|
      invariant total == RowsTotal(rows[..i])
    {
      assert rows[..i + 1][..i] == rows[..i];
      if rows[i].Some? {
        total := total + CurrentValue(rows[i].value);
      }
      i := i + 1;
    }
    assert rows[..i] == rows;
  }
}
