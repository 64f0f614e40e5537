/**
  The cart page (pages/cart/cart.component.ts): reading a displayed line and
  the quantity buttons, which the page builds from the service's
  `removeProduct` and `addProduct`. Each action returns the shadow the
  service leaves behind once its calls have run in order.
 */
module CartPage {
  import opened Wrappers
  import opened Text
  import opened Cart

  /** `idOf`: the record's `_id`, else the bare string, else `null`. */
  function IdOf(l: Line): (r: Option<string>)
    ensures r == LineId(l)
  {
    if IsCartProduct(l.ref) then Some(l.ref.product.id)
    else if l.ref.Bare? then Some(l.ref.id) else None
  }

  /** The id an action uses; `None` when `!id` stops it (missing or empty). */
  function ActionId(l: Line): (r: Option<string>)
    ensures r.Some? <==> IdOf(l).Some? && IdOf(l).value != ""
    ensures r.Some? ==> r == IdOf(l)
  {
    match IdOf(l)
    case None => None
    case Some(id) => if id == "" then None else Some(id)
  }

  /** `priceOf`: a record's own price (0 if missing), else the flat price. */
  function PriceOf(l: Line): (r: int)
    ensures l.ref.Record? ==> r == l.ref.product.price.GetOr(0)
    ensures !l.ref.Record? ==> r == l.flatPrice
  {
    if IsCartProduct(l.ref) then l.ref.product.price.GetOr(0) else OrInt(l.flatPrice, 0)
  }

  /** The page shows the price the service totals, except for a record with no price, where the service falls back to the flat price. */
  lemma PriceOfMatchesService(l: Line)
    ensures !(l.ref.Record? && l.ref.product.price.GetOr(0) == 0) ==> PriceOf(l) == GetPrice(l)
    ensures l.ref.Record? && l.ref.product.price.GetOr(0) == 0 ==> PriceOf(l) == 0 && GetPrice(l) == l.flatPrice
  {
  }

  /** `inc`: `addProduct(id, 1)`. */
  function Inc(c: Shadow, it: Line): (r: Shadow)
    ensures ActionId(it).None? ==> r == c
    ensures ActionId(it).Some? ==> r == AddProduct(c, ActionId(it).value, 1, None)
  {
    match ActionId(it)
    case None => c
    case Some(id) => AddProduct(c, id, 1, None)
  }

  /** `inc` on a line in the cart raises exactly that line's quantity by one, in place. */
  lemma IncRaisesByOne(c: Shadow, it: Line)
    requires ActionId(it).Some? && FindLine(c.lines, ActionId(it).value).Some?
    ensures var i := FindLine(c.lines, ActionId(it).value).value;
      Inc(c, it).lines == c.lines[i := c.lines[i].(quantity := c.lines[i].quantity + 1)]
  {
    AddExistingLine(c, ActionId(it).value, 1);
  }

  /** `remove`: `removeProduct(id)`. */
  function Remove(c: Shadow, it: Line): (r: Shadow)
    ensures ActionId(it).None? ==> r == c
    ensures ActionId(it).Some? ==> r == RemoveProduct(c, ActionId(it).value)
  {
    match ActionId(it)
    case None => c
    case Some(id) => RemoveProduct(c, id)
  }

  /** `dec`: a quantity of one or less removes the line; otherwise remove, then add back one less. */
  function Dec(c: Shadow, it: Line): (r: Shadow)
    ensures ActionId(it).None? ==> r == c
    ensures ActionId(it).Some? && Qty(it) <= 1 ==> r == RemoveProduct(c, ActionId(it).value)
  {
    match ActionId(it)
    case None => c
    case Some(id) =>
      if Qty(it) <= 1 then RemoveProduct(c, id)
      else AddProduct(RemoveProduct(c, id), id, Qty(it) - 1, None)
  }

  /** After `removeProduct(id)`, adding `id` without a hint appends one bare line at the end. */
  lemma ReAddAppends(c: Shadow, id: string, q: int)
    requires q >= 1
    ensures AddProduct(RemoveProduct(c, id), id, q, None).lines == Without(c.lines, id) + [Line(Bare(id), q, 0)]
  {
    var r := RemoveProduct(c, id);
    assert FindLine(r.lines, id).None?;
  }

  /**
    `dec` on a quantity above one leaves a single line for the id, with one
    less, moved to the end and reduced to a bare id (its product data is gone).
   */
  lemma DecMovesToEnd(c: Shadow, it: Line)
    requires ActionId(it).Some? && Qty(it) > 1
    ensures var id := ActionId(it).value;
      Dec(c, it).lines == Without(c.lines, id) + [Line(Bare(id), Qty(it) - 1, 0)]
  {
    ReAddAppends(c, ActionId(it).value, Qty(it) - 1);
  }

  /** The bare line `dec` leaves has no price until hydration, so the total drops that product entirely. */
  lemma DecDropsFromTotal(c: Shadow, it: Line)
    requires ActionId(it).Some? && Qty(it) > 1
    ensures Dec(c, it).total == ComputeTotal(Without(c.lines, ActionId(it).value))
  {
    var id := ActionId(it).value;
    var l := Line(Bare(id), Qty(it) - 1, 0);
    DecMovesToEnd(c, it);
    TotalConcat(Without(c.lines, id), [l]);
    TotalSingle(l);
  }

  /** The quantity typed into the field: `Math.max(1, Number(raw || 1))`; `None` stands for empty or not a number. */
  function TypedQty(raw: Option<int>): (q: int)
    ensures q >= 1
    ensures raw.Some? && raw.value >= 1 ==> q == raw.value
    ensures raw.None? || raw.value < 1 ==> q == 1
  {
    match raw
    case None => 1
    case Some(x) => var y := OrInt(x, 1); if y > 1 then y else 1
  }

  /** `onQtyChange`: remove, then add the typed quantity. */
  function OnQtyChange(c: Shadow, it: Line, raw: Option<int>): (r: Shadow)
    ensures ActionId(it).None? ==> r == c
  {
    match ActionId(it)
    case None => c
    case Some(id) => AddProduct(RemoveProduct(c, id), id, TypedQty(raw), None)
  }

  /** Setting a quantity leaves one bare line for the id, at the end, with the typed quantity. */
  lemma QtyChangeMovesToEnd(c: Shadow, it: Line, raw: Option<int>)
    requires ActionId(it).Some?
    ensures var id := ActionId(it).value;
      OnQtyChange(c, it, raw).lines == Without(c.lines, id) + [Line(Bare(id), TypedQty(raw), 0)]
  {
    ReAddAppends(c, ActionId(it).value, TypedQty(raw));
  }

  /** After a quantity change, exactly one line carries the id, and it is the last. */
  lemma OneLineAfterRewrite(c: Shadow, it: Line, raw: Option<int>)
    requires ActionId(it).Some?
    ensures var id := ActionId(it).value;
      var lines := OnQtyChange(c, it, raw).lines;
      LineId(lines[|lines| - 1]) == Some(id) && forall j | 0 <= j < |lines| - 1 :: LineId(lines[j]) != Some(id)
  {
    var id := ActionId(it).value;
    QtyChangeMovesToEnd(c, it, raw);
    var kept := Without(c.lines, id);
    assert forall j | 0 <= j < |kept| :: kept[j] in kept;
  }

  /** `clear`: `clearCart()`. */
  function Clear(c: Shadow): (r: Shadow)
    ensures r.lines == [] && r.total == 0 && r.userId == c.userId
  {
    ClearCart(c)
  }
}
