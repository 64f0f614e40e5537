/**
  The shadow cart of services/cart.service.ts: the copy of the cart kept in
  local storage, updated optimistically before the backend answers.

  Each operation takes the shadow just loaded from storage and returns the
  shadow it saves (which is also what it emits). Prices are whole numbers
  (cents); the `toFixed(2)` rounding of the total is not modelled. The
  backend calls are fire-and-forget and have no effect on the shadow, except
  for the line list `getCart` receives and the catalog hydration reads, which
  are parameters.
 */
module Cart {
  import opened Wrappers
  import opened Text

  // ---------------------------------------------------------------------------
  // Data
  // ---------------------------------------------------------------------------

  /** A product record; `price` is `None` when the stored value is not a number. */
  datatype Product = Product(id: string, title: string, author: string, year: int, price: Option<int>, cover: string)

  /** A line's `product_id`: a bare id, a product record, or missing (`null`/`undefined`). */
  datatype ProductRef = Bare(id: string) | Record(product: Product) | Absent

  /** A cart line; `flatPrice` is the legacy top-level `price` field, 0 when absent. */
  datatype Line = Line(ref: ProductRef, quantity: int, flatPrice: int)

  datatype Shadow = Shadow(userId: Option<string>, lines: seq<Line>, total: int)

  /** `Partial<CartProduct>`: the optional hint `addProduct` may receive. */
  datatype Hint = Hint(title: Option<string>, author: Option<string>, year: Option<int>, price: Option<int>, cover: Option<string>)

  /** The empty shadow `loadShadow` falls back to. */
  const EMPTY_SHADOW := Shadow(None, [], 0)

  /** JavaScript's `x || y` on numbers (NaN is not modelled). */
  function OrInt(x: int, y: int): int {
    if x != 0 then x else y
  }

  /** JavaScript's `x || y` on strings. */
  function OrStr(x: string, y: string): string {
    if x != "" then x else y
  }

  /** `isCartProduct`: a truthy, non-string `product_id`. */
  function IsCartProduct(r: ProductRef): (b: bool)
    ensures b <==> !r.Absent? && !r.Bare?
  {
    r.Record?
  }

  /** The id the service compares: the record's `_id`, the bare string, or nothing. */
  function LineId(l: Line): (r: Option<string>)
    ensures r.None? <==> l.ref.Absent?
    ensures l.ref.Bare? ==> r == Some(l.ref.id)
    ensures l.ref.Record? ==> r == Some(l.ref.product.id)
  {
    match l.ref
    case Bare(s) => Some(s)
    case Record(p) => Some(p.id)
    case Absent => None
  }

  /** No two lines share an id. */
  predicate UniqueIds(lines: seq<Line>) {
    forall i, j | 0 <= i < j < |lines| :: LineId(lines[i]).Some? ==> LineId(lines[i]) != LineId(lines[j])
  }

  // ---------------------------------------------------------------------------
  // Storage
  // ---------------------------------------------------------------------------

  /**
    What `JSON.parse` gave for the stored shadow: `products` is `None` when
    not an array and `total` is `None` when not a number.
   */
  datatype Stored = Stored(userId: Option<string>, products: Option<seq<Line>>, total: Option<int>)

  /** `loadShadow`; `None` stands for no storage, no entry, or a parse failure. */
  function LoadShadow(stored: Option<Stored>): (r: Shadow)
    ensures stored.None? ==> r == EMPTY_SHADOW
    ensures stored.Some? ==> r.userId == stored.value.userId
    ensures stored.Some? && stored.value.products.None? ==> r.lines == []
    ensures stored.Some? && stored.value.total.None? ==> r.total == 0
  {
    match stored
    case None => EMPTY_SHADOW
    case Some(s) => Shadow(s.userId, s.products.GetOr([]), s.total.GetOr(0))
  }

  /** What `saveShadow` writes. */
  function StoreShadow(c: Shadow): Stored {
    Stored(c.userId, Some(c.lines), Some(c.total))
  }

  /** Loading what was saved gives the saved shadow back. */
  lemma LoadOfStore(c: Shadow)
    ensures LoadShadow(Some(StoreShadow(c))) == c
  {
  }

  // ---------------------------------------------------------------------------
  // Prices and totals
  // ---------------------------------------------------------------------------

  /** `getPrice`: the record's price, else the flat price, else 0 (a zero price counts as missing). */
  function GetPrice(l: Line): (r: int)
    ensures l.ref.Record? && l.ref.product.price.GetOr(0) != 0 ==> r == l.ref.product.price.value
    ensures !(l.ref.Record? && l.ref.product.price.GetOr(0) != 0) ==> r == l.flatPrice
  {
    var fromObj := if IsCartProduct(l.ref) then l.ref.product.price.GetOr(0) else 0;
    OrInt(OrInt(fromObj, l.flatPrice), 0)
  }

  /** `Number(l.quantity || 1)`: a zero quantity counts as one. */
  function Qty(l: Line): (r: int)
    ensures l.quantity != 0 ==> r == l.quantity
    ensures l.quantity == 0 ==> r == 1
  {
    OrInt(l.quantity, 1)
  }

  /** Every line has a non-negative price and quantity. */
  predicate NonNegativeLines(lines: seq<Line>) {
    forall i | 0 <= i < |lines| :: GetPrice(lines[i]) >= 0 && Qty(lines[i]) >= 0
  }

  /** `computeTotal`: the sum of price times quantity over the lines. */
  function ComputeTotal(lines: seq<Line>): int
    decreases |lines|
  {
    if lines == [] then 0
    else ComputeTotal(lines[..|lines| - 1]) + GetPrice(lines[|lines| - 1]) * Qty(lines[|lines| - 1])
  }

  /** The total adds up over a concatenation: each line contributes its own price times quantity. */
  lemma {:induction false} TotalConcat(a: seq<Line>, b: seq<Line>)
    ensures ComputeTotal(a + b) == ComputeTotal(a) + ComputeTotal(b)
    decreases |b|
  {
    if b == [] {
      assert a + b == a;
    } else {
      var b' := b[..|b| - 1];
      assert (a + b)[..|a + b| - 1] == a + b';
      assert (a + b)[|a + b| - 1] == b[|b| - 1];
      TotalConcat(a, b');
    }
  }

  /** Lines with non-negative prices and quantities never total below zero. */
  lemma {:induction false} TotalNonNegative(lines: seq<Line>)
    requires NonNegativeLines(lines)
    ensures ComputeTotal(lines) >= 0
    decreases |lines|
  {
    if lines != [] {
      var init := lines[..|lines| - 1];
      assert NonNegativeLines(init) by {
        forall i | 0 <= i < |init| ensures GetPrice(init[i]) >= 0 && Qty(init[i]) >= 0 {
          assert init[i] == lines[i];
        }
      }
      TotalNonNegative(init);
      var l := lines[|lines| - 1];
      assert GetPrice(l) >= 0 && Qty(l) >= 0;
    }
  }

  /** The total of a single line. */
  lemma TotalSingle(l: Line)
    ensures ComputeTotal([l]) == GetPrice(l) * Qty(l)
  {
    assert [l][..0] == [];
  }

  /** `saveShadow`: the total is recomputed from the lines before writing. */
  function Save(c: Shadow): (r: Shadow)
    ensures r.userId == c.userId && r.lines == c.lines
    ensures r.total == ComputeTotal(c.lines)
  {
    c.(total := ComputeTotal(c.lines))
  }

  // ---------------------------------------------------------------------------
  // addProduct
  // ---------------------------------------------------------------------------

  /** `Math.max(1, Number(quantity || 1))`. */
  function NormQty(quantity: int): (q: int)
    ensures q >= 1
    ensures quantity >= 1 ==> q == quantity
    ensures quantity < 1 ==> q == 1
  {
    var x := OrInt(quantity, 1);
    if x > 1 then x else 1
  }

  /** `findIndex` of the first line whose id is `pid`. */
  function FindLine(lines: seq<Line>, pid: string): (r: Option<nat>)
    ensures r.Some? ==> r.value < |lines| && LineId(lines[r.value]) == Some(pid)
    ensures r.Some? ==> forall j | 0 <= j < r.value :: LineId(lines[j]) != Some(pid)
    ensures r.None? <==> forall j | 0 <= j < |lines| :: LineId(lines[j]) != Some(pid)
    decreases |lines|
  {
    if lines == [] then None
    else if LineId(lines[0]) == Some(pid) then Some(0)
    else
      var r := FindLine(lines[1..], pid);
      if r.Some? then Some(r.value + 1) else None
  }

  /** A record built from a hint alone: missing fields become empty or 0. */
  function FromHint(pid: string, h: Hint): (p: Product)
    ensures p.id == pid && p.price == Some(h.price.GetOr(0))
  {
    Product(pid, h.title.GetOr(""), h.author.GetOr(""), h.year.GetOr(0), Some(h.price.GetOr(0)), h.cover.GetOr(""))
  }

  /** An existing record enriched by a hint: its own non-empty fields and positive price win. */
  function MergeHint(p: Product, h: Hint): (r: Product)
    ensures r.id == p.id
    ensures r.title == (if p.title != "" then p.title else h.title.GetOr(""))
    ensures r.author == (if p.author != "" then p.author else h.author.GetOr(""))
    ensures r.year == (if p.year != 0 then p.year else h.year.GetOr(0))
    ensures r.cover == (if p.cover != "" then p.cover else h.cover.GetOr(""))
    ensures r.price == Some(if p.price.Some? && p.price.value > 0 then p.price.value else h.price.GetOr(0))
  {
    Product(
      p.id,
      OrStr(OrStr(p.title, h.title.GetOr("")), ""),
      OrStr(OrStr(p.author, h.author.GetOr("")), ""),
      OrInt(OrInt(p.year, h.year.GetOr(0)), 0),
      Some(if p.price.Some? && p.price.value > 0 then p.price.value else h.price.GetOr(0)),
      OrStr(OrStr(p.cover, h.cover.GetOr("")), ""))
  }

  /** A record with every field filled and a positive price is left as it is by any hint. */
  lemma MergeHintKeepsComplete(p: Product, h: Hint)
    requires p.title != "" && p.author != "" && p.year != 0 && p.cover != ""
    requires p.price.Some? && p.price.value > 0
    ensures MergeHint(p, h) == p
  {
  }

  /** Enriching twice with the same hint is enriching once. */
  lemma MergeHintIdempotent(p: Product, h: Hint)
    ensures MergeHint(MergeHint(p, h), h) == MergeHint(p, h)
  {
  }

  /** The line `addProduct` appends for an id not yet in the cart. */
  function NewLine(pid: string, q: int, hint: Option<Hint>): (l: Line)
    ensures LineId(l) == Some(pid) && l.quantity == q
  {
    Line(if hint.Some? then Record(FromHint(pid, hint.value)) else Bare(pid), q, 0)
  }

  /** What a hint does to the `product_id` of an existing line. */
  function Enrich(ref: ProductRef, pid: string, hint: Option<Hint>): ProductRef {
    match hint
    case None => ref
    case Some(h) => if IsCartProduct(ref) then Record(MergeHint(ref.product, h)) else Record(FromHint(pid, h))
  }

  /**
    `addProduct` on the shadow: an existing line for the id gains the
    normalised quantity (and the hint's data); otherwise one new line is
    appended at the end.
   */
  function AddProduct(c: Shadow, pid: string, quantity: int, hint: Option<Hint>): (r: Shadow)
    ensures r.userId == c.userId && r.total == ComputeTotal(r.lines)
    ensures FindLine(c.lines, pid).Some? ==>
      var i := FindLine(c.lines, pid).value;
      && |r.lines| == |c.lines|
      && r.lines[i] == Line(Enrich(c.lines[i].ref, pid, hint), c.lines[i].quantity + NormQty(quantity), c.lines[i].flatPrice)
      && LineId(r.lines[i]) == Some(pid)
      && forall j | 0 <= j < |c.lines| && j != i :: r.lines[j] == c.lines[j]
    ensures FindLine(c.lines, pid).None? ==>
      r.lines == c.lines + [NewLine(pid, NormQty(quantity), hint)]
  {
    var q := NormQty(quantity);
    match FindLine(c.lines, pid)
    case Some(i) =>
      var l := c.lines[i];
      Save(c.(lines := c.lines[i := Line(Enrich(l.ref, pid, hint), l.quantity + q, l.flatPrice)]))
    case None =>
      Save(c.(lines := c.lines + [NewLine(pid, q, hint)]))
  }

  /** Every line keeps its id under `addProduct`, and the id added is present afterwards. */
  lemma AddProductIds(c: Shadow, pid: string, quantity: int, hint: Option<Hint>)
    ensures var r := AddProduct(c, pid, quantity, hint);
      && (forall j | 0 <= j < |c.lines| :: LineId(r.lines[j]) == LineId(c.lines[j]))
      && (exists j | 0 <= j < |r.lines| :: LineId(r.lines[j]) == Some(pid))
  {
    var r := AddProduct(c, pid, quantity, hint);
    var f := FindLine(c.lines, pid);
    if f.Some? {
      assert LineId(r.lines[f.value]) == Some(pid);
    } else {
      assert LineId(r.lines[|c.lines|]) == Some(pid);
    }
  }

  /** `addProduct` keeps at most one line per id. */
  lemma AddProductUnique(c: Shadow, pid: string, quantity: int, hint: Option<Hint>)
    requires UniqueIds(c.lines)
    ensures UniqueIds(AddProduct(c, pid, quantity, hint).lines)
  {
    AddProductIds(c, pid, quantity, hint);
    var r := AddProduct(c, pid, quantity, hint);
    if FindLine(c.lines, pid).None? {
      forall i, j | 0 <= i < j < |r.lines| && LineId(r.lines[i]).Some?
        ensures LineId(r.lines[i]) != LineId(r.lines[j])
      {
        if j == |c.lines| {
          assert LineId(r.lines[i]) == LineId(c.lines[i]);
        }
      }
    }
  }

  /** Replacing one line changes the total by the difference of the two lines' contributions. */
  lemma TotalReplace(s: seq<Line>, i: nat, x: Line)
    requires i < |s|
    ensures ComputeTotal(s[i := x]) == ComputeTotal(s) - GetPrice(s[i]) * Qty(s[i]) + GetPrice(x) * Qty(x)
  {
    var pre, post := s[..i], s[i + 1..];
    assert s == (pre + [s[i]]) + post;
    assert s[i := x] == (pre + [x]) + post;
    TotalConcat(pre + [s[i]], post);
    TotalConcat(pre, [s[i]]);
    TotalConcat(pre + [x], post);
    TotalConcat(pre, [x]);
    TotalSingle(s[i]);
    TotalSingle(x);
  }

  /** Without a hint, adding an id already present only raises that line's quantity. */
  lemma AddExistingLine(c: Shadow, pid: string, quantity: int)
    requires FindLine(c.lines, pid).Some?
    ensures var i := FindLine(c.lines, pid).value;
      AddProduct(c, pid, quantity, None).lines
        == c.lines[i := c.lines[i].(quantity := c.lines[i].quantity + NormQty(quantity))]
  {
  }

  /** Raising a quantity of at least one by `q` raises the line's contribution by its price times `q`. */
  lemma RaiseContribution(l: Line, q: int)
    requires l.quantity >= 1 && q >= 1
    ensures GetPrice(l.(quantity := l.quantity + q)) * Qty(l.(quantity := l.quantity + q))
      == GetPrice(l) * Qty(l) + GetPrice(l) * q
  {
    var p := GetPrice(l);
    assert GetPrice(l.(quantity := l.quantity + q)) == p;
    assert p * (l.quantity + q) == p * l.quantity + p * q;
  }

  /** Adding a line for an id that is already there changes the total by that line's price times `q`. */
  lemma AddExistingTotal(c: Shadow, pid: string, quantity: int)
    requires FindLine(c.lines, pid).Some?
    requires c.lines[FindLine(c.lines, pid).value].quantity >= 1
    ensures AddProduct(c, pid, quantity, None).total
      == ComputeTotal(c.lines) + GetPrice(c.lines[FindLine(c.lines, pid).value]) * NormQty(quantity)
  {
    var i := FindLine(c.lines, pid).value;
    var l, q := c.lines[i], NormQty(quantity);
    AddExistingLine(c, pid, quantity);
    TotalReplace(c.lines, i, l.(quantity := l.quantity + q));
    RaiseContribution(l, q);
  }

  /** A new id without a hint enters as a bare id with no price, so the total does not move. */
  lemma AddNewBareTotal(c: Shadow, pid: string, quantity: int)
    requires FindLine(c.lines, pid).None?
    ensures AddProduct(c, pid, quantity, None).total == ComputeTotal(c.lines)
  {
    var l := NewLine(pid, NormQty(quantity), None);
    TotalConcat(c.lines, [l]);
    TotalSingle(l);
  }

  // ---------------------------------------------------------------------------
  // removeProduct and clearCart
  // ---------------------------------------------------------------------------

  /** The `filter` of `removeProduct`: the lines whose id is not `pid` (lines without an id stay). */
  function Without(lines: seq<Line>, pid: string): (r: seq<Line>)
    ensures forall l | l in r :: l in lines && LineId(l) != Some(pid)
    ensures forall i | 0 <= i < |lines| && LineId(lines[i]) != Some(pid) :: lines[i] in r
  {
    Filter(l => LineId(l) != Some(pid), lines)
  }

  /** Removing distributes over concatenation, so the kept lines stay in their order. */
  lemma WithoutConcat(a: seq<Line>, b: seq<Line>, pid: string)
    ensures Without(a + b, pid) == Without(a, pid) + Without(b, pid)
  {
    FilterConcat(l => LineId(l) != Some(pid), a, b);
  }

  /** Removing an id that no line has changes nothing. */
  lemma WithoutAbsent(lines: seq<Line>, pid: string)
    requires forall i | 0 <= i < |lines| :: LineId(lines[i]) != Some(pid)
    ensures Without(lines, pid) == lines
  {
    FilterKeepsAll(l => LineId(l) != Some(pid), lines);
  }

  /** `removeProduct`: every line with the id goes, the rest stay in order, the owner is kept. */
  function RemoveProduct(c: Shadow, pid: string): (r: Shadow)
    ensures r.userId == c.userId && r.total == ComputeTotal(r.lines)
    ensures r.lines == Without(c.lines, pid)
    ensures forall i | 0 <= i < |r.lines| :: LineId(r.lines[i]) != Some(pid)
  {
    var r := Save(c.(lines := Without(c.lines, pid)));
    assert forall i | 0 <= i < |r.lines| :: r.lines[i] in r.lines;
    r
  }

  /** `removeProduct` keeps at most one line per id. */
  lemma RemoveProductUnique(c: Shadow, pid: string)
    requires UniqueIds(c.lines)
    ensures UniqueIds(RemoveProduct(c, pid).lines)
  {
    var rel := (a: Line, b: Line) => LineId(a).Some? ==> LineId(a) != LineId(b);
    FilterPairwise(l => LineId(l) != Some(pid), c.lines, rel);
  }

  /** Replacing a line of the removed id by another line of that id does not change what is kept. */
  lemma WithoutReplace(s: seq<Line>, i: nat, x: Line, pid: string)
    requires i < |s| && LineId(s[i]) == Some(pid) && LineId(x) == Some(pid)
    ensures Without(s[i := x], pid) == Without(s, pid)
  {
    var pre, post := s[..i], s[i + 1..];
    assert s == (pre + [s[i]]) + post;
    assert s[i := x] == (pre + [x]) + post;
    WithoutConcat(pre + [s[i]], post, pid);
    WithoutConcat(pre, [s[i]], pid);
    WithoutConcat(pre + [x], post, pid);
    WithoutConcat(pre, [x], pid);
    assert Without([s[i]], pid) == [] == Without([x], pid);
  }

  /** Removing an id undoes adding it: whatever `addProduct` did to that id's line is dropped with it. */
  lemma RemoveAfterAdd(c: Shadow, pid: string, quantity: int, hint: Option<Hint>)
    ensures RemoveProduct(AddProduct(c, pid, quantity, hint), pid).lines == RemoveProduct(c, pid).lines
  {
    var r := AddProduct(c, pid, quantity, hint);
    var f := FindLine(c.lines, pid);
    if f.Some? {
      var i := f.value;
      assert r.lines == c.lines[i := r.lines[i]];
      WithoutReplace(c.lines, i, r.lines[i], pid);
    } else {
      var l := NewLine(pid, NormQty(quantity), hint);
      WithoutConcat(c.lines, [l], pid);
      assert Without([l], pid) == [];
      assert c.lines + [] == c.lines;
    }
  }

  /** Removing twice is removing once. */
  lemma RemoveIdempotent(c: Shadow, pid: string)
    ensures RemoveProduct(RemoveProduct(c, pid), pid) == RemoveProduct(c, pid)
  {
    var r := RemoveProduct(c, pid);
    WithoutAbsent(r.lines, pid);
  }

  /** `clearCart`: no lines, total 0, same owner. */
  function ClearCart(c: Shadow): (r: Shadow)
    ensures r == Shadow(c.userId, [], 0)
  {
    Save(Shadow(c.userId, [], 0))
  }

  // ---------------------------------------------------------------------------
  // Catalog hydration
  // ---------------------------------------------------------------------------

  /** A product of the catalog (`productSvc.getAll()`). */
  datatype CatalogItem = CatalogItem(id: string, title: string, author: string, publishYear: int, year: int, price: int, cover: string)

  /** `byId[String(p._id)] = p` over the catalog: a later entry for the same id wins. */
  function ById(all: seq<CatalogItem>): (r: map<string, CatalogItem>)
    ensures forall k | k in r :: r[k].id == k && r[k] in all
    ensures forall i | 0 <= i < |all| :: all[i].id in r
    decreases |all|
  {
    if all == [] then map[]
    else
      var last := all[|all| - 1];
      var prev := ById(all[..|all| - 1]);
      assert forall i | 0 <= i < |all| - 1 :: all[i] == all[..|all| - 1][i];
      prev[last.id := last]
  }

  /** The lines hydration looks for: a bare id, or a record without a numeric price. */
  predicate NeedsData(l: Line) {
    l.ref.Bare? || (l.ref.Record? && l.ref.product.price.None?)
  }

  /** The record hydration builds from a catalog entry. */
  function FromCatalog(f: CatalogItem): (p: Product)
    ensures p.id == f.id && p.price == Some(f.price)
  {
    Product(f.id, f.title, f.author, OrInt(OrInt(f.publishYear, f.year), 0), Some(OrInt(f.price, 0)), f.cover)
  }

  /** The line gets rewritten: it has a non-empty id the catalog knows, and needs data. */
  predicate Hydrates(l: Line, byId: map<string, CatalogItem>) {
    LineId(l).Some? && LineId(l).value != "" && LineId(l).value in byId && NeedsData(l)
  }

  function HydrateLine(l: Line, byId: map<string, CatalogItem>): (r: Line)
    ensures Hydrates(l, byId) ==> r == l.(ref := Record(FromCatalog(byId[LineId(l).value])))
    ensures !Hydrates(l, byId) ==> r == l
  {
    if Hydrates(l, byId) then l.(ref := Record(FromCatalog(byId[LineId(l).value]))) else l
  }

  /**
    `hydrateShadowInBackground` once the catalog `all` has arrived (an empty
    catalog when the request fails or times out): lines that need data and
    are in the catalog become full records; the shadow is saved only if a
    line changed.
   */
  function Hydrate(c: Shadow, all: seq<CatalogItem>): (r: Shadow)
    ensures r.userId == c.userId && |r.lines| == |c.lines|
    ensures forall i | 0 <= i < |c.lines| :: r.lines[i] == HydrateLine(c.lines[i], ById(all))
    ensures (exists i | 0 <= i < |c.lines| :: Hydrates(c.lines[i], ById(all))) ==> r.total == ComputeTotal(r.lines)
    ensures (forall i | 0 <= i < |c.lines| :: !Hydrates(c.lines[i], ById(all))) ==> r == c
  {
    var byId := ById(all);
    if exists i | 0 <= i < |c.lines| :: Hydrates(c.lines[i], byId) then
      Save(c.(lines := seq(|c.lines|, i requires 0 <= i < |c.lines| => HydrateLine(c.lines[i], byId))))
    else
      assert c.lines == seq(|c.lines|, i requires 0 <= i < |c.lines| => HydrateLine(c.lines[i], byId));
      c
  }

  /** Hydration only touches `product_id`: ids, quantities and flat prices stay, and hydrated lines need nothing more. */
  lemma HydrateKeeps(c: Shadow, all: seq<CatalogItem>)
    ensures var r := Hydrate(c, all);
      forall i | 0 <= i < |c.lines| ::
        && LineId(r.lines[i]) == LineId(c.lines[i])
        && r.lines[i].quantity == c.lines[i].quantity
        && r.lines[i].flatPrice == c.lines[i].flatPrice
        && (NeedsData(c.lines[i]) || r.lines[i] == c.lines[i])
        && !Hydrates(r.lines[i], ById(all))
  {
  }

  /** Hydrating again with the same catalog changes nothing. */
  lemma HydrateIdempotent(c: Shadow, all: seq<CatalogItem>)
    ensures Hydrate(Hydrate(c, all), all) == Hydrate(c, all)
  {
    HydrateKeeps(c, all);
  }

  /** Hydration keeps at most one line per id. */
  lemma HydrateUnique(c: Shadow, all: seq<CatalogItem>)
    requires UniqueIds(c.lines)
    ensures UniqueIds(Hydrate(c, all).lines)
  {
    HydrateKeeps(c, all);
  }

  // ---------------------------------------------------------------------------
  // getCart: the server step
  // ---------------------------------------------------------------------------

  /** `String(obj)` for a plain object. */
  const OBJECT_STRING := "[object Object]"

  /** A server line's `product_id`: a populated object, a string, or missing. */
  datatype ServerRef =
    | ServerObject(id: string, title: string, author: string, publishYear: int, year: int, price: int, cover: string)
    | ServerString(s: string)
    | ServerNone

  /** A server line; `quantity` 0 also stands for a missing quantity. */
  datatype ServerLine = ServerLine(product: ServerRef, quantity: int)

  /** The backend answer: either `products_id` at the top or under `cart`. */
  datatype ApiResp = ApiResp(productsId: Option<seq<ServerLine>>, cartProductsId: Option<seq<ServerLine>>)

  /** The line list `getCart` reads from the answer (`None` for a failed request). */
  function ServerLines(resp: Option<ApiResp>): seq<ServerLine> {
    match resp
    case None => []
    case Some(a) => if a.productsId.Some? then a.productsId.value else a.cartProductsId.GetOr([])
  }

  /** One server line mapped to a shadow line. */
  function MapServerLine(l: ServerLine): (r: Line)
    ensures r.quantity == (if l.quantity == 0 then 1 else l.quantity) && r.flatPrice == 0
    ensures l.product.ServerObject? && l.product.id != "" ==> r.ref.Record? && r.ref.product.id == l.product.id && r.ref.product.price.Some?
    ensures l.product.ServerObject? && l.product.id == "" ==> r.ref == Bare(OBJECT_STRING)
    ensures l.product.ServerString? ==> r.ref == Bare(l.product.s)
    ensures l.product.ServerNone? ==> r.ref == Bare("")
  {
    var ref := match l.product
      case ServerObject(id, title, author, py, y, price, cover) =>
        if id != "" then Record(Product(id, title, author, OrInt(OrInt(py, y), 0), Some(OrInt(price, 0)), cover))
        else Bare(OBJECT_STRING)
      case ServerString(s) => Bare(OrStr(s, ""))
      case ServerNone => Bare("");
    Line(ref, OrInt(l.quantity, 1), 0)
  }

  /**
    What `getCart`'s background step saves: a non-empty server list replaces
    the lines wholesale; otherwise (an empty list or a failed request) the
    shadow is only hydrated from the catalog.
   */
  function SyncFromServer(c: Shadow, resp: Option<ApiResp>, all: seq<CatalogItem>): (r: Shadow)
    ensures r.userId == c.userId
    ensures |ServerLines(resp)| > 0 ==>
      && |r.lines| == |ServerLines(resp)|
      && (forall i | 0 <= i < |r.lines| :: r.lines[i] == MapServerLine(ServerLines(resp)[i]) && r.lines[i].quantity != 0)
      && r.total == ComputeTotal(r.lines)
    ensures |ServerLines(resp)| == 0 ==> r == Hydrate(c, all)
  {
    var server := ServerLines(resp);
    if |server| > 0 then
      Save(Shadow(c.userId, seq(|server|, i requires 0 <= i < |server| => MapServerLine(server[i])), 0))
    else Hydrate(c, all)
  }

  /** An empty or failed answer never drops a shadow line or changes an id. */
  lemma SyncKeepsLines(c: Shadow, resp: Option<ApiResp>, all: seq<CatalogItem>)
    requires |ServerLines(resp)| == 0
    ensures var r := SyncFromServer(c, resp, all);
      |r.lines| == |c.lines| && forall i | 0 <= i < |c.lines| :: LineId(r.lines[i]) == LineId(c.lines[i])
  {
    HydrateKeeps(c, all);
  }
}
