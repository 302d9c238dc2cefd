/**
 * The storefront's pricing rules: the sums `atualizarCarrinho` and
 * `finalizarCompra` compute over the cart, the coupon discount and the
 * clamped total.
 */
module Pricing {
  import opened Wrappers
  import opened Domain
  import Seqs

  /** `item.preco * item.quantidade`. */
  function LineTotal(item: LineItem): real {
    item.preco * item.quantidade as real
  }

  function LineQuantity(item: LineItem): int {
    item.quantidade
  }

  /** Σ preco × quantidade over the cart. */
  function Subtotal(cart: seq<LineItem>): real {
    Seqs.SumReal(cart, LineTotal)
  }

  /** Σ quantidade over the cart: the number shown on the cart badge. */
  function ItemCount(cart: seq<LineItem>): int {
    Seqs.SumInt(cart, LineQuantity)
  }

  predicate PricesNonNegative(cart: seq<LineItem>) {
    forall i :: 0 <= i < |cart| ==> cart[i].preco >= 0.0
  }

  predicate QuantitiesPositive(cart: seq<LineItem>) {
    forall i :: 0 <= i < |cart| ==> cart[i].quantidade >= 1
  }

  /** `Math.max(a, b)`. */
  function Max(a: real, b: real): real {
    if a >= b then a else b
  }

  /** The discount of the applied coupon: none, a percentage of the subtotal, or the coupon's fixed value. */
  function Discount(subtotal: real, cupom: Option<Coupon>): real {
    match cupom
    case None => 0.0
    case Some(c) => if c.tipo == Percentual then subtotal * (c.valor / 100.0) else c.valor
  }

  /** What the cart panel displays. */
  datatype CartTotals = CartTotals(
    subtotal: real,
    quantidade: int,
    desconto: real,
    total: real,
    mostraDesconto: bool)

  /** `atualizarCarrinho`: subtotal, item count, discount, the total clamped at zero, and whether the discount line shows. */
  function Totals(cart: seq<LineItem>, cupom: Option<Coupon>): (t: CartTotals)
    ensures t.subtotal == Subtotal(cart) && t.quantidade == ItemCount(cart)
    ensures cupom.Some? && cupom.value.tipo == Percentual ==> t.desconto == t.subtotal * (cupom.value.valor / 100.0)
    ensures cupom.Some? && cupom.value.tipo != Percentual ==> t.desconto == cupom.value.valor
    ensures t.total >= 0.0
    ensures t.total >= t.subtotal - t.desconto
    ensures t.total == 0.0 || t.total == t.subtotal - t.desconto
    ensures cupom.None? ==> t.desconto == 0.0 && t.total == Max(0.0, t.subtotal) && !t.mostraDesconto
    ensures t.mostraDesconto <==> cupom.Some? && t.desconto > 0.0
  {
    var subtotal := Subtotal(cart);
    var desconto := Discount(subtotal, cupom);
    CartTotals(subtotal, ItemCount(cart), desconto, Max(0.0, subtotal - desconto), cupom.Some? && desconto > 0.0)
  }

  /** The result of `finalizarCompra`. */
  datatype CheckoutOutcome =
    | EmptyCart
    | LoginRequired
    | Summary(itens: nat, subtotal: real, desconto: real, total: real, mostraDesconto: bool)

  /**
   * `finalizarCompra`: an empty cart is rejected first, then a guest; only
   * then are the subtotal, discount and total computed, by the same rules as
   * the cart panel.
   */
  function Checkout(cart: seq<LineItem>, cupom: Option<Coupon>, logado: bool): (r: CheckoutOutcome)
    ensures r == EmptyCart <==> cart == []
    ensures r == LoginRequired <==> cart != [] && !logado
    ensures r.Summary? <==> cart != [] && logado
    ensures r.Summary? ==> && r.itens == |cart|
                           && r.subtotal == Totals(cart, cupom).subtotal
                           && r.desconto == Totals(cart, cupom).desconto
                           && r.total == Totals(cart, cupom).total
                           && r.mostraDesconto == Totals(cart, cupom).mostraDesconto
                           && r.total >= 0.0
  {
    if cart == [] then EmptyCart
    else if !logado then LoginRequired
    else
      var subtotal := Subtotal(cart);
      var desconto :=
        if cupom.Some? then
          (if cupom.value.tipo == Percentual then subtotal * (cupom.value.valor / 100.0) else cupom.value.valor)
        else 0.0;
      Summary(|cart|, subtotal, desconto, Max(0.0, subtotal - desconto), desconto > 0.0)
  }

  /** A 10% coupon on a subtotal of 200 shows a discount of 20 and a total of 180. */
  lemma TenPercentOfTwoHundred(cart: seq<LineItem>, c: Coupon)
    requires Subtotal(cart) == 200.0 && c.tipo == Percentual && c.valor == 10.0
    ensures Totals(cart, Some(c)).desconto == 20.0
    ensures Totals(cart, Some(c)).total == 180.0
    ensures Totals(cart, Some(c)).mostraDesconto
  {
  }

  /** With non-negative prices and quantities the subtotal is non-negative. */
  lemma {:induction false} SubtotalNonNegative(cart: seq<LineItem>)
    requires PricesNonNegative(cart)
    requires forall i :: 0 <= i < |cart| ==> cart[i].quantidade >= 0
    ensures Subtotal(cart) >= 0.0
  {
    if cart != [] {
      SubtotalNonNegative(cart[1..]);
      assert LineTotal(cart[0]) >= 0.0;
    }
  }

  /** Every line counts at least once, so the item count is at least the number of lines. */
  lemma {:induction false} ItemCountAtLeastLines(cart: seq<LineItem>)
    requires QuantitiesPositive(cart)
    ensures ItemCount(cart) >= |cart|
  {
    if cart != [] {
      ItemCountAtLeastLines(cart[1..]);
    }
  }

  /** With non-negative prices and a non-negative discount, 0 <= total <= subtotal. */
  lemma TotalWithinSubtotal(cart: seq<LineItem>, cupom: Option<Coupon>)
    requires PricesNonNegative(cart) && QuantitiesPositive(cart)
    requires Totals(cart, cupom).desconto >= 0.0
    ensures 0.0 <= Totals(cart, cupom).total <= Totals(cart, cupom).subtotal
  {
    SubtotalNonNegative(cart);
  }

  /**
   * A percentage coupon of at most 100% never exceeds the subtotal, so the
   * total is exactly subtotal minus discount.
   */
  lemma PercentageNeedsNoClamp(cart: seq<LineItem>, c: Coupon)
    requires PricesNonNegative(cart) && QuantitiesPositive(cart)
    requires c.tipo == Percentual && 0.0 <= c.valor <= 100.0
    ensures 0.0 <= Totals(cart, Some(c)).desconto <= Totals(cart, Some(c)).subtotal
    ensures Totals(cart, Some(c)).total == Totals(cart, Some(c)).subtotal - Totals(cart, Some(c)).desconto
  {
    SubtotalNonNegative(cart);
    var s, p := Subtotal(cart), c.valor / 100.0;
    assert 0.0 <= p <= 1.0;
    ProductNonNegative(s, p);
    ProductNonNegative(s, 1.0 - p);
    assert s * (1.0 - p) == s - s * p;
  }

  lemma ProductNonNegative(a: real, b: real)
    requires a >= 0.0 && b >= 0.0
    ensures a * b >= 0.0
  {
  }

  /**
   * A fixed coupon worth more than the subtotal makes the total zero while
   * the displayed discount stays the coupon's full value.
   */
  lemma FixedCouponOverSubtotal(cart: seq<LineItem>, c: Coupon)
    requires c.tipo != Percentual && c.valor > Subtotal(cart)
    ensures Totals(cart, Some(c)).total == 0.0
    ensures Totals(cart, Some(c)).desconto == c.valor > Totals(cart, Some(c)).subtotal
  {
  }
}
