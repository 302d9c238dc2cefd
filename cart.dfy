/**
 * The storefront's shopping cart: the list of lines `state.carrinho` that
 * the page changes in place, and the single applied coupon
 * `state.cupomAplicado`.
 *
 * The functions on `seq<LineItem>` say what each operation does to the list;
 * the class `Storefront` holds the page state and its methods perform the
 * operations step by step. Requests to the server made by the logged-in
 * branches are not part of this module (see `Server` for what the server
 * does with them).
 */
module Cart {
  import opened Wrappers
  import opened Domain
  import opened Pricing
  import Seqs
  import Text
  import Server

  /** The test `find` uses to spot an existing line: same product id and same size name. */
  predicate SameLine(item: LineItem, produtoId: string, tamanho: string) {
    item.produtoId == produtoId && item.tamanho == tamanho
  }

  predicate HasLine(cart: seq<LineItem>, produtoId: string, tamanho: string) {
    exists k :: 0 <= k < |cart| && SameLine(cart[k], produtoId, tamanho)
  }

  /** At most one line per (product id, size name). */
  predicate KeysUnique(cart: seq<LineItem>) {
    forall i, j :: 0 <= i < j < |cart| ==> !SameLine(cart[j], cart[i].produtoId, cart[i].tamanho)
  }

  /** The line the guest branch builds for a product and a size. */
  function NewLine(p: Product, size: SizeChoice, now: int): (item: LineItem)
    ensures item.quantidade == 1
    ensures SameLine(item, p.id, size.tamanho) && item.preco == p.preco
  {
    LineItem(now, p.id, p.nome, p.preco, size.tamanho, size.tamanhoId, 1, p.imagemPrincipal)
  }

  /** The first line for (produtoId, tamanho), as `carrinho.find` finds it. */
  function FindLine(cart: seq<LineItem>, produtoId: string, tamanho: string): (r: Option<nat>)
    ensures r.Some? ==> r.value < |cart| && SameLine(cart[r.value], produtoId, tamanho)
    ensures r.Some? ==> forall j :: 0 <= j < r.value ==> !SameLine(cart[j], produtoId, tamanho)
    ensures r.None? <==> !HasLine(cart, produtoId, tamanho)
  {
    if cart == [] then None
    else if SameLine(cart[0], produtoId, tamanho) then Some(0)
    else
      match FindLine(cart[1..], produtoId, tamanho)
      case None =>
        assert forall k :: 1 <= k < |cart| ==> cart[k] == cart[1..][k - 1];
        None
      case Some(k) => Some(k + 1)
  }

  /**
   * Adding `item` as a guest: an existing line for the same product and size
   * name gets one more unit and the list keeps its length; otherwise `item`
   * is appended at the end.
   */
  function AddLine(cart: seq<LineItem>, item: LineItem): (r: seq<LineItem>)
    ensures !HasLine(cart, item.produtoId, item.tamanho) ==> r == cart + [item]
    ensures HasLine(cart, item.produtoId, item.tamanho) ==>
      exists k :: 0 <= k < |cart| && SameLine(cart[k], item.produtoId, item.tamanho)
                  && (forall j :: 0 <= j < k ==> !SameLine(cart[j], item.produtoId, item.tamanho))
                  && r == cart[k := cart[k].(quantidade := cart[k].quantidade + 1)]
  {
    match FindLine(cart, item.produtoId, item.tamanho)
    case Some(k) => cart[k := cart[k].(quantidade := cart[k].quantidade + 1)]
    case None => cart + [item]
  }

  /** `carrinho.splice(index, 1)`. */
  function RemoveAt(cart: seq<LineItem>, index: nat): (r: seq<LineItem>)
    requires index < |cart|
    ensures |r| == |cart| - 1
    ensures forall j :: 0 <= j < index ==> r[j] == cart[j]
    ensures forall j :: index <= j < |r| ==> r[j] == cart[j + 1]
  {
    cart[..index] + cart[index + 1..]
  }

  /** `alterarQuantidade` on the list: add `delta` to one line, and drop the line when it reaches zero or less. */
  function ChangeQuantity(cart: seq<LineItem>, index: nat, delta: int): (r: seq<LineItem>)
    requires index < |cart|
    ensures cart[index].quantidade + delta <= 0 ==> r == RemoveAt(cart, index)
    ensures cart[index].quantidade + delta > 0 ==>
      |r| == |cart| && r[index].quantidade == cart[index].quantidade + delta
      && r[index].(quantidade := 0) == cart[index].(quantidade := 0)
      && forall j :: 0 <= j < |cart| && j != index ==> r[j] == cart[j]
  {
    var q := cart[index].quantidade + delta;
    if q <= 0 then RemoveAt(cart, index) else cart[index := cart[index].(quantidade := q)]
  }

  /** The cart a guest obtains by adding `items` one after the other. */
  function AddAll(cart: seq<LineItem>, items: seq<LineItem>): seq<LineItem>
    decreases |items|
  {
    if items == [] then cart else AddAll(AddLine(cart, items[0]), items[1..])
  }

  /** The quantity held for (produtoId, tamanho), summed over all its lines. */
  function QuantityOf(cart: seq<LineItem>, produtoId: string, tamanho: string): int {
    Seqs.SumInt(cart, (i: LineItem) => if SameLine(i, produtoId, tamanho) then i.quantidade else 0)
  }

  /** How many of `items` are for (produtoId, tamanho). */
  function Occurrences(items: seq<LineItem>, produtoId: string, tamanho: string): nat {
    if items == [] then 0
    else (if SameLine(items[0], produtoId, tamanho) then 1 else 0) + Occurrences(items[1..], produtoId, tamanho)
  }

  // ---------------------------------------------------------------- lemmas

  /** Adding keeps at most one line per key, and keeps every quantity positive. */
  lemma AddKeepsInvariants(cart: seq<LineItem>, item: LineItem)
    requires KeysUnique(cart) && QuantitiesPositive(cart) && item.quantidade >= 1
    ensures KeysUnique(AddLine(cart, item)) && QuantitiesPositive(AddLine(cart, item))
  {
    var r := AddLine(cart, item);
    if !HasLine(cart, item.produtoId, item.tamanho) {
      forall i, j | 0 <= i < j < |r| ensures !SameLine(r[j], r[i].produtoId, r[i].tamanho) {
        if j == |cart| {
          assert !SameLine(cart[i], item.produtoId, item.tamanho);
        }
      }
    } else {
      var k :| 0 <= k < |cart| && SameLine(cart[k], item.produtoId, item.tamanho)
               && r == cart[k := cart[k].(quantidade := cart[k].quantidade + 1)];
      forall i, j | 0 <= i < j < |r| ensures !SameLine(r[j], r[i].produtoId, r[i].tamanho) {
        assert SameLine(r[j], r[i].produtoId, r[i].tamanho) <==> SameLine(cart[j], cart[i].produtoId, cart[i].tamanho);
      }
    }
  }

  /** A guest add puts exactly one more unit in the cart. */
  lemma AddCountsOneMore(cart: seq<LineItem>, item: LineItem)
    requires item.quantidade == 1
    ensures ItemCount(AddLine(cart, item)) == ItemCount(cart) + 1
  {
    if HasLine(cart, item.produtoId, item.tamanho) {
      var k :| 0 <= k < |cart| && SameLine(cart[k], item.produtoId, item.tamanho)
               && AddLine(cart, item) == cart[k := cart[k].(quantidade := cart[k].quantidade + 1)];
      Seqs.SumIntUpdate(cart, k, cart[k].(quantidade := cart[k].quantidade + 1), LineQuantity);
    } else {
      Seqs.SumIntAppend(cart, [item], LineQuantity);
      assert [item][1..] == [];
    }
  }

  /**
   * A guest add raises the subtotal by one unit price: that of the existing
   * line, which keeps the price it was added with, or that of the new line.
   */
  lemma AddRaisesSubtotal(cart: seq<LineItem>, item: LineItem)
    requires item.quantidade == 1
    ensures FindLine(cart, item.produtoId, item.tamanho).Some? ==>
      Subtotal(AddLine(cart, item)) == Subtotal(cart) + cart[FindLine(cart, item.produtoId, item.tamanho).value].preco
    ensures FindLine(cart, item.produtoId, item.tamanho).None? ==>
      Subtotal(AddLine(cart, item)) == Subtotal(cart) + item.preco
  {
    match FindLine(cart, item.produtoId, item.tamanho)
    case Some(k) =>
      var x := cart[k].(quantidade := cart[k].quantidade + 1);
      Seqs.SumRealUpdate(cart, k, x, LineTotal);
      assert LineTotal(x) == LineTotal(cart[k]) + cart[k].preco;
    case None =>
      Seqs.SumRealAppend(cart, [item], LineTotal);
      assert [item][1..] == [];
  }

  /** Adding one unit for a key raises that key's quantity by one and leaves every other key's alone. */
  lemma AddQuantityOf(cart: seq<LineItem>, item: LineItem, produtoId: string, tamanho: string)
    requires item.quantidade == 1
    ensures QuantityOf(AddLine(cart, item), produtoId, tamanho)
         == QuantityOf(cart, produtoId, tamanho) + (if SameLine(item, produtoId, tamanho) then 1 else 0)
  {
    var f := (i: LineItem) => if SameLine(i, produtoId, tamanho) then i.quantidade else 0;
    match FindLine(cart, item.produtoId, item.tamanho)
    case Some(k) =>
      Seqs.SumIntUpdate(cart, k, cart[k].(quantidade := cart[k].quantidade + 1), f);
    case None =>
      Seqs.SumIntAppend(cart, [item], f);
      assert [item][1..] == [];
  }

  /**
   * A cart built by guest adds alone, starting from any cart with one line
   * per key, still has one line per key, and holds for every key the old
   * quantity plus the number of adds for that key.
   */
  lemma {:induction false} AddAllCounts(cart: seq<LineItem>, items: seq<LineItem>, produtoId: string, tamanho: string)
    requires KeysUnique(cart) && QuantitiesPositive(cart)
    requires forall i :: 0 <= i < |items| ==> items[i].quantidade == 1
    ensures KeysUnique(AddAll(cart, items)) && QuantitiesPositive(AddAll(cart, items))
    ensures QuantityOf(AddAll(cart, items), produtoId, tamanho)
         == QuantityOf(cart, produtoId, tamanho) + Occurrences(items, produtoId, tamanho)
    decreases |items|
  {
    if items != [] {
      AddKeepsInvariants(cart, items[0]);
      AddQuantityOf(cart, items[0], produtoId, tamanho);
      AddAllCounts(AddLine(cart, items[0]), items[1..], produtoId, tamanho);
    }
  }

  /** Removing a line keeps the others, in order, and keeps both invariants. */
  lemma RemoveKeepsInvariants(cart: seq<LineItem>, index: nat)
    requires index < |cart|
    requires KeysUnique(cart) && QuantitiesPositive(cart)
    ensures KeysUnique(RemoveAt(cart, index)) && QuantitiesPositive(RemoveAt(cart, index))
    ensures Seqs.IsSubsequence(RemoveAt(cart, index), cart)
    ensures ItemCount(RemoveAt(cart, index)) == ItemCount(cart) - cart[index].quantidade
  {
    var r := RemoveAt(cart, index);
    forall i, j | 0 <= i < j < |r| ensures !SameLine(r[j], r[i].produtoId, r[i].tamanho) {
      var i', j' := if i < index then i else i + 1, if j < index then j else j + 1;
      assert r[i] == cart[i'] && r[j] == cart[j'];
    }
    Seqs.SumIntRemove(cart, index, LineQuantity);
    RemoveIsSubsequence(cart, index);
  }

  /** Removing a line lowers the subtotal by exactly that line's total. */
  lemma RemoveLowersSubtotal(cart: seq<LineItem>, index: nat)
    requires index < |cart|
    ensures Subtotal(RemoveAt(cart, index)) == Subtotal(cart) - LineTotal(cart[index])
  {
    Seqs.SumRealRemove(cart, index, LineTotal);
  }

  lemma {:induction false} RemoveIsSubsequence(cart: seq<LineItem>, index: nat)
    requires index < |cart|
    ensures Seqs.IsSubsequence(RemoveAt(cart, index), cart)
  {
    if index == 0 {
      assert RemoveAt(cart, 0) == cart[1..];
      SubsequenceOfSelf(cart[1..]);
    } else {
      RemoveIsSubsequence(cart[1..], index - 1);
      assert RemoveAt(cart, index)[1..] == RemoveAt(cart[1..], index - 1);
    }
  }

  lemma {:induction false} SubsequenceOfSelf(s: seq<LineItem>)
    ensures Seqs.IsSubsequence(s, s)
  {
    if s != [] {
      SubsequenceOfSelf(s[1..]);
    }
  }

  /** Changing a quantity keeps both invariants, whatever `delta` is. */
  lemma ChangeKeepsInvariants(cart: seq<LineItem>, index: nat, delta: int)
    requires index < |cart|
    requires KeysUnique(cart) && QuantitiesPositive(cart)
    ensures KeysUnique(ChangeQuantity(cart, index, delta)) && QuantitiesPositive(ChangeQuantity(cart, index, delta))
  {
    if cart[index].quantidade + delta <= 0 {
      RemoveKeepsInvariants(cart, index);
    } else {
      var r := ChangeQuantity(cart, index, delta);
      forall i, j | 0 <= i < j < |r| ensures !SameLine(r[j], r[i].produtoId, r[i].tamanho) {
        assert SameLine(r[j], r[i].produtoId, r[i].tamanho) <==> SameLine(cart[j], cart[i].produtoId, cart[i].tamanho);
      }
    }
  }

  /** A change that leaves the line in the cart moves the item count by exactly `delta`. */
  lemma ChangeMovesCount(cart: seq<LineItem>, index: nat, delta: int)
    requires index < |cart| && cart[index].quantidade + delta > 0
    ensures ItemCount(ChangeQuantity(cart, index, delta)) == ItemCount(cart) + delta
  {
    Seqs.SumIntUpdate(cart, index, cart[index].(quantidade := cart[index].quantidade + delta), LineQuantity);
  }

  /** `+delta` then `-delta` on the same line restores the cart, unless the line was dropped in between. */
  lemma ChangeRoundTrip(cart: seq<LineItem>, index: nat, delta: int)
    requires index < |cart| && cart[index].quantidade + delta > 0 && cart[index].quantidade > 0
    ensures ChangeQuantity(ChangeQuantity(cart, index, delta), index, -delta) == cart
  {
  }

  // ------------------------------------------------------------- the page

  /** The part of the storefront's page state the cart operations read and write. */
  class Storefront {
    var carrinho: seq<LineItem>
    var cupomAplicado: Option<Coupon>
    /** Assigned only by the empty-cart reset; the displayed discount is recomputed from `cupomAplicado`. */
    var desconto: real
    var produtoSelecionado: Option<Product>
    var logado: bool
    /**
     * Whether `aplicarCupomBtn` is disabled. A successful application leaves
     * it disabled and nothing enables it again, so from then on a click on
     * it does nothing for the rest of the page's life.
     */
    var cupomBloqueado: bool

    /** The initial page state: empty cart, no coupon, no product open, no user. */
    constructor ()
      ensures carrinho == [] && cupomAplicado == None && desconto == 0.0
      ensures produtoSelecionado == None && !logado && !cupomBloqueado
    {
      carrinho := [];
      cupomAplicado := None;
      desconto := 0.0;
      produtoSelecionado := None;
      logado := false;
      cupomBloqueado := false;
    }

    /**
     * What the operations below maintain: one line per key, positive
     * quantities, no coupon on an empty cart, `desconto` at zero, and an
     * applied coupon only behind a disabled button.
     */
    ghost predicate Consistent()
      reads this
    {
      && KeysUnique(carrinho)
      && QuantitiesPositive(carrinho)
      && (carrinho == [] ==> cupomAplicado == None)
      && (cupomAplicado.Some? ==> cupomBloqueado)
      && desconto == 0.0
    }

    /**
     * `adicionarAoCarrinho`. Without an open product or an active size
     * button nothing changes. A guest's line is merged or appended locally.
     * A logged-in user's add is a request to the server: `recarregado` is the
     * cart reloaded after it succeeded, `None` when it failed, in which case
     * nothing changes. On success the product modal is closed.
     */
    method AddToCart(tamanho: Option<SizeChoice>, now: int, recarregado: Option<seq<LineItem>>)
      modifies this
      ensures old(produtoSelecionado).None? || tamanho.None? || (logado && recarregado.None?) ==>
        carrinho == old(carrinho) && produtoSelecionado == old(produtoSelecionado)
      ensures old(produtoSelecionado).Some? && tamanho.Some? && !logado ==>
        carrinho == AddLine(old(carrinho), NewLine(old(produtoSelecionado).value, tamanho.value, now))
        && produtoSelecionado == None
      ensures old(produtoSelecionado).Some? && tamanho.Some? && logado && recarregado.Some? ==>
        carrinho == recarregado.value && produtoSelecionado == None
      ensures cupomAplicado == old(cupomAplicado) && desconto == old(desconto) && logado == old(logado)
      ensures cupomBloqueado == old(cupomBloqueado)
      ensures old(Consistent()) && !logado ==> Consistent()
    {
      if produtoSelecionado.None? {
        return;
      }
      if tamanho.None? {
        return;
      }
      if logado {
        if recarregado.None? {
          return;
        }
        carrinho := recarregado.value;
        produtoSelecionado := None;
        return;
      }
      var item := NewLine(produtoSelecionado.value, tamanho.value, now);
      ghost var before := carrinho;
      var i := 0;
      while i < |carrinho| && !SameLine(carrinho[i], item.produtoId, item.tamanho)
        invariant 0 <= i <= |carrinho|
        invariant forall j :: 0 <= j < i ==> !SameLine(carrinho[j], item.produtoId, item.tamanho)
      {
        i := i + 1;
      }
      if i < |carrinho| {
        assert FindLine(carrinho, item.produtoId, item.tamanho) == Some(i);
        carrinho := carrinho[i := carrinho[i].(quantidade := carrinho[i].quantidade + 1)];
      } else {
        carrinho := carrinho + [item];
      }
      produtoSelecionado := None;
      if KeysUnique(before) && QuantitiesPositive(before) {
        AddKeepsInvariants(before, item);
      }
    }

    /**
     * `removerDoCarrinho(index)`: the line at `index` goes, the others keep
     * their order; emptying the cart drops the coupon and zeroes `desconto`.
     */
    method RemoveFromCart(index: nat)
      requires index < |carrinho|
      modifies this
      ensures carrinho == RemoveAt(old(carrinho), index)
      ensures carrinho == [] ==> cupomAplicado == None && desconto == 0.0
      ensures carrinho != [] ==> cupomAplicado == old(cupomAplicado) && desconto == old(desconto)
      ensures produtoSelecionado == old(produtoSelecionado) && logado == old(logado)
      ensures cupomBloqueado == old(cupomBloqueado)
      ensures old(Consistent()) ==> Consistent()
    {
      ghost var before := carrinho;
      carrinho := carrinho[..index] + carrinho[index + 1..];
      if |carrinho| == 0 {
        cupomAplicado := None;
        desconto := 0.0;
      }
      if KeysUnique(before) && QuantitiesPositive(before) {
        RemoveKeepsInvariants(before, index);
      }
    }

    /**
     * `alterarQuantidade(index, delta)`: the line's quantity moves by
     * `delta`; at zero or below the line is removed as `RemoveFromCart`
     * removes it.
     */
    method ChangeQuantityAt(index: nat, delta: int)
      requires index < |carrinho|
      modifies this
      ensures carrinho == ChangeQuantity(old(carrinho), index, delta)
      ensures carrinho == [] ==> cupomAplicado == None && desconto == 0.0
      ensures carrinho != [] ==> cupomAplicado == old(cupomAplicado) && desconto == old(desconto)
      ensures produtoSelecionado == old(produtoSelecionado) && logado == old(logado)
      ensures cupomBloqueado == old(cupomBloqueado)
      ensures old(Consistent()) ==> Consistent()
    {
      ghost var before := carrinho;
      var item := carrinho[index].(quantidade := carrinho[index].quantidade + delta);
      carrinho := carrinho[index := item];
      if item.quantidade <= 0 {
        assert RemoveAt(carrinho, index) == RemoveAt(before, index);
        RemoveFromCart(index);
        return;
      }
      if KeysUnique(before) && QuantitiesPositive(before) {
        ChangeKeepsInvariants(before, index, delta);
      }
    }

    /**
     * A click on `aplicarCupomBtn`. While the button is disabled the click
     * does nothing. Otherwise the typed code is trimmed and upper-cased; an
     * empty code or an empty cart returns before anything changes. Then the
     * button is disabled and the server is asked (`lookup`, the answer of
     * `GET /cupons/validar/:codigo`): an unknown code, or a truthy minimum
     * above the subtotal, sets the coupon to null; a valid coupon is applied.
     * The `finally` block enables the button again only when no coupon is
     * applied.
     */
    method ApplyCoupon(entrada: string, lookup: string -> Option<Coupon>) returns (outcome: CouponOutcome)
      modifies this
      ensures carrinho == old(carrinho) && desconto == old(desconto)
      ensures produtoSelecionado == old(produtoSelecionado) && logado == old(logado)
      ensures outcome == Ignored <==> old(cupomBloqueado)
      ensures old(cupomBloqueado) ==> cupomAplicado == old(cupomAplicado) && cupomBloqueado
      ensures outcome == EmptyCode <==> !old(cupomBloqueado) && CouponCode(entrada) == []
      ensures outcome == EmptyCartCode <==> !old(cupomBloqueado) && CouponCode(entrada) != [] && old(carrinho) == []
      ensures outcome == EmptyCode || outcome == EmptyCartCode ==>
        cupomAplicado == old(cupomAplicado) && cupomBloqueado == old(cupomBloqueado)
      ensures outcome != Ignored && outcome != EmptyCode && outcome != EmptyCartCode ==>
        outcome == Verdict(lookup(CouponCode(entrada)), Subtotal(old(carrinho)))
      ensures outcome.Applied? ==> cupomAplicado == Some(outcome.cupom)
      ensures outcome == NotFound || outcome.BelowMinimum? ==> cupomAplicado == None
      ensures cupomBloqueado <==> old(cupomBloqueado) || outcome.Applied?
      ensures old(Consistent()) ==> Consistent()
    {
      if cupomBloqueado {
        return Ignored;
      }
      var codigo := CouponCode(entrada);
      if codigo == [] {
        return EmptyCode;
      }
      if |carrinho| == 0 {
        return EmptyCartCode;
      }
      cupomBloqueado := true;
      var resposta := lookup(codigo);
      outcome := Verdict(resposta, Subtotal(carrinho));
      if outcome.Applied? {
        cupomAplicado := Some(outcome.cupom);
      } else {
        cupomAplicado := None;
      }
      if cupomAplicado.None? {
        cupomBloqueado := false;
      }
    }
  }

  /**
   * After a successful application the button stays disabled: a second
   * click, whatever is typed and whatever the server would answer, is
   * ignored and the first coupon stays applied. Emptying the cart in
   * between drops the coupon but not the lock, so the coupon cannot be
   * applied again.
   */
  method ApplyTwice(sf: Storefront, primeiro: string, segundo: string, lookup: string -> Option<Coupon>, esvaziar: bool)
    returns (o1: CouponOutcome, o2: CouponOutcome)
    modifies sf
    ensures o1.Applied? ==> o2 == Ignored && sf.cupomBloqueado
    ensures o1.Applied? && !esvaziar ==> sf.cupomAplicado == Some(o1.cupom)
    ensures o1.Applied? && esvaziar ==> sf.carrinho == [] && sf.cupomAplicado == None
  {
    o1 := sf.ApplyCoupon(primeiro, lookup);
    if esvaziar {
      while sf.carrinho != []
        invariant o1.Applied? ==> sf.cupomBloqueado
        invariant o1.Applied? && sf.carrinho == [] ==> sf.cupomAplicado == None
        decreases |sf.carrinho|
      {
        sf.RemoveFromCart(0);
      }
    }
    o2 := sf.ApplyCoupon(segundo, lookup);
  }

  /**
   * The code `aplicarCupom` sends: the input without its surrounding
   * whitespace, spelling the same letters with none in lower case.
   */
  function CouponCode(entrada: string): (codigo: string)
    ensures codigo == [] <==> forall i :: 0 <= i < |entrada| ==> Text.IsJsWhitespace(entrada[i])
    ensures forall i :: 0 <= i < |codigo| ==> !Text.IsLowerAscii(codigo[i])
    ensures exists t :: Text.IsTrimOf(entrada, t) && Text.SameUpToCase(codigo, t)
  {
    Text.ToUpper(Text.Trim(entrada))
  }

  /** The contract of `CouponCode` determines the code: any string meeting it is that code. */
  lemma CouponCodeDetermined(entrada: string, t: string, codigo: string)
    requires Text.IsTrimOf(entrada, t) && Text.SameUpToCase(codigo, t)
    requires forall i :: 0 <= i < |codigo| ==> !Text.IsLowerAscii(codigo[i])
    ensures codigo == CouponCode(entrada)
  {
    Text.TrimUnique(entrada, t, Text.Trim(entrada));
    Text.ToUpperUnique(t, codigo);
  }

  /** How a click on the apply button ends; `Ignored` is a click on the disabled button. */
  datatype CouponOutcome =
    | Ignored
    | EmptyCode
    | EmptyCartCode
    | NotFound
    | BelowMinimum(minimo: real)
    | Applied(cupom: Coupon)

  /**
   * The server's answer judged against the subtotal: no answer is an invalid
   * code; a truthy minimum strictly above the subtotal rejects; anything else
   * applies the coupon.
   */
  function Verdict(resposta: Option<Coupon>, subtotal: real): (v: CouponOutcome)
    ensures v == NotFound <==> resposta.None?
    ensures v.BelowMinimum? <==> resposta.Some? && HasMinimum(resposta.value) && subtotal < resposta.value.valorMinimo.value
    ensures v.BelowMinimum? ==> v.minimo == resposta.value.valorMinimo.value
    ensures v.Applied? <==> resposta.Some? && (!HasMinimum(resposta.value) || subtotal >= resposta.value.valorMinimo.value)
    ensures v.Applied? ==> v.cupom == resposta.value
    ensures v != Ignored && v != EmptyCode && v != EmptyCartCode
  {
    match resposta
    case None => NotFound
    case Some(c) =>
      if HasMinimum(c) && subtotal < c.valorMinimo.value then BelowMinimum(c.valorMinimo.value) else Applied(c)
  }

  /**
   * A coupon the storefront applies after the server's validation route
   * answered is active, not expired on the server's day `hoje`, carries the
   * code as typed (trimmed and upper-cased), and its minimum, when set, is
   * met by the subtotal.
   */
  lemma AppliedCouponIsRedeemable(cupons: seq<Coupon>, hoje: int, entrada: string, subtotal: real)
    ensures var v := Verdict(Server.ValidateCoupon(cupons, CouponCode(entrada), hoje), subtotal);
      v.Applied? ==>
        && v.cupom in cupons && v.cupom.ativo && v.cupom.validade >= hoje
        && v.cupom.codigo == CouponCode(entrada)
        && (HasMinimum(v.cupom) ==> subtotal >= v.cupom.valorMinimo.value)
  {
    Text.ToUpperIdempotent(Text.Trim(entrada));
  }

  /** `n` copies of the same line. */
  function Repeat(item: LineItem, n: nat): (r: seq<LineItem>)
    ensures |r| == n
    ensures forall i :: 0 <= i < n ==> r[i] == item
  {
    if n == 0 then [] else [item] + Repeat(item, n - 1)
  }

  lemma {:induction false} RepeatOccurrences(item: LineItem, n: nat)
    ensures Occurrences(Repeat(item, n), item.produtoId, item.tamanho) == n
  {
    if n > 0 {
      RepeatOccurrences(item, n - 1);
      assert Repeat(item, n)[1..] == Repeat(item, n - 1);
    }
  }

  /**
   * The two branches of `adicionarAoCarrinho` disagree on repeated adds: a
   * guest who adds the same product and size `n` times holds `n` units,
   * while a logged-in user's row holds 1, because the client sends
   * quantity 1 and the server's upsert replaces the quantity.
   */
  lemma RepeatedAddsGuestVersusServer(item: LineItem, n: nat, t: Server.CartTable, k: Server.CartKey, novosIds: seq<string>)
    requires item.quantidade == 1 && n >= 1 && |novosIds| == n
    ensures QuantityOf(AddAll([], Repeat(item, n)), item.produtoId, item.tamanho) == n
    ensures k in Server.ClientAdds(t, k, novosIds) && Server.ClientAdds(t, k, novosIds)[k].quantidade == 1
  {
    AddAllCounts([], Repeat(item, n), item.produtoId, item.tamanho);
    RepeatOccurrences(item, n);
    Server.ClientAddsStayAtOne(t, k, novosIds);
  }

  /** A subtotal exactly at the minimum is accepted. */
  lemma MinimumIsInclusive(c: Coupon, subtotal: real)
    requires c.valorMinimo == Some(subtotal)
    ensures Verdict(Some(c), subtotal) == Applied(c)
  {
  }
}
