/**
 * The rules of the back office: the category slug, the order-status and
 * stock badges, the list of sizes the stock modal sends, the coupon form,
 * the coupon badge and the dashboard figures.
 *
 * Form fields arrive already parsed: `None` stands for a number input that
 * `parseInt`/`parseFloat` could not read. Order dates are local calendar
 * dates; the clock is a millisecond timestamp.
 */
module Admin {
  import opened Wrappers
  import opened Domain
  import Seqs
  import Text
  import Slug
  import Server

  // ---------------------------------------------------------- categories

  /**
   * `abrirModalCategoria`: a cancelled or empty prompt creates nothing;
   * otherwise the category gets the same slug the server gives a product of
   * that name.
   */
  function CategorySlug(nome: Option<string>): (slug: Option<string>)
    ensures slug.None? <==> !Server.Truthy(nome)
    ensures slug.Some? ==> Slug.IsSlugText(slug.value) && slug.value == Server.ProductSlug(nome.value)
  {
    if Server.Truthy(nome) then Some(Slug.Slugify(nome.value)) else None
  }

  // -------------------------------------------------------------- badges

  /** `getStatusClass`: delivered orders are green, cancelled ones red, every other status (`enviado` included) amber. */
  function StatusClass(status: string): (classe: string)
    ensures classe == "success" || classe == "warning" || classe == "danger"
    ensures classe == "success" <==> status == "entregue"
    ensures classe == "danger" <==> status == "cancelado"
  {
    match status
    case "entregue" => "success"
    case "cancelado" => "danger"
    case "enviado" => "warning"
    case _ => "warning"
  }

  /** The badge class and label of a stock row. */
  datatype StockBadge = StockBadge(classe: string, rotulo: string)

  const InStock := StockBadge("badge-success", "Em Estoque")
  const LowStock := StockBadge("badge-warning", "Baixo")
  const OutOfStock := StockBadge("badge-danger", "Esgotado")

  /** The stock badge of `carregarEstoque`: a three-way partition of the quantities at 10 and at 0. */
  function StockLevelBadge(quantidade: int): (b: StockBadge)
    ensures b == InStock <==> quantidade > 10
    ensures b == LowStock <==> 1 <= quantidade <= 10
    ensures b == OutOfStock <==> quantidade <= 0
  {
    if quantidade > 10 then InStock else if quantidade > 0 then LowStock else OutOfStock
  }

  /** How good a badge is: 0 out of stock, 1 low, 2 in stock. */
  function StockRank(b: StockBadge): nat {
    if b == InStock then 2 else if b == LowStock then 1 else 0
  }

  /** More stock never shows a worse badge. */
  lemma StockBadgeMonotone(q1: int, q2: int)
    requires q1 <= q2
    ensures StockRank(StockLevelBadge(q1)) <= StockRank(StockLevelBadge(q2))
  {
  }

  // --------------------------------------------------------- stock modal

  /** An entry of `state.tamanhos`. */
  datatype Size = Size(id: string, nome: string)

  /** The stock modal's row for one size: checkbox `tam_<id>` and number input `qty_<id>`. */
  datatype SizeForm = SizeForm(marcado: bool, quantidade: Option<int>)

  /** One entry of `tamanhosSelecionados`. */
  datatype StockEntry = StockEntry(tamanhoId: string, quantidade: int)

  function Checked(form: string -> SizeForm): Size -> bool {
    (t: Size) => form(t.id).marcado
  }

  /** The entry sent for a size: its id and `parseInt(qty) || 0`. */
  function EntryOf(form: string -> SizeForm, t: Size): StockEntry {
    StockEntry(t.id, form(t.id).quantidade.GetOr(0))
  }

  function Entries(form: string -> SizeForm, ts: seq<Size>): (r: seq<StockEntry>)
    ensures |r| == |ts|
    ensures forall i :: 0 <= i < |ts| ==> r[i] == EntryOf(form, ts[i])
  {
    if ts == [] then [] else [EntryOf(form, ts[0])] + Entries(form, ts[1..])
  }

  /** The entries for exactly the checked sizes, in the order of `state.tamanhos`. */
  function SelectedStock(tamanhos: seq<Size>, form: string -> SizeForm): seq<StockEntry> {
    if tamanhos == [] then []
    else (if form(tamanhos[0].id).marcado then [EntryOf(form, tamanhos[0])] else []) + SelectedStock(tamanhos[1..], form)
  }

  /** The list is the entries of the checked sizes, kept in their order. */
  lemma {:induction false} SelectedStockIsFilter(tamanhos: seq<Size>, form: string -> SizeForm)
    ensures SelectedStock(tamanhos, form) == Entries(form, Seqs.Filter(tamanhos, Checked(form)))
  {
    if tamanhos != [] {
      SelectedStockIsFilter(tamanhos[1..], form);
      var rest := Seqs.Filter(tamanhos[1..], Checked(form));
      if form(tamanhos[0].id).marcado {
        assert Seqs.Filter(tamanhos, Checked(form)) == [tamanhos[0]] + rest;
        assert ([tamanhos[0]] + rest)[1..] == rest;
      }
    }
  }

  /**
   * What the list holds: one entry per checked size, in the order of
   * `state.tamanhos`, each with that size's id and parsed quantity (0 when
   * unreadable); a size is listed exactly when its box is checked.
   */
  lemma SelectedStockContents(tamanhos: seq<Size>, form: string -> SizeForm, t: Size)
    ensures var marcados := Seqs.Filter(tamanhos, Checked(form));
      && Seqs.IsSubsequence(marcados, tamanhos)
      && |SelectedStock(tamanhos, form)| == |marcados|
      && (forall i :: 0 <= i < |marcados| ==>
            form(marcados[i].id).marcado
            && SelectedStock(tamanhos, form)[i] == StockEntry(marcados[i].id, form(marcados[i].id).quantidade.GetOr(0)))
      && (t in marcados <==> t in tamanhos && form(t.id).marcado)
  {
    SelectedStockIsFilter(tamanhos, form);
    Seqs.FilterMembership(tamanhos, Checked(form), t);
  }

  /** One more size extends the list by its entry when it is checked, and leaves it as it is otherwise. */
  lemma {:induction false} SelectedStockSnoc(ts: seq<Size>, t: Size, form: string -> SizeForm)
    ensures SelectedStock(ts + [t], form)
         == SelectedStock(ts, form) + (if form(t.id).marcado then [EntryOf(form, t)] else [])
  {
    if ts == [] {
      assert ts + [t] == [t];
      assert [t][1..] == [];
    } else {
      var u := ts + [t];
      assert u[0] == ts[0] && u[1..] == ts[1..] + [t];
      var cabeca := if form(ts[0].id).marcado then [EntryOf(form, ts[0])] else [];
      var cauda := if form(t.id).marcado then [EntryOf(form, t)] else [];
      SelectedStockSnoc(ts[1..], t, form);
      assert SelectedStock(u, form) == cabeca + (SelectedStock(ts[1..], form) + cauda);
      assert SelectedStock(ts, form) == cabeca + SelectedStock(ts[1..], form);
    }
  }

  /** The list is empty exactly when no box is checked. */
  lemma {:induction false} SelectedStockEmpty(ts: seq<Size>, form: string -> SizeForm)
    ensures SelectedStock(ts, form) == [] <==> forall i :: 0 <= i < |ts| ==> !form(ts[i].id).marcado
  {
    if ts != [] {
      SelectedStockEmpty(ts[1..], form);
      assert forall i :: 1 <= i < |ts| ==> ts[i] == ts[1..][i - 1];
    }
  }

  /**
   * `salvarEstoqueProduto`: walks `state.tamanhos` collecting the checked
   * sizes. With none checked nothing is sent (`None`); otherwise the
   * collected list is the request body.
   */
  method SaveProductStock(tamanhos: seq<Size>, form: string -> SizeForm) returns (envio: Option<seq<StockEntry>>)
    ensures envio.None? <==> forall i :: 0 <= i < |tamanhos| ==> !form(tamanhos[i].id).marcado
    ensures envio.Some? ==> envio.value == SelectedStock(tamanhos, form) && envio.value != []
  {
    var selecionados: seq<StockEntry> := [];
    var i := 0;
    while i < |tamanhos|
      invariant 0 <= i <= |tamanhos|
      invariant selecionados == SelectedStock(tamanhos[..i], form)
    {
      var t := tamanhos[i];
      ghost var feitos := tamanhos[..i];
      SelectedStockSnoc(feitos, t, form);
      if form(t.id).marcado {
        selecionados := selecionados + [EntryOf(form, t)];
      }
      i := i + 1;
      assert tamanhos[..i] == feitos + [t];
    }
    assert tamanhos[..i] == tamanhos;
    SelectedStockEmpty(tamanhos, form);
    if |selecionados| == 0 {
      return None;
    }
    return Some(selecionados);
  }

  /** The request body of the stock modal, as the server reads it: every quantity is present. */
  function AsBatchInput(entries: seq<StockEntry>): (r: seq<Server.StockInput>)
    ensures |r| == |entries|
  {
    seq(|entries|, i requires 0 <= i < |entries| => Server.StockInput(entries[i].tamanhoId, Some(entries[i].quantidade)))
  }

  /**
   * The rows the server upserts for what the modal sends are the checked
   * sizes, in order, for the product being edited, with the quantities the
   * modal parsed.
   */
  lemma StockRequestRows(produtoId: string, tamanhos: seq<Size>, form: string -> SizeForm)
    ensures var rows := Server.BatchRows(produtoId, AsBatchInput(SelectedStock(tamanhos, form)));
      var marcados := Seqs.Filter(tamanhos, Checked(form));
      && |rows| == |marcados|
      && forall i :: 0 <= i < |rows| ==>
           rows[i] == Server.StockRow(produtoId, marcados[i].id, form(marcados[i].id).quantidade.GetOr(0))
  {
    SelectedStockIsFilter(tamanhos, form);
  }

  // ------------------------------------------------------------- coupons

  /** The coupon form's fields; `valorMinimo` is `None` when empty or unreadable. */
  datatype CouponForm = CouponForm(codigo: string, tipo: string, valor: real, valorMinimo: Option<real>, validade: int)

  /** The coupon `salvarCupom` sends: the code upper-cased, a falsy minimum as 0, and always active. */
  function CouponFromForm(f: CouponForm): (c: Coupon)
    ensures c.ativo
    ensures Text.SameUpToCase(c.codigo, f.codigo)
    ensures forall i :: 0 <= i < |c.codigo| ==> !Text.IsLowerAscii(c.codigo[i])
    ensures f.valorMinimo.Some? && f.valorMinimo.value != 0.0 ==> c.valorMinimo == f.valorMinimo
    ensures !(f.valorMinimo.Some? && f.valorMinimo.value != 0.0) ==> c.valorMinimo == Some(0.0)
    ensures HasMinimum(c) <==> f.valorMinimo.Some? && f.valorMinimo.value != 0.0
    ensures c.tipo == f.tipo && c.valor == f.valor && c.validade == f.validade
  {
    Coupon(Text.ToUpper(f.codigo), f.tipo, f.valor, Some(f.valorMinimo.GetOr(0.0)), f.validade, true)
  }

  /** The request `salvarCupom` makes: an insert, or an update of the coupon being edited. */
  datatype CouponSave = Create(cupom: Coupon) | Update(id: string, cupom: Coupon)

  /** `salvarCupom`: an invalid form sends nothing; otherwise a `PUT` when a coupon is being edited, else a `POST`. */
  function SaveCoupon(formularioValido: bool, editando: Option<string>, f: CouponForm): (r: Option<CouponSave>)
    ensures r.None? <==> !formularioValido
    ensures r.Some? ==> r.value.cupom == CouponFromForm(f)
    ensures r.Some? ==> (r.value.Update? <==> editando.Some?)
    ensures r.Some? && r.value.Update? ==> r.value.id == editando.value
  {
    if !formularioValido then None
    else match editando
      case Some(id) => Some(Update(id, CouponFromForm(f)))
      case None => Some(Create(CouponFromForm(f)))
  }

  /** The server stores a coupon from the form exactly as the form sent it: its code is already upper-case. */
  lemma FormCouponStoredUnchanged(f: CouponForm)
    ensures Server.StoredCoupon(CouponFromForm(f)) == CouponFromForm(f)
  {
    Text.ToUpperIdempotent(f.codigo);
  }

  /**
   * The coupon table's badge: "Ativo" when the coupon is active and the
   * start of its expiry day (`new Date(validade)`, midnight UTC) is not
   * before now.
   */
  function CouponBadge(c: Coupon, agoraMs: nat): (rotulo: string)
    ensures rotulo == "Ativo" || rotulo == "Inativo"
    ensures rotulo == "Ativo" <==> c.ativo && c.validade * Server.MsPerDay as int >= agoraMs
  {
    if c.ativo && c.validade * Server.MsPerDay as int >= agoraMs then "Ativo" else "Inativo"
  }

  /** A stored coupon (its code upper-case) that the back office shows as "Ativo" is one the server still accepts today. */
  lemma ActiveBadgeIsRedeemable(c: Coupon, agoraMs: nat)
    requires CouponBadge(c, agoraMs) == "Ativo"
    requires forall i :: 0 <= i < |c.codigo| ==> !Text.IsLowerAscii(c.codigo[i])
    ensures c.ativo && c.validade >= Server.UtcDay(agoraMs)
    ensures Server.Redeemable(c.codigo, Server.UtcDay(agoraMs), c)
  {
    var m := Server.MsPerDay as int;
    var d := Server.UtcDay(agoraMs);
    assert agoraMs == d * m + agoraMs % m;
    Text.ToUpperIdentity(c.codigo);
  }

  /**
   * On its expiry day, once midnight UTC has passed, a coupon shows as
   * "Inativo" in the back office while the server still accepts it.
   */
  lemma ExpiryDayBadgeDisagrees(c: Coupon, agoraMs: nat)
    requires c.ativo && c.validade == Server.UtcDay(agoraMs) && agoraMs % Server.MsPerDay != 0
    requires forall i :: 0 <= i < |c.codigo| ==> !Text.IsLowerAscii(c.codigo[i])
    ensures CouponBadge(c, agoraMs) == "Inativo"
    ensures Server.Redeemable(c.codigo, Server.UtcDay(agoraMs), c)
  {
    var m := Server.MsPerDay as int;
    assert agoraMs == c.validade * m + agoraMs % m;
    Text.ToUpperIdentity(c.codigo);
  }

  // ----------------------------------------------------------- dashboard

  /** A calendar date in the browser's time zone. */
  datatype CalendarDate = CalendarDate(ano: int, mes: int, dia: int)

  /** An order as `GET /api/pedidos` lists it. */
  datatype Order = Order(id: string, status: string, total: real, criadoEm: CalendarDate)

  /** The four figures and the recent-orders table of the dashboard. */
  datatype DashboardFigures = DashboardFigures(
    totalProdutos: nat,
    pendentes: nat,
    totalMes: real,
    vendasHoje: nat,
    recentes: seq<Order>)

  function IsPending(): Order -> bool {
    (o: Order) => o.status == "pendente"
  }

  function NotCancelled(): Order -> bool {
    (o: Order) => o.status != "cancelado"
  }

  /** Counted in the month's sales: same month number as today (the year is not compared) and not cancelled. */
  function InMonth(hoje: CalendarDate): Order -> bool {
    (o: Order) => o.criadoEm.mes == hoje.mes && o.status != "cancelado"
  }

  /** Counted in today's sales: same date and not cancelled. */
  function OnDay(hoje: CalendarDate): Order -> bool {
    (o: Order) => o.criadoEm == hoje && o.status != "cancelado"
  }

  function OrderTotal(o: Order): real {
    o.total
  }

  /**
   * `carregarDashboard`: the product count, the pending orders, the sum of
   * the month's non-cancelled totals, today's non-cancelled orders and the
   * first five orders.
   */
  function Dashboard(totalProdutos: nat, pedidos: seq<Order>, hoje: CalendarDate): (d: DashboardFigures)
    ensures d.totalProdutos == totalProdutos
    ensures d.pendentes == |Seqs.Filter(pedidos, IsPending())|
    ensures d.totalMes == Seqs.SumReal(Seqs.Filter(pedidos, InMonth(hoje)), OrderTotal)
    ensures d.vendasHoje == |Seqs.Filter(pedidos, OnDay(hoje))|
    ensures d.pendentes <= |pedidos|
    ensures d.vendasHoje <= |Seqs.Filter(pedidos, InMonth(hoje))|
    ensures |d.recentes| == if |pedidos| < 5 then |pedidos| else 5
    ensures d.recentes == pedidos[..|d.recentes|]
  {
    Seqs.FilterLengthMonotone(pedidos, OnDay(hoje), InMonth(hoje));
    DashboardFigures(
      totalProdutos,
      |Seqs.Filter(pedidos, IsPending())|,
      Seqs.SumReal(Seqs.Filter(pedidos, InMonth(hoje)), OrderTotal),
      |Seqs.Filter(pedidos, OnDay(hoje))|,
      if |pedidos| < 5 then pedidos else pedidos[..5])
  }

  /** With no orders every figure is zero. */
  lemma DashboardEmpty(totalProdutos: nat, hoje: CalendarDate)
    ensures var d := Dashboard(totalProdutos, [], hoje);
      d.pendentes == 0 && d.totalMes == 0.0 && d.vendasHoje == 0 && d.recentes == []
  {
  }

  /**
   * What one more order at the head of the list adds: 1 pending when its
   * status is `pendente`; its total to the month when it is from this month
   * and not cancelled; 1 sale today when it is from today and not cancelled.
   */
  lemma DashboardOneMore(totalProdutos: nat, o: Order, pedidos: seq<Order>, hoje: CalendarDate)
    ensures var antes, depois := Dashboard(totalProdutos, pedidos, hoje), Dashboard(totalProdutos, [o] + pedidos, hoje);
      && depois.pendentes == antes.pendentes + (if o.status == "pendente" then 1 else 0)
      && depois.totalMes == antes.totalMes + (if o.criadoEm.mes == hoje.mes && o.status != "cancelado" then o.total else 0.0)
      && depois.vendasHoje == antes.vendasHoje + (if o.criadoEm == hoje && o.status != "cancelado" then 1 else 0)
  {
    var s := [o] + pedidos;
    assert s[0] == o && s[1..] == pedidos;
    var mes := Seqs.Filter(pedidos, InMonth(hoje));
    if InMonth(hoje)(o) {
      assert Seqs.Filter(s, InMonth(hoje)) == [o] + mes;
      assert ([o] + mes)[1..] == mes;
    }
  }

  /** Pending and non-pending orders together are all the orders. */
  lemma PendingSplit(totalProdutos: nat, pedidos: seq<Order>, hoje: CalendarDate)
    ensures Dashboard(totalProdutos, pedidos, hoje).pendentes + |Seqs.Filter(pedidos, Seqs.Not(IsPending()))| == |pedidos|
  {
    Seqs.FilterPartition(pedidos, IsPending());
  }

  /** Cancelled orders never contribute: dropping them changes neither the month's total nor today's sales. */
  lemma CancelledNeverCount(totalProdutos: nat, pedidos: seq<Order>, hoje: CalendarDate)
    ensures var semCancelados := Seqs.Filter(pedidos, NotCancelled());
      && Dashboard(totalProdutos, semCancelados, hoje).totalMes == Dashboard(totalProdutos, pedidos, hoje).totalMes
      && Dashboard(totalProdutos, semCancelados, hoje).vendasHoje == Dashboard(totalProdutos, pedidos, hoje).vendasHoje
  {
    Seqs.FilterFusion(pedidos, NotCancelled(), InMonth(hoje));
    Seqs.FilterExtensional(pedidos, Seqs.Both(NotCancelled(), InMonth(hoje)), InMonth(hoje));
    Seqs.FilterFusion(pedidos, NotCancelled(), OnDay(hoje));
    Seqs.FilterExtensional(pedidos, Seqs.Both(NotCancelled(), OnDay(hoje)), OnDay(hoje));
  }

  /** The month test ignores the year: an order from the same month of another year counts in the month's total. */
  lemma MonthIgnoresYear(totalProdutos: nat, o: Order, hoje: CalendarDate)
    requires o.criadoEm.mes == hoje.mes && o.criadoEm.ano != hoje.ano && o.status != "cancelado"
    ensures Dashboard(totalProdutos, [o], hoje).totalMes == o.total
    ensures Dashboard(totalProdutos, [o], hoje).vendasHoje == 0
  {
    assert [o][1..] == [];
    assert Seqs.Filter([o], InMonth(hoje)) == [o];
    assert Seqs.SumReal([o], OrderTotal) == o.total + Seqs.SumReal([], OrderTotal);
    assert Seqs.Filter([o], OnDay(hoje)) == [];
  }
}
