/**
 * The records the storefront, the back office and the server pass around.
 * Money is an exact decimal (`real`); coupon expiry dates are UTC day
 * numbers; product creation times are millisecond timestamps.
 */
module Domain {
  import opened Wrappers

  /** A catalogue product as `GET /api/produtos` returns it. */
  datatype Product = Product(
    id: string,
    nome: string,
    descricao: Option<string>,
    preco: real,
    categoriaId: Option<string>,
    createdAt: int,
    imagemPrincipal: string)

  /** The active size button of the product modal: its `data-tamanho` and `data-tamanho-id`. */
  datatype SizeChoice = SizeChoice(tamanho: string, tamanhoId: string)

  /** One line of the shopping cart. */
  datatype LineItem = LineItem(
    id: int,
    produtoId: string,
    nome: string,
    preco: real,
    tamanho: string,
    tamanhoId: string,
    quantidade: int,
    imagem: string)

  /**
   * A row of the `cupons` table. `valorMinimo` is `None` for a missing
   * minimum; `validade` is the expiry date as a day number.
   */
  datatype Coupon = Coupon(
    codigo: string,
    tipo: string,
    valor: real,
    valorMinimo: Option<real>,
    validade: int,
    ativo: bool)

  /** `valor_minimo` is truthy: present and not zero. */
  predicate HasMinimum(c: Coupon) {
    c.valorMinimo.Some? && c.valorMinimo.value != 0.0
  }

  /** The coupon kind the pricing rules single out; every other `tipo` is a fixed amount. */
  const Percentual: string := "percentual"
}
