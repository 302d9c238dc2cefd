/**
 * The decision rules of the HTTP server: the two authentication
 * middlewares, the registration and login ladders, the product slug, the
 * rows of a batch stock request, the cart table's keyed upsert and delete,
 * and the coupon code rules.
 *
 * The database, the JWT library and bcrypt are not modelled: what they
 * answer is passed in (a map for a table, a function for a verifier or a
 * hash). Dates are UTC day numbers; a clock reading is a millisecond
 * timestamp.
 */
module Server {
  import opened Wrappers
  import opened Domain
  import Seqs
  import Text
  import Slug

  /** JavaScript's truthiness of an optional string: present and not empty. */
  predicate Truthy(s: Option<string>) {
    s.Some? && s.value != []
  }

  // ------------------------------------------------------ authentication

  /** What a middleware does: answer with a status and an error message, or call `next()` with `req.userId` and `req.userTipo` set. */
  datatype Gate = Reject(status: int, erro: string) | Next(userId: string, userTipo: string)

  /** The columns `tipo, ativo` of a `usuarios` row, looked up by id. */
  datatype Account = Account(tipo: string, ativo: bool)

  /**
   * `req.headers.authorization?.replace('Bearer ', '')`: the first
   * occurrence of `Bearer ` is removed; a missing header, or one that leaves
   * nothing, yields no token.
   */
  function BearerToken(authorization: Option<string>): (token: Option<string>)
    ensures authorization.None? ==> token.None?
    ensures token.Some? ==> token.value != []
  {
    match authorization
    case None => None
    case Some(h) =>
      var t := Text.ReplaceFirst(h, "Bearer ", "");
      if t == [] then None else Some(t)
  }

  /** The header a logged-in page sends, `Bearer <token>`, yields exactly that token. */
  lemma BearerTokenOfHeader(token: string)
    requires token != []
    ensures BearerToken(Some("Bearer " + token)) == Some(token)
  {
    Text.ReplaceFirstPrefix("Bearer ", token);
  }

  /**
   * `auth`: no token is 401, a token the verifier rejects (`verify`
   * answers `None`, the thrown error of `jwt.verify`) is 401, an unknown or
   * inactive user is 401; otherwise the request proceeds as that user.
   */
  function Authenticate(authorization: Option<string>, verify: string -> Option<string>, usuarios: map<string, Account>): (g: Gate)
    ensures g.Reject? ==> g.status == 401
    ensures BearerToken(authorization).None? ==> g == Reject(401, "Token não fornecido")
    ensures BearerToken(authorization).Some? && verify(BearerToken(authorization).value).None? ==>
      g == Reject(401, "Token inválido ou expirado")
    ensures BearerToken(authorization).Some? && verify(BearerToken(authorization).value).Some? ==>
      var userId := verify(BearerToken(authorization).value).value;
      userId !in usuarios || !usuarios[userId].ativo ==> g == Reject(401, "Usuário inválido ou inativo")
    ensures g.Next? <==>
      && BearerToken(authorization).Some?
      && verify(BearerToken(authorization).value).Some?
      && verify(BearerToken(authorization).value).value in usuarios
      && usuarios[verify(BearerToken(authorization).value).value].ativo
    ensures g.Next? ==>
      && verify(BearerToken(authorization).value) == Some(g.userId)
      && g.userTipo == usuarios[g.userId].tipo
  {
    match BearerToken(authorization)
    case None => Reject(401, "Token não fornecido")
    case Some(token) =>
      match verify(token)
      case None => Reject(401, "Token inválido ou expirado")
      case Some(userId) =>
        if userId !in usuarios || !usuarios[userId].ativo then Reject(401, "Usuário inválido ou inativo")
        else Next(userId, usuarios[userId].tipo)
  }

  /**
   * `adminAuth`: the ladder of `auth` (with a shorter message for an
   * unknown user) followed by a 403 for a user whose `tipo` is not `admin`.
   * It rejects with 401 exactly when `auth` rejects, with 403 exactly when
   * `auth` lets a non-admin through, and otherwise proceeds as `auth` does.
   */
  function AdminAuthenticate(authorization: Option<string>, verify: string -> Option<string>, usuarios: map<string, Account>): (g: Gate)
    ensures g.Reject? ==> g.status == 401 || g.status == 403
    ensures g.Reject? && g.status == 401 <==> Authenticate(authorization, verify, usuarios).Reject?
    ensures g.Reject? && g.status == 403 <==>
      Authenticate(authorization, verify, usuarios).Next? && Authenticate(authorization, verify, usuarios).userTipo != "admin"
    ensures g.Next? <==>
      Authenticate(authorization, verify, usuarios).Next? && Authenticate(authorization, verify, usuarios).userTipo == "admin"
    ensures g.Next? ==> g == Authenticate(authorization, verify, usuarios)
  {
    match BearerToken(authorization)
    case None => Reject(401, "Token não fornecido")
    case Some(token) =>
      match verify(token)
      case None => Reject(401, "Token inválido ou expirado")
      case Some(userId) =>
        if userId !in usuarios || !usuarios[userId].ativo then Reject(401, "Usuário inválido")
        else if usuarios[userId].tipo != "admin" then Reject(403, "Acesso negado. Apenas administradores.")
        else Next(userId, usuarios[userId].tipo)
  }

  // -------------------------------------------------------- registration

  /** The row `POST /api/auth/registro` inserts into `usuarios`. */
  datatype NewAccount = NewAccount(nome: string, email: string, senhaHash: string, telefone: Option<string>, tipo: string)

  datatype Registration = RegisterRejected(status: int, erro: string) | Registered(usuario: NewAccount)

  /**
   * `POST /api/auth/registro`: all of `nome`, `email` and `senha` are
   * required (400), then the password needs at least 6 characters (400),
   * then the e-mail must not be registered yet (400), then the insert must
   * succeed (500). The new account stores the hash of the password, a
   * falsy phone as `null`, and is always a `cliente`.
   */
  function Register(
    nome: Option<string>, email: Option<string>, senha: Option<string>, telefone: Option<string>,
    cadastrados: set<string>, hash: string -> string, insercaoOk: bool): (r: Registration)
    ensures !(Truthy(nome) && Truthy(email) && Truthy(senha)) ==>
      r == RegisterRejected(400, "Nome, email e senha são obrigatórios")
    ensures Truthy(nome) && Truthy(email) && Truthy(senha) && |senha.value| < 6 ==>
      r == RegisterRejected(400, "Senha deve ter pelo menos 6 caracteres")
    ensures r.RegisterRejected? ==> r.status == 400 || r.status == 500
    ensures Truthy(nome) && Truthy(email) && Truthy(senha) && |senha.value| >= 6 && email.value in cadastrados ==>
      r == RegisterRejected(400, "Email já cadastrado")
    ensures Truthy(nome) && Truthy(email) && Truthy(senha) && |senha.value| >= 6 && email.value !in cadastrados && !insercaoOk ==>
      r == RegisterRejected(500, "Erro ao criar usuário")
    ensures r.Registered? <==>
      Truthy(nome) && Truthy(email) && Truthy(senha) && |senha.value| >= 6 && email.value !in cadastrados && insercaoOk
    ensures r.Registered? ==>
      && r.usuario.tipo == "cliente"
      && r.usuario.nome == nome.value && r.usuario.email == email.value
      && r.usuario.senhaHash == hash(senha.value)
      && (r.usuario.telefone.Some? <==> Truthy(telefone))
      && (Truthy(telefone) ==> r.usuario.telefone == telefone)
  {
    if !Truthy(nome) || !Truthy(email) || !Truthy(senha) then
      RegisterRejected(400, "Nome, email e senha são obrigatórios")
    else if |senha.value| < 6 then
      RegisterRejected(400, "Senha deve ter pelo menos 6 caracteres")
    else if email.value in cadastrados then
      RegisterRejected(400, "Email já cadastrado")
    else if !insercaoOk then
      RegisterRejected(500, "Erro ao criar usuário")
    else
      Registered(NewAccount(nome.value, email.value, hash(senha.value), if Truthy(telefone) then telefone else None, "cliente"))
  }

  // --------------------------------------------------------------- login

  /** A `usuarios` row as the login route reads it; the password is the stored bcrypt hash. */
  datatype StoredUser = StoredUser(id: string, nome: string, email: string, senhaHash: string, tipo: string, ativo: bool)

  datatype LoginResult = LoginRejected(status: int, erro: string) | LoggedIn(usuario: StoredUser)

  /**
   * `POST /api/auth/login`: missing fields are 400; an unknown e-mail and a
   * wrong password give the same 401 answer; an inactive account is
   * rejected before its password is compared (`compare` is bcrypt's
   * comparison of a password with a hash).
   */
  function Login(email: Option<string>, senha: Option<string>, porEmail: map<string, StoredUser>, compare: (string, string) -> bool): (r: LoginResult)
    ensures !(Truthy(email) && Truthy(senha)) ==> r == LoginRejected(400, "Email e senha são obrigatórios")
    ensures Truthy(email) && Truthy(senha) && email.value !in porEmail ==>
      r == LoginRejected(401, "Email ou senha inválidos")
    ensures Truthy(email) && Truthy(senha) && email.value in porEmail && porEmail[email.value].ativo
            && !compare(senha.value, porEmail[email.value].senhaHash) ==>
      r == LoginRejected(401, "Email ou senha inválidos")
    ensures Truthy(email) && Truthy(senha) && email.value in porEmail && !porEmail[email.value].ativo ==>
      r == LoginRejected(401, "Usuário inativo")
    ensures r.LoggedIn? <==>
      && Truthy(email) && Truthy(senha) && email.value in porEmail && porEmail[email.value].ativo
      && compare(senha.value, porEmail[email.value].senhaHash)
    ensures r.LoggedIn? ==> r.usuario == porEmail[email.value]
  {
    if !Truthy(email) || !Truthy(senha) then LoginRejected(400, "Email e senha são obrigatórios")
    else if email.value !in porEmail then LoginRejected(401, "Email ou senha inválidos")
    else
      var usuario := porEmail[email.value];
      if !usuario.ativo then LoginRejected(401, "Usuário inativo")
      else if !compare(senha.value, usuario.senhaHash) then LoginRejected(401, "Email ou senha inválidos")
      else LoggedIn(usuario)
  }

  /** Whatever the password comparison says, an inactive account gets the same answer: the password is never looked at. */
  lemma InactiveIgnoresPassword(email: string, senha: string, porEmail: map<string, StoredUser>, c1: (string, string) -> bool, c2: (string, string) -> bool)
    requires email in porEmail && !porEmail[email].ativo
    ensures Login(Some(email), Some(senha), porEmail, c1) == Login(Some(email), Some(senha), porEmail, c2)
  {
  }

  // ------------------------------------------------------------ products

  /** `POST /api/produtos` stores this slug of the product name. */
  function ProductSlug(nome: string): (slug: string)
    ensures Slug.IsSlugText(slug)
  {
    Slug.Slugify(nome)
  }

  // --------------------------------------------------------------- stock

  /** One entry of the `tamanhos` array of a batch request; `None` is a missing or `null` quantity. */
  datatype StockInput = StockInput(tamanhoId: string, quantidade: Option<int>)

  /** A row upserted into `estoque`. */
  datatype StockRow = StockRow(produtoId: string, tamanhoId: string, quantidade: int)

  /** `t.quantidade || 0`: a missing quantity, and zero, become 0. */
  function QuantityOrZero(q: Option<int>): (n: int)
    ensures q.None? ==> n == 0
    ensures q.Some? ==> n == q.value
  {
    q.GetOr(0)
  }

  /**
   * `POST /api/produtos/:id/estoque/batch`: one row per entry, in the same
   * order, each for the product of the route.
   */
  function BatchRows(produtoId: string, tamanhos: seq<StockInput>): (rows: seq<StockRow>)
    ensures |rows| == |tamanhos|
    ensures forall i :: 0 <= i < |rows| ==>
      rows[i] == StockRow(produtoId, tamanhos[i].tamanhoId, QuantityOrZero(tamanhos[i].quantidade))
  {
    if tamanhos == [] then []
    else [StockRow(produtoId, tamanhos[0].tamanhoId, QuantityOrZero(tamanhos[0].quantidade))] + BatchRows(produtoId, tamanhos[1..])
  }

  /** Building the rows of two requests is building the rows of their concatenation. */
  lemma {:induction false} BatchRowsAppend(produtoId: string, a: seq<StockInput>, b: seq<StockInput>)
    ensures BatchRows(produtoId, a + b) == BatchRows(produtoId, a) + BatchRows(produtoId, b)
  {
    if a != [] {
      assert (a + b)[1..] == a[1..] + b;
      BatchRowsAppend(produtoId, a[1..], b);
    } else {
      assert a + b == b;
    }
  }

  // ---------------------------------------------------------- cart table

  /** The conflict key of `carrinho`: user, product and size id. */
  datatype CartKey = CartKey(usuarioId: string, produtoId: string, tamanhoId: string)

  /** The rest of a `carrinho` row: its id and quantity. */
  datatype CartRow = CartRow(id: string, quantidade: int)

  /** The `carrinho` table; being a map, it holds at most one row per conflict key. */
  type CartTable = map<CartKey, CartRow>

  /**
   * `POST /api/carrinho`: an upsert on (usuario_id, produto_id,
   * tamanho_id). An existing row keeps its id and has its quantity REPLACED
   * by the sent one; otherwise a row with the fresh id `novoId` is inserted.
   * No other row changes.
   */
  function UpsertLine(t: CartTable, k: CartKey, quantidade: int, novoId: string): (r: CartTable)
    ensures r.Keys == t.Keys + {k}
    ensures r[k].quantidade == quantidade
    ensures k in t ==> r[k].id == t[k].id
    ensures k !in t ==> r[k].id == novoId
    ensures forall j :: j in t && j != k ==> r[j] == t[j]
  {
    t[k := CartRow(if k in t then t[k].id else novoId, quantidade)]
  }

  /** Sending the same quantity again changes nothing: the upsert is idempotent per key. */
  lemma UpsertIdempotent(t: CartTable, k: CartKey, quantidade: int, id1: string, id2: string)
    ensures UpsertLine(UpsertLine(t, k, quantidade, id1), k, quantidade, id2) == UpsertLine(t, k, quantidade, id1)
  {
  }

  /** The table after the client's adds for one key; the client always sends quantity 1. */
  function ClientAdds(t: CartTable, k: CartKey, novosIds: seq<string>): CartTable
    decreases |novosIds|
  {
    if novosIds == [] then t else ClientAdds(UpsertLine(t, k, 1, novosIds[0]), k, novosIds[1..])
  }

  /** However often a logged-in user adds the same product and size, the row holds quantity 1. */
  lemma {:induction false} ClientAddsStayAtOne(t: CartTable, k: CartKey, novosIds: seq<string>)
    requires novosIds != []
    ensures k in ClientAdds(t, k, novosIds)
    ensures ClientAdds(t, k, novosIds)[k].quantidade == 1
    ensures ClientAdds(t, k, novosIds).Keys == t.Keys + {k}
    ensures forall j :: j in t && j != k ==> ClientAdds(t, k, novosIds)[j] == t[j]
    decreases |novosIds|
  {
    if |novosIds| > 1 {
      ClientAddsStayAtOne(UpsertLine(t, k, 1, novosIds[0]), k, novosIds[1..]);
    }
  }

  /**
   * `DELETE /api/carrinho/:id`: removes the rows whose id is `id` AND whose
   * user is the caller; rows of other users are never touched, whatever
   * their id.
   */
  function DeleteLine(t: CartTable, id: string, usuarioId: string): (r: CartTable)
    ensures forall k :: k in r <==> k in t && !(t[k].id == id && k.usuarioId == usuarioId)
    ensures forall k :: k in r ==> r[k] == t[k]
    ensures forall k :: k in t && k.usuarioId != usuarioId ==> k in r && r[k] == t[k]
  {
    map k | k in t && !(t[k].id == id && k.usuarioId == usuarioId) :: t[k]
  }

  /** Row ids are unique within a user's rows. */
  predicate IdsUniquePerUser(t: CartTable) {
    forall a, b :: a in t && b in t && a.usuarioId == b.usuarioId && t[a].id == t[b].id ==> a == b
  }

  /**
   * Deleting, by its id, a row that was just inserted restores the table
   * the insert started from, provided the fresh id was not in use for that
   * user.
   */
  lemma InsertThenDelete(t: CartTable, k: CartKey, quantidade: int, novoId: string)
    requires k !in t
    requires forall j :: j in t && j.usuarioId == k.usuarioId ==> t[j].id != novoId
    ensures DeleteLine(UpsertLine(t, k, quantidade, novoId), novoId, k.usuarioId) == t
  {
    var r := DeleteLine(UpsertLine(t, k, quantidade, novoId), novoId, k.usuarioId);
    assert r.Keys == t.Keys;
  }

  /** With unique ids per user, a delete removes at most the one row with that id. */
  lemma DeleteRemovesOneRow(t: CartTable, id: string, usuarioId: string, k: CartKey)
    requires IdsUniquePerUser(t)
    requires k in t && t[k].id == id && k.usuarioId == usuarioId
    ensures DeleteLine(t, id, usuarioId).Keys == t.Keys - {k}
  {
  }

  // ------------------------------------------------------------- coupons

  /** `POST`/`PUT /api/cupons`: the body is stored with its code upper-cased and every other field as sent. */
  function StoredCoupon(c: Coupon): (r: Coupon)
    ensures Text.SameUpToCase(r.codigo, c.codigo)
    ensures forall i :: 0 <= i < |r.codigo| ==> !Text.IsLowerAscii(r.codigo[i])
    ensures r.(codigo := c.codigo) == c
  {
    c.(codigo := Text.ToUpper(c.codigo))
  }

  /** Storing a coupon a second time stores the same coupon. */
  lemma StoredCouponIdempotent(c: Coupon)
    ensures StoredCoupon(StoredCoupon(c)) == StoredCoupon(c)
  {
    Text.ToUpperIdempotent(c.codigo);
  }

  /** `new Date().toISOString().split('T')[0]` as a day number: the UTC day of a millisecond timestamp. */
  const MsPerDay: nat := 86400000

  function UtcDay(agoraMs: nat): nat {
    agoraMs / MsPerDay
  }

  /** The filter of `GET /api/cupons/validar/:codigo`: the code equals the upper-cased one, active, and not expired before `hoje`. */
  predicate Redeemable(codigo: string, hoje: int, c: Coupon) {
    c.codigo == Text.ToUpper(codigo) && c.ativo && c.validade >= hoje
  }

  function RedeemableBy(codigo: string, hoje: int): Coupon -> bool {
    (c: Coupon) => Redeemable(codigo, hoje, c)
  }

  /**
   * `GET /api/cupons/validar/:codigo`: `.single()` answers the matching row
   * when exactly one row matches, and the route answers 404 (here `None`)
   * otherwise.
   */
  function ValidateCoupon(cupons: seq<Coupon>, codigo: string, hoje: int): (r: Option<Coupon>)
    ensures r.Some? <==> |Seqs.Filter(cupons, RedeemableBy(codigo, hoje))| == 1
    ensures r.Some? ==> r.value in cupons
    ensures r.Some? ==> r.value.codigo == Text.ToUpper(codigo) && r.value.ativo && r.value.validade >= hoje
  {
    var matches := Seqs.Filter(cupons, RedeemableBy(codigo, hoje));
    if |matches| == 1 then
      Seqs.FilterMembership(cupons, RedeemableBy(codigo, hoje), matches[0]);
      Some(matches[0])
    else None
  }

  /** The codes of the table are unique, as the `cupons` table requires. */
  predicate CodesUnique(cupons: seq<Coupon>) {
    forall i, j :: 0 <= i < j < |cupons| ==> cupons[i].codigo != cupons[j].codigo
  }

  /** With unique codes, at most one row answers a code. */
  lemma {:induction false} AtMostOneMatch(cupons: seq<Coupon>, codigo: string, hoje: int)
    requires CodesUnique(cupons)
    ensures |Seqs.Filter(cupons, RedeemableBy(codigo, hoje))| <= 1
    ensures forall c :: c in cupons && Redeemable(codigo, hoje, c) ==> Seqs.Filter(cupons, RedeemableBy(codigo, hoje)) == [c]
  {
    var p := RedeemableBy(codigo, hoje);
    if cupons != [] {
      assert CodesUnique(cupons[1..]);
      AtMostOneMatch(cupons[1..], codigo, hoje);
      if p(cupons[0]) {
        NoOtherMatch(cupons, codigo, hoje);
        assert Seqs.Filter(cupons, p) == [cupons[0]];
      } else {
        forall c | c in cupons && Redeemable(codigo, hoje, c)
          ensures Seqs.Filter(cupons, p) == [c]
        {
          assert c in cupons[1..];
        }
      }
    }
  }

  /** A matching first row leaves no match in the rest of a table with unique codes. */
  lemma NoOtherMatch(cupons: seq<Coupon>, codigo: string, hoje: int)
    requires CodesUnique(cupons) && cupons != [] && Redeemable(codigo, hoje, cupons[0])
    ensures Seqs.Filter(cupons[1..], RedeemableBy(codigo, hoje)) == []
  {
    var rest := Seqs.Filter(cupons[1..], RedeemableBy(codigo, hoje));
    if rest != [] {
      Seqs.FilterMembership(cupons[1..], RedeemableBy(codigo, hoje), rest[0]);
      assert false;
    }
  }

  /**
   * In a table with unique codes, an active coupon that has not expired is
   * found whatever the letter case the customer types its code in.
   */
  lemma ValidCouponIsFound(cupons: seq<Coupon>, c: Coupon, digitado: string, hoje: int)
    requires CodesUnique(cupons) && c in cupons
    requires c.ativo && c.validade >= hoje && c.codigo == Text.ToUpper(digitado)
    ensures ValidateCoupon(cupons, digitado, hoje) == Some(c)
  {
    AtMostOneMatch(cupons, digitado, hoje);
  }

  /** A coupon that is inactive, or expired before `hoje`, is never answered. */
  lemma ExpiredCouponIsRejected(cupons: seq<Coupon>, codigo: string, hoje: int)
    requires forall i :: 0 <= i < |cupons| ==> !cupons[i].ativo || cupons[i].validade < hoje
    ensures ValidateCoupon(cupons, codigo, hoje) == None
  {
    var m := Seqs.Filter(cupons, RedeemableBy(codigo, hoje));
    if m != [] {
      Seqs.FilterMembership(cupons, RedeemableBy(codigo, hoje), m[0]);
    }
  }
}
