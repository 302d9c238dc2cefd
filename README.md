# Storefront cart, pricing and back-office rules

A Dafny model of the deterministic logic of a small clothing e-commerce
application: the storefront page (`public/app.js`), the back office
(`public/admin.js`) and the HTTP server (`server.js`).

- **Cart** (`cart.dfy`). The page state is the class `Cart.Storefront`. Its field
  `carrinho` is the list of cart lines. `cupomAplicado` is the single applied
  coupon. Add, change-quantity and remove update these fields in place. Each
  method is tied to a function on `seq<LineItem>` (`AddLine`, `ChangeQuantity`,
  `RemoveAt`). The lemmas about those functions prove at most one line per
  (product id, size *name*) and every quantity at least 1. The methods'
  `Consistent()` postconditions add that an empty cart carries no coupon.
  Applying a coupon follows the page's exact error ladder, and the apply
  button's lock is part of the state. A successful application disables the
  button for good, so an applied coupon is never replaced or cleared by a
  second application, and after the cart empties no coupon can be applied
  again (`Cart.ApplyTwice`). When `aplicarCupom` runs, a failed lookup or an
  unmet minimum sets the coupon to null.
- **Pricing** (`pricing.dfy`). Subtotal, item count, percentage or fixed
  discount, and the total clamped at zero. The displayed discount itself is
  not clamped. Checkout computes the same figures after rejecting an empty
  cart and then a guest.
- **Catalogue** (`catalog.dfy`). The three chained filters are one filter by
  a single test. The result is a subsequence of the catalogue in its original
  order. Sorting is a permutation ordered by the chosen key, and it is stable:
  products with equal keys keep their order (`Catalog.SortByKeyStable`).
- **Slug** (`slug.dfy`). The slug pipeline shared by categories and products.
  It yields only `[a-z0-9-]`, never two dashes in a row, and is idempotent.
- **Back office** (`admin.dfy`). Status and stock badges, the stock modal's
  size list (a loop proved against a specification function), the coupon form
  normalisation, the coupon badge and the dashboard figures.
- **Server** (`server.dfy`). The `auth`/`adminAuth` ladders, registration and
  login, batch stock rows, the `carrinho` table as a map with keyed upsert and
  delete, and coupon code storage and validation.

Money is an exact `real`. Coupon expiry dates and the server's "today" are UTC
day numbers. Clock readings are millisecond timestamps, and dashboard dates
are local calendar dates. Everything the application obtains from outside
is a parameter: database answers, JWT verification, bcrypt, form inputs and
the clock.

The model follows the code where its behaviour is surprising:
- The guest cart merges lines on (product id, size *name*), not on the size id.
- A successful coupon application leaves the apply button disabled for the rest of the page's life, even after emptying the cart drops the coupon.
- The cart upsert *replaces* the quantity. The client always sends 1, so a
  logged-in user's repeated adds of the same item keep quantity 1, while a
  guest's accumulate (`Cart.RepeatedAddsGuestVersusServer`).
- The back office's coupon badge compares the expiry day's UTC midnight with
  the current instant. The server compares day numbers. So on its expiry day a
  coupon shows "Inativo" while the server still accepts it
  (`Admin.ExpiryDayBadgeDisagrees`).

## Model

| member | source | states |
|---|---|---|
| Cart.NewLine | public/app.js:384-393 | a guest line has quantity 1, the open product's id and price, and the chosen size name |
| Cart.FindLine | public/app.js:395-397 | answers the first line with the same product id and size name, and none exactly when no line matches |
| Cart.AddLine | public/app.js:395-403 | the first line for the key gains one unit in place and the length is unchanged; otherwise the new line is appended at the end |
| Cart.AddKeepsInvariants | public/app.js:395-403 | a guest add keeps at most one line per (produto_id, tamanho) and every quantity positive |
| Cart.AddCountsOneMore | public/app.js:395-403 | a guest add raises the item count by exactly one |
| Cart.AddRaisesSubtotal | public/app.js:395-403 | a guest add raises the subtotal by the unit price of the merged line, or by the new line's price |
| Cart.AddQuantityOf | public/app.js:395-403 | an add raises its key's quantity by one and leaves every other key's quantity unchanged |
| Cart.AddAllCounts | public/app.js:395-403 | any sequence of guest adds keeps one line per key, and each key holds its old quantity plus the number of adds for it |
| Cart.RemoveAt | public/app.js:517 | `splice(index, 1)` removes exactly that line and keeps the others in order |
| Cart.RemoveKeepsInvariants | public/app.js:517 | removal keeps unique keys and positive quantities, yields a subsequence, and lowers the item count by the removed quantity |
| Cart.RemoveLowersSubtotal | public/app.js:517 | removal lowers the subtotal by exactly the removed line's price times quantity |
| Cart.ChangeQuantity | public/app.js:477-483 | only the indexed line changes, by `delta`; at zero or below the line is removed instead |
| Cart.ChangeKeepsInvariants | public/app.js:477-483 | for every delta the cart keeps unique keys and quantities of at least 1 |
| Cart.ChangeMovesCount | public/app.js:477-483 | a change that keeps the line moves the item count by exactly `delta` |
| Cart.ChangeRoundTrip | public/app.js:477-483 | `+delta` then `-delta` restores the cart when the line survives in between |
| Cart.Storefront.constructor | public/app.js:5-21 | the page starts with an empty cart, no coupon, zero discount, no open product, no user and an enabled apply button |
| Cart.Storefront.AddToCart | public/app.js:374-437 | no open product or no active size changes nothing; a guest's cart becomes `AddLine` of the old cart; a logged-in add takes the reloaded cart or changes nothing on failure; the coupon is untouched and the invariants are kept |
| Cart.Storefront.RemoveFromCart | public/app.js:503-528 | the cart becomes `RemoveAt` of the old cart; emptying it clears the coupon and zeroes `desconto`, otherwise the coupon is kept |
| Cart.Storefront.ChangeQuantityAt | public/app.js:476-501 | the cart becomes `ChangeQuantity` of the old cart, with the removal path's coupon reset, and the invariants are kept |
| Cart.Storefront.ApplyCoupon | public/app.js:567-627 | a click on the disabled button changes nothing; otherwise an empty code or an empty cart returns with the coupon untouched; an unknown code or an unmet minimum sets it to null and re-enables the button; a valid coupon is applied and keeps the button disabled; the cart never changes |
| Cart.ApplyTwice | public/app.js:581-627 | after a successful application a second click is ignored and the coupon stays applied; emptying the cart in between leaves no coupon, and the button stays disabled |
| Cart.CouponCode | public/app.js:568 | the code sent is the input without its surrounding whitespace, with the same letters up to case and none in lower case; it is empty exactly when the input is all whitespace |
| Cart.CouponCodeDetermined | public/app.js:568 | any string meeting that description is the code sent, so the description fixes the code |
| Text.Trim | public/app.js:568 | the result occurs in the input with only whitespace before and after it, and neither starts nor ends with whitespace; it is empty exactly when the input is all whitespace |
| Text.TrimUnique | public/app.js:568 | a string has only one such trimmed form |
| Text.ToUpper | public/app.js:568 | same length and the same letters up to case, with no lower-case letter left |
| Text.ToUpperUnique | public/app.js:568 | the upper-case form is the only string with the input's letters up to case and no lower-case letter |
| Cart.Verdict | public/app.js:588-600 | no answer is not-found; a truthy minimum strictly above the subtotal rejects; anything else applies that coupon |
| Cart.MinimumIsInclusive | public/app.js:596-598 | a subtotal equal to the minimum is accepted |
| Cart.AppliedCouponIsRedeemable | public/app.js:588-600 | a coupon applied after the server's validation is active, not expired, carries the typed code and has its minimum met |
| Cart.RepeatedAddsGuestVersusServer | public/app.js:395-416 | `n` guest adds of one item hold `n` units, while the logged-in path's row holds 1 |
| Pricing.Totals | public/app.js:530-544 | subtotal is Σ price × quantity and the count Σ quantity; the discount is subtotal × valor/100 for a percentage coupon, the coupon's valor for a fixed one, 0 without a coupon; the total is max(0, subtotal − discount); the discount line shows exactly for a coupon with a positive discount |
| Pricing.TenPercentOfTwoHundred | public/app.js:535-544 | a 10% coupon on a subtotal of 200 gives a discount of 20, a total of 180, and shows the discount line |
| Pricing.Checkout | public/app.js:638-667 | an empty cart is rejected first, then a guest; otherwise subtotal, discount, total and whether the discount line shows equal the cart panel's, with a total of at least 0 |
| Pricing.SubtotalNonNegative | public/app.js:531 | non-negative prices and quantities give a non-negative subtotal |
| Pricing.ItemCountAtLeastLines | public/app.js:532 | with positive quantities the item count is at least the number of lines |
| Pricing.TotalWithinSubtotal | public/app.js:544 | with a non-negative discount, 0 <= total <= subtotal |
| Pricing.PercentageNeedsNoClamp | public/app.js:536-544 | a percentage of at most 100 gives a discount within the subtotal, so the total is exactly subtotal minus discount |
| Pricing.FixedCouponOverSubtotal | public/app.js:538-544 | a fixed coupon above the subtotal gives total 0 while the shown discount stays the full value |
| Catalog.ApplyFilters | public/app.js:715-741 | the chained category, price and search filters equal one filter by `Keep` |
| Catalog.ApplyFiltersIsOneFilter | public/app.js:715-741 | the three successive `filter` calls select exactly the products passing every active test |
| Catalog.FilteredList | public/app.js:715-741 | the result is a subsequence of the catalogue; a product is listed iff it is in the catalogue and passes the filters, with its multiplicity; every listed price is within the limit |
| Catalog.InitialFiltersListUpTo500 | public/app.js:10-15 | with the initial filters (no category, price up to 500, empty search) the list is every product priced at most 500, in catalogue order |
| Catalog.FilteredByCategory | public/app.js:719-723 | with a category set, every listed product has that category |
| Catalog.FilteredBySearch | public/app.js:731-737 | with a non-empty search, every listed product's lower-cased name or description contains the lower-cased term |
| Catalog.SelectCategory | public/app.js:706-713 | checking a box selects its category; unchecking any box clears the category; price and search are kept |
| Catalog.UncheckShowsAllCategories | public/app.js:706-713 | after unchecking, every product passing price and search is listed, whatever its category |
| Catalog.SortByKey | public/app.js:747-755 | the result is a permutation of the input, ordered by the key |
| Catalog.SortByKeyStable | public/app.js:747-755 | the products sharing a key come out in the order they went in |
| Catalog.InsertKeepsTies | public/app.js:747-755 | one insertion step puts the element ahead of the others with its key and moves none of them |
| Catalog.SortByKeyKeepsSorted | public/app.js:747-755 | an already ordered list is left as it is |
| Catalog.SortProducts | public/app.js:743-759 | a permutation: ascending price for `menor-preco`, descending for `maior-preco`, newest first for `novos`, the list unchanged for any other key |
| Catalog.SortProductsStable | public/app.js:743-759 | for each of the three sort keys, products with equal price (or equal creation time) keep their relative order |
| Catalog.SortedStillFiltered | public/app.js:743-759 | sorting the filtered list lists exactly the products that pass the filters |
| Slug.StripMarks | public/admin.js:598 | the result is the input with every combining mark U+0300..U+036F removed and every other character kept in order |
| Slug.CollapseRuns | public/admin.js:599 | only `[a-z0-9-]`, no `--`, empty iff the input is empty, and the first character is a dash iff the input starts outside `[a-z0-9]` |
| Slug.Slugify | public/admin.js:596-599 | the slug uses only `[a-z0-9-]`, never holds two dashes in a row, and is no longer than the name |
| Slug.CollapseRunsAlnum | public/admin.js:599 | a letter or digit is copied as it is |
| Slug.CollapseRunsRun | public/admin.js:599 | a maximal run of characters outside `[a-z0-9]` becomes exactly one `-` |
| Slug.CollapseRunsKeepsAlnum | public/admin.js:599 | collapsing keeps every letter and digit in order and adds none |
| Slug.CollapseRunsFixpoint | public/admin.js:599 | collapsing leaves a slug text unchanged |
| Slug.SlugKeepsAlnum | public/admin.js:596-599 | the slug's letters and digits are exactly those of the lower-cased, mark-stripped name |
| Slug.SlugIdempotent | public/admin.js:596-599 | the slug of a slug is the slug itself |
| Admin.CategorySlug | public/admin.js:592-599 | an empty or cancelled prompt creates nothing; otherwise the slug is the one the server gives a product of the same name |
| Admin.StatusClass | public/admin.js:205-212 | `entregue` is success and `cancelado` is danger; every other status, `enviado` included, is warning |
| Admin.StockLevelBadge | public/admin.js:681-682 | above 10 is "Em Estoque", 1 to 10 is "Baixo", and 0 or below is "Esgotado", a total three-way partition |
| Admin.StockBadgeMonotone | public/admin.js:681-682 | more stock never shows a worse badge |
| Admin.SelectedStockIsFilter | public/admin.js:511-522 | the collected list is the entries of the checked sizes in `state.tamanhos` order |
| Admin.SelectedStockContents | public/admin.js:511-522 | one entry per checked size, in order, with its id and parsed quantity (0 when unreadable); a size is listed iff its box is checked |
| Admin.SelectedStockEmpty | public/admin.js:511-527 | the list is empty exactly when no box is checked |
| Admin.SaveProductStock | public/admin.js:510-527 | the loop collects `SelectedStock`; nothing is sent exactly when no size is checked |
| Admin.StockRequestRows | public/admin.js:529-533 | the server's rows for the sent list are the checked sizes, in order, for the edited product, with the parsed quantities |
| Admin.CouponFromForm | public/admin.js:883-890 | the code has the typed letters up to case and none in lower case; a typed non-zero minimum is kept, and a missing or zero one becomes 0 (so no minimum applies); the coupon is always active; other fields are as typed |
| Admin.SaveCoupon | public/admin.js:875-898 | an invalid form sends nothing; an edit is an update of that id, otherwise a create, carrying the normalised coupon |
| Admin.FormCouponStoredUnchanged | public/admin.js:883-890 | the server stores a coupon from the form unchanged, since its code is already upper-case |
| Admin.CouponBadge | public/admin.js:817-818 | "Ativo" exactly when active and the expiry day's UTC midnight is not before now, "Inativo" otherwise |
| Admin.ActiveBadgeIsRedeemable | public/admin.js:817-818 | a stored coupon shown "Ativo" passes the server's validity filter for today |
| Admin.ExpiryDayBadgeDisagrees | public/admin.js:817-818 | on the expiry day, after midnight UTC, the badge says "Inativo" while the server still accepts the coupon |
| Admin.Dashboard | public/admin.js:142-170 | pending is the number of `pendente` orders; the month's total is the sum over this month's non-cancelled orders; today's sales count today's non-cancelled orders; the recent list is the first min(5, n) orders |
| Admin.DashboardEmpty | public/admin.js:142-170 | with no orders every figure is zero |
| Admin.DashboardOneMore | public/admin.js:142-170 | one more order adds 1 pending iff `pendente`, its total to the month iff this month and not cancelled, and 1 to today iff today and not cancelled |
| Admin.PendingSplit | public/admin.js:151 | pending plus non-pending orders are all the orders |
| Admin.CancelledNeverCount | public/admin.js:155-166 | dropping cancelled orders changes neither the month's total nor today's sales |
| Admin.MonthIgnoresYear | public/admin.js:155-160 | an order in the same month of another year counts in the month's total but not in today's sales |
| Server.BearerToken | server.js:42-45 | no header gives no token, and a token is never empty |
| Server.BearerTokenOfHeader | server.js:42 | the header `Bearer <t>` yields exactly `t` |
| Server.Authenticate | server.js:40-65 | no token is 401 "Token não fornecido"; a token the verifier rejects is 401 "Token inválido ou expirado"; an unknown or inactive user is 401 "Usuário inválido ou inativo"; otherwise it proceeds as the verified user, with that user's tipo |
| Server.AdminAuthenticate | server.js:67-96 | 401 exactly when `auth` rejects; 403 exactly when `auth` admits a non-admin; otherwise it proceeds as `auth` does |
| Server.Register | server.js:101-160 | a missing field is 400 before the length check; a password under 6 characters is 400 and 6 passes; an e-mail already registered is 400 "Email já cadastrado"; a failed insert is 500; success stores a hashed password, a `cliente` tipo, the sent phone, or null for a falsy one |
| Server.Login | server.js:164-211 | missing fields are 400; an unknown e-mail and a wrong password give the identical 401; an inactive account is 401 before any comparison; success returns the stored row |
| Server.InactiveIgnoresPassword | server.js:182-190 | an inactive account's answer does not depend on the password comparison |
| Server.ProductSlug | server.js:311-315 | the product slug uses only `[a-z0-9-]` and has no `--` |
| Server.QuantityOrZero | server.js:401 | a missing quantity becomes 0; a present one is kept |
| Server.BatchRows | server.js:393-402 | same length and order as `tamanhos`; every row carries the route's product id and the quantity or 0 |
| Server.BatchRowsAppend | server.js:398-402 | the row mapping distributes over concatenation |
| Server.UpsertLine | server.js:471-481 | afterwards the key has exactly one row, whose quantity is the sent one (replaced, not added) and whose id is kept or fresh; other rows are unchanged |
| Server.UpsertIdempotent | server.js:471-481 | repeating the same upsert changes nothing |
| Server.ClientAddsStayAtOne | server.js:471-481 | any number of client adds, each sending 1, leaves the key's row at quantity 1 and no other row changed |
| Server.DeleteLine | server.js:492-496 | removes exactly the rows with that id owned by the caller; other users' rows are unchanged |
| Server.InsertThenDelete | server.js:471-496 | deleting a freshly inserted row by its id restores the table |
| Server.DeleteRemovesOneRow | server.js:492-496 | with ids unique per user, a delete removes only the matching row |
| Server.StoredCoupon | server.js:602 | the stored code has the sent code's letters up to case and no lower-case letter; every other field is as sent |
| Server.StoredCouponIdempotent | server.js:618 | updating with a stored coupon stores the same coupon |
| Server.ValidateCoupon | server.js:566-583 | answers a coupon iff exactly one row has the upper-cased code, is active and has not expired before today; the answer is that row |
| Server.AtMostOneMatch | server.js:568-573 | with unique codes at most one row matches, and a matching row is the only match |
| Server.ValidCouponIsFound | server.js:566-583 | with unique codes an active, unexpired coupon is found whatever the case of the typed code |
| Server.ExpiredCouponIsRejected | server.js:566-583 | when every coupon is inactive or expired, validation answers 404 |

## Left out

- DOM rendering, alerts, prompts, button labels and every button state other than the coupon button's lock, animations and the loading screen are not modelled.
- Network requests are not modelled: the logged-in `PUT`/`DELETE` of `alterarQuantidade`/`removerDoCarrinho`, and the reload of the server cart. The reloaded cart is an input of `Cart.Storefront.AddToCart`.
- Cart.Storefront.AddToCart: the invariants are claimed only for the guest branch, because the logged-in branch takes whatever cart the server returns.
- `carregarCarrinhoServidor` (mapping server rows to cart lines) is not part of this model.
- `localStorage` persistence (`salvarCarrinhoLocal`, `carregarCarrinhoLocal`) is I/O and is not modelled.
- Supabase queries, `jwt.verify`/`jwt.sign` and `bcrypt.hash`/`compare` are inputs (maps and functions). Token issuance and the response bodies of login and registration are not modelled.
- Exceptions thrown by the database layer, which the routes' `catch` turns into 500, are not modelled, except the registration insert error. In the `auth` middleware the `catch` answers 401 "Token inválido ou expirado" instead (server.js:62-64); the model gives that answer for a token the verifier rejects.
- Cart.Storefront.ApplyCoupon and Cart.AppliedCouponIsRedeemable pass the code to the server's validation unchanged. The page puts it unencoded into the path `/cupons/validar/${codigo}` (public/app.js:586), and Express URL-decodes route parameters. So codes containing `%`, `/`, `?` or `#` are not modelled: `%41` is looked up as `A`, a lone `%` fails decoding, and `/`, `?` or `#` keep the code from reaching the route.
- Every JSON body field is a string or an absent `Option`. A field of another type, or a missing field a route calls a method on, takes a different path in the source that the model does not represent. A numeric `senha` is truthy and has no `length`, so it passes the check at server.js:109 and `bcrypt.hash` then throws, giving 500 where `Server.Register` answers 400. A missing `codigo` makes `toUpperCase` throw (server.js:602, 618), and a missing product `nome` makes `toLowerCase` throw (server.js:311). Both of these give 500, which `Server.StoredCoupon` and `Server.ProductSlug` cannot express.
- Floating-point money, `toFixed` formatting and `parseInt`/`parseFloat` are not modelled. Money is an exact `real`. A parsed number input is an `Option`, with `None` for NaN.
- Case mapping is ASCII-only; `normalize('NFD')` is not modelled. The slug is exact on names made of ASCII characters and combining marks. Password length counts characters, not UTF-16 code units.
- The clock and time zones are inputs: "today" as a UTC day number, "now" as milliseconds, and dashboard dates as local calendar dates.
- The `estoque` table's own upsert is not modelled; only the rows sent to it are.
- Concurrent in-flight requests and their ordering are not modelled.
