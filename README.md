# EMI phone store — order and pricing model in Dafny

This project models the order-and-pricing core of a storefront that sells
phones on monthly instalments (EMI). Its catalog holds products, their
colour/storage variants and each variant's instalment plans.

- **Server.** The order controller places orders against a variant and a plan, lists them newest first and cancels them. The product and plan controllers read the catalog. The error middleware turns thrown errors into HTTP replies.
- **Client.** The model covers the price rules, the colour and storage pickers, the order summary dialog, the product page's selection state and the orders page's cancel flow.

The database is replaced by in-memory tables: a `Catalog` of three sequences
and an `OrderStore` class whose `orders` field is the order table. The order
controller and the two pages change state in place, so they are classes with
`modifies` clauses. The catalog reads, the error mapping, the pickers and the
summary are pure functions.

Layout, one module per file:

- `wrappers.dfy`: `Option` and `Result`.
- `records.dfy`: the records and the controllers' `Outcome`. An outcome is a success, a 404 the controller answers itself, or an error thrown on to the middleware.
- `sequences.dfy`: filter, find, stable sort by key, map and first-occurrence de-duplication, with their proofs.
- `catalog.dfy`: lookups by key, the variants of a product, the plans of a variant and tenure order.
- `pricing.dfy`: the server's and the client's price rules, the 2% amount paid today and the instalment total.
- `order_number.dfy`: `EMI-` order numbers and reading the random draw back.
- `product_controller.dfy`, `emi_controller.dfy`, `order_controller.dfy`, `error_handler.dfy`: the server.
- `variant_selector.dfy`, `confirm_modal.dfy`, `product_page.dfy`, `orders_page.dfy`: the client.

Some inputs of the real system become parameters:

- Every network answer a page waits for is a parameter of the step that receives it: a fetched product, fetched plans, a placed order, or whether a cancel request succeeded.
- The random draw of an order number is a parameter `k < 900000`.
- A new row's creation time is a parameter `now`.
- A new row's id comes from the store's counter `nextId`.

## Model

| member | source | states |
|---|---|---|
| `Pricing.OrderTotal` | backend/src/controllers/orderController.js:28 | The stored total is the override when it is present and non-zero, else the product price. |
| `Pricing.EffectivePrice` | frontend/src/components/ConfirmModal.jsx:9 | The client's price is the override whenever it is present, 0 included, else the product price. |
| `Pricing.OrderTotalDiffersFromEffectivePrice` | backend/src/controllers/orderController.js:28 | The server's `||` rule and the client's `??` rule disagree exactly when the override is 0 and the product price is not. |
| `Pricing.DownPayment` | frontend/src/components/ConfirmModal.jsx:10 | The amount paid today is the integer nearest to 2% of the price, halves rounded up. |
| `Pricing.DownPaymentUnique` | frontend/src/components/ConfirmModal.jsx:10 | Only one integer satisfies that rounding condition, so it determines the amount. |
| `Pricing.DownPaymentBounds` | frontend/src/components/ConfirmModal.jsx:10 | For a non-negative price, the amount paid today is between 0 and the price. |
| `Pricing.DownPaymentMonotonic` | frontend/src/components/ConfirmModal.jsx:10 | A higher price never gives a lower amount paid today. |
| `Pricing.InstalmentTotal` | frontend/src/components/ConfirmModal.jsx:11 | The displayed total is never negative for a plan with a non-negative amount and tenure. |
| `Pricing.IsNoCost` | frontend/src/components/ConfirmModal.jsx:63-64 | The "(No Cost)" label and its highlight are shown exactly for a plan whose interest rate is 0. |
| `ConfirmModal.Render` | frontend/src/components/ConfirmModal.jsx:4-11 | A summary is shown only when the dialog is open and the product, variant and plan are all present. It shows the `??` price, the half-up 2% amount, monthly × tenure, and the "(No Cost)" label exactly when the interest rate is 0 (lines 63-64). |
| `ConfirmModal.DownpaymentWithinPrice` | frontend/src/components/ConfirmModal.jsx:9-10 | With a non-negative price, the amount paid today in the summary lies between 0 and the price shown. |
| `ConfirmModal.TotalIgnoresDevicePrice` | frontend/src/components/ConfirmModal.jsx:11 | The summary's total depends only on the plan, whatever product and variant are shown. |
| `ConfirmModal.SummaryAgainstStoredOrder` | backend/src/controllers/orderController.js:23-31 | For every order that is placed, the summary total is the stored monthly amount times the stored tenure. It equals the stored total exactly when that product equals the cash price. The summary price equals the stored total unless the override is 0 and the product price is not. |
| `ConfirmModal.StoredTotalIsNotSummaryTotal` | backend/src/controllers/orderController.js:28 | Take the 256GB iPhone 17 Pro and its 3-month plan. An order placed for them stores 127400, while the summary shows 3 × 42467 = 127401. |
| `ConfirmModal.ZeroOverrideSummaryDiffersFromOrder` | frontend/src/components/ConfirmModal.jsx:9 | With an override of 0, the summary shows price 0 while the order stores the product price. |
| `OrderNumbers.Decimal` | backend/src/controllers/orderController.js:21 | A number is written with at least one character, and every character is a decimal digit. |
| `OrderNumbers.DecimalRoundTrip` | backend/src/controllers/orderController.js:21 | Reading the digits of a number back gives the number. |
| `OrderNumbers.DecimalLength` | backend/src/controllers/orderController.js:21 | A d-digit number is written with exactly d characters, the first not '0'. |
| `OrderNumbers.OrderNumber` | backend/src/controllers/orderController.js:21 | An order number is 10 characters long and starts with `EMI-`. |
| `OrderNumbers.OrderNumberWellFormed` | backend/src/controllers/orderController.js:21 | Every order number is `EMI-` and six digits (100000..999999), and the random draw can be read back from it. |
| `OrderNumbers.OrderNumberInjective` | backend/src/controllers/orderController.js:21 | Two draws give the same order number exactly when they are equal. |
| `Sequences.Filter` | backend/src/controllers/emiController.js:16-17 | The result holds exactly the kept elements, each as often as in the input. |
| `Sequences.FirstIndex` | backend/src/controllers/orderController.js:65-67 | The result is the first matching index, or nothing exactly when nothing matches. |
| `Sequences.Find` | frontend/src/components/VariantSelector.jsx:16-17 | `find` returns the first matching element, or nothing exactly when nothing matches. |
| `Sequences.InsertBy` | frontend/src/pages/ProductPage.jsx:60 | Inserting into a sorted list keeps it sorted and adds exactly the inserted element. |
| `Sequences.SortBy` | frontend/src/pages/ProductPage.jsx:60 | Sorting gives a sorted permutation of the input. |
| `Sequences.SortBySorted` | frontend/src/pages/ProductPage.jsx:60 | Sorting an already sorted list returns it unchanged. |
| `Sequences.FilterHead` | frontend/src/pages/OrdersPage.jsx:50 | The first element kept by a filter is the first element of the input that passes it. |
| `Sequences.FilterInsertBy` | frontend/src/pages/ProductPage.jsx:60 | Inserting into a sorted list puts the new element in front of every element with the same key, and leaves the elements of other keys in their order. |
| `Sequences.SortByStable` | frontend/src/pages/ProductPage.jsx:60 | The sort is stable: for every key, the elements with that key come out in their input order. |
| `Sequences.SortByHeadIsFirstLeast` | frontend/src/pages/ProductPage.jsx:60-62 | After sorting, the first element is the earliest input element with the least key. |
| `Sequences.Map` | frontend/src/pages/OrdersPage.jsx:30 | `map` keeps the length and applies the function at every position. |
| `Sequences.MapKeepsSorted` | frontend/src/pages/OrdersPage.jsx:30 | A map that keeps every key keeps a sorted list sorted. |
| `Sequences.InsertByCommutesWithMap` | frontend/src/pages/OrdersPage.jsx:30 | Inserting and then mapping equals mapping and then inserting, for a map that keeps keys. |
| `Sequences.SortByCommutesWithMap` | frontend/src/pages/OrdersPage.jsx:30 | Sorting and then mapping equals mapping and then sorting, for a map that keeps keys. |
| `Sequences.SortByHeadIsLeast` | frontend/src/pages/ProductPage.jsx:62 | The first element after sorting is from the input and has the least key. |
| `Sequences.Dedup` | frontend/src/components/VariantSelector.jsx:4-5 | `[...new Set(xs)]` holds exactly the values of the input, each once, in first-occurrence order. |
| `CatalogTables.ProductBySlug` | backend/src/controllers/productController.js:26-27 | The lookup finds a product with that slug, and finds nothing exactly when no product has it. |
| `CatalogTables.ProductById` | backend/src/controllers/orderController.js:8-11 | The lookup finds a product with that id, and finds nothing exactly when no product has it. |
| `CatalogTables.VariantById` | backend/src/controllers/emiController.js:8-10 | The lookup finds a variant with that id, and finds nothing exactly when no variant has it. |
| `CatalogTables.PlanById` | backend/src/controllers/orderController.js:13-15 | The lookup finds a plan with that id, and finds nothing exactly when no plan has it. |
| `CatalogTables.VariantWithProduct` | backend/src/controllers/orderController.js:8-11 | A variant joined with its product: both are in the tables, their ids match, and there is no result without the variant. |
| `CatalogTables.ProductBySlugIsTheProduct` | backend/src/controllers/productController.js:26-27 | With unique slugs, looking up a product's slug finds that same product. |
| `CatalogTables.VariantWithProductFound` | backend/src/controllers/orderController.js:8-11 | With foreign keys in place, the join succeeds exactly when the variant exists. |
| `CatalogTables.VariantsOf` | backend/src/controllers/productController.js:62-63 | The result holds exactly the variants of the product, each as often as in the table. |
| `CatalogTables.PlansOf` | backend/src/controllers/emiController.js:16-17 | The result holds exactly the plans of the variant, each as often as in the table. |
| `CatalogTables.ByTenure` | backend/src/controllers/emiController.js:18 | The result is a permutation of the plans in non-decreasing tenure. |
| `CatalogTables.ByTenureIdempotent` | frontend/src/pages/ProductPage.jsx:60 | Sorting plans that are already in tenure order changes nothing. |
| `CatalogTables.ByTenureHeadIsShortest` | frontend/src/pages/ProductPage.jsx:62 | The first plan in tenure order is one of the plans and has the shortest tenure. |
| `ProductController.VariantsWithPlans` | backend/src/controllers/productController.js:62-69 | The product's variants come in table order, each with all its plans nested, sorted by tenure when asked. |
| `ProductController.VariantsWithPlansCorrect` | backend/src/controllers/productController.js:62-69 | The nested list holds exactly the product's variants, and each variant holds exactly its own plans (sorted when asked). |
| `ProductController.NestVariants` | backend/src/controllers/productController.js:6-13 | A listed product carries exactly its own variants, each with all of its plans in table order. |
| `ProductController.GetAllProducts` | backend/src/controllers/productController.js:4-16 | All products come in ascending `createdAt`, as a permutation of the table. Each product holds exactly its variants, and each variant holds all its plans in table order. |
| `ProductController.GetProductBySlug` | backend/src/controllers/productController.js:23-43 | The answer is 404 "Product not found" exactly when no product has the slug. Otherwise it is that product, with exactly its variants and each variant's plans in tenure order. Nothing is thrown. |
| `ProductController.GetProductVariants` | backend/src/controllers/productController.js:50-71 | The answer is 404 "Product not found" exactly when no product has the slug. Otherwise it is exactly that product's variants, each with its plans in tenure order. |
| `ProductController.SlugReadsAgree` | backend/src/controllers/productController.js:39-41 | The two slug reads give 404 together, and the variants listed are the ones nested in the product. |
| `EmiController.GetEmiPlansByVariant` | backend/src/controllers/emiController.js:4-21 | The answer is 404 "Variant not found" exactly when the variant is unknown. Otherwise it is all of that variant's plans and no others, each as often as stored, in non-decreasing tenure. |
| `EmiController.KnownVariantWithoutPlans` | backend/src/controllers/emiController.js:16-21 | A known variant without plans gets a success with an empty list. |
| `EmiController.SameAsNestedPlans` | backend/src/controllers/emiController.js:16-19 | For every variant listed under a product slug (productController.js:62-69), asking for that variant's plans returns exactly the plans nested in it, in the same order. |
| `ErrorHandler.HandleError` | backend/src/middleware/errorHandler.js:1-17 | P2002 gives 409 "A record with this value already exists." and P2025 gives 404 "Record not found.". Otherwise the status is `statusCode`, or 500 when it is missing or 0, and the message is `err.message`, or "Internal Server Error" when it is empty. A stack appears exactly in development. `success` is always false. |
| `ErrorHandler.NoStackOutsideDevelopment` | backend/src/middleware/errorHandler.js:16 | Outside development, no reply carries a stack trace. |
| `ErrorHandler.ReplyMessageNonEmpty` | backend/src/middleware/errorHandler.js:6-15 | No reply has an empty message. |
| `ErrorHandler.UnclassifiedErrorIs500` | backend/src/middleware/errorHandler.js:12 | An error with no known code and no status is answered with 500. |
| `Records.DatabaseError` | backend/src/middleware/errorHandler.js:5-10 | A database error carries its code and no HTTP status. |
| `OrderController.Expand` | backend/src/controllers/orderController.js:33-36 | An order is joined with the variant it references, that variant's product and the plan it references, each found by its key. A joined record is in the tables and matches the order. A referenced variant that is in a well-formed catalog is always found together with its product, and a referenced plan that is in the table is always found. |
| `OrdersPage.ExpandIgnoresStatus` | backend/src/controllers/orderController.js:33-36 | The join does not depend on the status, so a cancelled row joins to the same variant, product and plan. |
| `OrderController.PlaceOrder` | backend/src/controllers/orderController.js:4-39 | 404 "Variant or EMI Plan not found" exactly when the variant (with its product) or the plan is missing. A taken order number raises P2002. Otherwise the order is `Confirmed` with a well-formed number from the draw, the plan's monthly amount and tenure, and the `||` total. |
| `OrderController.PlanOfOtherVariantAccepted` | backend/src/controllers/orderController.js:13-31 | A plan belonging to another variant is still accepted and the order is created. |
| `OrderController.ListOrders` | backend/src/controllers/orderController.js:46-55 | Every stored order appears once, each joined with its records, in non-increasing `createdAt`. |
| `OrderController.SnapshotIgnoresCatalogEdits` | backend/src/controllers/orderController.js:23-31 | The amounts of listed orders come from the order rows, so editing the catalog leaves them unchanged. |
| `OrderController.MarkCancelled` | backend/src/controllers/orderController.js:65-68 | The order with that id gets status `Cancelled` whatever its status was. Every other field and every other order is unchanged. |
| `OrderController.CancelIdempotent` | backend/src/controllers/orderController.js:65-68 | Cancelling twice is the same as cancelling once. |
| `OrderController.CancelledStaysCancelled` | backend/src/controllers/orderController.js:65-68 | A cancelled order stays cancelled, whichever order is cancelled next. |
| `OrderController.CancelUnknownIdIsIdentity` | backend/src/controllers/orderController.js:65-68 | Cancelling an id that no order has changes no row. |
| `OrderController.Rows` | backend/src/controllers/orderController.js:46-55 | The order rows inside a list of joined orders, one per entry, in order. |
| `OrderController.AppendKeepsValid` | backend/src/controllers/orderController.js:23-37 | Appending a row with the next id and an unused, well-formed order number keeps ids and numbers unique. |
| `OrderController.CancelKeepsValid` | backend/src/controllers/orderController.js:65-68 | Cancelling changes only statuses, so ids and numbers stay unique and well formed. |
| `OrderController.CancelRewritesOneRow` | backend/src/controllers/orderController.js:65-68 | With unique ids, cancelling by id rewrites only the one row with that id. |
| `OrderController.OrderStore.constructor` | backend/src/controllers/orderController.js:23-37 | The order table that orders are written to starts empty, with no ids or numbers in use. |
| `OrderController.OrderStore.CreateOrder` | backend/src/controllers/orderController.js:4-43 | The answer is `PlaceOrder` on the table before the call. On success exactly the new order is appended. On any failure the table is unchanged. Ids and order numbers stay unique. |
| `OrderController.OrderStore.GetAllOrders` | backend/src/controllers/orderController.js:46-55 | Lists the table as `ListOrders` does, without changing it. |
| `OrderController.OrderStore.CancelOrder` | backend/src/controllers/orderController.js:62-77 | The new table is `MarkCancelled` of the old. A missing id throws P2025 and changes nothing. Otherwise the answer is the cancelled order, joined. |
| `VariantSelector.Values` | frontend/src/components/VariantSelector.jsx:4-5 | The attribute values of the variants, one per variant, in order. |
| `VariantSelector.OptionsFor` | frontend/src/components/VariantSelector.jsx:2-5 | A null or empty list gives nothing. Otherwise each colour and each storage that occurs appears exactly once, in first-occurrence order. |
| `VariantSelector.Resolve` | frontend/src/components/VariantSelector.jsx:16-17 | There is a result exactly when the chosen value occurs, and it carries that value. When a variant has the chosen value and the current other attribute, that attribute is kept. The same rule covers storage with the roles swapped (lines 41-42). |
| `VariantSelector.ResolveIsFirstExactMatch` | frontend/src/components/VariantSelector.jsx:16 | When such a combination exists, the result is the first variant with the chosen value and the current other attribute. |
| `VariantSelector.ResolveFallsBackToFirstMatch` | frontend/src/components/VariantSelector.jsx:17 | Without such a combination, the result is the first variant with the chosen value. |
| `ProductPage.ShownPrice` | frontend/src/pages/ProductPage.jsx:87 | With a product loaded and a variant selected, the page shows the same `??` price as the summary. With no variant it shows the product price. Nothing is shown only when neither is known. |
| `ProductPage.FirstVariant` | frontend/src/pages/ProductPage.jsx:39 | A loaded product opens on its first variant, or none when it has none. |
| `ProductPage.DefaultPlan` | frontend/src/pages/ProductPage.jsx:45 | The default plan is one of the plans with the shortest tenure, or none exactly when there are no plans (line 62). |
| `ProductPage.DefaultPlanIsFirstShortest` | frontend/src/pages/ProductPage.jsx:60-62 | When several plans share the shortest tenure, the default plan is the first of them in the fetched order. |
| `ProductPage.Page.constructor` | frontend/src/pages/ProductPage.jsx:18-28 | The page starts loading, with nothing selected and no plans. |
| `ProductPage.Page.Load` | frontend/src/pages/ProductPage.jsx:31-50 | On success the first variant is selected. If it has plans, they are offered in tenure order with the shortest selected. If not, the plans and the selection from before are kept. A failure records its message. Loading ends either way, and plans stay sorted with the selected plan among them. |
| `ProductPage.Page.BeginVariantSelect` | frontend/src/pages/ProductPage.jsx:53-57 | A null variant or the already selected one changes nothing. Any other variant is selected, the plan selection is cleared and plans start loading. |
| `ProductPage.Page.ReceivePlans` | frontend/src/pages/ProductPage.jsx:58-67 | Fetched plans are offered in tenure order, with the shortest selected or none when there are no plans. A failed fetch keeps the plans on offer and the cleared selection. Loading ends either way. |
| `ProductPage.Page.HandleVariantSelect` | frontend/src/pages/ProductPage.jsx:52-68 | A null variant or the variant already selected changes nothing (line 53). After switching variant, the plans are the new variant's in tenure order with the shortest selected. If the fetch fails, no plan is selected while the previous variant's plans stay on offer. |
| `ProductPage.Page.ChoosePlan` | frontend/src/pages/ProductPage.jsx:163-169 | Tapping an offered plan selects it and changes nothing else. |
| `ProductPage.Page.BuyEnabled` | frontend/src/pages/ProductPage.jsx:178 | The buy button is enabled exactly while a plan is selected and no order is being placed. |
| `ProductPage.Page.OpenConfirm` | frontend/src/pages/ProductPage.jsx:176-178 | The summary opens only while a plan is selected and no order is being placed. |
| `ProductPage.Page.CloseConfirm` | frontend/src/components/ConfirmModal.jsx:109-111 | The summary closes unless an order is being placed. |
| `ProductPage.Page.ConfirmOrder` | frontend/src/pages/ProductPage.jsx:70-81 | A placed order is kept and the summary closes. Without a selected variant and plan, or when the request fails, nothing changes. The page is no longer placing an order afterwards. |
| `OrdersPage.ActiveCount` | frontend/src/pages/OrdersPage.jsx:50 | The header count is the number of orders that are not cancelled. It is at most the number of orders, and 0 exactly when every order is cancelled. |
| `OrdersPage.IsActive` | frontend/src/pages/OrdersPage.jsx:114 | An order is active, and shows a cancel button, exactly when its status is not `Cancelled`. |
| `OrdersPage.CancelInList` | frontend/src/pages/OrdersPage.jsx:30 | Each entry of the cancelled order gets status `Cancelled`. Every other entry is unchanged, and the length and order are kept. |
| `OrdersPage.OptimisticCancelMatchesRefetch` | frontend/src/pages/OrdersPage.jsx:30 | Take the client's list and mark the order cancelled in it. The result is the list the server would return after cancelling that order itself (orderController.js:46-68). |
| `OrdersPage.CancelInactiveIsIdentity` | frontend/src/pages/OrdersPage.jsx:30 | Cancelling an order that is already cancelled, or not in the list, leaves the list unchanged. |
| `OrdersPage.CancelActiveDecrementsCount` | frontend/src/pages/OrdersPage.jsx:50 | With unique order ids, cancelling an active order lowers the active count by exactly one. |
| `OrdersPage.CancelHidesOnlyThatButton` | frontend/src/pages/OrdersPage.jsx:114 | After a cancellation an entry shows a cancel button exactly when it did before and it is not the cancelled order. |
| `OrdersPage.Page.constructor` | frontend/src/pages/OrdersPage.jsx:7-11 | The page starts loading, with no orders and no cancellation pending. |
| `OrdersPage.Page.Loaded` | frontend/src/pages/OrdersPage.jsx:13-18 | The fetched list replaces the orders. A failed fetch keeps them. Loading ends either way. |
| `OrdersPage.Page.HandleCancelClick` | frontend/src/pages/OrdersPage.jsx:20-23 | Remembers the order and opens the confirmation. |
| `OrdersPage.Page.CloseModal` | frontend/src/pages/OrdersPage.jsx:131 | Closes the confirmation but keeps the chosen order. |
| `OrdersPage.Page.HandleConfirmCancel` | frontend/src/pages/OrdersPage.jsx:25-39 | With no chosen order, nothing happens. On success the order is marked cancelled in the list and the confirmation closes with nothing chosen. On failure the list and the dialog stay as they were. |

## Left out

- The database client and the seed script are not modelled. The tables are sequences, and the catalog is read-only input. The seed values appear only in `ConfirmModal.StoredTotalIsNotSummaryTotal`.
- Express wiring, CORS and body parsing are not modelled. `backend/src/routes/orderRoutes.js:3-6` never registers `cancelOrder`, so in the running app the client's cancel request hits the catch-all 404 at `backend/src/app.js:26-28` and always fails. The model covers the controller's behaviour. `OrdersPage.Page.HandleConfirmCancel` takes the request's success as a parameter.
- The client's API layer (fetch, base-URL detection, JSON parsing) is not modelled. Its answers are parameters of type `Result`.
- React rendering, effects, loading spinners and images (`activeImage`, `imageUrl`) are not modelled. Which screen the product page shows (success, loading, error or main) is not modelled either.
- `ProductPage.Page.HandleVariantSelect`: the request and its answer are one step. Two selections whose answers arrive out of order are not modelled.
- Currency formatting, `alert`, `console` output and dates are not modelled. The buy button's label and the cashback fallback of the plan card are display-only and not modelled.
- Floating point is not modelled. `interestRate` is an exact `real`, and only its comparison with 0 matters. The rounding of `price * 0.02` to a float before `Math.round` is replaced by exact half-up rounding.
- `OrderController.PlaceOrder`: the random draw `k`, the creation time and the row id are inputs. Ids are naturals, and `nextId` stands in for generated ids.
- `OrderController.PlaceOrder`: the order-number column is taken to be unique, so a repeated draw raises the database's P2002 error. The schema that declares this is not part of this model.
- `Records.DatabaseError`: the message and stack trace of a database error are placeholders. Only its code is modelled.
- `OrderController.ListOrders`: when two orders have the same `createdAt`, the model keeps their table order, as a stable sort does. The database promises no order for such ties.
- `ProductController.GetAllProducts`: products with the same `createdAt` are kept in table order in the same way, and so are the plans nested in each variant (productController.js:6-13 asks for no order of them).
- `CatalogTables.ByTenure`: the database sort by tenure is modelled by the same stable sort as the client's, so plans with equal tenure come in table order in both reads. The database promises no order among them.
- `OrderController.PlaceOrder`: a request body without `variantId` or `emiPlanId` is not modelled, because the ids are plain strings. The code passes `undefined` to the lookups at orderController.js:8-15. The error the database client raises then depends on that library and is not part of this model.
- The variants of a product come in table order, since the queries ask for no order.
- `ProductPage.Page.ConfirmOrder` runs as one step, so a second press while placing an order is not modelled. The confirm button is disabled during that time anyway.
- The discount percentage in `ProductInfo.jsx` is a presentation detail and is not modelled.

### Behaviour the model makes visible

- The server prices an order with `priceOverride || price` and the client with `priceOverride ?? price`. They differ only for an override of 0 (`Pricing.OrderTotalDiffersFromEffectivePrice`).
- The stored total is the cash price. The summary's "Effective Total" is monthly × tenure, which can differ from it (`ConfirmModal.StoredTotalIsNotSummaryTotal`).
- The server does not check that the plan belongs to the variant (`OrderController.PlanOfOtherVariantAccepted`).
- The product page can offer another variant's plans in two cases:
  - after a failed plan fetch, the previous variant's plans stay on offer and can be chosen (`ProductPage.Page.HandleVariantSelect`);
  - loading a product whose first variant has no plans keeps the plans and the selected plan from before (`ProductPage.Page.Load`).
