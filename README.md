# Coupons, checkout fulfilment and admin actions of a digital-goods shop, in Dafny

This project models the business core of a Next.js shop that sells downloadable
products:

- **Discount codes.** When a coupon is usable for a product, and the price once it
  is applied (`src/lib/discountCodeHelper.ts`).
- **The admin coupon page.** How codes split into an unexpired and an expired table,
  and what each row shows (`src/app/admin/discount-codes/page.tsx`).
- **The admin actions on coupons** (`src/app/admin/_actions/discountCodes.ts`):
  form validation, creation, the active toggle and deletion.
- **The admin actions on products** (`src/app/admin/_actions/products.ts`):
  validating the upload form, building the file and image paths, creation,
  toggling availability and deletion.
- **The payment webhook** (`src/app/webhooks/stripe/route.tsx`). A succeeded charge
  records an order, creates the user if needed, issues a 24-hour download token and
  counts one use of the coupon.
- **The order-history action** (`src/actions/orders.tsx`). It issues one fresh token
  per order and mails them.
- **The download endpoint** (`src/app/(customerFacing)/products/download/[downloadVerificationId]/route.ts`,
  lines 13-23). It is the consumer of those tokens: `DownloadRoute.FindVerification`
  is the lookup by id (a found token has that id; none is found exactly when no
  token has it), and `DownloadRoute.Download` sends the token's product while its
  expiry lies strictly after now and redirects otherwise.
- **The admin gate** (`src/middleware.ts`): HTTP Basic parsing and the 401 challenge.
- **The dashboard's date ranges** (`src/lib/rangeOptions.ts`).

The database and the file system are one `Db.Store` object. Its tables are `map`
and `seq` fields, and the actions are methods that reassign them. Fresh ids come
from a counter. `Store.Valid()` is the invariant every action keeps:
- every id in use lies below the counter;
- tokens are stored in creation order with increasing ids;
- users are keyed by their email.

Pure rules are functions with lemmas about them. Examples: the eligibility
predicate, the price, the expired classifier, the header parsing and the schema
checks.

The source reads the clock in several places; the model takes it as a parameter:
- `schemaTime`: when the coupon schema was built.
- `now`: when a request is handled.
- `today`: when the range table was built.

Services are inputs too:
- the payment processor's signature check;
- the email-address check and the email service's answer;
- the two random UUIDs of a product upload;
- Base64 decoding and the SHA-512 digest of `src/lib/isValidPassword.ts`, passed as
  function parameters.

Module layout:

| file | module | models |
|---|---|---|
| `common.dfy` | `Common` | `Option`, ids, `Max` |
| `discount_engine.dfy` | `DiscountEngine` | `discountCodeHelper.ts` |
| `discount_codes_page.dfy` | `DiscountCodesPage` | `discount-codes/page.tsx` |
| `form_fields.dfy` | `FormFields` | the schema checks both admin forms use |
| `discount_code_actions.dfy` | `DiscountCodeActions` | `_actions/discountCodes.ts` |
| `product_actions.dfy` | `ProductActions` | `_actions/products.ts` |
| `db.dfy` | `Db` | the tables and the token creation |
| `stripe_webhook.dfy` | `StripeWebhook` | `webhooks/stripe/route.tsx` |
| `order_actions.dfy` | `OrderActions` | `actions/orders.tsx` |
| `download_route.dfy` | `DownloadRoute` | the download endpoint |
| `text.dfy` | `Text` | JavaScript's `length` (UTF-16 units), `split` / `join` with one separator |
| `middleware.dfy` | `Middleware` | `middleware.ts` |
| `range_options.dfy` | `RangeOptions` | `rangeOptions.ts` |

### What the webhook does not guard against

- A redelivered `charge.succeeded` event is not deduplicated: two deliveries record
  two orders, issue two tokens and count two uses (`StripeWebhook.RedeliveredCharge`).
- `uses` is incremented without reading `limit`, so it can exceed the limit
  (`StripeWebhook.HandleWebhook` applies `Db.IncrementUses` whatever the limit).

## Model

| member | source | states |
|---|---|---|
| DiscountEngine.CeilHundredth | src/lib/discountCodeHelper.ts:34-36 | the result is the ceiling of n/100: `100*(q-1) < n <= 100*q` |
| DiscountEngine.IsUsable | src/lib/discountCodeHelper.ts:5-20 | definition, no contract: `usableDiscountCodeWhere` as a predicate on one code at a given time |
| DiscountEngine.InScope | src/lib/discountCodeHelper.ts:10 | definition, no contract: all products, or this product listed |
| DiscountEngine.UnderLimit | src/lib/discountCodeHelper.ts:13 | definition, no contract: no limit, or limit greater than uses |
| DiscountEngine.NotExpiredAt | src/lib/discountCodeHelper.ts:16 | definition, no contract: no expiry, or expiry after now |
| DiscountEngine.DiscountedAmount | src/lib/discountCodeHelper.ts:23-48 | the price is never below one cent; a percentage of 1..100 never raises a positive price |
| DiscountEngine.UsableNeedsEveryClause | src/lib/discountCodeHelper.ts:5-20 | each clause of `usableDiscountCodeWhere` is necessary: inactive, out of scope, `uses >= limit` or `expiresAt <= now` each make a code unusable |
| DiscountEngine.UnboundedCodeAlwaysUsable | src/lib/discountCodeHelper.ts:5-20 | an active in-scope code with no limit and no expiry is usable at any time |
| DiscountEngine.UsableEarlierIfUsableLater | src/lib/discountCodeHelper.ts:16 | usability is only lost as time passes |
| DiscountEngine.LimitFiveUsedFiveTimes | src/lib/discountCodeHelper.ts:13 | reaching the limit exactly (5 of 5) makes the code unusable |
| DiscountEngine.PercentageCeilingExact | src/lib/discountCodeHelper.ts:31-37 | `ceil(p - p*a/100)` equals `p - floor(p*a/100)` in exact integers |
| DiscountEngine.PercentageClosedForm | src/lib/discountCodeHelper.ts:31-37 | percentage price is `max(1, p - floor(p*a/100))` |
| DiscountEngine.FixedDiscountFloorsAtOneCent | src/lib/discountCodeHelper.ts:38-42 | a fixed discount of at least the price leaves exactly one cent |
| DiscountEngine.DiscountNonIncreasing | src/lib/discountCodeHelper.ts:30-42 | a larger discount amount never gives a higher price, for both kinds |
| DiscountEngine.WorkedExamples | src/lib/discountCodeHelper.ts:30-42 | 20% off 1000 cents is 800; $15 off 1000 cents is clamped to 1 |
| DiscountCodesPage.ExpiredCodes | src/app/admin/discount-codes/page.tsx:65-71 | the expired list holds exactly the listings `WHERE_EXPIRED` selects, and no more than the input |
| DiscountCodesPage.IsExpired | src/app/admin/discount-codes/page.tsx:43-48 | definition, no contract: `WHERE_EXPIRED` on one code |
| DiscountCodesPage.RemainingUses | src/app/admin/discount-codes/page.tsx:167-173 | definition, no contract: unlimited, or `limit - uses` |
| DiscountCodesPage.Row | src/app/admin/discount-codes/page.tsx:144-207 | definition, no contract: the icon, remaining uses, order count, toggle and delete state of one row |
| DiscountCodesPage.Table | src/app/admin/discount-codes/page.tsx:118-213 | definition, no contract: one row per code, in order |
| DiscountCodesPage.UnexpiredTable | src/app/admin/discount-codes/page.tsx:96-99 | definition, no contract: the unexpired codes, drawn as deactivatable |
| DiscountCodesPage.ExpiredTable | src/app/admin/discount-codes/page.tsx:101-107 | definition, no contract: the expired codes, drawn as inactive |
| DiscountCodesPage.UnexpiredCodes | src/app/admin/discount-codes/page.tsx:73-79 | the unexpired list holds exactly the listings `NOT WHERE_EXPIRED` selects |
| DiscountCodesPage.ExpiredIffLimitOrExpiryClauseFails | src/app/admin/discount-codes/page.tsx:43-48 | expired exactly when the limit or the expiry clause of the usability rule fails |
| DiscountCodesPage.ExpiredBoundaries | src/app/admin/discount-codes/page.tsx:43-48 | a reached limit or expiry counts as expired (inclusive); a code with neither is never expired |
| DiscountCodesPage.ExpiredMeansUnusable | src/app/admin/discount-codes/page.tsx:43-48 | an expired code is unusable for every product; an unexpired one is usable exactly when active and in scope |
| DiscountCodesPage.SplitIsPartition | src/app/admin/discount-codes/page.tsx:81-86 | the two queries together return every code exactly as often as it exists (multiset equality) |
| DiscountCodesPage.SplitIsDisjoint | src/app/admin/discount-codes/page.tsx:81-86 | no code appears in both tables |
| DiscountCodesPage.ActiveIconOnlyForUnexpiredActive | src/app/admin/discount-codes/page.tsx:96-106 | the active icon shows only for active codes in the unexpired table; the toggle shows only there |
| DiscountCodesPage.UnexpiredRemainingUsesPositive | src/app/admin/discount-codes/page.tsx:167-173 | a limited code in the unexpired table shows at least one remaining use |
| DiscountCodesPage.DeleteEnabledIffNoOrders | src/app/admin/discount-codes/page.tsx:200-203 | delete is enabled exactly for codes with no orders, in both tables |
| FormFields.IntAtLeast | src/app/admin/_actions/discountCodes.ts:13 | the number passes exactly when it is an integer at least the minimum, and keeps its value |
| FormFields.StringAtLeast | src/app/admin/_actions/discountCodes.ts:12 | the string passes exactly when present and its JavaScript length (UTF-16 units) is at least the minimum; a missing value is `Required`, a short one `BelowMinimum` |
| FormFields.Preprocessed | src/app/admin/_actions/discountCodes.ts:17-24 | the empty string and a missing field both mean "not given"; a given value is kept |
| DiscountCodeActions.ParseDiscountType | src/app/admin/_actions/discountCodes.ts:14 | only the two enum tags are accepted, each as its own kind |
| DiscountCodeActions.Validate | src/app/admin/_actions/discountCodes.ts:10-43 | valid exactly when the form is acceptable, with the form's values; after an aborting field issue only the field errors; otherwise every field issue plus the refinements' messages on fields without one; `productIds` has an error exactly when no field aborted and the selection contradicts "all products", with the matching message |
| DiscountCodeActions.RefinementErrors | src/app/admin/_actions/discountCodes.ts:26-43 | when no field aborted, a percentage above 100 is reported on `discountAmount` unless that field has its own issue; with acceptable fields only `discountAmount` and `productIds` can fail |
| DiscountCodeActions.LimitAndSelectionBothReported | src/app/admin/_actions/discountCodes.ts:21-43 | a limit of 0 with no selection and "all products" unticked reports both the limit's issue and "Must select products…" |
| DiscountCodeActions.CheckExpiry | src/app/admin/_actions/discountCodes.ts:17-20 | definition, no contract: not given, or a valid date no earlier than the schema's build time |
| DiscountCodeActions.CheckLimit | src/app/admin/_actions/discountCodes.ts:21-24 | definition, no contract: not given, or an integer of at least 1 |
| DiscountCodeActions.ProductIdsValue | src/app/admin/_actions/discountCodes.ts:46-51 | definition, no contract: an empty selection becomes "not given" |
| DiscountCodeActions.FieldErrors | src/app/admin/_actions/discountCodes.ts:11-24 | definition, no contract: the first issue of each field's own checks |
| DiscountCodeActions.FieldsAborted | src/app/admin/_actions/discountCodes.ts:11-24 | definition, no contract: some field failed with an issue that stops the object's refinements |
| DiscountCodeActions.Refinements | src/app/admin/_actions/discountCodes.ts:26-43 | definition, no contract: the three `.refine` checks and their messages and paths |
| DiscountCodeActions.Acceptable | src/app/admin/_actions/discountCodes.ts:10-43 | definition, no contract: the forms the schema accepts |
| DiscountCodeActions.NewCode | src/app/admin/_actions/discountCodes.ts:61-74 | definition, no contract: the stored record, active and unused |
| DiscountCodeActions.FixedAmountUnbounded | src/app/admin/_actions/discountCodes.ts:26-35 | a fixed amount is accepted however large |
| DiscountCodeActions.NewCodeUsableIffInScopeAndUnexpired | src/app/admin/_actions/discountCodes.ts:61-74 | a newly created code is usable exactly while in scope and before its expiry |
| DiscountCodeActions.AddDiscountCode | src/app/admin/_actions/discountCodes.ts:45-77 | refusal returns the errors and writes nothing; success stores the new code under a fresh id and changes nothing else |
| DiscountCodeActions.ToggleDiscountCodeActive | src/app/admin/_actions/discountCodes.ts:79-86 | only `isActive` of that code changes; an unknown id changes nothing |
| DiscountCodeActions.DeleteDiscountCode | src/app/admin/_actions/discountCodes.ts:88-94 | only that code is removed and it is returned; an unknown id changes nothing |
| ProductActions.CheckFile | src/app/admin/_actions/products.ts:9-18 | a file passes exactly when present and non-empty |
| ProductActions.CheckImage | src/app/admin/_actions/products.ts:9-19 | an image passes exactly when present, non-empty and of an `image/` type |
| ProductActions.Validate | src/app/admin/_actions/products.ts:14-20 | valid exactly when every field passes (lengths in UTF-16 units), with the form's values; a refusal has at least one error |
| ProductActions.ErrorsNameFailingFields | src/app/admin/_actions/products.ts:14-20 | errors name exactly the failing fields; a non-image gets "Invalid input", an empty image "Required", a zero price the minimum issue |
| ProductActions.FileAndImagePathsDiffer | src/app/admin/_actions/products.ts:33-45 | the product file and the image never share a path on disk |
| ProductActions.DistinctUuidsDistinctPaths | src/app/admin/_actions/products.ts:33-43 | different UUIDs of equal length give different file paths and image paths |
| ProductActions.NameLengthInCodeUnits | src/app/admin/_actions/products.ts:15 | two emoji (four UTF-16 units) are a long enough name, "ab" is not |
| ProductActions.Acceptable | src/app/admin/_actions/products.ts:14-20 | definition, no contract: the forms the schema accepts |
| ProductActions.FilePath | src/app/admin/_actions/products.ts:33 | definition, no contract: `products/<uuid>-<name>` |
| ProductActions.ImagePath | src/app/admin/_actions/products.ts:41-43 | definition, no contract: `/products/<uuid>-<name>` |
| ProductActions.PublicPath | src/app/admin/_actions/products.ts:45 | definition, no contract: the image's place on disk under `public` |
| ProductActions.NewProduct | src/app/admin/_actions/products.ts:50-59 | definition, no contract: the stored record, not available for purchase |
| ProductActions.AddProduct | src/app/admin/_actions/products.ts:22-62 | refusal returns the errors and writes nothing; success writes both files and stores an unavailable product under a fresh id |
| ProductActions.ToggleProductAvailability | src/app/admin/_actions/products.ts:64-74 | only that product's availability changes; an unknown id changes nothing |
| ProductActions.DeleteProduct | src/app/admin/_actions/products.ts:76-86 | the record goes first, then the file, then the image; a missing file stops there; an unknown id changes nothing |
| ProductActions.AddThenDelete | src/app/admin/_actions/products.ts:22-86 | deleting a product just added onto free paths ends with `Deleted` and restores the products and the files, every other table unchanged |
| Db.WithOrder | src/app/webhooks/stripe/route.tsx:40-54 | the upsert adds the user if new, appends exactly one order to them, and leaves every other user alone |
| Db.NewDownloadVerification | src/app/webhooks/stripe/route.tsx:57-62 | definition, no contract: a token expiring 24 hours after its creation |
| Db.IncrementUses | src/app/webhooks/stripe/route.tsx:64-70 | only that code's `uses` grows, by one |
| Db.Store.CreateDownloadVerification | src/app/webhooks/stripe/route.tsx:56-62 | appends one token for the product, expiring 24 hours after `now`, with an id no other token has |
| DownloadRoute.IssuedTokenWindow | src/app/webhooks/stripe/route.tsx:56-62 | a newly created token sends its own product strictly before its expiry at the download endpoint, and redirects afterwards |
| DownloadRoute.TwentyFourHourWindow | src/actions/orders.tsx:55-60 | a token created at T works at T + 23h59m and is refused from T + 24h; an id never created is refused |
| StripeWebhook.HandleWebhook | src/app/webhooks/stripe/route.tsx:12-92 | 400 on a bad signature, unknown product or missing email; 500 when the order cannot be written; otherwise one order, one token, one counted use, and a receipt whose link works for 24 hours |
| StripeWebhook.Completes | src/app/webhooks/stripe/route.tsx:35-54 | definition, no contract: the charge names a stored product, has an email, and names an existing code if any |
| StripeWebhook.RedeliveredCharge | src/app/webhooks/stripe/route.tsx:12-92 | a charge delivered twice records two orders, two tokens and two uses |
| OrderActions.OneTokenPerOrder | src/actions/orders.tsx:51-63 | each order gets its own token for its product, valid 24 hours, with distinct ids, and the email names that token |
| OrderActions.IssuedFor | src/actions/orders.tsx:51-63 | definition, no contract: one 24-hour token per order, ids counted from the first |
| OrderActions.HistoryEntries | src/actions/orders.tsx:51-63 | definition, no contract: each order with the id of its token |
| OrderActions.EmailOrderHistory | src/actions/orders.tsx:12-83 | bad address: error and no change; unknown address: the success message and no change; known: one token per order, and the message depends only on the send |
| Text.Split | src/middleware.ts:24-26 | the split has at least one piece and no piece contains the separator |
| Text.Utf16Length | src/app/admin/_actions/products.ts:15-16 | between the number of characters and twice that, and equal to it exactly when no character lies above U+FFFF |
| Text.JoinSplit | src/middleware.ts:24-26 | joining the pieces gives back the string |
| Text.SplitJoin | src/middleware.ts:24-26 | splitting separator-free pieces after joining gives back the pieces |
| Text.SplitNoSeparator | src/middleware.ts:24-26 | a string without the separator is one piece |
| Text.SplitAfterPrefix | src/middleware.ts:24-26 | the text before the first separator is the first piece |
| Middleware.CredentialBlob | src/middleware.ts:24 | a blob exists exactly when the header contains a space |
| Middleware.ParseCredentials | src/middleware.ts:24-26 | definition, no contract: the first two colon-separated pieces |
| Middleware.PasswordText | src/middleware.ts:31-33 | definition, no contract: a missing password is hashed as the empty string |
| Middleware.IsAuthenticated | src/middleware.ts:17-36 | definition, no contract: no header is false, a header without a space throws, otherwise both credentials compared |
| Middleware.Gate | src/middleware.ts:5-14 | definition, no contract: pass, 401 with the Basic challenge, or a thrown error |
| Middleware.Rfc7617Credentials | src/middleware.ts:24-26 | definition, no contract: the RFC 7617 split the gate is compared against |
| Middleware.SinglePieceIffNoSeparator | src/middleware.ts:24-26 | one piece exactly when there is no separator |
| Middleware.MissingHeaderIsChallenged | src/middleware.ts:8-21 | no or empty header gets 401 with `WWW-Authenticate: Basic` |
| Middleware.HeaderWithoutSpaceThrows | src/middleware.ts:24 | a header without a space fails with an error, not a challenge |
| Middleware.BlobIsSecondToken | src/middleware.ts:24 | the blob is the second space-separated token |
| Middleware.UsernameBeforeFirstColon | src/middleware.ts:24-26 | the username is the text before the first colon |
| Middleware.PasswordTruncatedAtSecondColon | src/middleware.ts:24-26 | a password containing a colon is cut at it |
| Middleware.Rfc7617KeepsRest | src/middleware.ts:24-26 | the RFC 7617 reference keeps everything after the first colon |
| Middleware.DiffersFromRfc7617 | src/middleware.ts:24-26 | on "admin:se:cret" the gate hashes "se" where RFC 7617 says "se:cret" |
| Middleware.PassesIffCredentialsMatch | src/middleware.ts:5-36 | a well-formed request passes exactly when username and password digest match, and is otherwise challenged |
| Middleware.NoColonHashesEmptyPassword | src/middleware.ts:24-34 | without a colon the whole text is the username and the empty password is hashed |
| RangeOptions.LookupByKey | src/lib/rangeOptions.ts:31-35 | no range or an unknown key gives nothing; each of the five keys gives its entry |
| RangeOptions.RangeTable | src/lib/rangeOptions.ts:3-29 | definition, no contract: the five ranges on a given day |
| RangeOptions.GetRangeOption | src/lib/rangeOptions.ts:31-35 | definition, no contract: nothing for no range, the table entry otherwise |
| RangeOptions.LastNDaysCoverNDays | src/lib/rangeOptions.ts:3-23 | each "last N days" window covers N days including today |
| RangeOptions.TableShape | src/lib/rangeOptions.ts:3-29 | exactly five keys, all open-ended, only `all_time` without a start |
| RangeOptions.StartDatesOrdered | src/lib/rangeOptions.ts:3-23 | longer windows start earlier, and none starts after today |

## Left out

- Rendering: the pages' markup, formatters, icons other than the active one, the product-names column, `revalidatePath` and `redirect`. Control ends where the action's result is returned.
- Concurrency: every action runs alone. Interleaved checkouts racing on `uses`, and the concurrent token creations of `emailOrderHistory` (the model creates them in order), are not modelled.
- DiscountEngine.DiscountedAmount: computes in exact rationals rounded up, not IEEE-754 doubles. A fractional price or amount, or a product too large for a double, is not modelled.
- The clock: `new Date()` and `Date.now()` are parameters (`schemaTime`, `now`, `today`). The builds' time zone and `startOfDay` are reduced to day numbers.
- External services are inputs: the payment processor (event construction and signature check), the email service, the email-address regex, Base64 and SHA-512.
- FormFields: reports only the first issue per field; the schema library lists all of them (a percentage of 150.5 carries both the `.int()` issue and the refinement's message).
- FormFields: `Number(...)` giving ±Infinity has no case of its own; it behaves like a `Fractional` of large magnitude with the same sign, which fails `.int()` and the same comparisons.
- Db.WithOrder: the upsert's "newest order by `createdAt`" is read as the last order appended. Orders with equal timestamps are not told apart.
- The database schema is not part of this model. Taken from how the code uses it:
  - codes default to active with zero uses;
  - an order's `discountCodeId` must name an existing code.

  Not modelled:
  - uniqueness of `code`;
  - what deleting a product or code does to orders and tokens that refer to it;
  - connecting a coupon to product ids that do not exist.
- DiscountCodeActions.AddDiscountCode: the `productIds !== null` test passes for `undefined` too. Such a create connects no products, which is what the model stores.
- The download endpoint's file read, `Content-Disposition` and `Content-Length` headers are out; the product id stands for the file sent. A token whose product or file is gone is out.
- ProductActions.AddProduct: `mkdir` and `writeFile` always succeed; file contents are the upload's bytes.
- ProductActions.DeleteProduct: the `notFound()` branch cannot be reached, because the delete throws first; a missing id is modelled as that failure.
- The checkout page's duplicate-purchase check and its re-validation of the coupon are not part of this model; neither is the Stripe payment intent.
