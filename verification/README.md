# Inventory tracker: product store and client helpers in Dafny

This project models the core of a small inventory tracker. The server keeps
one SQLite table `products` and exposes five routes under `/api/products`.
They list, read, create, update the quantity of, and delete a product. The
browser client escapes product text for HTML, filters the fetched list by a
search term, and shows the number of products and the total item count.

The table is a map from row id to `Product`. Beside it sits the
AUTOINCREMENT counter `nextId`, which is one above the largest id ever
issued. Each route handler is a pure function of the table and the request.
`Create`, `UpdateQuantity` and `Delete` return the HTTP response and the new
table, as one atomic step. `Get` and `List` return only the response, and
`Session.Handle` keeps the table as it was.
Missing request-body fields are `Absent`, so the handlers' presence checks are
stated exactly: `!name` is "absent or empty", `x === undefined` is "absent".

Modules:

- `Optional` (`optional.dfy`): `Option`, a request-body field that may be absent.
- `Strings` (`strings.dfy`): the name order used by `ORDER BY name`, ASCII
  lower-casing, and `includes` with a reference substring definition.
- `Store` (`store.dfy`): the data model, the store invariant `Valid`, and
  the five handlers `List`, `Get`, `Create`, `UpdateQuantity` and `Delete`.
- `Session` (`session.dfy`): routing one request to its handler, and running
  a sequence of requests. It proves the properties that link handlers:
  round trips through `Get`, and that ids are never reused.
- `Client` (`client.dfy`): `escapeHtml` and its decoder, the `handleSearch`
  filter, and the integer statistics of `updateStats`.

`Valid(db)` says the counter is at least 1 and every stored id lies in
`[1, nextId)`. The empty table satisfies it and every handler preserves it.
`Create` and `List` require it, because it is the invariant AUTOINCREMENT
keeps. The other handlers do not need it.

Two details of the handlers:

- A successful create answers with the request's own `description` and
  `category`, not the stored defaults. An absent one stays absent and an
  empty one stays empty (server.js:125).
- An update with no `quantity` is rejected with 400 before the id is looked
  up, so a missing id with a missing quantity gives 400, not 404.

## Model

| member | source | states |
|---|---|---|
| Store.Empty | server.js:25-32 | A freshly created table has no rows, its counter is 1 so the first id issued is 1, and the store invariant holds. |
| Store.Get | server.js:98-108 | 200 with the row exactly when the id is stored, with that id and its stored fields; otherwise 404 "Product not found". |
| Store.StoredProduct | server.js:119-120 | No contract of its own: the row the INSERT stores, with `description` and `category` defaulted to "" when falsy. Store.Create and Session.CreateThenGet state that exactly this row is stored under the new id. |
| Store.Create | server.js:111-129 | 400 with "Name, quantity, and price are required" and an unchanged table exactly when name is absent or empty, or quantity or price is absent. Otherwise 200 with an id above every id issued so far. Exactly one new row holds the body's name, quantity and price, with description and category defaulted to "" when falsy. The response echoes the body's own optional fields, and the invariant is kept. |
| Store.UpdateQuantity | server.js:132-152 | 400 exactly when quantity is absent. 404 exactly when quantity is present and the id is not stored. Both leave the table unchanged. Otherwise 200 with `{id, quantity}`: only that row's quantity changes, and every other field, row and the counter stay as they were. |
| Store.Delete | server.js:155-165 | 404 with an unchanged table exactly when the id is not stored. Otherwise 200 "Product deleted successfully": exactly that row is removed, the others and the counter are unchanged. |
| Store.List | server.js:87-95 | 200 with a list sorted ascending by name. Every stored row appears exactly once with its stored fields, nothing else appears, and the length is the number of rows. |
| Store.Scan | server.js:88 | The table scan (built in ascending id order) yields each row with an id in the range exactly once, with its stored fields; its contract states no order. |
| Store.SortByName | server.js:88 | Sorting permutes its input: the multiset of rows is unchanged, so the length, the elements and the number of rows with each id are kept. |
| Store.InsertByNameSorted | server.js:88 | Inserting a row into a name-sorted list keeps it sorted. |
| Store.SortByNameSorted | server.js:88 | The sort's result is ordered by name. |
| Strings.LexLe | server.js:88 | No contract of its own: code-point lexicographic order, SQLite's BINARY collation on UTF-8 names. Strings.LexLeReflexive, LexLeTotal, LexLeTransitive and LexLeAntisymmetric state that it is a total order. |
| Strings.LexLeReflexive | server.js:88 | Every name is at most itself in the name order. |
| Strings.LexLeTotal | server.js:88 | Any two names are comparable in the order `ORDER BY name` uses. |
| Strings.LexLeTransitive | server.js:88 | The name order is transitive. |
| Strings.LexLeAntisymmetric | server.js:88 | Names that are each at most the other are equal. |
| Session.Handle | server.js:87-165 | Each route keeps the store invariant and never lowers the counter. Only create raises it, and a created id lies between the old and new counter. List and get leave the table unchanged. |
| Session.Run | server.js:87-165 | Serves requests one after another: one step per request, the first served by `Handle` on the starting table. |
| Session.RunStep | server.js:87-165 | Request `i` of a run is served by its handler against the table the earlier requests left, and that table satisfies the store invariant. |
| Session.CreatedIdBounds | server.js:118-126 | A create at step `i` of a run returns an id at or above the counter before the step and below the counter after it. |
| Session.NextIdMonotone | server.js:26 | Along any run the AUTOINCREMENT counter never decreases. |
| Session.IdsNeverReused | server.js:26 | An id returned by a create is above every id stored at any earlier point of the run, including rows deleted since. |
| Session.CreatedIdsDistinct | server.js:118-126 | Two successful creates in one run return strictly increasing, so distinct, ids. |
| Session.CreateThenGet | server.js:118-125 | After a valid create, get on the returned id yields the stored record, defaults applied, under that id. |
| Session.CreateThenList | server.js:88-92 | After a valid create, the listing contains the new row, and its id exactly once. |
| Session.UpdateThenGet | server.js:139-148 | After an update of a stored id, get yields the new quantity and all other fields as before. |
| Session.DeleteThenGet | server.js:156-163 | After deleting a stored id, get and a second delete on that id both give 404. |
| Session.LeashScenario | server.js:111-165 | Creating "Leash" (quantity 5, price 9.99) gives 200 and id N. Setting quantity 3 answers `{N, 3}`, get shows quantity 3 with the other fields unchanged, delete gives 200, and a later get gives 404. |
| Client.EscapeHtml | public/app.js:240-249 | The output contains none of `<`, `>`, `"`, `'`. It is never shorter than the input, and it equals the input when the input has none of the five special characters. |
| Client.EscapeChar | public/app.js:241-247 | A character is replaced exactly when it is one of `&`, `<`, `>`, `"`, `'`, and no replacement contains `<`, `>`, `"` or `'`. |
| Client.EscapeHtmlConcat | public/app.js:248 | Escaping distributes over concatenation. |
| Client.UnescapeEscapeHtml | public/app.js:241-247 | Decoding the five entities recovers the escaped text exactly. |
| Client.EscapeHtmlInjective | public/app.js:241-248 | Different texts never escape to the same HTML. |
| Client.EscapeHtmlNotIdempotent | public/app.js:242 | Escaping is not idempotent: "&" becomes "&amp;", which becomes "&amp;amp;". |
| Client.Filter | public/app.js:231-235 | A product is in the result exactly when it is in the input and matches the term. Each kept product occurs as often as in the input, and dropped ones do not occur. |
| Client.FilterIsSubsequence | public/app.js:231-235 | The filtered list keeps the input's order (it is a subsequence). |
| Client.HandleSearch | public/app.js:223-238 | An empty search term renders the full list unchanged. Otherwise exactly the products matching the lower-cased term are rendered. |
| Strings.Lower | public/app.js:224 | Lower-casing keeps the length and lower-cases each character in place (ASCII only, see Left out). |
| Client.HandleSearchSelects | public/app.js:223-238 | The rendered list is always an order-preserving subsequence of the products, with each kept product's multiplicity unchanged. |
| Client.Keep | public/app.js:231-235 | No contract of its own; Client.KeepIsSubstring states it equals substring-of-name, description or category. |
| Client.KeepIsSubstring | public/app.js:232-234 | For every term, a product is kept iff the term is a substring of its lower-cased name, description or category; the truthiness guards do not change the outcome. |
| Strings.Includes | public/app.js:232-234 | No contract of its own; Strings.IncludesIsSubstring states that it holds exactly when the needle occurs at some position. |
| Strings.IncludesIsSubstring | public/app.js:232-234 | The left-to-right `includes` search agrees with "occurs at some position". |
| Client.UpdateStats | public/app.js:174-176 | `totalProducts` is the list length and `totalItems` is the sum of all quantities. |
| Client.ReduceQuantities | public/app.js:176 | No contract of its own; Client.ReduceIsSum states that the left fold from `acc` is `acc` plus the reference quantity sum. |
| Client.ReduceIsSum | public/app.js:176 | The left fold `reduce((sum, p) => sum + p.quantity, acc)` equals `acc` plus the reference sum. |
| Client.SumQuantitiesConcat | public/app.js:176 | The quantity sum of a concatenation is the sum of the parts' sums. |
| Client.ListingStats | public/app.js:57-60 | On the full listing, `totalProducts` is the number of stored rows. |

## Left out

- Storage errors: every 500 path (`err` in each callback), opening the database file, and table creation failing. The engine is external; the model has no failure outcome.
- Process plumbing: Express middleware, static file serving, `app.listen`, and closing the database on SIGINT.
- `seedDatabase` and the empty-table check that triggers it: demo data only.
- Asynchrony and concurrent requests: each request is one atomic transition, and runs are sequential.
- Floating point: `price` is an integer amount in cents that is never computed on. `totalValue`, `toFixed`, `parseFloat` and `parseInt` are not modelled. Quantities are unbounded integers, so the double-precision rounding of `totalItems` above 2^53 is not modelled.
- JSON value types: fields are strings or integers. A `null` quantity or price passes the `=== undefined` check. On a create, and on an update of a stored id, it then fails the NOT NULL constraint with a 500. A `PUT` with a `null` quantity on a missing id matches no row and still answers 404. None of these `null` paths is modelled. A truthy non-string `name` is not modelled either.
- Path ids are integers. The string-versus-number type of `id` in responses is not modelled, and a non-numeric path id is modelled as an integer that matches no row.
- The AUTOINCREMENT limit (2^63 - 1, after which inserts fail) is not modelled: ids are unbounded.
- Store.List: the order among rows with equal names is not stated, because `ORDER BY name` leaves it open. Names are compared by code point, which is SQLite's default BINARY collation on UTF-8 text; other collations are not modelled.
- Strings.Lower: lower-casing is ASCII-only; JavaScript's full Unicode `toLowerCase` is not modelled.
- DOM rendering, modals, `fetch`, `confirm` and `alert` in the client, and `String(text)` coercion of non-string input to `escapeHtml`.
