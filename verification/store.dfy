/**
 The `products` table and the five `/api/products` route handlers over it.

 The table is a map from row id to product plus the AUTOINCREMENT counter
 `nextId` (one more than the largest id ever issued).  Each handler is one
 atomic transition: it returns the HTTP response it would send and the table
 after the single SQL statement it issues.
 */
module Store {
  import opened Optional
  import opened Strings

  /** One row of `products` without its id.  `price` is an opaque amount
      (in cents) that the store never computes on. */
  datatype Product = Product(
    name: string,
    description: string,
    quantity: int,
    price: int,
    category: string)

  /** A row as `SELECT *` returns it. */
  datatype Row = Row(id: int, product: Product)

  /** The table and its AUTOINCREMENT counter. */
  datatype Db = Db(rows: map<int, Product>, nextId: int)

  /** Every stored id was issued by the counter: ids start at 1 and are
      all below `nextId`. */
  ghost predicate Valid(db: Db) {
    && 1 <= db.nextId
    && forall id :: id in db.rows ==> 1 <= id < db.nextId
  }

  /** A freshly created table: no rows, and the first id issued will be 1. */
  function Empty(): (db: Db)
    ensures Valid(db)
    ensures |db.rows| == 0
    ensures db.nextId == 1
  {
    Db(map[], 1)
  }

  /** Body of `POST /api/products`; a missing field is `Absent`. */
  datatype CreateBody = CreateBody(
    name: Option<string>,
    description: Option<string>,
    quantity: Option<int>,
    price: Option<int>,
    category: Option<string>)

  /** Body of `PUT /api/products/:id`. */
  datatype UpdateBody = UpdateBody(quantity: Option<int>)

  /** JSON payload of a 200 response.  `Created` echoes the request's own
      `description` and `category`, absent ones included. */
  datatype Payload =
    | Rows(rows: seq<Row>)
    | One(row: Row)
    | Created(id: int, name: string, description: Option<string>, quantity: int,
              price: int, category: Option<string>)
    | Updated(id: int, quantity: int)
    | Message(text: string)

  datatype Response = Ok(payload: Payload) | BadRequest(error: string) | NotFound(error: string) {
    function Status(): int {
      match this
      case Ok(_) => 200
      case BadRequest(_) => 400
      case NotFound(_) => 404
    }
  }

  /** The outcome of one request: the response and the table afterwards. */
  datatype Step = Step(response: Response, db: Db)

  const RequiredFieldsError := "Name, quantity, and price are required"
  const QuantityRequiredError := "Quantity is required"
  const NotFoundError := "Product not found"
  const DeletedMessage := "Product deleted successfully"

  /** JavaScript truthiness of an optional string field. */
  predicate Truthy(s: Option<string>) {
    s.Some? && s.value != ""
  }

  /** `field || ''` */
  function OrEmpty(s: Option<string>): string {
    if Truthy(s) then s.value else ""
  }

  /** The row a valid create body is stored as. */
  function StoredProduct(body: CreateBody): Product
    requires Truthy(body.name) && body.quantity.Some? && body.price.Some?
  {
    Product(body.name.value, OrEmpty(body.description), body.quantity.value,
            body.price.value, OrEmpty(body.category))
  }

  // ----------------------------------------------------------------------
  // GET /api/products/:id

  function Get(db: Db, id: int): (r: Response)
    ensures r.Ok? <==> id in db.rows
    ensures r.Ok? ==> r.payload.One? && r.payload.row.id == id && r.payload.row.product == db.rows[id]
    ensures !r.Ok? ==> r == NotFound(NotFoundError)
  {
    if id in db.rows then Ok(One(Row(id, db.rows[id]))) else NotFound(NotFoundError)
  }

  // ----------------------------------------------------------------------
  // POST /api/products

  function Create(db: Db, body: CreateBody): (s: Step)
    requires Valid(db)
    ensures Valid(s.db)
    ensures s.response.BadRequest? <==>
              !Truthy(body.name) || body.quantity.Absent? || body.price.Absent?
    ensures s.response.BadRequest? ==>
              s.response.error == RequiredFieldsError && s.db == db
    ensures !s.response.BadRequest? ==>
              && s.response.Ok? && s.response.payload.Created?
              && var id := s.response.payload.id;
              // a fresh id, above every id the counter has issued so far
              && db.nextId <= id < s.db.nextId
              && (forall k :: k in db.rows ==> k < id)
              // exactly one new row, holding the body's fields with defaults
              && s.db.rows.Keys == db.rows.Keys + {id}
              && (forall k :: k in db.rows ==> s.db.rows[k] == db.rows[k])
              && s.db.rows[id].name == body.name.value
              && s.db.rows[id].quantity == body.quantity.value
              && s.db.rows[id].price == body.price.value
              && s.db.rows[id].description == (if Truthy(body.description) then body.description.value else "")
              && s.db.rows[id].category == (if Truthy(body.category) then body.category.value else "")
              // the response echoes the body as received
              && s.response.payload.name == body.name.value
              && s.response.payload.description == body.description
              && s.response.payload.quantity == body.quantity.value
              && s.response.payload.price == body.price.value
              && s.response.payload.category == body.category
  {
    if !Truthy(body.name) || body.quantity.Absent? || body.price.Absent? then
      Step(BadRequest(RequiredFieldsError), db)
    else
      var id := db.nextId;
      Step(Ok(Created(id, body.name.value, body.description, body.quantity.value,
                      body.price.value, body.category)),
           Db(db.rows[id := StoredProduct(body)], id + 1))
  }

  // ----------------------------------------------------------------------
  // PUT /api/products/:id

  function UpdateQuantity(db: Db, id: int, body: UpdateBody): (s: Step)
    ensures Valid(db) ==> Valid(s.db)
    ensures s.response.BadRequest? <==> body.quantity.Absent?
    ensures s.response.NotFound? <==> body.quantity.Some? && id !in db.rows
    ensures s.response.BadRequest? ==> s.response.error == QuantityRequiredError
    ensures s.response.NotFound? ==> s.response.error == NotFoundError
    ensures !s.response.Ok? ==> s.db == db
    ensures s.response.Ok? ==>
              && s.response.payload == Updated(id, body.quantity.value)
              && s.db.nextId == db.nextId
              && s.db.rows.Keys == db.rows.Keys
              // only the quantity of row `id` changes
              && s.db.rows[id].quantity == body.quantity.value
              && s.db.rows[id].name == db.rows[id].name
              && s.db.rows[id].description == db.rows[id].description
              && s.db.rows[id].price == db.rows[id].price
              && s.db.rows[id].category == db.rows[id].category
              && (forall k :: k in db.rows && k != id ==> s.db.rows[k] == db.rows[k])
  {
    if body.quantity.Absent? then
      Step(BadRequest(QuantityRequiredError), db)
    else if id !in db.rows then
      // `this.changes === 0`
      Step(NotFound(NotFoundError), db)
    else
      var q := body.quantity.value;
      Step(Ok(Updated(id, q)), db.(rows := db.rows[id := db.rows[id].(quantity := q)]))
  }

  // ----------------------------------------------------------------------
  // DELETE /api/products/:id

  function Delete(db: Db, id: int): (s: Step)
    ensures Valid(db) ==> Valid(s.db)
    ensures s.response.Ok? <==> id in db.rows
    ensures !s.response.Ok? ==> s.response == NotFound(NotFoundError) && s.db == db
    ensures s.response.Ok? ==>
              && s.response == Ok(Message(DeletedMessage))
              && s.db.nextId == db.nextId
              && s.db.rows.Keys == db.rows.Keys - {id}
              && (forall k :: k in s.db.rows ==> s.db.rows[k] == db.rows[k])
  {
    if id !in db.rows then
      Step(NotFound(NotFoundError), db)
    else
      Step(Ok(Message(DeletedMessage)), db.(rows := db.rows - {id}))
  }

  // ----------------------------------------------------------------------
  // GET /api/products: every row, ordered by name

  /** Number of rows in `s` with id `id`. */
  function Occurrences(s: seq<Row>, id: int): nat
    decreases |s|
  {
    if |s| == 0 then 0 else (if s[0].id == id then 1 else 0) + Occurrences(s[1..], id)
  }

  lemma {:induction false} OccurrencesPositive(s: seq<Row>, id: int)
    requires Occurrences(s, id) > 0
    ensures exists i :: 0 <= i < |s| && s[i].id == id
    decreases |s|
  {
    if s[0].id != id {
      OccurrencesPositive(s[1..], id);
      var i :| 0 <= i < |s[1..]| && s[1..][i].id == id;
      assert s[i + 1].id == id;
    }
  }

  ghost predicate SortedByName(s: seq<Row>) {
    forall i, j :: 0 <= i < j < |s| ==> LexLe(s[i].product.name, s[j].product.name)
  }

  /** Ids of `rows` in the half-open range [lo, hi). */
  ghost function KeysIn(rows: map<int, Product>, lo: int, hi: int): set<int> {
    set k | k in rows && lo <= k < hi
  }

  /** The rows with ids in [lo, hi), in ascending id order (a table scan). */
  function Scan(rows: map<int, Product>, lo: int, hi: int): (out: seq<Row>)
    ensures forall r :: r in out ==> r.id in rows && rows[r.id] == r.product && lo <= r.id < hi
    ensures forall id :: Occurrences(out, id) == if id in rows && lo <= id < hi then 1 else 0
    ensures |out| == |KeysIn(rows, lo, hi)|
    decreases hi - lo
  {
    if lo >= hi then
      assert KeysIn(rows, lo, hi) == {};
      []
    else
      var head := if lo in rows then [Row(lo, rows[lo])] else [];
      var rest := Scan(rows, lo + 1, hi);
      assert KeysIn(rows, lo, hi) == (if lo in rows then {lo} else {}) + KeysIn(rows, lo + 1, hi);
      assert forall id :: Occurrences(head + rest, id) == Occurrences(head, id) + Occurrences(rest, id) by {
        if |head| == 1 {
          assert (head + rest)[1..] == rest;
        } else {
          assert head + rest == rest;
        }
      }
      head + rest
  }

  /** Inserts `x` before the first row whose name is not below it. */
  function InsertByName(x: Row, s: seq<Row>): (r: seq<Row>)
    ensures |r| == |s| + 1
    ensures forall y :: y in r <==> y == x || y in s
    ensures multiset(r) == multiset(s) + multiset{x}
    ensures forall id :: Occurrences(r, id) == Occurrences(s, id) + (if x.id == id then 1 else 0)
    decreases |s|
  {
    if |s| == 0 then
      [x]
    else if LexLe(x.product.name, s[0].product.name) then
      assert ([x] + s)[1..] == s;
      [x] + s
    else
      var rest := InsertByName(x, s[1..]);
      assert s == [s[0]] + s[1..];
      assert ([s[0]] + rest)[1..] == rest;
      [s[0]] + rest
  }

  lemma {:induction false} InsertByNameSorted(x: Row, s: seq<Row>)
    requires SortedByName(s)
    ensures SortedByName(InsertByName(x, s))
    decreases |s|
  {
    if |s| == 0 {
    } else if LexLe(x.product.name, s[0].product.name) {
      forall j | 1 <= j < |s| ensures LexLe(x.product.name, s[j].product.name) {
        LexLeTransitive(x.product.name, s[0].product.name, s[j].product.name);
      }
    } else {
      InsertByNameSorted(x, s[1..]);
      LexLeTotal(x.product.name, s[0].product.name);
      var rest := InsertByName(x, s[1..]);
      forall j | 0 <= j < |rest| ensures LexLe(s[0].product.name, rest[j].product.name) {
        if rest[j] != x {
          assert rest[j] in s[1..];
          var k :| 0 <= k < |s[1..]| && s[1..][k] == rest[j];
          assert s[k + 1] == rest[j];
        }
      }
    }
  }

  /** Stable insertion sort by name. */
  function SortByName(s: seq<Row>): (r: seq<Row>)
    ensures |r| == |s|
    ensures forall y :: y in r <==> y in s
    ensures multiset(r) == multiset(s)
    ensures forall id :: Occurrences(r, id) == Occurrences(s, id)
    decreases |s|
  {
    if |s| == 0 then
      []
    else
      assert s == [s[0]] + s[1..];
      assert forall id :: Occurrences(s, id) == (if s[0].id == id then 1 else 0) + Occurrences(s[1..], id);
      InsertByName(s[0], SortByName(s[1..]))
  }

  lemma {:induction false} SortByNameSorted(s: seq<Row>)
    ensures SortedByName(SortByName(s))
    decreases |s|
  {
    if |s| > 0 {
      SortByNameSorted(s[1..]);
      InsertByNameSorted(s[0], SortByName(s[1..]));
    }
  }

  /** `SELECT * FROM products ORDER BY name` */
  function List(db: Db): (r: Response)
    requires Valid(db)
    ensures r.Ok? && r.payload.Rows?
    ensures SortedByName(r.payload.rows)
    ensures forall row :: row in r.payload.rows ==> row.id in db.rows && db.rows[row.id] == row.product
    ensures forall id :: Occurrences(r.payload.rows, id) == if id in db.rows then 1 else 0
    ensures |r.payload.rows| == |db.rows|
  {
    var scanned := Scan(db.rows, 1, db.nextId);
    SortByNameSorted(scanned);
    assert KeysIn(db.rows, 1, db.nextId) == db.rows.Keys;
    Ok(Rows(SortByName(scanned)))
  }
}
