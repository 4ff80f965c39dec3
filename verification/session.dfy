/**
 The API as a whole: route dispatch, runs of several requests, and the
 properties that relate handlers to each other (round trips through `Get`,
 ids never reused across a run).
 */
module Session {
  import opened Optional
  import opened Store

  /** The five routes under `/api/products`. */
  datatype Request =
    | ListProducts
    | GetProduct(id: int)
    | CreateProduct(body: CreateBody)
    | UpdateProduct(id: int, update: UpdateBody)
    | DeleteProduct(id: int)

  /** One request against the table: the route handler it selects. */
  function Handle(db: Db, req: Request): (s: Step)
    requires Valid(db)
    ensures Valid(s.db)
    ensures db.nextId <= s.db.nextId
    ensures s.response.Ok? && s.response.payload.Created? ==>
              db.nextId <= s.response.payload.id < s.db.nextId
    ensures !req.CreateProduct? ==> s.db.nextId == db.nextId
    ensures req.ListProducts? || req.GetProduct? ==> s.db == db
  {
    match req
    case ListProducts => Step(List(db), db)
    case GetProduct(id) => Step(Get(db, id), db)
    case CreateProduct(body) => Create(db, body)
    case UpdateProduct(id, update) => UpdateQuantity(db, id, update)
    case DeleteProduct(id) => Delete(db, id)
  }

  /** The table before request `i` of a run that started from `db`. */
  function Before(db: Db, steps: seq<Step>, i: nat): Db
    requires i <= |steps|
  {
    if i == 0 then db else steps[i - 1].db
  }

  /** Serves `reqs` one after another, each as one atomic transition. */
  function Run(db: Db, reqs: seq<Request>): (steps: seq<Step>)
    requires Valid(db)
    ensures |steps| == |reqs|
    ensures |reqs| > 0 ==> steps[0] == Handle(db, reqs[0])
    decreases |reqs|
  {
    if |reqs| == 0 then
      []
    else
      var s := Handle(db, reqs[0]);
      [s] + Run(s.db, reqs[1..])
  }

  /** Request `i` of a run is served against the table the requests before
      it left, and that table satisfies the store invariant. */
  lemma {:induction false} RunStep(db: Db, reqs: seq<Request>, i: nat)
    requires Valid(db)
    requires i < |reqs|
    ensures Valid(Before(db, Run(db, reqs), i))
    ensures Run(db, reqs)[i] == Handle(Before(db, Run(db, reqs), i), reqs[i])
    decreases i
  {
    if i > 0 {
      var s := Handle(db, reqs[0]);
      var rest := Run(s.db, reqs[1..]);
      assert Run(db, reqs) == [s] + rest;
      RunStep(s.db, reqs[1..], i - 1);
      assert Before(db, Run(db, reqs), i) == Before(s.db, rest, i - 1);
    }
  }

  /** Step `i` of a run leaves the counter no lower than it found it. */
  lemma StepKeepsCounter(db: Db, steps: seq<Step>, reqs: seq<Request>, i: nat)
    requires Valid(db) && steps == Run(db, reqs)
    requires i < |reqs|
    ensures Before(db, steps, i).nextId <= Before(db, steps, i + 1).nextId
  {
    RunStep(db, reqs, i);
  }

  /** The counter never decreases along a run. */
  lemma {:induction false} NextIdMonotone(db: Db, steps: seq<Step>, reqs: seq<Request>, i: nat, j: nat)
    requires Valid(db) && steps == Run(db, reqs)
    requires i <= j <= |reqs|
    ensures Before(db, steps, i).nextId <= Before(db, steps, j).nextId
    decreases j - i
  {
    if i < j {
      StepKeepsCounter(db, steps, reqs, i);
      NextIdMonotone(db, steps, reqs, i + 1, j);
    }
  }

  /** A create at step `i` hands out an id between the counter before and
      after that step. */
  lemma CreatedIdBounds(db: Db, reqs: seq<Request>, i: nat)
    requires Valid(db)
    requires i < |reqs|
    ensures var steps := Run(db, reqs);
            steps[i].response.Ok? && steps[i].response.payload.Created? ==>
              Before(db, steps, i).nextId <= steps[i].response.payload.id < Before(db, steps, i + 1).nextId
  {
    RunStep(db, reqs, i);
  }

  /** AUTOINCREMENT: an id handed out by a create is above every id that was
      stored at any earlier point of the run, rows deleted since included.
      So no id is ever handed out twice. */
  lemma IdsNeverReused(db: Db, reqs: seq<Request>, i: nat, j: nat)
    requires Valid(db)
    requires i <= j < |reqs|
    ensures var steps := Run(db, reqs);
            steps[j].response.Ok? && steps[j].response.payload.Created? ==>
              forall k :: k in Before(db, steps, i).rows ==> k < steps[j].response.payload.id
  {
    NextIdMonotone(db, Run(db, reqs), reqs, i, j);
    CreatedIdBounds(db, reqs, j);
    RunStep(db, reqs, i);
  }

  /** Two successful creates in one run return strictly increasing ids. */
  lemma CreatedIdsDistinct(db: Db, reqs: seq<Request>, i: nat, j: nat)
    requires Valid(db)
    requires i < j < |reqs|
    requires Run(db, reqs)[i].response.Ok? && Run(db, reqs)[i].response.payload.Created?
    requires Run(db, reqs)[j].response.Ok? && Run(db, reqs)[j].response.payload.Created?
    ensures Run(db, reqs)[i].response.payload.id < Run(db, reqs)[j].response.payload.id
  {
    var steps := Run(db, reqs);
    CreatedIdBounds(db, reqs, i);
    NextIdMonotone(db, steps, reqs, i + 1, j);
    CreatedIdBounds(db, reqs, j);
  }

  /** Create, then get the returned id: the stored record with that id. */
  lemma CreateThenGet(db: Db, body: CreateBody)
    requires Valid(db)
    requires Truthy(body.name) && body.quantity.Some? && body.price.Some?
    ensures var s := Create(db, body);
            && s.response.Ok?
            && Get(s.db, s.response.payload.id)
               == Ok(One(Row(s.response.payload.id, StoredProduct(body))))
  {
  }

  /** A created row is listed exactly once. */
  lemma {:induction false} CreateThenList(db: Db, body: CreateBody)
    requires Valid(db)
    requires Truthy(body.name) && body.quantity.Some? && body.price.Some?
    ensures var s := Create(db, body);
            var listed := List(s.db).payload.rows;
            && Row(s.response.payload.id, StoredProduct(body)) in listed
            && Occurrences(listed, s.response.payload.id) == 1
  {
    var s := Create(db, body);
    var listed := List(s.db).payload.rows;
    var id := s.response.payload.id;
    OccurrencesPositive(listed, id);
    var i :| 0 <= i < |listed| && listed[i].id == id;
    assert listed[i] in listed;
  }

  /** Update, then get: the new quantity, every other field as before. */
  lemma UpdateThenGet(db: Db, id: int, q: int)
    requires id in db.rows
    ensures var s := UpdateQuantity(db, id, UpdateBody(Some(q)));
            && s.response == Ok(Updated(id, q))
            && Get(s.db, id) == Ok(One(Row(id, db.rows[id].(quantity := q))))
  {
  }

  /** Delete, then get the same id: 404; a second delete is 404 too. */
  lemma DeleteThenGet(db: Db, id: int)
    requires id in db.rows
    ensures var s := Delete(db, id);
            && s.response.Status() == 200
            && Get(s.db, id).Status() == 404
            && Delete(s.db, id).response.Status() == 404
  {
  }

  /** Create "Leash" (quantity 5, price 9.99), set its quantity to 3, read it
      back, delete it, and read it again. */
  lemma LeashScenario(db: Db)
    requires Valid(db)
    ensures var c := Create(db, CreateBody(Some("Leash"), Absent, Some(5), Some(999), Absent));
            && c.response.Status() == 200
            && var n := c.response.payload.id;
            && var u := UpdateQuantity(c.db, n, UpdateBody(Some(3)));
            && u.response == Ok(Updated(n, 3))
            && Get(u.db, n) == Ok(One(Row(n, Product("Leash", "", 3, 999, ""))))
            && var d := Delete(u.db, n);
            && d.response.Status() == 200
            && Get(d.db, n).Status() == 404
  {
  }
}
