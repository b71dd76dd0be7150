/** The two stateful collaborators of the service, as abstract state: the product
    table behind db/product.go.go and the Redis cache the list path reads and fills.
    Failures of either are flags the environment sets; every call is recorded so that
    "the store was not called" can be stated. */
module Store {
  import opened Model
  import Scope

  // ---------------------------------------------------------------------------
  // The product table (db/product.go.go)

  /** What a list query asks of the table: the filter conditions, the page window and
      the ordering. */
  datatype ListQuery = ListQuery(filter: seq<Scope.Condition>, window: Scope.Window, order: Scope.Order)

  /** The query `ListProduct` runs for a filter, a pagination block and a sort: the
      window depends on the block's limit and page only, which counting leaves alone. */
  function QueryFor(filterText: string, pagination: PaginationResponse, sort: Option<Sort>): (q: ListQuery)
    ensures Scope.ClausesFor(Scope.Compile(filterText), q.filter)
    ensures q.window.LimitOffset? <==> pagination.limit >= 1 && pagination.page >= 1
    ensures q.window.LimitOffset? ==>
      q.window.limit == pagination.limit && q.window.offset == (pagination.page - 1) * pagination.limit
    ensures q.order.OrderBy? <==> sort.Some? && sort.value.column != "" && sort.value.direction != ""
    ensures q.order.OrderBy? ==> q.order.expr == sort.value.column + " " + sort.value.direction
  {
    ListQuery(Scope.Conditions(Scope.Compile(filterText)), Scope.PageWindow(pagination), Scope.SortScope(sort))
  }

  /** The row a name lookup finds: the first row with that name, or the zero product
      when there is none (`GetProductByName`, db/product.go.go:36-56). */
  function FirstNamed(rows: seq<Product>, name: string): (p: Product)
    ensures p != EmptyProduct ==> p in rows && p.name == name
    ensures (exists k :: 0 <= k < |rows| && rows[k].name == name) || p == EmptyProduct
    ensures p.name != "" ==> exists k :: 0 <= k < |rows| && p == rows[k] && forall j :: 0 <= j < k ==> rows[j].name != name
  {
    if rows == [] then EmptyProduct
    else if rows[0].name == name then rows[0]
    else
      var p := FirstNamed(rows[1..], name);
      assert p.name != "" ==> exists k :: 1 <= k < |rows| && p == rows[k] && forall j :: 0 <= j < k ==> rows[j].name != name by {
        if p.name != "" {
          var k :| 0 <= k < |rows[1..]| && p == rows[1..][k] && forall j :: 0 <= j < k ==> rows[1..][j].name != name;
          assert forall j :: 1 <= j < k + 1 ==> rows[j].name == rows[1..][j - 1].name;
          assert p == rows[k + 1];
        }
      }
      p
  }

  /** The lookup finds a row with a non-empty name exactly when the table holds one. */
  lemma {:induction false} FirstNamedFinds(rows: seq<Product>, name: string)
    requires name != ""
    ensures FirstNamed(rows, name).name != "" <==> exists k :: 0 <= k < |rows| && rows[k].name == name
  {
    if rows != [] && rows[0].name != name {
      FirstNamedFinds(rows[1..], name);
      if exists k :: 0 <= k < |rows| && rows[k].name == name {
        var k :| 0 <= k < |rows| && rows[k].name == name;
        assert rows[1..][k - 1].name == name;
      }
    }
  }

  /** A row appended to the table can be looked up by its name. */
  lemma AppendedIsFound(rows: seq<Product>, p: Product)
    requires p.name != ""
    ensures FirstNamed(rows + [p], p.name).name != ""
  {
    FirstNamedFinds(rows + [p], p.name);
    assert (rows + [p])[|rows|] == p;
  }

  /** The row `InsertProduct` writes for a request (db/product.go.go:19-27): the
      request's fields, both timestamps set to the moment of insertion; the id is left
      to the database. */
  function NewRow(req: CreateProductRequest, now: int): (p: Product)
    ensures p.name == req.name && p.price == req.price && p.description == req.description
    ensures p.quantity == req.quantity && p.createdAt == p.updatedAt == Some(now)
  {
    Product(0, req.name, req.price, req.description, req.quantity, Some(now), Some(now))
  }

  class ProductStore {
    /** The rows of `public.products`, in primary-key order. */
    var rows: seq<Product>
    /** Whether the next lookup, insert or list fails with a database error. */
    var lookupFails: bool
    var insertFails: bool
    var listFails: bool
    /** How many rows of a table match a filter (the `Count` of `Paginate`). */
    const count: (seq<Product>, seq<Scope.Condition>) -> Scope.RowCount
    /** The rows a list query returns from a table. */
    const answer: (seq<Product>, ListQuery) -> seq<Product>
    /** Every call made so far: the names looked up, the rows inserted, the queries run. */
    var lookups: seq<string>
    var inserts: seq<Product>
    var queries: seq<ListQuery>

    constructor(rows0: seq<Product>, count0: (seq<Product>, seq<Scope.Condition>) -> Scope.RowCount,
                answer0: (seq<Product>, ListQuery) -> seq<Product>)
      ensures rows == rows0 && count == count0 && answer == answer0
      ensures !lookupFails && !insertFails && !listFails
      ensures lookups == [] && inserts == [] && queries == []
    {
      rows, count, answer := rows0, count0, answer0;
      lookupFails, insertFails, listFails := false, false, false;
      lookups, inserts, queries := [], [], [];
    }

    /** What a lookup of `name` answers in the current state. */
    function Lookup(name: string): Result<Product, Code>
      reads this
    {
      if lookupFails then Err(Internal) else Ok(FirstNamed(rows, name))
    }

    /** `GetProductByName`: a missing name is the zero product, not an error. */
    method GetProductByName(name: string) returns (r: Result<Product, Code>)
      modifies this
      ensures r == old(Lookup(name))
      ensures lookups == old(lookups) + [name]
      ensures rows == old(rows) && inserts == old(inserts) && queries == old(queries)
      ensures lookupFails == old(lookupFails) && insertFails == old(insertFails) && listFails == old(listFails)
    {
      lookups := lookups + [name];
      if lookupFails {
        r := Err(Internal);
      } else {
        r := Ok(FirstNamed(rows, name));
      }
    }

    /** `InsertProduct`: appends the new row unless the insert fails. */
    method InsertProduct(req: CreateProductRequest, now: int) returns (ok: bool)
      modifies this
      ensures ok == !old(insertFails)
      ensures rows == if ok then old(rows) + [NewRow(req, now)] else old(rows)
      ensures inserts == old(inserts) + [NewRow(req, now)]
      ensures lookups == old(lookups) && queries == old(queries)
      ensures lookupFails == old(lookupFails) && insertFails == old(insertFails) && listFails == old(listFails)
    {
      var row := NewRow(req, now);
      inserts := inserts + [row];
      ok := !insertFails;
      if ok {
        rows := rows + [row];
      }
    }

    /** `ListProduct` (db/product.go.go:58-80): compiles the filter, counts the
        matching rows into the caller's pagination block, then runs the query with the
        page window and the ordering. No matching row is an empty list, not an error;
        the count is taken even when the query then fails. */
    method ListProduct(pagination: Scope.Pagination, filterText: string, sort: Option<Sort>)
      returns (r: Result<seq<Product>, Code>)
      modifies this, pagination
      ensures var q := QueryFor(filterText, old(pagination.current), sort);
        && queries == old(queries) + [q]
        && pagination.current == Scope.WithTotals(old(pagination.current), count(old(rows), q.filter))
        && r == if old(listFails) then Err(Internal) else Ok(answer(old(rows), q))
      ensures rows == old(rows) && lookups == old(lookups) && inserts == old(inserts)
      ensures lookupFails == old(lookupFails) && insertFails == old(insertFails) && listFails == old(listFails)
    {
      var filter := Scope.BuildConditions(Scope.Compile(filterText));
      var window := Scope.Paginate(pagination, count(rows, filter));
      var q := ListQuery(filter, window, Scope.SortScope(sort));
      Scope.ClausesUnique(Scope.Compile(filterText), filter, Scope.Conditions(Scope.Compile(filterText)));
      queries := queries + [q];
      if listFails {
        r := Err(Internal);
      } else {
        r := Ok(answer(rows, q));
      }
    }
  }

  // ---------------------------------------------------------------------------
  // The cache (the Redis client as service/service.go:209-252 uses it)

  /** What a cached value decodes to: a list of products, or bytes that are not one. */
  datatype Blob = Json(products: seq<Product>) | Garbled

  datatype Entry = Entry(blob: Blob, expiresAt: int)

  /** The three answers of a `GET`: a value, `redis.Nil` (absent or expired), or any
      other error. */
  datatype CacheRead = Hit(blob: Blob) | Nil | Down

  /** The lifetime of a cached list: one minute, in seconds. */
  const Ttl: nat := 60

  class RedisCache {
    var entries: map<string, Entry>
    /** The cache's clock, in seconds. */
    var now: int
    /** Whether `GET` fails with an error other than `redis.Nil`, and whether `SET` fails. */
    var down: bool
    var setFails: bool
    /** Every call made so far: the keys read and the writes attempted. */
    var gets: seq<string>
    var sets: seq<(string, Entry)>

    constructor(now0: int)
      ensures entries == map[] && now == now0
      ensures !down && !setFails && gets == [] && sets == []
    {
      entries, now := map[], now0;
      down, setFails := false, false;
      gets, sets := [], [];
    }

    /** What `GET key` answers now. */
    function Read(key: string): CacheRead
      reads this
    {
      ReadAt(entries, down, key, now)
    }

    method Get(key: string) returns (r: CacheRead)
      modifies this
      ensures r == old(Read(key))
      ensures gets == old(gets) + [key]
      ensures entries == old(entries) && now == old(now) && sets == old(sets)
      ensures down == old(down) && setFails == old(setFails)
    {
      gets := gets + [key];
      r := Read(key);
    }

    /** `SET key value EX ttl`: stores the list to expire `ttl` seconds from now. */
    method Set(key: string, products: seq<Product>, ttl: nat) returns (ok: bool)
      modifies this
      ensures ok == !old(setFails)
      ensures entries == if ok then old(entries)[key := Entry(Json(products), now + ttl)] else old(entries)
      ensures sets == old(sets) + [(key, Entry(Json(products), now + ttl))]
      ensures now == old(now) && gets == old(gets)
      ensures down == old(down) && setFails == old(setFails)
    {
      var e := Entry(Json(products), now + ttl);
      sets := sets + [(key, e)];
      ok := !setFails;
      if ok {
        entries := entries[key := e];
      }
    }

    /** Lets `seconds` pass on the cache's clock. */
    method Advance(seconds: nat)
      modifies this
      ensures now == old(now) + seconds
      ensures entries == old(entries) && gets == old(gets) && sets == old(sets)
      ensures down == old(down) && setFails == old(setFails)
    {
      now := now + seconds;
    }
  }

  /** What `GET key` answers at instant `now`: an entry is visible until its expiry
      instant, after which the key reads as absent. */
  function ReadAt(entries: map<string, Entry>, down: bool, key: string, now: int): (r: CacheRead)
    ensures r.Down? <==> down
    ensures r.Hit? ==> key in entries && now < entries[key].expiresAt && r.blob == entries[key].blob
    ensures !down && key in entries && now < entries[key].expiresAt ==> r.Hit?
  {
    if down then Down
    else if key in entries && now < entries[key].expiresAt then Hit(entries[key].blob)
    else Nil
  }

  /** A list written at instant `written` is read back unchanged for exactly one
      minute: at every instant before `written + Ttl`, and at none from then on. */
  lemma WrittenListVisibleForTtl(entries: map<string, Entry>, key: string, products: seq<Product>,
                                 written: int, at: int)
    requires written <= at
    ensures var after := entries[key := Entry(Json(products), written + Ttl)];
      (ReadAt(after, false, key, at) == Hit(Json(products)) <==> at < written + Ttl)
      && (at >= written + Ttl ==> ReadAt(after, false, key, at) == Nil)
  {
  }
}
