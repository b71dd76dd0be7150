/** The product service of service/service.go: the pagination normaliser, the
    create-product guard chain, the list path with its sort allow-list and cache key,
    and the cache-aside step in front of the store. */
module Service {
  import opened Model
  import Utils
  import Base64
  import Scope
  import CacheKey
  import Store

  // ---------------------------------------------------------------------------
  // setPagination (service/service.go:45-72)

  /** The pagination block a request's page and limit give. A zero page together with
      a zero limit selects unpaginated mode (-1/-1); otherwise page 0 becomes 1, the
      limit is clamped into 1..100 (above 100 becomes 100, 0 or less becomes 10) and
      every other page, negative ones included, is kept. The totals start at zero. */
  function Normalize(page: Int32, limit: Int32): (p: PaginationResponse)
    ensures p.totalRows == 0 && p.totalPages == 0
    ensures page == 0 && limit == 0 ==> p.page == -1 && p.limit == -1
    ensures !(page == 0 && limit == 0) ==>
      && 1 <= p.limit <= 100
      && (1 <= limit <= 100 ==> p.limit == limit)
      && (limit > 100 ==> p.limit == 100)
      && (limit <= 0 ==> p.limit == 10)
      && (page == 0 ==> p.page == 1)
      && (page != 0 ==> p.page == page)
  {
    if page == 0 && limit == 0 then PaginationResponse(-1, -1, 0, 0)
    else
      var l := if limit > 100 then 100 else if limit <= 0 then 10 else limit;
      PaginationResponse(l, if page == 0 then 1 else page, 0, 0)
  }

  /** `setPagination`: starts from the defaults 10/1 and overwrites the fields step by
      step, as the source does. */
  method SetPagination(page: Int32, limit: Int32) returns (res: PaginationResponse)
    ensures res == Normalize(page, limit)
  {
    res := PaginationResponse(10, 1, 0, 0);
    if limit == 0 && page == 0 {
      res := res.(limit := -1, page := -1);
      return;
    } else {
      res := res.(limit := limit, page := page);
    }
    if res.page == 0 {
      res := res.(page := 1);
    }
    if res.limit > 100 {
      res := res.(limit := 100);
    } else if res.limit <= 0 {
      res := res.(limit := 10);
    }
  }

  /** Outside unpaginated mode, normalising twice changes nothing. (Unpaginated mode
      is not a fixed point: -1/-1 normalises to limit 10, page -1.) */
  lemma NormalizeIdempotent(page: Int32, limit: Int32)
    requires !(page == 0 && limit == 0)
    ensures var p := Normalize(page, limit); Normalize(p.page, p.limit) == p
    ensures Normalize(-1, -1) != Normalize(0, 0)
  {
  }

  /** What `Paginate` makes of a normalised block. Unpaginated mode counts nothing and
      applies no window. Otherwise the totals are always counted, and a window is
      applied exactly when the requested page is not negative: a negative page lists
      every matching row. */
  lemma PaginateAfterNormalize(page: Int32, limit: Int32, rows: Scope.RowCount)
    ensures var p := Normalize(page, limit);
      && (page == 0 && limit == 0 ==> Scope.WithTotals(p, rows) == p && Scope.PageWindow(p).Unbounded?)
      && (!(page == 0 && limit == 0) ==>
            && Scope.WithTotals(p, rows).totalRows == rows
            && (Scope.PageWindow(Scope.WithTotals(p, rows)).LimitOffset? <==> page >= 0))
  {
  }

  // ---------------------------------------------------------------------------
  // AddProduct (service/service.go:74-135)

  /** Why a create request is refused, one reason per guard, in the order they run. */
  datatype Reason =
    | NameEmpty | NameTooLong | NameCharset | LookupFailed | NameTaken
    | PriceTooLow | QuantityTooLow | DescriptionTooLong | DescriptionCharset | InsertFailed

  /** The status code each refusal is reported with: the store's failures are
      `Internal`, every guard is `Aborted`. */
  function CodeOf(r: Reason): (c: Code)
    ensures c == Internal <==> r == LookupFailed || r == InsertFailed
    ensures c != InvalidArgument
  {
    if r == LookupFailed || r == InsertFailed then Internal else Aborted
  }

  /** The position of a guard in the chain. */
  function Rank(r: Reason): nat {
    match r
    case NameEmpty => 0
    case NameTooLong => 1
    case NameCharset => 2
    case LookupFailed => 3
    case NameTaken => 4
    case PriceTooLow => 5
    case QuantityTooLow => 6
    case DescriptionTooLong => 7
    case DescriptionCharset => 8
    case InsertFailed => 9
  }

  /** The verdicts of the string checks on a request: whether the name and the
      description are blank (`IsEmptyString`), their lengths in UTF-8 bytes (Go's `len`)
      and whether their characters are allowed. */
  datatype Verdicts = Verdicts(
    nameBlank: bool, nameBytes: nat, nameValid: bool,
    descriptionBlank: bool, descriptionBytes: nat, descriptionValid: bool)

  function VerdictsOf(req: CreateProductRequest): Verdicts {
    Verdicts(
      Utils.IsEmptyString(req.name), Utils.Utf8Length(req.name), Utils.IsValidProductName(req.name),
      Utils.IsEmptyString(req.description), Utils.Utf8Length(req.description),
      Utils.IsValidCharacter(req.description))
  }

  /** Whether guard `r` refuses the request, on its own. `lookup` is what the store
      answers for the name. A blank description is replaced, so neither description
      guard refuses it. */
  predicate Fails(r: Reason, g: Verdicts, req: CreateProductRequest, nameLength: int, remarkLength: int,
                  lookup: Result<Product, Code>)
  {
    match r
    case NameEmpty => g.nameBlank
    case NameTooLong => g.nameBytes > nameLength
    case NameCharset => !g.nameValid
    case LookupFailed => lookup.Err?
    case NameTaken => lookup.Ok? && lookup.value.name != ""
    case PriceTooLow => req.price <= 0.0
    case QuantityTooLow => req.quantity <= 0
    case DescriptionTooLong => !g.descriptionBlank && g.descriptionBytes > remarkLength
    case DescriptionCharset => !g.descriptionBlank && !g.descriptionValid
    case InsertFailed => false
  }

  /** The three name guards, which run before the store is consulted. */
  predicate NameAccepted(g: Verdicts, nameLength: int) {
    !g.nameBlank && g.nameBytes <= nameLength && g.nameValid
  }

  /** The first of the three name guards that fails, if any. */
  function NameRefusal(g: Verdicts, nameLength: int): (r: Option<Reason>)
    ensures r.None? <==> NameAccepted(g, nameLength)
    ensures r.Some? ==> Rank(r.value) < Rank(LookupFailed)
  {
    if g.nameBlank then Some(NameEmpty)
    else if g.nameBytes > nameLength then Some(NameTooLong)
    else if !g.nameValid then Some(NameCharset)
    else None
  }

  /** The guard chain given the verdicts: the guards run in order and the first that
      fails gives the reason; when none fails, the request is inserted with a blank
      description replaced by `-`. */
  function Decide(g: Verdicts, req: CreateProductRequest, nameLength: int, remarkLength: int,
                  lookup: Result<Product, Code>): (d: Result<CreateProductRequest, Reason>)
    ensures d.Err? ==> Fails(d.error, g, req, nameLength, remarkLength, lookup) && d.error != InsertFailed
    ensures d.Ok? ==> NameAccepted(g, nameLength) && lookup.Ok? && lookup.value.name == ""
    ensures d.Ok? ==> d.value.name == req.name && d.value.price == req.price && d.value.quantity == req.quantity
  {
    if Fails(NameEmpty, g, req, nameLength, remarkLength, lookup) then Err(NameEmpty)
    else if Fails(NameTooLong, g, req, nameLength, remarkLength, lookup) then Err(NameTooLong)
    else if Fails(NameCharset, g, req, nameLength, remarkLength, lookup) then Err(NameCharset)
    else if Fails(LookupFailed, g, req, nameLength, remarkLength, lookup) then Err(LookupFailed)
    else if Fails(NameTaken, g, req, nameLength, remarkLength, lookup) then Err(NameTaken)
    else if Fails(PriceTooLow, g, req, nameLength, remarkLength, lookup) then Err(PriceTooLow)
    else if Fails(QuantityTooLow, g, req, nameLength, remarkLength, lookup) then Err(QuantityTooLow)
    else if Fails(DescriptionTooLong, g, req, nameLength, remarkLength, lookup) then Err(DescriptionTooLong)
    else if Fails(DescriptionCharset, g, req, nameLength, remarkLength, lookup) then Err(DescriptionCharset)
    else Ok(req.(description := if g.descriptionBlank then "-" else req.description))
  }

  /** The guard chain of `AddProduct` (lines 80-122) on a request. */
  function Validate(req: CreateProductRequest, nameLength: int, remarkLength: int,
                    lookup: Result<Product, Code>): Result<CreateProductRequest, Reason>
  {
    Decide(VerdictsOf(req), req, nameLength, remarkLength, lookup)
  }

  /** Every guard before `r` passes. */
  predicate EarlierPass(r: Reason, g: Verdicts, req: CreateProductRequest, nameLength: int, remarkLength: int,
                        lookup: Result<Product, Code>)
  {
    forall s: Reason :: Rank(s) < Rank(r) ==> !Fails(s, g, req, nameLength, remarkLength, lookup)
  }

  /** The first failing guard wins: the request is refused for `r` exactly when guard
      `r` fails and every guard before it passes. */
  lemma FirstFailureWins(g: Verdicts, req: CreateProductRequest, nameLength: int, remarkLength: int,
                         lookup: Result<Product, Code>, r: Reason)
    ensures Decide(g, req, nameLength, remarkLength, lookup) == Err(r) <==>
      Fails(r, g, req, nameLength, remarkLength, lookup) && EarlierPass(r, g, req, nameLength, remarkLength, lookup)
  {
    if Decide(g, req, nameLength, remarkLength, lookup) == Err(r) {
      RefusalIsFirstFailure(g, req, nameLength, remarkLength, lookup, r);
    }
    if Fails(r, g, req, nameLength, remarkLength, lookup) && EarlierPass(r, g, req, nameLength, remarkLength, lookup) {
      FirstFailureRefuses(g, req, nameLength, remarkLength, lookup, r);
    }
  }

  lemma RefusalIsFirstFailure(g: Verdicts, req: CreateProductRequest, nameLength: int, remarkLength: int,
                              lookup: Result<Product, Code>, r: Reason)
    requires Decide(g, req, nameLength, remarkLength, lookup) == Err(r)
    ensures Fails(r, g, req, nameLength, remarkLength, lookup)
    ensures EarlierPass(r, g, req, nameLength, remarkLength, lookup)
  {
    forall s: Reason | Rank(s) < Rank(r)
      ensures !Fails(s, g, req, nameLength, remarkLength, lookup)
    {
    }
  }

  lemma FirstFailureRefuses(g: Verdicts, req: CreateProductRequest, nameLength: int, remarkLength: int,
                            lookup: Result<Product, Code>, r: Reason)
    requires Fails(r, g, req, nameLength, remarkLength, lookup)
    requires EarlierPass(r, g, req, nameLength, remarkLength, lookup)
    ensures Decide(g, req, nameLength, remarkLength, lookup) == Err(r)
  {
    match r
    case NameEmpty =>
      {}
    case NameTooLong =>
      assert !Fails(NameEmpty, g, req, nameLength, remarkLength, lookup);
    case NameCharset =>
      assert !Fails(NameEmpty, g, req, nameLength, remarkLength, lookup);
      assert !Fails(NameTooLong, g, req, nameLength, remarkLength, lookup);
    case LookupFailed =>
      assert !Fails(NameEmpty, g, req, nameLength, remarkLength, lookup);
      assert !Fails(NameTooLong, g, req, nameLength, remarkLength, lookup);
      assert !Fails(NameCharset, g, req, nameLength, remarkLength, lookup);
    case NameTaken =>
      assert !Fails(NameEmpty, g, req, nameLength, remarkLength, lookup);
      assert !Fails(NameTooLong, g, req, nameLength, remarkLength, lookup);
      assert !Fails(NameCharset, g, req, nameLength, remarkLength, lookup);
      assert !Fails(LookupFailed, g, req, nameLength, remarkLength, lookup);
    case PriceTooLow =>
      assert !Fails(NameEmpty, g, req, nameLength, remarkLength, lookup);
      assert !Fails(NameTooLong, g, req, nameLength, remarkLength, lookup);
      assert !Fails(NameCharset, g, req, nameLength, remarkLength, lookup);
      assert !Fails(LookupFailed, g, req, nameLength, remarkLength, lookup);
      assert !Fails(NameTaken, g, req, nameLength, remarkLength, lookup);
    case QuantityTooLow =>
      assert !Fails(NameEmpty, g, req, nameLength, remarkLength, lookup);
      assert !Fails(NameTooLong, g, req, nameLength, remarkLength, lookup);
      assert !Fails(NameCharset, g, req, nameLength, remarkLength, lookup);
      assert !Fails(LookupFailed, g, req, nameLength, remarkLength, lookup);
      assert !Fails(NameTaken, g, req, nameLength, remarkLength, lookup);
      assert !Fails(PriceTooLow, g, req, nameLength, remarkLength, lookup);
    case DescriptionTooLong =>
      assert !Fails(NameEmpty, g, req, nameLength, remarkLength, lookup);
      assert !Fails(NameTooLong, g, req, nameLength, remarkLength, lookup);
      assert !Fails(NameCharset, g, req, nameLength, remarkLength, lookup);
      assert !Fails(LookupFailed, g, req, nameLength, remarkLength, lookup);
      assert !Fails(NameTaken, g, req, nameLength, remarkLength, lookup);
      assert !Fails(PriceTooLow, g, req, nameLength, remarkLength, lookup);
      assert !Fails(QuantityTooLow, g, req, nameLength, remarkLength, lookup);
    case DescriptionCharset =>
      assert !Fails(NameEmpty, g, req, nameLength, remarkLength, lookup);
      assert !Fails(NameTooLong, g, req, nameLength, remarkLength, lookup);
      assert !Fails(NameCharset, g, req, nameLength, remarkLength, lookup);
      assert !Fails(LookupFailed, g, req, nameLength, remarkLength, lookup);
      assert !Fails(NameTaken, g, req, nameLength, remarkLength, lookup);
      assert !Fails(PriceTooLow, g, req, nameLength, remarkLength, lookup);
      assert !Fails(QuantityTooLow, g, req, nameLength, remarkLength, lookup);
      assert !Fails(DescriptionTooLong, g, req, nameLength, remarkLength, lookup);
    case InsertFailed =>
  }

  /** A request is accepted exactly when no guard fails, and what is inserted is the
      request itself with only a blank description replaced by `-`. */
  lemma AcceptedExactly(g: Verdicts, req: CreateProductRequest, nameLength: int, remarkLength: int,
                        lookup: Result<Product, Code>)
    ensures Decide(g, req, nameLength, remarkLength, lookup).Ok? <==> forall r: Reason :: !Fails(r, g, req, nameLength, remarkLength, lookup)
    ensures Decide(g, req, nameLength, remarkLength, lookup).Ok? ==>
      Decide(g, req, nameLength, remarkLength, lookup).value == req.(description := if g.descriptionBlank then "-" else req.description)
  {
    if !Decide(g, req, nameLength, remarkLength, lookup).Ok? {
      var r := Decide(g, req, nameLength, remarkLength, lookup).error;
      assert Fails(r, g, req, nameLength, remarkLength, lookup);
    }
  }

  /** A request refused by a name guard is refused for the first failing name guard,
      whatever the store would have answered: the lookup comes after the name guards. */
  lemma NameGuardsPrecedeLookup(g: Verdicts, req: CreateProductRequest, nameLength: int, remarkLength: int,
                                lookup: Result<Product, Code>)
    requires !NameAccepted(g, nameLength)
    ensures Decide(g, req, nameLength, remarkLength, lookup) == Err(NameRefusal(g, nameLength).value)
  {
  }

  /** What acceptance says about the verdicts: every guard passed. */
  lemma AcceptedVerdicts(g: Verdicts, req: CreateProductRequest, nameLength: int, remarkLength: int,
                         lookup: Result<Product, Code>)
    requires Decide(g, req, nameLength, remarkLength, lookup).Ok?
    ensures NameAccepted(g, nameLength) && lookup.Ok? && lookup.value.name == ""
    ensures req.price > 0.0 && req.quantity > 0
    ensures !g.descriptionBlank ==> g.descriptionValid && g.descriptionBytes <= remarkLength
    ensures Decide(g, req, nameLength, remarkLength, lookup).value == req.(description := if g.descriptionBlank then "-" else req.description)
  {
    AcceptedExactly(g, req, nameLength, remarkLength, lookup);
    assert !Fails(NameEmpty, g, req, nameLength, remarkLength, lookup) && !Fails(NameTooLong, g, req, nameLength, remarkLength, lookup) && !Fails(NameCharset, g, req, nameLength, remarkLength, lookup);
    assert !Fails(LookupFailed, g, req, nameLength, remarkLength, lookup) && !Fails(NameTaken, g, req, nameLength, remarkLength, lookup);
    assert !Fails(PriceTooLow, g, req, nameLength, remarkLength, lookup) && !Fails(QuantityTooLow, g, req, nameLength, remarkLength, lookup);
    assert !Fails(DescriptionTooLong, g, req, nameLength, remarkLength, lookup) && !Fails(DescriptionCharset, g, req, nameLength, remarkLength, lookup);
  }

  /** A request the empty table would accept is refused as taken once a row with its
      name exists: the lookup is the only guard that depends on the table. */
  lemma TakenNameRefused(req: CreateProductRequest, nameLength: int, remarkLength: int, existing: Product)
    requires Validate(req, nameLength, remarkLength, Ok(EmptyProduct)).Ok?
    requires existing.name == req.name
    ensures Validate(req, nameLength, remarkLength, Ok(existing)) == Err(NameTaken)
  {
    var g := VerdictsOf(req);
    AcceptedVerdicts(g, req, nameLength, remarkLength, Ok(EmptyProduct));
    assert Utils.IsEmptyString("");
    assert existing.name != "";
  }

  /** The replacement description `-` is itself a valid, non-blank description. */
  lemma DashIsValidDescription()
    ensures !Utils.IsEmptyString("-") && Utils.IsValidCharacter("-") && Utils.Utf8Length("-") == 1
  {
    assert Utils.IsDescriptionChar("-"[0]) && !Utils.IsSpace("-"[0]);
  }

  /** Everything inserted passes every check: a non-blank valid name within the length
      limit, a name the store did not hold, a positive price and quantity, and a
      non-blank description of allowed characters that is `-` or within its limit. */
  lemma AcceptedIsValid(req: CreateProductRequest, nameLength: int, remarkLength: int,
                        lookup: Result<Product, Code>)
    requires Validate(req, nameLength, remarkLength, lookup).Ok?
    ensures var v := Validate(req, nameLength, remarkLength, lookup).value;
      && v.name == req.name && v.price == req.price && v.quantity == req.quantity
      && !Utils.IsEmptyString(v.name) && Utils.IsValidProductName(v.name)
      && Utils.Utf8Length(v.name) <= nameLength
      && lookup.Ok? && lookup.value.name == "" && v.price > 0.0 && v.quantity > 0
      && !Utils.IsEmptyString(v.description) && Utils.IsValidCharacter(v.description)
      && (v.description != "-" ==> Utils.Utf8Length(v.description) <= remarkLength)
  {
    var g := VerdictsOf(req);
    AcceptedVerdicts(g, req, nameLength, remarkLength, lookup);
    DashIsValidDescription();
  }

  // ---------------------------------------------------------------------------
  // The sort allow-list of ListProducts (service/service.go:152-172)

  /** Go's `unicode.ToLower` of one character, exact wherever the result is ASCII: the
      ASCII capitals, and the two non-ASCII letters whose lower case is ASCII (U+0130
      to `i`, the Kelvin sign U+212A to `k`). Other characters are kept. */
  function LowerChar(c: char): (d: char)
    ensures d < '\U{80}' ==> c < '\U{80}' || c == '\U{0130}' || c == '\U{212A}'
    ensures 'a' <= d <= 'z' && c < '\U{80}' ==> c == d || c == d - ('a' - 'A') as char
    ensures c < '\U{80}' ==> d == if 'A' <= c <= 'Z' then (c as int + 32) as char else c
  {
    if 'A' <= c <= 'Z' then c + ('a' - 'A') as char
    else if c == '\U{0130}' then 'i'
    else if c == '\U{212A}' then 'k'
    else c
  }

  /** `strings.ToLower`, character by character. */
  function ToLower(s: string): (r: string)
    ensures |r| == |s| && forall k :: 0 <= k < |s| ==> r[k] == LowerChar(s[k])
  {
    seq(|s|, k requires 0 <= k < |s| => LowerChar(s[k]))
  }

  predicate AllowedColumn(c: string) {
    c in {"created_at", "price", "name", "product_id", "quantity"}
  }

  predicate AllowedDirection(d: string) {
    d in {"asc", "desc"}
  }

  /** Both halves of the allow-list, on the request's raw fields. */
  predicate SortAllowed(req: ListProductRequest) {
    AllowedColumn(ToLower(req.sort)) && AllowedDirection(ToLower(req.dir))
  }

  /** No character lowers to `&` except `&` itself, and no allowed name contains one:
      an admitted sort or direction has no `&`, so it cannot run into the next field
      of the cache key. */
  lemma AdmittedHasNoAmpersand(req: ListProductRequest)
    requires SortAllowed(req)
    ensures '&' !in req.sort && '&' !in req.dir
  {
  }

  /** The allow-list ignores case, including the dotted capital I: `PRİCE` and
      `DESC` are admitted, though they differ from the names they stand for. */
  lemma AllowListIgnoresCase()
    ensures AllowedColumn(ToLower("PR\U{0130}CE")) && AllowedDirection(ToLower("DESC"))
    ensures !AllowedColumn(ToLower("price ")) && !AllowedDirection(ToLower("ascending"))
  {
    assert ToLower("PR\U{0130}CE") == "price";
    assert ToLower("DESC") == "desc";
    assert |ToLower("price ")| == 6;
    assert |ToLower("ascending")| == 9;
  }

  /** The key is built from the raw fields: two requests that differ only in the case
      of the sort get separate cache entries although both are admitted and sort the
      same way. */
  lemma CaseVariantsShareSortButNotKey(req: ListProductRequest)
    requires req.sort == "name" && SortAllowed(req)
    ensures var other := req.(sort := "NAME");
      && SortAllowed(other) && ToLower(other.sort) == ToLower(req.sort)
      && CacheKey.Key(req) != CacheKey.Key(other)
  {
    AdmittedHasNoAmpersand(req);
    CacheKey.KeyIsCaseSensitive(req);
    assert ToLower("NAME") == "name";
    assert ToLower("name") == "name";
  }

  // ---------------------------------------------------------------------------
  // The cache-aside step (service/service.go:209-252)

  /** What a cache read leads to: serving the cached list, an internal error, or
      fetching from the store. */
  datatype Plan = Serve(products: seq<Product>) | Fail | Fetch

  /** A non-empty cached list is served; an empty one, or a missing key, falls through
      to the store; a value that does not decode, or any error other than a missing
      key, is an internal error (lines 214-230). */
  function PlanFor(read: Store.CacheRead): (plan: Plan)
    ensures plan.Serve? <==> read.Hit? && read.blob.Json? && |read.blob.products| > 0
    ensures plan.Serve? ==> plan.products == read.blob.products
    ensures plan.Fail? <==> read.Down? || read == Store.Hit(Store.Garbled)
  {
    match read
    case Hit(Json(ps)) => if |ps| > 0 then Serve(ps) else Fetch
    case Hit(Garbled) => Fail
    case Nil => Fetch
    case Down => Fail
  }

  /** A non-empty list written back at instant `t` is served from the cache at every
      instant before `t + Ttl`; from then on it is fetched again. An empty list is
      never served from the cache. */
  lemma ServedWithinTtl(entries: map<string, Store.Entry>, key: string, products: seq<Product>, t: int, at: int)
    requires t <= at
    ensures var after := entries[key := Store.Entry(Store.Json(products), t + Store.Ttl)];
      var plan := PlanFor(Store.ReadAt(after, false, key, at));
      && (|products| > 0 ==> (plan == Serve(products) <==> at < t + Store.Ttl))
      && (|products| == 0 || at >= t + Store.Ttl ==> plan == Fetch)
  {
    Store.WrittenListVisibleForTtl(entries, key, products, t, at);
  }

  /** The outcome of a list request. `Silent` is the nil response with nil error a
      filter that does not decode produces (lines 142-146). */
  datatype ListOutcome = Silent | Failed(code: Code) | Listed(response: ListProductResponse)

  /** The success response (lines 197-203). */
  function Success(data: seq<Product>, pagination: PaginationResponse): ListProductResponse {
    ListProductResponse(false, 200, "Success", data, pagination)
  }

  /** The decoded filter as text, one character per byte. */
  function Latin1(bs: seq<Base64.Byte>): (s: string)
    ensures |s| == |bs| && forall k :: 0 <= k < |bs| ==> s[k] as int == bs[k]
  {
    seq(|bs|, k requires 0 <= k < |bs| => bs[k] as char)
  }

  /** The query an admitted list request runs against the store: the decoded filter,
      the normalised pagination and the lower-cased sort. */
  function QueryOf(req: ListProductRequest): Store.ListQuery
    requires Base64.DecodeRaw(req.query).Some?
  {
    Store.QueryFor(Latin1(Base64.DecodeRaw(req.query).value), Normalize(req.page, req.limit),
                   Some(Sort(ToLower(req.sort), ToLower(req.dir))))
  }

  /** The outcome of an admitted list request, given what the cache read leads to,
      whether the store query and the cache write fail, the rows the store returns and
      the matching row count. A list served from the cache carries the normalised
      pagination without totals; a fetched list carries the counted totals. */
  function Respond(req: ListProductRequest, plan: Plan, listFails: bool, setFails: bool,
                   fetched: seq<Product>, rows: Scope.RowCount): (out: ListOutcome)
    ensures out.Failed? ==> out.code == Internal
    ensures out.Listed? ==> out.response.pagination.limit == Normalize(req.page, req.limit).limit
    ensures out.Listed? ==> out.response.pagination.page == Normalize(req.page, req.limit).page
    ensures out.Listed? <==> plan.Serve? || (plan.Fetch? && !listFails && !setFails)
    ensures out.Listed? ==> !out.response.error && out.response.code == 200
    ensures plan.Serve? ==> out.response.data == plan.products && out.response.pagination.totalRows == 0
    ensures plan.Fetch? && out.Listed? ==> out.response.data == fetched
    ensures plan.Fetch? && out.Listed? && !(req.page == 0 && req.limit == 0) ==> out.response.pagination.totalRows == rows
  {
    var p := Normalize(req.page, req.limit);
    match plan
    case Serve(products) => Listed(Success(products, p))
    case Fail => Failed(Internal)
    case Fetch => if listFails || setFails then Failed(Internal) else Listed(Success(fetched, Scope.WithTotals(p, rows)))
  }

  class ProductService {
    const store: Store.ProductStore
    const cache: Store.RedisCache

    constructor(store0: Store.ProductStore, cache0: Store.RedisCache)
      ensures store == store0 && cache == cache0
    {
      store, cache := store0, cache0;
    }

    /** `AddProduct`: the guard chain, with one lookup of the name after the name
        guards and one insert after every guard passed. `now` is the insertion
        instant; the two limits come from the environment. */
    method AddProduct(req: CreateProductRequest, nameLength: int, remarkLength: int, now: int)
      returns (err: Option<Reason>)
      modifies store
      ensures var v := Validate(req, nameLength, remarkLength, old(store.Lookup(req.name)));
        && store.lookups == old(store.lookups) + (if NameAccepted(VerdictsOf(req), nameLength) then [req.name] else [])
        && (v.Err? ==> err == Some(v.error) && store.inserts == old(store.inserts) && store.rows == old(store.rows))
        && (v.Ok? ==>
              && store.inserts == old(store.inserts) + [Store.NewRow(v.value, now)]
              && err == (if old(store.insertFails) then Some(InsertFailed) else None)
              && store.rows == old(store.rows) + (if err.None? then [Store.NewRow(v.value, now)] else []))
      ensures store.queries == old(store.queries)
      ensures store.lookupFails == old(store.lookupFails) && store.insertFails == old(store.insertFails)
      ensures store.listFails == old(store.listFails)
    {
      var checks := VerdictsOf(req);
      var refusal := NameRefusal(checks, nameLength);
      if refusal.Some? {
        NameGuardsPrecedeLookup(checks, req, nameLength, remarkLength, store.Lookup(req.name));
        return refusal;
      }
      var exist := store.GetProductByName(req.name);
      var decision := Decide(checks, req, nameLength, remarkLength, exist);
      if decision.Err? {
        return Some(decision.error);
      }
      var ok := store.InsertProduct(decision.value, now);
      if !ok {
        return Some(InsertFailed);
      }
      return None;
    }

    /** `StoreDataWithTimeout`: reads the key; serves a non-empty cached list; else
        fetches from the store (which writes the totals into `pagination`) and writes
        the list back for one minute before returning it. */
    method StoreDataWithTimeout(key: string, pagination: Scope.Pagination, filterText: string, sort: Option<Sort>)
      returns (r: Result<seq<Product>, Code>)
      modifies cache, store, pagination
      ensures cache.gets == old(cache.gets) + [key]
      ensures var plan := PlanFor(old(cache.Read(key)));
        && (plan.Serve? ==> r == Ok(plan.products))
        && (plan.Fail? ==> r == Err(Internal))
        && (!plan.Fetch? ==>
              && store.queries == old(store.queries) && pagination.current == old(pagination.current)
              && cache.sets == old(cache.sets) && cache.entries == old(cache.entries))
        && (plan.Fetch? ==>
              var q := Store.QueryFor(filterText, old(pagination.current), sort);
              && store.queries == old(store.queries) + [q]
              && pagination.current == Scope.WithTotals(old(pagination.current), store.count(old(store.rows), q.filter))
              && (old(store.listFails) ==>
                    r == Err(Internal) && cache.sets == old(cache.sets) && cache.entries == old(cache.entries))
              && (!old(store.listFails) ==>
                    var e := Store.Entry(Store.Json(store.answer(old(store.rows), q)), old(cache.now) + Store.Ttl);
                    && cache.sets == old(cache.sets) + [(key, e)]
                    && (old(cache.setFails) ==> r == Err(Internal) && cache.entries == old(cache.entries))
                    && (!old(cache.setFails) ==> r == Ok(e.blob.products) && cache.entries == old(cache.entries)[key := e])))
      ensures store.rows == old(store.rows) && store.lookups == old(store.lookups) && store.inserts == old(store.inserts)
      ensures store.lookupFails == old(store.lookupFails) && store.insertFails == old(store.insertFails)
      ensures store.listFails == old(store.listFails)
      ensures cache.now == old(cache.now) && cache.down == old(cache.down) && cache.setFails == old(cache.setFails)
    {
      var read := cache.Get(key);
      match read {
        case Hit(blob) =>
          if blob.Garbled? {
            return Err(Internal);
          }
          if |blob.products| > 0 {
            return Ok(blob.products);
          }
        case Nil =>
        case Down =>
          return Err(Internal);
      }
      var product := store.ListProduct(pagination, filterText, sort);
      if product.Err? {
        return Err(Internal);
      }
      var ok := cache.Set(key, product.value, Store.Ttl);
      if !ok {
        return Err(Internal);
      }
      return Ok(product.value);
    }

    /** `ListProducts`: decodes the filter, normalises the pagination, checks the sort
        against the allow-list, then lists through the cache under the request's key.
        A filter that does not decode, or a sort the allow-list refuses, ends the call
        before the cache or the store is touched. */
    method ListProducts(req: ListProductRequest) returns (out: ListOutcome)
      modifies cache, store
      ensures Base64.DecodeRaw(req.query).None? ==> out == Silent
      ensures Base64.DecodeRaw(req.query).Some? && !SortAllowed(req) ==> out == Failed(InvalidArgument)
      ensures Base64.DecodeRaw(req.query).None? || !SortAllowed(req) ==>
        && cache.gets == old(cache.gets) && cache.sets == old(cache.sets) && cache.entries == old(cache.entries)
        && store.queries == old(store.queries)
      ensures Base64.DecodeRaw(req.query).Some? && SortAllowed(req) ==>
        var key := CacheKey.Key(req);
        var plan := PlanFor(old(cache.Read(key)));
        var q := QueryOf(req);
        var fetched := store.answer(old(store.rows), q);
        var entry := Store.Entry(Store.Json(fetched), old(cache.now) + Store.Ttl);
        && cache.gets == old(cache.gets) + [key]
        && out == Respond(req, plan, old(store.listFails), old(cache.setFails), fetched, store.count(old(store.rows), q.filter))
        && store.queries == old(store.queries) + (if plan.Fetch? then [q] else [])
        && cache.sets == old(cache.sets) + (if plan.Fetch? && !old(store.listFails) then [(key, entry)] else [])
        && cache.entries == if plan.Fetch? && !old(store.listFails) && !old(cache.setFails)
                            then old(cache.entries)[key := entry] else old(cache.entries)
      ensures store.rows == old(store.rows) && store.lookups == old(store.lookups) && store.inserts == old(store.inserts)
      ensures store.lookupFails == old(store.lookupFails) && store.insertFails == old(store.insertFails)
      ensures store.listFails == old(store.listFails)
      ensures cache.now == old(cache.now) && cache.down == old(cache.down) && cache.setFails == old(cache.setFails)
    {
      var decoded := Base64.DecodeRaw(req.query);
      if decoded.None? {
        return Silent;
      }
      var p := SetPagination(req.page, req.limit);
      var column := ToLower(req.sort);
      var direction := ToLower(req.dir);
      if !AllowedColumn(column) {
        return Failed(InvalidArgument);
      }
      if !AllowedDirection(direction) {
        return Failed(InvalidArgument);
      }
      out := ListAdmitted(req, p, Latin1(decoded.value), Sort(column, direction));
    }

    /** The rest of `ListProducts` once the filter decoded and the sort was admitted
        (lines 180-205): the cache key of the raw request, then the cache-aside step
        with the normalised pagination, the decoded filter and the lower-cased sort. */
    method ListAdmitted(req: ListProductRequest, p: PaginationResponse, filterText: string, sort: Sort)
      returns (out: ListOutcome)
      requires Base64.DecodeRaw(req.query).Some? && SortAllowed(req)
      requires p == Normalize(req.page, req.limit)
      requires filterText == Latin1(Base64.DecodeRaw(req.query).value)
      requires sort == Sort(ToLower(req.sort), ToLower(req.dir))
      modifies cache, store
      ensures var key := CacheKey.Key(req);
        var plan := PlanFor(old(cache.Read(key)));
        var q := QueryOf(req);
        var fetched := store.answer(old(store.rows), q);
        var entry := Store.Entry(Store.Json(fetched), old(cache.now) + Store.Ttl);
        && cache.gets == old(cache.gets) + [key]
        && out == Respond(req, plan, old(store.listFails), old(cache.setFails), fetched, store.count(old(store.rows), q.filter))
        && store.queries == old(store.queries) + (if plan.Fetch? then [q] else [])
        && cache.sets == old(cache.sets) + (if plan.Fetch? && !old(store.listFails) then [(key, entry)] else [])
        && cache.entries == if plan.Fetch? && !old(store.listFails) && !old(cache.setFails)
                            then old(cache.entries)[key := entry] else old(cache.entries)
      ensures store.rows == old(store.rows) && store.lookups == old(store.lookups) && store.inserts == old(store.inserts)
      ensures store.lookupFails == old(store.lookupFails) && store.insertFails == old(store.insertFails)
      ensures store.listFails == old(store.listFails)
      ensures cache.now == old(cache.now) && cache.down == old(cache.down) && cache.setFails == old(cache.setFails)
    {
      var key := CacheKey.Key(req);
      var pagination := new Scope.Pagination(p);
      assert Store.QueryFor(filterText, p, Some(sort)) == QueryOf(req);
      var product := StoreDataWithTimeout(key, pagination, filterText, Some(sort));
      if product.Err? {
        return Failed(product.error);
      }
      return Listed(Success(product.value, pagination.current));
    }
  }

  // ---------------------------------------------------------------------------
  // Whole-service consequences

  /** The same list request three times against an empty cache whose clock starts at
      0: the first is fetched from the store and cached; the second, within the minute,
      is served from the cache, with the same rows but without the totals, which only a
      store query fills in; the third, once the minute is over, is fetched again. */
  method CachedListLosesTotals(rows: seq<Product>, count: (seq<Product>, seq<Scope.Condition>) -> Scope.RowCount,
                               answer: (seq<Product>, Store.ListQuery) -> seq<Product>, req: ListProductRequest)
    returns (first: ListOutcome, second: ListOutcome, third: ListOutcome, queriesRun: nat)
    requires Base64.DecodeRaw(req.query).Some? && SortAllowed(req)
    requires |answer(rows, QueryOf(req))| > 0
    ensures var p := Normalize(req.page, req.limit);
      && first == Listed(Success(answer(rows, QueryOf(req)), Scope.WithTotals(p, count(rows, QueryOf(req).filter))))
      && second == Listed(Success(answer(rows, QueryOf(req)), p))
      && third == first
    ensures queriesRun == 2
  {
    var store := new Store.ProductStore(rows, count, answer);
    var cache := new Store.RedisCache(0);
    var service := new ProductService(store, cache);
    var key, data := CacheKey.Key(req), answer(rows, QueryOf(req));
    assert cache.Read(key) == Store.Nil;
    first := service.ListProducts(req);
    assert cache.entries == map[key := Store.Entry(Store.Json(data), Store.Ttl)];
    cache.Advance(Store.Ttl - 1);
    assert cache.Read(key) == Store.Hit(Store.Json(data));
    assert PlanFor(cache.Read(key)) == Serve(data);
    second := service.ListProducts(req);
    cache.Advance(1);
    assert cache.Read(key) == Store.Nil;
    third := service.ListProducts(req);
    queriesRun := |store.queries|;
  }

  /** Adding the same acceptable product twice to an empty table: the first is
      inserted, the second is refused because the name is taken, and the table holds
      one row. */
  method DuplicateNameRefused(req: CreateProductRequest, nameLength: int, remarkLength: int, now: int,
                              count: (seq<Product>, seq<Scope.Condition>) -> Scope.RowCount,
                              answer: (seq<Product>, Store.ListQuery) -> seq<Product>)
    returns (first: Option<Reason>, second: Option<Reason>, stored: seq<Product>)
    requires Validate(req, nameLength, remarkLength, Ok(EmptyProduct)).Ok?
    ensures first == None && second == Some(NameTaken)
    ensures stored == [Store.NewRow(Validate(req, nameLength, remarkLength, Ok(EmptyProduct)).value, now)]
  {
    var store := new Store.ProductStore([], count, answer);
    var cache := new Store.RedisCache(now);
    var service := new ProductService(store, cache);
    AcceptedIsValid(req, nameLength, remarkLength, Ok(EmptyProduct));
    var row := Store.NewRow(Validate(req, nameLength, remarkLength, Ok(EmptyProduct)).value, now);
    assert store.Lookup(req.name) == Ok(EmptyProduct);
    first := service.AddProduct(req, nameLength, remarkLength, now);
    assert store.rows == [row];
    assert store.Lookup(req.name) == Ok(row);
    TakenNameRefused(req, nameLength, remarkLength, row);
    second := service.AddProduct(req, nameLength, remarkLength, now);
    stored := store.rows;
  }
}
