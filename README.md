# Product catalogue service: the list path and its guards, in Dafny

This project models the core of a small Go product-catalogue service (an HTTP server
routed by gorilla/mux, in front of PostgreSQL through GORM, with a Redis cache; the
service reports failures as gRPC status codes). It models the parts that
decide what happens to a request:

- **Pagination normaliser** (`setPagination`). It turns a request's page and limit
  into the pagination block. A zero page with a zero limit selects unpaginated mode
  (-1/-1). Otherwise the limit is clamped into 1..100 and page 0 becomes 1.
- **Query scopes** (`db/gorm-scope.go`):
  - the filter compiler `QueryScoop`, which turns `col1,col2:value` into one
    `column op ?` clause per column, joined by OR;
  - the order scope `Sort`;
  - `Paginate`, which counts the matching rows into the caller's pagination block
    and limits the query to one page.
- **Create-product guard chain** (`AddProduct`). It runs eight guards in a fixed
  order, with one store lookup of the name in between. A blank description becomes
  `-`. The insert happens only when every guard passes.
- **List path** (`ListProducts`):
  - it decodes the base64 filter;
  - it checks the sort column and direction against an allow-list, case-insensitively;
  - it builds the cache key from the raw request fields;
  - it lists through the cache-aside step `StoreDataWithTimeout`.
- **String helpers** (`lib/utils/utils.go`): blankness, the two character-class
  regexes as per-character predicates, and the padding base64 decoder.

The database and Redis are abstract state:

- `Store.ProductStore` holds the rows. Its failure flags are set by the environment.
  It records every lookup, insert and query, so "the store was not called" is a
  statement about that record.
- How SQL evaluates a query is left abstract. The store has a `count` function and an
  `answer` function, both of the rows and the compiled query.
- `Store.RedisCache` is a map from keys to entries with expiry instants, plus a clock.

Modules, one per file:

| file | module | what it holds |
|---|---|---|
| `model.dfy` | `Model` | The records of `model/*.go`, the Go integer ranges, and `Wrap32` for two's-complement int32 arithmetic. |
| `strings.dfy` | `Utils` | The utils helpers, plus Go's `strings.TrimSpace` / `unicode.IsSpace` and `len` in UTF-8 bytes. |
| `base64.dfy` | `Base64` | The standard alphabet of section 4 of RFC 4648, unpadded decoding (section 3.2) and padded decoding. |
| `scope.dfy` | `Scope` | `QueryScoop`, `Sort` and `Paginate`. |
| `cachekey.dfy` | `CacheKey` | The cache key and Go's `%d`. |
| `store.dfy` | `Store` | The abstract product table and Redis cache. |
| `service.dfy` | `Service` | `setPagination`, `AddProduct`, the allow-list, `ListProducts` and `StoreDataWithTimeout`. |

Some behaviours are modelled as written rather than as a reader might expect:

- **Undecodable filter.** `ListProducts` answers a filter that does not decode with a
  nil response and a nil error (service/service.go:142-146). This is the outcome
  `Silent`.
- **Cache hit.** A list served from the cache carries the normalised pagination
  without totals, because only a store query runs `Paginate`, which fills them in.
  `Service.CachedListLosesTotals` shows this.
- **Negative page.** A negative page is kept by `setPagination`, counted by
  `Paginate` and given no window, so it lists every matching row
  (`Service.PaginateAfterNormalize`).

## Model

| member | source | states |
|---|---|---|
| Utils.TrimSpace | lib/utils/utils.go:45 | The trimmed string is empty exactly when every character is a Go space. Otherwise it is the infix of the input that starts after the leading spaces, and it neither starts nor ends with a space. Everything after it in the input is space. |
| Utils.IsEmptyString | lib/utils/utils.go:44-46 | True exactly when every character is a space in the sense of `unicode.IsSpace`, so the empty string is empty. |
| Utils.IsValidCharacter | lib/utils/utils.go:26-33 | True exactly when every character is in `[\s\w\d_.,-;()/]`; the empty string is accepted. |
| Utils.IsValidProductName | lib/utils/utils.go:35-42 | True exactly when the name is non-empty and every character is an ASCII letter, a digit, or one of space, `_`, `.`, `,`, `'`, `-`. |
| Utils.DescriptionCharExactly | lib/utils/utils.go:27 | The description class, listed: letters, digits, `\t \n \f \r` and space (no vertical tab), and `_ ( ) / , - . : ;`. The range `,-;` admits `-`, `.`, `/`, the digits and `:`. |
| Utils.NameAndDescriptionClassesDiffer | lib/utils/utils.go:26-42 | `'` is a valid name but not a valid description; `:;` is the other way round; `%` is in neither. |
| Utils.NameCharIsDescriptionChar | lib/utils/utils.go:27-36 | Every name character except `'` is a description character. |
| Utils.Utf8Length | service/service.go:83 | Go's `len` of a string is its UTF-8 byte count. It lies between the number of characters and four times that, and equals the number of characters exactly when the string is ASCII. |
| Base64.ValueOf | service/service.go:142 | Each symbol of the standard alphabet has a 6-bit value whose symbol it is; every other character is refused (-1). |
| Base64.SymbolValue | service/service.go:142 | Every 6-bit value has exactly one symbol: `ValueOf(Symbol(v)) == v`. |
| Base64.AlphabetIsStandard | service/service.go:142 | The alphabet is that of RFC 4648 section 4: A-Z, a-z, 0-9, `+`, `/`. |
| Base64.EncodeRaw | service/service.go:142 | The unpadded encoding of n bytes has ceil(4n/3) characters, all in the alphabet. |
| Base64.DecodeUnpadded | service/service.go:142 | The unpadded decode succeeds exactly when every character is in the alphabet and the length is not 1 more than a multiple of 4, as Go's non-strict decoder does. |
| Base64.DecodeRawRoundTrip | service/service.go:142 | The service's decoder (`RawStdEncoding`, with CR and LF skipped) inverts encoding for every byte sequence. |
| Base64.Pad | lib/utils/utils.go:19-21 | Padding appends 0 to 3 `=` so the length becomes a multiple of 4. The input is a prefix of the result, and an input whose length is already a multiple of 4 is unchanged. |
| Base64.StrippedAgreesWithRaw | lib/utils/utils.go:18-24 | On input without `=`, CR or LF, pad-then-`StdEncoding` decodes exactly as `RawStdEncoding` does, errors included. |
| Base64.StrippedRoundTrip | lib/utils/utils.go:18-24 | `Base64DecodeStripped` decodes the unpadded encoding of any byte sequence, and its padded form, back to it. |
| Base64.PaddingRefusedByService | service/service.go:142-146 | The padded filter `QQ==` is refused by the service's decoder but accepted by the helper. `QQ` decodes to `A` in both. |
| Scope.FirstIndex | db/gorm-scope.go:50 | Either no index, exactly when the character is absent, or the index of its first occurrence. |
| Scope.Split | db/gorm-scope.go:55 | `strings.Split` by one character gives one more piece than there are separators. No piece contains the separator, and joining the pieces gives back the input. |
| Scope.Operand | db/gorm-scope.go:61-71 | LIKE exactly for a `%%` prefix and ILIKE exactly for a `%!` prefix, with `%%` tested first. Those two wrap the rest in `%` (same length as the input). Otherwise the operator is `=` and the value is kept verbatim. |
| Scope.OperandRoundTrip | db/gorm-scope.go:61-71 | The operator choice loses nothing: the value part can be rebuilt from the operator and the search value. |
| Scope.Compile | db/gorm-scope.go:46-56 | It passes through exactly when the input has no `:`, the empty input included. Otherwise there is at least one column, no column contains `,` or `:`, and a LIKE/ILIKE value has its two wrapping `%`. |
| Scope.CompileRoundTrip | db/gorm-scope.go:50-56 | A compiled filter writes back to exactly its input: the columns joined by `,`, then `:`, then the value part. |
| Scope.ValueKeepsLaterColons | db/gorm-scope.go:50-56 | The split is at the first `:` only: for `cols:value` the columns come from `cols` and the value part is all of `value`, later colons included. |
| Scope.Conditions | db/gorm-scope.go:74-83 | The conditions of a filter meet `ClausesFor`: none for a pass-through; otherwise one per column, in order. Each uses the trimmed column and the shared operator and value, with `Where` first and `Or` for the rest. |
| Scope.ClausesUnique | db/gorm-scope.go:74-83 | A filter determines its conditions: two lists meeting `ClausesFor` for the same filter are equal. |
| Scope.ClauseCount | db/gorm-scope.go:55-83 | For `cols:value`, the number of clauses is the number of commas in `cols` plus one. |
| Scope.BuildConditions | db/gorm-scope.go:74-83 | The clause-building loop yields conditions meeting `ClausesFor`. |
| Scope.SortScope | db/gorm-scope.go:35-42 | No ordering exactly when the sort is nil or its column or direction is empty; otherwise the order expression is the column, a space and the direction. |
| Scope.OrderDetermines | db/gorm-scope.go:40 | For columns without a space, the order expression determines the column and the direction. |
| Scope.PageCount | db/gorm-scope.go:18-19 | For a positive limit it is the ceiling of rows/limit, the fewest pages of `limit` rows that hold all rows. |
| Scope.CeilDivAtMostRows | db/gorm-scope.go:18 | A positive limit never gives more pages than rows. |
| Scope.WithTotals | db/gorm-scope.go:13-20 | Limit and page are unchanged. When neither is positive nothing changes. Otherwise TotalRows is the count, and for a positive limit (and a row count that fits in int32) TotalPages is the ceiling of rows/limit. |
| Scope.Paginate | db/gorm-scope.go:12-33 | It writes the totals into the caller's block as `WithTotals` does, and returns the window of the updated block. |
| Scope.PageWindow | db/gorm-scope.go:22-32 | A window exactly when Limit ≥ 1 and Page ≥ 1; it has that limit and offset `(Page-1)*Limit`. |
| Scope.PagesTile | db/gorm-scope.go:27 | The first page starts at row 0, offsets are non-negative, and page p+1 starts where page p ends. |
| Scope.OffsetAsWrittenInRange | db/gorm-scope.go:27 | The int32 offset of the source is right while `(Page-1)*Limit` fits in an int32. |
| Scope.OffsetAsWrittenWraps | db/gorm-scope.go:27 | Page 21474838 with limit 100 gives the int32 offset -2147483596 instead of 2147483700. |
| CacheKey.Digits | service/service.go:184-185 | `%d` of a natural number is a non-empty string of decimal digits with no leading zero. |
| CacheKey.DigitsRoundTrip | service/service.go:184-185 | Reading the printed digits back gives the number. |
| CacheKey.Decimal | service/service.go:184-185 | `%d` of an integer is non-empty, contains no `&`, and starts with `-` exactly for a negative number. |
| CacheKey.DecimalDenotes | service/service.go:184-185 | What `%d` prints: a `-` exactly for a negative number, then decimal digits whose value is the number's magnitude. |
| CacheKey.DigitsInjective | service/service.go:184-185 | Different natural numbers print different digits. |
| CacheKey.DecimalInjective | service/service.go:184-185 | Different integers print differently, negative ones included. |
| CacheKey.KeyInjective | service/service.go:184-185 | When sort and direction contain no `&`, two requests share a key exactly when their raw sort, direction, page, limit and still-encoded query are all equal. |
| CacheKey.KeyIsCaseSensitive | service/service.go:184-185 | The key is not lower-cased: sort `name` and sort `NAME` give different keys. |
| Store.QueryFor | db/product.go.go:62-73 | The query's conditions are those of the compiled filter. It has a window exactly when limit and page are at least 1, with that limit and offset `(page-1)*limit`. It is ordered exactly when a sort with non-empty column and direction is given, by `column direction`. |
| Store.FirstNamed | db/product.go.go:36-56 | A lookup gives a row of the table with that name, or the zero product; a zero product is also what a missing name gives. A found row is the first row with that name. |
| Store.FirstNamedFinds | db/product.go.go:42-50 | For a non-empty name, the lookup finds a row with a non-empty name exactly when the table holds a row with that name. |
| Store.AppendedIsFound | db/product.go.go:13-56 | A row inserted with a non-empty name is then found by its name. |
| Store.NewRow | db/product.go.go:19-27 | The inserted row carries the request's name, price, description and quantity, with both timestamps set to the insertion instant. |
| Store.ProductStore.GetProductByName | db/product.go.go:36-56 | It answers the lookup of the current table: a database error, or the first row with the name, or the zero product when there is none. It only records the call. |
| Store.ProductStore.InsertProduct | db/product.go.go:13-34 | It appends the new row unless the insert fails, and reports which. |
| Store.ProductStore.ListProduct | db/product.go.go:58-80 | It runs exactly one query, built from the compiled filter, the window and the sort, and writes the filtered row count into the caller's block as `Paginate` does, even when the query then fails. The answer is the store's rows for that query; an empty list is not an error. |
| Store.RedisCache.Get | service/service.go:214 | It answers what the cache holds now: a value, absent (missing or expired), or an error. It only records the call. |
| Store.RedisCache.Set | service/service.go:245 | It stores the list under the key to expire `ttl` seconds from now, unless the write fails. |
| Store.ReadAt | service/service.go:214-230 | A read fails exactly when the cache is down. An entry is visible, with its stored value, exactly until its expiry instant. |
| Store.WrittenListVisibleForTtl | service/service.go:245 | A list written at instant t reads back unchanged exactly at the instants before t+60, and reads as absent from then on. |
| Service.Normalize | service/service.go:45-72 | Zero page with zero limit gives -1/-1. Otherwise: the limit ends in 1..100 (above 100 becomes 100, 0 or less becomes 10, 1..100 kept); page 0 becomes 1 and every other page, negative ones included, is kept. Totals are zero. |
| Service.SetPagination | service/service.go:45-72 | The step-by-step overwrites of the source compute `Normalize`. |
| Service.NormalizeIdempotent | service/service.go:56-69 | Outside unpaginated mode, normalising twice changes nothing. Unpaginated mode is not a fixed point. |
| Service.PaginateAfterNormalize | db/gorm-scope.go:13-29 | Unpaginated mode counts nothing and applies no window. Otherwise the totals are always counted, and a window is applied exactly when the requested page is not negative. |
| Service.CodeOf | service/service.go:80-130 | A refusal is `Internal` exactly for a failed lookup or insert; every guard is `Aborted`, never `InvalidArgument`. |
| Service.NameRefusal | service/service.go:80-89 | There is no name refusal exactly when all three name guards pass; any refusal comes before the lookup in the chain. |
| Service.Decide | service/service.go:80-122 | A refusal names a guard that fails. An acceptance means the name guards passed and the lookup found no product with that name, and it keeps the request's name, price and quantity. |
| Service.FirstFailureWins | service/service.go:80-122 | The request is refused for guard r exactly when r fails and every guard before r passes. |
| Service.RefusalIsFirstFailure | service/service.go:80-122 | The reason given fails, and every earlier guard passes. |
| Service.FirstFailureRefuses | service/service.go:80-122 | The first failing guard is the reason given. |
| Service.AcceptedExactly | service/service.go:80-122 | A request is accepted exactly when no guard fails. What is inserted is the request with only a blank description replaced by `-`. |
| Service.NameGuardsPrecedeLookup | service/service.go:80-97 | A request a name guard refuses is refused for the first failing name guard, whatever the store would answer. |
| Service.AcceptedVerdicts | service/service.go:80-122 | An accepted request passed the name guards, the lookup found no product with that name, price and quantity are positive, and a non-blank description is valid and within its limit. |
| Service.TakenNameRefused | service/service.go:93-103 | A request the empty table would accept is refused as `NameTaken` once a row with its name exists. |
| Service.DashIsValidDescription | service/service.go:113-114 | The replacement description `-` is non-blank, valid, and one byte long. |
| Service.AcceptedIsValid | service/service.go:80-126 | Everything inserted has a non-blank valid name within the length limit and not yet in the table, a positive price and quantity, and a non-blank valid description that is `-` or within its limit. |
| Service.LowerChar | service/service.go:164-165 | A character that lowers to ASCII is ASCII, U+0130 or the Kelvin sign. An ASCII capital lowers to its small letter, and every other ASCII character is kept. |
| Service.ToLower | service/service.go:164-165 | `strings.ToLower` keeps the length and lowers each character. |
| Service.AdmittedHasNoAmpersand | service/service.go:164-185 | A sort and direction the allow-list admits contain no `&`, so the cache key of an admitted request determines its raw fields. |
| Service.AllowListIgnoresCase | service/service.go:152-172 | `PRİCE` and `DESC` are admitted; `price ` (trailing space) and `ascending` are not. |
| Service.CaseVariantsShareSortButNotKey | service/service.go:164-185 | Sorts `name` and `NAME` are both admitted and sort the same way, yet get different cache keys. |
| Service.PlanFor | service/service.go:214-230 | A non-empty cached list is served as is. A decode failure or any cache error other than absent is an internal error. Everything else (absent, or an empty list) goes to the store. |
| Service.ServedWithinTtl | service/service.go:214-251 | A non-empty list written back at t is served from the cache exactly before t+60 and fetched again after; an empty list is always fetched again. |
| Service.Latin1 | service/service.go:180 | The filter text has one character per decoded byte, with that byte's value. |
| Service.Respond | service/service.go:189-205 | An admitted request is listed exactly when the cached list is served, or when the fetch and the cache write both succeed; every other outcome is `Internal`. A listed response has error false, code 200 and the normalised limit and page. The totals are counted only for a fetched list. |
| Service.ProductService.AddProduct | service/service.go:74-135 | It follows `Validate`. It looks up the name exactly when the name guards pass. It inserts exactly when every guard passes, so a refused request is never inserted. An insert failure is reported as `InsertFailed`. |
| Service.ProductService.StoreDataWithTimeout | service/service.go:209-252 | One cache read. A non-empty hit is returned and an error or garbled value is `Internal`, in both cases with no store call and no cache write. Otherwise there is exactly one store query; its failure is `Internal` with no cache write; otherwise the list is written back for 60 s and returned, or `Internal` if the write fails. |
| Service.ProductService.ListProducts | service/service.go:137-207 | An undecodable filter is `Silent`, and a refused sort or direction is `InvalidArgument`; both touch neither cache nor store. Otherwise the key is read, the store is queried only when the cache does not serve the list, and the outcome is `Respond`. |
| Service.ProductService.ListAdmitted | service/service.go:180-205 | The admitted part of the list path: one read of the raw request's key, a store query only when the cache does not serve the list, the write-back of a fetched list, and the outcome `Respond` gives. |
| Service.CachedListLosesTotals | service/service.go:189-205 | The same request three times: fetched with totals; served from the cache within the minute with the same rows but zero totals; fetched again after the minute. The store runs exactly two queries. |
| Service.DuplicateNameRefused | service/service.go:93-130 | Adding the same acceptable product twice to an empty table inserts it once and refuses the second as `NameTaken`. |

## Left out

- I/O and plumbing: the HTTP server and its routing, JSON request and response handling,
  logging, configuration, context timeouts and connection pools. handler/handler.go,
  router/router.go, main.go, config/config.go and db/provider.go are not part of this
  model.
- The handler forces page ≤ 0 to 1 and limit ≤ 0 to 10 (handler/handler.go:77-82),
  which makes unpaginated mode unreachable over HTTP. `setPagination` is still modelled
  over its whole input domain.
- `GetEnv` and `strconv.Atoi` for `REMARK_LENGTH` and `PRODUCT_NAME_LENGTH`: the two
  limits are parameters of `AddProduct`. An unparsable value would be 0.
- SQL evaluation: what rows a query returns and how many match is left to the store's
  abstract `answer` and `count` functions. The ids the database assigns are not
  modelled; an inserted row has id 0, as the struct the service hands over does.
- Timestamps are abstract instants (`time.Now` is the `now` parameter). The cache
  clock is a field that only `Advance` moves.
- Store.ProductStore.ListProduct: a failing count query has no failure flag of its
  own. GORM ignores its error, so `totalRows` keeps its zero value and the totals
  become 0 rows and 0 pages; in the model that is the store's `count` answering 0.
- Service.ProductService.StoreDataWithTimeout: `json.Marshal` and `json.Unmarshal` are
  not modelled. A cached value is a list or garbled, and marshalling never fails
  (the price is a real number, so there is no NaN to refuse). Any error of `SET`
  leaves the cache unchanged.
- Service.ProductService.AddProduct: the refusal messages are left out, only the
  reason and its status code are modelled. These include the length limit printed in
  two of them and the `%!(EXTRA …)` suffix that the extra `Sprintf` argument at
  service/service.go:120 appends.
- Service.ToLower: exact on ASCII and on U+0130 and U+212A, the only characters whose
  lower case is ASCII. Other non-ASCII characters are kept rather than lowered, which
  cannot change the allow-list's verdict.
- Service.Latin1: the decoded filter is read one character per byte. Go reads the
  bytes as UTF-8, so `TrimSpace` on non-ASCII bytes of a column name may differ.
  ASCII filters are exact.
- Base64.Pad: pads to a multiple of 4 characters where Go counts bytes. The two differ
  only for non-ASCII input, which neither decoder accepts.
- Base64.DecodeStripped: the partial output Go returns beside a decode error is not
  modelled; an error is `None`.
- Scope.WithTotals: the page count is exact ceiling division, truncated to int32 by
  `Wrap32`. Floating-point rounding of `math.Ceil(float64/float64)` beyond 2^53 rows is
  not modelled. A zero or negative limit is modelled as amd64 converts the infinite
  or NaN quotient.
- Scope.PageWindow: the corrected offset is modelled. The int32 wrap-around of the
  source is `Scope.OffsetAsWritten` (see Findings).
- redis/key.go and redis/config.go are unused setters and are not part of this model.

## Findings

| source | as written | input that shows it | evidently intended | confidence | as-written member | corrected member |
|---|---|---|---|---|---|---|
| db/gorm-scope.go:27 | `offset := (v.Page - 1) * v.Limit` is computed in int32 and wraps around | page 21474838, limit 100: the offset is -2147483596, not 2147483700; GORM drops a negative offset, so the first page is served | the offset of the requested page, `(Page-1)*Limit`, computed without overflow | not executed; medium (the wrap is certain, GORM's handling of the negative offset is read from its documentation) | Scope.OffsetAsWrittenWraps | Scope.PagesTile |
