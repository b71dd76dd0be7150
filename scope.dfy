/** The query scopes of db/gorm-scope.go: the filter compiler (`QueryScoop`), the
    ordering (`Sort`) and the pagination arithmetic (`Paginate`). The scopes are
    modelled by what they add to the query, not by SQL execution. */
module Scope {
  import opened Model
  import Utils

  // ---------------------------------------------------------------------------
  // Go string primitives used by the filter compiler

  /** The index of the first `c` in `s` (`strings.Index`), if any. */
  function FirstIndex(s: string, c: char): (r: Option<nat>)
    ensures r.None? <==> c !in s
    ensures r.Some? ==> r.value < |s| && s[r.value] == c && c !in s[..r.value]
  {
    if s == [] then None
    else if s[0] == c then Some(0)
    else match FirstIndex(s[1..], c)
      case None => None
      case Some(i) => assert s[..i + 1] == [s[0]] + s[1..][..i]; Some(i + 1)
  }

  /** The number of occurrences of `c` in `s`. */
  function Count(s: string, c: char): nat {
    if s == [] then 0 else (if s[0] == c then 1 else 0) + Count(s[1..], c)
  }

  lemma {:induction false} CountAppend(a: string, b: string, c: char)
    ensures Count(a + b, c) == Count(a, c) + Count(b, c)
  {
    if a == [] {
      assert a + b == b;
    } else {
      assert (a + b)[1..] == a[1..] + b;
      CountAppend(a[1..], b, c);
    }
  }

  lemma {:induction false} CountAbsent(s: string, c: char)
    requires c !in s
    ensures Count(s, c) == 0
  {
    if s != [] {
      CountAbsent(s[1..], c);
    }
  }

  /** `strings.Join`. */
  function Join(parts: seq<string>, sep: char): string {
    if |parts| == 0 then ""
    else if |parts| == 1 then parts[0]
    else parts[0] + [sep] + Join(parts[1..], sep)
  }

  /** `strings.Split(s, sep)` for a one-character separator: the pieces between the
      separators, so one more piece than there are separators; "" gives [""]. */
  function Split(s: string, sep: char): (parts: seq<string>)
    ensures |parts| == Count(s, sep) + 1
    ensures forall k :: 0 <= k < |parts| ==> sep !in parts[k]
    ensures Join(parts, sep) == s
    decreases |s|
  {
    match FirstIndex(s, sep)
    case None =>
      CountAbsent(s, sep);
      [s]
    case Some(i) =>
      var rest := Split(s[i + 1..], sep);
      assert s == s[..i] + ([sep] + s[i + 1..]);
      CountAppend(s[..i], [sep] + s[i + 1..], sep);
      CountAppend([sep], s[i + 1..], sep);
      assert Count([sep], sep) == 1 by {
        assert [sep][1..] == [];
      }
      CountAbsent(s[..i], sep);
      assert ([s[..i]] + rest)[1..] == rest;
      [s[..i]] + rest
  }

  // ---------------------------------------------------------------------------
  // The filter compiler, QueryScoop (db/gorm-scope.go:44-87)

  datatype Op = Like | ILike | Equal

  /** The SQL operator written into each clause. */
  function OpText(op: Op): string {
    match op
    case Like => "LIKE"
    case ILike => "ILIKE"
    case Equal => "="
  }

  predicate HasPrefix(s: string, prefix: string) {
    |prefix| <= |s| && s[..|prefix|] == prefix
  }

  /** The operator and search value chosen by the value part's prefix (lines 61-71):
      `%%` gives LIKE and `%!` gives ILIKE, both with the rest wrapped in `%`;
      anything else is compared with `=` as it stands. `%%` is tested first. */
  function Operand(value: string): (r: (Op, string))
    ensures r.0 == Like <==> HasPrefix(value, "%%")
    ensures r.0 == ILike <==> HasPrefix(value, "%!")
    ensures r.0 == Equal ==> r.1 == value
    ensures r.0 != Equal ==> |r.1| == |value| && r.1[0] == '%' && r.1[|r.1| - 1] == '%'
  {
    if HasPrefix(value, "%%") then (Like, "%" + value[2..] + "%")
    else if HasPrefix(value, "%!") then (ILike, "%" + value[2..] + "%")
    else (Equal, value)
  }

  /** The value part that yields the operator `op` and search value `arg`: the inverse
      of `Operand`. */
  function OperandSource(op: Op, arg: string): string
    requires op != Equal ==> |arg| >= 2
  {
    match op
    case Like => "%%" + arg[1..|arg| - 1]
    case ILike => "%!" + arg[1..|arg| - 1]
    case Equal => arg
  }

  /** The operator choice loses nothing: the value part can be read back. */
  lemma OperandRoundTrip(value: string)
    ensures var (op, arg) := Operand(value);
      (op != Equal ==> |arg| >= 2) && OperandSource(op, arg) == value
  {
    var (op, arg) := Operand(value);
    if op != Equal {
      assert arg[1..|arg| - 1] == value[2..];
      assert value == value[..2] + value[2..];
    }
  }

  /** What the filter compiler makes of its input: no filtering at all, or one
      operator and search value compared against each listed column. */
  datatype Filter = PassThrough | AnyOf(columns: seq<string>, op: Op, value: string)

  /** The parse of `QueryScoop` (lines 46-71). Empty input, or input without `:`, adds
      no filter. Otherwise the input is split at its first `:` only, the left part at
      every `,` into columns (trimmed later, one clause each), and the right part gives
      the operator and the search value. */
  function Compile(v: string): (f: Filter)
    ensures f.PassThrough? <==> ':' !in v
    ensures f.AnyOf? ==>
      && |f.columns| >= 1
      && (forall k :: 0 <= k < |f.columns| ==> ',' !in f.columns[k] && ':' !in f.columns[k])
      && (f.op != Equal ==> |f.value| >= 2)
  {
    if v == "" then PassThrough
    else match FirstIndex(v, ':')
      case None => PassThrough
      case Some(i) =>
        var (op, arg) := Operand(v[i + 1..]);
        var columns := Split(v[..i], ',');
        assert forall k :: 0 <= k < |columns| ==> ':' !in columns[k] by {
          forall k | 0 <= k < |columns| ensures ':' !in columns[k] {
            if ':' in columns[k] {
              JoinContains(columns, ',', k, ':');
              assert false;
            }
          }
        }
        AnyOf(columns, op, arg)
  }

  /** Every piece of a join appears in it: a character of a piece is a character of
      the whole. */
  lemma {:induction false} JoinContains(parts: seq<string>, sep: char, k: nat, c: char)
    requires k < |parts| && c in parts[k]
    ensures c in Join(parts, sep)
  {
    if |parts| > 1 {
      if k == 0 {
        assert Join(parts, sep) == parts[0] + ([sep] + Join(parts[1..], sep));
      } else {
        JoinContains(parts[1..], sep, k - 1, c);
        assert Join(parts, sep) == (parts[0] + [sep]) + Join(parts[1..], sep);
      }
    }
  }

  /** The compiler loses nothing: a compiled filter can be written back to exactly the
      input it came from, the columns joined by `,`, then `:`, then the value part. */
  lemma CompileRoundTrip(v: string)
    requires ':' in v
    ensures Compile(v).AnyOf?
    ensures var f := Compile(v);
      v == Join(f.columns, ',') + ":" + OperandSource(f.op, f.value)
  {
    var i := FirstIndex(v, ':').value;
    OperandRoundTrip(v[i + 1..]);
    assert v == v[..i] + ":" + v[i + 1..];
  }

  /** The split is at the first `:` only, so the value part keeps any later `:`. */
  lemma ValueKeepsLaterColons(cols: string, value: string)
    requires ':' !in cols
    ensures Compile(cols + ":" + value) == AnyOf(Split(cols, ','), Operand(value).0, Operand(value).1)
  {
    var v := cols + ":" + value;
    assert v[|cols|] == ':';
    assert v[..|cols|] == cols;
    assert v[|cols| + 1..] == value;
  }

  /** One comparison `column op ?` with its bound argument. */
  datatype Clause = Clause(column: string, op: Op, arg: string)

  /** The SQL text of a clause (line 77). */
  function ClauseText(c: Clause): string {
    c.column + " " + OpText(c.op) + " ?"
  }

  /** How a clause is attached to the query: the first with `Where`, the rest with `Or`,
      so together they form one disjunction. */
  datatype Condition = Where(clause: Clause) | Or(clause: Clause)

  /** The conditions a filter stands for: none for a pass-through; otherwise one per
      column, in order, the column trimmed of spaces, all with the filter's operator and
      search value, the first attached with `Where` and every later one with `Or`. */
  predicate ClausesFor(f: Filter, conds: seq<Condition>) {
    match f
    case PassThrough => conds == []
    case AnyOf(columns, op, value) =>
      && |conds| == |columns|
      && forall k :: 0 <= k < |conds| ==>
        && conds[k].clause == Clause(Utils.TrimSpace(columns[k]), op, value)
        && (conds[k].Where? <==> k == 0)
  }

  /** The conditions of a filter, as a value. */
  function Conditions(f: Filter): (conds: seq<Condition>)
    ensures ClausesFor(f, conds)
  {
    match f
    case PassThrough => []
    case AnyOf(columns, op, value) =>
      seq(|columns|, k requires 0 <= k < |columns| =>
        var c := Clause(Utils.TrimSpace(columns[k]), op, value);
        if k == 0 then Where(c) else Or(c))
  }

  /** A filter stands for exactly one list of conditions. */
  lemma ClausesUnique(f: Filter, c1: seq<Condition>, c2: seq<Condition>)
    requires ClausesFor(f, c1) && ClausesFor(f, c2)
    ensures c1 == c2
  {
    if f.AnyOf? {
      forall k | 0 <= k < |c1|
        ensures c1[k] == c2[k]
      {
        if k == 0 {
          assert c1[k].Where? && c2[k].Where?;
        } else {
          assert c1[k].Or? && c2[k].Or?;
        }
      }
    }
  }

  /** One clause per column: a value part after `cols:` yields as many conditions as
      `cols` has commas plus one, whatever its operator. */
  lemma ClauseCount(cols: string, value: string, conds: seq<Condition>)
    requires ':' !in cols
    requires ClausesFor(Compile(cols + ":" + value), conds)
    ensures |conds| == Count(cols, ',') + 1
  {
    ValueKeepsLaterColons(cols, value);
  }

  /** The clause-building loop of `QueryScoop` (lines 74-83): one clause per column,
      the column trimmed of spaces, each with the same operator and search value. */
  method BuildConditions(f: Filter) returns (conds: seq<Condition>)
    ensures ClausesFor(f, conds)
  {
    conds := [];
    if f.PassThrough? {
      return;
    }
    var i := 0;
    while i < |f.columns|
      invariant 0 <= i <= |f.columns|
      invariant |conds| == i
      invariant forall k :: 0 <= k < i ==>
        && conds[k].clause == Clause(Utils.TrimSpace(f.columns[k]), f.op, f.value)
        && (conds[k].Where? <==> k == 0)
    {
      var col := Utils.TrimSpace(f.columns[i]);
      var clause := Clause(col, f.op, f.value);
      if i == 0 {
        conds := conds + [Where(clause)];
      } else {
        conds := conds + [Or(clause)];
      }
      i := i + 1;
    }
  }

  // ---------------------------------------------------------------------------
  // Sort (db/gorm-scope.go:35-42)

  datatype Order = Unordered | OrderBy(expr: string)

  /** The ordering scope: nothing for a missing sort or an empty field, otherwise
      `column direction`. */
  function SortScope(s: Option<Sort>): (o: Order)
    ensures o.Unordered? <==> s.None? || s.value.column == "" || s.value.direction == ""
    ensures o.OrderBy? ==> o.expr == s.value.column + " " + s.value.direction
  {
    if s.None? || s.value.column == "" || s.value.direction == "" then Unordered
    else OrderBy(s.value.column + " " + s.value.direction)
  }

  /** For columns without a space, the order expression determines the sort. */
  lemma OrderDetermines(s1: Sort, s2: Sort)
    requires ' ' !in s1.column && ' ' !in s2.column
    requires SortScope(Some(s1)).OrderBy?
    requires SortScope(Some(s1)) == SortScope(Some(s2))
    ensures s1 == s2
  {
    Utils.SplitAtSeparator(s1.column, s1.direction, s2.column, s2.direction, ' ');
  }

  // ---------------------------------------------------------------------------
  // Paginate (db/gorm-scope.go:12-33)

  /** Go's `int(math.Ceil(float64(rows) / float64(limit)))`, on exact numbers. For a
      zero limit the float quotient is infinite or NaN, whose conversion yields the
      minimum int64 on amd64, 0 once truncated to int32. */
  function PageCount(rows: nat, limit: int): (n: int)
    ensures limit > 0 ==> (n - 1) * limit < rows <= n * limit
    ensures limit > 0 ==> n >= 0
  {
    if limit > 0 then CeilDiv(rows, limit)
    else if limit < 0 then -(rows / -limit)
    else 0
  }

  /** Ceiling division: the fewest pages of `limit` rows that hold `rows` rows. */
  function CeilDiv(rows: nat, limit: int): (n: nat)
    requires limit > 0
    ensures (n - 1) * limit < rows <= n * limit
  {
    var n := (rows + limit - 1) / limit;
    assert n * limit <= rows + limit - 1 < (n + 1) * limit;
    n
  }

  /** A positive limit never gives more pages than rows. */
  lemma CeilDivAtMostRows(rows: nat, limit: int)
    requires limit > 0
    ensures 0 <= CeilDiv(rows, limit) <= rows
  {
    var n := CeilDiv(rows, limit);
    if n > rows {
      assert n - 1 >= rows;
      MulAtLeast(n - 1, limit);
      assert false;
    }
  }

  lemma MulAtLeast(a: nat, b: int)
    requires b >= 1
    ensures a * b >= a
  {
  }

  /** The count half of `Paginate` (lines 13-20): when Limit or Page is positive, the
      total row count of the table and the number of pages are filled in. */
  function WithTotals(v: PaginationResponse, rows: Int64): (r: PaginationResponse)
    requires rows >= 0
    ensures r.limit == v.limit && r.page == v.page
    ensures !(v.limit > 0 || v.page > 0) ==> r == v
    ensures (v.limit > 0 || v.page > 0) ==> r.totalRows == rows
    ensures v.limit > 0 && rows <= 0x7fff_ffff ==>
      (r.totalPages - 1) * v.limit < rows <= r.totalPages * v.limit
  {
    if v.limit > 0 || v.page > 0 then
      var pages := PageCount(rows, v.limit);
      if v.limit > 0 && rows <= 0x7fff_ffff then
        CeilDivAtMostRows(rows, v.limit);
        v.(totalRows := rows, totalPages := Wrap32(pages))
      else
        v.(totalRows := rows, totalPages := Wrap32(pages))
    else v
  }

  /** The pagination block the caller passes by pointer; `Paginate` writes its totals
      into it (lines 17-19), so the caller sees them afterwards. */
  class Pagination {
    var current: PaginationResponse

    constructor(v: PaginationResponse)
      ensures current == v
    {
      current := v;
    }
  }

  /** A table's row count: a non-negative int64. */
  type RowCount = n: int | 0 <= n <= 0x7fff_ffff_ffff_ffff

  /** `Paginate` (lines 12-33) given the row count of the filtered table: it fills in
      the totals of the caller's block when Limit or Page is positive, and yields the
      window the query is then limited to. */
  method Paginate(v: Pagination, rows: RowCount) returns (w: Window)
    modifies v
    ensures v.current == WithTotals(old(v.current), rows)
    ensures w == PageWindow(v.current)
  {
    if v.current.limit > 0 || v.current.page > 0 {
      v.current := v.current.(totalRows := rows, totalPages := Wrap32(PageCount(rows, v.current.limit)));
    }
    if v.current.limit < 1 || v.current.page < 1 {
      w := Unbounded;
    } else {
      w := LimitOffset(v.current.limit, Offset(v.current.page, v.current.limit));
    }
  }

  /** The limit and offset the query is given; Unbounded when none are applied. */
  datatype Window = Unbounded | LimitOffset(limit: int, offset: int)

  /** The offset of a page, computed in full: the rows of the earlier pages. */
  function Offset(page: Int32, limit: Int32): int {
    (page - 1) * limit
  }

  /** The offset as line 27 computes it: in int32, wrapping around for large pages. */
  function OffsetAsWritten(page: Int32, limit: Int32): Int32 {
    Wrap32((page - 1) * limit)
  }

  /** The window half of `Paginate` (lines 22-32): a limit and an offset only when both
      Limit and Page are at least 1. */
  function PageWindow(v: PaginationResponse): (w: Window)
    ensures w.LimitOffset? <==> v.limit >= 1 && v.page >= 1
    ensures w.LimitOffset? ==> w.limit == v.limit && w.offset == Offset(v.page, v.limit)
  {
    if v.limit < 1 || v.page < 1 then Unbounded
    else LimitOffset(v.limit, Offset(v.page, v.limit))
  }

  /** Consecutive pages tile the rows: page `p + 1` starts where page `p` ends, and the
      first page starts at row 0. */
  lemma PagesTile(page: Int32, limit: Int32)
    requires page >= 1 && limit >= 1 && page < 0x7fff_ffff
    ensures Offset(1, limit) == 0
    ensures Offset(page, limit) >= 0
    ensures Offset(page + 1, limit) == Offset(page, limit) + limit
  {
  }

  /** As written, the offset is right while `(page - 1) * limit` fits in an int32. */
  lemma OffsetAsWrittenInRange(page: Int32, limit: Int32)
    requires page >= 1 && limit >= 1
    requires (page - 1) * limit <= 0x7fff_ffff
    ensures OffsetAsWritten(page, limit) == Offset(page, limit)
  {
  }

  /** Beyond that it wraps: page 21474838 with 100 rows per page gives a negative
      offset instead of 2147483700. */
  lemma OffsetAsWrittenWraps()
    ensures Offset(21474838, 100) == 2147483700
    ensures OffsetAsWritten(21474838, 100) == -2147483596
  {
  }
}
