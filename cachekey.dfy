/** The cache key of a list request (service/service.go:184-185):
    `PRODUCT-REQ:sort=%s&dir=%s&page=%d&limit=%d&query=%s` over the request's raw
    fields: sort and direction as sent (not lower-cased), page and limit as sent (not
    normalised) and the filter still base64-encoded. */
module CacheKey {
  import opened Model
  import Utils

  function DigitChar(d: int): (c: char)
    requires 0 <= d < 10
    ensures '0' <= c <= '9'
  {
    '0' + d as char
  }

  /** The decimal digits of `n`, most significant first, without leading zeros. */
  function Digits(n: nat): (s: string)
    ensures |s| >= 1 && forall k :: 0 <= k < |s| ==> '0' <= s[k] <= '9'
    ensures s[0] == '0' ==> n == 0
  {
    if n < 10 then [DigitChar(n)] else Digits(n / 10) + [DigitChar(n % 10)]
  }

  /** The number a string of decimal digits denotes. */
  function DigitsValue(s: string): nat
    requires forall k :: 0 <= k < |s| ==> '0' <= s[k] <= '9'
  {
    if s == [] then 0 else 10 * DigitsValue(s[..|s| - 1]) + (s[|s| - 1] - '0') as int
  }

  /** Reading the digits back gives the number. */
  lemma {:induction false} DigitsRoundTrip(n: nat)
    ensures DigitsValue(Digits(n)) == n
  {
    if n >= 10 {
      var s := Digits(n);
      assert s[..|s| - 1] == Digits(n / 10);
      DigitsRoundTrip(n / 10);
    }
  }

  /** Go's `%d` of an integer. */
  function Decimal(n: int): (s: string)
    ensures '&' !in s
    ensures |s| >= 1 && (n < 0 <==> s[0] == '-')
  {
    if n < 0 then "-" + Digits(-n) else Digits(n)
  }

  /** What `%d` prints: a minus sign exactly for a negative number, then the digits of
      its magnitude, which read back as that magnitude. */
  lemma DecimalDenotes(n: int)
    ensures var s := Decimal(n);
      var d := if n < 0 then s[1..] else s;
      && |s| >= 1 && (n < 0 <==> s[0] == '-')
      && (forall k :: 0 <= k < |d| ==> '0' <= d[k] <= '9')
      && DigitsValue(d) == if n < 0 then -n else n
  {
    var m: nat := if n < 0 then -n else n;
    var s := Decimal(n);
    var d := if n < 0 then s[1..] else s;
    assert d == Digits(m) by {
      if n < 0 {
        assert s == "-" + Digits(m);
      }
    }
    DigitsRoundTrip(m);
  }

  lemma DigitsInjective(m: nat, n: nat)
    requires Digits(m) == Digits(n)
    ensures m == n
  {
    DigitsRoundTrip(m);
    DigitsRoundTrip(n);
  }

  /** Different numbers print differently. */
  lemma {:induction false} DecimalInjective(a: int, b: int)
    requires Decimal(a) == Decimal(b)
    ensures a == b
  {
    if a < 0 && b < 0 {
      DropPrefix("-", Digits(-a), Digits(-b));
      DigitsInjective(-a, -b);
    } else if 0 <= a && 0 <= b {
      DigitsInjective(a, b);
    } else {
      assert false;
    }
  }

  /** The key under which a list request's result is cached. */
  function Key(req: ListProductRequest): string {
    "PRODUCT-REQ:sort=" + (req.sort + ("&dir=" + (req.dir + ("&page=" + (Decimal(req.page)
    + ("&limit=" + (Decimal(req.limit) + ("&query=" + req.query))))))))
  }

  /** If `p + x == p + y` then `x == y`. */
  lemma DropPrefix(p: string, x: string, y: string)
    requires p + x == p + y
    ensures x == y
  {
    assert x == (p + x)[|p|..];
  }

  /** One step of reading a key back: after a common prefix, a field value free of `&`
      runs up to the next `&`, so the values and the remainders agree. */
  lemma FieldStep(prefix: string, v1: string, t1: string, v2: string, t2: string)
    requires '&' !in v1 && '&' !in v2
    requires |t1| > 0 && t1[0] == '&' && |t2| > 0 && t2[0] == '&'
    requires prefix + (v1 + t1) == prefix + (v2 + t2)
    ensures v1 == v2 && t1 == t2
  {
    DropPrefix(prefix, v1 + t1, v2 + t2);
    assert v1 + t1 == v1 + ['&'] + t1[1..];
    assert v2 + t2 == v2 + ['&'] + t2[1..];
    Utils.SplitAtSeparator(v1, t1[1..], v2, t2[1..], '&');
    assert t1 == [t1[0]] + t1[1..];
    assert t2 == [t2[0]] + t2[1..];
  }

  /** For requests whose sort and direction contain no `&` (every request the allow-list
      admits), the key determines the request and the request the key: two requests
      share a cache entry exactly when all five raw fields are equal. */
  lemma {:induction false} KeyInjective(r1: ListProductRequest, r2: ListProductRequest)
    requires '&' !in r1.sort && '&' !in r1.dir && '&' !in r2.sort && '&' !in r2.dir
    ensures Key(r1) == Key(r2) <==> r1 == r2
  {
    if Key(r1) == Key(r2) {
      var q1, q2 := "&query=" + r1.query, "&query=" + r2.query;
      var l1, l2 := "&limit=" + (Decimal(r1.limit) + q1), "&limit=" + (Decimal(r2.limit) + q2);
      var p1, p2 := "&page=" + (Decimal(r1.page) + l1), "&page=" + (Decimal(r2.page) + l2);
      var d1, d2 := "&dir=" + (r1.dir + p1), "&dir=" + (r2.dir + p2);
      FieldStep("PRODUCT-REQ:sort=", r1.sort, d1, r2.sort, d2);
      FieldStep("&dir=", r1.dir, p1, r2.dir, p2);
      FieldStep("&page=", Decimal(r1.page), l1, Decimal(r2.page), l2);
      FieldStep("&limit=", Decimal(r1.limit), q1, Decimal(r2.limit), q2);
      DecimalInjective(r1.page, r2.page);
      DecimalInjective(r1.limit, r2.limit);
      DropPrefix("&query=", r1.query, r2.query);
    }
  }

  /** The key is not normalised: requests that differ only in the case of the sort
      column get separate cache entries. */
  lemma KeyIsCaseSensitive(r: ListProductRequest)
    requires r.sort == "name" && '&' !in r.dir
    ensures Key(r) != Key(r.(sort := "NAME"))
  {
    KeyInjective(r, r.(sort := "NAME"));
    assert r.sort[0] != r.(sort := "NAME").sort[0];
  }
}
