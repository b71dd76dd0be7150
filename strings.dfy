/** The string helpers of lib/utils/utils.go, and the Go string primitives they and
    the service rely on (`strings.TrimSpace`, `len` in bytes, the regex classes). */
module Utils {

  /** Go's `unicode.IsSpace`: the Latin-1 spaces plus the other Unicode White_Space characters. */
  predicate IsSpace(c: char) {
    || c == '\t' || c == '\n' || c == '\U{0B}' || c == '\U{0C}' || c == '\r' || c == ' '
    || c == '\U{85}' || c == '\U{A0}' || c == '\U{1680}'
    || ('\U{2000}' <= c <= '\U{200A}')
    || c == '\U{2028}' || c == '\U{2029}' || c == '\U{202F}' || c == '\U{205F}' || c == '\U{3000}'
  }

  /** The number of leading spaces of `s`. */
  function LeadingSpaces(s: string): (n: nat)
    ensures n <= |s|
    ensures forall k :: 0 <= k < n ==> IsSpace(s[k])
    ensures n < |s| ==> !IsSpace(s[n])
  {
    if s == [] || !IsSpace(s[0]) then 0 else 1 + LeadingSpaces(s[1..])
  }

  /** The number of trailing spaces of `s`. */
  function TrailingSpaces(s: string): (n: nat)
    ensures n <= |s|
    ensures forall k :: |s| - n <= k < |s| ==> IsSpace(s[k])
    ensures n < |s| ==> !IsSpace(s[|s| - 1 - n])
  {
    if s == [] || !IsSpace(s[|s| - 1]) then 0 else 1 + TrailingSpaces(s[..|s| - 1])
  }

  /** `strings.TrimSpace`: `s` without its leading and trailing spaces. */
  function TrimSpace(s: string): (r: string)
    ensures r == [] <==> forall k :: 0 <= k < |s| ==> IsSpace(s[k])
    ensures r != [] ==> !IsSpace(r[0]) && !IsSpace(r[|r| - 1])
    ensures r != [] ==> LeadingSpaces(s) + |r| <= |s| && r == s[LeadingSpaces(s)..LeadingSpaces(s) + |r|]
    ensures forall k :: LeadingSpaces(s) + |r| <= k < |s| ==> IsSpace(s[k])
  {
    var i := LeadingSpaces(s);
    if i == |s| then []
    else
      var n := TrailingSpaces(s);
      s[i..|s| - n]
  }

  /** `IsEmptyString` (utils.go:44-46): true when only spaces remain after trimming. */
  function IsEmptyString(value: string): (empty: bool)
    ensures empty <==> forall k :: 0 <= k < |value| ==> IsSpace(value[k])
  {
    TrimSpace(value) == ""
  }

  predicate IsAsciiLetter(c: char) {
    'a' <= c <= 'z' || 'A' <= c <= 'Z'
  }

  predicate IsAsciiDigit(c: char) {
    '0' <= c <= '9'
  }

  /** The regex class `\s` of Go's RE2 syntax: ASCII whitespace without the vertical tab. */
  predicate IsRegexSpace(c: char) {
    c == '\t' || c == '\n' || c == '\U{0C}' || c == '\r' || c == ' '
  }

  /** The regex class `\w`: ASCII letters, digits and the underscore. */
  predicate IsWordChar(c: char) {
    IsAsciiLetter(c) || IsAsciiDigit(c) || c == '_'
  }

  /** One character of the class `[\s\w\d_.,-;()/]` (utils.go:27). Inside the class,
      `,-;` is the range from `,` to `;`, which also admits `-`, `.`, `/`, the digits and `:`. */
  predicate IsDescriptionChar(c: char) {
    || IsRegexSpace(c) || IsWordChar(c) || IsAsciiDigit(c) || c == '_' || c == '.'
    || (',' <= c <= ';') || c == '(' || c == ')' || c == '/'
  }

  /** One character of the class `[a-zA-Z0-9 _.,'-]` (utils.go:36); the final `-` is literal. */
  predicate IsNameChar(c: char) {
    IsAsciiLetter(c) || IsAsciiDigit(c) || c == ' ' || c == '_' || c == '.' || c == ',' || c == '\'' || c == '-'
  }

  /** `IsValidCharacter` (utils.go:26-33): the whole input matches `^[\s\w\d_.,-;()/]*$`,
      so the empty string is accepted. The class is matched one character at a time. */
  function IsValidCharacter(input: string): (ok: bool)
    ensures ok <==> forall k :: 0 <= k < |input| ==> IsDescriptionChar(input[k])
  {
    input == [] || (IsDescriptionChar(input[0]) && IsValidCharacter(input[1..]))
  }

  /** True when every character of `s` is in the product-name class. */
  function AllNameChars(s: string): (ok: bool)
    ensures ok <==> forall k :: 0 <= k < |s| ==> IsNameChar(s[k])
  {
    s == [] || (IsNameChar(s[0]) && AllNameChars(s[1..]))
  }

  /** `IsValidProductName` (utils.go:35-42): the input matches `^[a-zA-Z0-9 _.,'-]+$`. */
  function IsValidProductName(input: string): (ok: bool)
    ensures ok <==> |input| > 0 && forall k :: 0 <= k < |input| ==> IsNameChar(input[k])
  {
    |input| > 0 && AllNameChars(input)
  }

  /** The description class, listed character by character. */
  lemma DescriptionCharExactly(c: char)
    ensures IsDescriptionChar(c) <==>
      IsAsciiLetter(c) || IsAsciiDigit(c) || IsRegexSpace(c)
      || c in {'_', '(', ')', '/', ',', '-', '.', ':', ';'}
  {
  }

  /** The two classes differ: `'` is a valid name character but not a description
      character; `:` and `;` are the other way round; `%` is in neither. */
  lemma NameAndDescriptionClassesDiffer()
    ensures IsValidProductName("'") && !IsValidCharacter("'")
    ensures IsValidCharacter(":;") && !IsValidProductName(":;")
    ensures !IsValidCharacter("%") && !IsValidProductName("%")
  {
    assert !IsDescriptionChar("'"[0]);
    assert !IsNameChar(":;"[0]);
    assert !IsDescriptionChar("%"[0]);
  }

  /** Every name character except `'` is a description character. */
  lemma NameCharIsDescriptionChar(c: char)
    requires IsNameChar(c) && c != '\''
    ensures IsDescriptionChar(c)
  {
  }

  /** The number of bytes of `c` in UTF-8. */
  function Utf8Width(c: char): (w: nat)
    ensures 1 <= w <= 4
    ensures w == 1 <==> c < '\U{80}'
  {
    if c < '\U{80}' then 1
    else if c < '\U{800}' then 2
    else if c < '\U{10000}' then 3
    else 4
  }

  /** Go's `len` of a string: the length of its UTF-8 encoding in bytes. */
  function Utf8Length(s: string): (n: nat)
    ensures |s| <= n <= 4 * |s|
    ensures n == |s| <==> forall k :: 0 <= k < |s| ==> s[k] < '\U{80}'
  {
    if s == [] then 0 else Utf8Width(s[0]) + Utf8Length(s[1..])
  }

  /** `n` copies of `c`. */
  function Repeat(c: char, n: nat): (r: string)
    ensures |r| == n && forall k :: 0 <= k < n ==> r[k] == c
  {
    if n == 0 then [] else [c] + Repeat(c, n - 1)
  }

  /** Splitting at a separator that the leading parts do not contain is unambiguous:
      `a + [sep] + x == b + [sep] + y` forces `a == b` and `x == y`. */
  lemma {:induction false} SplitAtSeparator(a: string, x: string, b: string, y: string, sep: char)
    requires sep !in a && sep !in b
    requires a + [sep] + x == b + [sep] + y
    ensures a == b && x == y
  {
    var s := a + [sep] + x;
    if |a| == |b| {
      assert a == s[..|a|] == b;
      assert x == s[|a| + 1..] == y;
    } else {
      SeparatorAt(a, x, sep);
      SeparatorAt(b, y, sep);
      assert false;
    }
  }

  /** Where the separator and the leading part sit in `a + [sep] + x`. */
  lemma SeparatorAt(a: string, x: string, sep: char)
    ensures (a + [sep] + x)[|a|] == sep
    ensures forall k :: 0 <= k < |a| ==> (a + [sep] + x)[k] == a[k]
  {
  }
}
