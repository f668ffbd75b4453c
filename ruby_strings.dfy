/**
 * The handful of Ruby and ActiveSupport string operations the application relies on:
 * `split` with a one-character separator, `join`, `strip`, `blank?`/`present?`,
 * `truncate`, `to_i`, `Integer#to_s`, `downcase`, `include?` and the interpolation of nil.
 * Strings are sequences of Unicode scalar values, which is what Ruby's `length` counts.
 */
module RubyStrings {
  import opened Wrappers

  type String = seq<char>

  // ---------------------------------------------------------------------------
  // White space, strip, blank?

  /** The characters `to_i` and `blank?` skip as white space (the ASCII ones). */
  predicate IsSpace(c: char) {
    c == ' ' || c == '\t' || c == '\n' || c == '\U{0B}' || c == '\U{0C}' || c == '\r'
  }

  /** The characters `strip`, `lstrip` and `rstrip` remove: white space and also NUL. */
  predicate IsStripped(c: char) {
    IsSpace(c) || c == '\0'
  }

  /** ActiveSupport's `blank?` on a string: empty or only white space. */
  predicate Blank(s: String) {
    forall i :: 0 <= i < |s| ==> IsSpace(s[i])
  }

  /** `blank?` on a value that may be nil. */
  predicate BlankOpt(o: Option<String>) {
    o.None? || Blank(o.value)
  }

  /** `present?` on a value that may be nil. */
  predicate PresentOpt(o: Option<String>) {
    !BlankOpt(o)
  }

  /** String interpolation: `"#{x}"` renders nil as the empty string. */
  function OrEmpty(o: Option<String>): String {
    o.GetOr("")
  }

  /** `lstrip`: drops the leading white space and NULs, and nothing else. */
  function LStrip(s: String): (r: String)
    ensures |r| <= |s| && r == s[|s| - |r|..]
    ensures forall k :: 0 <= k < |s| - |r| ==> IsStripped(s[k])
    ensures r == [] || !IsStripped(r[0])
  {
    if |s| > 0 && IsStripped(s[0]) then LStrip(s[1..]) else s
  }

  /** `rstrip`: drops the trailing white space and NULs, and nothing else. */
  function RStrip(s: String): (r: String)
    ensures |r| <= |s| && r == s[..|r|]
    ensures forall k :: |r| <= k < |s| ==> IsStripped(s[k])
    ensures r == [] || !IsStripped(r[|r| - 1])
  {
    if |s| > 0 && IsStripped(s[|s| - 1]) then RStrip(s[..|s| - 1]) else s
  }

  /** How many characters `lstrip` removes. */
  function LeadingSpaceCount(s: String): (k: nat)
    ensures k <= |s|
  {
    |s| - |LStrip(s)|
  }

  /** `strip`: the infix of `s` left after removing white space and NULs at both ends. */
  function Strip(s: String): (r: String)
    ensures LeadingSpaceCount(s) + |r| <= |s|
    ensures r == s[LeadingSpaceCount(s)..LeadingSpaceCount(s) + |r|]
    ensures r == [] || (!IsStripped(r[0]) && !IsStripped(r[|r| - 1]))
  {
    var l := LStrip(s);
    var r := RStrip(l);
    assert r == s[|s| - |l|..][..|r|] == s[|s| - |l|..|s| - |l| + |r|];
    r
  }

  /** Stripping leaves nothing exactly when every character is white space or NUL. A blank
      string strips to nothing; without NULs the converse holds too; and a stripped string
      is blank only when it is empty. */
  lemma BlankIffStripEmpty(s: String)
    ensures Strip(s) == [] <==> forall k :: 0 <= k < |s| ==> IsStripped(s[k])
    ensures Blank(s) ==> Strip(s) == []
    ensures '\0' !in s ==> (Blank(s) <==> Strip(s) == [])
    ensures Blank(Strip(s)) <==> Strip(s) == []
  {
    var l := LStrip(s);
    if Strip(s) == [] {
      assert l == [];
    } else {
      assert s[LeadingSpaceCount(s)] == Strip(s)[0];
      assert !IsSpace(Strip(s)[0]);
    }
  }

  /** `strip` is idempotent. */
  lemma StripIdempotent(s: String)
    ensures Strip(Strip(s)) == Strip(s)
  {
    var t := Strip(s);
    if t != [] {
      assert LStrip(t) == t;
      assert RStrip(t) == t;
    }
  }

  /** A character absent from `s` is absent from any infix of it, in particular from `Strip(s)`. */
  lemma StripKeepsAbsent(s: String, c: char)
    requires c !in s
    ensures c !in Strip(s)
  {
    var t := Strip(s);
    var i := LeadingSpaceCount(s);
    forall k | 0 <= k < |t| ensures t[k] != c {
      assert t[k] == s[i + k];
    }
  }

  // ---------------------------------------------------------------------------
  // split and join with a one-character separator

  /** Every field between separators, empty ones included (always at least one). */
  function Fields(s: String, c: char): (r: seq<String>)
    ensures |r| >= 1
    decreases |s|
  {
    if |s| == 0 then [[]]
    else
      var rest := Fields(s[1..], c);
      if s[0] == c then [[]] + rest else [[s[0]] + rest[0]] + rest[1..]
  }

  /** Ruby's `split` with a string separator drops the trailing empty fields. */
  function DropTrailingEmpty(fs: seq<String>): (r: seq<String>)
    ensures |r| <= |fs| && r == fs[..|r|]
    ensures r == [] || r[|r| - 1] != []
    ensures forall k :: |r| <= k < |fs| ==> fs[k] == []
  {
    if |fs| > 0 && fs[|fs| - 1] == [] then DropTrailingEmpty(fs[..|fs| - 1]) else fs
  }

  /** `s.split(c)` for a one-character string `c`. */
  function Split(s: String, c: char): seq<String> {
    DropTrailingEmpty(Fields(s, c))
  }

  /** `parts.join(c)`. */
  function Join(parts: seq<String>, c: char): String {
    if |parts| == 0 then []
    else if |parts| == 1 then parts[0]
    else parts[0] + [c] + Join(parts[1..], c)
  }

  /** No field contains the separator. */
  lemma {:induction false} FieldsFree(s: String, c: char)
    ensures forall k :: 0 <= k < |Fields(s, c)| ==> c !in Fields(s, c)[k]
    decreases |s|
  {
    if |s| > 0 {
      FieldsFree(s[1..], c);
    }
  }

  /** A string without the separator is one field. */
  lemma {:induction false} FieldsOfFree(a: String, c: char)
    requires c !in a
    ensures Fields(a, c) == [a]
    decreases |a|
  {
    if |a| > 0 {
      FieldsOfFree(a[1..], c);
      assert [a[0]] + a[1..] == a;
    }
  }

  /** The first separator ends the first field. */
  lemma {:induction false} FieldsAfterFirst(a: String, c: char, b: String)
    requires c !in a
    ensures Fields(a + [c] + b, c) == [a] + Fields(b, c)
    decreases |a|
  {
    if |a| == 0 {
      assert (a + [c] + b)[1..] == b;
    } else {
      assert (a + [c] + b)[1..] == a[1..] + [c] + b;
      FieldsAfterFirst(a[1..], c, b);
      assert [a[0]] + a[1..] == a;
    }
  }

  /** Splitting a join of separator-free parts gives the parts back (before trailing empties are dropped). */
  lemma {:induction false} FieldsOfJoin(parts: seq<String>, c: char)
    requires |parts| >= 1
    requires forall k :: 0 <= k < |parts| ==> c !in parts[k]
    ensures Fields(Join(parts, c), c) == parts
    decreases |parts|
  {
    if |parts| == 1 {
      FieldsOfFree(parts[0], c);
    } else {
      FieldsOfJoin(parts[1..], c);
      FieldsAfterFirst(parts[0], c, Join(parts[1..], c));
      assert [parts[0]] + parts[1..] == parts;
    }
  }

  /** Round trip: `parts.join(c).split(c) == parts` when the parts are non-empty and separator-free. */
  lemma SplitOfJoin(parts: seq<String>, c: char)
    requires forall k :: 0 <= k < |parts| ==> parts[k] != [] && c !in parts[k]
    ensures Split(Join(parts, c), c) == parts
  {
    if |parts| >= 1 {
      FieldsOfJoin(parts, c);
    }
  }

  /** No element of `s.split(c)` contains `c`. */
  lemma SplitFree(s: String, c: char)
    ensures forall k :: 0 <= k < |Split(s, c)| ==> c !in Split(s, c)[k]
  {
    FieldsFree(s, c);
  }

  /** `(a + c + b).split(c).first == a` when `a` is non-empty and separator-free. */
  lemma SplitFirst(a: String, c: char, b: String)
    requires a != [] && c !in a
    ensures |Split(a + [c] + b, c)| >= 1 && Split(a + [c] + b, c)[0] == a
  {
    FieldsAfterFirst(a, c, b);
    assert Fields(a + [c] + b, c)[0] == a;
  }

  /** `(a + c + b).split(c) == [a, b]` for separator-free `a` and non-empty separator-free `b`. */
  lemma SplitPair(a: String, c: char, b: String)
    requires c !in a && c !in b && b != []
    ensures Split(a + [c] + b, c) == [a, b]
  {
    FieldsAfterFirst(a, c, b);
    FieldsOfFree(b, c);
  }

  // ---------------------------------------------------------------------------
  // truncate

  /** ActiveSupport's `truncate(n)`: unchanged when short enough, otherwise cut so that
      the text plus the omission "..." is `n` characters long. */
  function Truncate(s: String, n: nat): (r: String)
    ensures |s| <= n ==> r == s
    ensures n >= 3 ==> |r| <= n
    ensures |s| > n && n >= 3 ==> |r| == n && r[..n - 3] == s[..n - 3] && r[n - 3..] == "..."
  {
    if |s| <= n then s
    else if n >= 3 then s[..n - 3] + "..."
    else "..."
  }

  // ---------------------------------------------------------------------------
  // Integers: Integer#to_s and String#to_i

  predicate IsDigit(c: char) {
    '0' <= c <= '9'
  }

  predicate AllDigits(s: String) {
    forall i :: 0 <= i < |s| ==> IsDigit(s[i])
  }

  function DigitChar(d: nat): (c: char)
    requires d < 10
    ensures IsDigit(c)
  {
    ('0' as int + d) as char
  }

  function DigitValue(c: char): (d: nat)
    requires IsDigit(c)
    ensures d < 10
  {
    c as int - '0' as int
  }

  /** `n.to_s`: the decimal digits of a natural number, without sign or leading zeros. */
  function Decimal(n: nat): (r: String)
    ensures |r| >= 1 && AllDigits(r)
    ensures '-' !in r && '/' !in r
    decreases n
  {
    if n < 10 then [DigitChar(n)] else Decimal(n / 10) + [DigitChar(n % 10)]
  }

  /** The value of a string of decimal digits. */
  function DigitsValue(s: String): nat
    requires AllDigits(s)
  {
    if s == [] then 0 else DigitsValue(s[..|s| - 1]) * 10 + DigitValue(s[|s| - 1])
  }

  /** The longest prefix of decimal digits. */
  function LeadingDigits(s: String): (r: String)
    ensures AllDigits(r) && |r| <= |s| && r == s[..|r|]
    ensures |r| < |s| ==> !IsDigit(s[|r|])
  {
    if |s| > 0 && IsDigit(s[0]) then [s[0]] + LeadingDigits(s[1..]) else []
  }

  /** The white space `to_i` skips before the number (NUL is not skipped, unlike `strip`). */
  function SkipSpace(s: String): (r: String)
    ensures |r| <= |s| && r == s[|s| - |r|..]
    ensures r == [] || !IsSpace(r[0])
  {
    if |s| > 0 && IsSpace(s[0]) then SkipSpace(s[1..]) else s
  }

  /** Ruby's `String#to_i`: leading white space, an optional sign, then the leading digits
      (0 when there are none). Digit-group underscores are not modelled. */
  function ToI(s: String): int {
    var t := SkipSpace(s);
    if |t| > 0 && t[0] == '-' then -(DigitsValue(LeadingDigits(t[1..])) as int)
    else if |t| > 0 && t[0] == '+' then DigitsValue(LeadingDigits(t[1..]))
    else DigitsValue(LeadingDigits(t))
  }

  lemma {:induction false} DigitsValueOfDecimal(n: nat)
    ensures DigitsValue(Decimal(n)) == n
    decreases n
  {
    if n >= 10 {
      DigitsValueOfDecimal(n / 10);
      var d := Decimal(n);
      assert d[..|d| - 1] == Decimal(n / 10);
    }
  }

  lemma {:induction false} LeadingDigitsOfDigits(s: String)
    requires AllDigits(s)
    ensures LeadingDigits(s) == s
    decreases |s|
  {
    if |s| > 0 {
      LeadingDigitsOfDigits(s[1..]);
    }
  }

  /** Round trip: `n.to_s.to_i == n`. */
  lemma ToIOfDecimal(n: nat)
    ensures ToI(Decimal(n)) == n
  {
    ToIOfDigits(Decimal(n));
    DigitsValueOfDecimal(n);
  }

  /** A non-empty run of digits reads as its value. */
  lemma ToIOfDigits(d: String)
    requires |d| > 0 && AllDigits(d)
    ensures ToI(d) == DigitsValue(d)
  {
    var c := d[0];
    assert IsDigit(c);
    assert !IsSpace(c) && c != '-' && c != '+';
    assert SkipSpace(d) == d;
    LeadingDigitsOfDigits(d);
  }

  /** Distinct naturals print differently. */
  lemma DecimalInjective(m: nat, n: nat)
    requires Decimal(m) == Decimal(n)
    ensures m == n
  {
    DigitsValueOfDecimal(m);
    DigitsValueOfDecimal(n);
  }

  // ---------------------------------------------------------------------------
  // downcase and include?

  /** `downcase` on one character (ASCII letters only). */
  function LowerChar(c: char): char {
    if 'A' <= c <= 'Z' then (c as int + 32) as char else c
  }

  function Downcase(s: String): (r: String)
    ensures |r| == |s| && forall i :: 0 <= i < |s| ==> r[i] == LowerChar(s[i])
  {
    seq(|s|, i requires 0 <= i < |s| => LowerChar(s[i]))
  }

  /** `t` occurs in `s` starting at index `i`. */
  predicate OccursAt(s: String, t: String, i: nat) {
    i + |t| <= |s| && s[i..i + |t|] == t
  }

  /** `s.include?(t)`. */
  predicate Contains(s: String, t: String) {
    exists i: nat :: i <= |s| && OccursAt(s, t, i)
  }

  /** `downcase` commutes with taking a slice. */
  lemma DowncaseSlice(s: String, i: nat, j: nat)
    requires i <= j <= |s|
    ensures Downcase(s)[i..j] == Downcase(s[i..j])
  {
  }

  /** `starts_with?` */
  predicate StartsWith(s: String, p: String) {
    |p| <= |s| && s[..|p|] == p
  }
}
