/** Character-level string operations shared by the backend and the pages.
    Case mapping covers the ASCII letters only; everything else is
    unchanged. Whitespace follows Python `str.isspace` or the ECMAScript
    WhiteSpace/LineTerminator sets, restricted to the code points below. */
module Text {

  predicate IsLower(c: char) { 'a' <= c <= 'z' }
  predicate IsUpper(c: char) { 'A' <= c <= 'Z' }

  function UpperChar(c: char): (u: char)
    ensures !IsLower(u)
    ensures IsLower(c) ==> u as int == c as int - 32
    ensures !IsLower(c) ==> u == c
  {
    if IsLower(c) then (c as int - 32) as char else c
  }

  function LowerChar(c: char): (l: char)
    ensures !IsUpper(l)
    ensures IsUpper(c) ==> l as int == c as int + 32
    ensures !IsUpper(c) ==> l == c
  {
    if IsUpper(c) then (c as int + 32) as char else c
  }

  /** Python `str.upper()` / JavaScript `toUpperCase()` on ASCII letters. */
  function Upper(s: string): (r: string)
    ensures |r| == |s|
    ensures forall i :: 0 <= i < |s| ==> r[i] == UpperChar(s[i])
  {
    if s == [] then [] else [UpperChar(s[0])] + Upper(s[1..])
  }

  /** Python `str.lower()` on ASCII letters. */
  function Lower(s: string): (r: string)
    ensures |r| == |s|
    ensures forall i :: 0 <= i < |s| ==> r[i] == LowerChar(s[i])
  {
    if s == [] then [] else [LowerChar(s[0])] + Lower(s[1..])
  }

  /** Upper-casing twice is upper-casing once, and the result holds no
      lower-case letter. */
  lemma UpperIdempotent(s: string)
    ensures Upper(Upper(s)) == Upper(s)
    ensures forall i :: 0 <= i < |s| ==> !IsLower(Upper(s)[i])
  {
  }

  /** Upper-casing distributes over concatenation. */
  lemma {:induction false} UpperConcat(a: string, b: string)
    ensures Upper(a + b) == Upper(a) + Upper(b)
  {
    if a != [] {
      assert (a + b)[1..] == a[1..] + b;
      UpperConcat(a[1..], b);
    }
  }

  /** Characters Python's `str.strip()` removes (`str.isspace`). */
  predicate PySpace(c: char) {
    var n := c as int;
    n == 0x20 || 0x09 <= n <= 0x0D || 0x1C <= n <= 0x1F || n == 0x85 || n == 0xA0
    || n == 0x1680 || 0x2000 <= n <= 0x200A || n == 0x2028 || n == 0x2029
    || n == 0x202F || n == 0x205F || n == 0x3000
  }

  /** Characters JavaScript's `String.prototype.trim()` removes. */
  predicate JsSpace(c: char) {
    var n := c as int;
    n == 0x20 || 0x09 <= n <= 0x0D || n == 0xA0 || n == 0xFEFF
    || n == 0x1680 || 0x2000 <= n <= 0x200A || n == 0x2028 || n == 0x2029
    || n == 0x202F || n == 0x205F || n == 0x3000
  }

  /** Upper-casing neither makes nor removes whitespace. */
  lemma UpperCharSpace(c: char)
    ensures PySpace(UpperChar(c)) == PySpace(c)
    ensures JsSpace(UpperChar(c)) == JsSpace(c)
  {
  }

  /** Number of leading characters of `s` satisfying `p`. */
  function Leading(s: string, p: char -> bool): (n: nat)
    ensures n <= |s|
    ensures forall k :: 0 <= k < n ==> p(s[k])
    ensures n < |s| ==> !p(s[n])
  {
    if s == [] || !p(s[0]) then 0 else 1 + Leading(s[1..], p)
  }

  /** Upper-casing keeps the run of leading white space. */
  lemma {:induction false} LeadingUpper(s: string)
    ensures Leading(Upper(s), PySpace) == Leading(s, PySpace)
  {
    if s != [] {
      UpperCharSpace(s[0]);
      assert Upper(s)[1..] == Upper(s[1..]);
      LeadingUpper(s[1..]);
    }
  }

  /** Number of trailing characters of `s` satisfying `p`. */
  function Trailing(s: string, p: char -> bool): (n: nat)
    ensures n <= |s|
    ensures forall k :: |s| - n <= k < |s| ==> p(s[k])
    ensures n < |s| ==> !p(s[|s| - n - 1])
  {
    if s == [] || !p(s[|s| - 1]) then 0 else 1 + Trailing(s[..|s| - 1], p)
  }

  /** `s` without the leading characters satisfying `p`. */
  function TrimStart(s: string, p: char -> bool): (r: string)
    ensures r == s[Leading(s, p)..]
  {
    s[Leading(s, p)..]
  }

  /** Strip both ends: Python `strip()` with `PySpace`, JavaScript `trim()`
      with `JsSpace`. The result is empty exactly when every character is
      whitespace, and otherwise starts and ends with a non-space. */
  function Trim(s: string, p: char -> bool): (r: string)
    ensures |r| <= |s|
    ensures r == [] <==> forall k :: 0 <= k < |s| ==> p(s[k])
    ensures r != [] ==> !p(r[0]) && !p(r[|r| - 1])
    ensures Leading(s, p) + |r| <= |s|
    ensures r == s[Leading(s, p)..Leading(s, p) + |r|]
    ensures forall k :: Leading(s, p) + |r| <= k < |s| ==> p(s[k])
  {
    var t := TrimStart(s, p);
    var n := Leading(s, p);
    var r := t[..|t| - Trailing(t, p)];
    assert forall k :: n + |r| <= k < |s| ==> s[k] == t[k - n];
    r
  }

  /** Trimming a string that has no whitespace at either end changes nothing. */
  lemma TrimNoOp(s: string, p: char -> bool)
    requires s != [] ==> !p(s[0]) && !p(s[|s| - 1])
    ensures Trim(s, p) == s
  {
  }

  /** Python `s.replace(c, "")`: every `c` removed, all else kept in order. */
  function RemoveAll(s: string, c: char): (r: string)
    ensures c !in r
    ensures |r| <= |s|
    ensures forall x :: x != c ==> multiset(r)[x] == multiset(s)[x]
  {
    if s == [] then []
    else if s[0] == c then
      assert s == [s[0]] + s[1..];
      RemoveAll(s[1..], c)
    else
      assert s == [s[0]] + s[1..];
      [s[0]] + RemoveAll(s[1..], c)
  }

  /** Removal distributes over concatenation. */
  lemma {:induction false} RemoveAllConcat(a: string, b: string, c: char)
    ensures RemoveAll(a + b, c) == RemoveAll(a, c) + RemoveAll(b, c)
  {
    if a == [] {
      assert a + b == b;
    } else {
      assert (a + b)[0] == a[0] && (a + b)[1..] == a[1..] + b;
      RemoveAllConcat(a[1..], b, c);
      if a[0] != c {
        assert RemoveAll(a + b, c) == [a[0]] + RemoveAll(a[1..] + b, c);
      }
    }
  }

  /** A string without `c` is left as it is. */
  lemma {:induction false} RemoveAllAbsent(s: string, c: char)
    requires c !in s
    ensures RemoveAll(s, c) == s
  {
    if s != [] {
      RemoveAllAbsent(s[1..], c);
    }
  }

  /** Python `s.replace(c, rep)` for a one-character pattern. */
  function ReplaceAll(s: string, c: char, rep: string): (r: string)
    ensures c !in rep ==> c !in r
    ensures c !in s ==> r == s
    ensures |r| >= |s| - multiset(s)[c]
  {
    if s == [] then []
    else if s[0] == c then
      assert s == [s[0]] + s[1..];
      rep + ReplaceAll(s[1..], c, rep)
    else
      assert s == [s[0]] + s[1..];
      [s[0]] + ReplaceAll(s[1..], c, rep)
  }

  /** A lone `c` becomes `rep`, and any other character stays. */
  lemma ReplaceAllSingle(x: char, c: char, rep: string)
    ensures ReplaceAll([x], c, rep) == if x == c then rep else [x]
  {
    assert [x][1..] == [];
  }

  /** Replacement distributes over concatenation, so with
      `ReplaceAllSingle` it fixes the result character by character. */
  lemma {:induction false} ReplaceAllConcat(a: string, b: string, c: char, rep: string)
    ensures ReplaceAll(a + b, c, rep) == ReplaceAll(a, c, rep) + ReplaceAll(b, c, rep)
  {
    if a == [] {
      assert a + b == b;
    } else {
      assert (a + b)[0] == a[0] && (a + b)[1..] == a[1..] + b;
      ReplaceAllConcat(a[1..], b, c, rep);
    }
  }
}
