/** The few JavaScript string operations the core relies on, over `seq<char>`. */
module Strings {

  /** `/\s/` in a JavaScript regular expression, which is also the set `String.prototype.trim` removes. */
  predicate IsJsWhitespace(c: char)
  {
    || c == '\t' || c == '\n' || c == '\U{B}' || c == '\U{C}' || c == '\r' || c == ' '
    || c == '\U{A0}' || c == '\U{1680}' || ('\U{2000}' <= c <= '\U{200A}')
    || c == '\U{2028}' || c == '\U{2029}' || c == '\U{202F}' || c == '\U{205F}'
    || c == '\U{3000}' || c == '\U{FEFF}'
  }

  /** `s.includes(sub)`; the empty string is contained in every string. */
  predicate Contains(s: string, sub: string)
    decreases |s|
  {
    sub <= s || (|s| > 0 && Contains(s[1..], sub))
  }

  lemma {:induction false} ContainsAt(s: string, sub: string, i: nat)
    requires i + |sub| <= |s| && s[i..i + |sub|] == sub
    ensures Contains(s, sub)
    decreases i
  {
    if i == 0 {
      assert s[..|sub|] == sub;
    } else {
      assert s[1..][i - 1..i - 1 + |sub|] == s[i..i + |sub|];
      ContainsAt(s[1..], sub, i - 1);
    }
  }

  /** `sub` occurs in `s` starting at index `i`. */
  predicate OccursAt(s: string, sub: string, i: int)
  {
    0 <= i && i + |sub| <= |s| && s[i..i + |sub|] == sub
  }

  /** `includes` is "occurs at some index". */
  lemma {:induction false} ContainsOccurs(s: string, sub: string)
    ensures Contains(s, sub) <==> exists i :: OccursAt(s, sub, i)
    decreases |s|
  {
    if sub <= s {
      assert OccursAt(s, sub, 0);
    } else if |s| > 0 {
      ContainsOccurs(s[1..], sub);
      assert !OccursAt(s, sub, 0);
      forall i | OccursAt(s[1..], sub, i) ensures OccursAt(s, sub, i + 1) {
        assert s[i + 1..i + 1 + |sub|] == s[1..][i..i + |sub|];
      }
      forall i | OccursAt(s, sub, i) ensures OccursAt(s[1..], sub, i - 1) {
        assert s[1..][i - 1..i - 1 + |sub|] == s[i..i + |sub|];
      }
    }
  }

  /** A string lacking the first character of `sub` does not include `sub`. */
  lemma NotContainsWithoutFirstChar(s: string, sub: string)
    requires |sub| > 0 && sub[0] !in s
    ensures !Contains(s, sub)
  {
    ContainsOccurs(s, sub);
    forall i | 0 <= i && i + |sub| <= |s| ensures !OccursAt(s, sub, i) {
      assert s[i..i + |sub|][0] == s[i];
    }
  }

  /** `s.includes(x + y + z)` for a string assembled around `y`. */
  lemma ContainsMiddle(x: string, y: string, z: string)
    ensures Contains(x + y + z, y)
  {
    assert (x + y + z)[|x|..|x| + |y|] == y;
    ContainsAt(x + y + z, y, |x|);
  }

  /** Both halves of a concatenation are included in it. */
  lemma ContainsHalves(x: string, y: string)
    ensures Contains(x + y, x) && Contains(x + y, y)
  {
    assert (x + y)[0..|x|] == x;
    ContainsAt(x + y, x, 0);
    assert (x + y)[|x|..|x| + |y|] == y;
    ContainsAt(x + y, y, |x|);
  }

  /** What is included in an included string is included. */
  lemma ContainsTransitive(a: string, b: string, c: string)
    requires Contains(a, b) && Contains(b, c)
    ensures Contains(a, c)
  {
    ContainsOccurs(a, b);
    ContainsOccurs(b, c);
    var i :| OccursAt(a, b, i);
    var j :| OccursAt(b, c, j);
    assert a[i..i + |b|] == b;
    forall k | 0 <= k < |c| ensures a[i + j + k] == c[k] {
      assert a[i + j + k] == a[i..i + |b|][j + k] == b[j + k];
      assert c[k] == b[j..j + |c|][k];
    }
    assert a[i + j..i + j + |c|] == c;
    ContainsAt(a, c, i + j);
  }

  /** `s.lastIndexOf(c)`: the last index holding `c`, or -1. */
  function LastIndexOf(s: string, c: char): (r: int)
    ensures -1 <= r < |s|
    ensures r >= 0 ==> s[r] == c
    ensures forall j :: r < j < |s| ==> s[j] != c
    decreases |s|
  {
    if |s| == 0 then -1
    else if s[|s| - 1] == c then |s| - 1
    else LastIndexOf(s[..|s| - 1], c)
  }

  /** The end of the run of whitespace that starts at index `i`. */
  function WhitespaceRunEnd(s: string, i: nat): (k: nat)
    requires i <= |s|
    ensures i <= k <= |s|
    ensures forall j :: i <= j < k ==> IsJsWhitespace(s[j])
    ensures k == |s| || !IsJsWhitespace(s[k])
    decreases |s| - i
  {
    if i < |s| && IsJsWhitespace(s[i]) then WhitespaceRunEnd(s, i + 1) else i
  }

  /** The start of the run of whitespace that ends just before index `m`. */
  function WhitespaceRunStart(s: string, m: nat): (k: nat)
    requires m <= |s|
    ensures k <= m
    ensures forall j :: k <= j < m ==> IsJsWhitespace(s[j])
    ensures k == 0 || !IsJsWhitespace(s[k - 1])
    decreases m
  {
    if m > 0 && IsJsWhitespace(s[m - 1]) then WhitespaceRunStart(s, m - 1) else m
  }

  /**
   * `s.trim()`: the input less its leading and trailing whitespace. The result is a slice whose ends
   * are not whitespace and outside which every character is; `TrimCharacterised` shows that such a
   * slice is unique.
   */
  function Trim(s: string): (r: string)
    ensures |r| <= |s|
    ensures r == [] || (!IsJsWhitespace(r[0]) && !IsJsWhitespace(r[|r| - 1]))
    ensures exists k: nat, m: nat :: TrimmedSlice(s, k, m) && r == s[k..m]
  {
    var k := WhitespaceRunEnd(s, 0);
    if k == |s| then
      assert TrimmedSlice(s, k, k);
      []
    else
      var m := WhitespaceRunStart(s, |s|);
      assert k < m;
      assert TrimmedSlice(s, k, m);
      s[k..m]
  }

  /** The slice that `Trim` keeps, with whitespace only on either side of it. */
  predicate TrimSlice(s: string, k: nat, m: nat)
  {
    && k <= m <= |s|
    && (forall j :: 0 <= j < k ==> IsJsWhitespace(s[j]))
    && (forall j :: m <= j < |s| ==> IsJsWhitespace(s[j]))
  }

  /** A non-whitespace character lies at or past every all-whitespace prefix. */
  lemma PastWhitespacePrefix(s: string, k: nat, i: nat)
    requires k <= |s| && forall j :: 0 <= j < k ==> IsJsWhitespace(s[j])
    requires i < |s| && !IsJsWhitespace(s[i])
    ensures k <= i
  {
  }

  /** A non-whitespace character lies before every all-whitespace suffix. */
  lemma BeforeWhitespaceSuffix(s: string, m: nat, i: nat)
    requires forall j :: m <= j < |s| ==> IsJsWhitespace(s[j])
    requires i < |s| && !IsJsWhitespace(s[i])
    ensures i < m
  {
  }

  /** A slice that `TrimSlice` allows and whose ends are not whitespace (or that is empty). */
  predicate TrimmedSlice(s: string, k: nat, m: nat)
  {
    TrimSlice(s, k, m) && (k == m || (!IsJsWhitespace(s[k]) && !IsJsWhitespace(s[m - 1])))
  }

  /** There is only one such slice, up to where an empty one sits. */
  lemma TrimmedSliceUnique(s: string, k: nat, m: nat, k': nat, m': nat)
    requires TrimmedSlice(s, k, m) && TrimmedSlice(s, k', m')
    ensures s[k..m] == s[k'..m']
  {
    if k' < m' {
      PastWhitespacePrefix(s, k, k');
      BeforeWhitespaceSuffix(s, m, m' - 1);
      if k < m {
        PastWhitespacePrefix(s, k', k);
        BeforeWhitespaceSuffix(s, m', m - 1);
      }
    } else if k < m {
      PastWhitespacePrefix(s, k', k);
      BeforeWhitespaceSuffix(s, m', k);
    }
  }

  /** Any slice with non-whitespace ends and only whitespace outside it is the trim. */
  lemma TrimCharacterised(s: string, k: nat, m: nat)
    requires TrimmedSlice(s, k, m)
    ensures Trim(s) == s[k..m]
  {
    var k': nat, m': nat :| TrimmedSlice(s, k', m') && Trim(s) == s[k'..m'];
    TrimmedSliceUnique(s, k, m, k', m');
  }

  /** A string without whitespace at either end is its own trim. */
  lemma TrimmedAlready(s: string)
    requires s == [] || (!IsJsWhitespace(s[0]) && !IsJsWhitespace(s[|s| - 1]))
    ensures Trim(s) == s
  {
  }

  function DigitChar(d: nat): (c: char)
    requires d < 10
    ensures '0' <= c <= '9'
  {
    "0123456789"[d]
  }

  /** The decimal text JavaScript writes for a non-negative integer in a template literal. */
  function NatToString(n: nat): (s: string)
    ensures |s| > 0
    ensures forall i :: 0 <= i < |s| ==> '0' <= s[i] <= '9'
    decreases n
  {
    if n < 10 then [DigitChar(n)] else NatToString(n / 10) + [DigitChar(n % 10)]
  }

  /** The decimal text of any integer: a minus sign, then the digits of its magnitude. */
  function IntToString(n: int): (s: string)
    ensures |s| > 0
  {
    if n < 0 then "-" + NatToString(-n) else NatToString(n)
  }

  /** The value of a string of decimal digits: NatToString's inverse. */
  function DecimalValue(s: string): nat
    requires forall i :: 0 <= i < |s| ==> '0' <= s[i] <= '9'
  {
    if s == [] then 0 else DecimalValue(s[..|s| - 1]) * 10 + (s[|s| - 1] - '0') as nat
  }

  lemma {:induction false} DecimalRoundTrip(n: nat)
    ensures DecimalValue(NatToString(n)) == n
    decreases n
  {
    var s := NatToString(n);
    if n < 10 {
      assert s[..|s| - 1] == [];
    } else {
      DecimalRoundTrip(n / 10);
      assert s[..|s| - 1] == NatToString(n / 10);
    }
  }

  /** Distinct numbers print differently, so a number can be read back from any text that embeds it. */
  lemma NatToStringInjective(m: nat, n: nat)
    requires NatToString(m) == NatToString(n)
    ensures m == n
  {
    DecimalRoundTrip(m);
    DecimalRoundTrip(n);
  }
}
