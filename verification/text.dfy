/** Characters and string helpers shared by the components.

    Character classes are those of Python 3 restricted as follows:
    letters and digits (`str.isalnum`, `\w`, `\d`) and lower-casing are ASCII only;
    whitespace is the complete list of characters for which `str.isspace`
    holds (the same set `\s`, `str.strip` and `str.split` use). */
module Text {

  datatype Option<T> = None | Some(value: T)

  /** `str.isspace` of Python 3. */
  predicate IsSpace(c: char)
  {
    c == ' ' || ('\t' <= c <= '\r') || ('\U{1C}' <= c <= '\U{1F}')
    || c == '\U{85}' || c == '\U{A0}' || c == '\U{1680}'
    || ('\U{2000}' <= c <= '\U{200A}') || c == '\U{2028}' || c == '\U{2029}'
    || c == '\U{202F}' || c == '\U{205F}' || c == '\U{3000}'
  }

  predicate IsDigit(c: char) { '0' <= c <= '9' }

  predicate IsAlpha(c: char) { ('a' <= c <= 'z') || ('A' <= c <= 'Z') }

  predicate IsAlnum(c: char) { IsAlpha(c) || IsDigit(c) }

  predicate NotSpace(c: char) { !IsSpace(c) }

  function DigitValue(c: char): (d: nat)
    requires IsDigit(c)
    ensures d < 10
  {
    c as int - '0' as int
  }

  /** `str.lower` on one character. */
  function ToLower(c: char): (l: char)
    ensures IsAlpha(c) ==> 'a' <= l <= 'z'
    ensures !('A' <= c <= 'Z') ==> l == c
  {
    if 'A' <= c <= 'Z' then (c as int + 32) as char else c
  }

  function Lower(s: string): (r: string)
    ensures |r| == |s|
    ensures forall i :: 0 <= i < |s| ==> r[i] == ToLower(s[i])
  {
    seq(|s|, i requires 0 <= i < |s| => ToLower(s[i]))
  }

  /** Lower-casing twice is lower-casing once. */
  lemma LowerIdempotent(s: string)
    ensures Lower(Lower(s)) == Lower(s)
  {
    forall i | 0 <= i < |s| ensures Lower(Lower(s))[i] == Lower(s)[i] {
      assert Lower(s)[i] == ToLower(s[i]);
    }
  }

  predicate EndsWith(s: string, suffix: string)
  {
    |suffix| <= |s| && s[|s| - |suffix|..] == suffix
  }

  /** Length of the longest run of characters satisfying `p` that starts at `j`. */
  function SpanLen(s: string, j: nat, p: char -> bool): (n: nat)
    requires j <= |s|
    ensures j + n <= |s|
    ensures forall k :: j <= k < j + n ==> p(s[k])
    ensures j + n == |s| || !p(s[j + n])
    decreases |s| - j
  {
    if j < |s| && p(s[j]) then 1 + SpanLen(s, j + 1, p) else 0
  }

  /** A run that is bounded by the end of the string or by a character outside
      `p` is the longest one. */
  lemma SpanLenExact(s: string, j: nat, n: nat, p: char -> bool)
    requires j + n <= |s|
    requires forall k :: j <= k < j + n ==> p(s[k])
    requires j + n == |s| || !p(s[j + n])
    ensures SpanLen(s, j, p) == n
  {
  }

  /** Start of the whitespace run that ends at `j`: scanning back from `j`,
      the first position not preceded by whitespace. */
  function TrailStart(s: string, j: nat): (b: nat)
    requires j <= |s|
    ensures b <= j
    ensures forall i :: b <= i < j ==> IsSpace(s[i])
    ensures b == 0 || !IsSpace(s[b - 1])
  {
    if j > 0 && IsSpace(s[j - 1]) then TrailStart(s, j - 1) else j
  }

  /** `str.rstrip()` with no argument. */
  function RStrip(s: string): (r: string)
    ensures r <= s
    ensures r == [] || !IsSpace(r[|r| - 1])
    ensures forall i :: |r| <= i < |s| ==> IsSpace(s[i])
  {
    s[..TrailStart(s, |s|)]
  }

  /** `r` is `s[a..b]` and everything of `s` outside that slice is whitespace. */
  ghost predicate IsSpaceTrimmed(s: string, r: string, a: nat, b: nat)
  {
    && a <= b <= |s| && r == s[a..b]
    && (forall i :: 0 <= i < a ==> IsSpace(s[i]))
    && (forall i :: b <= i < |s| ==> IsSpace(s[i]))
  }

  /** `str.strip()` with no argument. */
  function Strip(s: string): string
  {
    var a := SpanLen(s, 0, IsSpace);
    if a == |s| then [] else s[a..TrailStart(s, |s|)]
  }

  /** Strip removes exactly the leading and the trailing whitespace: what it
      keeps is a slice of `s` that neither starts nor ends with whitespace,
      and everything outside that slice is whitespace. */
  lemma StripSpec(s: string)
    ensures var r := Strip(s);
            && (r == [] || (!IsSpace(r[0]) && !IsSpace(r[|r| - 1])))
            && exists a: nat, b: nat :: IsSpaceTrimmed(s, r, a, b)
  {
    var a := SpanLen(s, 0, IsSpace);
    var b := TrailStart(s, |s|);
    if a == |s| {
      assert IsSpaceTrimmed(s, [], 0, 0);
    } else {
      assert a < b;
      assert IsSpaceTrimmed(s, s[a..b], a, b);
    }
  }

  /** Python's `str(n)` for an integer. */
  function IntToString(n: int): (r: string)
    ensures r != []
    ensures n < 0 <==> r[0] == '-'
  {
    if n < 0 then "-" + NatToString(-n) else NatToString(n)
  }

  function NatToString(n: nat): (r: string)
    ensures r != []
    ensures forall i :: 0 <= i < |r| ==> IsDigit(r[i])
  {
    var last := ['0' + (n % 10) as char];
    if n < 10 then last else NatToString(n / 10) + last
  }

  /** Lets a caller regroup a concatenation without an extensionality proof. */
  lemma AppendAssoc<T>(a: seq<T>, b: seq<T>, c: seq<T>)
    ensures (a + b) + c == a + (b + c)
  {
  }
}
