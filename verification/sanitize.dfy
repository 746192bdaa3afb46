/** `sanitize_filename`: keeps the characters that may appear in a file name
    (letters, digits, space, underscore, hyphen), in their order, then drops
    trailing whitespace. */
module Sanitize {
  import opened Text

  predicate Allowed(c: char)
  {
    IsAlnum(c) || c == ' ' || c == '_' || c == '-'
  }

  /** `a` can be obtained from `b` by deleting characters. */
  predicate IsSubsequence(a: string, b: string)
    decreases |b|
  {
    if a == [] then true
    else if b == [] then false
    else if a[0] == b[0] then IsSubsequence(a[1..], b[1..])
    else IsSubsequence(a, b[1..])
  }

  lemma {:induction false} SubsequenceOfPrefix(p: string, a: string, b: string)
    requires IsSubsequence(a, b)
    requires p <= a
    ensures IsSubsequence(p, b)
    decreases |b|
  {
    if p != [] {
      assert a != [] && b != [];
      if a[0] == b[0] {
        SubsequenceOfPrefix(p[1..], a[1..], b[1..]);
      } else {
        SubsequenceOfPrefix(p, a, b[1..]);
      }
    }
  }

  /** The generator expression of the sanitiser: the allowed characters of `s`. */
  function KeepAllowed(s: string): (r: string)
    ensures forall i :: 0 <= i < |r| ==> Allowed(r[i])
    ensures IsSubsequence(r, s)
  {
    if s == [] then []
    else if Allowed(s[0]) then [s[0]] + KeepAllowed(s[1..])
    else KeepAllowed(s[1..])
  }

  /** Filtering distributes over concatenation; with KeepAllowed of one
      character this pins the filter down completely. */
  lemma {:induction false} KeepAllowedAppend(a: string, b: string)
    ensures KeepAllowed(a + b) == KeepAllowed(a) + KeepAllowed(b)
  {
    if a == [] {
      assert a + b == b;
    } else {
      assert (a + b)[1..] == a[1..] + b;
      KeepAllowedAppend(a[1..], b);
    }
  }

  /** A string made only of allowed characters is left as it is. */
  lemma {:induction false} KeepAllowedOfAllowed(s: string)
    requires forall i :: 0 <= i < |s| ==> Allowed(s[i])
    ensures KeepAllowed(s) == s
  {
    if s != [] {
      KeepAllowedOfAllowed(s[1..]);
    }
  }

  function SanitizeFilename(name: string): (r: string)
    ensures forall i :: 0 <= i < |r| ==> Allowed(r[i])
    ensures r == [] || !IsSpace(r[|r| - 1])
    ensures IsSubsequence(r, name)
  {
    var kept := KeepAllowed(name);
    var r := RStrip(kept);
    SubsequenceOfPrefix(r, kept, name);
    r
  }

  /** Everything allowed in `name` survives except a trailing run of spaces. */
  lemma SanitizeKeepsAllowed(name: string)
    ensures SanitizeFilename(name) <= KeepAllowed(name)
    ensures forall i :: |SanitizeFilename(name)| <= i < |KeepAllowed(name)| ==> KeepAllowed(name)[i] == ' '
  {
    var kept := KeepAllowed(name);
    var r := SanitizeFilename(name);
    forall i | |r| <= i < |kept| ensures kept[i] == ' ' {
      assert IsSpace(kept[i]) && Allowed(kept[i]);
    }
  }

  lemma SanitizeIdempotent(name: string)
    ensures SanitizeFilename(SanitizeFilename(name)) == SanitizeFilename(name)
  {
    var r := SanitizeFilename(name);
    KeepAllowedOfAllowed(r);
  }
}
