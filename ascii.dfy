/** Python's `str` case mapping and whitespace stripping, restricted to ASCII:
    characters outside ASCII are left unchanged by the case mappings. */
module Ascii {

  predicate IsUpper(c: char) { 'A' <= c <= 'Z' }
  predicate IsLower(c: char) { 'a' <= c <= 'z' }
  predicate IsLetter(c: char) { IsUpper(c) || IsLower(c) }

  /** The characters `str.isspace()` accepts in the ASCII range. */
  predicate IsSpace(c: char) { c == ' ' || '\t' <= c <= '\r' || '\U{1C}' <= c <= '\U{1F}' }

  /** `c.upper()` on one character: a lower-case letter is moved 32 code
      points down to its upper-case form; everything else is unchanged. */
  function ToUpper(c: char): (r: char)
    ensures IsLower(c) ==> IsUpper(r) && r as int == c as int - 32
    ensures !IsLower(c) ==> r == c
    ensures IsLetter(c) <==> IsLetter(r)
  {
    if IsLower(c) then (c as int - 32) as char else c
  }

  /** `c.lower()` on one character: an upper-case letter is moved 32 code
      points up to its lower-case form; everything else is unchanged. */
  function ToLower(c: char): (r: char)
    ensures IsUpper(c) ==> IsLower(r) && r as int == c as int + 32
    ensures !IsUpper(c) ==> r == c
    ensures IsLetter(c) <==> IsLetter(r)
  {
    if IsUpper(c) then (c as int + 32) as char else c
  }

  /** Upper- and lower-casing a letter are inverse to each other, and each is idempotent. */
  lemma CaseRoundTrip(c: char)
    ensures IsLower(c) ==> ToLower(ToUpper(c)) == c
    ensures IsUpper(c) ==> ToUpper(ToLower(c)) == c
    ensures ToLower(ToLower(c)) == ToLower(c) && ToUpper(ToUpper(c)) == ToUpper(c)
  {
  }

  /** `s.lower()` */
  function Lower(s: string): (r: string)
    ensures |r| == |s| && forall i :: 0 <= i < |s| ==> r[i] == ToLower(s[i])
    ensures forall i :: 0 <= i < |r| ==> !IsUpper(r[i])
  {
    seq(|s|, i requires 0 <= i < |s| => ToLower(s[i]))
  }

  /** Lower-casing twice is lower-casing once. */
  lemma LowerIdempotent(s: string)
    ensures Lower(Lower(s)) == Lower(s)
  {
    forall i | 0 <= i < |s| ensures Lower(Lower(s))[i] == Lower(s)[i] {
      CaseRoundTrip(s[i]);
    }
  }

  /** `s.capitalize()`: the first character upper case, every other one lower case. */
  function Capitalize(s: string): (r: string)
    ensures |r| == |s|
  {
    if s == [] then [] else [ToUpper(s[0])] + Lower(s[1..])
  }

  /** Each character of `capitalize()` is the input's character there, upper-
      cased at index 0 and lower-cased elsewhere; so only a leading letter is
      upper case and non-letters are kept. */
  lemma {:induction false} CapitalizeShape(s: string)
    ensures |Capitalize(s)| == |s|
    ensures forall i :: 0 <= i < |s| ==> Capitalize(s)[i] == if i == 0 then ToUpper(s[i]) else ToLower(s[i])
    ensures forall i :: 0 <= i < |s| && IsLetter(s[i]) ==>
      IsLetter(Capitalize(s)[i]) && (IsUpper(Capitalize(s)[i]) <==> i == 0)
    ensures forall i :: 0 <= i < |s| && !IsLetter(s[i]) ==> Capitalize(s)[i] == s[i]
  {
    if s != [] {
      forall i | 1 <= i < |s| ensures Capitalize(s)[i] == ToLower(s[i]) {
        assert Capitalize(s)[i] == Lower(s[1..])[i - 1];
      }
    }
  }

  /** The number of whitespace characters `s.strip()` removes at the front. */
  function LeadingSpaces(s: string): (n: nat)
    ensures n <= |s|
    ensures forall i :: 0 <= i < n ==> IsSpace(s[i])
    ensures n < |s| ==> !IsSpace(s[n])
  {
    if s != [] && IsSpace(s[0]) then 1 + LeadingSpaces(s[1..]) else 0
  }

  /** The number of whitespace characters `s.strip()` removes at the back. */
  function TrailingSpaces(s: string): (n: nat)
    ensures n <= |s|
    ensures forall i :: |s| - n <= i < |s| ==> IsSpace(s[i])
    ensures n < |s| ==> !IsSpace(s[|s| - n - 1])
  {
    if s != [] && IsSpace(s[|s| - 1]) then 1 + TrailingSpaces(s[..|s| - 1]) else 0
  }

  /** `s.strip()` */
  function Strip(s: string): (r: string)
    ensures r == [] <==> forall i :: 0 <= i < |s| ==> IsSpace(s[i])
    ensures r != [] ==> !IsSpace(r[0]) && !IsSpace(r[|r| - 1])
    ensures LeadingSpaces(s) + |r| <= |s| && r == s[LeadingSpaces(s)..LeadingSpaces(s) + |r|]
    ensures forall i :: LeadingSpaces(s) + |r| <= i < |s| ==> IsSpace(s[i])
  {
    var lead := LeadingSpaces(s);
    var rest := s[lead..];
    var r := rest[..|rest| - TrailingSpaces(rest)];
    assert r == s[lead..lead + |r|];
    assert forall i :: lead + |r| <= i < |s| ==> s[i] == rest[i - lead];
    r
  }

  /** Text with no whitespace at either end is its own `strip()`. */
  lemma StripTrimmed(s: string)
    requires s != [] && !IsSpace(s[0]) && !IsSpace(s[|s| - 1])
    ensures Strip(s) == s
  {
    assert LeadingSpaces(s) == 0;
    assert s[0..] == s;
    assert TrailingSpaces(s) == 0;
  }
}
