/*
 * The few Python built-in behaviours the modelled scripts rely on:
 * `None` (as Option), a raised `ValueError` (as an Outcome value) and
 * `str.upper()` restricted to ASCII.
 */
module Builtins {

  /** A value that may be Python's `None`. */
  datatype Option<+T> = None | Some(value: T)

  /** The result of a property setter: it either returns normally or raises `ValueError`. */
  datatype Outcome = Ok | ValueError(message: string)

  predicate IsLowerAscii(c: char) {
    'a' <= c <= 'z'
  }

  /** `c.upper()` for an ASCII character: lower-case letters move to upper case, all else stays. */
  function UpperChar(c: char): (u: char)
    ensures !IsLowerAscii(u)
    ensures IsLowerAscii(c) ==> u as int == c as int - 32
    ensures !IsLowerAscii(c) ==> u == c
  {
    if IsLowerAscii(c) then (c as int - 32) as char else c
  }

  /** `s.upper()` for ASCII text, character by character. */
  function Upper(s: string): (r: string)
    ensures |r| == |s|
    ensures forall i :: 0 <= i < |s| ==> r[i] == UpperChar(s[i])
  {
    if s == [] then [] else [UpperChar(s[0])] + Upper(s[1..])
  }

  /** Upper-casing distributes over concatenation. */
  lemma UpperAppend(a: string, b: string)
    ensures Upper(a + b) == Upper(a) + Upper(b)
  {
    var l, r := Upper(a + b), Upper(a) + Upper(b);
    assert |l| == |r|;
    forall i | 0 <= i < |l| ensures l[i] == r[i] {
      if i < |a| {
        assert (a + b)[i] == a[i];
      } else {
        assert (a + b)[i] == b[i - |a|];
      }
    }
  }

  /** Upper-casing twice is upper-casing once. */
  lemma UpperIdempotent(s: string)
    ensures Upper(Upper(s)) == Upper(s)
  {
    var u := Upper(s);
    forall i | 0 <= i < |s| ensures Upper(u)[i] == u[i] {
      assert !IsLowerAscii(u[i]);
    }
  }
}
