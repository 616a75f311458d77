/** Case folding of strings, as Python's `str.lower` does it for ASCII text. */
module Text {

  predicate IsUpper(c: char) {
    'A' <= c <= 'Z'
  }

  /** The lower-case form of one character: an upper-case ASCII letter gets 32 added to its code point. */
  function LowerChar(c: char): char {
    if IsUpper(c) then (c as int + 32) as char else c
  }

  /** A string in which no upper-case letter occurs. */
  predicate NoUpper(s: string) {
    forall i :: 0 <= i < |s| ==> !IsUpper(s[i])
  }

  /** `s.lower()`: every upper-case letter replaced by its lower-case form, every other character kept. */
  function Lower(s: string): (r: string)
    ensures |r| == |s|
    ensures forall i :: 0 <= i < |s| && IsUpper(s[i]) ==> r[i] as int == s[i] as int + 32
    ensures forall i :: 0 <= i < |s| && !IsUpper(s[i]) ==> r[i] == s[i]
    ensures NoUpper(r)
  {
    if s == [] then [] else [LowerChar(s[0])] + Lower(s[1..])
  }

  /** Lowering a string that has no upper-case letter changes nothing. */
  lemma {:induction false} LowerOfNoUpper(s: string)
    requires NoUpper(s)
    ensures Lower(s) == s
  {
    if s != [] {
      LowerOfNoUpper(s[1..]);
    }
  }

  /** Lowering twice is lowering once. */
  lemma LowerIdempotent(s: string)
    ensures Lower(Lower(s)) == Lower(s)
  {
    LowerOfNoUpper(Lower(s));
  }
}
