/**
 * Bytes and "binary strings": a JavaScript string in which every character
 * stands for one byte (its code unit is the byte's value).  `String.fromCharCode`
 * and `charCodeAt` convert between the two.
 */
module Bytes {

  /** One element of a `Uint8Array`. */
  type Byte = x: int | 0 <= x < 256

  /** True of a string every character of which has a code below 256. */
  predicate IsBinaryString(s: string) {
    forall i :: 0 <= i < |s| ==> s[i] as int < 256
  }

  /** `String.fromCharCode(b[0]) + String.fromCharCode(b[1]) + ...` */
  function Latin1(b: seq<Byte>): (s: string)
    ensures |s| == |b|
    ensures IsBinaryString(s)
  {
    seq(|b|, i requires 0 <= i < |b| => b[i] as char)
  }

  /** `s.charCodeAt(0), s.charCodeAt(1), ...` for a binary string. */
  function Codes(s: string): (b: seq<Byte>)
    requires IsBinaryString(s)
    ensures |b| == |s|
  {
    seq(|s|, i requires 0 <= i < |s| => s[i] as int)
  }

  /** Reading the codes back from the binary string of `b` gives `b`. */
  lemma CodesOfLatin1(b: seq<Byte>)
    ensures Codes(Latin1(b)) == b
  {
  }

  /** A binary string is the one built from its own codes. */
  lemma Latin1OfCodes(s: string)
    requires IsBinaryString(s)
    ensures Latin1(Codes(s)) == s
  {
  }

  lemma Latin1Append(a: seq<Byte>, x: Byte)
    ensures Latin1(a + [x]) == Latin1(a) + [x as char]
  {
  }
}
