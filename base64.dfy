/**
 * The browser's `btoa` and `atob`.  `btoa` encodes a binary string with the
 * Base64 alphabet of section 4 of RFC 4648 (with `=` padding); `atob` is the
 * "forgiving-base64 decode" of the WHATWG Infra standard: it ignores ASCII
 * whitespace, accepts the padding only where it may stand, and discards the
 * leftover bits of the last group.
 */
module Base64 {
  import opened Wrappers
  import opened Bytes

  /** A 6-bit group: the index of one character in the Base64 alphabet. */
  type Sextet = x: int | 0 <= x < 64

  /** The `DOMException` both functions throw. */
  datatype DomError = InvalidCharacterError

  /** Table 1 of RFC 4648: the character of value `v`. */
  function CharOf(v: Sextet): char {
    if v < 26 then (65 + v) as char
    else if v < 52 then (97 + v - 26) as char
    else if v < 62 then (48 + v - 52) as char
    else if v == 62 then '+'
    else '/'
  }

  /** The value of an alphabet character, or `None` for any other character. */
  function SextetOf(c: char): Option<Sextet> {
    if 'A' <= c <= 'Z' then Some(c as int - 65)
    else if 'a' <= c <= 'z' then Some(c as int - 97 + 26)
    else if '0' <= c <= '9' then Some(c as int - 48 + 52)
    else if c == '+' then Some(62)
    else if c == '/' then Some(63)
    else None
  }

  predicate InAlphabet(c: char) { SextetOf(c).Some? }

  function ValueOf(c: char): Sextet
    requires InAlphabet(c)
  {
    SextetOf(c).value
  }

  /** Reading a character back gives the value that chose it. */
  lemma SextetOfCharOf(v: Sextet)
    ensures SextetOf(CharOf(v)) == Some(v)
  {
  }

  /** Alphabet characters are neither padding nor whitespace. */
  lemma AlphabetIsNotSpecial(c: char)
    requires InAlphabet(c)
    ensures c != '=' && !IsAsciiWhitespace(c)
  {
  }

  /**
   * Bytes to 6-bit groups, most significant bits first, without padding: three
   * bytes give four groups, a final two bytes three groups and a final byte two
   * (the missing low bits are zero, section 4 of RFC 4648).
   */
  function ToSextets(b: seq<Byte>): (s: seq<Sextet>)
    ensures |s| == 4 * (|b| / 3) + (if |b| % 3 == 0 then 0 else |b| % 3 + 1)
    decreases |b|
  {
    if |b| == 0 then []
    else if |b| == 1 then [b[0] / 4, (b[0] % 4) * 16]
    else if |b| == 2 then [b[0] / 4, (b[0] % 4) * 16 + b[1] / 16, (b[1] % 16) * 4]
    else [b[0] / 4, (b[0] % 4) * 16 + b[1] / 16, (b[1] % 16) * 4 + b[2] / 64, b[2] % 64]
         + ToSextets(b[3..])
  }

  /** The three bytes of a group of four 6-bit values. */
  function First(a: Sextet, b: Sextet): Byte { a as int * 4 + b as int / 16 }
  function Second(b: Sextet, c: Sextet): Byte { (b as int % 16) * 16 + c as int / 4 }
  function Third(c: Sextet, d: Sextet): Byte { (c as int % 4) * 64 + d as int }

  /** 6-bit groups back to bytes; bits that do not fill a byte are dropped. */
  function FromSextets(s: seq<Sextet>): (b: seq<Byte>)
    requires |s| % 4 != 1
    decreases |s|
  {
    if |s| == 0 then []
    else if |s| == 2 then [First(s[0], s[1])]
    else if |s| == 3 then [First(s[0], s[1]), Second(s[1], s[2])]
    else [First(s[0], s[1]), Second(s[1], s[2]), Third(s[2], s[3])] + FromSextets(s[4..])
  }

  /** Decoding the groups of `b` gives `b` back. */
  lemma {:induction false} FromToSextets(b: seq<Byte>)
    ensures |ToSextets(b)| % 4 != 1
    ensures FromSextets(ToSextets(b)) == b
    decreases |b|
  {
    if |b| < 3 {
      FromToShortGroup(b);
    } else {
      var rest := b[3..];
      FromToSextets(rest);
      var head := [b[0] / 4, (b[0] % 4) * 16 + b[1] / 16, (b[1] % 16) * 4 + b[2] / 64, b[2] % 64];
      assert ToSextets(b) == head + ToSextets(rest);
      FromSextetsGroup(head, ToSextets(rest));
      GroupBytes(b[0], b[1], b[2]);
      assert b == [b[0], b[1], b[2]] + rest;
    }
  }

  /** Decoding a full group of four ahead of the rest. */
  lemma FromSextetsGroup(g: seq<Sextet>, rest: seq<Sextet>)
    requires |g| == 4 && |rest| % 4 != 1
    ensures |g + rest| % 4 != 1
    ensures FromSextets(g + rest) == [First(g[0], g[1]), Second(g[1], g[2]), Third(g[2], g[3])] + FromSextets(rest)
  {
    assert (g + rest)[4..] == rest;
  }

  /** A last group of one or two bytes, padded with zero bits, decodes back to them. */
  lemma FromToShortGroup(b: seq<Byte>)
    requires |b| < 3
    ensures |ToSextets(b)| % 4 != 1
    ensures FromSextets(ToSextets(b)) == b
  {
    if |b| == 1 {
      assert ToSextets(b) == [b[0] / 4, (b[0] % 4) * 16];
      assert First(b[0] / 4, (b[0] % 4) * 16) == b[0];
    } else if |b| == 2 {
      assert ToSextets(b) == [b[0] / 4, (b[0] % 4) * 16 + b[1] / 16, (b[1] % 16) * 4];
      assert First(b[0] / 4, (b[0] % 4) * 16 + b[1] / 16) == b[0];
      assert Second((b[0] % 4) * 16 + b[1] / 16, (b[1] % 16) * 4) == b[1];
    }
  }

  /** The three bytes of one group come back from its four 6-bit values. */
  lemma GroupBytes(x: Byte, y: Byte, z: Byte)
    ensures First(x / 4, (x % 4) * 16 + y / 16) == x
    ensures Second((x % 4) * 16 + y / 16, (y % 16) * 4 + z / 64) == y
    ensures Third((y % 16) * 4 + z / 64, z % 64) == z
  {
  }

  function Chars(s: seq<Sextet>): (r: string)
    ensures |r| == |s|
    ensures forall i :: 0 <= i < |r| ==> InAlphabet(r[i])
  {
    seq(|s|, i requires 0 <= i < |s| => CharOf(s[i]))
  }

  /** The `=` characters that complete the last group of four. */
  function Padding(n: nat): string {
    if n % 3 == 1 then "==" else if n % 3 == 2 then "=" else ""
  }

  /** Base64 encoding of a byte sequence, section 4 of RFC 4648. */
  function Encode(b: seq<Byte>): (s: string)
    ensures |s| == 4 * ((|b| + 2) / 3)
    ensures forall i :: 0 <= i < |s| ==> InAlphabet(s[i]) || s[i] == '='
  {
    Chars(ToSextets(b)) + Padding(|b|)
  }

  /** `btoa`: throws for a character above U+00FF, else encodes the codes. */
  function Btoa(s: string): (r: Result<string, DomError>)
    ensures r.Success? <==> IsBinaryString(s)
  {
    if IsBinaryString(s) then Success(Encode(Codes(s))) else Failure(InvalidCharacterError)
  }

  /** ASCII whitespace: TAB, LF, FF, CR and SPACE. */
  predicate IsAsciiWhitespace(c: char) {
    c == '\t' || c == '\n' || c == '\U{000C}' || c == '\r' || c == ' '
  }

  function StripWhitespace(s: string): (r: string)
    ensures |r| <= |s|
    ensures forall i :: 0 <= i < |r| ==> !IsAsciiWhitespace(r[i]) && r[i] in s
  {
    if s == [] then []
    else (if IsAsciiWhitespace(s[0]) then [] else [s[0]]) + StripWhitespace(s[1..])
  }

  /** When the length is a multiple of four, one or two final `=` are removed. */
  function StripPadding(s: string): string {
    if |s| % 4 == 0 && |s| >= 2 && s[|s| - 2..] == "==" then s[..|s| - 2]
    else if |s| % 4 == 0 && |s| >= 1 && s[|s| - 1] == '=' then s[..|s| - 1]
    else s
  }

  function SextetsOf(s: string): (r: seq<Sextet>)
    requires forall i :: 0 <= i < |s| ==> InAlphabet(s[i])
    ensures |r| == |s|
  {
    seq(|s|, i requires 0 <= i < |s| => ValueOf(s[i]))
  }

  /**
   * `atob`: fails when, after whitespace and padding are removed, the length
   * leaves remainder 1 modulo 4 or a character lies outside the alphabet;
   * otherwise the binary string of the decoded bytes.
   */
  function Atob(s: string): (r: Result<string, DomError>)
    ensures r.Success? ==> IsBinaryString(r.value)
  {
    var d := StripPadding(StripWhitespace(s));
    if |d| % 4 == 1 then Failure(InvalidCharacterError)
    else if exists i :: 0 <= i < |d| && !InAlphabet(d[i]) then Failure(InvalidCharacterError)
    else Success(Latin1(FromSextets(SextetsOf(d))))
  }

  lemma {:induction false} StripWhitespaceNone(s: string)
    requires forall i :: 0 <= i < |s| ==> !IsAsciiWhitespace(s[i])
    ensures StripWhitespace(s) == s
    decreases |s|
  {
    if s != [] {
      StripWhitespaceNone(s[1..]);
      assert s == [s[0]] + s[1..];
    }
  }

  /**
   * The removal works character by character: it distributes over
   * concatenation, so the characters it keeps stay in their order.
   */
  lemma {:induction false} StripWhitespaceAppend(a: string, b: string)
    ensures StripWhitespace(a + b) == StripWhitespace(a) + StripWhitespace(b)
    decreases |a|
  {
    if a != [] {
      assert (a + b)[1..] == a[1..] + b;
      StripWhitespaceAppend(a[1..], b);
    } else {
      assert a + b == b;
    }
  }

  /** One character is dropped exactly when it is ASCII whitespace. */
  lemma StripWhitespaceOfChar(c: char)
    ensures StripWhitespace([c]) == (if IsAsciiWhitespace(c) then [] else [c])
  {
    assert [c][1..] == [];
  }

  /** Removing one or two final `=` from an alphabet string padded to a multiple of four. */
  lemma StripPaddingAppend(c: string, p: string)
    requires forall i :: 0 <= i < |c| ==> InAlphabet(c[i])
    requires p == "" || p == "=" || p == "=="
    requires (|c| + |p|) % 4 == 0
    ensures StripPadding(c + p) == c
  {
    var s := c + p;
    if p == "==" {
      assert s[|s| - 2..] == "==";
      assert s[..|s| - 2] == c;
    } else if p == "=" {
      assert s[|s| - 2] == c[|c| - 1];
      AlphabetIsNotSpecial(c[|c| - 1]);
      assert s[..|s| - 1] == c;
    } else if |c| > 0 {
      assert s == c;
      assert s[|s| - 1] == c[|c| - 1];
      AlphabetIsNotSpecial(c[|c| - 1]);
    }
  }

  /** Removing the padding from an encoding leaves its alphabet characters. */
  lemma StripPaddingOfEncode(b: seq<Byte>)
    ensures StripPadding(Encode(b)) == Chars(ToSextets(b))
  {
    StripPaddingAppend(Chars(ToSextets(b)), Padding(|b|));
  }

  lemma SextetsOfChars(v: seq<Sextet>)
    ensures SextetsOf(Chars(v)) == v
  {
    forall i | 0 <= i < |v| ensures SextetsOf(Chars(v))[i] == v[i] {
      SextetOfCharOf(v[i]);
    }
  }

  /** `atob(btoa(x)) == x` for every binary string, given as its bytes. */
  lemma AtobOfEncode(b: seq<Byte>)
    ensures Atob(Encode(b)) == Success(Latin1(b))
  {
    var s := Encode(b);
    forall i | 0 <= i < |s| ensures !IsAsciiWhitespace(s[i]) {
      if s[i] != '=' { AlphabetIsNotSpecial(s[i]); }
    }
    StripWhitespaceNone(s);
    StripPaddingOfEncode(b);
    var d := Chars(ToSextets(b));
    FromToSextets(b);
    SextetsOfChars(ToSextets(b));
    assert !exists i :: 0 <= i < |d| && !InAlphabet(d[i]);
  }

  /** The same law stated on the two browser functions. */
  lemma AtobBtoa(s: string)
    requires IsBinaryString(s)
    ensures Btoa(s).Success? && Atob(Btoa(s).value) == Success(s)
  {
    AtobOfEncode(Codes(s));
    Latin1OfCodes(s);
  }

  /** Different byte sequences never share an encoding. */
  lemma EncodeInjective(a: seq<Byte>, b: seq<Byte>)
    requires Encode(a) == Encode(b)
    ensures a == b
  {
    AtobOfEncode(a);
    AtobOfEncode(b);
    CodesOfLatin1(a);
    CodesOfLatin1(b);
  }

  /** `atob` is forgiving: leftover bits are discarded, so "QR==" decodes like "QQ==". */
  lemma AtobDiscardsLeftoverBits()
    ensures Atob("QR==") == Atob("QQ==") == Success("A")
  {
    AtobOfTwoChars("QR==", 16, 17);
    AtobOfTwoChars("QQ==", 16, 16);
    assert First(16, 17) == 65 == First(16, 16);
    assert Latin1([65]) == "A";
  }

  lemma AtobOfTwoChars(s: string, a: Sextet, b: Sextet)
    requires |s| == 4 && s[2] == s[3] == '='
    requires SextetOf(s[0]) == Some(a) && SextetOf(s[1]) == Some(b)
    ensures Atob(s) == Success(Latin1([First(a, b)]))
  {
    AlphabetIsNotSpecial(s[0]);
    AlphabetIsNotSpecial(s[1]);
    StripWhitespaceNone(s);
    assert s == s[..2] + "==";
    StripPaddingAppend(s[..2], "==");
    var d := s[..2];
    assert SextetsOf(d) == [a, b];
  }
}
