/**
 * Base 64 as in section 4 of RFC 4648, the encoding of Convert.ToBase64String and
 * Convert.FromBase64String: the alphabet A-Z a-z 0-9 + /, groups of four characters per
 * three bytes, and '=' padding on the last group.
 */
module Base64 {
  import opened Wrappers
  import Text

  /** An octet, as a C# byte. */
  type byte = x: int | 0 <= x < 256

  /** A 6-bit value. */
  type sextet = v: int | 0 <= v < 64

  /** The character of the alphabet that stands for v. */
  function Symbol(v: sextet): (c: char)
    ensures c != '=' && c != '.'
    ensures !Text.IsWhiteSpace(c)
  {
    if v < 26 then ('A' as int + v) as char
    else if v < 52 then ('a' as int + v - 26) as char
    else if v < 62 then ('0' as int + v - 52) as char
    else if v == 62 then '+'
    else '/'
  }

  /** The value a character of the alphabet stands for; None for any other character. */
  function SymbolValue(c: char): (r: Option<sextet>)
    ensures r.Some? ==> Symbol(r.value) == c
  {
    if 'A' <= c <= 'Z' then Some(c as int - 'A' as int)
    else if 'a' <= c <= 'z' then Some(c as int - 'a' as int + 26)
    else if '0' <= c <= '9' then Some(c as int - '0' as int + 52)
    else if c == '+' then Some(62)
    else if c == '/' then Some(63)
    else None
  }

  lemma SymbolValueOfSymbol(v: sextet)
    ensures SymbolValue(Symbol(v)) == Some(v)
  {
  }

  /** The four characters for three bytes. */
  function EncodeBlock(b0: byte, b1: byte, b2: byte): string {
    [Symbol(b0 / 4), Symbol(b0 % 4 * 16 + b1 / 16), Symbol(b1 % 16 * 4 + b2 / 64), Symbol(b2 % 64)]
  }

  /** Convert.ToBase64String. */
  function Encode(bytes: seq<byte>): string
    decreases |bytes|
  {
    if |bytes| == 0 then []
    else if |bytes| == 1 then [Symbol(bytes[0] / 4), Symbol(bytes[0] % 4 * 16), '=', '=']
    else if |bytes| == 2 then
      [Symbol(bytes[0] / 4), Symbol(bytes[0] % 4 * 16 + bytes[1] / 16), Symbol(bytes[1] % 16 * 4), '=']
    else EncodeBlock(bytes[0], bytes[1], bytes[2]) + Encode(bytes[3..])
  }

  /** The three bytes four symbol values stand for. */
  function DecodeBlock(v0: sextet, v1: sextet, v2: sextet, v3: sextet): seq<byte> {
    [v0 * 4 + v1 / 16, v1 % 16 * 16 + v2 / 4, v2 % 4 * 64 + v3]
  }

  /** One group of four characters; padding is allowed only when the group is the last one. */
  function DecodeGroup(g: string, last: bool): (r: Option<seq<byte>>)
    requires |g| == 4
  {
    var v0, v1, v2, v3 := SymbolValue(g[0]), SymbolValue(g[1]), SymbolValue(g[2]), SymbolValue(g[3]);
    if v0.None? || v1.None? then None
    else if v2.Some? && v3.Some? then Some(DecodeBlock(v0.value, v1.value, v2.value, v3.value))
    else if last && v2.Some? && g[3] == '=' then Some(DecodeBlock(v0.value, v1.value, v2.value, 0)[..2])
    else if last && g[2] == '=' && g[3] == '=' then Some(DecodeBlock(v0.value, v1.value, 0, 0)[..1])
    else None
  }

  /** Decoding of a string without white space: whole groups of four, padding only at the end. */
  function DecodeGroups(s: string): (r: Option<seq<byte>>)
    decreases |s|
  {
    if s == [] then Some([])
    else if |s| < 4 then None
    else
      match DecodeGroup(s[..4], |s| == 4)
      case None => None
      case Some(head) =>
        match DecodeGroups(s[4..])
        case None => None
        case Some(tail) => Some(head + tail)
  }

  /** The white space Convert.FromBase64String skips: space, tab, carriage return, line feed. */
  predicate IsSkipped(c: char) {
    c == ' ' || c == '\t' || c == '\r' || c == '\n'
  }

  function RemoveSkipped(s: string): (r: string)
    ensures |r| <= |s|
  {
    if s == [] then []
    else (if IsSkipped(s[0]) then [] else [s[0]]) + RemoveSkipped(s[1..])
  }

  /**
   * Convert.FromBase64String: None stands for the FormatException it throws on a
   * character outside the alphabet, a length (white space left out) that is not a multiple
   * of four, or misplaced padding.
   */
  function Decode(s: string): Option<seq<byte>> {
    DecodeGroups(RemoveSkipped(s))
  }

  /** No character of an encoding is white space or a '.'; only '=' pads. */
  lemma {:induction false} EncodeAlphabet(bytes: seq<byte>)
    ensures |Encode(bytes)| % 4 == 0
    ensures '.' !in Encode(bytes)
    ensures forall i | 0 <= i < |Encode(bytes)| :: !Text.IsWhiteSpace(Encode(bytes)[i])
    decreases |bytes|
  {
    if |bytes| >= 3 {
      EncodeAlphabet(bytes[3..]);
      EncodeCons(bytes);
      AlphabetConcat(EncodeBlock(bytes[0], bytes[1], bytes[2]), Encode(bytes[3..]));
    }
  }

  /** Whole groups with neither white space nor '.' stay so when put together. */
  lemma AlphabetConcat(a: string, b: string)
    requires |a| % 4 == 0 && '.' !in a && forall i | 0 <= i < |a| :: !Text.IsWhiteSpace(a[i])
    requires |b| % 4 == 0 && '.' !in b && forall i | 0 <= i < |b| :: !Text.IsWhiteSpace(b[i])
    ensures |a + b| % 4 == 0 && '.' !in a + b
    ensures forall i | 0 <= i < |a + b| :: !Text.IsWhiteSpace((a + b)[i])
  {
    forall i | 0 <= i < |a + b|
      ensures !Text.IsWhiteSpace((a + b)[i])
    {
      if i >= |a| {
        assert (a + b)[i] == b[i - |a|];
      }
    }
  }

  /** An encoding is four characters for every three bytes or part of them. */
  lemma {:induction false} EncodeLength(bytes: seq<byte>)
    ensures |Encode(bytes)| == 4 * ((|bytes| + 2) / 3)
    decreases |bytes|
  {
    if |bytes| >= 3 {
      var rest := bytes[3..];
      EncodeLength(rest);
      EncodeCons(bytes);
      assert (|bytes| + 2) / 3 == (|rest| + 2) / 3 + 1;
    }
  }

  /** Three or more bytes: the first block, then the encoding of the rest. */
  lemma EncodeCons(bytes: seq<byte>)
    requires |bytes| >= 3
    ensures Encode(bytes) == EncodeBlock(bytes[0], bytes[1], bytes[2]) + Encode(bytes[3..])
  {
  }

  /** A first group that decodes, before groups that decode, decodes to the concatenation. */
  lemma DecodeGroupsCons(g: string, rest: string)
    requires |g| == 4
    requires DecodeGroup(g, rest == []).Some? && DecodeGroups(rest).Some?
    ensures DecodeGroups(g + rest) == Some(DecodeGroup(g, rest == []).value + DecodeGroups(rest).value)
  {
    var s := g + rest;
    assert s[..4] == g && s[4..] == rest;
  }

  lemma RemoveSkippedKeeps(s: string)
    requires forall i | 0 <= i < |s| :: !Text.IsWhiteSpace(s[i])
    ensures RemoveSkipped(s) == s
  {
    if s != [] {
      assert !IsSkipped(s[0]);
      RemoveSkippedKeeps(s[1..]);
      assert [s[0]] + s[1..] == s;
    }
  }

  lemma BlockArith(b0: byte, b1: byte, b2: byte)
    ensures DecodeBlock(b0 / 4, b0 % 4 * 16 + b1 / 16, b1 % 16 * 4 + b2 / 64, b2 % 64) == [b0, b1, b2]
  {}

  /** Three bytes survive a block round trip, in the last group or any other. */
  lemma BlockRoundTrip(b0: byte, b1: byte, b2: byte, last: bool)
    ensures DecodeGroup(EncodeBlock(b0, b1, b2), last) == Some([b0, b1, b2])
  {
    var v0, v1, v2, v3 := b0 / 4, b0 % 4 * 16 + b1 / 16, b1 % 16 * 4 + b2 / 64, b2 % 64;
    SymbolValueOfSymbol(v0);
    SymbolValueOfSymbol(v1);
    SymbolValueOfSymbol(v2);
    SymbolValueOfSymbol(v3);
    var g := EncodeBlock(b0, b1, b2);
    assert g == [Symbol(v0), Symbol(v1), Symbol(v2), Symbol(v3)];
    assert SymbolValue(g[0]) == Some(v0);
    assert SymbolValue(g[1]) == Some(v1);
    assert SymbolValue(g[2]) == Some(v2);
    assert SymbolValue(g[3]) == Some(v3);
    assert DecodeGroup(g, last) == Some(DecodeBlock(v0, v1, v2, v3));
    BlockArith(b0, b1, b2);
  }

  /** One trailing byte: a group with two padding characters. */
  lemma OneByteRoundTrip(b0: byte)
    ensures DecodeGroups(Encode([b0])) == Some([b0])
  {
    var v0, v1 := b0 / 4, b0 % 4 * 16;
    SymbolValueOfSymbol(v0);
    SymbolValueOfSymbol(v1);
    var g := Encode([b0]);
    assert g == [Symbol(v0), Symbol(v1), '=', '='];
    assert SymbolValue(g[0]) == Some(v0);
    assert SymbolValue(g[1]) == Some(v1);
    assert SymbolValue(g[2]) == None;
    assert DecodeGroup(g, true) == Some(DecodeBlock(v0, v1, 0, 0)[..1]);
    assert DecodeBlock(v0, v1, 0, 0)[..1] == [b0];
    assert g[..4] == g && g[4..] == [];
    assert [b0] + [] == [b0];
  }

  /** The arithmetic of a group holding two bytes. */
  lemma TwoBytesArith(b0: byte, b1: byte)
    ensures DecodeBlock(b0 / 4, b0 % 4 * 16 + b1 / 16, b1 % 16 * 4, 0)[..2] == [b0, b1]
  {
  }

  /** Two trailing bytes: a group with one padding character. */
  lemma TwoBytesRoundTrip(b0: byte, b1: byte)
    ensures DecodeGroups(Encode([b0, b1])) == Some([b0, b1])
  {
    var v0, v1, v2 := b0 / 4, b0 % 4 * 16 + b1 / 16, b1 % 16 * 4;
    SymbolValueOfSymbol(v0);
    SymbolValueOfSymbol(v1);
    SymbolValueOfSymbol(v2);
    var g := Encode([b0, b1]);
    assert g == [Symbol(v0), Symbol(v1), Symbol(v2), '='];
    assert SymbolValue(g[3]) == None;
    assert DecodeGroup(g, true) == Some(DecodeBlock(v0, v1, v2, 0)[..2]);
    TwoBytesArith(b0, b1);
    assert g[..4] == g && g[4..] == [];
    assert [b0, b1] + [] == [b0, b1];
  }

  lemma {:induction false} DecodeGroupsOfEncode(bytes: seq<byte>)
    ensures DecodeGroups(Encode(bytes)) == Some(bytes)
    decreases |bytes|
  {
    if |bytes| == 1 {
      assert bytes == [bytes[0]];
      OneByteRoundTrip(bytes[0]);
    } else if |bytes| == 2 {
      assert bytes == [bytes[0], bytes[1]];
      TwoBytesRoundTrip(bytes[0], bytes[1]);
    } else if |bytes| >= 3 {
      DecodeGroupsOfEncode(bytes[3..]);
      EncodeCons(bytes);
      BlockThenRest(bytes, Encode(bytes[3..]));
    }
  }

  /** A block round trip in front of a round trip of the remaining bytes. */
  lemma BlockThenRest(bytes: seq<byte>, tail: string)
    requires |bytes| >= 3 && DecodeGroups(tail) == Some(bytes[3..])
    ensures DecodeGroups(EncodeBlock(bytes[0], bytes[1], bytes[2]) + tail) == Some(bytes)
  {
    var head, block := EncodeBlock(bytes[0], bytes[1], bytes[2]), [bytes[0], bytes[1], bytes[2]];
    BlockRoundTrip(bytes[0], bytes[1], bytes[2], tail == []);
    DecodeGroupsCons(head, tail);
    assert block + bytes[3..] == bytes by { assert bytes[..3] == block; }
  }

  /** Decoding inverts encoding. */
  lemma DecodeEncode(bytes: seq<byte>)
    ensures Decode(Encode(bytes)) == Some(bytes)
  {
    EncodeAlphabet(bytes);
    RemoveSkippedKeeps(Encode(bytes));
    DecodeGroupsOfEncode(bytes);
  }

  /** Two byte strings with the same encoding are equal. */
  lemma EncodeInjective(a: seq<byte>, b: seq<byte>)
    requires Encode(a) == Encode(b)
    ensures a == b
  {
    DecodeEncode(a);
    DecodeEncode(b);
  }
}
