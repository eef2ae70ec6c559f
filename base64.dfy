/** The Base64 encoding of section 4 of RFC 4648 (alphabet A-Z a-z 0-9 + /,
    `=` padding, no line breaks), as used for the Basic credential. */
module Base64 {
  import opened Wrappers
  import opened Primitives

  /** The character for a 6-bit group (Table 1 of RFC 4648). */
  function Symbol(i: int): (c: char)
    requires 0 <= i < 64
    ensures c as int < 0x80 && c != Pad
  {
    if i < 26 then ('A' as int + i) as char
    else if i < 52 then ('a' as int + (i - 26)) as char
    else if i < 62 then ('0' as int + (i - 52)) as char
    else if i == 62 then '+'
    else '/'
  }

  const Pad: char := '='

  /** The 6-bit group a character stands for, if it is in the alphabet. */
  function Index(c: char): (r: Option<int>)
    ensures r.Some? ==> 0 <= r.value < 64 && Symbol(r.value) == c
  {
    if 'A' <= c <= 'Z' then Some(c as int - 'A' as int)
    else if 'a' <= c <= 'z' then Some(c as int - 'a' as int + 26)
    else if '0' <= c <= '9' then Some(c as int - '0' as int + 52)
    else if c == '+' then Some(62)
    else if c == '/' then Some(63)
    else None
  }

  lemma IndexSymbol(i: int)
    requires 0 <= i < 64
    ensures Index(Symbol(i)) == Some(i)
  {
  }

  /** A character that can appear in an encoding: in the alphabet, or padding. */
  predicate IsEncodingChar(c: char) {
    Index(c).Some? || c == Pad
  }

  /** Three octets as four characters. */
  function EncodeGroup(b0: byte, b1: byte, b2: byte): string {
    [Symbol(b0 as int / 4), Symbol(b0 as int % 4 * 16 + b1 as int / 16),
     Symbol(b1 as int % 16 * 4 + b2 as int / 64), Symbol(b2 as int % 64)]
  }

  /** The encoding of an octet sequence: every full group of three octets
      becomes four characters, and a final group of one or two octets is
      padded with `=` to four characters. */
  function Encode(b: seq<byte>): (r: string)
    ensures |r| == 4 * ((|b| + 2) / 3)
  {
    if |b| == 0 then ""
    else if |b| == 1 then
      [Symbol(b[0] as int / 4), Symbol(b[0] as int % 4 * 16), Pad, Pad]
    else if |b| == 2 then
      [Symbol(b[0] as int / 4), Symbol(b[0] as int % 4 * 16 + b[1] as int / 16),
       Symbol(b[1] as int % 16 * 4), Pad]
    else EncodeGroup(b[0], b[1], b[2]) + Encode(b[3..])
  }

  /** Every character of an encoding is in the alphabet or is padding. */
  lemma {:induction false} EncodeAlphabet(b: seq<byte>)
    ensures forall i :: 0 <= i < |Encode(b)| ==> IsEncodingChar(Encode(b)[i])
    decreases |b|
  {
    if |b| >= 3 {
      EncodeAlphabet(b[3..]);
      var g := EncodeGroup(b[0], b[1], b[2]);
      assert forall i :: 0 <= i < 4 ==> IsEncodingChar(g[i]);
      assert Encode(b) == g + Encode(b[3..]);
    }
  }

  /** Full groups encode independently of what follows them. */
  lemma {:induction false} EncodeAppendGroups(a: seq<byte>, b: seq<byte>)
    requires |a| % 3 == 0
    ensures Encode(a + b) == Encode(a) + Encode(b)
    decreases |a|
  {
    if |a| > 0 {
      assert (a + b)[3..] == a[3..] + b;
      EncodeAppendGroups(a[3..], b);
    } else {
      assert a + b == b;
    }
  }

  /** Four alphabet characters as three octets. */
  function DecodeGroup(s: string): Option<seq<byte>>
    requires |s| == 4
  {
    match (Index(s[0]), Index(s[1]), Index(s[2]), Index(s[3]))
    case (Some(n0), Some(n1), Some(n2), Some(n3)) =>
      Some([(n0 * 4 + n1 / 16) as byte, (n1 % 16 * 16 + n2 / 4) as byte, (n2 % 4 * 64 + n3) as byte])
    case _ => None
  }

  /** The last four characters, which may end in one or two `=`. */
  function DecodeFinal(s: string): Option<seq<byte>>
    requires |s| == 4
  {
    if s[2] == Pad && s[3] == Pad then
      match (Index(s[0]), Index(s[1]))
      case (Some(n0), Some(n1)) => Some([(n0 * 4 + n1 / 16) as byte])
      case _ => None
    else if s[3] == Pad then
      match (Index(s[0]), Index(s[1]), Index(s[2]))
      case (Some(n0), Some(n1), Some(n2)) => Some([(n0 * 4 + n1 / 16) as byte, (n1 % 16 * 16 + n2 / 4) as byte])
      case _ => None
    else DecodeGroup(s)
  }

  /** The octets an encoding stands for, or None when the text is not a
      sequence of four-character groups over the alphabet with padding only
      at the end. */
  function Decode(s: string): Option<seq<byte>>
    decreases |s|
  {
    if |s| == 0 then Some([])
    else if |s| < 4 then None
    else if |s| == 4 then DecodeFinal(s)
    else match (DecodeGroup(s[..4]), Decode(s[4..]))
      case (Some(g), Some(rest)) => Some(g + rest)
      case _ => None
  }

  lemma DecodeEncodeGroup(b0: byte, b1: byte, b2: byte)
    ensures DecodeGroup(EncodeGroup(b0, b1, b2)) == Some([b0, b1, b2])
  {
    var x0, x1, x2 := b0 as int, b1 as int, b2 as int;
    var n0, n1, n2, n3 := x0 / 4, x0 % 4 * 16 + x1 / 16, x1 % 16 * 4 + x2 / 64, x2 % 64;
    IndexSymbol(n0);
    IndexSymbol(n1);
    IndexSymbol(n2);
    IndexSymbol(n3);
    assert n1 / 16 == x0 % 4 && n1 % 16 == x1 / 16;
    assert n2 / 4 == x1 % 16 && n2 % 4 == x2 / 64;
    assert n0 * 4 + n1 / 16 == x0;
    assert n1 % 16 * 16 + n2 / 4 == x1;
    assert n2 % 4 * 64 + n3 == x2;
    assert EncodeGroup(b0, b1, b2) == [Symbol(n0), Symbol(n1), Symbol(n2), Symbol(n3)];
  }

  lemma DecodeEncodeOne(b0: byte)
    ensures Decode(Encode([b0])) == Some([b0])
  {
  }

  lemma DecodeEncodeTwo(b0: byte, b1: byte)
    ensures Decode(Encode([b0, b1])) == Some([b0, b1])
  {
    var x0, x1 := b0 as int, b1 as int;
    var n0, n1, n2 := x0 / 4, x0 % 4 * 16 + x1 / 16, x1 % 16 * 4;
    IndexSymbol(n0);
    IndexSymbol(n1);
    IndexSymbol(n2);
    assert n1 / 16 == x0 % 4 && n1 % 16 == x1 / 16;
    assert n2 / 4 == x1 % 16;
    var s := Encode([b0, b1]);
    assert s == [Symbol(n0), Symbol(n1), Symbol(n2), Pad];
  }

  lemma {:induction false} DecodeEncode(b: seq<byte>)
    ensures Decode(Encode(b)) == Some(b)
    decreases |b|
  {
    if |b| == 1 {
      DecodeEncodeOne(b[0]);
      assert [b[0]] == b;
    } else if |b| == 2 {
      DecodeEncodeTwo(b[0], b[1]);
      assert [b[0], b[1]] == b;
    } else if |b| >= 3 {
      var s := Encode(b);
      var g := EncodeGroup(b[0], b[1], b[2]);
      DecodeEncodeGroup(b[0], b[1], b[2]);
      DecodeEncode(b[3..]);
      assert [b[0], b[1], b[2]] + b[3..] == b;
      if |b| == 3 {
        assert s == g && g[2] != Pad && g[3] != Pad;
        assert Decode(s) == DecodeGroup(g);
        assert b == [b[0], b[1], b[2]];
      } else {
        assert s[..4] == g && s[4..] == Encode(b[3..]);
      }
    }
  }

  lemma EncodeFoo()
    ensures Encode([102, 111, 111]) == "Zm9v"
  {
    assert EncodeGroup(102, 111, 111) == "Zm9v";
    var foo: seq<byte> := [102, 111, 111];
    assert foo[3..] == [];
  }

  /** The test vectors of section 10 of RFC 4648. */
  lemma Rfc4648Vectors()
    ensures Encode([]) == ""
    ensures Encode([102]) == "Zg=="
    ensures Encode([102, 111]) == "Zm8="
    ensures Encode([102, 111, 111]) == "Zm9v"
    ensures Encode([102, 111, 111, 98]) == "Zm9vYg=="
    ensures Encode([102, 111, 111, 98, 97]) == "Zm9vYmE="
    ensures Encode([102, 111, 111, 98, 97, 114]) == "Zm9vYmFy"
  {
    EncodeFoo();
    assert Encode([98]) == "Yg==";
    assert Encode([98, 97]) == "YmE=";
    assert Encode([98, 97, 114]) == "YmFy" by {
      assert EncodeGroup(98, 97, 114) == "YmFy";
      var bar: seq<byte> := [98, 97, 114];
      assert bar[3..] == [];
    }
    var foo: seq<byte> := [102, 111, 111];
    assert (foo + [98])[3..] == [98];
    assert (foo + [98, 97])[3..] == [98, 97];
    assert (foo + [98, 97, 114])[3..] == [98, 97, 114];
    assert foo + [98] == [102, 111, 111, 98];
    assert foo + [98, 97] == [102, 111, 111, 98, 97];
    assert foo + [98, 97, 114] == [102, 111, 111, 98, 97, 114];
    assert EncodeGroup(102, 111, 111) == "Zm9v";
  }
}
