/** The HTTP Basic credential the client computes once, at construction, and
    attaches as the Authorization header of every request. */
module Auth {
  import opened Wrappers
  import Primitives
  import Utf8
  import Base64

  const Scheme: string := "Basic "

  /** `"Basic " + base64(bytes of (user + ":" + token))`; the Base64 text is
      read back as US-ASCII, which leaves its characters as they are. */
  function AuthHeader(user: string, token: string): (h: string)
    ensures |h| >= |Scheme| && h[..|Scheme|] == Scheme
    ensures forall i :: 0 <= i < |h| ==> h[i] as int < 0x80
  {
    var text := Base64.Encode(Utf8.Encode(user + ":" + token));
    Base64.EncodeAlphabet(Utf8.Encode(user + ":" + token));
    Scheme + text
  }

  /** What a server reads out of a Basic Authorization header: the
      `user:token` text, or None when the header is not of that form. */
  function ParseBasic(h: string): Option<string> {
    if |h| >= |Scheme| && h[..|Scheme|] == Scheme then
      match Base64.Decode(h[|Scheme|..])
      case Some(bytes) => Utf8.Decode(bytes)
      case None => None
    else None
  }

  /** The header carries exactly `user + ":" + token`. */
  lemma AuthHeaderCarriesCredentials(user: string, token: string)
    ensures ParseBasic(AuthHeader(user, token)) == Some(user + ":" + token)
  {
    var bytes := Utf8.Encode(user + ":" + token);
    var h := AuthHeader(user, token);
    assert h[|Scheme|..] == Base64.Encode(bytes);
    Base64.DecodeEncode(bytes);
    Utf8.DecodeEncode(user + ":" + token);
  }

  /** The credential bytes are the user's bytes, one colon, the token's bytes. */
  lemma CredentialBytes(user: string, token: string)
    ensures Utf8.Encode(user + ":" + token) == Utf8.Encode(user) + [58] + Utf8.Encode(token)
  {
    var colon := ":";
    assert user + colon + token == user + (colon + token);
    Utf8.EncodeAppend(user, colon + token);
    Utf8.EncodeAppend(colon, token);
    assert Utf8.Encode(colon) == [58] by {
      assert colon[1..] == "";
      assert Utf8.EncodeScalar(':') == [58];
    }
  }

  /** The credential bytes of the example in section 2.1 of RFC 7617:
      '£' (U+00A3) takes two bytes in UTF-8. */
  lemma Rfc7617Bytes()
    ensures Utf8.Encode("test" + ":" + "123£") == [116, 101, 115, 116, 58, 49, 50, 51, 0xC2, 0xA3]
  {
    assert "test" + ":" + "123£" == "test:1" + "23£";
    Utf8.EncodeAppend("test:1", "23£");
    assert Utf8.EncodeScalar('£') == [0xC2, 0xA3];
    assert "23£"[1..][1..] == "£";
    assert Utf8.Encode("23£") == [50, 51, 0xC2, 0xA3];
  }

  /** The Base64 text of the example's credential bytes, three at a time from the end. */
  lemma Rfc7617Base64From9()
    ensures Base64.Encode([163]) == "ow=="
  {
  }

  lemma Rfc7617Base64From6()
    ensures Base64.Encode([50, 51, 194, 163]) == "MjPCow=="
  {
    var b: seq<Primitives.byte> := [50, 51, 194, 163];
    assert b[3..] == [163];
    Rfc7617Base64From9();
    assert Base64.EncodeGroup(50, 51, 194) == "MjPC";
  }

  lemma Rfc7617Base64From3()
    ensures Base64.Encode([116, 58, 49, 50, 51, 194, 163]) == "dDoxMjPCow=="
  {
    var b: seq<Primitives.byte> := [116, 58, 49, 50, 51, 194, 163];
    assert b[3..] == [50, 51, 194, 163];
    Rfc7617Base64From6();
    assert Base64.EncodeGroup(116, 58, 49) == "dDox";
  }

  lemma Rfc7617Base64From0()
    ensures Base64.Encode([116, 101, 115, 116, 58, 49, 50, 51, 194, 163]) == "dGVzdDoxMjPCow=="
  {
    var b: seq<Primitives.byte> := [116, 101, 115, 116, 58, 49, 50, 51, 194, 163];
    assert b[3..] == [116, 58, 49, 50, 51, 194, 163];
    Rfc7617Base64From3();
    assert Base64.EncodeGroup(116, 101, 115) == "dGVz";
  }

  /** The example in section 2.1 of RFC 7617, in the UTF-8 charset. */
  lemma Rfc7617Example()
    ensures AuthHeader("test", "123£") == "Basic dGVzdDoxMjPCow=="
  {
    Rfc7617Bytes();
    Rfc7617Base64From0();
  }
}
