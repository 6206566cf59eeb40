/** URL-safe base64 (RFC 4648, section 5) with padding stripped and restored (section 3.2). */
module Base64Url {
  import opened Wrappers
  import opened Text

  type Byte = n: int | 0 <= n < 256

  function SextetChar(n: nat): (c: char)
    requires n < 64
    ensures c != '='
  {
    if n < 26 then 'A' + n as char
    else if n < 52 then 'a' + (n - 26) as char
    else if n < 62 then '0' + (n - 52) as char
    else if n == 62 then '-' else '_'
  }

  function CharSextet(c: char): (n: Option<nat>)
    ensures n.Some? ==> n.value < 64
  {
    if 'A' <= c <= 'Z' then Some(c as int - 'A' as int)
    else if 'a' <= c <= 'z' then Some(c as int - 'a' as int + 26)
    else if '0' <= c <= '9' then Some(c as int - '0' as int + 52)
    else if c == '-' then Some(62)
    else if c == '_' then Some(63)
    else None
  }

  lemma SextetRoundTrip(n: nat)
    requires n < 64
    ensures CharSextet(SextetChar(n)) == Some(n)
  {
  }

  /** The characters for up to three bytes, without padding. */
  function Group(bs: seq<Byte>): (s: string)
    requires 1 <= |bs| <= 3
    ensures |s| == |bs| + 1 && '=' !in s
  {
    var c0 := SextetChar(bs[0] / 4);
    if |bs| == 1 then [c0, SextetChar(bs[0] % 4 * 16)] else
    var c1 := SextetChar(bs[0] % 4 * 16 + bs[1] / 16);
    if |bs| == 2 then [c0, c1, SextetChar(bs[1] % 16 * 4)] else
    [c0, c1, SextetChar(bs[1] % 16 * 4 + bs[2] / 64), SextetChar(bs[2] % 64)]
  }

  function Padding(n: nat): string
    requires n <= 3
  {
    seq(n, _ => '=')
  }

  /** How many padding characters bring n characters to a multiple of four. */
  function PadLength(n: nat): (k: nat)
    ensures k <= 3 && (n + k) % 4 == 0
  {
    (4 - n % 4) % 4
  }

  /** urlsafe_b64encode */
  function Encode(bs: seq<Byte>): string {
    if bs == [] then ""
    else if |bs| <= 3 then Group(bs) + Padding(3 - |bs|)
    else Group(bs[..3]) + Encode(bs[3..])
  }

  /** Padding removed from the end. */
  function Unpad(s: string): string {
    StripRight(s, c => c == '=')
  }

  /** Padding restored from the length. */
  function Repad(s: string): string {
    s + Padding(PadLength(|s|))
  }

  /** The bytes of four characters, the last one or two of which may be padding. */
  function DecodeGroup(s: string): Option<seq<Byte>>
    requires |s| == 4
  {
    var s0, s1, s2, s3 := CharSextet(s[0]), CharSextet(s[1]), CharSextet(s[2]), CharSextet(s[3]);
    if s0.None? || s1.None? then None else
    var b0 := s0.value * 4 + s1.value / 16;
    if s[2] == '=' && s[3] == '=' then Some([b0])
    else if s2.None? then None else
    var b1 := s1.value % 16 * 16 + s2.value / 4;
    if s[3] == '=' then Some([b0, b1])
    else if s3.None? then None
    else Some([b0, b1, s2.value % 4 * 64 + s3.value])
  }

  /** urlsafe_b64decode on well-formed text; padding may only close the text. */
  function Decode(s: string): Option<seq<Byte>> {
    if s == "" then Some([])
    else if |s| < 4 then None
    else
      var first := DecodeGroup(s[..4]);
      var rest := Decode(s[4..]);
      if first.None? || rest.None? || (|first.value| < 3 && |s| > 4) then None
      else Some(first.value + rest.value)
  }

  lemma OneByte(b0: Byte)
    ensures DecodeGroup(Group([b0]) + Padding(2)) == Some([b0])
  {
    SextetRoundTrip(b0 / 4);
    SextetRoundTrip(b0 % 4 * 16);
    var s := Group([b0]) + Padding(2);
    assert s[2] == '=' && s[3] == '=';
  }

  lemma TwoBytes(b0: Byte, b1: Byte)
    ensures DecodeGroup(Group([b0, b1]) + Padding(1)) == Some([b0, b1])
  {
    SextetRoundTrip(b0 / 4);
    SextetRoundTrip(b0 % 4 * 16 + b1 / 16);
    SextetRoundTrip(b1 % 16 * 4);
    var s := Group([b0, b1]) + Padding(1);
    assert s[2] == SextetChar(b1 % 16 * 4) && s[3] == '=';
  }

  /** Encodings that RFC 4648 gives in section 10, and one with both URL-safe characters. */
  lemma KnownEncodings()
    ensures Encode([102]) == "Zg==" && Encode([102, 111]) == "Zm8=" && Encode([102, 111, 111]) == "Zm9v"
    ensures Encode([102, 111, 111, 98, 97, 114]) == "Zm9vYmFy" && Encode([251, 255]) == "-_8="
  {
    assert [102, 111, 111, 98, 97, 114][..3] == [102, 111, 111];
    assert [102, 111, 111, 98, 97, 114][3..] == [98, 97, 114];
    assert Group([102, 111, 111]) == "Zm9v" && Group([98, 97, 114]) == "YmFy";
  }

  lemma SextetArithmetic(b0: Byte, b1: Byte, b2: Byte)
    ensures (b0 % 4 * 16 + b1 / 16) / 16 == b0 % 4 && (b0 % 4 * 16 + b1 / 16) % 16 == b1 / 16
    ensures (b1 % 16 * 4 + b2 / 64) / 4 == b1 % 16 && (b1 % 16 * 4 + b2 / 64) % 4 == b2 / 64
  {
  }

  lemma ThreeBytes(b0: Byte, b1: Byte, b2: Byte)
    ensures DecodeGroup(Group([b0, b1, b2])) == Some([b0, b1, b2])
  {
    var s1, s2 := b0 % 4 * 16 + b1 / 16, b1 % 16 * 4 + b2 / 64;
    SextetRoundTrip(b0 / 4);
    SextetRoundTrip(s1);
    SextetRoundTrip(s2);
    SextetRoundTrip(b2 % 64);
    SextetArithmetic(b0, b1, b2);
    var s := Group([b0, b1, b2]);
    assert s == [SextetChar(b0 / 4), SextetChar(s1), SextetChar(s2), SextetChar(b2 % 64)];
    assert DecodeGroup(s) == Some([b0 / 4 * 4 + s1 / 16, s1 % 16 * 16 + s2 / 4, s2 % 4 * 64 + b2 % 64]);
  }

  lemma GroupRoundTrip(bs: seq<Byte>)
    requires 1 <= |bs| <= 3
    ensures DecodeGroup(Group(bs) + Padding(3 - |bs|)) == Some(bs)
  {
    if |bs| == 1 {
      assert bs == [bs[0]];
      OneByte(bs[0]);
    } else if |bs| == 2 {
      assert bs == [bs[0], bs[1]];
      TwoBytes(bs[0], bs[1]);
    } else {
      assert bs == [bs[0], bs[1], bs[2]];
      ThreeBytes(bs[0], bs[1], bs[2]);
      assert Group(bs) + Padding(0) == Group(bs);
    }
  }

  lemma {:induction false} DecodeEncode(bs: seq<Byte>)
    ensures Decode(Encode(bs)) == Some(bs)
  {
    if bs == [] {
    } else {
      if |bs| <= 3 {
        GroupRoundTrip(bs);
        var s := Encode(bs);
        assert s[..4] == s && s[4..] == "";
        assert bs + [] == bs;
      } else {
        GroupRoundTrip(bs[..3]);
        DecodeEncode(bs[3..]);
        var s := Encode(bs);
        assert Group(bs[..3]) + Padding(0) == Group(bs[..3]);
        assert s[..4] == Group(bs[..3]) && s[4..] == Encode(bs[3..]);
        assert bs[..3] + bs[3..] == bs;
      }
    }
  }

  /** The encoded text without its padding. */
  ghost function Body(bs: seq<Byte>): (s: string)
    ensures '=' !in s && (bs != [] ==> s != "")
  {
    if bs == [] then "" else if |bs| <= 3 then Group(bs) else Group(bs[..3]) + Body(bs[3..])
  }

  /** Padding brings the length of the body to a multiple of four. */
  lemma {:induction false} BodyAndPadding(bs: seq<Byte>)
    ensures Encode(bs) == Body(bs) + Padding(PadLength(|Body(bs)|))
  {
    if bs == [] {
      assert Padding(PadLength(0)) == "";
    } else if |bs| > 3 {
      var group, rest := Group(bs[..3]), Body(bs[3..]);
      BodyAndPadding(bs[3..]);
      SamePadding(|rest|);
      assert |group + rest| == |rest| + 4;
      ConcatAssociative(group, rest, Padding(PadLength(|rest|)));
    }
  }

  lemma SamePadding(n: nat)
    ensures PadLength(n + 4) == PadLength(n)
  {
  }

  lemma {:induction false} UnpadBody(body: string, n: nat)
    requires '=' !in body && n <= 3
    ensures Unpad(body + Padding(n)) == body
  {
    var s := body + Padding(n);
    if n == 0 {
      assert s == body;
    } else {
      assert s[..|s| - 1] == body + Padding(n - 1) && s[|s| - 1] == '=';
      UnpadBody(body, n - 1);
    }
  }

  /** Stripping the padding loses nothing: restoring it and decoding gives the bytes back. */
  lemma UnpaddedRoundTrip(bs: seq<Byte>)
    ensures Repad(Unpad(Encode(bs))) == Encode(bs) && Decode(Repad(Unpad(Encode(bs)))) == Some(bs)
    ensures bs != [] ==> Unpad(Encode(bs)) != ""
  {
    BodyAndPadding(bs);
    UnpadBody(Body(bs), PadLength(|Body(bs)|));
    DecodeEncode(bs);
  }
}
