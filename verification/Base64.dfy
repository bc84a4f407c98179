/** The base64 encoding of section 4 of RFC 4648, and a decoder that skips foreign characters. */
module Base64 {
  import opened Text
  import opened FileChunks

  type Sextet = x: int | 0 <= x < 64

  function CharOf(s: Sextet): (c: char)
    ensures IsDataChar(c) && c != '=' && SextetOf(c) == s
  {
    if s < 26 then 'A' + s as char
    else if s < 52 then 'a' + (s - 26) as char
    else if s < 62 then '0' + (s - 52) as char
    else if s == 62 then '+' else '/'
  }

  predicate IsDataChar(c: char) {
    'A' <= c <= 'Z' || 'a' <= c <= 'z' || '0' <= c <= '9' || c == '+' || c == '/'
  }

  function SextetOf(c: char): Sextet
    requires IsDataChar(c)
  {
    if 'A' <= c <= 'Z' then (c - 'A') as int
    else if 'a' <= c <= 'z' then (c - 'a') as int + 26
    else if '0' <= c <= '9' then (c - '0') as int + 52
    else if c == '+' then 62 else 63
  }

  predicate IsEncodedChar(c: char) {
    IsDataChar(c) || c == '='
  }

  /** The four sextets of three bytes. */
  function S0(b0: Byte): Sextet { b0 / 4 }
  function S1(b0: Byte, b1: Byte): Sextet { b0 % 4 * 16 + b1 / 16 }
  function S2(b1: Byte, b2: Byte): Sextet { b1 % 16 * 4 + b2 / 64 }
  function S3(b2: Byte): Sextet { b2 % 64 }

  /** The three bytes of four sextets. */
  function B0(s0: Sextet, s1: Sextet): Byte { s0 * 4 + s1 / 16 }
  function B1(s1: Sextet, s2: Sextet): Byte { s1 % 16 * 16 + s2 / 4 }
  function B2(s2: Sextet, s3: Sextet): Byte { s2 % 4 * 64 + s3 }

  lemma BytesOfSextets(b0: Byte, b1: Byte, b2: Byte)
    ensures B0(S0(b0), S1(b0, b1)) == b0
    ensures B1(S1(b0, b1), S2(b1, b2)) == b1
    ensures B2(S2(b1, b2), S3(b2)) == b2
  {
  }

  function Encode(data: seq<Byte>): string {
    if data == [] then ""
    else if |data| == 1 then [CharOf(S0(data[0])), CharOf(S1(data[0], 0)), '=', '=']
    else if |data| == 2 then
      [CharOf(S0(data[0])), CharOf(S1(data[0], data[1])), CharOf(S2(data[1], 0)), '=']
    else
      [CharOf(S0(data[0])), CharOf(S1(data[0], data[1])), CharOf(S2(data[1], data[2])), CharOf(S3(data[2]))]
      + Encode(data[3..])
  }

  /** Test vectors of section 10 of RFC 4648, and the last two characters of the alphabet. */
  lemma KnownEncodings()
    ensures Encode([102]) == "Zg==" && Encode([102, 111]) == "Zm8=" && Encode([102, 111, 111]) == "Zm9v"
    ensures Encode([251, 255, 191]) == "+/+/"
  {
    assert [102, 111, 111][3..] == [] && [251, 255, 191][3..] == [];
    assert Encode([]) == "";
  }

  /** Decoding four characters at a time, up to a padded group. */
  function DecodeGroups(text: string): Option<seq<Byte>> {
    if text == "" then Some([])
    else if |text| < 4 || !IsDataChar(text[0]) || !IsDataChar(text[1]) then None
    else
      var s0, s1 := SextetOf(text[0]), SextetOf(text[1]);
      if text[2] == '=' && text[3] == '=' then Some([B0(s0, s1)])
      else if !IsDataChar(text[2]) then None
      else
        var s2 := SextetOf(text[2]);
        if text[3] == '=' then Some([B0(s0, s1), B1(s1, s2)])
        else if !IsDataChar(text[3]) then None
        else
          match DecodeGroups(text[4..])
          case None => None
          case Some(rest) => Some([B0(s0, s1), B1(s1, s2), B2(s2, SextetOf(text[3]))] + rest)
  }

  function EncodedChars(text: string): string {
    if text == "" then ""
    else (if IsEncodedChar(text[0]) then [text[0]] else "") + EncodedChars(text[1..])
  }

  function Decode(text: string): Option<seq<Byte>> {
    DecodeGroups(EncodedChars(text))
  }

  lemma {:induction false} EncodeUsesAlphabet(data: seq<Byte>)
    ensures forall c :: c in Encode(data) ==> IsEncodedChar(c)
  {
    if |data| >= 3 {
      EncodeUsesAlphabet(data[3..]);
    }
  }

  lemma {:induction false} GroupsInvertEncode(data: seq<Byte>)
    ensures DecodeGroups(Encode(data)) == Some(data)
  {
    hide B0, B1, B2, S0, S1, S2, S3, CharOf, SextetOf, IsDataChar;
    if data == [] {
    } else if |data| == 1 {
      BytesOfSextets(data[0], 0, 0);
      assert data == [data[0]];
    } else if |data| == 2 {
      BytesOfSextets(data[0], data[1], 0);
      assert data == [data[0], data[1]];
    } else {
      BytesOfSextets(data[0], data[1], data[2]);
      GroupsInvertEncode(data[3..]);
      assert Encode(data)[4..] == Encode(data[3..]);
      assert data == [data[0], data[1], data[2]] + data[3..];
    }
  }

  lemma {:induction false} EncodedCharsOf(text: string, junk: string)
    requires forall i :: 0 <= i < |text| ==> IsEncodedChar(text[i])
    requires forall i :: 0 <= i < |junk| ==> !IsEncodedChar(junk[i])
    ensures EncodedChars(text + junk) == text
  {
    hide IsEncodedChar;
    if text == "" {
      assert text + junk == junk;
      if junk != "" {
        EncodedCharsOf(text, junk[1..]);
        assert text + junk[1..] == junk[1..];
      }
    } else {
      assert (text + junk)[1..] == text[1..] + junk;
      EncodedCharsOf(text[1..], junk);
    }
  }

  /** Decoding an encoded text, also with a trailing newline, gives the data back. */
  lemma DecodeInvertsEncode(data: seq<Byte>)
    ensures Decode(Encode(data) + NL) == Some(data)
  {
    hide DecodeGroups, Encode;
    EncodeUsesAlphabet(data);
    EncodedCharsOf(Encode(data), NL);
    GroupsInvertEncode(data);
  }
}
