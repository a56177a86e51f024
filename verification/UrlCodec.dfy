/** Percent-decoding of the URL (section 2.1 of RFC 3986) and the check of the decoded URL
    (HttpRequest::percentDecode, hex2int and checkUrl in src/HttpRequest.cpp). */
module UrlCodec {
  import opened CString
  import opened HttpSyntax

  type Byte = c: char | c < 256 as char witness NUL

  /** `c | 0x20`: sets the bit that separates upper from lower case. */
  function SetCaseBit(c: char): char {
    if (c as int / 32) % 2 == 0 && c < 128 as char then c + 32 as char else c
  }

  function HexValue(c: char): int {
    if '0' <= c <= '9' then c as int - '0' as int
    else
      var l := SetCaseBit(c);
      if 'a' <= l <= 'f' then l as int - 'a' as int + 10 else -1
  }

  predicate IsHex(c: char) {
    '0' <= c <= '9' || 'a' <= c <= 'f' || 'A' <= c <= 'F'
  }

  /** The hexadecimal digits of section 2.1 and no other bytes have a value, and it is the digit's, in either case. */
  lemma HexValueIsHex(c: char)
    ensures HexValue(c) >= 0 <==> IsHex(c)
    ensures '0' <= c <= '9' ==> HexValue(c) == c as int - '0' as int
    ensures 'a' <= c <= 'f' ==> HexValue(c) == 10 + (c as int - 'a' as int)
    ensures 'A' <= c <= 'F' ==> HexValue(c) == 10 + (c as int - 'A' as int)
  {
  }

  function HexByte(hi: char, lo: char): char
    requires IsHex(hi) && IsHex(lo)
  {
    HexValueIsHex(hi);
    HexValueIsHex(lo);
    (16 * HexValue(hi) + HexValue(lo)) as char
  }

  datatype Decoded = BadTriplet | Plain(text: string)

  /** What the decoder produces before its terminating NUL. */
  function Decode(s: string): (t: Decoded)
    ensures t.Plain? ==> |t.text| <= |s|
  {
    if s == "" || s[0] == NUL then Plain("")
    else if s[0] == '%' && |s| > 2 then
      if HexValue(s[1]) < 0 || HexValue(s[2]) < 0 then BadTriplet
      else
        HexValueIsHex(s[1]);
        HexValueIsHex(s[2]);
        Prepend(HexByte(s[1], s[2]), Decode(s[3..]))
    else Prepend(s[0], Decode(s[1..]))
  }

  function Prepend(c: char, t: Decoded): Decoded {
    match t
    case BadTriplet => BadTriplet
    case Plain(text) => Plain([c] + text)
  }

  /** `coded` is one of the percent-encodings of `plain`: each byte stands for itself or is written
      as '%' and two hexadecimal digits of either case. */
  predicate Encodes(plain: string, coded: string)
    decreases |plain|
  {
    if plain == "" || coded == "" then plain == coded
    else if coded[0] == '%' then
      |coded| > 2 && IsHex(coded[1]) && IsHex(coded[2])
      && plain[0] == HexByte(coded[1], coded[2]) && Encodes(plain[1..], coded[3..])
    else
      plain[0] == coded[0] && Encodes(plain[1..], coded[1..])
  }

  /** No raw NUL, and no '%' so close to the end that its triplet is cut off. */
  predicate Complete(coded: string) {
    NUL !in coded && forall i :: 0 <= i < |coded| && coded[i] == '%' ==> i + 2 < |coded|
  }

  /** On every byte string whose triplets are complete the decoder is the inverse of percent-encoding,
      and it refuses exactly the strings that no plain text encodes to. */
  lemma {:induction false} DecodeInvertsEncoding(plain: string, coded: string)
    requires Complete(coded)
    ensures Encodes(plain, coded) <==> Decode(coded) == Plain(plain)
    decreases |coded|
  {
    if coded != "" {
      var n := if coded[0] == '%' then 3 else 1;
      assert Complete(coded[n..]) by {
        forall i | 0 <= i < |coded[n..]| ensures coded[n..][i] == coded[i + n] {
        }
      }
      if coded[0] == '%' {
        HexValueIsHex(coded[1]);
        HexValueIsHex(coded[2]);
      }
      if plain != "" {
        DecodeInvertsEncoding(plain[1..], coded[n..]);
        assert plain == [plain[0]] + plain[1..];
      }
    }
  }

  /** What ends a URL after its complete triplets: a triplet that is cut off, which stands for itself, or a NUL, which
      hides the rest. */
  lemma {:induction false} DecodeTail(coded: string, tail: string)
    requires Complete(coded)
    requires tail == "%" || (|tail| == 2 && tail[0] == '%' && tail[1] != NUL) || (tail != "" && tail[0] == NUL)
    ensures Decode(coded + tail)
            == match Decode(coded)
               case BadTriplet => BadTriplet
               case Plain(text) => Plain(text + if tail[0] == NUL then "" else tail)
    decreases |coded|
  {
    hide Decode, HexValue, HexByte, IsHex;
    if coded == "" {
      assert coded + tail == tail;
      TailAlone(tail);
    } else {
      var n := if coded[0] == '%' then 3 else 1;
      assert Complete(coded[n..]) by {
        forall i | 0 <= i < |coded[n..]| ensures coded[n..][i] == coded[i + n] {
        }
      }
      assert (coded + tail)[n..] == coded[n..] + tail;
      DecodeTail(coded[n..], tail);
      DecodeOne(coded);
      DecodeOne(coded + tail);
      PrependThen(coded[0], Decode(coded[n..]), tail);
      if coded[0] == '%' && HexValue(coded[1]) >= 0 && HexValue(coded[2]) >= 0 {
        HexValueIsHex(coded[1]);
        HexValueIsHex(coded[2]);
        PrependThen(HexByte(coded[1], coded[2]), Decode(coded[n..]), tail);
      }
    }
  }

  lemma TailAlone(tail: string)
    requires tail == "%" || (|tail| == 2 && tail[0] == '%' && tail[1] != NUL) || (tail != "" && tail[0] == NUL)
    ensures Decode(tail) == Plain(if tail[0] == NUL then "" else tail) && Decode("") == Plain("")
  {
    if tail[0] != NUL && |tail| == 2 {
      assert tail == [tail[0]] + [tail[1]] && tail[1..] == [tail[1]] && tail[1..][1..] == "";
    }
  }

  /** One step of the decoder. */
  lemma DecodeOne(s: string)
    requires s != "" && s[0] != NUL
    ensures Decode(s) ==
            if s[0] == '%' && |s| > 2 then
              if HexValue(s[1]) < 0 || HexValue(s[2]) < 0 then BadTriplet
              else
                HexValueIsHex(s[1]);
                HexValueIsHex(s[2]);
                Prepend(HexByte(s[1], s[2]), Decode(s[3..]))
            else Prepend(s[0], Decode(s[1..]))
  {
  }

  lemma PrependThen(c: char, t: Decoded, tail: string)
    requires tail != ""
    ensures t.Plain? ==>
              Prepend(c, Plain(t.text + if tail[0] == NUL then "" else tail))
              == Plain(Prepend(c, t).text + if tail[0] == NUL then "" else tail)
  {
  }

  predicate Unreserved(c: char) {
    IsLetter(c) || IsDigit(c) || c == '-' || c == '.' || c == '_' || c == '~'
  }

  function HexDigit(v: nat): char
    requires v < 16
  {
    if v < 10 then '0' + v as char else 'A' + (v - 10) as char
  }

  /** The encoder that section 2.3 of RFC 3986 recommends: only unreserved bytes stay as they are. */
  function Encode(plain: seq<Byte>): string {
    if plain == [] then ""
    else if Unreserved(plain[0]) then [plain[0]] + Encode(plain[1..])
    else
      var v := plain[0] as int;
      ['%', HexDigit(v / 16), HexDigit(v % 16)] + Encode(plain[1..])
  }

  lemma HexDigitsBack(c: Byte)
    ensures var v := c as int;
            IsHex(HexDigit(v / 16)) && IsHex(HexDigit(v % 16))
            && HexByte(HexDigit(v / 16), HexDigit(v % 16)) == c
  {
    var v := c as int;
    assert HexValue(HexDigit(v / 16)) == v / 16;
    assert HexValue(HexDigit(v % 16)) == v % 16;
  }

  lemma {:induction false} DecodeEncode(plain: seq<Byte>)
    ensures Decode(Encode(plain)) == Plain(plain)
  {
    if plain != [] {
      DecodeEncode(plain[1..]);
      HexDigitsBack(plain[0]);
      var rest := Encode(plain[1..]);
      var c := plain[0];
      if Unreserved(c) {
        assert ([c] + rest)[1..] == rest;
      } else {
        var hi, lo := HexDigit(c as int / 16), HexDigit(c as int % 16);
        HexValueIsHex(hi);
        HexValueIsHex(lo);
        assert (['%', hi, lo] + rest)[3..] == rest;
      }
      assert plain == [c] + plain[1..];
    }
  }

  predicate CheckSymbol(c: char) {
    IsLetter(c) || IsDigit(c) || c == '/' || c == '.' || c == '_' || c == '-' || c == ' '
  }

  /** Only allowed symbols and no two adjacent dots. */
  predicate UrlAllowed(s: string) {
    && (forall i :: 0 <= i < |s| ==> CheckSymbol(s[i]))
    && (forall i :: 0 < i < |s| ==> !(s[i] == '.' && s[i - 1] == '.'))
  }
}
