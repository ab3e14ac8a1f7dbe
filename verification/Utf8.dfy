/** UTF-8 (section 3 of RFC 3629) over Unicode scalar values, with a strict decoder. */
module Utf8 {
  import opened Wrappers

  type Byte = b: int | 0 <= b < 256

  const NEWLINE: Byte := 10

  function EncodeChar(c: char): (bs: seq<Byte>)
    ensures 1 <= |bs| <= 4
    ensures forall i :: 0 <= i < |bs| ==> (bs[i] < 0x80 <==> c as int < 0x80)
    ensures c as int < 0x80 ==> bs == [c as int]
  {
    var n := c as int;
    if n < 0x80 then [n]
    else if n < 0x800 then [0xC0 + n / 64, 0x80 + n % 64]
    else if n < 0x10000 then [0xE0 + n / 4096, 0x80 + n / 64 % 64, 0x80 + n % 64]
    else [0xF0 + n / 262144, 0x80 + n / 4096 % 64, 0x80 + n / 64 % 64, 0x80 + n % 64]
  }

  /** The forms of section 3 of RFC 3629: a lead byte that tells the length, and continuation bytes. */
  lemma EncodedForm(c: char)
    ensures var bs, n := EncodeChar(c), c as int;
            && |bs| == (if n < 0x80 then 1 else if n < 0x800 then 2 else if n < 0x10000 then 3 else 4)
            && (|bs| == 2 ==> 0xC2 <= bs[0] <= 0xDF) && (|bs| == 3 ==> 0xE0 <= bs[0] <= 0xEF)
            && (|bs| == 4 ==> 0xF0 <= bs[0] <= 0xF4)
            && forall i :: 0 < i < |bs| ==> 0x80 <= bs[i] <= 0xBF
  {
  }

  function Encode(s: string): seq<Byte> {
    if s == [] then [] else EncodeChar(s[0]) + Encode(s[1..])
  }

  /** The length the lead byte announces, and the code point it and its continuation bytes spell. */
  function Announced(lead: Byte): nat {
    if lead < 0x80 then 1 else if lead < 0xC0 then 0 else if lead < 0xE0 then 2 else if lead < 0xF0 then 3 else 4
  }

  function CodePoint(bs: seq<Byte>): int
    requires 1 <= |bs| <= 4
  {
    var at := (i: int) requires 0 <= i < |bs| => bs[i] as int;
    if |bs| == 1 then at(0)
    else if |bs| == 2 then (at(0) - 0xC0) * 64 + (at(1) - 0x80)
    else if |bs| == 3 then (at(0) - 0xE0) * 4096 + (at(1) - 0x80) * 64 + (at(2) - 0x80)
    else (at(0) - 0xF0) * 262144 + (at(1) - 0x80) * 4096 + (at(2) - 0x80) * 64 + (at(3) - 0x80)
  }

  predicate IsScalar(n: int) {
    0 <= n < 0xD800 || 0xE000 <= n < 0x110000
  }

  /** The character at the front and its length, unless the bytes are not exactly its encoding. */
  function DecodeChar(bs: seq<Byte>): (r: Option<(char, nat)>)
    requires bs != []
    ensures r.Some? ==> 0 < r.value.1 <= |bs| && EncodeChar(r.value.0) == bs[..r.value.1]
  {
    var n := Announced(bs[0]);
    if n == 0 || n > |bs| || !IsScalar(CodePoint(bs[..n])) || EncodeChar(CodePoint(bs[..n]) as char) != bs[..n] then
      None
    else
      Some((CodePoint(bs[..n]) as char, n))
  }

  function Decode(bs: seq<Byte>): Option<string> {
    if bs == [] then Some([]) else
    match DecodeChar(bs)
    case None => None
    case Some((c, n)) => match Decode(bs[n..]) case None => None case Some(rest) => Some([c] + rest)
  }

  lemma EncodingAnnouncesItself(c: char)
    ensures Announced(EncodeChar(c)[0]) == |EncodeChar(c)| && CodePoint(EncodeChar(c)) == c as int
  {
    var n := c as int;
    assert n / 64 % 64 == n / 64 - n / 4096 * 64;
    assert n / 4096 % 64 == n / 4096 - n / 262144 * 64;
  }

  lemma DecodeCharOfEncoding(c: char, rest: seq<Byte>)
    ensures DecodeChar(EncodeChar(c) + rest) == Some((c, |EncodeChar(c)|))
  {
    var bs, n := EncodeChar(c) + rest, |EncodeChar(c)|;
    EncodingAnnouncesItself(c);
    assert bs[..n] == EncodeChar(c) && bs[0] == EncodeChar(c)[0];
  }

  lemma {:induction false} DecodeEncode(s: string)
    ensures Decode(Encode(s)) == Some(s)
  {
    if s != [] {
      var n := |EncodeChar(s[0])|;
      DecodeCharOfEncoding(s[0], Encode(s[1..]));
      DecodeEncode(s[1..]);
      assert Encode(s)[n..] == Encode(s[1..]);
      assert s == [s[0]] + s[1..];
    }
  }

  lemma DecodeFront(bs: seq<Byte>) returns (n: nat)
    requires bs != [] && Decode(bs).Some?
    ensures 0 < n <= |bs| && Decode(bs[n..]).Some?
    ensures var s := Decode(bs).value; s != [] && EncodeChar(s[0]) == bs[..n] && s[1..] == Decode(bs[n..]).value
  {
    n := DecodeChar(bs).value.1;
  }

  /** Nothing but encodings decodes: the decoder accepts exactly the encoder's image. */
  lemma {:induction false} EncodeDecode(bs: seq<Byte>)
    requires Decode(bs).Some?
    ensures Encode(Decode(bs).value) == bs
  {
    if bs != [] {
      var n := DecodeFront(bs);
      EncodeDecode(bs[n..]);
      var s := Decode(bs).value;
      assert Encode(s) == EncodeChar(s[0]) + Encode(s[1..]);
      assert bs == bs[..n] + bs[n..];
    }
  }

  lemma {:induction false} EncodeConcat(s: string, t: string)
    ensures Encode(s + t) == Encode(s) + Encode(t)
  {
    if s == [] {
      assert s + t == t;
    } else {
      assert (s + t)[1..] == s[1..] + t;
      EncodeConcat(s[1..], t);
    }
  }

  lemma DecodeStep(c: char, rest: seq<Byte>)
    ensures Decode(EncodeChar(c) + rest) == match Decode(rest) case None => None case Some(t) => Some([c] + t)
  {
    DecodeCharOfEncoding(c, rest);
    assert (EncodeChar(c) + rest)[|EncodeChar(c)|..] == rest;
  }

  /** What follows an encoded text is decoded on its own. */
  lemma {:induction false} DecodeAfter(s: string, bs: seq<Byte>)
    ensures Decode(Encode(s) + bs) == match Decode(bs) case None => None case Some(rest) => Some(s + rest)
  {
    if s == [] {
      assert Encode(s) + bs == bs;
      if Decode(bs).Some? { assert s + Decode(bs).value == Decode(bs).value; }
    } else {
      var tail := Encode(s[1..]) + bs;
      assert Encode(s) + bs == EncodeChar(s[0]) + tail;
      DecodeStep(s[0], tail);
      DecodeAfter(s[1..], bs);
      if Decode(bs).Some? { Regroup(s, Decode(bs).value); }
    }
  }

  lemma Regroup(s: string, t: string)
    requires s != []
    ensures s + t == [s[0]] + (s[1..] + t)
  {
  }

  /** Part of a character decodes to nothing. */
  lemma CutCharacter(c: char, n: nat)
    requires 0 < n < |EncodeChar(c)|
    ensures Decode(EncodeChar(c)[..n]) == None
  {
    EncodingAnnouncesItself(c);
    assert EncodeChar(c)[..n][0] == EncodeChar(c)[0];
  }

  /** Cut anywhere, an encoded text decodes to a prefix of that text - if no character was cut. */
  lemma {:induction false} CutText(s: string, n: nat) returns (k: nat)
    requires n <= |Encode(s)|
    ensures k <= |s|
    ensures Decode(Encode(s)[..n]).Some? ==> Decode(Encode(s)[..n]) == Some(s[..k]) && Encode(s[..k]) == Encode(s)[..n]
  {
    k := 0;
    if n > 0 {
      var head, rest := EncodeChar(s[0]), Encode(s[1..]);
      if n < |head| {
        CutCharacter(s[0], n);
        assert Encode(s)[..n] == head[..n];
      } else {
        k := CutText(s[1..], n - |head|);
        var cut := rest[..n - |head|];
        assert Encode(s)[..n] == head + cut;
        DecodeStep(s[0], cut);
        assert s[..k + 1] == [s[0]] + s[1..][..k] && s[..k + 1][1..] == s[1..][..k];
        k := k + 1;
      }
    }
  }
}
