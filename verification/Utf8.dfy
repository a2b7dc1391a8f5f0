/** UTF-8, as section 3 of RFC 3629 defines it, and what it means to cut it into pieces. */
module Utf8 {
  import opened Wrappers

  type byte = i: int | 0 <= i < 256

  function Encode(c: char): (b: seq<byte>)
    ensures 1 <= |b| <= 4
  {
    var n := c as int;
    if n < 0x80 then [n]
    else if n < 0x800 then [0xC0 + n / 64, 0x80 + n % 64]
    else if n < 0x10000 then [0xE0 + n / 4096, 0x80 + n / 64 % 64, 0x80 + n % 64]
    else [0xF0 + n / 262144, 0x80 + n / 4096 % 64, 0x80 + n / 64 % 64, 0x80 + n % 64]
  }

  function Bytes(s: string): seq<byte> {
    if s == [] then [] else Encode(s[0]) + Bytes(s[1..])
  }

  lemma {:induction false} BytesConcat(s: string, t: string)
    ensures Bytes(s + t) == Bytes(s) + Bytes(t)
  {
    if s == [] {
      assert s + t == t;
    } else {
      BytesConcat(s[1..], t);
      assert (s + t)[1..] == s[1..] + t;
    }
  }

  predicate Continuation(b: byte) {
    0x80 <= b < 0xC0
  }

  /** How many bytes a sequence with this first byte has; 0 if none may start with it. */
  function Length(b: byte): nat {
    if b < 0x80 then 1 else if b < 0xC0 then 0 else if b < 0xE0 then 2 else if b < 0xF0 then 3 else if b < 0xF8 then 4
        else 0
  }

  function CodePoint(b: seq<byte>): int
    requires 1 <= |b| <= 4
  {
    var lead: int := b[0];
    if |b| == 1 then lead
    else
      var low: int := b[|b| - 1];
      if |b| == 2 then (lead - 0xC0) * 64 + low - 0x80
      else
        var mid: int := b[|b| - 2];
        if |b| == 3 then (lead - 0xE0) * 4096 + (mid - 0x80) * 64 + low - 0x80
        else
          var high: int := b[1];
          (lead - 0xF0) * 262144 + (high - 0x80) * 4096 + (mid - 0x80) * 64 + low - 0x80
  }

  predicate Scalar(n: int) {
    0 <= n < 0xD800 || 0xE000 <= n < 0x110000
  }

  /** The character at the front, provided the bytes are its one well-formed encoding. */
  function DecodeFirst(b: seq<byte>): (r: Option<char>)
    requires b != []
    ensures r.Some? ==> Encode(r.value) <= b
  {
    var n := Length(b[0]);
    if n == 0 || n > |b| then None
    else
      var v := CodePoint(b[..n]);
      if Scalar(v) && Encode(v as char) == b[..n] then Some(v as char) else None
  }

  function Decode(b: seq<byte>): (r: Option<string>)
    decreases |b|
  {
    if b == [] then Some([])
    else
      match DecodeFirst(b)
      case None => None
      case Some(c) =>
        match Decode(b[|Encode(c)|..])
        case None => None
        case Some(s) => Some([c] + s)
  }

  lemma EncodeShape(c: char)
    ensures Length(Encode(c)[0]) == |Encode(c)|
    ensures forall i | 0 < i < |Encode(c)| :: Continuation(Encode(c)[i])
    ensures CodePoint(Encode(c)) == c as int
  {
    SplitSixes(c as int);
  }

  lemma SplitSixes(n: nat)
    ensures n == n / 64 * 64 + n % 64
    ensures n / 64 == n / 4096 * 64 + n / 64 % 64
    ensures n / 4096 == n / 262144 * 64 + n / 4096 % 64
  {
    assert n / 64 / 64 == n / 4096;
    assert n / 4096 / 64 == n / 262144;
  }

  lemma DecodeFirstEncoded(c: char, rest: seq<byte>)
    ensures DecodeFirst(Encode(c) + rest) == Some(c)
  {
    EncodeShape(c);
    assert (Encode(c) + rest)[..|Encode(c)|] == Encode(c);
  }

  /** Every text survives encoding and decoding. */
  lemma {:induction false} RoundTrip(s: string)
    ensures Decode(Bytes(s)) == Some(s)
  {
    if s != [] {
      RoundTrip(s[1..]);
      DecodeFirstEncoded(s[0], Bytes(s[1..]));
      assert Bytes(s)[|Encode(s[0])|..] == Bytes(s[1..]);
      assert s == [s[0]] + s[1..];
    }
  }

  /** Only the encoding of a text decodes to it. */
  lemma {:induction false} DecodeSound(b: seq<byte>)
    ensures Decode(b).Some? ==> Bytes(Decode(b).value) == b
    decreases |b|
  {
    if b != [] && DecodeFirst(b).Some? {
      var n := |Encode(DecodeFirst(b).value)|;
      DecodeSound(b[n..]);
      assert b == b[..n] + b[n..];
    }
  }

  /**
   * A cut of an encoded text leaves a well-formed first piece exactly when the second piece does not
   * start with a continuation byte.
   */
  lemma {:induction false} CutDecodes(s: string, b: seq<byte>, rest: seq<byte>)
    requires b + rest == Bytes(s)
    ensures Decode(b).Some? <==> rest == [] || !Continuation(rest[0])
    ensures Decode(b).Some? ==> Decode(b).value <= s && Bytes(s[|Decode(b).value|..]) == rest
  {
    if b == [] {
      assert rest == Bytes(s);
      if s != [] {
        EncodeShape(s[0]);
      }
    } else {
      var first := Encode(s[0]);
      EncodeShape(s[0]);
      assert b[0] == (b + rest)[0] == first[0];
      if |first| <= |b| {
        var b' := b[|first|..];
        assert b == first + b' by {
          assert forall i | 0 <= i < |first| :: b[i] == (b + rest)[i];
        }
        assert b' + rest == (b + rest)[|first|..] == Bytes(s[1..]);
        CutDecodes(s[1..], b', rest);
        DecodeFirstEncoded(s[0], b');
        assert b[|first|..] == b';
      } else {
        assert rest[0] == (b + rest)[|b|] == first[|b|];
      }
    }
  }
}
