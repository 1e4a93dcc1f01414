/** Text as Unicode scalar values and its UTF-8 encoding (RFC 3629, section 3). */
module Utf8 {
  import opened Prelude

  type Scalar = c: int | (0 <= c < 0xD800) || (0xE000 <= c < 0x110000)

  function EncodeOne(c: Scalar): (b: seq<Byte>)
    ensures 1 <= |b| <= 4 && !IsContinuation(b[0]) && forall i :: 0 < i < |b| ==> IsContinuation(b[i])
    ensures b[0] < 0x80 <==> |b| == 1
  {
    if c < 0x80 then [c]
    else if c < 0x800 then [0xC0 + c / 0x40, 0x80 + c % 0x40]
    else if c < 0x10000 then [0xE0 + c / 0x1000, 0x80 + c / 0x40 % 0x40, 0x80 + c % 0x40]
    else [0xF0 + c / 0x40000, 0x80 + c / 0x1000 % 0x40, 0x80 + c / 0x40 % 0x40, 0x80 + c % 0x40]
  }

  // The character whose bits these bytes carry.
  function DecodeOne(b: seq<Byte>): int
    requires 1 <= |b| <= 4
  {
    match |b|
    case 1 => b[0] as int
    case 2 => (b[0] as int - 0xC0) * 64 + (b[1] as int - 0x80)
    case 3 => (b[0] as int - 0xE0) * 4096 + (b[1] as int - 0x80) * 64 + (b[2] as int - 0x80)
    case _ =>
      (b[0] as int - 0xF0) * 262144 + (b[1] as int - 0x80) * 4096 + (b[2] as int - 0x80) * 64 + (b[3] as int - 0x80)
  }

  /** The encoding of a character is the one of RFC 3629: its length by range, its lead byte by length, and
      its bits where lead and continuation bytes carry them. */
  lemma EncodeOneIsUtf8(c: Scalar)
    ensures var b := EncodeOne(c);
      && |b| == (if c <= 0x7F then 1 else if c <= 0x7FF then 2 else if c <= 0xFFFF then 3 else 4)
      && (|b| == 2 ==> 0xC2 <= b[0] <= 0xDF) && (|b| == 3 ==> 0xE0 <= b[0] <= 0xEF)
      && (|b| == 4 ==> 0xF0 <= b[0] <= 0xF4) && DecodeOne(b) == c
  {
    assert c == c / 0x40 * 0x40 + c % 0x40;
    assert c / 0x40 == c / 0x1000 * 0x40 + c / 0x40 % 0x40;
    assert c / 0x1000 == c / 0x40000 * 0x40 + c / 0x1000 % 0x40;
  }

  function Encode(text: seq<Scalar>): seq<Byte> {
    if text == [] then [] else EncodeOne(text[0]) + Encode(text[1..])
  }

  predicate IsContinuation(b: Byte) { 0x80 <= b < 0xC0 }

  // The offsets at which a string may be sliced.
  predicate Boundary(s: seq<Byte>, i: nat) {
    i == |s| || (i < |s| && !IsContinuation(s[i]))
  }

  lemma Associative(a: seq<Byte>, b: seq<Byte>, c: seq<Byte>)
    ensures a + (b + c) == (a + b) + c
  {
  }

  lemma {:induction false} EncodeConcat(a: seq<Scalar>, b: seq<Scalar>)
    ensures Encode(a + b) == Encode(a) + Encode(b)
  {
    if a == [] {
      assert a + b == b;
    } else {
      var all := a + b;
      assert all[0] == a[0] && all[1..] == a[1..] + b;
      assert Encode(all) == EncodeOne(a[0]) + Encode(a[1..] + b);
      EncodeConcat(a[1..], b);
      Associative(EncodeOne(a[0]), Encode(a[1..]), Encode(b));
    }
  }

  /** The boundaries of an encoding are exactly the ends of the encodings of the text's prefixes. */
  lemma {:induction false} BoundaryIsPrefix(text: seq<Scalar>, i: nat) returns (k: nat)
    requires Boundary(Encode(text), i)
    ensures k <= |text| && Encode(text)[..i] == Encode(text[..k])
  {
    if i == 0 {
      k := 0;
      return;
    }
    var first := EncodeOne(text[0]);
    assert forall j :: 0 < j < |first| ==> IsContinuation(first[j]) && Encode(text)[j] == first[j];
    assert i >= |first|;
    var j := i - |first|;
    assert Boundary(Encode(text[1..]), j) by {
      if i < |Encode(text)| {
        assert Encode(text)[i] == Encode(text[1..])[j];
      }
    }
    var k' := BoundaryIsPrefix(text[1..], j);
    k := k' + 1;
    assert text[..k][1..] == text[1..][..k'];
    assert Encode(text)[..i] == first + Encode(text[1..])[..j];
  }

  lemma {:induction false} PrefixIsBoundary(text: seq<Scalar>, k: nat)
    requires k <= |text|
    ensures |Encode(text[..k])| <= |Encode(text)| && Boundary(Encode(text), |Encode(text[..k])|)
  {
    EncodeConcat(text[..k], text[k..]);
    assert text == text[..k] + text[k..];
    if k < |text| {
      assert Encode(text)[|Encode(text[..k])|] == EncodeOne(text[k])[0];
    }
  }

  /** In an encoding an ASCII byte is a whole character: a boundary follows it. */
  lemma {:induction false} BoundaryAfterAscii(text: seq<Scalar>, i: nat)
    requires i < |Encode(text)| && Encode(text)[i] < 0x80
    ensures Boundary(Encode(text), i + 1)
  {
    var first, rest := EncodeOne(text[0]), Encode(text[1..]);
    assert Encode(text) == first + rest;
    if i < |first| {
      assert Encode(text)[i] == first[i];
      assert |first| == 1;
      if rest != [] {
        assert rest[0] == EncodeOne(text[1])[0];
      }
    } else {
      assert Encode(text)[i] == rest[i - |first|];
      BoundaryAfterAscii(text[1..], i - |first|);
      if i + 1 < |Encode(text)| {
        assert Encode(text)[i + 1] == rest[i + 1 - |first|];
      }
    }
  }
}
