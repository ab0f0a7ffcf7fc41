/**
 Cutting a command's output to a number of bytes without cutting a character:
 UTF-8 as in section 3 of RFC 3629.
 */
module Utf8 {
  import opened Prelude

  type Byte = b: int | 0 <= b < 256

  /** A Unicode scalar value: any code point but the surrogates. */
  type Scalar = c: int | 0 <= c <= 0x10FFFF && !(0xD800 <= c < 0xE000)

  function Encode(c: Scalar): (r: seq<Byte>)
    ensures 1 <= |r| <= 4
  {
    if c < 0x80 then [c]
    else if c < 0x800 then [0xC0 + c / 64, 0x80 + c % 64]
    else if c < 0x10000 then [0xE0 + c / 4096, 0x80 + c / 64 % 64, 0x80 + c % 64]
    else [0xF0 + c / 262144, 0x80 + c / 4096 % 64, 0x80 + c / 64 % 64, 0x80 + c % 64]
  }

  /** What a byte carries above its mark. */
  function Above(mark: int, b: int): int { b - mark }

  predicate Trails(b: Byte) { 0x80 <= b <= 0xBF }

  /** The character that one to four bytes stand for. */
  function Decode(r: seq<Byte>): Option<int> {
    if |r| == 1 && r[0] <= 0x7F then Some(r[0])
    else if |r| == 2 && 0xC2 <= r[0] <= 0xDF && Trails(r[1]) then
      Some(Above(0xC0, r[0]) * 0x40 + Above(0x80, r[1]))
    else if |r| == 3 && 0xE0 <= r[0] <= 0xEF && Trails(r[1]) && Trails(r[2]) then
      Some(Above(0xE0, r[0]) * 0x1000 + Above(0x80, r[1]) * 0x40 + Above(0x80, r[2]))
    else if |r| == 4 && 0xF0 <= r[0] <= 0xF4 && Trails(r[1]) && Trails(r[2]) && Trails(r[3]) then
      Some(Above(0xF0, r[0]) * 0x40000 + Above(0x80, r[1]) * 0x1000 + Above(0x80, r[2]) * 0x40 + Above(0x80, r[3]))
    else None
  }

  /** Every character is read back from its bytes, of which there are as many as its range asks for. */
  lemma EncodeReadsBack(c: Scalar)
    ensures Decode(Encode(c)) == Some(c)
    ensures |Encode(c)| == if c <= 0x7F then 1 else if c <= 0x7FF then 2 else if c <= 0xFFFF then 3 else 4
  {
    assert c / 64 / 64 == c / 4096 && c / 4096 / 64 == c / 262144;
  }

  function EncodeAll(cs: seq<Scalar>): seq<Byte> {
    if cs == [] then [] else Encode(cs[0]) + EncodeAll(cs[1..])
  }

  function Scalars(s: string): (cs: seq<Scalar>)
    ensures |cs| == |s|
  {
    seq(|s|, i requires 0 <= i < |s| => s[i] as int)
  }

  /** The bytes of a text. */
  function Bytes(s: string): seq<Byte> { EncodeAll(Scalars(s)) }

  /** One ellipsis character. */
  const ELLIPSIS: seq<Byte> := [0xE2, 0x80, 0xA6]

  lemma EllipsisIsOneCharacter()
    ensures Encode(0x2026) == ELLIPSIS
  {
  }

  predicate IsContinuation(b: Byte) { 0x80 <= b < 0xC0 }

  /** The test of the standard library: not in the middle of a character. */
  predicate IsBoundary(t: seq<Byte>, i: nat)
    requires i <= |t|
  {
    i == 0 || i == |t| || !IsContinuation(t[i])
  }

  /** The number of whole characters that fit into `max` bytes. */
  function Fits(cs: seq<Scalar>, max: nat): (n: nat)
    ensures n <= |cs|
  {
    if cs == [] || |Encode(cs[0])| > max then 0 else 1 + Fits(cs[1..], max - |Encode(cs[0])|)
  }

  function Truncated(cs: seq<Scalar>, max: nat): seq<Byte> {
    if |EncodeAll(cs)| <= max then EncodeAll(cs) else EncodeAll(cs[..Fits(cs, max)]) + ELLIPSIS
  }

  lemma Leading(c: Scalar)
    ensures !IsContinuation(Encode(c)[0])
    ensures forall k :: 1 <= k < |Encode(c)| ==> IsContinuation(Encode(c)[k])
  {
  }

  lemma {:induction false} EncodeOfConcat(a: seq<Scalar>, b: seq<Scalar>)
    ensures EncodeAll(a + b) == EncodeAll(a) + EncodeAll(b)
    decreases |a|
  {
    if a == [] {
      assert a + b == b;
    } else {
      assert (a + b)[1..] == a[1..] + b;
      EncodeOfConcat(a[1..], b);
    }
  }

  /** A text that is too long: a whole number of characters fits, and the next one does not. */
  lemma {:induction false} FitsIsLongest(cs: seq<Scalar>, max: nat)
    requires |EncodeAll(cs)| > max
    ensures var n := Fits(cs, max);
            n < |cs| && |EncodeAll(cs[..n])| <= max < |EncodeAll(cs[..n])| + |Encode(cs[n])|
    decreases |cs|
  {
    if |Encode(cs[0])| <= max {
      var m := max - |Encode(cs[0])|;
      FitsIsLongest(cs[1..], m);
      var n := Fits(cs[1..], m);
      assert cs[..n + 1][1..] == cs[1..][..n];
    }
  }

  /** The text around the character at which the cut falls. */
  lemma TextAround(cs: seq<Scalar>, n: nat)
    requires n < |cs|
    ensures EncodeAll(cs) == EncodeAll(cs[..n]) + (Encode(cs[n]) + EncodeAll(cs[n + 1..]))
  {
    assert cs == cs[..n] + cs[n..];
    EncodeOfConcat(cs[..n], cs[n..]);
    assert cs[n..][1..] == cs[n + 1..];
  }

  /** Between the start of that character and the limit there is no other boundary. */
  lemma BoundaryAround(cs: seq<Scalar>, n: nat, i: nat)
    requires n < |cs|
    requires |EncodeAll(cs[..n])| <= i < |EncodeAll(cs[..n])| + |Encode(cs[n])|
    ensures i < |EncodeAll(cs)| && (IsBoundary(EncodeAll(cs), i) <==> i == |EncodeAll(cs[..n])|)
  {
    hide EncodeAll, Encode;
    TextAround(cs, n);
    Leading(cs[n]);
    var p := |EncodeAll(cs[..n])|;
    assert EncodeAll(cs)[i] == Encode(cs[n])[i - p];
  }

  /**
   The longest prefix of whole characters within `max` bytes, and an ellipsis. The
   loop steps back at most three bytes.
   */
  method TruncateUtf8(ghost cs: seq<Scalar>, text: seq<Byte>, max: nat) returns (r: seq<Byte>, steps: nat)
    requires text == EncodeAll(cs)
    ensures r == Truncated(cs, max)
    ensures steps <= 3
  {
    steps := 0;
    if |text| <= max {
      return text, 0;
    }
    ghost var n := Fits(cs, max);
    ghost var p := |EncodeAll(cs[..n])|;
    FitsIsLongest(cs, max);
    var end := max;
    BoundaryAround(cs, n, end);
    while end > 0 && !IsBoundary(text, end)
      invariant p <= end <= max && end + steps == max
      invariant IsBoundary(text, end) <==> end == p
    {
      end := end - 1;
      steps := steps + 1;
      BoundaryAround(cs, n, end);
    }
    TextAround(cs, n);
    assert text[..end] == EncodeAll(cs[..n]);
    r := text[..end] + ELLIPSIS;
  }

  /** What is kept is a prefix in whole characters, as long as the limit allows. */
  lemma TruncatedIsLongest(cs: seq<Scalar>, max: nat)
    ensures |EncodeAll(cs)| <= max ==> Truncated(cs, max) == EncodeAll(cs)
    ensures |EncodeAll(cs)| > max ==> exists n ::
              && 0 <= n < |cs| && Truncated(cs, max) == EncodeAll(cs[..n]) + ELLIPSIS
              && |EncodeAll(cs[..n])| <= max < |EncodeAll(cs[..n + 1])|
              && max <= |EncodeAll(cs[..n])| + 3
  {
    if |EncodeAll(cs)| > max {
      FitsIsLongest(cs, max);
      var n := Fits(cs, max);
      assert cs[..n + 1] == cs[..n] + [cs[n]];
      EncodeOfConcat(cs[..n], [cs[n]]);
      assert EncodeAll([cs[n]]) == Encode(cs[n]) + EncodeAll([]);
      assert Truncated(cs, max) == EncodeAll(cs[..n]) + ELLIPSIS;
    }
  }

  /** The same for a text: how many of its characters fit. */
  lemma TextFitsIsLongest(s: string, max: nat)
    requires |Bytes(s)| > max
    ensures var n := Fits(Scalars(s), max);
            n < |s| && |Bytes(s[..n])| <= max < |Bytes(s[..n + 1])|
  {
    var cs := Scalars(s);
    var n := Fits(cs, max);
    FitsIsLongest(cs, max);
    assert Scalars(s[..n]) == cs[..n] && Scalars(s[..n + 1]) == cs[..n + 1];
    assert cs[..n + 1] == cs[..n] + [cs[n]];
    EncodeOfConcat(cs[..n], [cs[n]]);
    assert EncodeAll([cs[n]]) == Encode(cs[n]) + EncodeAll([]);
  }
}
