/** UTF-8 as `TextEncoder` writes it. */
module TextEncoding {
  import opened Bytes
  import opened OrderedMap

  function Utf8Of(c: char): (bs: seq<byte>)
    ensures |bs| > 0
  {
    var n := c as int;
    if n < 0x80 then [n]
    else if n < 0x800 then [0xC0 + n / 0x40, 0x80 + n % 0x40]
    else if n < 0x1_0000 then [0xE0 + n / 0x1000, 0x80 + n / 0x40 % 0x40, 0x80 + n % 0x40]
    else [0xF0 + n / 0x4_0000, 0x80 + n / 0x1000 % 0x40, 0x80 + n / 0x40 % 0x40, 0x80 + n % 0x40]
  }

  function Utf8(s: string): seq<byte> {
    if s == [] then [] else Utf8Of(s[0]) + Utf8(s[1..])
  }

  lemma {:induction false} Utf8Concat(s: string, t: string)
    ensures Utf8(s + t) == Utf8(s) + Utf8(t)
  {
    if s == [] {
      assert s + t == t;
    } else {
      assert (s + t)[1..] == s[1..] + t;
      Utf8Concat(s[1..], t);
    }
  }

  // ---------- a decoder: RFC 3629, sections 3 and 4 ----------

  /** `10xxxxxx` */
  predicate IsTail(b: byte) {
    0x80 <= b < 0xC0
  }

  /** How many bytes a character takes, by the first of them. */
  function SequenceLength(b: byte): nat {
    if b < 0x80 then 1
    else if 0xC2 <= b < 0xE0 then 2
    else if 0xE0 <= b < 0xF0 then 3
    else if 0xF0 <= b < 0xF5 then 4
    else 0
  }

  /** The payload bits of a byte: what is below m. */
  function Bits(b: byte, m: int): int
    requires m > 0
  {
    (b as int) % m
  }

  /** The number in the payload bits of a sequence. */
  function Payload(bs: seq<byte>): int
    requires 0 < |bs| <= 4
  {
    if |bs| == 1 then bs[0] as int
    else if |bs| == 2 then 0x40 * Bits(bs[0], 0x20) + Bits(bs[1], 0x40)
    else if |bs| == 3 then 0x40 * (0x40 * Bits(bs[0], 0x10) + Bits(bs[1], 0x40)) + Bits(bs[2], 0x40)
    else 0x40 * (0x40 * (0x40 * Bits(bs[0], 8) + Bits(bs[1], 0x40)) + Bits(bs[2], 0x40)) + Bits(bs[3], 0x40)
  }

  /** The first character and how many bytes it takes: no more than it needs, and no surrogate. */
  function DecodeFirst(bs: seq<byte>): (r: Option<(char, nat)>)
    requires bs != []
    ensures r.Some? ==> 0 < r.value.1 <= |bs|
  {
    var k := SequenceLength(bs[0]);
    if k == 0 || k > |bs| || !(forall i :: 1 <= i < k ==> IsTail(bs[i])) then None
    else
      var n := Payload(bs[..k]);
      var least := if k == 1 then 0 else if k == 2 then 0x80 else if k == 3 then 0x800 else 0x1_0000;
      if n < least || 0xD800 <= n < 0xE000 || n >= 0x11_0000 then None else Some((n as char, k))
  }

  function Decode(bs: seq<byte>): Option<string> {
    if bs == [] then Some([])
    else
      match DecodeFirst(bs)
      case None => None
      case Some((c, k)) =>
        match Decode(bs[k..])
        case None => None
        case Some(s) => Some([c] + s)
  }

  lemma TailBits(n: nat)
    ensures Bits(0x80 + n % 0x40, 0x40) == n % 0x40
  {
  }

  /** A number is put together again from its parts below and above 0x40. */
  lemma Parts(n: nat)
    ensures 0x40 * (n / 0x40) + n % 0x40 == n
    ensures n / 0x1000 == n / 0x40 / 0x40 && n / 0x4_0000 == n / 0x1000 / 0x40
  {
  }

  lemma PayloadOf(c: char)
    ensures |Utf8Of(c)| <= 4 && Payload(Utf8Of(c)) == c as int
  {
    var n := c as int;
    if n < 0x800 {
      TailBits(n);
      Parts(n);
    } else if n < 0x1_0000 {
      PayloadOfThree(n);
    } else {
      PayloadOfFour(n);
    }
  }

  lemma PayloadOfThree(n: nat)
    requires 0x800 <= n < 0x1_0000
    ensures Payload([0xE0 + n / 0x1000, 0x80 + n / 0x40 % 0x40, 0x80 + n % 0x40]) == n
  {
    TailBits(n);
    TailBits(n / 0x40);
    Parts(n);
    Parts(n / 0x40);
    assert Bits(0xE0 + n / 0x1000, 0x10) == n / 0x1000;
  }

  lemma PayloadOfFour(n: nat)
    requires 0x1_0000 <= n < 0x11_0000
    ensures Payload([0xF0 + n / 0x4_0000, 0x80 + n / 0x1000 % 0x40, 0x80 + n / 0x40 % 0x40, 0x80 + n % 0x40]) == n
  {
    TailBits(n);
    TailBits(n / 0x40);
    TailBits(n / 0x1000);
    Parts(n);
    Parts(n / 0x40);
    Parts(n / 0x1000);
    assert Bits(0xF0 + n / 0x4_0000, 8) == n / 0x4_0000;
  }

  lemma ShapeOf(c: char)
    ensures var bs := Utf8Of(c); SequenceLength(bs[0]) == |bs| && forall i :: 1 <= i < |bs| ==> IsTail(bs[i])
  {
  }

  lemma DecodeFirstOf(c: char, rest: seq<byte>)
    ensures DecodeFirst(Utf8Of(c) + rest) == Some((c, |Utf8Of(c)|))
  {
    var bs := Utf8Of(c);
    PayloadOf(c);
    ShapeOf(c);
    assert (bs + rest)[..|bs|] == bs && (bs + rest)[0] == bs[0];
    assert forall i :: 1 <= i < |bs| ==> (bs + rest)[i] == bs[i];
  }

  /** Decoding what was encoded gives it back. */
  lemma {:induction false} Utf8Decodes(s: string)
    ensures Decode(Utf8(s)) == Some(s)
  {
    if s != [] {
      var bs, rest := Utf8Of(s[0]), Utf8(s[1..]);
      DecodeFirstOf(s[0], rest);
      assert (bs + rest)[|bs|..] == rest;
      Utf8Decodes(s[1..]);
      assert s == [s[0]] + s[1..];
    }
  }

  lemma Utf8Injective(s: string, t: string)
    requires Utf8(s) == Utf8(t)
    ensures s == t
  {
    Utf8Decodes(s);
    Utf8Decodes(t);
  }
}
