/** The withdrawal hash of the OPInit bridge: fixed-width encoding, concatenation, double SHA3-256. */
module WithdrawalHash {
  import opened Arithmetic
  import opened Bytes
  import opened Collections
  import opened TextEncoding

  /** Bytes in an encoded number. */
  const WIDTH: nat := 8

  const TWO_64 := 0x1_0000_0000_0000_0000

  // ---------- 8-byte big-endian encoding ----------

  /** The n low bytes of the two's complement form of v, highest first. */
  function BeBytes(v: int, n: nat): (bs: seq<byte>)
    ensures |bs| == n
    decreases n
  {
    if n == 0 then [] else BeBytes(v / 256, n - 1) + [v % 256]
  }

  /** The number big-endian bytes stand for. */
  function BeValue(bs: seq<byte>): nat {
    if bs == [] then 0 else 256 * BeValue(bs[..|bs| - 1]) + bs[|bs| - 1]
  }

  function Shifted(v: int, n: nat): int
    decreases n
  {
    if n == 0 then v else Shifted(v / 256, n - 1)
  }

  function Pow256(n: nat): (p: nat)
    ensures p > 0
  {
    if n == 0 then 1 else 256 * Pow256(n - 1)
  }

  lemma {:induction false} BeBytesAt(v: int, n: nat, i: nat)
    requires i < n
    ensures BeBytes(v, n)[i] == Shifted(v, n - 1 - i) % 256
    decreases n
  {
    if i < n - 1 {
      BeBytesAt(v / 256, n - 1, i);
    }
  }

  lemma {:induction false} ShiftedNext(v: int, n: nat)
    ensures Shifted(v, n + 1) == Shifted(v, n) / 256
    decreases n
  {
    if n > 0 {
      ShiftedNext(v / 256, n - 1);
    }
  }

  /** The loop of `bigintToBeBytes`: `value & 0xff` and `value >>= 8` are floor arithmetic. */
  method BigintToBeBytes(value: int) returns (buf: array<byte>)
    ensures fresh(buf) && buf[..] == BeBytes(value, WIDTH)
  {
    buf := new byte[8];
    var rest := value;
    var i := 7;
    while i >= 0
      invariant -1 <= i <= 7
      invariant rest == Shifted(value, 7 - i)
      invariant forall j :: i < j <= 7 ==> buf[j] == Shifted(value, 7 - j) % 256
    {
      buf[i] := rest % 256;
      ShiftedNext(value, 7 - i);
      rest := rest / 256;
      i := i - 1;
    }
    forall j | 0 <= j < 8 ensures buf[..][j] == BeBytes(value, WIDTH)[j] {
      BeBytesAt(value, WIDTH, j);
    }
  }

  lemma ModSplit(v: int, p: nat)
    requires p > 0
    ensures v % (256 * p) == 256 * (v / 256 % p) + v % 256
  {
    var q, r := v / 256, v % 256;
    var a, b := q / p, q % p;
    assert v == 256 * q + r && q == p * a + b;
    assert v == (256 * p) * a + (256 * b + r) by {
      assert 256 * (p * a) == (256 * p) * a;
    }
    assert 0 <= 256 * b + r < 256 * p;
    ModUnique(v, 256 * p, a, 256 * b + r);
  }

  /** Reading the bytes back gives the value modulo 256^n, for every integer. */
  lemma {:induction false} BeBytesRead(v: int, n: nat)
    ensures BeValue(BeBytes(v, n)) == v % Pow256(n)
    decreases n
  {
    if n > 0 {
      var bs := BeBytes(v, n);
      assert bs[..|bs| - 1] == BeBytes(v / 256, n - 1);
      BeBytesRead(v / 256, n - 1);
      ModSplit(v, Pow256(n - 1));
    }
  }

  /** The eight bytes read back as the value modulo 2^64. */
  lemma BeBytes8Read(v: int)
    ensures BeValue(BeBytes(v, WIDTH)) == v % TWO_64
  {
    BeBytesRead(v, WIDTH);
    assert Pow256(8) == TWO_64 by {
      assert Pow256(2) == 256 * 256;
      assert Pow256(4) == 256 * (256 * Pow256(2));
      assert Pow256(6) == 256 * (256 * Pow256(4));
      assert Pow256(8) == 256 * (256 * Pow256(6));
    }
  }

  // ---------- the preimage ----------

  /** The fields hashed. */
  datatype Withdrawal = Withdrawal(bridgeId: int, sequence: int, sender: string, receiver: string, denom: string, amount: int)

  /** SHA3-256 as far as the layout needs it. */
  ghost predicate IsDigest(sha3: seq<byte> -> seq<byte>) {
    forall m :: |sha3(m)| == 32
  }

  function Parts(sha3: seq<byte> -> seq<byte>, w: Withdrawal): (parts: seq<seq<byte>>)
    ensures |parts| == 6
  {
    [BeBytes(w.bridgeId, WIDTH), BeBytes(w.sequence, WIDTH),
     sha3(Utf8(w.sender)), sha3(Utf8(w.receiver)), sha3(Utf8(w.denom)), BeBytes(w.amount, WIDTH)]
  }

  function Flatten(parts: seq<seq<byte>>): seq<byte> {
    if parts == [] then [] else parts[0] + Flatten(parts[1..])
  }

  function TotalLength(parts: seq<seq<byte>>): nat {
    if parts == [] then 0 else |parts[0]| + TotalLength(parts[1..])
  }

  function Preimage(sha3: seq<byte> -> seq<byte>, w: Withdrawal): seq<byte> {
    Flatten(Parts(sha3, w))
  }

  lemma {:induction false} FlattenLength(parts: seq<seq<byte>>)
    ensures |Flatten(parts)| == TotalLength(parts)
  {
    if parts != [] {
      FlattenLength(parts[1..]);
    }
  }

  lemma {:induction false} FlattenSnoc(parts: seq<seq<byte>>, n: nat)
    requires n < |parts|
    ensures Flatten(parts[..n + 1]) == Flatten(parts[..n]) + parts[n]
  {
    if n == 0 {
      assert parts[..1][1..] == [] && parts[..0] == [];
    } else {
      FlattenSnoc(parts[1..], n - 1);
      assert parts[..n + 1][1..] == parts[1..][..n] && parts[..n][1..] == parts[1..][..n - 1];
    }
  }

  lemma FlattenPrefixFits(parts: seq<seq<byte>>, n: nat)
    requires n < |parts|
    ensures |Flatten(parts[..n])| + |parts[n]| <= TotalLength(parts)
  {
    FlattenSnoc(parts, n);
    FlattenLength(parts);
    FlattenPrefix(parts, n + 1);
  }

  lemma {:induction false} FlattenPrefix(parts: seq<seq<byte>>, n: nat)
    requires n <= |parts|
    ensures |Flatten(parts[..n])| <= |Flatten(parts)|
    decreases |parts| - n
  {
    if n < |parts| {
      FlattenSnoc(parts, n);
      FlattenPrefix(parts, n + 1);
    } else {
      assert parts[..n] == parts;
    }
  }

  lemma Split<T>(s: seq<T>, i: nat, j: nat)
    requires i <= j <= |s|
    ensures s[..j] == s[..i] + s[i..j]
  {
  }

  /** The parts copied into one buffer at a moving offset. */
  method Concatenate(parts: seq<seq<byte>>) returns (concat: array<byte>)
    ensures fresh(concat) && concat[..] == Flatten(parts)
  {
    concat := new byte[TotalLength(parts)];
    var offset := 0;
    for k := 0 to |parts|
      invariant offset == |Flatten(parts[..k])| <= concat.Length
      invariant concat[..offset] == Flatten(parts[..k])
    {
      FlattenPrefixFits(parts, k);
      FlattenSnoc(parts, k);
      Set(concat, parts[k], offset);
      Split(concat[..], offset, offset + |parts[k]|);
      offset := offset + |parts[k]|;
    }
    assert parts[..|parts|] == parts;
    FlattenLength(parts);
  }

  /** `calculateWithdrawalHash` */
  method CalculateWithdrawalHash(sha3: seq<byte> -> seq<byte>, w: Withdrawal) returns (hash: seq<byte>)
    ensures hash == sha3(sha3(Preimage(sha3, w)))
  {
    var bridgeId := BigintToBeBytes(w.bridgeId);
    var sequence := BigintToBeBytes(w.sequence);
    var amount := BigintToBeBytes(w.amount);
    var parts := [bridgeId[..], sequence[..], sha3(Utf8(w.sender)), sha3(Utf8(w.receiver)), sha3(Utf8(w.denom)), amount[..]];
    assert parts == Parts(sha3, w);
    var concat := Concatenate(parts);
    hash := sha3(sha3(concat[..]));
  }

  lemma {:induction false} FlattenUnique(a: seq<seq<byte>>, b: seq<seq<byte>>)
    requires |a| == |b| && forall i :: 0 <= i < |a| ==> |a[i]| == |b[i]|
    requires Flatten(a) == Flatten(b)
    ensures a == b
  {
    if a != [] {
      Cancel(a[0], Flatten(a[1..]), b[0], Flatten(b[1..]));
      FlattenUnique(a[1..], b[1..]);
      assert a == [a[0]] + a[1..] && b == [b[0]] + b[1..];
    }
  }

  lemma BeBytes8Equal(u: int, v: int)
    ensures BeBytes(u, WIDTH) == BeBytes(v, WIDTH) <==> u % TWO_64 == v % TWO_64
  {
    BeBytes8Read(u);
    BeBytes8Read(v);
    if BeValue(BeBytes(u, WIDTH)) == BeValue(BeBytes(v, WIDTH)) {
      BeValueInjective(BeBytes(u, WIDTH), BeBytes(v, WIDTH));
    }
  }

  lemma {:induction false} BeValueInjective(a: seq<byte>, b: seq<byte>)
    requires |a| == |b| && BeValue(a) == BeValue(b)
    ensures a == b
  {
    if a != [] {
      var n := |a| - 1;
      BeValueInjective(a[..n], b[..n]);
      assert a == a[..n] + [a[n]] && b == b[..n] + [b[n]];
    }
  }

  lemma TotalLengthFrom(parts: seq<seq<byte>>, i: nat)
    requires i < |parts|
    ensures TotalLength(parts[i..]) == |parts[i]| + TotalLength(parts[i + 1..])
  {
    assert parts[i..][1..] == parts[i + 1..];
  }

  lemma TotalLengthOf6(p: seq<seq<byte>>)
    requires |p| == 6
    ensures TotalLength(p) == |p[0]| + |p[1]| + |p[2]| + |p[3]| + |p[4]| + |p[5]|
  {
    TotalLengthFrom(p, 0);
    TotalLengthFrom(p, 1);
    TotalLengthFrom(p, 2);
    TotalLengthFrom(p, 3);
    TotalLengthFrom(p, 4);
    TotalLengthFrom(p, 5);
    assert p[0..] == p;
  }

  lemma SixPartsUnique(a: seq<seq<byte>>, b: seq<seq<byte>>)
    requires |a| == |b| == 6 && forall i :: 0 <= i < 6 ==> |a[i]| == |b[i]|
    ensures Flatten(a) == Flatten(b) <==>
            a[0] == b[0] && a[1] == b[1] && a[2] == b[2] && a[3] == b[3] && a[4] == b[4] && a[5] == b[5]
  {
    if Flatten(a) == Flatten(b) {
      FlattenUnique(a, b);
    }
    if a[0] == b[0] && a[1] == b[1] && a[2] == b[2] && a[3] == b[3] && a[4] == b[4] && a[5] == b[5] {
      assert a == b;
    }
  }

  /** The three numbers agree modulo 2^64 and the three digests agree. */
  ghost predicate SameEncoded(sha3: seq<byte> -> seq<byte>, v: Withdrawal, w: Withdrawal) {
    && v.bridgeId % TWO_64 == w.bridgeId % TWO_64
    && v.sequence % TWO_64 == w.sequence % TWO_64
    && v.amount % TWO_64 == w.amount % TWO_64
    && sha3(Utf8(v.sender)) == sha3(Utf8(w.sender))
    && sha3(Utf8(v.receiver)) == sha3(Utf8(w.receiver))
    && sha3(Utf8(v.denom)) == sha3(Utf8(w.denom))
  }

  /** The preimage is 120 bytes long. */
  lemma PreimageLength(sha3: seq<byte> -> seq<byte>, w: Withdrawal)
    requires IsDigest(sha3)
    ensures |Preimage(sha3, w)| == 120
  {
    var a := Parts(sha3, w);
    FlattenLength(a);
    TotalLengthOf6(a);
    assert |a[0]| == 8 && |a[1]| == 8 && |a[2]| == 32;
    assert |a[3]| == 32 && |a[4]| == 32 && |a[5]| == 8;
  }

  /** Where part k lies in the whole. */
  lemma FlattenAt(parts: seq<seq<byte>>, k: nat)
    requires k < |parts|
    ensures var start := |Flatten(parts[..k])|;
            start + |parts[k]| <= |Flatten(parts)| && Flatten(parts)[start..start + |parts[k]|] == parts[k]
  {
    FlattenSplit(parts, k);
    FlattenSnoc(parts, k);
    FlattenSplit(parts, k + 1);
    var before := Flatten(parts[..k]);
    assert Flatten(parts) == (before + parts[k]) + Flatten(parts[k + 1..]);
  }

  lemma {:induction false} FlattenSplit(parts: seq<seq<byte>>, k: nat)
    requires k <= |parts|
    ensures Flatten(parts) == Flatten(parts[..k]) + Flatten(parts[k..])
  {
    if k == 0 {
      assert parts[..0] == [] && parts[0..] == parts;
    } else {
      FlattenSplit(parts[1..], k - 1);
      assert parts[..k][1..] == parts[1..][..k - 1] && parts[k..] == parts[1..][k - 1..];
    }
  }

  lemma SixStarts(parts: seq<seq<byte>>)
    requires |parts| == 6 && |parts[0]| == |parts[1]| == |parts[5]| == 8
    requires |parts[2]| == |parts[3]| == |parts[4]| == 32
    ensures |Flatten(parts[..0])| == 0 && |Flatten(parts[..1])| == 8 && |Flatten(parts[..2])| == 16
    ensures |Flatten(parts[..3])| == 48 && |Flatten(parts[..4])| == 80 && |Flatten(parts[..5])| == 112
  {
    FlattenSnoc(parts, 0);
    FlattenSnoc(parts, 1);
    FlattenSnoc(parts, 2);
    FlattenSnoc(parts, 3);
    FlattenSnoc(parts, 4);
  }

  /** Which bytes of the preimage are which field. */
  lemma PreimageFields(sha3: seq<byte> -> seq<byte>, w: Withdrawal)
    requires IsDigest(sha3)
    ensures var p := Preimage(sha3, w);
            && |p| == 120
            && BeValue(p[0..8]) == w.bridgeId % TWO_64 && BeValue(p[8..16]) == w.sequence % TWO_64
            && p[16..48] == sha3(Utf8(w.sender)) && p[48..80] == sha3(Utf8(w.receiver)) && p[80..112] == sha3(Utf8(w.denom))
            && BeValue(p[112..120]) == w.amount % TWO_64
  {
    var parts := Parts(sha3, w);
    PreimageLength(sha3, w);
    SixStarts(parts);
    FlattenAt(parts, 0);
    FlattenAt(parts, 1);
    FlattenAt(parts, 2);
    FlattenAt(parts, 3);
    FlattenAt(parts, 4);
    FlattenAt(parts, 5);
    BeBytes8Read(w.bridgeId);
    BeBytes8Read(w.sequence);
    BeBytes8Read(w.amount);
  }

  /** Two preimages agree exactly when all that is encoded does. */
  lemma PreimageUnique(sha3: seq<byte> -> seq<byte>, v: Withdrawal, w: Withdrawal)
    requires IsDigest(sha3)
    ensures Preimage(sha3, v) == Preimage(sha3, w) <==> SameEncoded(sha3, v, w)
  {
    SixPartsUnique(Parts(sha3, v), Parts(sha3, w));
    BeBytes8Equal(v.bridgeId, w.bridgeId);
    BeBytes8Equal(v.sequence, w.sequence);
    BeBytes8Equal(v.amount, w.amount);
  }

  predicate Fits64(w: Withdrawal) {
    0 <= w.bridgeId < TWO_64 && 0 <= w.sequence < TWO_64 && 0 <= w.amount < TWO_64
  }

  /** Two different messages with one digest. */
  predicate Collide(sha3: seq<byte> -> seq<byte>, m: seq<byte>, n: seq<byte>) {
    m != n && sha3(m) == sha3(n)
  }

  /** What is hashed on the way: the three texts, the preimage, and its digest. */
  function Hashed(sha3: seq<byte> -> seq<byte>, w: Withdrawal): (ms: seq<seq<byte>>)
    ensures |ms| == 5
  {
    [Utf8(w.sender), Utf8(w.receiver), Utf8(w.denom), Preimage(sha3, w), sha3(Preimage(sha3, w))]
  }

  /** Two withdrawals have one hash exactly when all that is encoded agrees, or the preimages or
      their digests collide. */
  lemma HashUnique(sha3: seq<byte> -> seq<byte>, v: Withdrawal, w: Withdrawal)
    requires IsDigest(sha3)
    ensures sha3(sha3(Preimage(sha3, v))) == sha3(sha3(Preimage(sha3, w))) <==>
            || SameEncoded(sha3, v, w)
            || Collide(sha3, Preimage(sha3, v), Preimage(sha3, w))
            || Collide(sha3, sha3(Preimage(sha3, v)), sha3(Preimage(sha3, w)))
  {
    PreimageUnique(sha3, v, w);
  }

  lemma SameTextOrCollide(sha3: seq<byte> -> seq<byte>, s: string, t: string)
    requires sha3(Utf8(s)) == sha3(Utf8(t))
    ensures s == t || Collide(sha3, Utf8(s), Utf8(t))
  {
    if Utf8(s) == Utf8(t) {
      Utf8Injective(s, t);
    }
  }

  lemma SameNumbers(sha3: seq<byte> -> seq<byte>, v: Withdrawal, w: Withdrawal)
    requires Fits64(v) && Fits64(w) && SameEncoded(sha3, v, w)
    ensures v.bridgeId == w.bridgeId && v.sequence == w.sequence && v.amount == w.amount
  {
  }

  lemma SameEncodedOrCollide(sha3: seq<byte> -> seq<byte>, v: Withdrawal, w: Withdrawal)
    requires Fits64(v) && Fits64(w) && SameEncoded(sha3, v, w)
    ensures || v == w || Collide(sha3, Utf8(v.sender), Utf8(w.sender))
            || Collide(sha3, Utf8(v.receiver), Utf8(w.receiver)) || Collide(sha3, Utf8(v.denom), Utf8(w.denom))
  {
    SameNumbers(sha3, v, w);
    SameTextOrCollide(sha3, v.sender, w.sender);
    SameTextOrCollide(sha3, v.receiver, w.receiver);
    SameTextOrCollide(sha3, v.denom, w.denom);
  }

  /** Some message of the one list collides with its partner in the other. */
  ghost predicate CollideSomewhere(sha3: seq<byte> -> seq<byte>, ms: seq<seq<byte>>, ns: seq<seq<byte>>) {
    |ms| == |ns| && exists k :: 0 <= k < |ms| && Collide(sha3, ms[k], ns[k])
  }

  lemma CollidesAt(sha3: seq<byte> -> seq<byte>, ms: seq<seq<byte>>, ns: seq<seq<byte>>, m: seq<byte>, n: seq<byte>, k: nat)
    requires |ms| == |ns| && k < |ms| && ms[k] == m && ns[k] == n
    ensures Collide(sha3, m, n) ==> CollideSomewhere(sha3, ms, ns)
  {
  }

  /** Two withdrawals whose numbers fit 64 bits and that have one hash are the same withdrawal, or
      exhibit a collision of SHA3-256 at one of the five places where both are hashed. */
  lemma HashInjective(sha3: seq<byte> -> seq<byte>, v: Withdrawal, w: Withdrawal)
    requires IsDigest(sha3) && Fits64(v) && Fits64(w)
    requires sha3(sha3(Preimage(sha3, v))) == sha3(sha3(Preimage(sha3, w)))
    ensures v == w || CollideSomewhere(sha3, Hashed(sha3, v), Hashed(sha3, w))
  {
    var ms, ns := Hashed(sha3, v), Hashed(sha3, w);
    HashUnique(sha3, v, w);
    CollidesAt(sha3, ms, ns, Utf8(v.sender), Utf8(w.sender), 0);
    CollidesAt(sha3, ms, ns, Utf8(v.receiver), Utf8(w.receiver), 1);
    CollidesAt(sha3, ms, ns, Utf8(v.denom), Utf8(w.denom), 2);
    CollidesAt(sha3, ms, ns, Preimage(sha3, v), Preimage(sha3, w), 3);
    CollidesAt(sha3, ms, ns, sha3(Preimage(sha3, v)), sha3(Preimage(sha3, w)), 4);
    if SameEncoded(sha3, v, w) {
      SameEncodedOrCollide(sha3, v, w);
    }
  }
}
