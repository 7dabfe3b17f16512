/** Cache and pending keys, and the address normalisation inside them. */
module Keys {
  import opened CaseConversion
  import opened Collections
  import opened Decimal
  import opened Hex
  import opened OrderedMap
  import opened Text

  // ---------- hexadecimal ----------

  predicate IsHex(s: string) {
    s != [] && forall i :: 0 <= i < |s| ==> IsHexDigit(s[i])
  }

  /** The number hexadecimal digits denote. */
  function HexValue(s: string): nat
    requires forall i :: 0 <= i < |s| ==> IsHexDigit(s[i])
  {
    if s == [] then 0 else 16 * HexValue(s[..|s| - 1]) + HexDigitValue(s[|s| - 1])
  }

  // ---------- addresses ----------

  /** What follows an optional `0x` or `0X`. */
  function WithoutPrefix(addr: string): string {
    if |addr| >= 2 && addr[0] == '0' && (addr[1] == 'x' || addr[1] == 'X') then addr[2..] else addr
  }

  /** `normalizeMoveAddress`; None is its ValidationError. */
  function NormalizeMoveAddress(addr: string): Option<string> {
    var raw := WithoutPrefix(addr);
    if !IsHex(raw) || |raw| > 64 then None else Some("0x" + PadStart(Lower(raw), 64))
  }

  /** `normalizeEvmAddress`; None is its ValidationError. */
  function NormalizeEvmAddress(addr: string): Option<string> {
    var raw := WithoutPrefix(addr);
    if !IsHex(raw) || |raw| != 40 then None else Some("0x" + Lower(raw))
  }

  predicate LowerHex(s: string) {
    forall i :: 0 <= i < |s| ==> IsHexDigit(s[i]) && !IsUpper(s[i])
  }

  lemma {:induction false} LowerKeepsValue(s: string)
    requires forall i :: 0 <= i < |s| ==> IsHexDigit(s[i])
    ensures LowerHex(Lower(s)) && HexValue(Lower(s)) == HexValue(s)
  {
    if s != [] {
      var n := |s| - 1;
      LowerKeepsValue(s[..n]);
      assert Lower(s)[..n] == Lower(s[..n]);
    }
  }

  lemma {:induction false} ZerosKeepValue(n: nat, s: string)
    requires forall i :: 0 <= i < |s| ==> IsHexDigit(s[i])
    ensures HexValue(Zeros(n) + s) == HexValue(s)
  {
    var zeros := Zeros(n);
    if s != [] {
      var t := s[..|s| - 1];
      assert (zeros + s)[..|zeros + s| - 1] == zeros + t;
      ZerosKeepValue(n, t);
    } else if n > 0 {
      assert (zeros + s)[..n - 1] == Zeros(n - 1) + s;
      ZerosKeepValue(n - 1, s);
    }
  }

  lemma LowerDigitUnique(c: char, d: char)
    requires IsHexDigit(c) && !IsUpper(c) && IsHexDigit(d) && !IsUpper(d)
    requires HexDigitValue(c) == HexDigitValue(d)
    ensures c == d
  {
  }

  lemma SixteensUnique(a: nat, c: nat, b: nat, d: nat)
    requires 16 * a + c == 16 * b + d && c < 16 && d < 16
    ensures a == b && c == d
  {
  }

  /** Lower-case numerals of one length are told apart by their values. */
  lemma {:induction false} LowerHexUnique(s: string, t: string)
    requires LowerHex(s) && LowerHex(t) && |s| == |t|
    requires HexValue(s) == HexValue(t)
    ensures s == t
  {
    if s != [] {
      var n := |s| - 1;
      SixteensUnique(HexValue(s[..n]), HexDigitValue(s[n]), HexValue(t[..n]), HexDigitValue(t[n]));
      LowerDigitUnique(s[n], t[n]);
      LowerHexUnique(s[..n], t[..n]);
      assert s == s[..n] + [s[n]] && t == t[..n] + [t[n]];
    }
  }

  lemma PaddedForm(raw: string)
    requires IsHex(raw) && |raw| <= 64
    ensures var p := PadStart(Lower(raw), 64); |p| == 64 && LowerHex(p) && HexValue(p) == HexValue(raw)
  {
    LowerKeepsValue(raw);
    ZerosKeepValue(64 - |raw|, Lower(raw));
  }

  lemma MoveAddressForm(addr: string)
    requires NormalizeMoveAddress(addr).Some?
    ensures var raw, norm := WithoutPrefix(addr), NormalizeMoveAddress(addr).value;
            && |norm| == 66 && norm[..2] == "0x" && LowerHex(norm[2..])
            && HexValue(norm[2..]) == HexValue(raw)
  {
    var padded := PadStart(Lower(WithoutPrefix(addr)), 64);
    PaddedForm(WithoutPrefix(addr));
    assert ("0x" + padded)[2..] == padded && ("0x" + padded)[..2] == "0x";
  }

  /** Two accepted Move addresses normalise alike exactly when their digits denote the same number:
      prefix, case and leading zeros do not matter. */
  lemma MoveAddressCanonical(a: string, b: string)
    requires NormalizeMoveAddress(a).Some? && NormalizeMoveAddress(b).Some?
    ensures NormalizeMoveAddress(a) == NormalizeMoveAddress(b) <==>
            HexValue(WithoutPrefix(a)) == HexValue(WithoutPrefix(b))
  {
    MoveAddressForm(a);
    MoveAddressForm(b);
    var x, y := NormalizeMoveAddress(a).value, NormalizeMoveAddress(b).value;
    if HexValue(x[2..]) == HexValue(y[2..]) {
      LowerHexUnique(x[2..], y[2..]);
      assert x == x[..2] + x[2..] && y == y[..2] + y[2..];
    }
  }

  lemma LowerOfLowerHex(s: string)
    requires LowerHex(s)
    ensures Lower(s) == s
  {
  }

  /** Normalised addresses are the fixed points of normalisation. */
  lemma MoveAddressIdempotent(addr: string)
    requires NormalizeMoveAddress(addr).Some?
    ensures NormalizeMoveAddress(NormalizeMoveAddress(addr).value) == NormalizeMoveAddress(addr)
  {
    var norm := NormalizeMoveAddress(addr).value;
    MoveAddressForm(addr);
    assert WithoutPrefix(norm) == norm[2..];
    LowerOfLowerHex(norm[2..]);
    assert norm == "0x" + norm[2..];
    assert PadStart(norm[2..], 64) == norm[2..];
  }

  /** An EVM address in the form `normalizeEvmAddress` gives. */
  predicate IsEvmForm(s: string) {
    |s| == 42 && s[..2] == "0x" && LowerHex(s[2..])
  }

  /** The results of EVM normalisation are the strings of that form, and it leaves them as they are. */
  lemma EvmAddressForm(addr: string)
    ensures NormalizeEvmAddress(addr).Some? ==> IsEvmForm(NormalizeEvmAddress(addr).value)
    ensures IsEvmForm(addr) <==> NormalizeEvmAddress(addr) == Some(addr)
  {
    var raw := WithoutPrefix(addr);
    if IsHex(raw) {
      LowerKeepsValue(raw);
      assert ("0x" + Lower(raw))[2..] == Lower(raw);
    }
    if IsEvmForm(addr) {
      assert addr == "0x" + addr[2..];
      assert addr[0] == "0x"[0] && addr[1] == "0x"[1];
      assert raw == addr[2..];
      LowerOfLowerHex(raw);
    }
  }

  /** Which texts are addresses: an optional prefix, and 1 to 64 digits or exactly 40, of either case. */
  lemma AddressAccepted(addr: string)
    ensures NormalizeMoveAddress(addr).Some? <==>
            exists raw :: IsHex(raw) && |raw| <= 64 && IsPrefixed(addr, raw)
    ensures NormalizeEvmAddress(addr).Some? <==>
            exists raw :: IsHex(raw) && |raw| == 40 && IsPrefixed(addr, raw)
  {
    var raw := WithoutPrefix(addr);
    assert IsPrefixed(addr, raw) by {
      if raw != addr {
        assert addr == addr[..2] + raw;
        assert addr[..2] == "0x" || addr[..2] == "0X";
      }
    }
    forall r | IsHex(r) && IsPrefixed(addr, r) ensures r == raw {
      PrefixTaken(addr, r);
    }
  }

  /** addr is raw, or raw after `0x` or `0X`. */
  predicate IsPrefixed(addr: string, raw: string) {
    addr == raw || addr == "0x" + raw || addr == "0X" + raw
  }

  lemma PrefixTaken(addr: string, raw: string)
    requires IsHex(raw) && IsPrefixed(addr, raw)
    ensures WithoutPrefix(addr) == raw
  {
    if addr == raw {
      if |raw| >= 2 {
        assert IsHexDigit(raw[1]);
      }
    } else {
      assert addr[2..] == raw;
    }
  }

  lemma EvmAddressValue(addr: string)
    requires NormalizeEvmAddress(addr).Some?
    ensures var norm := NormalizeEvmAddress(addr).value;
            IsEvmForm(norm) && HexValue(norm[2..]) == HexValue(WithoutPrefix(addr))
  {
    EvmAddressForm(addr);
    LowerKeepsValue(WithoutPrefix(addr));
    assert ("0x" + Lower(WithoutPrefix(addr)))[2..] == Lower(WithoutPrefix(addr));
  }

  lemma EvmAddressCanonical(a: string, b: string)
    requires NormalizeEvmAddress(a).Some? && NormalizeEvmAddress(b).Some?
    ensures NormalizeEvmAddress(a) == NormalizeEvmAddress(b) <==>
            HexValue(WithoutPrefix(a)) == HexValue(WithoutPrefix(b))
  {
    var x, y := Lower(WithoutPrefix(a)), Lower(WithoutPrefix(b));
    LowerKeepsValue(WithoutPrefix(a));
    LowerKeepsValue(WithoutPrefix(b));
    assert ("0x" + x)[2..] == x && ("0x" + y)[2..] == y;
    if HexValue(x) == HexValue(y) {
      LowerHexUnique(x, y);
    }
  }

  // ---------- keys ----------

  /** `cacheKeys.moveAbi`, which normalises the address it is given; `pendingKeys.moveAbi` builds the same text. */
  function MoveAbiKey(chainId: string, addr: string, moduleName: string): Option<string> {
    if chainId == "" || moduleName == "" || NormalizeMoveAddress(addr).None? then None
    else Some(chainId + (":move:" + (NormalizeMoveAddress(addr).value + ([':'] + moduleName))))
  }

  function DenomToContractKey(chainId: string, denom: string): Option<string> {
    if chainId == "" || denom == "" then None else Some(chainId + (":d2c:" + denom))
  }

  function ContractToDenomKey(chainId: string, addr: string): Option<string> {
    if chainId == "" || NormalizeEvmAddress(addr).None? then None
    else Some(chainId + (":c2d:" + NormalizeEvmAddress(addr).value))
  }

  function DenomMappingKey(chainId: string, key: string): Option<string> {
    if chainId == "" then None else Some(chainId + (":denom:" + key))
  }

  /** `${chainId}:${buildCacheKey(...)}` with a height. */
  function HeightKey(chainId: string, service: string, methodName: string, requestHash: string, height: int): string {
    chainId + ([':'] + HeightTail(service, methodName, requestHash, height))
  }

  /** `buildCacheKey` with a height */
  function HeightTail(service: string, methodName: string, requestHash: string, height: int): string {
    service + (['.'] + (methodName + ([':'] + (requestHash + (":h" + IntText(height))))))
  }

  /** For one chain the Move ABI key is injective in the address value and the module name. */
  lemma MoveAbiKeyInjective(chainId: string, a: string, m: string, b: string, n: string)
    requires MoveAbiKey(chainId, a, m).Some? && MoveAbiKey(chainId, b, n).Some?
    ensures MoveAbiKey(chainId, a, m) == MoveAbiKey(chainId, b, n) <==>
            HexValue(WithoutPrefix(a)) == HexValue(WithoutPrefix(b)) && m == n
  {
    MoveAddressCanonical(a, b);
    MoveAddressForm(a);
    MoveAddressForm(b);
    var x, y := NormalizeMoveAddress(a).value, NormalizeMoveAddress(b).value;
    if MoveAbiKey(chainId, a, m) == MoveAbiKey(chainId, b, n) {
      CancelFront(chainId, ":move:" + (x + ([':'] + m)), ":move:" + (y + ([':'] + n)));
      CancelFront(":move:", x + ([':'] + m), y + ([':'] + n));
      Cancel(x, [':'] + m, y, [':'] + n);
      CancelFront([':'], m, n);
    }
  }

  lemma CancelFront(p: string, s: string, t: string)
    requires p + s == p + t
    ensures s == t
  {
    assert s == (p + s)[|p|..] && t == (p + t)[|p|..];
  }

  /** The text before the first c is fixed when neither part before it holds c. */
  lemma CancelField(p: string, s: string, q: string, t: string, c: char)
    requires c !in p && c !in q
    requires p + ([c] + s) == q + ([c] + t)
    ensures p == q && s == t
  {
    FirstAt(p, s, c);
    FirstAt(q, t, c);
    Cancel(p, [c] + s, q, [c] + t);
    CancelFront([c], s, t);
  }

  lemma FirstAt(p: string, s: string, c: char)
    requires c !in p
    ensures (p + ([c] + s))[|p|] == c
    ensures forall i :: 0 <= i < |p| ==> (p + ([c] + s))[i] != c
  {
  }

  /** Height keys tell service, method, request hash and height apart. */
  lemma HeightKeyInjective(chainId: string, s: string, m: string, r: string, h: int, s': string, m': string, r': string, h': int)
    requires '.' !in s && '.' !in s' && ':' !in m && ':' !in m' && ':' !in r && ':' !in r'
    requires HeightKey(chainId, s, m, r, h) == HeightKey(chainId, s', m', r', h')
    ensures s == s' && m == m' && r == r' && h == h'
  {
    CancelFront(chainId, [':'] + HeightTail(s, m, r, h), [':'] + HeightTail(s', m', r', h'));
    CancelFront([':'], HeightTail(s, m, r, h), HeightTail(s', m', r', h'));
    HeightTailForm(s, m, r, h);
    HeightTailForm(s', m', r', h');
    HeightPartsUnique(s, m, r, ['h'] + IntText(h), s', m', r', ['h'] + IntText(h'));
    CancelFront(['h'], IntText(h), IntText(h'));
    IntTextInjective(h, h');
  }

  lemma HeightTailForm(s: string, m: string, r: string, h: int)
    ensures HeightTail(s, m, r, h) == s + (['.'] + (m + ([':'] + (r + ([':'] + (['h'] + IntText(h)))))))
  {
    assert ":h" + IntText(h) == [':'] + (['h'] + IntText(h));
  }

  lemma HeightPartsUnique(s: string, m: string, r: string, u: string, s': string, m': string, r': string, v: string)
    requires '.' !in s && '.' !in s' && ':' !in m && ':' !in m' && ':' !in r && ':' !in r'
    requires s + (['.'] + (m + ([':'] + (r + ([':'] + u))))) == s' + (['.'] + (m' + ([':'] + (r' + ([':'] + v)))))
    ensures s == s' && m == m' && r == r' && u == v
  {
    CancelField(s, m + ([':'] + (r + ([':'] + u))), s', m' + ([':'] + (r' + ([':'] + v))), '.');
    CancelField(m, r + ([':'] + u), m', r' + ([':'] + v), ':');
    CancelField(r, u, r', v, ':');
  }

  /** No pending key of the height family, `h:` before a chain-prefixed key, is one of the families
      whose chain id is followed by `:move:` or `:denom:`, whatever the chain id is. */
  lemma HeightFamilyApart(chainId: string, rest: string, tail: string, c: char)
    requires chainId != "" && c != 'h' && c != ':'
    ensures "h:" + (chainId + ([':'] + rest)) != chainId + ([':', c] + tail)
  {
    var x, y := "h:" + (chainId + ([':'] + rest)), chainId + ([':', c] + tail);
    var n := |chainId|;
    assert x[n + 1] == chainId[n - 1] && y[n + 1] == c;
    if x == y {
      forall i | 0 <= i < n ensures chainId[i] == 'h' || chainId[i] == ':' {
        HeightFamilyPeriod(chainId, rest, tail, c, i);
      }
    }
  }

  lemma {:induction false} HeightFamilyPeriod(chainId: string, rest: string, tail: string, c: char, i: nat)
    requires i < |chainId|
    requires "h:" + (chainId + ([':'] + rest)) == chainId + ([':', c] + tail)
    ensures chainId[i] == 'h' || chainId[i] == ':'
  {
    var x, y := "h:" + (chainId + ([':'] + rest)), chainId + ([':', c] + tail);
    assert x[i] == y[i] == chainId[i];
    if i >= 2 {
      assert x[i] == chainId[i - 2];
      HeightFamilyPeriod(chainId, rest, tail, c, i - 2);
    }
  }
}
