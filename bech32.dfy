/**
 * The byte side of an `npub` key (NIP-19 bare keys over Bech32, BIP-173): the 5-bit data
 * groups the decoder returns are regrouped into bytes by `convert_bits(data, 5, 8, false)`
 * (the reference algorithm of BIP-173, which the bech32 gem implements), and the bytes are
 * written as lowercase hex by `pack('C*').unpack1('H*')`.
 *
 * The reference definition: the groups, read as one big-endian base-32 number, carry
 * 5·n bits; the bytes are the first 8·⌊5n/8⌋ of those bits, and the leftover bits must be
 * fewer than 5 and all zero.
 */
module Bech32 {
  import opened Wrappers

  function Pow2(k: nat): (p: nat)
    ensures p > 0
  {
    if k == 0 then 1 else 2 * Pow2(k - 1)
  }

  lemma {:induction false} Pow2Add(a: nat, b: nat)
    ensures Pow2(a + b) == Pow2(a) * Pow2(b)
    decreases a
  {
    if a > 0 {
      Pow2Add(a - 1, b);
      assert Pow2(a + b) == 2 * Pow2(a - 1 + b);
    }
  }

  lemma Pow2Small()
    ensures Pow2(5) == 32 && Pow2(8) == 256 && Pow2(12) == 4096
  {
    Pow2Add(4, 4);
    Pow2Add(8, 4);
    Pow2Add(4, 1);
  }

  /** The big-endian value of a sequence of digits. */
  function FromDigits(ds: seq<int>, base: nat): int {
    if ds == [] then 0 else FromDigits(ds[..|ds| - 1], base) * base + ds[|ds| - 1]
  }

  /** The `n` lowest big-endian bytes of `v`. */
  function ToBytes(v: nat, n: nat): (ds: seq<int>)
    ensures |ds| == n
  {
    if n == 0 then [] else ToBytes(v / 256, n - 1) + [v % 256]
  }

  predicate DigitsBelow(ds: seq<int>, base: nat) {
    forall k :: 0 <= k < |ds| ==> 0 <= ds[k] < base
  }

  // ---------------------------------------------------------------------------
  // Division facts

  lemma MulAtLeast(k: int, d: int)
    requires k >= 1 && d > 0
    ensures k * d >= d
  {
  }

  /** Euclidean division is unique: `q·d + r` with `0 <= r < d` divides as `q` and `r`. */
  lemma DivModOf(q: int, d: int, r: int)
    requires d > 0 && 0 <= r < d
    ensures (q * d + r) / d == q && (q * d + r) % d == r
  {
    var x := q * d + r;
    var k := q - x / d;
    assert x == d * (x / d) + x % d;
    assert k * d == x % d - r;
    if k > 0 {
      MulAtLeast(k, d);
    } else if k < 0 {
      MulAtLeast(-k, d);
    }
  }

  /** Taking `mod m·r` first does not change the remainder mod `m`. */
  lemma ModMod(x: int, m: int, r: int)
    requires m > 0 && r > 0
    ensures (x % (m * r)) % m == x % m
  {
    var q := x / (m * r);
    var y := x % (m * r);
    assert x == (m * r) * q + y;
    assert x == m * (x / m) + x % m;
    assert y == (x / m - r * q) * m + x % m by {
      assert (m * r) * q == (r * q) * m;
    }
    DivModOf(x / m - r * q, m, x % m);
  }

  /** Shifting five bits in: the low `b + 5` bits of the new 12-bit accumulator are the old
      low `b` bits followed by the new group. */
  lemma Absorb(acc: int, v: int, p: int, r: int)
    requires 0 <= acc && 0 <= v < 32 && p > 0 && r > 0 && (p * 32) * r == 4096
    ensures ((acc * 32 + v) % 4096) % (p * 32) == (acc % p) * 32 + v
  {
    var x := acc * 32 + v;
    var m := p * 32;
    ModMod(x, m, r);
    assert acc == p * (acc / p) + acc % p;
    assert x == (acc / p) * m + ((acc % p) * 32 + v) by {
      assert acc * 32 == (p * (acc / p)) * 32 + (acc % p) * 32;
    }
    assert (acc % p) * 32 + v < m by {
      assert acc % p <= p - 1;
      assert (acc % p) * 32 <= (p - 1) * 32;
    }
    DivModOf(acc / p, m, (acc % p) * 32 + v);
  }

  /** Taking a byte out: the low `8 + k` bits are that byte above the low `k` bits. */
  lemma Emit(acc: int, q: int)
    requires 0 <= acc && q > 0
    ensures acc % (q * 256) == ((acc / q) % 256) * q + acc % q
  {
    var hi := acc / q;
    var lo := acc % q;
    var top := hi / 256;
    var byte := hi % 256;
    assert acc == q * hi + lo;
    assert hi == 256 * top + byte;
    ShiftOut(top, q, byte, lo);
    assert q * hi == (top * 256 + byte) * q;
    DigitBelow(byte, q, lo);
    DivModOf(top, q * 256, byte * q + lo);
  }

  /** A byte above a remainder below `q` stays below `256·q`. */
  lemma DigitBelow(byte: int, q: int, lo: int)
    requires 0 <= byte < 256 && 0 <= lo < q
    ensures 0 <= byte * q + lo < q * 256
  {
    assert (255 - byte) * q >= 0;
    assert byte * q == 255 * q - (255 - byte) * q;
  }

  /** The final padding check: the leftover `b` bits shifted up to a byte are zero exactly
      when they are zero. */
  lemma PaddingZero(acc: int, p: int, s: int)
    requires 0 <= acc && p > 0 && s > 0 && p * s == 256
    ensures (acc * s) % 256 == 0 <==> acc % p == 0
  {
    assert acc == p * (acc / p) + acc % p;
    assert acc * s == (acc / p) * 256 + (acc % p) * s by {
      assert (p * (acc / p)) * s == (acc / p) * (p * s);
    }
    assert (acc % p) * s < 256 by {
      assert (acc % p) * s <= (p - 1) * s;
    }
    DivModOf(acc / p, 256, (acc % p) * s);
    if acc % p != 0 {
      MulAtLeast(acc % p, s);
    }
  }

  lemma ShiftIn(f: int, p: int, a: int, d: int, v: int)
    requires f * p + a == d
    ensures f * (p * 32) + (a * 32 + v) == d * 32 + v
  {
    assert f * (p * 32) == (f * p) * 32;
  }

  lemma ShiftOut(f: int, q: int, byte: int, a: int)
    ensures f * (q * 256) + (byte * q + a) == (f * 256 + byte) * q + a
  {
    assert f * (q * 256) == (f * 256) * q;
  }

  // ---------------------------------------------------------------------------
  // The reference definition and the loop

  /** What `convert_bits(data, 5, 8, false)` returns: nil for a value outside 0..31, or when
      the leftover bits are 5 or more, or not all zero; otherwise the bytes. */
  function Regrouped(data: seq<int>): Option<seq<int>> {
    if !DigitsBelow(data, 32) then None
    else
      var pad := (5 * |data|) % 8;
      var value := FromDigits(data, 32);
      if pad >= 5 || value % Pow2(pad) != 0 then None
      else if value < 0 then None
      else Some(ToBytes(value / Pow2(pad), (5 * |data|) / 8))
  }

  lemma {:induction false} FromDigitsNonNegative(ds: seq<int>, base: nat)
    requires DigitsBelow(ds, base)
    ensures FromDigits(ds, base) >= 0
    decreases |ds|
  {
    if ds != [] {
      FromDigitsNonNegative(ds[..|ds| - 1], base);
    }
  }

  /** Bytes read back: `ToBytes` inverts `FromDigits` on byte sequences. */
  lemma {:induction false} ToBytesOfFromDigits(ds: seq<int>)
    requires DigitsBelow(ds, 256)
    ensures FromDigits(ds, 256) >= 0
    ensures ToBytes(FromDigits(ds, 256), |ds|) == ds
    decreases |ds|
  {
    FromDigitsNonNegative(ds, 256);
    if ds != [] {
      var init := ds[..|ds| - 1];
      ToBytesOfFromDigits(init);
      FromDigitsNonNegative(init, 256);
      assert ds == init + [ds[|ds| - 1]];
    }
  }

  /** The accumulator invariant of the loop: the bytes so far followed by the low `bits`
      bits of the accumulator carry the value of the groups read so far. */
  predicate Carries(ret: seq<int>, acc: int, bits: nat, groups: seq<int>) {
    FromDigits(ret, 256) * Pow2(bits) + acc % Pow2(bits) == FromDigits(groups, 32)
  }

  /** Shifting group `v` into the accumulator keeps the invariant with five more bits. */
  lemma AbsorbStep(ret: seq<int>, acc: int, bits: nat, groups: seq<int>, v: int)
    requires 0 <= acc && bits < 8 && 0 <= v < 32 && Carries(ret, acc, bits, groups)
    ensures Carries(ret, (acc * 32 + v) % 4096, bits + 5, groups + [v])
  {
    assert (groups + [v])[..|groups|] == groups;
    Pow2Add(bits, 5);
    Pow2Small();
    Pow2Add(bits + 5, 7 - bits);
    Absorb(acc, v, Pow2(bits), Pow2(7 - bits));
    ShiftIn(FromDigits(ret, 256), Pow2(bits), acc % Pow2(bits), FromDigits(groups, 32), v);
  }

  /** Taking the top byte of the pending bits keeps the invariant with eight fewer bits. */
  lemma EmitStep(ret: seq<int>, acc: int, bits: nat, groups: seq<int>)
    requires 0 <= acc && bits >= 8 && Carries(ret, acc, bits, groups)
    ensures Carries(ret + [(acc / Pow2(bits - 8)) % 256], acc, bits - 8, groups)
  {
    var byte := (acc / Pow2(bits - 8)) % 256;
    assert (ret + [byte])[..|ret|] == ret;
    Pow2Add(bits - 8, 8);
    Pow2Small();
    Emit(acc, Pow2(bits - 8));
    ShiftOut(FromDigits(ret, 256), Pow2(bits - 8), byte, acc % Pow2(bits - 8));
  }

  /** The final check of the loop decides exactly as the reference definition. */
  lemma FinishStep(ret: seq<int>, acc: int, bits: nat, data: seq<int>)
    requires DigitsBelow(data, 32) && DigitsBelow(ret, 256)
    requires 0 <= acc && bits < 8 && |ret| * 8 + bits == 5 * |data|
    requires Carries(ret, acc, bits, data)
    ensures Regrouped(data) == if bits >= 5 || (acc * Pow2(8 - bits)) % 256 != 0 then None else Some(ret)
  {
    DivModOf(|ret|, 8, bits);
    FromDigitsNonNegative(data, 32);
    FromDigitsNonNegative(ret, 256);
    Pow2Add(bits, 8 - bits);
    Pow2Small();
    PaddingZero(acc, Pow2(bits), Pow2(8 - bits));
    DivModOf(FromDigits(ret, 256), Pow2(bits), acc % Pow2(bits));
    ToBytesOfFromDigits(ret);
  }

  /** `convert_bits(data, 5, 8, false)`, as the reference loop: a 12-bit accumulator takes
      five bits per group and gives up a byte whenever it holds eight or more. */
  method ConvertBits(data: seq<int>) returns (r: Option<seq<int>>)
    ensures r == Regrouped(data)
  {
    var acc := 0;
    var bits := 0;
    var ret: seq<int> := [];
    var i := 0;
    while i < |data|
      invariant 0 <= i <= |data|
      invariant DigitsBelow(data[..i], 32)
      invariant 0 <= bits < 8 && |ret| * 8 + bits == 5 * i
      invariant 0 <= acc < 4096
      invariant DigitsBelow(ret, 256)
      invariant Carries(ret, acc, bits, data[..i])
    {
      var v := data[i];
      if v < 0 || v / 32 != 0 {
        assert !DigitsBelow(data, 32);
        return None;
      }
      AbsorbStep(ret, acc, bits, data[..i], v);
      assert data[..i] + [v] == data[..i + 1];
      acc := (acc * 32 + v) % 4096;
      bits := bits + 5;
      i := i + 1;
      while bits >= 8
        invariant 0 <= bits <= 12
        invariant |ret| * 8 + bits == 5 * i
        invariant DigitsBelow(ret, 256)
        invariant Carries(ret, acc, bits, data[..i])
      {
        EmitStep(ret, acc, bits, data[..i]);
        ret := ret + [(acc / Pow2(bits - 8)) % 256];
        bits := bits - 8;
      }
    }
    assert data[..i] == data;
    FinishStep(ret, acc, bits, data);
    if bits >= 5 || (acc * Pow2(8 - bits)) % 256 != 0 {
      return None;
    }
    r := Some(ret);
  }

  /** A regrouping that succeeds gives bytes carrying exactly the groups' bits: as many bytes
      as whole bytes fit in 5·n bits, and the groups' value is the bytes' value followed by
      the (zero) leftover bits. */
  lemma RegroupedValue(data: seq<int>)
    requires Regrouped(data).Some?
    ensures var bytes := Regrouped(data).value;
      && |bytes| == (5 * |data|) / 8
      && DigitsBelow(bytes, 256)
      && FromDigits(bytes, 256) * Pow2((5 * |data|) % 8) == FromDigits(data, 32)
  {
    var pad := (5 * |data|) % 8;
    var value := FromDigits(data, 32);
    var n := (5 * |data|) / 8;
    var p := Pow2(pad);
    FromDigitsNonNegative(data, 32);
    assert Regrouped(data).value == ToBytes(value / p, n);
    assert value % p == 0;
    ToBytesBelow(value / p, n);
    ValueBound(data);
    Pow2Add(8 * n, pad);
    assert 8 * n + pad == 5 * |data|;
    QuotientBound(value, p, Pow2(8 * n));
    ToBytesValue(value / p, n);
    ExactQuotient(value, p);
  }

  /** A value below `b·p` divided by `p` is below `b`. */
  lemma QuotientBound(value: int, p: int, b: int)
    requires p > 0 && b > 0 && 0 <= value < b * p
    ensures value / p < b
  {
    var q := value / p;
    assert value == p * q + value % p;
    PositiveFactor(p, b - q);
  }

  lemma PositiveFactor(p: int, x: int)
    requires p > 0 && p * x > 0
    ensures x > 0
  {
  }

  /** A multiple of `p` divided by `p` and multiplied back is itself. */
  lemma ExactQuotient(value: int, p: int)
    requires p > 0 && value % p == 0
    ensures (value / p) * p == value
  {
    assert value == p * (value / p) + value % p;
  }

  /** Every `ToBytes` entry is a byte. */
  lemma {:induction false} ToBytesBelow(v: nat, n: nat)
    ensures DigitsBelow(ToBytes(v, n), 256)
    decreases n
  {
    if n > 0 {
      ToBytesBelow(v / 256, n - 1);
    }
  }

  /** `ToBytes` keeps the value when it fits in `n` bytes. */
  lemma {:induction false} ToBytesValue(v: nat, n: nat)
    ensures v < Pow2(8 * n) ==> FromDigits(ToBytes(v, n), 256) == v
    decreases n
  {
    if n > 0 && v < Pow2(8 * n) {
      var ds := ToBytes(v, n);
      assert ds[..|ds| - 1] == ToBytes(v / 256, n - 1);
      Pow2Add(8 * (n - 1), 8);
      Pow2Small();
      assert v / 256 < Pow2(8 * (n - 1));
      ToBytesValue(v / 256, n - 1);
    }
  }

  /** `n` base-32 digits are below 2^(5n). */
  lemma {:induction false} ValueBound(ds: seq<int>)
    requires DigitsBelow(ds, 32)
    ensures FromDigits(ds, 32) < Pow2(5 * |ds|)
    decreases |ds|
  {
    if ds != [] {
      var init := ds[..|ds| - 1];
      ValueBound(init);
      Pow2Add(5 * |init|, 5);
      Pow2Small();
      assert 5 * |ds| == 5 * |init| + 5;
    }
  }

  // ---------------------------------------------------------------------------
  // Hex

  /** The lowercase hex digit of a value below 16. */
  function HexDigit(d: nat): (c: char)
    requires d < 16
    ensures IsHexDigit(c)
  {
    if d < 10 then ('0' as int + d) as char else ('a' as int + d - 10) as char
  }

  predicate IsHexDigit(c: char) {
    '0' <= c <= '9' || 'a' <= c <= 'f'
  }

  /** `pack('C*').unpack1('H*')`: two lowercase hex digits per byte, high nibble first. */
  function Hex(bytes: seq<int>): (h: seq<char>)
    requires DigitsBelow(bytes, 256)
    ensures |h| == 2 * |bytes|
    ensures forall k :: 0 <= k < |h| ==> IsHexDigit(h[k])
  {
    if bytes == [] then []
    else [HexDigit(bytes[0] / 16), HexDigit(bytes[0] % 16)] + Hex(bytes[1..])
  }

  /** The value of a hex digit. */
  function NibbleValue(c: char): (n: nat)
    ensures n < 16
  {
    if '0' <= c <= '9' then (c as int - '0' as int)
    else if 'a' <= c <= 'f' then (c as int - 'a' as int + 10)
    else 0
  }

  /** Reading hex back, two digits per byte. */
  function Unhex(h: seq<char>): seq<int>
    decreases |h|
  {
    if |h| < 2 then [] else [NibbleValue(h[0]) * 16 + NibbleValue(h[1])] + Unhex(h[2..])
  }

  /** The hex key gives back the bytes: no two byte strings share a hex key. */
  lemma {:induction false} UnhexOfHex(bytes: seq<int>)
    requires DigitsBelow(bytes, 256)
    ensures Unhex(Hex(bytes)) == bytes
    decreases |bytes|
  {
    if bytes != [] {
      var b := bytes[0];
      var h := Hex(bytes);
      assert NibbleValue(HexDigit(b / 16)) == b / 16;
      assert NibbleValue(HexDigit(b % 16)) == b % 16;
      assert h[2..] == Hex(bytes[1..]);
      UnhexOfHex(bytes[1..]);
    }
  }

  /** `npub_to_hex` applied to what the decoder returned: nil unless the human-readable part
      is `npub`, nil when the regrouping fails (the nil then raises in `pack` and is
      rescued), otherwise the hex of the regrouped bytes. */
  function NpubKey(decoded: Option<(seq<char>, seq<int>)>): (hex: Option<seq<char>>)
    ensures decoded.None? || decoded.value.0 != "npub" ==> hex.None?
    ensures hex.Some? ==> forall k :: 0 <= k < |hex.value| ==> IsHexDigit(hex.value[k])
  {
    if decoded.None? || decoded.value.0 != "npub" then None
    else match Regrouped(decoded.value.1)
      case None => None
      case Some(bytes) =>
        RegroupedValue(decoded.value.1);
        Some(Hex(bytes))
  }

  /** The same, as the service computes it: the hrp check, then the loop of `convert_bits`. */
  method NpubToHex(decoded: Option<(seq<char>, seq<int>)>) returns (hex: Option<seq<char>>)
    ensures hex == NpubKey(decoded)
  {
    if decoded.None? || decoded.value.0 != "npub" {
      return None;
    }
    var bytes := ConvertBits(decoded.value.1);
    if bytes.None? {
      return None;
    }
    RegroupedValue(decoded.value.1);
    hex := Some(Hex(bytes.value));
  }

  /** An `npub` whose 52 data groups (256 bits of key plus 4 zero bits) regroup gives a
      64-digit hex key from which the 32 key bytes read back, and those bytes carry exactly
      the groups' value. */
  lemma NpubKeyLength(hrp: seq<char>, data: seq<int>)
    requires hrp == "npub" && |data| == 52 && Regrouped(data).Some?
    ensures NpubKey(Some((hrp, data))).Some?
    ensures var key := NpubKey(Some((hrp, data))).value;
      && |key| == 64
      && Unhex(key) == Regrouped(data).value
      && FromDigits(Unhex(key), 256) * 16 == FromDigits(data, 32)
  {
    RegroupedValue(data);
    UnhexOfHex(Regrouped(data).value);
    Pow2Add(2, 2);
  }

  /** Any other human-readable part (an `nsec`, a note id) gives no key. */
  lemma OnlyNpubHasKey(hrp: seq<char>, data: seq<int>)
    requires NpubKey(Some((hrp, data))).Some?
    ensures hrp == "npub" && Regrouped(data).Some?
  {
  }
}
