/** The Xilinx Peripheral Protection Unit helper of
    lopper/assists/xlnx/xppu.py: master-id words with their parity bit,
    the aperture table of an XPPU instance, its 20 master slots and the
    aperture masks built from them.

    The source keeps addresses and ids as `hex()` text and reads them back
    with `h2i`; the class below keeps the numbers, and `H2iHex` shows that
    reading back the text gives the number again. */
module Xppu {
  import opened Common
  import opened Bits

  const SIZE_64K: nat := 64 * 1024
  const SIZE_1MB: nat := 1024 * 1024
  const APER_64K_START: nat := 0
  const APER_64K_END: nat := 255
  const APER_1MB_START: nat := 384
  const APER_1MB_END: nat := 399
  const APER_512MB: nat := 400
  const MASTERS: nat := 20
  const APER_ADDR_START: nat := 0x1000
  const MID_OFFSET_START: nat := 0x100
  const RANGE_64K: nat := 256 * SIZE_64K
  const RANGE_1M: nat := 16 * SIZE_1MB
  const RANGE_512M: nat := 512 * SIZE_1MB
  const RO: nat := 1
  const RW: nat := 0
  /** The TrustZone bit of an aperture word. */
  const TZ_BIT: nat := 27

  // ---------------------------------------------------------------------
  // h2i and hex text

  function HexDigit(d: nat): char
    requires d < 16
  {
    "0123456789abcdef"[d]
  }

  /** The digits `hex()` writes after "0x". */
  function HexDigits(n: nat): (r: string)
    ensures |r| > 0
  {
    if n < 16 then [HexDigit(n)] else HexDigits(n / 16) + [HexDigit(n % 16)]
  }

  /** `hex(n)` for n >= 0. */
  function Hex(n: nat): string
  {
    "0x" + HexDigits(n)
  }

  function DigitValue(c: char): (r: Option<nat>)
    ensures r.Some? ==> r.value < 16
  {
    if '0' <= c <= '9' then Some(c as nat - '0' as nat)
    else if 'a' <= c <= 'f' then Some(c as nat - 'a' as nat + 10)
    else if 'A' <= c <= 'F' then Some(c as nat - 'A' as nat + 10)
    else None
  }

  /** The value of a run of hex digits, most significant first. */
  function HexValue(ds: string): Option<nat>
    decreases |ds|
  {
    if |ds| == 0 then Some(0)
    else match HexValue(ds[..|ds| - 1])
      case None => None
      case Some(v) =>
        match DigitValue(ds[|ds| - 1])
        case None => None
        case Some(d) => Some(v * 16 + d)
  }

  /** `h2i(s)`: 0 for None, otherwise `int(s, 16)`: an optional "0x" or
      "0X" prefix and at least one hex digit; anything else is a
      ValueError. */
  function H2i(s: Option<string>): (r: Result<nat>)
    ensures s.None? ==> r == Ok(0)
    ensures r.Err? ==> r.error == ValueError
    ensures s.Some? && |s.value| == 0 ==> r == Err(ValueError)
  {
    match s
    case None => Ok(0)
    case Some(t) =>
      var body := if |t| >= 2 && t[0] == '0' && (t[1] == 'x' || t[1] == 'X') then t[2..] else t;
      if |body| == 0 then Err(ValueError)
      else match HexValue(body)
        case None => Err(ValueError)
        case Some(v) => Ok(v)
  }

  lemma DigitRoundTrip(d: nat)
    requires d < 16
    ensures DigitValue(HexDigit(d)) == Some(d)
  {
  }

  lemma {:induction false} HexDigitsValue(n: nat)
    ensures HexValue(HexDigits(n)) == Some(n)
  {
    if n < 16 {
      DigitRoundTrip(n);
      assert HexDigits(n)[..0] == [];
    } else {
      var ds := HexDigits(n);
      HexDigitsValue(n / 16);
      DigitRoundTrip(n % 16);
      assert ds[..|ds| - 1] == HexDigits(n / 16);
    }
  }

  /** Reading back the text `hex()` writes gives the number: `h2i` and
      `hex` are inverse. */
  lemma H2iHex(n: nat)
    ensures H2i(Some(Hex(n))) == Ok(n)
  {
    HexDigitsValue(n);
    assert Hex(n)[2..] == HexDigits(n);
  }

  /** `in_range(saddr, smin, smax)` on texts. */
  function InRange(saddr: Option<string>, smin: Option<string>, smax: Option<string>): (r: Result<bool>)
    ensures r.Err? <==> H2i(saddr).Err? || H2i(smin).Err? || H2i(smax).Err?
  {
    match (H2i(saddr), H2i(smin), H2i(smax))
    case (Ok(a), Ok(lo), Ok(hi)) => Ok(lo <= a && a <= hi)
    case (Err(e), _, _) => Err(e)
    case (_, Err(e), _) => Err(e)
    case (_, _, Err(e)) => Err(e)
  }

  /** On the texts `hex()` writes, `in_range` is inclusive at both ends. */
  lemma InRangeInclusive(a: nat, lo: nat, hi: nat)
    ensures InRange(Some(Hex(a)), Some(Hex(lo)), Some(Hex(hi))) == Ok(lo <= a <= hi)
    ensures InRange(Some(Hex(lo)), Some(Hex(lo)), Some(Hex(hi))) == Ok(lo <= hi)
    ensures InRange(Some(Hex(hi)), Some(Hex(lo)), Some(Hex(hi))) == Ok(lo <= hi)
  {
    H2iHex(a);
    H2iHex(lo);
    H2iHex(hi);
  }

  // ---------------------------------------------------------------------
  // calc_parity

  /** `calc_parity(num)`: `num ^= num >> s` for s = 16, 8, 4, 2, 1, then
      `num & 1`. */
  function CalcParity(num: nat): (r: nat)
    ensures r <= 1
  {
    FoldShifts(num, 16)
  }

  /** The folds of calc_parity from shift s down, then the low bit. */
  function FoldShifts(n: nat, s: nat): (r: nat)
    ensures r <= 1
    decreases s
  {
    if s == 0 then AndOne(n); And(n, 1)
    else FoldShifts(Xor(n, Shr(n, s)), s / 2)
  }

  lemma AndOne(n: nat)
    ensures And(n, 1) <= 1
    ensures And(n, 1) == n % 2 == Bit(n, 0)
  {
  }

  /** The number of set bits among bits k .. k+m-1 of n. */
  function Ones(n: nat, k: nat, m: nat): nat
    decreases m
  {
    if m == 0 then 0 else Bit(n, k) + Ones(n, k + 1, m - 1)
  }

  /** The parity of bits k, k+d, ..., k+(c-1)d of n. */
  ghost function Par(n: nat, k: nat, c: nat, d: nat): nat
    decreases c
  {
    if c == 0 then 0 else (Bit(n, k) + Par(n, k + d, c - 1, d)) % 2
  }

  /** Taking every s-th bit is taking every 2s-th bit twice, once from k
      and once from k+s. */
  lemma {:induction false} ParInterleave(n: nat, k: nat, c: nat, s: nat)
    ensures Par(n, k, 2 * c, s) == (Par(n, k, c, 2 * s) + Par(n, k + s, c, 2 * s)) % 2
    decreases c
  {
    if c > 0 {
      ParInterleave(n, k + 2 * s, c - 1, s);
      var x := Bit(n, k);
      var y := Bit(n, k + s);
      var u := Par(n, k + 2 * s, c - 1, 2 * s);
      var v := Par(n, k + 3 * s, c - 1, 2 * s);
      assert Par(n, k + s, 2 * c - 1, s) == (y + Par(n, k + 2 * s, 2 * (c - 1), s)) % 2;
      assert Par(n, k + s, c, 2 * s) == (y + v) % 2 by {
        assert k + s + 2 * s == k + 3 * s;
      }
      assert Par(n, k + 2 * s, 2 * (c - 1), s) == (u + v) % 2 by {
        assert k + 2 * s + s == k + 3 * s;
      }
      Mod2Regroup(x, y, u, v);
    }
  }

  lemma Mod2Regroup(x: nat, y: nat, u: nat, v: nat)
    ensures (x + (y + (u + v) % 2) % 2) % 2 == ((x + u) % 2 + (y + v) % 2) % 2
  {
  }

  /** One fold step of calc_parity: if bit k of x is the parity of the
      bits k, k+2s, ... of n, then bit k of x ^ (x >> s) is the parity of
      twice as many bits s apart. */
  lemma XorStep(x: nat, n: nat, c: nat, s: nat)
    requires forall k: nat :: Bit(x, k) == Par(n, k, c, 2 * s)
    ensures forall k: nat :: Bit(Xor(x, Shr(x, s)), k) == Par(n, k, 2 * c, s)
  {
    forall k: nat ensures Bit(Xor(x, Shr(x, s)), k) == Par(n, k, 2 * c, s) {
      XorBit(x, Shr(x, s), k);
      ShrBit(x, s, k);
      ParInterleave(n, k, c, s);
    }
  }

  lemma {:induction false} ParOnes(n: nat, k: nat, m: nat)
    ensures Par(n, k, m, 1) == Ones(n, k, m) % 2
    decreases m
  {
    if m > 0 {
      ParOnes(n, k + 1, m - 1);
    }
  }

  /** `calc_parity(num)` is the parity of the low 32 bits of num. */
  lemma CalcParityOnes(num: nat)
    ensures CalcParity(num) == Ones(num, 0, 32) % 2
  {
    forall k: nat ensures Bit(num, k) == Par(num, k, 1, 32) {
    }
    var n1 := Xor(num, Shr(num, 16));
    XorStep(num, num, 1, 16);
    var n2 := Xor(n1, Shr(n1, 8));
    XorStep(n1, num, 2, 8);
    var n3 := Xor(n2, Shr(n2, 4));
    XorStep(n2, num, 4, 4);
    var n4 := Xor(n3, Shr(n3, 2));
    XorStep(n3, num, 8, 2);
    var n5 := Xor(n4, Shr(n4, 1));
    XorStep(n4, num, 16, 1);
    assert CalcParity(num) == FoldShifts(n1, 8);
    assert FoldShifts(n1, 8) == FoldShifts(n2, 4);
    assert FoldShifts(n2, 4) == FoldShifts(n3, 2);
    assert FoldShifts(n3, 2) == FoldShifts(n4, 1);
    assert FoldShifts(n4, 1) == FoldShifts(n5, 0);
    AndOne(n5);
    ParOnes(num, 0, 32);
  }

  // ---------------------------------------------------------------------
  // Counting set bits

  lemma {:induction false} OnesSplit(n: nat, k: nat, a: nat, b: nat)
    ensures Ones(n, k, a + b) == Ones(n, k, a) + Ones(n, k + a, b)
    decreases a
  {
    if a > 0 {
      OnesSplit(n, k + 1, a - 1, b);
    }
  }

  lemma {:induction false} OnesSame(x: nat, kx: nat, y: nat, ky: nat, m: nat)
    requires forall j: nat :: kx <= j < kx + m ==> Bit(x, j) == Bit(y, j - kx + ky)
    ensures Ones(x, kx, m) == Ones(y, ky, m)
    decreases m
  {
    if m > 0 {
      OnesSame(x, kx + 1, y, ky + 1, m - 1);
    }
  }

  lemma {:induction false} OnesAbove(n: nat, k: nat, m: nat)
    requires n < Pow2(k)
    ensures Ones(n, k, m) == 0
    decreases m
  {
    if m > 0 {
      SmallBits(n, k, k);
      OnesAbove(n, k + 1, m - 1);
      assert Pow2(k) <= Pow2(k + 1);
    }
  }

  /** The bits of a field placed above a narrower one. */
  lemma FieldBits(hi: nat, s: nat, lo: nat, j: nat)
    requires lo < Pow2(s)
    ensures Bit(hi * Pow2(s) + lo, j) == if j < s then Bit(lo, j) else Bit(hi, j - s)
  {
    ShlOrAdd(hi, s, lo);
    OrBit(Shl(hi, s), lo, j);
    ShlBit(hi, s, j);
    if j >= s {
      SmallBits(lo, s, j);
    }
  }

  /** The set bits of `hi << s | lo` in its low s+m bits are those of lo
      plus those of the low m bits of hi. */
  lemma OnesFields(hi: nat, s: nat, lo: nat, m: nat)
    requires lo < Pow2(s)
    ensures Ones(hi * Pow2(s) + lo, 0, s + m) == Ones(lo, 0, s) + Ones(hi, 0, m)
  {
    var n := hi * Pow2(s) + lo;
    OnesSplit(n, 0, s, m);
    forall j: nat | j < s ensures Bit(n, j) == Bit(lo, j) {
      FieldBits(hi, s, lo, j);
    }
    OnesSame(n, 0, lo, 0, s);
    forall j: nat | s <= j < s + m ensures Bit(n, j) == Bit(hi, j - s) {
      FieldBits(hi, s, lo, j);
    }
    OnesSame(n, s, hi, 0, m);
  }

  /** A number below 2^w has all its set bits among its low w bits. */
  lemma OnesNarrow(n: nat, w: nat, m: nat)
    requires n < Pow2(w) && w <= m
    ensures Ones(n, 0, m) == Ones(n, 0, w)
  {
    OnesSplit(n, 0, w, m - w);
    OnesAbove(n, w, m - w);
  }

  // ---------------------------------------------------------------------
  // MasterId

  /** A MASTER_IDxx entry: the master's name, its SMID, the SMID mask,
      read-only (1) or read-write (0), and whether parity is on. */
  datatype MasterId = MasterId(name: string, mid: nat, mask: nat, rw: nat, parity: bool)

  /** `comp_parity()`: 0 with parity off, else the parity of the parities
      of the id, of the mask and of the rw bit. */
  function CompParity(m: MasterId): (r: nat)
    ensures r <= 1
  {
    if !m.parity then 0
    else
      var pmid := CalcParity(m.mid);
      var pmask := CalcParity(m.mask);
      var prw := And(m.rw, 1);
      CalcParity(Packed(prw, pmask, pmid))
  }

  /** `val()`: the fields added at their places (the source adds, it
      does not or). */
  function Val(m: MasterId): nat
  {
    IdWord(CompParity(m), m.rw, m.mask, m.mid)
  }

  /** A master-id word: parity, rw, mask and id added at bits 31, 30, 16
      and 0. */
  function IdWord(p: nat, rw: nat, mask: nat, mid: nat): nat
  {
    Shl(p, 31) + Shl(rw, 30) + Shl(mask, 16) + mid
  }

  lemma Pow2Values()
    ensures Pow2(1) == 2 && Pow2(2) == 4 && Pow2(14) == 0x4000 && Pow2(16) == 0x1_0000
    ensures Pow2(30) == 0x4000_0000 && Pow2(31) == 0x8000_0000
  {
    assert Pow2(14) == 0x4000;
    assert Pow2(16) == 0x1_0000;
    assert Pow2(30) == 0x4000_0000;
  }

  /** `(prw << 2) | (pmask << 1) | (pmid << 0)`. */
  function Packed(prw: nat, pmask: nat, pmid: nat): nat
  {
    Or(Or(Shl(prw, 2), Shl(pmask, 1)), Shl(pmid, 0))
  }

  /** The three parity bits packed are a number below 8 with those bits. */
  lemma PackThree(c: nat, b: nat, a: nat)
    requires a <= 1 && b <= 1 && c <= 1
    ensures Packed(c, b, a) == c * 4 + b * 2 + a
  {
    assert Pow2(1) == 2 && Pow2(2) == 4;
    ShlOrAdd(c, 2, Shl(b, 1));
    assert Or(Shl(c, 2), Shl(b, 1)) == Shl(c * 2 + b, 1);
    ShlOrAdd(c * 2 + b, 1, Shl(a, 0));
  }

  /** The set bits of three packed bits. */
  lemma OnesThree(c: nat, b: nat, a: nat, num: nat)
    requires a <= 1 && b <= 1 && c <= 1 && num == c * 4 + b * 2 + a
    ensures Ones(num, 0, 32) == a + b + c
  {
    assert Pow2(3) == 8;
    OnesNarrow(num, 3, 32);
    assert num / 2 == c * 2 + b && num / 2 / 2 == c;
    assert Bit(num, 0) == a;
    assert Bit(num, 1) == Bit(num / 2, 0) == b;
    assert Bit(num, 2) == Bit(num / 2 / 2, 0) == c;
    assert Ones(num, 2, 1) == Bit(num, 2);
    assert Ones(num, 1, 2) == Bit(num, 1) + Bit(num, 2);
  }

  /** Three packed bits have as many set bits as the three bits. */
  lemma PackedOnes(c: nat, b: nat, a: nat)
    requires a <= 1 && b <= 1 && c <= 1
    ensures Ones(Packed(c, b, a), 0, 32) == a + b + c
  {
    PackThree(c, b, a);
    OnesThree(c, b, a, Packed(c, b, a));
  }

  /** The parity of the packed parity bits of an id, a mask and an rw
      flag is the parity of their sum. */
  lemma PackedParity(rw: nat, mask: nat, mid: nat)
    ensures CalcParity(Packed(And(rw, 1), CalcParity(mask), CalcParity(mid)))
         == (CalcParity(mid) + CalcParity(mask) + And(rw, 1)) % 2
  {
    PackedOnesFor(rw, mask, mid);
    PackedParityOf(rw, mask, mid, Packed(And(rw, 1), CalcParity(mask), CalcParity(mid)),
                   CalcParity(mid) + CalcParity(mask) + And(rw, 1));
  }

  lemma PackedParityOf(rw: nat, mask: nat, mid: nat, packed: nat, k: nat)
    requires packed == Packed(And(rw, 1), CalcParity(mask), CalcParity(mid))
    requires k == CalcParity(mid) + CalcParity(mask) + And(rw, 1)
    requires Ones(packed, 0, 32) == k
    ensures CalcParity(packed) == k % 2
  {
    ParityOf(packed, k);
  }

  lemma PackedOnesFor(rw: nat, mask: nat, mid: nat)
    ensures Ones(Packed(And(rw, 1), CalcParity(mask), CalcParity(mid)), 0, 32)
         == CalcParity(mid) + CalcParity(mask) + And(rw, 1)
  {
    AndOne(rw);
    PackedOnes(And(rw, 1), CalcParity(mask), CalcParity(mid));
  }

  lemma ParityOf(num: nat, k: nat)
    requires Ones(num, 0, 32) == k
    ensures CalcParity(num) == k % 2
  {
    CalcParityOnes(num);
  }

  lemma ParityOfSum(x: nat, y: nat, z: nat)
    ensures (x % 2 + y % 2 + z % 2) % 2 == (x + y + z % 2) % 2
  {
  }

  /** `comp_parity()` with parity on is the parity of the three parity
      bits it packs. */
  lemma CompParityParts(m: MasterId)
    requires m.parity
    ensures CompParity(m) == (CalcParity(m.mid) + CalcParity(m.mask) + And(m.rw, 1)) % 2
  {
    PackedParity(m.rw, m.mask, m.mid);
  }

  lemma PartsOnes(m: MasterId)
    ensures (CalcParity(m.mid) + CalcParity(m.mask) + And(m.rw, 1)) % 2
         == (Ones(m.mid, 0, 32) + Ones(m.mask, 0, 32) + m.rw % 2) % 2
  {
    AndOne(m.rw);
    CalcParityOnes(m.mid);
    CalcParityOnes(m.mask);
    ParityOfSum(Ones(m.mid, 0, 32), Ones(m.mask, 0, 32), m.rw);
  }

  /** The parity bit is the parity of all the set bits of the id, of the
      mask and of the rw flag's low bit. */
  lemma CompParityMeans(m: MasterId)
    ensures !m.parity ==> CompParity(m) == 0
    ensures m.parity ==> CompParity(m) == (Ones(m.mid, 0, 32) + Ones(m.mask, 0, 32) + m.rw % 2) % 2
  {
    if m.parity {
      CompParityParts(m);
      PartsOnes(m);
    }
  }

  // ---------------------------------------------------------------------
  // The layout of a master-id word

  /** With every field inside its width, the word is the two top bits
      above the 14-bit mask above the 16-bit id. */
  lemma WordValue(p: nat, rw: nat, mask: nat, mid: nat)
    requires p <= 1 && rw <= 1 && mask < 0x4000 && mid < 0x1_0000
    ensures IdWord(p, rw, mask, mid) == ((p * 2 + rw) * 0x4000 + mask) * 0x1_0000 + mid
    ensures IdWord(p, rw, mask, mid) == (p * 2 + rw) * 0x4000_0000 + (mask * 0x1_0000 + mid)
  {
    Pow2Values();
  }

  /** Adding the fields is or-ing them: no two fields share a bit. */
  lemma WordOr(p: nat, rw: nat, mask: nat, mid: nat)
    requires p <= 1 && rw <= 1 && mask < 0x4000 && mid < 0x1_0000
    ensures IdWord(p, rw, mask, mid) == Or(Shl(p, 31), Or(Shl(rw, 30), Or(Shl(mask, 16), mid)))
  {
    Pow2Values();
    ShlOrAdd(mask, 16, mid);
    ShlOrAdd(rw, 30, mask * 0x1_0000 + mid);
    ShlOrAdd(p, 31, rw * 0x4000_0000 + mask * 0x1_0000 + mid);
  }

  /** Each field reads back from its place, and the word fits 32 bits. */
  lemma WordFields(p: nat, rw: nat, mask: nat, mid: nat)
    requires p <= 1 && rw <= 1 && mask < 0x4000 && mid < 0x1_0000
    ensures IdWord(p, rw, mask, mid) < 0x1_0000_0000
    ensures IdWord(p, rw, mask, mid) % 0x1_0000 == mid
    ensures IdWord(p, rw, mask, mid) / 0x1_0000 % 0x4000 == mask
    ensures Bit(IdWord(p, rw, mask, mid), 30) == rw
    ensures Bit(IdWord(p, rw, mask, mid), 31) == p
  {
    WordValue(p, rw, mask, mid);
    var top := p * 2 + rw;
    var hi := top * 0x4000 + mask;
    DivUnique(IdWord(p, rw, mask, mid), 0x1_0000, hi, mid);
    DivUnique(hi, 0x4000, top, mask);
    MulLe(hi, 0xffff, 0x1_0000);
    WordTopBits(p, rw, mask, mid);
  }

  /** The two top bits of the word are the privilege and read-write bits. */
  lemma WordTopBits(p: nat, rw: nat, mask: nat, mid: nat)
    requires p <= 1 && rw <= 1 && mask < 0x4000 && mid < 0x1_0000
    ensures Bit(IdWord(p, rw, mask, mid), 30) == rw
    ensures Bit(IdWord(p, rw, mask, mid), 31) == p
  {
    WordValue(p, rw, mask, mid);
    Pow2Values();
    var top := p * 2 + rw;
    var low := mask * 0x1_0000 + mid;
    MulLe(mask, 0x3fff, 0x1_0000);
    assert IdWord(p, rw, mask, mid) == top * Pow2(30) + low;
    FieldBits(top, 30, low, 30);
    FieldBits(top, 30, low, 31);
    DivUnique(top, 2, p, rw);
    assert Bit(top, 0) == rw;
    assert Bit(top, 1) == Bit(p, 0) == p;
  }

  /** The set bits of the word are those of its four fields. */
  lemma WordOnes(p: nat, rw: nat, mask: nat, mid: nat)
    requires p <= 1 && rw <= 1 && mask < 0x4000 && mid < 0x1_0000
    ensures Ones(IdWord(p, rw, mask, mid), 0, 32) == Ones(mid, 0, 32) + Ones(mask, 0, 32) + rw + p
  {
    WordValue(p, rw, mask, mid);
    OnesOfFields(IdWord(p, rw, mask, mid), p * 2 + rw, mask, mid);
    TopOnes(p, rw);
  }

  lemma OnesOfFields(w: nat, top: nat, mask: nat, mid: nat)
    requires mask < 0x4000 && mid < 0x1_0000
    requires w == (top * 0x4000 + mask) * 0x1_0000 + mid
    ensures Ones(w, 0, 32) == Ones(mid, 0, 32) + Ones(mask, 0, 32) + Ones(top, 0, 2)
  {
    Pow2Values();
    var hi := top * 0x4000 + mask;
    assert w == hi * Pow2(16) + mid;
    assert hi == top * Pow2(14) + mask;
    OnesFields(hi, 16, mid, 16);
    OnesFields(top, 14, mask, 2);
    assert Ones(w, 0, 32) == Ones(mid, 0, 16) + Ones(hi, 0, 16);
    assert Ones(hi, 0, 16) == Ones(mask, 0, 14) + Ones(top, 0, 2);
    OnesNarrow(mid, 16, 32);
    OnesNarrow(mask, 14, 32);
  }

  lemma TopOnes(p: nat, rw: nat)
    requires p <= 1 && rw <= 1
    ensures Ones(p * 2 + rw, 0, 2) == rw + p
  {
    var top := p * 2 + rw;
    assert Bit(top, 1) == Bit(top / 2, 0);
    assert Ones(top, 0, 2) == Bit(top, 0) + Bit(top, 1);
  }

  /** `val()` of a master whose fields fit their widths: id in bits 0-15,
      mask in bits 16-29, rw in bit 30 and the parity bit in bit 31, the
      same as or-ing the shifted fields. */
  lemma ValLayout(m: MasterId)
    requires m.rw <= 1 && m.mask < 0x4000 && m.mid < 0x1_0000
    ensures Val(m) == Or(Shl(CompParity(m), 31), Or(Shl(m.rw, 30), Or(Shl(m.mask, 16), m.mid)))
    ensures Val(m) < 0x1_0000_0000
    ensures Val(m) % 0x1_0000 == m.mid
    ensures Val(m) / 0x1_0000 % 0x4000 == m.mask
    ensures Bit(Val(m), 30) == m.rw
    ensures Bit(Val(m), 31) == CompParity(m)
  {
    WordOr(CompParity(m), m.rw, m.mask, m.mid);
    WordFields(CompParity(m), m.rw, m.mask, m.mid);
  }

  /** With parity on, the parity bit makes the number of set bits of the
      whole word even, so `calc_parity` of the word is 0. */
  lemma ValEvenParity(m: MasterId)
    requires m.parity && m.rw <= 1 && m.mask < 0x4000 && m.mid < 0x1_0000
    ensures Ones(Val(m), 0, 32) % 2 == 0
    ensures CalcParity(Val(m)) == 0
  {
    CompParityMeans(m);
    ValOnes(m);
    EvenFrom(m, Val(m), CompParity(m));
  }

  lemma EvenFrom(m: MasterId, w: nat, p: nat)
    requires m.rw <= 1
    requires p == (Ones(m.mid, 0, 32) + Ones(m.mask, 0, 32) + m.rw % 2) % 2
    requires Ones(w, 0, 32) == Ones(m.mid, 0, 32) + Ones(m.mask, 0, 32) + m.rw + p
    ensures Ones(w, 0, 32) % 2 == 0
    ensures CalcParity(w) == 0
  {
    WordEven(w, p, m.rw, Ones(m.mid, 0, 32), Ones(m.mask, 0, 32));
  }

  lemma ValOnes(m: MasterId)
    requires m.rw <= 1 && m.mask < 0x4000 && m.mid < 0x1_0000
    ensures Ones(Val(m), 0, 32) == Ones(m.mid, 0, 32) + Ones(m.mask, 0, 32) + m.rw + CompParity(m)
  {
    WordOnes(CompParity(m), m.rw, m.mask, m.mid);
  }

  lemma WordEven(w: nat, p: nat, rw: nat, a: nat, b: nat)
    requires rw <= 1 && p == (a + b + rw % 2) % 2 && Ones(w, 0, 32) == a + b + rw + p
    ensures Ones(w, 0, 32) % 2 == 0
    ensures CalcParity(w) == 0
  {
    EvenSum(a + b + rw, p);
    EvenWord(w, a + b + rw + p);
  }

  lemma EvenWord(w: nat, k: nat)
    requires Ones(w, 0, 32) == k && k % 2 == 0
    ensures CalcParity(w) == 0
  {
    ParityOf(w, k);
  }

  lemma EvenSum(s: nat, p: nat)
    requires p == s % 2
    ensures (s + p) % 2 == 0
  {
  }

  // ---------------------------------------------------------------------
  // Apertures and their address ranges

  /** The aperture indices the map holds: 0-255 are 64KB apertures,
      384-399 1MB apertures and 400 the single 512MB aperture. */
  predicate IsAperture(idx: int)
  {
    APER_64K_START as int <= idx <= APER_64K_END as int
    || APER_1MB_START as int <= idx <= APER_1MB_END as int
    || idx == APER_512MB as int
  }

  /** `aper_get_protected_range(idx)` for the 64KB, 1MB and 512MB bases
      (and the 512MB end) of an XPPU: the first and last address the
      aperture covers. Any other index ends the program. */
  function ProtectedRange(b64k: nat, b1m: nat, b512s: nat, b512e: nat, idx: int): (r: Result<(nat, nat)>)
    ensures r.Ok? <==> IsAperture(idx)
    ensures r.Err? ==> r.error == SystemExit
  {
    if APER_64K_START as int <= idx <= APER_64K_END as int then
      var start := b64k + idx * SIZE_64K;
      Ok((start, start + SIZE_64K - 1))
    else if APER_1MB_START as int <= idx <= APER_1MB_END as int then
      var start := b1m + (idx - APER_1MB_START) * SIZE_1MB;
      Ok((start, start + SIZE_1MB - 1))
    else if idx == APER_512MB as int then
      Ok((b512s, b512e))
    else
      Err(SystemExit)
  }

  /** The 64KB apertures are 64KB long, follow each other without gap
      or overlap, and together cover the 64KB region from its base to
      `b64k + range_64k - 1`. */
  lemma Apertures64KTile(b64k: nat, b1m: nat, b512s: nat, b512e: nat)
    ensures ProtectedRange(b64k, b1m, b512s, b512e, 0).value.0 == b64k
    ensures ProtectedRange(b64k, b1m, b512s, b512e, 255).value.1 == b64k + RANGE_64K - 1
    ensures forall i | 0 <= i <= 255 ::
      ProtectedRange(b64k, b1m, b512s, b512e, i).value.1 + 1
        == ProtectedRange(b64k, b1m, b512s, b512e, i).value.0 + SIZE_64K
    ensures forall i | 0 <= i < 255 ::
      ProtectedRange(b64k, b1m, b512s, b512e, i).value.1 + 1
        == ProtectedRange(b64k, b1m, b512s, b512e, i + 1).value.0
  {
  }

  /** The 1MB apertures 384-399 tile the 1MB region the same way. */
  lemma Apertures1MBTile(b64k: nat, b1m: nat, b512s: nat, b512e: nat)
    ensures ProtectedRange(b64k, b1m, b512s, b512e, 384).value.0 == b1m
    ensures ProtectedRange(b64k, b1m, b512s, b512e, 399).value.1 == b1m + RANGE_1M - 1
    ensures forall i | 384 <= i <= 399 ::
      ProtectedRange(b64k, b1m, b512s, b512e, i).value.1 + 1
        == ProtectedRange(b64k, b1m, b512s, b512e, i).value.0 + SIZE_1MB
    ensures forall i | 384 <= i < 399 ::
      ProtectedRange(b64k, b1m, b512s, b512e, i).value.1 + 1
        == ProtectedRange(b64k, b1m, b512s, b512e, i + 1).value.0
  {
  }

  /** An address of the 64KB region lies in aperture
      `(addr - b64k) // 64K` and in no other 64KB aperture. */
  lemma Aperture64KCovers(b64k: nat, b1m: nat, b512s: nat, b512e: nat, addr: nat, j: int)
    requires b64k <= addr <= b64k + RANGE_64K - 1
    ensures var i := (addr - b64k) / SIZE_64K;
      0 <= i <= 255
      && ProtectedRange(b64k, b1m, b512s, b512e, i).value.0 <= addr
      && addr <= ProtectedRange(b64k, b1m, b512s, b512e, i).value.1
    ensures 0 <= j <= 255 && j != (addr - b64k) / SIZE_64K ==>
      !(ProtectedRange(b64k, b1m, b512s, b512e, j).value.0 <= addr
        <= ProtectedRange(b64k, b1m, b512s, b512e, j).value.1)
  {
    var off := addr - b64k;
    var i := off / SIZE_64K;
    assert i * SIZE_64K <= off < i * SIZE_64K + SIZE_64K;
    if 0 <= j <= 255 && j != i {
      if j < i {
        assert j * SIZE_64K + SIZE_64K <= i * SIZE_64K;
      } else {
        assert i * SIZE_64K + SIZE_64K <= j * SIZE_64K;
      }
    }
  }

  /** An address of the 1MB region lies in aperture
      `384 + (addr - b1m) // 1MB` and in no other 1MB aperture. */
  lemma Aperture1MBCovers(b64k: nat, b1m: nat, b512s: nat, b512e: nat, addr: nat, j: int)
    requires b1m <= addr <= b1m + RANGE_1M - 1
    ensures var i := APER_1MB_START + (addr - b1m) / SIZE_1MB;
      384 <= i <= 399
      && ProtectedRange(b64k, b1m, b512s, b512e, i).value.0 <= addr
      && addr <= ProtectedRange(b64k, b1m, b512s, b512e, i).value.1
    ensures 384 <= j <= 399 && j != APER_1MB_START + (addr - b1m) / SIZE_1MB ==>
      !(ProtectedRange(b64k, b1m, b512s, b512e, j).value.0 <= addr
        <= ProtectedRange(b64k, b1m, b512s, b512e, j).value.1)
  {
    var off := addr - b1m;
    var q := off / SIZE_1MB;
    assert q * SIZE_1MB <= off < q * SIZE_1MB + SIZE_1MB;
    if 384 <= j <= 399 && j != 384 + q {
      var d := j - 384;
      if d < q {
        assert d * SIZE_1MB + SIZE_1MB <= q * SIZE_1MB;
      } else {
        assert q * SIZE_1MB + SIZE_1MB <= d * SIZE_1MB;
      }
    }
  }

  /** `calc_aperture(saddr, sbase, hsize)`: Python's true division, so
      the index is a fraction when the address is not at the start of
      an aperture. */
  function CalcAperture(saddr: Option<string>, sbase: Option<string>, hsize: nat): (r: Result<real>)
    requires hsize > 0
    ensures r.Err? <==> H2i(saddr).Err? || H2i(sbase).Err?
  {
    match (H2i(saddr), H2i(sbase))
    case (Ok(a), Ok(b)) => Ok(TrueDiv(a as int - b as int, hsize))
    case (Err(e), _) => Err(e)
    case (_, Err(e)) => Err(e)
  }

  /** `is_addr_in_range(addr)` as the source does it, on the texts of
      the region bounds: three `in_range` tests in turn, then the
      aperture index by true division (`calc_64k_aper_index`,
      `calc_1mb_aper_index`). */
  function AddrInRange(addr: string, s64kStart: Option<string>, s64kEnd: Option<string>,
                       s1mStart: Option<string>, s1mEnd: Option<string>,
                       s512mStart: Option<string>, s512mEnd: Option<string>): Result<AddrHit>
  {
    match InRange(Some(addr), s64kStart, s64kEnd)
    case Err(e) => Err(e)
    case Ok(true) =>
      (match CalcAperture(Some(addr), s64kStart, SIZE_64K)
       case Ok(x) => Ok(Hit(0, APER_64K_START as real + x))
       case Err(e) => Err(e))
    case Ok(false) =>
      match InRange(Some(addr), s1mStart, s1mEnd)
      case Err(e) => Err(e)
      case Ok(true) =>
        (match CalcAperture(Some(addr), s1mStart, SIZE_1MB)
         case Ok(x) => Ok(Hit(1, APER_1MB_START as real + x))
         case Err(e) => Err(e))
      case Ok(false) =>
        match InRange(Some(addr), s512mStart, s512mEnd)
        case Err(e) => Err(e)
        case Ok(true) => Ok(Hit(2, APER_512MB as real))
        case Ok(false) => Ok(Miss)
  }

  /** Python's true division `d / hsize`, exact. */
  function TrueDiv(d: int, hsize: nat): real
    requires hsize > 0
  {
    d as real / hsize as real
  }

  /** Python's `int()` of a non-negative quotient: the floor of the true
      quotient is the integer quotient. */
  lemma FloorOfQuotient(x: nat, y: nat)
    requires y > 0
    ensures TrueDiv(x, y).Floor == x / y
  {
    var q := x / y;
    var v := TrueDiv(x, y);
    assert q * y <= x < q * y + y;
    assert (q * y) as real <= x as real < (q * y + y) as real;
    assert v * y as real == x as real;
    assert q as real <= v < (q + 1) as real;
  }

  /** What `is_addr_in_range` answers: `(False, None, None)` or
      `(True, region, index)` with region 0 (64KB), 1 (1MB) or
      2 (512MB). */
  datatype AddrHit = Miss | Hit(region: nat, index: real)

  /** `is_addr_in_range` on numbers: the reference the class's text-based
      method is checked against. */
  function Classify(b64kStart: nat, b64kEnd: nat, b1mStart: nat, b1mEnd: nat,
                    b512mStart: nat, b512mEnd: nat, a: nat): AddrHit
  {
    if b64kStart <= a <= b64kEnd then Hit(0, APER_64K_START as real + TrueDiv(a - b64kStart, SIZE_64K))
    else if b1mStart <= a <= b1mEnd then
      Hit(1, APER_1MB_START as real + TrueDiv(a - b1mStart, SIZE_1MB))
    else if b512mStart <= a <= b512mEnd then Hit(2, APER_512MB as real)
    else Miss
  }

  /** The aperture map `__init__` builds, for the indices below n. */
  function ApermapUpTo(b64k: nat, b1m: nat, b512s: nat, b512e: nat, n: nat): (r: map<int, (nat, nat)>)
    requires n <= APER_512MB + 1
    ensures forall i :: i in r <==> 0 <= i < n && IsAperture(i)
    ensures forall i :: i in r ==> Ok(r[i]) == ProtectedRange(b64k, b1m, b512s, b512e, i)
  {
    map i | 0 <= i < n && (i <= APER_64K_END as int || i >= APER_1MB_START as int)
      :: ProtectedRange(b64k, b1m, b512s, b512e, i).value
  }

  lemma ApermapStep(b64k: nat, b1m: nat, b512s: nat, b512e: nat, n: nat)
    requires n < APER_512MB + 1
    ensures n <= APER_64K_END || n >= APER_1MB_START ==>
      ApermapUpTo(b64k, b1m, b512s, b512e, n + 1)
        == ApermapUpTo(b64k, b1m, b512s, b512e, n)[n := ProtectedRange(b64k, b1m, b512s, b512e, n).value]
    ensures APER_64K_END < n < APER_1MB_START ==>
      ApermapUpTo(b64k, b1m, b512s, b512e, n + 1) == ApermapUpTo(b64k, b1m, b512s, b512e, n)
  {
  }

  /** The key of master slot i in the `masters` dictionary. */
  function SlotKey(i: nat): nat
  {
    MID_OFFSET_START + 4 * i
  }

  /** `k in self.masters`: the slot a dictionary key names, if any. */
  function SlotOf(k: int): (r: Option<nat>)
    ensures r.Some? ==> r.value < MASTERS && SlotKey(r.value) == k
    ensures r.None? ==> forall i: nat :: i < MASTERS ==> SlotKey(i) != k
  {
    if k >= MID_OFFSET_START as int && (k - MID_OFFSET_START as int) % 4 == 0
       && (k - MID_OFFSET_START as int) / 4 < MASTERS as int
    then Some((k - MID_OFFSET_START as int) / 4)
    else None
  }

  /** The key `set_master`, `get_master` and friends compute for idx
      names a slot exactly when 0 <= idx < 20, and then slot idx. */
  lemma SlotOfIndex(idx: int)
    ensures SlotOf(MID_OFFSET_START as int + idx * 4)
         == if 0 <= idx < MASTERS as int then Some(idx as nat) else None
  {
    var k := MID_OFFSET_START as int + idx * 4;
    if 0 <= idx < MASTERS as int {
      assert SlotKey(idx as nat) == k;
    }
  }

  /** Slot s holds a master with SMID mid. */
  predicate HasMid(s: Option<MasterId>, mid: nat)
  {
    s.Some? && s.value.mid == mid
  }

  /** Slot s holds a master with SMID mid, mask mask and rw flag rw. */
  predicate HasMidMaskRw(s: Option<MasterId>, mid: nat, mask: nat, rw: nat)
  {
    s.Some? && s.value.mid == mid && s.value.mask == mask && s.value.rw == rw
  }

  /** An XPPU instance: its register base, the three protected regions,
      the aperture map, the 20 master-id slots and the default aperture
      mask. Slot i of `masters` is the dictionary entry at key
      0x100 + 4i. */
  class Xppu {
    var name: string
    var baseaddr: nat
    var b64kStart: nat
    var b64kEnd: nat
    var b1mStart: nat
    var b1mEnd: nat
    var b512mStart: nat
    var b512mEnd: nat
    var pmId: nat
    var defApermask: nat
    var masters: seq<Option<MasterId>>
    var apermap: map<int, (nat, nat)>

    ghost predicate Valid()
      reads this
    {
      |masters| == MASTERS
      && b64kEnd == b64kStart + RANGE_64K - 1
      && b1mEnd == b1mStart + RANGE_1M - 1
      && apermap == ApermapUpTo(b64kStart, b1mStart, b512mStart, b512mEnd, APER_512MB + 1)
    }

    /** `Xppu(name, addr, b64k, b1m, b512m, pm_id)`: the region ends, an
        aperture map holding every aperture index and 20 empty slots. A
        missing 512MB base gives the region 0x0-0x0. */
    constructor (name: string, addr: nat, b64k: nat, b1m: nat, b512m: Option<nat>, pmId: nat)
      ensures Valid()
      ensures this.name == name && baseaddr == addr && this.pmId == pmId && defApermask == 0
      ensures b64kStart == b64k && b1mStart == b1m
      ensures b512mStart == (if b512m.None? then 0 else b512m.value)
      ensures b512mEnd == (if b512m.None? then 0 else b512m.value + RANGE_512M - 1)
      ensures forall i | 0 <= i < MASTERS :: masters[i] == None
      ensures forall i :: i in apermap <==> IsAperture(i)
    {
      var s512 := if b512m.None? then 0 else b512m.value;
      var e512 := if b512m.None? then 0 else b512m.value + RANGE_512M - 1;
      var amap: map<int, (nat, nat)> := map[];
      var aper := 0;
      while aper < APER_512MB + 1
        invariant aper <= APER_512MB + 1
        invariant amap == ApermapUpTo(b64k, b1m, s512, e512, aper)
      {
        ApermapStep(b64k, b1m, s512, e512, aper);
        if aper <= APER_64K_END || aper >= APER_1MB_START {
          amap := amap[aper := ProtectedRange(b64k, b1m, s512, e512, aper).value];
        }
        aper := aper + 1;
      }
      var slots: seq<Option<MasterId>> := [];
      var k := MID_OFFSET_START;
      while k < MID_OFFSET_START + 4 * MASTERS
        invariant k == SlotKey(|slots|) && |slots| <= MASTERS
        invariant forall i | 0 <= i < |slots| :: slots[i] == None
      {
        slots := slots + [None];
        k := k + 4;
      }
      this.name := name;
      baseaddr := addr;
      b64kStart := b64k;
      b64kEnd := b64k + RANGE_64K - 1;
      b1mStart := b1m;
      b1mEnd := b1m + RANGE_1M - 1;
      b512mStart := s512;
      b512mEnd := e512;
      this.pmId := pmId;
      defApermask := 0;
      masters := slots;
      apermap := amap;
    }

    /** `aper_get_protected_range(aper_idx)` on this instance. */
    function AperGetProtectedRange(idx: int): Result<(nat, nat)>
      reads this
    {
      ProtectedRange(b64kStart, b1mStart, b512mStart, b512mEnd, idx)
    }

    /** `aper_to_addr(aper_idx)`: the register of an aperture. */
    function AperToAddr(idx: int): int
      reads this
    {
      baseaddr + APER_ADDR_START + idx * 4
    }

    /** `is_addr_in_range(addr)`: the region tests on the hex texts of
        the region bounds. */
    function IsAddrInRange(addr: string): (r: Result<AddrHit>)
      reads this
    {
      AddrInRange(addr, Some(Hex(b64kStart)), Some(Hex(b64kEnd)), Some(Hex(b1mStart)),
                  Some(Hex(b1mEnd)), Some(Hex(b512mStart)), Some(Hex(b512mEnd)))
    }

    /** `set_master(idx, master)`: stores the master in slot idx; an
        index that names no slot changes nothing. */
    method SetMaster(idx: int, master: Option<MasterId>)
      requires Valid()
      modifies this`masters
      ensures Valid()
      ensures 0 <= idx < MASTERS as int ==> masters == old(masters)[idx := master]
      ensures !(0 <= idx < MASTERS as int) ==> masters == old(masters)
      ensures 0 <= idx < MASTERS as int ==> GetMaster(idx) == master
    {
      var k := MID_OFFSET_START as int + idx * 4;
      SlotOfIndex(idx);
      var slot := SlotOf(k);
      if slot.Some? {
        masters := masters[slot.value := master];
      }
    }

    /** `get_master(idx)`: the master of slot idx; None for an empty
        slot and for an index that names no slot. */
    function GetMaster(idx: int): (r: Option<MasterId>)
      requires |masters| == MASTERS
      reads this
      ensures 0 <= idx < MASTERS as int ==> r == masters[idx]
      ensures !(0 <= idx < MASTERS as int) ==> r == None
    {
      SlotOfIndex(idx);
      match SlotOf(MID_OFFSET_START as int + idx * 4)
      case Some(i) => masters[i]
      case None => None
    }

    /** `get_master_by_smid(mid)`: the first slot whose master has that
        SMID, or None. */
    method GetMasterBySmid(mid: nat) returns (r: Option<nat>)
      ensures r.Some? ==> r.value < |masters| && HasMid(masters[r.value], mid)
      ensures r.Some? ==> forall j | 0 <= j < r.value :: !HasMid(masters[j], mid)
      ensures r.None? ==> forall j | 0 <= j < |masters| :: !HasMid(masters[j], mid)
    {
      var i := 0;
      while i < |masters|
        invariant i <= |masters|
        invariant forall j | 0 <= j < i :: !HasMid(masters[j], mid)
      {
        if masters[i].Some? && masters[i].value.mid == mid {
          return Some(i);
        }
        i := i + 1;
      }
      return None;
    }

    /** `get_master_by_smrw(mid, mask, rw)`: the first slot whose master
        has that SMID, mask and rw flag, or None. */
    method GetMasterBySmrw(mid: nat, mask: nat, rw: nat) returns (r: Option<nat>)
      ensures r.Some? ==> r.value < |masters| && HasMidMaskRw(masters[r.value], mid, mask, rw)
      ensures r.Some? ==> forall j | 0 <= j < r.value :: !HasMidMaskRw(masters[j], mid, mask, rw)
      ensures r.None? ==> forall j | 0 <= j < |masters| :: !HasMidMaskRw(masters[j], mid, mask, rw)
    {
      var i := 0;
      while i < |masters|
        invariant i <= |masters|
        invariant forall j | 0 <= j < i :: !HasMidMaskRw(masters[j], mid, mask, rw)
      {
        var m := masters[i];
        if m.Some? && m.value.mid == mid && m.value.mask == mask && m.value.rw == rw {
          return Some(i);
        }
        i := i + 1;
      }
      return None;
    }

    /** `get_master_addr(idx)`: the register address of slot idx, None
        for an index that names no slot. */
    function GetMasterAddr(idx: int): (r: Option<nat>)
      reads this
      ensures r.Some? <==> 0 <= idx < MASTERS as int
      ensures r.Some? ==> baseaddr + MID_OFFSET_START <= r.value < baseaddr + MID_OFFSET_START + 4 * MASTERS
    {
      SlotOfIndex(idx);
      match SlotOf(MID_OFFSET_START as int + idx * 4)
      case Some(i) => Some(baseaddr + SlotKey(i))
      case None => None
    }

    /** `get_master_val(idx)`: 0 for an empty slot, the master's `val()`
        word otherwise, None for an index that names no slot. */
    function GetMasterVal(idx: int): (r: Option<nat>)
      requires |masters| == MASTERS
      reads this
      ensures r.Some? <==> 0 <= idx < MASTERS as int
      ensures r.Some? && masters[idx].None? ==> r.value == 0
      ensures r.Some? && masters[idx].Some? ==> r.value == Val(masters[idx].value)
    {
      SlotOfIndex(idx);
      match SlotOf(MID_OFFSET_START as int + idx * 4)
      case Some(i) => if masters[i].None? then Some(0) else Some(Val(masters[i].value))
      case None => None
    }

    /** `mid_name_to_idxx(key)`: the position of a key in the masters
        dictionary; a key it does not hold is a ValueError. */
    function MidNameToIdxx(k: int): (r: Result<nat>)
      ensures r.Ok? ==> r.value < MASTERS && SlotKey(r.value) == k
      ensures r.Err? ==> r.error == ValueError && forall i: nat :: i < MASTERS ==> SlotKey(i) != k
    {
      match SlotOf(k)
      case Some(i) => Ok(i)
      case None => Err(ValueError)
    }

    /** `get_ctrl_reg_val()`: the aperture and master-id parity enables,
        bits 2 and 1. */
    function CtrlRegVal(): (r: nat)
      ensures Bit(r, 1) == 1 && Bit(r, 2) == 1 && r == 6
    {
      Pow2Values();
      ShlOrAdd(FlagBit(APER_PARITY), 2, Shl(FlagBit(MID_PARITY), 1));
      assert Bit(6, 1) == 1 && Bit(6, 2) == 1;
      Or(Shl(FlagBit(APER_PARITY), 2), Shl(FlagBit(MID_PARITY), 1))
    }

    /** `get_ien_reg_addr_val()`: the interrupt-enable register at offset
        0x18 and the or of every enabled interrupt's bit. */
    method IenRegAddrVal() returns (regAddr: nat, regVal: nat)
      ensures regAddr == baseaddr + 0x18
      ensures regVal == IenValue(INTERRUPTS)
    {
      regAddr := baseaddr + 0x18;
      regVal := 0;
      var i := 0;
      while i < |INTERRUPTS|
        invariant i <= |INTERRUPTS|
        invariant regVal == IenValue(INTERRUPTS[..i])
      {
        IenValueStep(INTERRUPTS[..i], INTERRUPTS[i]);
        assert INTERRUPTS[..i + 1] == INTERRUPTS[..i] + [INTERRUPTS[i]];
        regVal := Or(regVal, Shl(EnableBit(INTERRUPTS[i]), INTERRUPTS[i].bit));
        i := i + 1;
      }
      assert INTERRUPTS[..i] == INTERRUPTS;
    }

    /** `get_aperture(master_list)`: one bit per slot whose master is
        named in the list, at the slot's position, and the TrustZone
        bit 27. */
    method GetAperture(masterList: seq<string>) returns (aperture: nat)
      requires |masters| == MASTERS
      ensures aperture == ApertureOf(masters, masterList, |masters|)
    {
      aperture := 0;
      var i := 0;
      while i < |masters|
        invariant i <= |masters|
        invariant aperture == ApertureOf(masters, masterList, i)
      {
        var m := masters[i];
        if m.Some? && m.value.name in masterList {
          MidNameToIdxxSlot(this, i);
          var pos := MidNameToIdxx(SlotKey(i));
          aperture := Or(aperture, Shl(1, pos.value));
        }
        aperture := Or(aperture, Shl(FlagBit(TZ), TZ_BIT));
        i := i + 1;
      }
    }

    /** `set_default_aperture(mask)`. */
    method SetDefaultAperture(mask: nat)
      modifies this`defApermask
      ensures defApermask == mask
    {
      defApermask := mask;
    }

    /** `get_default_aperture()`: the mask last set (0 at first). */
    function GetDefaultAperture(): nat
      reads this
    {
      defApermask
    }

    /** `get_nondef_rw_aperture()`: the default mask or-ed with the
        aperture of the "ANY_RW" master. */
    method GetNondefRwAperture() returns (r: nat)
      requires |masters| == MASTERS
      ensures r == Or(defApermask, ApertureOf(masters, ["ANY_RW"], |masters|))
    {
      var a := GetAperture(["ANY_RW"]);
      r := Or(GetDefaultAperture(), a);
    }

    /** `get_nondef_ro_aperture()`: the same with "ANY_RO". */
    method GetNondefRoAperture() returns (r: nat)
      requires |masters| == MASTERS
      ensures r == Or(defApermask, ApertureOf(masters, ["ANY_RO"], |masters|))
    {
      var a := GetAperture(["ANY_RO"]);
      r := Or(GetDefaultAperture(), a);
    }

    /** `get_master_list_from_aperture(aper_mask)`: the names of the
        masters whose slot bit is set, highest slot first. */
    function GetMasterListFromAperture(aperMask: nat): Result<seq<string>>
      requires |masters| == MASTERS
      reads this
    {
      NamesFrom(masters, aperMask, MASTERS)
    }
  }

  /** `is_addr_in_range` fails only on an address text `int(_, 16)`
      rejects, and otherwise classifies the address by number. */
  lemma IsAddrInRangeMeans(x: Xppu, addr: string)
    ensures H2i(Some(addr)).Err? ==> x.IsAddrInRange(addr) == Err(ValueError)
    ensures H2i(Some(addr)).Ok? ==>
      x.IsAddrInRange(addr) == Ok(Classify(x.b64kStart, x.b64kEnd, x.b1mStart, x.b1mEnd,
                                            x.b512mStart, x.b512mEnd, H2i(Some(addr)).value))
  {
    H2iHex(x.b64kStart);
    H2iHex(x.b64kEnd);
    H2iHex(x.b1mStart);
    H2iHex(x.b1mEnd);
    H2iHex(x.b512mStart);
    H2iHex(x.b512mEnd);
    AddrInRangeMeans(addr, Some(Hex(x.b64kStart)), Some(Hex(x.b64kEnd)), Some(Hex(x.b1mStart)),
                     Some(Hex(x.b1mEnd)), Some(Hex(x.b512mStart)), Some(Hex(x.b512mEnd)),
                     x.b64kStart, x.b64kEnd, x.b1mStart, x.b1mEnd, x.b512mStart, x.b512mEnd);
  }

  /** On bound texts that parse, the text-based test fails exactly when
      the address text does not parse, and otherwise is the numeric
      classification. */
  lemma AddrInRangeMeans(addr: string, s0: Option<string>, e0: Option<string>,
                         s1: Option<string>, e1: Option<string>,
                         s2: Option<string>, e2: Option<string>,
                         v0: nat, w0: nat, v1: nat, w1: nat, v2: nat, w2: nat)
    requires H2i(s0) == Ok(v0) && H2i(e0) == Ok(w0)
    requires H2i(s1) == Ok(v1) && H2i(e1) == Ok(w1)
    requires H2i(s2) == Ok(v2) && H2i(e2) == Ok(w2)
    ensures H2i(Some(addr)).Err? ==> AddrInRange(addr, s0, e0, s1, e1, s2, e2) == Err(ValueError)
    ensures H2i(Some(addr)).Ok? ==>
      AddrInRange(addr, s0, e0, s1, e1, s2, e2) == Ok(Classify(v0, w0, v1, w1, v2, w2, H2i(Some(addr)).value))
  {
    if H2i(Some(addr)).Ok? {
      AddrInRangeOk(addr, s0, e0, s1, e1, s2, e2, v0, w0, v1, w1, v2, w2, H2i(Some(addr)).value);
    } else {
      assert InRange(Some(addr), s0, e0) == Err(ValueError);
    }
  }

  lemma AddrInRangeOk(addr: string, s0: Option<string>, e0: Option<string>,
                      s1: Option<string>, e1: Option<string>,
                      s2: Option<string>, e2: Option<string>,
                      v0: nat, w0: nat, v1: nat, w1: nat, v2: nat, w2: nat, a: nat)
    requires H2i(Some(addr)) == Ok(a)
    requires H2i(s0) == Ok(v0) && H2i(e0) == Ok(w0)
    requires H2i(s1) == Ok(v1) && H2i(e1) == Ok(w1)
    requires H2i(s2) == Ok(v2) && H2i(e2) == Ok(w2)
    ensures AddrInRange(addr, s0, e0, s1, e1, s2, e2) == Ok(Classify(v0, w0, v1, w1, v2, w2, a))
  {
    AddrInFirst(addr, s0, e0, s1, e1, s2, e2, v0, w0, a);
    AddrPastFirst(addr, s1, e1, s2, e2, v1, w1, v2, w2, a);
  }

  /** The 64KB test, and what `AddrInRange` does when it fails. */
  lemma AddrInFirst(addr: string, s0: Option<string>, e0: Option<string>,
                    s1: Option<string>, e1: Option<string>,
                    s2: Option<string>, e2: Option<string>, v0: nat, w0: nat, a: nat)
    requires H2i(Some(addr)) == Ok(a)
    requires H2i(s0) == Ok(v0) && H2i(e0) == Ok(w0)
    ensures AddrInRange(addr, s0, e0, s1, e1, s2, e2) ==
      if v0 <= a <= w0 then Ok(Hit(0, APER_64K_START as real + TrueDiv(a - v0, SIZE_64K)))
      else AddrInLater(addr, s1, e1, s2, e2)
  {
    assert InRange(Some(addr), s0, e0) == Ok(v0 <= a <= w0);
    if v0 <= a <= w0 {
      assert CalcAperture(Some(addr), s0, SIZE_64K) == Ok(TrueDiv(a - v0, SIZE_64K));
    }
  }

  /** The tests after the 64KB region, as `AddrInRange` runs them. */
  function AddrInLater(addr: string, s1: Option<string>, e1: Option<string>,
                       s2: Option<string>, e2: Option<string>): Result<AddrHit>
  {
    match InRange(Some(addr), s1, e1)
    case Err(e) => Err(e)
    case Ok(true) =>
      (match CalcAperture(Some(addr), s1, SIZE_1MB)
       case Ok(x) => Ok(Hit(1, APER_1MB_START as real + x))
       case Err(e) => Err(e))
    case Ok(false) =>
      match InRange(Some(addr), s2, e2)
      case Err(e) => Err(e)
      case Ok(true) => Ok(Hit(2, APER_512MB as real))
      case Ok(false) => Ok(Miss)
  }

  lemma AddrPastFirst(addr: string, s1: Option<string>, e1: Option<string>,
                      s2: Option<string>, e2: Option<string>,
                      v1: nat, w1: nat, v2: nat, w2: nat, a: nat)
    requires H2i(Some(addr)) == Ok(a)
    requires H2i(s1) == Ok(v1) && H2i(e1) == Ok(w1)
    requires H2i(s2) == Ok(v2) && H2i(e2) == Ok(w2)
    ensures AddrInLater(addr, s1, e1, s2, e2) ==
      if v1 <= a <= w1 then Ok(Hit(1, APER_1MB_START as real + TrueDiv(a - v1, SIZE_1MB)))
      else if v2 <= a <= w2 then Ok(Hit(2, APER_512MB as real))
      else Ok(Miss)
  {
    assert InRange(Some(addr), s1, e1) == Ok(v1 <= a <= w1);
    if v1 <= a <= w1 {
      assert CalcAperture(Some(addr), s1, SIZE_1MB) == Ok(TrueDiv(a - v1, SIZE_1MB));
    } else {
      assert InRange(Some(addr), s2, e2) == Ok(v2 <= a <= w2);
    }
  }

  lemma FloorShift(c: int, y: real)
    ensures (c as real + y).Floor == c + y.Floor
  {
  }

  /** Every aperture of the map lies inside the region it belongs to. */
  lemma ApertureInRegion(x: Xppu, i: int)
    requires x.Valid() && i in x.apermap
    ensures 0 <= i <= 255 ==> x.b64kStart <= x.apermap[i].0 && x.apermap[i].1 <= x.b64kEnd
    ensures 384 <= i <= 399 ==> x.b1mStart <= x.apermap[i].0 && x.apermap[i].1 <= x.b1mEnd
    ensures i == 400 ==> x.apermap[i] == (x.b512mStart, x.b512mEnd)
    ensures x.apermap[i].0 <= x.apermap[i].1 || i == 400
  {
    if 0 <= i <= 255 {
      assert i * SIZE_64K <= 255 * SIZE_64K;
    } else if 384 <= i <= 399 {
      assert (i - 384) * SIZE_1MB <= 15 * SIZE_1MB;
    }
  }

  /** The index `is_addr_in_range` reports, truncated as the callers
      truncate it, is the aperture of the map that holds the address; an
      address it reports as outside lies in no aperture of the map. */
  lemma AddrHitNamesAperture(x: Xppu, addr: string)
    requires x.Valid() && H2i(Some(addr)).Ok?
    ensures x.IsAddrInRange(addr).Ok?
    ensures x.IsAddrInRange(addr).value.Hit? ==>
      var i := x.IsAddrInRange(addr).value.index.Floor;
      i in x.apermap && x.apermap[i].0 <= H2i(Some(addr)).value <= x.apermap[i].1
    ensures x.IsAddrInRange(addr).value.Miss? ==>
      forall i :: i in x.apermap ==> !(x.apermap[i].0 <= H2i(Some(addr)).value <= x.apermap[i].1)
  {
    IsAddrInRangeMeans(x, addr);
    ClassifyNamesAperture(x, H2i(Some(addr)).value);
  }

  lemma ClassifyNamesAperture(x: Xppu, a: nat)
    requires x.Valid()
    ensures var h := Classify(x.b64kStart, x.b64kEnd, x.b1mStart, x.b1mEnd, x.b512mStart, x.b512mEnd, a);
      (h.Hit? ==> h.index.Floor in x.apermap
                  && x.apermap[h.index.Floor].0 <= a <= x.apermap[h.index.Floor].1)
      && (h.Miss? ==> forall i :: i in x.apermap ==> !(x.apermap[i].0 <= a <= x.apermap[i].1))
  {
    if x.b64kStart <= a <= x.b64kEnd {
      Hit64K(x, a);
    } else if x.b1mStart <= a <= x.b1mEnd {
      Hit1MB(x, a);
    } else if x.b512mStart <= a <= x.b512mEnd {
    } else {
      forall i | i in x.apermap
        ensures !(x.apermap[i].0 <= a <= x.apermap[i].1)
      {
        ApertureInRegion(x, i);
      }
    }
  }

  lemma Hit64K(x: Xppu, a: nat)
    requires x.Valid() && x.b64kStart <= a <= x.b64kEnd
    ensures var i := (APER_64K_START as real + TrueDiv(a - x.b64kStart, SIZE_64K)).Floor;
      i in x.apermap && x.apermap[i].0 <= a <= x.apermap[i].1
  {
    FloorOfQuotient(a - x.b64kStart, SIZE_64K);
    FloorShift(APER_64K_START, TrueDiv(a - x.b64kStart, SIZE_64K));
    Aperture64KCovers(x.b64kStart, x.b1mStart, x.b512mStart, x.b512mEnd, a, 0);
  }

  lemma Hit1MB(x: Xppu, a: nat)
    requires x.Valid() && x.b1mStart <= a <= x.b1mEnd
    ensures var i := (APER_1MB_START as real + TrueDiv(a - x.b1mStart, SIZE_1MB)).Floor;
      i in x.apermap && x.apermap[i].0 <= a <= x.apermap[i].1
  {
    FloorOfQuotient(a - x.b1mStart, SIZE_1MB);
    FloorShift(APER_1MB_START, TrueDiv(a - x.b1mStart, SIZE_1MB));
    Aperture1MBCovers(x.b64kStart, x.b1mStart, x.b512mStart, x.b512mEnd, a, 384);
  }

  // ---------------------------------------------------------------------
  // Control and interrupt-enable registers

  /** Aperture and master-id parity checking are on; TrustZone is set
      for the apertures. */
  const APER_PARITY: bool := true
  const MID_PARITY: bool := true
  const TZ: bool := true

  /** Python's `int(b)` for a flag. */
  function FlagBit(b: bool): nat
  {
    if b then 1 else 0
  }

  /** An interrupt-enable entry: its name, whether it is on and its bit. */
  datatype Interrupt = Interrupt(name: string, enabled: bool, bit: nat)

  /** The `Interrupts` table, in its order. */
  const INTERRUPTS: seq<Interrupt> := [
    Interrupt("IEN_APER_PARITY", true, 7),
    Interrupt("IEN_APER_TZ", true, 6),
    Interrupt("IEN_APER_PERM", true, 5),
    Interrupt("IEN_MID_PARITY", true, 3),
    Interrupt("IEN_MID_RO", true, 2),
    Interrupt("IEN_MID_MISS", true, 1),
    Interrupt("IEN_INV_APB", true, 0)
  ]

  /** An entry's `enabled` flag as the integer the source shifts. */
  function EnableBit(e: Interrupt): nat
  {
    if e.enabled then 1 else 0
  }

  /** The or of `enabled << bit` over a run of entries. */
  function IenValue(xs: seq<Interrupt>): nat
  {
    if |xs| == 0 then 0
    else Or(IenValue(xs[..|xs| - 1]), Shl(EnableBit(xs[|xs| - 1]), xs[|xs| - 1].bit))
  }

  lemma IenValueStep(xs: seq<Interrupt>, e: Interrupt)
    ensures IenValue(xs + [e]) == Or(IenValue(xs), Shl(EnableBit(e), e.bit))
  {
    assert (xs + [e])[..|xs|] == xs;
  }

  /** Bit j of the enable value is set exactly when an enabled entry
      names bit j. */
  lemma {:induction false} IenValueBits(xs: seq<Interrupt>, j: nat)
    ensures Bit(IenValue(xs), j) == 1 <==> exists e :: e in xs && e.enabled && e.bit == j
  {
    if |xs| == 0 {
      ZeroBit(j);
    } else {
      var init := xs[..|xs| - 1];
      var e := xs[|xs| - 1];
      assert xs == init + [e];
      IenValueBits(init, j);
      var one := EnableBit(e);
      OrBit(IenValue(init), Shl(one, e.bit), j);
      ShlBit(one, e.bit, j);
      if j >= e.bit {
        if e.enabled { assert Bit(1, j - e.bit) == (if j == e.bit then 1 else 0) by { BitPow2(0, j - e.bit); } }
        else { ZeroBit(j - e.bit); }
      }
    }
  }

  /** With every interrupt on, the enable value is 0xEF: bits 0-3 and
      5-7. */
  lemma IenValueAllOn()
    ensures IenValue(INTERRUPTS) == 0xEF
  {
    forall j: nat ensures Bit(IenValue(INTERRUPTS), j) == Bit(0xEF, j) {
      IenValueBits(INTERRUPTS, j);
      if j < 8 {
        assert INTERRUPTS[0].bit == 7 && INTERRUPTS[1].bit == 6 && INTERRUPTS[2].bit == 5;
        assert INTERRUPTS[3].bit == 3 && INTERRUPTS[4].bit == 2 && INTERRUPTS[5].bit == 1;
        assert INTERRUPTS[6].bit == 0;
      } else {
        SmallBits(0xEF, 8, j);
      }
    }
    BitsExt(IenValue(INTERRUPTS), 0xEF);
  }

  // ---------------------------------------------------------------------
  // Aperture masks

  /** `list(self.masters).index(key)` finds slot i at key 0x100 + 4i. */
  lemma MidNameToIdxxSlot(x: Xppu, i: nat)
    requires i < MASTERS
    ensures x.MidNameToIdxx(SlotKey(i)) == Ok(i)
  {
  }

  /** The slot holds a master named in the list. */
  predicate Selected(s: Option<MasterId>, names: seq<string>)
  {
    s.Some? && s.value.name in names
  }

  /** The mask `get_aperture` has built after the first n slots. */
  function ApertureOf(ms: seq<Option<MasterId>>, names: seq<string>, n: nat): nat
    requires n <= |ms|
  {
    if n == 0 then 0
    else
      var acc := ApertureOf(ms, names, n - 1);
      var withSlot := if Selected(ms[n - 1], names) then Or(acc, Shl(1, n - 1)) else acc;
      Or(withSlot, Shl(FlagBit(TZ), TZ_BIT))
  }

  /** Bit 27 is set once a slot has been visited; bit j below n is set
      exactly when slot j is selected; no other bit is set. */
  lemma {:induction false} ApertureBits(ms: seq<Option<MasterId>>, names: seq<string>, n: nat, j: nat)
    requires n <= |ms| && n <= TZ_BIT
    ensures Bit(ApertureOf(ms, names, n), j)
         == if (j == TZ_BIT && n > 0) || (j < n && Selected(ms[j], names)) then 1 else 0
  {
    if n == 0 {
      ZeroBit(j);
    } else {
      ApertureBits(ms, names, n - 1, j);
      ApertureStepBits(ApertureOf(ms, names, n - 1), Selected(ms[n - 1], names), n - 1, j);
    }
  }

  /** One visited slot: its bit if selected, and the TrustZone bit. */
  lemma ApertureStepBits(acc: nat, sel: bool, k: nat, j: nat)
    ensures Bit(Or(if sel then Or(acc, Shl(1, k)) else acc, Shl(FlagBit(TZ), TZ_BIT)), j)
         == if j == TZ_BIT || (sel && j == k) || Bit(acc, j) == 1 then 1 else 0
  {
    var withSlot := if sel then Or(acc, Shl(1, k)) else acc;
    if sel {
      OrBit(acc, Shl(1, k), j);
      ShlBit(1, k, j);
      OneBit(j - k);
    }
    OrBit(withSlot, Shl(FlagBit(TZ), TZ_BIT), j);
    ShlBit(FlagBit(TZ), TZ_BIT, j);
    OneBit(j - TZ_BIT);
  }

  lemma OneBit(k: int)
    ensures k >= 0 ==> Bit(1, k) == if k == 0 then 1 else 0
  {
    if k > 0 {
      ZeroBit(k - 1);
    }
  }

  /** `get_master_list_from_aperture` over the first n slots: the names
      of the slots whose bit is set, highest first; an empty slot whose
      bit is set has no name (AttributeError). */
  function NamesFrom(ms: seq<Option<MasterId>>, mask: nat, n: nat): (r: Result<seq<string>>)
    requires n <= |ms|
    ensures r.Err? ==> r.error == AttributeError
    ensures r.Err? <==> exists j :: 0 <= j < n && Bit(mask, j) == 1 && ms[j].None?
  {
    if n == 0 then Ok([])
    else
      var rest := NamesFrom(ms, mask, n - 1);
      if Bit(mask, n - 1) == 1 then
        if ms[n - 1].None? then Err(AttributeError)
        else if rest.Err? then rest
        else Ok([ms[n - 1].value.name] + rest.value)
      else rest
  }

  /** The names of the selected slots among the first n, highest first;
      each is one of the names asked for. */
  function SelectedNames(ms: seq<Option<MasterId>>, names: seq<string>, n: nat): (r: seq<string>)
    requires n <= |ms|
    ensures forall x :: x in r ==> x in names
  {
    if n == 0 then []
    else (if Selected(ms[n - 1], names) then [ms[n - 1].value.name] else [])
         + SelectedNames(ms, names, n - 1)
  }

  /** Reading the master list back from the mask `get_aperture` built
      gives the names of the selected masters, highest slot first. */
  lemma ApertureRoundTrip(ms: seq<Option<MasterId>>, names: seq<string>)
    requires |ms| == MASTERS
    ensures NamesFrom(ms, ApertureOf(ms, names, MASTERS), MASTERS) == Ok(SelectedNames(ms, names, MASTERS))
  {
    NamesOfAperture(ms, names, ApertureOf(ms, names, MASTERS), MASTERS);
  }

  lemma {:induction false} NamesOfAperture(ms: seq<Option<MasterId>>, names: seq<string>, mask: nat, n: nat)
    requires |ms| == MASTERS && mask == ApertureOf(ms, names, MASTERS) && n <= MASTERS
    ensures NamesFrom(ms, mask, n) == Ok(SelectedNames(ms, names, n))
  {
    if n > 0 {
      NamesOfAperture(ms, names, mask, n - 1);
      ApertureBits(ms, names, MASTERS, n - 1);
      var rest := SelectedNames(ms, names, n - 1);
      if Selected(ms[n - 1], names) {
        assert SelectedNames(ms, names, n) == [ms[n - 1].value.name] + rest;
      } else {
        assert SelectedNames(ms, names, n) == [] + rest == rest;
      }
    }
  }

  /** The non-default masks keep every bit of the default mask and add
      bit 27 and the bits of the slots holding the named master. */
  lemma NondefApertureBits(d: nat, ms: seq<Option<MasterId>>, name: string, j: nat)
    requires |ms| == MASTERS
    ensures Bit(Or(d, ApertureOf(ms, [name], MASTERS)), j) == 1
        <==> Bit(d, j) == 1 || j == TZ_BIT || (j < MASTERS && Selected(ms[j], [name]))
  {
    OrBit(d, ApertureOf(ms, [name], MASTERS), j);
    ApertureBits(ms, [name], MASTERS, j);
  }

  // ---------------------------------------------------------------------
  // Register layout

  /** The master-id registers sit above the interrupt-enable register
      and below the aperture registers; distinct slots have distinct
      registers. */
  lemma RegisterLayout(x: Xppu, i: int, j: int, aper: int)
    requires 0 <= i < MASTERS as int && 0 <= j < MASTERS as int && aper >= 0
    ensures x.baseaddr + 0x18 < x.GetMasterAddr(i).value < x.AperToAddr(aper)
    ensures i != j ==> x.GetMasterAddr(i) != x.GetMasterAddr(j)
  {
    SlotOfIndex(i);
    SlotOfIndex(j);
  }

  // ---------------------------------------------------------------------
  // Master-id table, init_masters and init_xppu

  /** `MIDL`: each master's SMID and SMID mask. */
  const MIDL: map<string, (nat, nat)> := map[
    "PPU0" := (0x246, 0x3FF),
    "PPU1" := (0x247, 0x3FF),
    "DAP" := (0x240, 0x3FF),
    "HSDP_DPC" := (0x249, 0x3FF),
    "PMC_DMA0" := (0x248, 0x3FF),
    "PMC_DMA1" := (0x24B, 0x3FF),
    "APU" := (0x260, 0x3F0),
    "APU0" := (0x260, 0x3FF),
    "APU1" := (0x261, 0x3FF),
    "RPU0" := (0x200, 0x3FF),
    "RPU1" := (0x204, 0x3FF),
    "APU0_RO" := (0x260, 0x3FF),
    "APU1_RO" := (0x261, 0x3FF),
    "RPU0_RO" := (0x200, 0x3FF),
    "RPU1_RO" := (0x204, 0x3FF),
    "PSM" := (0x238, 0x3FF),
    "ANY_RO" := (0x0, 0x0),
    "ANY_RW" := (0x0, 0x0)
  ]

  /** Every id fits the 16-bit id field and every mask the 14-bit mask
      field of a master-id word. */
  lemma MidlFits(name: string)
    requires name in MIDL
    ensures MIDL[name].0 < 0x1_0000 && MIDL[name].1 < 0x4000
  {
  }

  /** `mid(master, rw, parity)`: the master-id entry of a master of the
      table. A master the table lacks leaves `mid` unbound, which Python
      reports as an UnboundLocalError, a kind of NameError. */
  function Mid(master: string, rw: nat, parity: bool): (r: Result<MasterId>)
    ensures r.Ok? <==> master in MIDL
    ensures r.Err? ==> r.error == NameError
    ensures r.Ok? ==> r.value.name == master && r.value.rw == rw && r.value.parity == parity
    ensures r.Ok? ==> (r.value.mid, r.value.mask) == MIDL[master]
  {
    if master in MIDL then Ok(MasterId(master, MIDL[master].0, MIDL[master].1, rw, parity))
    else Err(NameError)
  }

  /** A master built by `mid` with an rw flag of 0 or 1 gives a 32-bit
      word with its fields in place, and with parity on the word has
      even parity. */
  lemma MidWord(master: string, rw: nat, parity: bool)
    requires master in MIDL && rw <= 1
    ensures var m := Mid(master, rw, parity).value;
      Val(m) < 0x1_0000_0000 && Val(m) % 0x1_0000 == m.mid && Val(m) / 0x1_0000 % 0x4000 == m.mask
      && Bit(Val(m), 30) == rw && (parity ==> CalcParity(Val(m)) == 0)
  {
    var m := Mid(master, rw, parity).value;
    MidlFits(master);
    ValLayout(m);
    if parity {
      ValEvenParity(m);
    }
  }

  /** The slots `init_masters` fills: slot, master and rw flag. */
  const INIT_MASTERS: seq<(nat, string, nat)> := [
    (0, "PSM", RW), (1, "RPU0", RW), (2, "RPU1", RW), (3, "APU0", RW), (4, "APU1", RW),
    (5, "HSDP_DPC", RW), (6, "DAP", RW), (7, "PPU1", RW), (8, "PPU0", RW),
    (9, "PMC_DMA0", RW), (10, "PMC_DMA1", RW),
    (11, "APU0_RO", RO), (12, "APU1_RO", RO), (13, "RPU0_RO", RO), (14, "RPU1_RO", RO),
    (18, "ANY_RO", RO), (19, "ANY_RW", RW)
  ]

  /** The masters of the table are all known to `mid`, and each slot is
      filled once. */
  lemma InitMastersKnown()
    ensures forall e | e in INIT_MASTERS :: e.1 in MIDL && e.0 < MASTERS && e.2 <= 1
  {
  }

  /** `init_masters(xppu)`: the slots after the 17 `set_master` calls. */
  method InitMasters(x: Xppu)
    requires x.Valid()
    modifies x`masters
    ensures x.Valid()
    ensures x.masters == InitSlots(old(x.masters))
  {
    x.SetMaster(0, Installed("PSM", RW));
    x.SetMaster(1, Installed("RPU0", RW));
    x.SetMaster(2, Installed("RPU1", RW));
    x.SetMaster(3, Installed("APU0", RW));
    x.SetMaster(4, Installed("APU1", RW));
    x.SetMaster(5, Installed("HSDP_DPC", RW));
    x.SetMaster(6, Installed("DAP", RW));
    x.SetMaster(7, Installed("PPU1", RW));
    x.SetMaster(8, Installed("PPU0", RW));
    x.SetMaster(9, Installed("PMC_DMA0", RW));
    x.SetMaster(10, Installed("PMC_DMA1", RW));
    x.SetMaster(11, Installed("APU0_RO", RO));
    x.SetMaster(12, Installed("APU1_RO", RO));
    x.SetMaster(13, Installed("RPU0_RO", RO));
    x.SetMaster(14, Installed("RPU1_RO", RO));
    x.SetMaster(18, Installed("ANY_RO", RO));
    x.SetMaster(19, Installed("ANY_RW", RW));
  }

  /** What `set_master(i, mid(name, rw, MID_PARITY))` stores: the
      master's entry, or nothing for a name `mid` does not know (where
      the source stops with a NameError; `InitSlotsFilled` shows that
      every name of `init_masters` is known). */
  function Installed(name: string, rw: nat): Option<MasterId>
  {
    match Mid(name, rw, MID_PARITY)
    case Ok(m) => Some(m)
    case Err(_) => None
  }

  /** The slots as `init_masters` leaves them. */
  function InitSlots(ms: seq<Option<MasterId>>): seq<Option<MasterId>>
    requires |ms| == MASTERS
  {
    InitSlotsFirst(ms)
      [10 := Installed("PMC_DMA1", RW)]
      [11 := Installed("APU0_RO", RO)]
      [12 := Installed("APU1_RO", RO)]
      [13 := Installed("RPU0_RO", RO)]
      [14 := Installed("RPU1_RO", RO)]
      [18 := Installed("ANY_RO", RO)]
      [19 := Installed("ANY_RW", RW)]
  }

  /** The first ten `set_master` calls of `init_masters`. */
  function InitSlotsFirst(ms: seq<Option<MasterId>>): (r: seq<Option<MasterId>>)
    requires |ms| == MASTERS
    ensures |r| == MASTERS
  {
    ms
      [0 := Installed("PSM", RW)]
      [1 := Installed("RPU0", RW)]
      [2 := Installed("RPU1", RW)]
      [3 := Installed("APU0", RW)]
      [4 := Installed("APU1", RW)]
      [5 := Installed("HSDP_DPC", RW)]
      [6 := Installed("DAP", RW)]
      [7 := Installed("PPU1", RW)]
      [8 := Installed("PPU0", RW)]
      [9 := Installed("PMC_DMA0", RW)]
  }

  /** Slot e.0 holds master e.1 with rw flag e.2, parity on. */
  predicate Filled(ms: seq<Option<MasterId>>, e: (nat, string, nat))
  {
    e.0 < |ms| && Mid(e.1, e.2, MID_PARITY).Ok? && ms[e.0] == Some(Mid(e.1, e.2, MID_PARITY).value)
  }

  /** `init_masters` fills slots 0-14, 18 and 19 as the table says and
      leaves slots 15-17 alone. */
  lemma InitSlotsFilled(ms: seq<Option<MasterId>>)
    requires |ms| == MASTERS
    ensures |InitSlots(ms)| == MASTERS
    ensures forall k | 0 <= k < |INIT_MASTERS| :: Filled(InitSlots(ms), INIT_MASTERS[k])
    ensures forall i | 15 <= i <= 17 :: InitSlots(ms)[i] == ms[i]
  {
  }

  /** Every master `init_masters` installs has a well-formed 32-bit word
      with even parity. */
  lemma InitSlotsWords(ms: seq<Option<MasterId>>, k: nat)
    requires |ms| == MASTERS && k < |INIT_MASTERS|
    ensures var m := InitSlots(ms)[INIT_MASTERS[k].0].value;
      Val(m) < 0x1_0000_0000 && Bit(Val(m), 30) == m.rw && CalcParity(Val(m)) == 0
  {
    InitSlotsFilled(ms);
    var e := INIT_MASTERS[k];
    assert Filled(InitSlots(ms), e);
    MidWord(e.1, e.2, MID_PARITY);
  }

  /** `xppu_hw`: register base, 64KB, 1MB and 512MB region bases and
      power-management id of each XPPU. */
  const XPPU_HW: map<string, (nat, nat, nat, Option<nat>, nat)> := map[
    "pmc_xppu" := (0xF131_0000, 0xF100_0000, 0xF000_0000, Some(0xC000_0000), 0x2400_0002),
    "pmc_xppu_npi" := (0xF130_0000, 0xF600_0000, 0xF700_0000, None, 0x2400_0003),
    "lpd_xppu" := (0xFF99_0000, 0xFF00_0000, 0xFE00_0000, Some(0xE000_0000), 0x2400_0001)
  ]

  /** `init_xppu(name)`: a new instance built from its `xppu_hw` row; an
      unknown name is a KeyError. */
  method InitXppu(name: string) returns (r: Result<Xppu>)
    ensures r.Err? <==> name !in XPPU_HW
    ensures r.Err? ==> r.error == KeyError
    ensures r.Ok? ==> fresh(r.value) && r.value.Valid() && r.value.name == name
    ensures r.Ok? ==> r.value.baseaddr == XPPU_HW[name].0 && r.value.b64kStart == XPPU_HW[name].1
                      && r.value.b1mStart == XPPU_HW[name].2 && r.value.pmId == XPPU_HW[name].4
  {
    if name !in XPPU_HW {
      return Err(KeyError);
    }
    var hw := XPPU_HW[name];
    var x := new Xppu(name, hw.0, hw.1, hw.2, hw.3, hw.4);
    return Ok(x);
  }

  /** An XPPU without a 512MB region gets the region 0x0-0x0, so address
      0 (when outside the other two regions) is reported as aperture 400. */
  lemma MissingLargeRegionHoldsZero(b64kStart: nat, b64kEnd: nat, b1mStart: nat, b1mEnd: nat)
    requires b64kStart > 0 && b1mStart > 0
    ensures Classify(b64kStart, b64kEnd, b1mStart, b1mEnd, 0, 0, 0) == Hit(2, APER_512MB as real)
    ensures forall a: nat :: a > 0 && !(b64kStart <= a <= b64kEnd) && !(b1mStart <= a <= b1mEnd)
              ==> Classify(b64kStart, b64kEnd, b1mStart, b1mEnd, 0, 0, a) == Miss
  {
  }
}
