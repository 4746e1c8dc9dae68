/** The power-management request flags of the Xilinx assists
    (lopper/assists/xlnx/power.py): the decoders that read the usage,
    security, read, write, non-secure region, preallocation and capability
    fields out of a requirement's flags word, the memory-region test on a
    node id, and the constant tables between device names, node ids and
    memory bases. */
module XlnxPower {
  import opened Common
  import opened Bits

  // ---------------------------------------------------------------------
  // The policies a flags word encodes, with their `IntEnum` values

  datatype ReqUsage = NoRestriction | Shared | NonShared | TimeShared
  datatype RegionSecurity = FromSecure | FromNonsecure
  datatype RdWrPolicy = Allowed | NotAllowed
  datatype NsregnCheck = Relaxed | Strict
  datatype Prealloc = NotRequired | Required

  function UsageCode(u: ReqUsage): nat
  {
    match u
    case NoRestriction => 0
    case Shared => 1
    case NonShared => 2
    case TimeShared => 3
  }

  function SecurityCode(s: RegionSecurity): nat
  {
    if s == FromSecure then 0 else 1
  }

  function RdWrCode(p: RdWrPolicy): nat
  {
    if p == Allowed then 0 else 1
  }

  function NsregnCode(p: NsregnCheck): nat
  {
    if p == Relaxed then 0 else 1
  }

  function PreallocCode(p: Prealloc): nat
  {
    if p == NotRequired then 0 else 1
  }

  /** The `req_usage` table: the policy whose value is k, if any. */
  function UsageKey(k: nat): (r: Option<ReqUsage>)
    ensures r.Some? <==> k < 4
    ensures r.Some? ==> UsageCode(r.value) == k
  {
    if k == 0 then Some(NoRestriction)
    else if k == 1 then Some(Shared)
    else if k == 2 then Some(NonShared)
    else if k == 3 then Some(TimeShared)
    else None
  }

  /** The tables keyed by a one-bit field (`req_security`, `req_rd_wr`,
      `nsregn`, `prealloc`) hold the keys 0 and 1. */
  predicate OneBitKey(k: nat)
  {
    k == 0 || k == 1
  }

  // ---------------------------------------------------------------------
  // Masks and offsets

  const USAGE_MASK: nat := 0x3
  const SECURITY_MASK: nat := 0x4
  const SECURITY_OFFSET: nat := 0x2
  const RD_POLICY_MASK: nat := 0x8
  const RD_POLICY_OFFSET: nat := 0x3
  const WR_POLICY_MASK: nat := 0x10
  const WR_POLICY_OFFSET: nat := 0x4
  const NSREGN_CHECK_MASK: nat := 0x20
  const NSREGN_CHECK_OFFSET: nat := 0x5
  const CAPABILITY_OFFSET: nat := 0x8
  const CAPABILITY_MASK: nat := 0x7F00
  const PREALLOC_OFFSET: nat := 6

  /** `prealloc_mask`, written `0x1 << 6`. */
  function PreallocMask(): nat
  {
    Shl(1, 6)
  }

  /** Bit k of n is the parity of n / 2^k. */
  lemma BitDiv(n: nat, k: nat)
    ensures Bit(n, k) == (n / Pow2(k)) % 2
  {
    ShrBit(n, k, 0);
    ShrDiv(n, k);
  }

  /** Masking with the single bit k and shifting it down by k leaves that
      bit, whichever side of the `&` the mask is on. */
  lemma MaskedBit(flags: nat, k: nat)
    ensures Shr(And(flags, Pow2(k)), k) == (flags / Pow2(k)) % 2
    ensures Shr(And(Pow2(k), flags), k) == (flags / Pow2(k)) % 2
  {
    BitDiv(flags, k);
    var b := Bit(flags, k);
    forall j: nat ensures Bit(Shr(And(flags, Pow2(k)), k), j) == Bit(b, j)
                      && Bit(Shr(And(Pow2(k), flags), k), j) == Bit(b, j) {
      ShrBit(And(flags, Pow2(k)), k, j);
      ShrBit(And(Pow2(k), flags), k, j);
      AndBit(flags, Pow2(k), j + k);
      AndBit(Pow2(k), flags, j + k);
      BitPow2(k, j + k);
      if j > 0 {
        ZeroBit(j - 1);
      }
    }
    BitsExt(Shr(And(flags, Pow2(k)), k), b);
    BitsExt(Shr(And(Pow2(k), flags), k), b);
  }

  /** `(flags & mask) >> offset` for a one-bit mask at `offset`. */
  function FlagBit(flags: nat, mask: nat, offset: nat): (b: nat)
    requires mask == Pow2(offset)
    ensures b == (flags / mask) % 2
  {
    MaskedBit(flags, offset);
    Shr(And(flags, mask), offset)
  }

  // ---------------------------------------------------------------------
  // The decoders

  /** The usage policy `usage(flags)` reports: `req_usage[flags & 0x3]`.
      The lookup cannot miss, and the policy is the low two bits. */
  function UsageOf(flags: nat): (u: ReqUsage)
    ensures UsageCode(u) == flags % 4
  {
    assert Pow2(2) == 4;
    AndLowMask(flags, 2);
    UsageKey(And(flags, USAGE_MASK)).value
  }

  /** The security requirement `security(flags)` reports: bit 2. */
  function SecurityOf(flags: nat): (s: RegionSecurity)
    ensures SecurityCode(s) == (flags / 4) % 2
  {
    assert Pow2(2) == SECURITY_MASK;
    var k := FlagBit(flags, SECURITY_MASK, SECURITY_OFFSET);
    assert OneBitKey(k);
    if k == 0 then FromSecure else FromNonsecure
  }

  /** The read policy `read_policy(flags)` reports: bit 3. */
  function ReadPolicyOf(flags: nat): (p: RdWrPolicy)
    ensures RdWrCode(p) == (flags / 8) % 2
  {
    assert Pow2(3) == RD_POLICY_MASK;
    var k := FlagBit(flags, RD_POLICY_MASK, RD_POLICY_OFFSET);
    assert OneBitKey(k);
    if k == 0 then Allowed else NotAllowed
  }

  /** The write policy `write_policy(flags)` reports: bit 4. */
  function WritePolicyOf(flags: nat): (p: RdWrPolicy)
    ensures RdWrCode(p) == (flags / 16) % 2
  {
    assert Pow2(4) == WR_POLICY_MASK;
    var k := FlagBit(flags, WR_POLICY_MASK, WR_POLICY_OFFSET);
    assert OneBitKey(k);
    if k == 0 then Allowed else NotAllowed
  }

  /** The non-secure region check `nsregn_policy(flags)` reports: bit 5. */
  function NsregnPolicyOf(flags: nat): (p: NsregnCheck)
    ensures NsregnCode(p) == (flags / 32) % 2
  {
    assert Pow2(5) == NSREGN_CHECK_MASK;
    var k := FlagBit(flags, NSREGN_CHECK_MASK, NSREGN_CHECK_OFFSET);
    assert OneBitKey(k);
    if k == 0 then Relaxed else Strict
  }

  /** The preallocation policy `prealloc_policy(flags)` reports: bit 6. */
  function PreallocPolicyOf(flags: nat): (p: Prealloc)
    ensures PreallocCode(p) == (flags / 64) % 2
  {
    assert PreallocMask() == Pow2(6) == 64;
    var k := FlagBit(flags, PreallocMask(), PREALLOC_OFFSET);
    assert OneBitKey(k);
    if k == 0 then NotRequired else Required
  }

  /** The capability value `capability_policy(flags)` reports:
      `(flags & 0x7F00) >> 8`, the seven bits from bit 8. */
  function CapabilityOf(flags: nat): (c: nat)
    ensures c == (flags / 256) % 128
  {
    CapabilityField(flags);
    Shr(And(flags, CAPABILITY_MASK), CAPABILITY_OFFSET)
  }

  lemma CapabilityField(flags: nat)
    ensures Shr(And(flags, CAPABILITY_MASK), CAPABILITY_OFFSET) == (flags / 256) % 128
  {
    assert Pow2(7) == 128 && Pow2(8) == 256;
    assert CAPABILITY_MASK == Shl(Pow2(7) - 1, 8);
    var x := Shr(And(flags, CAPABILITY_MASK), 8);
    var y := Shr(flags, 8) % Pow2(7);
    forall j: nat ensures Bit(x, j) == Bit(y, j) {
      ShrBit(And(flags, CAPABILITY_MASK), 8, j);
      AndBit(flags, CAPABILITY_MASK, j + 8);
      ShlBit(Pow2(7) - 1, 8, j + 8);
      LowMaskBits(7, j);
      ModBits(Shr(flags, 8), 7, j);
      ShrBit(flags, 8, j);
    }
    BitsExt(x, y);
    ShrDiv(flags, 8);
  }

  /** `mem_regn_node(node_id)`: bits 20 to 25 of the id, masked in place
      with `0x3F << 20`, equal `0x300000`. That is, the six-bit node class
      field from bit 20 is 3, the class of memory regions. */
  function MemRegnNode(nodeId: nat): (r: bool)
    ensures r <==> (nodeId / 0x100000) % 64 == 3
  {
    MemRegnField(nodeId);
    And(Shl(0x3F, 20), nodeId) == 0x300000
  }

  lemma MemRegnField(nodeId: nat)
    ensures And(Shl(0x3F, 20), nodeId) == ((nodeId / 0x100000) % 64) * 0x100000
  {
    assert Pow2(6) == 64 && Pow2(20) == 0x100000;
    assert 0x3F == Pow2(6) - 1;
    var x := Shr(nodeId, 20) % Pow2(6);
    forall j: nat ensures Bit(And(Shl(0x3F, 20), nodeId), j) == Bit(Shl(x, 20), j) {
      AndBit(Shl(0x3F, 20), nodeId, j);
      ShlBit(0x3F, 20, j);
      ShlBit(x, 20, j);
      if j >= 20 {
        LowMaskBits(6, j - 20);
        ModBits(Shr(nodeId, 20), 6, j - 20);
        ShrBit(nodeId, 20, j - 20);
      }
    }
    BitsExt(And(Shl(0x3F, 20), nodeId), Shl(x, 20));
    ShrDiv(nodeId, 20);
  }

  // ---------------------------------------------------------------------
  // The report lines

  /** `usage(flags)`. */
  function Usage(flags: nat): string
  {
    "#    usage: " + UsageText(UsageOf(flags))
  }

  function UsageText(u: ReqUsage): string
  {
    match u
    case NoRestriction => "device accessible from all subsystem"
    case Shared => "device simultaneously shared between two or more subsystems"
    case NonShared => "device exclusively reserved by one subsystem, always"
    case TimeShared => "device is time shared between two or more subsystems"
  }

  /** `security(flags)`. */
  function Security(flags: nat): string
  {
    "#    security: " +
    if SecurityOf(flags) == FromSecure then "Device/Memory region only allows access from secure masters"
    else "Device/Memory region allow both secure or non-secure masters"
  }

  function RdWrText(p: RdWrPolicy): string
  {
    if p == Allowed then "Transaction allowed" else "Transaction not Allowed"
  }

  /** `read_policy(flags)`. */
  function ReadPolicy(flags: nat): string
  {
    "#    read policy: " + RdWrText(ReadPolicyOf(flags))
  }

  /** `write_policy(flags)`. */
  function WritePolicy(flags: nat): string
  {
    "#    write policy: " + RdWrText(WritePolicyOf(flags))
  }

  /** `nsregn_policy(flags)`. */
  function NsregnPolicy(flags: nat): string
  {
    "#    Non-secure memory region check type policy: " +
    if NsregnPolicyOf(flags) == Relaxed then "RELAXED" else "STRICT"
  }

  /** `prealloc_policy(flags)`. */
  function PreallocPolicy(flags: nat): string
  {
    "#    Preallocation policy: " +
    if PreallocPolicyOf(flags) == NotRequired then "prealloc not required" else "prealloc required"
  }

  /** The capabilities of the detailed preallocation report, bit i naming
      `CAPS[i]`. */
  const CAPS: seq<string> := ["full access", "preserve context", "emit wake interrupts",
                              "not usable", "secure access", "coherent access", "virtualized access"]

  const DETAILED_PREFIX: string := "#    Preallocation detailed: "

  /** The capabilities among the first n whose bit is set in flags, in
      bit order, each after a space. */
  function CapWords(flags: nat, n: nat): string
    requires n <= |CAPS|
  {
    if n == 0 then ""
    else CapWords(flags, n - 1) + (if Bit(flags, n - 1) == 1 then " " + CAPS[n - 1] else "")
  }

  /** `prealloc_detailed_policy(flags)`: one pass over the capabilities,
      appending the name of each one whose bit is set. */
  method PreallocDetailedPolicy(flags: nat) returns (msg: string)
    ensures msg == DETAILED_PREFIX + CapWords(flags, |CAPS|)
  {
    msg := DETAILED_PREFIX;
    for index: nat := 0 to |CAPS|
      invariant msg == DETAILED_PREFIX + CapWords(flags, index)
    {
      MaskedBit(flags, index);
      BitDiv(flags, index);
      var m := Shr(And(Shl(1, index), flags), index);
      if m == 1 {
        msg := msg + " " + CAPS[index];
      }
    }
  }

  /** The detailed report lists no capability exactly when none of the
      first n bits is set. */
  lemma {:induction false} CapWordsEmpty(flags: nat, n: nat)
    requires n <= |CAPS|
    ensures CapWords(flags, n) == "" <==> forall i: nat :: i < n ==> Bit(flags, i) == 0
  {
    if n > 0 {
      CapWordsEmpty(flags, n - 1);
      if Bit(flags, n - 1) == 1 {
        assert |CapWords(flags, n)| > 0;
        assert n - 1 < n && Bit(flags, n - 1) != 0;
      } else {
        assert CapWords(flags, n) == CapWords(flags, n - 1);
      }
    }
  }

  lemma {:induction false} ContainsTail(a: string, b: string)
    ensures Contains(a + b, b)
    decreases |a|
  {
    if |a| == 0 {
      assert (a + b)[..|b|] == b;
    } else {
      assert (a + b)[1..] == a[1..] + b;
      ContainsTail(a[1..], b);
    }
  }

  lemma {:induction false} ContainsExtend(a: string, c: string, x: string)
    requires Contains(a, x)
    ensures Contains(a + c, x)
    decreases |a|
  {
    if StartsWith(a, x) {
      assert (a + c)[..|x|] == a[..|x|];
    } else {
      assert (a + c)[1..] == a[1..] + c;
      ContainsExtend(a[1..], c, x);
    }
  }

  /** Every capability whose bit is set is listed in the report. */
  lemma {:induction false} CapListed(flags: nat, n: nat, i: nat)
    requires i < n <= |CAPS|
    requires Bit(flags, i) == 1
    ensures Contains(CapWords(flags, n), " " + CAPS[i])
  {
    if i == n - 1 {
      ContainsTail(CapWords(flags, n - 1), " " + CAPS[i]);
    } else {
      CapListed(flags, n - 1, i);
      ContainsExtend(CapWords(flags, n - 1), if Bit(flags, n - 1) == 1 then " " + CAPS[n - 1] else "", " " + CAPS[i]);
    }
  }

  // ---------------------------------------------------------------------
  // Requirements and their flags

  /** A `Requirement`: the subsystem and node it belongs to and the
      policies of its flags word. */
  datatype Requirement = Requirement(
    subsystem: nat, node: nat,
    prealloc: Prealloc, capability: nat, nsregnPolicy: NsregnCheck,
    readPolicy: RdWrPolicy, writePolicy: RdWrPolicy,
    security: RegionSecurity, usage: ReqUsage)

  /** The requirement the decoders read out of a flags word. */
  function RequirementOf(subsystem: nat, node: nat, flags: nat): Requirement
  {
    Requirement(subsystem, node, PreallocPolicyOf(flags), CapabilityOf(flags),
                NsregnPolicyOf(flags), ReadPolicyOf(flags), WritePolicyOf(flags),
                SecurityOf(flags), UsageOf(flags))
  }

  /** The flags word that encodes a requirement's policies: each field at
      the offset its decoder reads, bit 7 and everything above bit 14
      clear. */
  function Pack(r: Requirement): nat
  {
    UsageCode(r.usage) + 4 * SecurityCode(r.security) + 8 * RdWrCode(r.readPolicy)
    + 16 * RdWrCode(r.writePolicy) + 32 * NsregnCode(r.nsregnPolicy)
    + 64 * PreallocCode(r.prealloc) + 256 * r.capability
  }

  /** Decoding a packed requirement gives it back. */
  lemma DecodePacked(r: Requirement)
    requires r.capability < 128
    ensures RequirementOf(r.subsystem, r.node, Pack(r)) == r
  {
    PackedFields(UsageCode(r.usage), SecurityCode(r.security), RdWrCode(r.readPolicy),
                 RdWrCode(r.writePolicy), NsregnCode(r.nsregnPolicy), PreallocCode(r.prealloc),
                 r.capability, Pack(r));
  }

  /** Each field of a packed word reads back. */
  lemma PackedFields(u: nat, s: nat, a: nat, b: nat, c: nat, d: nat, cap: nat, f: nat)
    requires u < 4 && s < 2 && a < 2 && b < 2 && c < 2 && d < 2 && cap < 128
    requires f == u + 4 * s + 8 * a + 16 * b + 32 * c + 64 * d + 256 * cap
    ensures f % 4 == u && (f / 4) % 2 == s && (f / 8) % 2 == a && (f / 16) % 2 == b
    ensures (f / 32) % 2 == c && (f / 64) % 2 == d && (f / 256) % 128 == cap
  {
    FieldAt(f, 1, s + 2 * a + 4 * b + 8 * c + 16 * d + 64 * cap, u, 0, 4);
    FieldAt(f, 4, a + 2 * b + 4 * c + 8 * d + 32 * cap, s, u, 2);
    FieldAt(f, 8, b + 2 * c + 4 * d + 16 * cap, a, u + 4 * s, 2);
    FieldAt(f, 16, c + 2 * d + 8 * cap, b, u + 4 * s + 8 * a, 2);
    FieldAt(f, 32, d + 4 * cap, c, u + 4 * s + 8 * a + 16 * b, 2);
    FieldAt(f, 64, 2 * cap, d, u + 4 * s + 8 * a + 16 * b + 32 * c, 2);
    FieldAt(f, 256, 0, cap, u + 4 * s + 8 * a + 16 * b + 32 * c + 64 * d, 128);
  }

  /** The field of width w at m in a number laid out as hi, x, lo. */
  lemma FieldAt(f: nat, m: nat, hi: nat, x: nat, lo: nat, w: nat)
    requires m > 0 && w > 0 && lo < m && x < w && f == (hi * w + x) * m + lo
    ensures (f / m) % w == x
  {
    DivUnique(f, m, hi * w + x, lo);
    DivUnique(f / m, w, hi, x);
  }

  /** Splitting the remainder by 2m at bit m. */
  lemma ModSplit(f: nat, m: nat)
    requires m > 0
    ensures f % (2 * m) == f % m + m * ((f / m) % 2)
  {
    var q, r := f / (2 * m), f % (2 * m);
    var hi, lo := r / m, r % m;
    assert r == m * hi + lo;
    assert f == (2 * q + hi) * m + lo;
    DivUnique(f, m, 2 * q + hi, lo);
    DivUnique(f / m, 2, q, hi);
  }

  /** Packing what the decoders read keeps bits 0 to 6 and 8 to 14 of the
      flags word and clears the rest: no other bit carries a policy. */
  lemma PackDecoded(subsystem: nat, node: nat, flags: nat)
    ensures Pack(RequirementOf(subsystem, node, flags)) == flags % 128 + 256 * ((flags / 256) % 128)
  {
    ModSplit(flags, 2);
    ModSplit(flags, 4);
    ModSplit(flags, 8);
    ModSplit(flags, 16);
    ModSplit(flags, 32);
    ModSplit(flags, 64);
  }

  // ---------------------------------------------------------------------
  // Device tables

  /** `misc_devices`: devicetree nodes without a power domain and the
      power-management device they stand for. */
  const MISC_DEVICES: map<string, string> := map[
    "mailbox@ff320000" := "PM_DEV_IPI_0",
    "mailbox@ff390000" := "PM_DEV_IPI_1",
    "mailbox@ff310000" := "PM_DEV_IPI_2",
    "mailbox@ff330000" := "PM_DEV_IPI_3",
    "mailbox@ff340000" := "PM_DEV_IPI_4",
    "mailbox@ff350000" := "PM_DEV_IPI_5",
    "mailbox@ff360000" := "PM_DEV_IPI_6",
    "watchdog@ff120000" := "PM_DEV_SWDT_LPD"
  ]

  /** `xlnx_pm_mem_node_to_base`: the base address of each on-chip memory
      device. */
  const MEM_NODE_TO_BASE: map<string, nat> := map[
    "PM_DEV_OCM_0" := 0xff960000,
    "PM_DEV_OCM_1" := 0xff960000,
    "PM_DEV_OCM_2" := 0xff960000,
    "PM_DEV_OCM_3" := 0xff960000,
    "PM_DEV_TCM_0_A" := 0xffe00000,
    "PM_DEV_TCM_0_B" := 0xffe20000,
    "PM_DEV_TCM_1_A" := 0xffe90000,
    "PM_DEV_TCM_1_B" := 0xffeb0000
  ]

  /** `xlnx_pm_devname_to_id` and `xlnx_pm_devid_to_name`. */
  const DEVNAME_TO_ID: map<string, nat> := map[
    "PM_DEV_PLD_0" := 0x18700000,
    "PM_DEV_PMC_PROC" := 0x18104001,
    "PM_DEV_PSM_PROC" := 0x18108002,
    "PM_DEV_ACPU_0" := 0x1810c003,
    "PM_DEV_ACPU_1" := 0x1810c004,
    "PM_DEV_RPU0_0" := 0x18110005,
    "PM_DEV_RPU0_1" := 0x18110006,
    "PM_DEV_OCM_0" := 0x18314007,
    "PM_DEV_OCM_1" := 0x18314008,
    "PM_DEV_OCM_2" := 0x18314009,
    "PM_DEV_OCM_3" := 0x1831400a,
    "PM_DEV_TCM_0_A" := 0x1831800b,
    "PM_DEV_TCM_0_B" := 0x1831800c,
    "PM_DEV_TCM_1_A" := 0x1831800d,
    "PM_DEV_TCM_1_B" := 0x1831800e,
    "PM_DEV_L2_BANK_0" := 0x1831c00f,
    "PM_DEV_DDR_0" := 0x18320010,
    "PM_DEV_USB_0" := 0x18224018,
    "PM_DEV_GEM_0" := 0x18224019,
    "PM_DEV_GEM_1" := 0x1822401a,
    "PM_DEV_SPI_0" := 0x1822401b,
    "PM_DEV_SPI_1" := 0x1822401c,
    "PM_DEV_I2C_0" := 0x1822401d,
    "PM_DEV_I2C_1" := 0x1822401e,
    "PM_DEV_CAN_FD_0" := 0x1822401f,
    "PM_DEV_CAN_FD_1" := 0x18224020,
    "PM_DEV_UART_0" := 0x18224021,
    "PM_DEV_UART_1" := 0x18224022,
    "PM_DEV_GPIO" := 0x18224023,
    "PM_DEV_TTC_0" := 0x18224024,
    "PM_DEV_TTC_1" := 0x18224025,
    "PM_DEV_TTC_2" := 0x18224026,
    "PM_DEV_TTC_3" := 0x18224027,
    "PM_DEV_SWDT_LPD" := 0x18224028,
    "PM_DEV_SWDT_FPD" := 0x18224029,
    "PM_DEV_OSPI" := 0x1822402a,
    "PM_DEV_QSPI" := 0x1822402b,
    "PM_DEV_GPIO_PMC" := 0x1822402c,
    "PM_DEV_I2C_PMC" := 0x1822402d,
    "PM_DEV_SDIO_0" := 0x1822402e,
    "PM_DEV_SDIO_1" := 0x1822402f,
    "PM_DEV_RTC" := 0x18224034,
    "PM_DEV_ADMA_0" := 0x18224035,
    "PM_DEV_ADMA_1" := 0x18224036,
    "PM_DEV_ADMA_2" := 0x18224037,
    "PM_DEV_ADMA_3" := 0x18224038,
    "PM_DEV_ADMA_4" := 0x18224039,
    "PM_DEV_ADMA_5" := 0x1822403a,
    "PM_DEV_ADMA_6" := 0x1822403b,
    "PM_DEV_ADMA_7" := 0x1822403c,
    "PM_DEV_IPI_0" := 0x1822403d,
    "PM_DEV_IPI_1" := 0x1822403e,
    "PM_DEV_IPI_2" := 0x1822403f,
    "PM_DEV_IPI_3" := 0x18224040,
    "PM_DEV_IPI_4" := 0x18224041,
    "PM_DEV_IPI_5" := 0x18224042,
    "PM_DEV_IPI_6" := 0x18224043,
    "PM_DEV_SOC" := 0x18428044,
    "PM_DEV_DDRMC_0" := 0x18520045,
    "PM_DEV_DDRMC_1" := 0x18520046,
    "PM_DEV_DDRMC_2" := 0x18520047,
    "PM_DEV_DDRMC_3" := 0x18520048,
    "PM_DEV_GT_0" := 0x1862c049,
    "PM_DEV_GT_1" := 0x1862c04a,
    "PM_DEV_GT_2" := 0x1862c04b,
    "PM_DEV_GT_3" := 0x1862c04c,
    "PM_DEV_GT_4" := 0x1862c04d,
    "PM_DEV_GT_5" := 0x1862c04e,
    "PM_DEV_GT_6" := 0x1862c04f,
    "PM_DEV_GT_7" := 0x1862c050,
    "PM_DEV_GT_8" := 0x1862c051,
    "PM_DEV_GT_9" := 0x1862c052,
    "PM_DEV_GT_10" := 0x1862c053,
    "PM_DEV_EFUSE_CACHE" := 0x18330054,
    "PM_DEV_AMS_ROOT" := 0x18224055,
    "PM_DEV_AIE" := 0x18224072,
    "PM_DEV_IPI_PMC" := 0x18224073
  ]

  const DEVID_TO_NAME: map<nat, string> := map[
    0x18700000 := "PM_DEV_PLD_0",
    0x18104001 := "PM_DEV_PMC_PROC",
    0x18108002 := "PM_DEV_PSM_PROC",
    0x1810c003 := "PM_DEV_ACPU_0",
    0x1810c004 := "PM_DEV_ACPU_1",
    0x18110005 := "PM_DEV_RPU0_0",
    0x18110006 := "PM_DEV_RPU0_1",
    0x18314007 := "PM_DEV_OCM_0",
    0x18314008 := "PM_DEV_OCM_1",
    0x18314009 := "PM_DEV_OCM_2",
    0x1831400a := "PM_DEV_OCM_3",
    0x1831800b := "PM_DEV_TCM_0_A",
    0x1831800c := "PM_DEV_TCM_0_B",
    0x1831800d := "PM_DEV_TCM_1_A",
    0x1831800e := "PM_DEV_TCM_1_B",
    0x1831c00f := "PM_DEV_L2_BANK_0",
    0x18320010 := "PM_DEV_DDR_0",
    0x18224018 := "PM_DEV_USB_0",
    0x18224019 := "PM_DEV_GEM_0",
    0x1822401a := "PM_DEV_GEM_1",
    0x1822401b := "PM_DEV_SPI_0",
    0x1822401c := "PM_DEV_SPI_1",
    0x1822401d := "PM_DEV_I2C_0",
    0x1822401e := "PM_DEV_I2C_1",
    0x1822401f := "PM_DEV_CAN_FD_0",
    0x18224020 := "PM_DEV_CAN_FD_1",
    0x18224021 := "PM_DEV_UART_0",
    0x18224022 := "PM_DEV_UART_1",
    0x18224023 := "PM_DEV_GPIO",
    0x18224024 := "PM_DEV_TTC_0",
    0x18224025 := "PM_DEV_TTC_1",
    0x18224026 := "PM_DEV_TTC_2",
    0x18224027 := "PM_DEV_TTC_3",
    0x18224028 := "PM_DEV_SWDT_LPD",
    0x18224029 := "PM_DEV_SWDT_FPD",
    0x1822402a := "PM_DEV_OSPI",
    0x1822402b := "PM_DEV_QSPI",
    0x1822402c := "PM_DEV_GPIO_PMC",
    0x1822402d := "PM_DEV_I2C_PMC",
    0x1822402e := "PM_DEV_SDIO_0",
    0x1822402f := "PM_DEV_SDIO_1",
    0x18224034 := "PM_DEV_RTC",
    0x18224035 := "PM_DEV_ADMA_0",
    0x18224036 := "PM_DEV_ADMA_1",
    0x18224037 := "PM_DEV_ADMA_2",
    0x18224038 := "PM_DEV_ADMA_3",
    0x18224039 := "PM_DEV_ADMA_4",
    0x1822403a := "PM_DEV_ADMA_5",
    0x1822403b := "PM_DEV_ADMA_6",
    0x1822403c := "PM_DEV_ADMA_7",
    0x1822403d := "PM_DEV_IPI_0",
    0x1822403e := "PM_DEV_IPI_1",
    0x1822403f := "PM_DEV_IPI_2",
    0x18224040 := "PM_DEV_IPI_3",
    0x18224041 := "PM_DEV_IPI_4",
    0x18224042 := "PM_DEV_IPI_5",
    0x18224043 := "PM_DEV_IPI_6",
    0x18428044 := "PM_DEV_SOC",
    0x18520045 := "PM_DEV_DDRMC_0",
    0x18520046 := "PM_DEV_DDRMC_1",
    0x18520047 := "PM_DEV_DDRMC_2",
    0x18520048 := "PM_DEV_DDRMC_3",
    0x1862c049 := "PM_DEV_GT_0",
    0x1862c04a := "PM_DEV_GT_1",
    0x1862c04b := "PM_DEV_GT_2",
    0x1862c04c := "PM_DEV_GT_3",
    0x1862c04d := "PM_DEV_GT_4",
    0x1862c04e := "PM_DEV_GT_5",
    0x1862c04f := "PM_DEV_GT_6",
    0x1862c050 := "PM_DEV_GT_7",
    0x1862c051 := "PM_DEV_GT_8",
    0x1862c052 := "PM_DEV_GT_9",
    0x1862c053 := "PM_DEV_GT_10",
    0x18330054 := "PM_DEV_EFUSE_CACHE",
    0x18224055 := "PM_DEV_AMS_ROOT",
    0x18224072 := "PM_DEV_AIE",
    0x18224073 := "PM_DEV_IPI_PMC"
  ]
}
