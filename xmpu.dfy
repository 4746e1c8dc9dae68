/** The Xilinx Memory Protection Unit helper of assists/xlnx_pm/xmpu.py:
    region configuration words, master-id words, the 32-bit halves of
    region addresses, and an XMPU instance whose 16 regions are filled
    one after the other by `create_region_and_en`. */
module Xmpu {
  import opened Common
  import opened Bits
  import Xppu

  const REGIONS: nat := 16
  const REGION_0_START: nat := 0x100
  const REGION_STEP_SIZE: nat := 0x18
  const IEN_OFFSET: nat := 0x18
  /** `NS_CHECK_TYPE = False`, `TZ = True`, `RD = WR = 1` and the
      default-permission flags, as the integers Python shifts. */
  const NS_CHECK_TYPE: nat := 0
  const TZ: nat := 1
  const RD: nat := 1
  const WR: nat := 1
  const DEF_RD_ALLOWED: nat := 0
  const DEF_WR_ALLOWED: nat := 0

  // ---------------------------------------------------------------------
  // dword and the 32-bit halves of a 64-bit value

  lemma Pow2Of32()
    ensures Pow2(32) == 0x1_0000_0000 && Pow2(16) == 0x1_0000
  {
    assert Pow2(8) == 0x100;
    assert Pow2(16) == 0x1_0000;
    assert Pow2(32) == Pow2(16) * Pow2(16) by {
      PowAdd(16, 16);
    }
  }

  /** `dword(num)`: `num & 0xffffffff`, the low 32 bits. */
  function Dword(num: nat): (r: nat)
    ensures r < 0x1_0000_0000
    ensures r == num % 0x1_0000_0000
  {
    Pow2Of32();
    AndLowMask(num, 32);
    And(num, 0xFFFF_FFFF)
  }

  /** Joining two 32-bit cells as `(hi << 32) | lo` and splitting the
      result with `dword(x >> 32)` and `dword(x)` gives the cells back. */
  lemma JoinHalves(hi: nat, lo: nat)
    requires hi < 0x1_0000_0000 && lo < 0x1_0000_0000
    ensures Or(Shl(hi, 32), lo) == hi * 0x1_0000_0000 + lo
    ensures Dword(Shr(Or(Shl(hi, 32), lo), 32)) == hi
    ensures Dword(Or(Shl(hi, 32), lo)) == lo
  {
    Pow2Of32();
    ShlOrAdd(hi, 32, lo);
    var x := hi * 0x1_0000_0000 + lo;
    ShrDiv(x, 32);
    DivUnique(x, 0x1_0000_0000, hi, lo);
  }

  /** A value below 2^64 is its high dword times 2^32 plus its low
      dword. */
  lemma SplitHalves(x: nat)
    requires x < 0x1_0000_0000_0000_0000
    ensures Dword(Shr(x, 32)) * 0x1_0000_0000 + Dword(x) == x
  {
    Pow2Of32();
    ShrDiv(x, 32);
    var hi := x / 0x1_0000_0000;
    assert hi < 0x1_0000_0000 by {
      if hi >= 0x1_0000_0000 {
        MulLe(0x1_0000_0000, hi, 0x1_0000_0000);
      }
    }
  }

  // ---------------------------------------------------------------------
  // Master-id words

  /** `Master`: SMID, SMID mask and name. */
  datatype Master = Master(mid: nat, mask: nat, name: string)

  /** `Master.val()`: the mask added above the 16-bit id. */
  function MasterVal(m: Master): nat
  {
    Shl(m.mask, 16) + m.mid
  }

  /** With 16-bit fields the word is a dword whose halves are the id
      and the mask. */
  lemma MasterValFields(m: Master)
    requires m.mid < 0x1_0000 && m.mask < 0x1_0000
    ensures MasterVal(m) < 0x1_0000_0000 && Dword(MasterVal(m)) == MasterVal(m)
    ensures MasterVal(m) % 0x1_0000 == m.mid && MasterVal(m) / 0x1_0000 == m.mask
  {
    Pow2Of32();
    DivUnique(MasterVal(m), 0x1_0000, m.mask, m.mid);
  }

  // ---------------------------------------------------------------------
  // Region configuration words

  /** `reduce(ior, (bit << pos for pos, bit in enumerate(bits)))`. */
  function IorShifted(bits: seq<nat>): nat
    requires |bits| > 0
    decreases |bits|
  {
    if |bits| == 1 then Shl(bits[0], 0)
    else Or(IorShifted(bits[..|bits| - 1]), Shl(bits[|bits| - 1], |bits| - 1))
  }

  /** The binary number whose bit i is bits[i]. */
  function BinValue(bits: seq<nat>): nat
    decreases |bits|
  {
    if |bits| == 0 then 0 else BinValue(bits[..|bits| - 1]) + bits[|bits| - 1] * Pow2(|bits| - 1)
  }

  predicate Flags(bits: seq<nat>)
  {
    forall i | 0 <= i < |bits| :: bits[i] <= 1
  }

  lemma {:induction false} BinValueBound(bits: seq<nat>)
    requires Flags(bits)
    ensures BinValue(bits) < Pow2(|bits|)
    decreases |bits|
  {
    if |bits| > 0 {
      BinValueBound(bits[..|bits| - 1]);
    }
  }

  lemma OrComm(a: nat, b: nat)
    ensures Or(a, b) == Or(b, a)
  {
    forall k: nat ensures Bit(Or(a, b), k) == Bit(Or(b, a), k) {
      OrBit(a, b, k);
      OrBit(b, a, k);
    }
    BitsExt(Or(a, b), Or(b, a));
  }

  /** Or-ing flags at their positions is adding them at their weights. */
  lemma {:induction false} IorShiftedValue(bits: seq<nat>)
    requires |bits| > 0 && Flags(bits)
    ensures IorShifted(bits) == BinValue(bits)
    decreases |bits|
  {
    var n := |bits|;
    if n == 1 {
      assert BinValue(bits) == BinValue(bits[..0]) + bits[0] * Pow2(0);
    } else {
      var init := bits[..n - 1];
      IorShiftedValue(init);
      BinValueBound(init);
      OrComm(BinValue(init), Shl(bits[n - 1], n - 1));
      ShlOrAdd(bits[n - 1], n - 1, BinValue(init));
    }
  }

  /** `Config.val()` of the flags enable, rd, wr, tz and check_type. */
  function ConfigWord(enable: nat, rd: nat, wr: nat, tz: nat, checkType: nat): nat
  {
    IorShifted([enable, rd, wr, tz, checkType])
  }

  /** With 0/1 flags the configuration word is enable at bit 0, rd at
      bit 1, wr at bit 2, tz at bit 3 and check_type at bit 4. */
  lemma ConfigWordLayout(enable: nat, rd: nat, wr: nat, tz: nat, checkType: nat)
    requires enable <= 1 && rd <= 1 && wr <= 1 && tz <= 1 && checkType <= 1
    ensures ConfigWord(enable, rd, wr, tz, checkType)
         == enable + 2 * rd + 4 * wr + 8 * tz + 16 * checkType
  {
    var bits := [enable, rd, wr, tz, checkType];
    IorShiftedValue(bits);
    assert Pow2(1) == 2 && Pow2(2) == 4 && Pow2(3) == 8 && Pow2(4) == 16;
    assert [enable][..0] == [];
    assert BinValue([enable]) == enable;
    assert [enable, rd][..1] == [enable];
    assert BinValue([enable, rd]) == enable + 2 * rd;
    assert [enable, rd, wr][..2] == [enable, rd];
    assert BinValue([enable, rd, wr]) == enable + 2 * rd + 4 * wr;
    assert [enable, rd, wr, tz][..3] == [enable, rd, wr];
    assert BinValue([enable, rd, wr, tz]) == enable + 2 * rd + 4 * wr + 8 * tz;
    assert bits[..4] == [enable, rd, wr, tz];
  }

  /** What `set_rw(rw)` leaves in (rd_allowed, wr_allowed): 0 sets both,
      1 sets rd, 2 sets wr, and any other value changes nothing. */
  function RwAfter(rd: nat, wr: nat, rw: int): (r: (nat, nat))
    ensures rw == 0 ==> r == (1, 1)
    ensures rw == 1 ==> r == (1, wr)
    ensures rw == 2 ==> r == (rd, 1)
    ensures rw !in {0, 1, 2} ==> r == (rd, wr)
  {
    if rw == 0 then (1, 1)
    else if rw == 1 then (1, wr)
    else if rw == 2 then (rd, 1)
    else (rd, wr)
  }

  /** `set_rw` only ever sets flags. On a region still holding the
      default configuration (rd and wr both 1) every rw value leaves
      both set, so a region asked to be read-only still allows writes. */
  lemma RwAfterOnlySets(rd: nat, wr: nat, rw: int)
    requires rd <= 1 && wr <= 1
    ensures RwAfter(rd, wr, rw).0 >= rd && RwAfter(rd, wr, rw).1 >= wr
    ensures RwAfter(rd, wr, rw).0 <= 1 && RwAfter(rd, wr, rw).1 <= 1
    ensures rd == RD && wr == WR ==> RwAfter(rd, wr, rw) == (1, 1)
  {
  }

  /** `Config`: the flags of a region's configuration register. */
  class Config {
    var checkType: nat
    var tz: nat
    var wrAllowed: nat
    var rdAllowed: nat
    var enable: nat

    constructor (checkType: nat, tz: nat, wrAllowed: nat, rdAllowed: nat, enable: nat)
      ensures this.checkType == checkType && this.tz == tz && this.wrAllowed == wrAllowed
      ensures this.rdAllowed == rdAllowed && this.enable == enable
    {
      this.checkType := checkType;
      this.tz := tz;
      this.wrAllowed := wrAllowed;
      this.rdAllowed := rdAllowed;
      this.enable := enable;
    }

    /** `val()`. */
    function Val(): nat
      reads this
    {
      ConfigWord(enable, rdAllowed, wrAllowed, tz, checkType)
    }

    method SetTz(tz: nat)
      modifies this`tz
      ensures this.tz == tz
    {
      this.tz := tz;
    }

    method SetWrAllowed(wrAllowed: nat)
      modifies this`wrAllowed
      ensures this.wrAllowed == wrAllowed
    {
      this.wrAllowed := wrAllowed;
    }

    method SetRdAllowed(rdAllowed: nat)
      modifies this`rdAllowed
      ensures this.rdAllowed == rdAllowed
    {
      this.rdAllowed := rdAllowed;
    }

    /** `set_rw(rw)`. */
    method SetRw(rw: int)
      modifies this`rdAllowed, this`wrAllowed
      ensures (rdAllowed, wrAllowed) == RwAfter(old(rdAllowed), old(wrAllowed), rw)
    {
      if rw == 0 {
        SetWrAllowed(1);
        SetRdAllowed(1);
      } else if rw == 1 {
        SetRdAllowed(1);
      } else if rw == 2 {
        SetWrAllowed(1);
      } else {
        return;
      }
    }

    /** `en()`. */
    method En()
      modifies this`enable
      ensures enable == 1
    {
      enable := 1;
    }

    /** `disable()`. */
    method Disable()
      modifies this`enable
      ensures enable == 0
    {
      enable := 0;
    }
  }

  // ---------------------------------------------------------------------
  // Regions

  /** The keys of `OFFSETS`. */
  datatype RegKey = StartLo | StartHi | EndLo | EndHi | MasterReg | ConfigReg

  /** `OFFSETS[key]`: the register's offset inside a region block. */
  function OffsetOf(key: RegKey): (r: nat)
    ensures r < REGION_STEP_SIZE && r % 4 == 0
  {
    match key
    case StartLo => 0x0
    case StartHi => 0x4
    case EndLo => 0x8
    case EndHi => 0xC
    case MasterReg => 0x10
    case ConfigReg => 0x14
  }

  /** The six registers of a block are six distinct words. */
  lemma OffsetsDistinct(a: RegKey, b: RegKey)
    ensures a != b ==> OffsetOf(a) != OffsetOf(b)
  {
  }

  /** `Region`: one protected address window with its master and its
      configuration. */
  class Region {
    const idx: nat
    const offset: nat
    var addrStart: nat
    var addrEnd: nat
    var master: Master
    const config: Config

    /** `Region(idx, offset)`: an empty window for any master, with the
        default configuration (check type off, TrustZone, read and
        write allowed) not yet enabled. */
    constructor (idx: nat, offset: nat)
      ensures this.idx == idx && this.offset == offset
      ensures addrStart == 0 && addrEnd == 0 && master == Master(0, 0, "")
      ensures fresh(config)
      ensures config.checkType == NS_CHECK_TYPE && config.tz == TZ
      ensures config.wrAllowed == WR && config.rdAllowed == RD && config.enable == 0
    {
      this.idx := idx;
      this.offset := offset;
      addrStart := 0;
      addrEnd := 0;
      master := Master(0, 0, "");
      config := new Config(NS_CHECK_TYPE, TZ, WR, RD, 0);
    }

    /** `set_master(master)`: copies the id, mask and name. */
    method SetMaster(m: Master)
      modifies this`master
      ensures master == m
    {
      master := Master(m.mid, m.mask, m.name);
    }

    /** `set_addr(addr, size)`: the window runs from addr to addr + size. */
    method SetAddr(addr: nat, size: nat)
      modifies this`addrStart, this`addrEnd
      ensures addrStart == addr && addrEnd == addr + size
    {
      addrStart := addr;
      addrEnd := addr + size;
    }

    /** `get_offset(key)`. */
    function GetOffset(key: RegKey): nat
    {
      offset + OffsetOf(key)
    }

    /** `get_master()`: the master register and its word. */
    function GetMaster(): (nat, nat)
      reads this
    {
      (GetOffset(MasterReg), Dword(MasterVal(master)))
    }

    /** `get_config()`: the configuration register and its word. */
    function GetConfig(): (nat, nat)
      reads this, config
    {
      (GetOffset(ConfigReg), Dword(config.Val()))
    }

    /** `get_start_lo()`, `get_start_hi()`, `get_end_lo()`,
        `get_end_hi()`: the 32-bit halves of the window's ends. */
    function GetStartLo(): (nat, nat)
      reads this
    {
      (GetOffset(StartLo), Dword(addrStart))
    }

    function GetStartHi(): (nat, nat)
      reads this
    {
      (GetOffset(StartHi), Dword(Shr(addrStart, 32)))
    }

    function GetEndLo(): (nat, nat)
      reads this
    {
      (GetOffset(EndLo), Dword(addrEnd))
    }

    function GetEndHi(): (nat, nat)
      reads this
    {
      (GetOffset(EndHi), Dword(Shr(addrEnd, 32)))
    }
  }

  /** A window whose ends fit 64 bits is written out exactly by its four
      address registers. */
  lemma RegionHalves(r: Region)
    requires r.addrStart < 0x1_0000_0000_0000_0000 && r.addrEnd < 0x1_0000_0000_0000_0000
    ensures r.GetStartHi().1 * 0x1_0000_0000 + r.GetStartLo().1 == r.addrStart
    ensures r.GetEndHi().1 * 0x1_0000_0000 + r.GetEndLo().1 == r.addrEnd
  {
    SplitHalves(r.addrStart);
    SplitHalves(r.addrEnd);
  }

  // ---------------------------------------------------------------------
  // The XMPU instance

  /** `Xmpu`: a named instance with its register base, its size, the
      next region to fill and its 16 regions. */
  class Xmpu {
    var name: string
    var baseaddr: nat
    var size: nat
    var current: nat
    const regions: seq<Region>

    /** 16 regions, region i at offset 0x100 + 0x18 i, each with its own
        configuration; at most 16 regions used. */
    ghost predicate Valid()
      reads this
    {
      |regions| == REGIONS
      && (forall i | 0 <= i < REGIONS ::
            regions[i].idx == i && regions[i].offset == REGION_0_START + i * REGION_STEP_SIZE)
      && (forall i, j | 0 <= i < j < REGIONS :: regions[i].config != regions[j].config)
      && current <= REGIONS
    }

    /** `Xmpu(name, addr, size)`: 16 fresh default regions, none used. */
    constructor (name: string, addr: nat, size: nat)
      ensures Valid()
      ensures this.name == name && baseaddr == addr && this.size == size && current == 0
      ensures forall i | 0 <= i < REGIONS :: fresh(regions[i]) && fresh(regions[i].config)
      ensures forall i | 0 <= i < REGIONS :: regions[i].config.enable == 0
    {
      var rs: seq<Region> := [];
      var i := 0;
      while i < REGIONS
        invariant i <= REGIONS && |rs| == i
        invariant forall j | 0 <= j < i ::
          rs[j].idx == j && rs[j].offset == REGION_0_START + j * REGION_STEP_SIZE
        invariant forall j | 0 <= j < i :: fresh(rs[j]) && fresh(rs[j].config) && rs[j].config.enable == 0
        invariant forall j, k | 0 <= j < k < i :: rs[j] != rs[k] && rs[j].config != rs[k].config
      {
        var r := new Region(i, REGION_0_START + i * REGION_STEP_SIZE);
        rs := rs + [r];
        i := i + 1;
      }
      this.name := name;
      baseaddr := addr;
      this.size := size;
      current := 0;
      regions := rs;
    }

    /** `set_master(idx, master)`; an index past the last region only
        reports an error. */
    method SetMaster(idx: nat, m: Master)
      modifies if idx < |regions| then {regions[idx]} else {}
      ensures idx < |regions| ==> regions[idx].master == m
      ensures idx < |regions| ==> regions[idx].addrStart == old(regions[idx].addrStart)
                                  && regions[idx].addrEnd == old(regions[idx].addrEnd)
    {
      if idx < |regions| {
        regions[idx].SetMaster(m);
      } else {
        return;
      }
    }

    /** `set_addr(idx, addr, size)`. */
    method SetAddr(idx: nat, addr: nat, size: nat)
      modifies if idx < |regions| then {regions[idx]} else {}
      ensures idx < |regions| ==> regions[idx].addrStart == addr && regions[idx].addrEnd == addr + size
      ensures idx < |regions| ==> regions[idx].master == old(regions[idx].master)
    {
      if idx < |regions| {
        regions[idx].SetAddr(addr, size);
      } else {
        return;
      }
    }

    /** `set_config(idx, tz, rw)`. */
    method SetConfig(idx: nat, tz: nat, rw: int)
      modifies if idx < |regions| then {regions[idx].config} else {}
      ensures idx < |regions| ==> regions[idx].config.tz == tz
      ensures idx < |regions| ==> regions[idx].config.enable == old(regions[idx].config.enable)
      ensures idx < |regions| ==> regions[idx].config.checkType == old(regions[idx].config.checkType)
      ensures idx < |regions| ==> (regions[idx].config.rdAllowed, regions[idx].config.wrAllowed)
                                  == RwAfter(old(regions[idx].config.rdAllowed), old(regions[idx].config.wrAllowed), rw)
    {
      if idx < |regions| {
        regions[idx].config.SetTz(tz);
        regions[idx].config.SetRw(rw);
      } else {
        return;
      }
    }

    /** `enable_region(idx)`. */
    method EnableRegion(idx: nat)
      modifies if idx < |regions| then {regions[idx].config} else {}
      ensures idx < |regions| ==> regions[idx].config.enable == 1
      ensures idx < |regions| ==> var c := regions[idx].config;
        c.tz == old(c.tz) && c.rdAllowed == old(c.rdAllowed) && c.wrAllowed == old(c.wrAllowed)
        && c.checkType == old(c.checkType)
    {
      if idx < |regions| {
        regions[idx].config.En();
      } else {
        return;
      }
    }

    /** `create_region_and_en(addr, size, smid, mask, rw, tz, name)`:
        fills the next free region with the window, the master and the
        permissions, enables it and moves on; with all 16 regions used
        it changes nothing and answers False. */
    method CreateRegionAndEn(addr: nat, size: nat, smid: nat, mask: nat, rw: int, tz: nat, mname: string)
      returns (ok: bool)
      requires Valid()
      modifies this`current
      modifies if current < |regions| then {regions[current], regions[current].config} else {}
      ensures Valid()
      ensures ok <==> old(current) < REGIONS
      ensures !ok ==> current == old(current)
      ensures ok ==> current == old(current) + 1
      ensures ok ==> var r := regions[old(current)];
        r.addrStart == addr && r.addrEnd == addr + size && r.master == Master(smid, mask, mname)
        && r.config.tz == tz && r.config.enable == 1 && r.config.checkType == old(r.config.checkType)
        && (r.config.rdAllowed, r.config.wrAllowed) == RwAfter(old(r.config.rdAllowed), old(r.config.wrAllowed), rw)
    {
      if current >= REGIONS {
        return false;
      }
      SetAddr(current, addr, size);
      SetMaster(current, Master(smid, mask, mname));
      SetConfig(current, tz, rw);
      EnableRegion(current);
      current := current + 1;
      return true;
    }

    /** `is_filled()`: True while a region is still free (the name reads
        the other way round). */
    function IsFilled(): (r: bool)
      reads this
      ensures r <==> current < REGIONS
    {
      current < REGIONS
    }

    /** `get_ctrl_reg_addr_val()`: the control register at the base,
        holding the default read and write permissions (both off). */
    function CtrlRegAddrVal(): (r: (nat, nat))
      reads this
      ensures r.0 == baseaddr && r.1 == 0
    {
      (baseaddr, Or(Shl(DEF_WR_ALLOWED, 1), DEF_RD_ALLOWED))
    }

    /** `get_ien_reg_addr_val()`: the interrupt-enable register at offset
        0x18 and the or of every enabled interrupt's bit. */
    method IenRegAddrVal() returns (regAddr: nat, regVal: nat)
      ensures regAddr == baseaddr + IEN_OFFSET
      ensures regVal == Xppu.IenValue(INTERRUPTS)
    {
      regAddr := baseaddr + IEN_OFFSET;
      regVal := 0;
      var i := 0;
      while i < |INTERRUPTS|
        invariant i <= |INTERRUPTS|
        invariant regVal == Xppu.IenValue(INTERRUPTS[..i])
      {
        Xppu.IenValueStep(INTERRUPTS[..i], INTERRUPTS[i]);
        assert INTERRUPTS[..i + 1] == INTERRUPTS[..i] + [INTERRUPTS[i]];
        regVal := Or(regVal, Shl(Xppu.FlagBit(INTERRUPTS[i].enabled), INTERRUPTS[i].bit));
        i := i + 1;
      }
      assert INTERRUPTS[..i] == INTERRUPTS;
    }
  }

  /** The XMPU `Interrupts` table, in its order. */
  const INTERRUPTS: seq<Xppu.Interrupt> := [
    Xppu.Interrupt("IEN_SECURITY_VIO", true, 3),
    Xppu.Interrupt("IEN_WRPERM_VIO", true, 2),
    Xppu.Interrupt("IEN_RDPERM_VIO", true, 1),
    Xppu.Interrupt("IEN_INV_APB", true, 0)
  ]

  /** With every interrupt on, the XMPU enable value is 0xF. */
  lemma IenValueAllOn()
    ensures Xppu.IenValue(INTERRUPTS) == 0xF
  {
    forall j: nat ensures Bit(Xppu.IenValue(INTERRUPTS), j) == Bit(0xF, j) {
      Xppu.IenValueBits(INTERRUPTS, j);
      if j < 4 {
        assert INTERRUPTS[0].bit == 3 && INTERRUPTS[1].bit == 2;
        assert INTERRUPTS[2].bit == 1 && INTERRUPTS[3].bit == 0;
      } else {
        SmallBits(0xF, 4, j);
      }
    }
    BitsExt(Xppu.IenValue(INTERRUPTS), 0xF);
  }

  /** The register blocks of two different regions do not overlap. */
  lemma RegionBlocksDisjoint(x: Xmpu, i: nat, j: nat, a: RegKey, b: RegKey)
    requires x.Valid() && i < j < REGIONS
    ensures x.regions[i].GetOffset(a) < x.regions[j].GetOffset(b)
  {
    MulLe(i + 1, j, REGION_STEP_SIZE);
  }

  // ---------------------------------------------------------------------
  // Master table, init_masters and init_xmpu

  /** The XMPU `MIDL`: each master's SMID and SMID mask. */
  const MIDL: map<string, (nat, nat)> := map[
    "PPU0" := (0x246, 0x3FF),
    "PPU1" := (0x247, 0x3FF),
    "PPU0/PPU1" := (0x246, 0x3FE),
    "DAP" := (0x240, 0x3FF),
    "HSDP_DPC" := (0x249, 0x3FF),
    "PMC_DMA0" := (0x248, 0x3FF),
    "PMC_DMA1" := (0x24B, 0x3FF),
    "APU" := (0x260, 0x3F0),
    "APU0" := (0x260, 0x3FF),
    "APU1" := (0x261, 0x3FF),
    "RPU0" := (0x200, 0x3FF),
    "RPU1" := (0x204, 0x3FF),
    "PSM" := (0x238, 0x3FF),
    "ANY" := (0x0, 0x0)
  ]

  /** `mid(master)`: the master's entry; a master the table lacks leaves
      `mid` unbound (UnboundLocalError, a kind of NameError). */
  function Mid(master: string): (r: Result<Master>)
    ensures r.Ok? <==> master in MIDL
    ensures r.Err? ==> r.error == NameError
    ensures r.Ok? ==> r.value.name == master && (r.value.mid, r.value.mask) == MIDL[master]
  {
    if master in MIDL then Ok(Master(MIDL[master].0, MIDL[master].1, master))
    else Err(NameError)
  }

  /** Every master of the table has a 16-bit id and mask, so its word
      splits back into them. */
  lemma MidlWords(master: string)
    requires master in MIDL
    ensures MasterVal(Mid(master).value) % 0x1_0000 == MIDL[master].0
    ensures MasterVal(Mid(master).value) / 0x1_0000 == MIDL[master].1
  {
    MasterValFields(Mid(master).value);
  }

  /** The names `init_masters` installs. */
  const PMC_PPU: string := "PPU0/PPU1"
  const PSM: string := "PSM"
  const PMC_DMA0: string := "PMC_DMA0"
  const PMC_DMA1: string := "PMC_DMA1"
  const DAP: string := "DAP"
  const HSDP_DPC: string := "HSDP_DPC"
  const ANY: string := "ANY"

  /** The seven masters `init_masters` installs are all in the table. */
  lemma InitMastersKnown()
    ensures Mid(PMC_PPU) == Ok(Master(0x246, 0x3FE, PMC_PPU))
    ensures Mid(PSM) == Ok(Master(0x238, 0x3FF, PSM))
    ensures Mid(PMC_DMA0) == Ok(Master(0x248, 0x3FF, PMC_DMA0))
    ensures Mid(PMC_DMA1) == Ok(Master(0x24B, 0x3FF, PMC_DMA1))
    ensures Mid(DAP) == Ok(Master(0x240, 0x3FF, DAP))
    ensures Mid(HSDP_DPC) == Ok(Master(0x249, 0x3FF, HSDP_DPC))
    ensures Mid(ANY) == Ok(Master(0, 0, ANY))
  {
  }

  /** `init_masters(xmpu)`: the PMC, PSM, PMC DMA, DAP and HSDP masters
      in regions 15 down to 10 and "any master" in region 0; the other
      regions are outside the frame and keep their masters. */
  method InitMasters(x: Xmpu)
    requires x.Valid()
    modifies x.regions[15], x.regions[14], x.regions[13], x.regions[12]
    modifies x.regions[11], x.regions[10], x.regions[0]
    ensures x.regions[15].master == Master(0x246, 0x3FE, PMC_PPU)
    ensures x.regions[14].master == Master(0x238, 0x3FF, PSM)
    ensures x.regions[13].master == Master(0x248, 0x3FF, PMC_DMA0)
    ensures x.regions[12].master == Master(0x24B, 0x3FF, PMC_DMA1)
    ensures x.regions[11].master == Master(0x240, 0x3FF, DAP)
    ensures x.regions[10].master == Master(0x249, 0x3FF, HSDP_DPC)
    ensures x.regions[0].master == Master(0, 0, ANY)
  {
    InitMastersKnown();
    x.SetMaster(15, Mid(PMC_PPU).value);
    x.SetMaster(14, Mid(PSM).value);
    x.SetMaster(13, Mid(PMC_DMA0).value);
    x.SetMaster(12, Mid(PMC_DMA1).value);
    x.SetMaster(11, Mid(DAP).value);
    x.SetMaster(10, Mid(HSDP_DPC).value);
    x.SetMaster(0, Mid(ANY).value);
  }

  /** `init_xmpu(name, reg)`: base `(reg[0] << 32) | reg[1]` and size
      `(reg[2] << 32) | reg[3]`; fewer than four cells is an IndexError. */
  method InitXmpu(name: string, reg: seq<nat>) returns (r: Result<Xmpu>)
    ensures r.Err? <==> |reg| < 4
    ensures r.Err? ==> r.error == IndexError
    ensures r.Ok? ==> fresh(r.value) && r.value.Valid() && r.value.name == name && r.value.current == 0
    ensures r.Ok? ==> r.value.baseaddr == Or(Shl(reg[0], 32), reg[1])
                      && r.value.size == Or(Shl(reg[2], 32), reg[3])
  {
    if |reg| < 4 {
      return Err(IndexError);
    }
    var base := Or(Shl(reg[0], 32), reg[1]);
    var size := Or(Shl(reg[2], 32), reg[3]);
    var x := new Xmpu(name, base, size);
    return Ok(x);
  }

  /** With 32-bit cells the base and size are the 64-bit numbers the
      cell pairs spell. */
  lemma InitXmpuCells(reg: seq<nat>)
    requires |reg| >= 4 && forall i | 0 <= i < 4 :: reg[i] < 0x1_0000_0000
    ensures Or(Shl(reg[0], 32), reg[1]) == reg[0] * 0x1_0000_0000 + reg[1]
    ensures Or(Shl(reg[2], 32), reg[3]) == reg[2] * 0x1_0000_0000 + reg[3]
  {
    JoinHalves(reg[0], reg[1]);
    JoinHalves(reg[2], reg[3]);
  }
}
