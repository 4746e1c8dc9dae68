/** The cell arithmetic of lopper/assists/baremetalconfig_xlnx.py: reading
    (address, size) pairs out of `reg` and PCI `ranges` values, packing
    `interrupts` cells into the baremetal interrupt word and collecting
    the compatible strings of a binding schema. Property values are lists
    of integers here; the devicetree lookups that fetch `#address-cells`,
    `#size-cells` and `#interrupt-cells` become parameters. */
module Baremetal {
  import opened Common
  import opened Bits

  // ---------------------------------------------------------------------
  // Joining a high and a low cell through their hex text

  function Pow16(k: nat): (r: nat)
    ensures r >= 1
  {
    if k == 0 then 1 else 16 * Pow16(k - 1)
  }

  /** The number of hex digits Python prints for n (at least one). */
  function HexLen(n: nat): (k: nat)
    ensures k >= 1 && n < Pow16(k)
    ensures k == 1 || Pow16(k - 1) <= n
    decreases n
  {
    if n < 16 then 1 else 1 + HexLen(n / 16)
  }

  lemma {:induction false} HexLenAtMost(n: nat, m: nat)
    requires m >= 1 && n < Pow16(m)
    ensures HexLen(n) <= m
    decreases n
  {
    if n >= 16 {
      assert m >= 2;
      assert n / 16 < Pow16(m - 1);
      HexLenAtMost(n / 16, m - 1);
    }
  }

  /** hi followed by w hex zeros: hi * 16^w. */
  function HexShift(hi: nat, w: nat): nat
  {
    if w == 0 then hi else 16 * HexShift(hi, w - 1)
  }

  lemma {:induction false} HexShiftIs(hi: nat, w: nat)
    ensures HexShift(hi, w) == hi * Pow16(w)
  {
    if w > 0 {
      HexShiftIs(hi, w - 1);
    }
  }

  /** `int(f"{hex(hi)}{lo:08x}", base=16)`: the hex text of hi followed by
      lo printed with at least eight digits, read back. */
  function HexConcat(hi: nat, lo: nat): nat
  {
    var width := if HexLen(lo) < 8 then 8 else HexLen(lo);
    HexShift(hi, width) + lo
  }

  /** For a low part that fits in a cell, the text trick is the 64-bit
      value hi:lo. */
  lemma HexConcatCells(hi: nat, lo: nat)
    requires lo < TWO32
    ensures HexConcat(hi, lo) == hi * TWO32 + lo
  {
    assert Pow16(8) == TWO32;
    HexLenAtMost(lo, 8);
    HexShiftIs(hi, 8);
  }

  /** hi:lo for cell-sized parts, with a zero high cell giving lo. */
  function Join(hi: nat, lo: nat): nat
  {
    if hi != 0 then HexConcat(hi, lo) else lo
  }

  lemma JoinCells(hi: nat, lo: nat)
    requires lo < TWO32
    ensures Join(hi, lo) == hi * TWO32 + lo
  {
    HexConcatCells(hi, lo);
  }

  // ---------------------------------------------------------------------
  // scan_reg_size

  const FOUR_GB: nat := 0x1_0000_0000

  /** A 32-bit size cell cannot hold 4 GB, so the tree writes 0xFFFFFFFF
      for a region at 0 covering all of it; the assist puts the 1 back. */
  function FourGbFix(reg: nat, size: nat): (r: (nat, nat))
    ensures r.0 == reg
    ensures r.1 == FOUR_GB <==> (reg == 0 && size == 0xFFFF_FFFF) || size == FOUR_GB
    ensures r.1 != size ==> reg == 0 && size == 0xFFFF_FFFF
  {
    if size == 0xFFFF_FFFF && reg == 0 then (reg, FOUR_GB) else (reg, size)
  }

  /** `scan_reg_size(node, value, idx)` as written: entry idx of a `reg`
      value, with na address cells and ns size cells in the parent. Over
      two cells it reads the address from cells 0 and 1 of the entry and
      the size from cells na and ns+1. */
  function ScanRegSize(na: nat, ns: nat, value: seq<nat>, idx: nat): Result<(nat, nat)>
  {
    var cells := na + ns;
    if cells > 2 then
      var b := cells * idx;
      if b + 1 >= |value| || b + na >= |value| || b + ns + 1 >= |value| then Err(IndexError)
      else
        var reg := Join(value[b], value[b + 1]);
        var size := Join(value[b + na], value[b + ns + 1]);
        Ok(FourGbFix(reg, size))
    else if cells == 2 then
      if 2 * idx + 1 >= |value| then Err(IndexError)
      else Ok(FourGbFix(value[2 * idx], value[2 * idx + 1]))
    else if |value| == 0 then Err(IndexError)
    else Ok(FourGbFix(value[0], 0))
  }

  /** One address cell and one size cell: entry idx is the pair of cells
      2 idx and 2 idx + 1. */
  lemma ScanRegTwoCells(na: nat, ns: nat, value: seq<nat>, idx: nat)
    requires na + ns == 2
    ensures 2 * idx + 1 < |value| ==>
      ScanRegSize(na, ns, value, idx) == Ok(FourGbFix(value[2 * idx], value[2 * idx + 1]))
    ensures 2 * idx + 1 >= |value| ==> ScanRegSize(na, ns, value, idx) == Err(IndexError)
  {
  }

  /** Two address cells and two size cells: the address and the size are
      the 64-bit values of their cell pairs. */
  lemma ScanRegFourCells(value: seq<nat>, idx: nat)
    requires 4 * idx + 4 <= |value|
    requires forall k | 4 * idx <= k < 4 * idx + 4 :: value[k] < TWO32
    ensures ScanRegSize(2, 2, value, idx)
      == Ok(FourGbFix(value[4 * idx] * TWO32 + value[4 * idx + 1], value[4 * idx + 2] * TWO32 + value[4 * idx + 3]))
  {
    var b := 4 * idx;
    assert (2 + 2) * idx == b;
    JoinCells(value[b], value[b + 1]);
    JoinCells(value[b + 2], value[b + 3]);
  }

  /** Reading one field of n cells that starts at cell s: a field of two
      or more cells is its last two cells joined, a one-cell field that
      cell, an empty field 0. */
  function Field(value: seq<nat>, s: nat, n: nat): nat
    requires s + n <= |value|
  {
    if n >= 2 then Join(value[s + n - 2], value[s + n - 1])
    else if n == 1 then value[s]
    else 0
  }

  /** `scan_reg_size` reading each field from its own cells: the address
      from cells [0, na) of the entry and the size from [na, na+ns). */
  function ScanRegSizeFixed(na: nat, ns: nat, value: seq<nat>, idx: nat): (r: Result<(nat, nat)>)
    ensures na + ns > 2 ==> (r.Ok? <==> (na + ns) * idx + na + ns <= |value|)
    ensures na + ns > 2 && r.Ok? ==> r.value.0 == Field(value, (na + ns) * idx, na)
    ensures na + ns > 2 && r.Ok? && r.value.1 != FOUR_GB ==> r.value.1 == Field(value, (na + ns) * idx + na, ns)
  {
    var cells := na + ns;
    if cells > 2 then
      var b := cells * idx;
      if b + cells > |value| then Err(IndexError)
      else Ok(FourGbFix(Field(value, b, na), Field(value, b + na, ns)))
    else ScanRegSize(na, ns, value, idx)
  }

  /** For the two-by-two layout the source was written for, the two
      readings agree. */
  lemma ScanRegFixedAgrees(value: seq<nat>, idx: nat)
    ensures ScanRegSizeFixed(2, 2, value, idx) == ScanRegSize(2, 2, value, idx)
  {
  }

  /** Two address cells and one size cell: as written, the size is read
      from cell 2 joined with itself, so a region of 0x2000 bytes at
      0x1000 comes out 0x0000_2000_0000_2000 bytes long; read from its
      own cell it is 0x2000. */
  lemma ScanRegMixedCells(value: seq<nat>)
    requires value == [0, 0x1000, 0x2000]
    ensures ScanRegSize(2, 1, value, 0) == Ok((0x1000, 0x2000 * TWO32 + 0x2000))
    ensures ScanRegSizeFixed(2, 1, value, 0) == Ok((0x1000, 0x2000))
  {
    JoinCells(0x2000, 0x2000);
    JoinCells(0, 0x1000);
  }

  // ---------------------------------------------------------------------
  // scan_ranges_size and get_pci_ranges

  /** `scan_ranges_size(range_value, ns)`: the PCI address from cells 1
      and 2, the size from the last cell, joined with the one before it
      only when the node has more than one size cell. */
  function ScanRangesSize(rv: seq<nat>, ns: nat): (r: Result<(nat, nat)>)
    ensures r.Ok? <==> |rv| >= 3
  {
    if |rv| < 3 then Err(IndexError)
    else
      var addr := Join(rv[1], rv[2]);
      var lo := rv[|rv| - 1];
      var hi := rv[|rv| - 2];
      var size := if hi != 0 && ns > 1 then HexConcat(hi, lo) else lo;
      Ok((addr, size))
  }

  /** With cells that fit in 32 bits: the address is cells 1:2 and the
      size the last one or two cells. */
  lemma ScanRangesCells(rv: seq<nat>, ns: nat)
    requires |rv| >= 3
    requires forall k | 0 <= k < |rv| :: rv[k] < TWO32
    ensures ScanRangesSize(rv, ns).value.0 == rv[1] * TWO32 + rv[2]
    ensures ScanRangesSize(rv, ns).value.1
      == if ns > 1 then rv[|rv| - 2] * TWO32 + rv[|rv| - 1] else rv[|rv| - 1]
  {
    JoinCells(rv[1], rv[2]);
    HexConcatCells(rv[|rv| - 2], rv[|rv| - 1]);
  }

  /** The number of cells of one PCI range: na + 2 ns, or 6 whenever the
      value's length is a multiple of 6. */
  function PciCellSize(na: nat, ns: nat, value: seq<nat>): (cs: nat)
    ensures |value| % 6 == 0 ==> cs == 6
    ensures |value| % 6 != 0 ==> cs == na + 2 * ns
  {
    if |value| % 6 == 0 then 6 else na + 2 * ns
  }

  /** n slots of cs cells from cell start on: `value[lo:lo+cs]` each,
      empty past the end. */
  function PciSplit(value: seq<nat>, cs: nat, start: nat, n: nat): (r: seq<seq<nat>>)
    ensures |r| == n
    decreases n
  {
    if n == 0 then [] else [PySlice(value, start, start + cs)] + PciSplit(value, cs, start + cs, n - 1)
  }

  /** Slot i of the split is the i-th window of cs cells, the one from
      cell lo = start + i cs. */
  lemma {:induction false} PciSplitSlot(value: seq<nat>, cs: nat, start: nat, n: nat, i: nat, lo: nat)
    requires i < n && lo == start + i * cs
    ensures PciSplit(value, cs, start, n)[i] == PySlice(value, lo, lo + cs)
    decreases n
  {
    if i > 0 {
      MulStep(start, cs, i);
      PciSplitSlot(value, cs, start + cs, n - 1, i - 1, lo);
    }
  }

  lemma MulStep(start: nat, cs: nat, i: nat)
    requires i > 0
    ensures start + cs + (i - 1) * cs == start + i * cs
  {
  }

  /** The output pair of one slot: [base, base+size-1], or [0, 0] for a
      missing range. */
  function PciPair(slot: seq<nat>, ns: nat): (r: Result<seq<int>>)
    ensures r.Ok? <==> slot == [] || |slot| >= 3
    ensures r.Ok? ==> |r.value| == 2
  {
    if slot == [] then Ok([0, 0])
    else match ScanRangesSize(slot, ns)
      case Err(e) => Err(e)
      case Ok(p) => Ok([p.0 as int, p.0 + p.1 - 1])
  }

  /** The pairs of a list of slots; the first slot that fails decides. */
  function PciPairs(slots: seq<seq<nat>>, ns: nat): Result<seq<int>>
  {
    if |slots| == 0 then Ok([])
    else match PciPairs(slots[..|slots| - 1], ns)
      case Err(e) => Err(e)
      case Ok(acc) =>
        match PciPair(slots[|slots| - 1], ns)
        case Err(e) => Err(e)
        case Ok(p) => Ok(acc + p)
  }

  function PciRanges(na: nat, ns: nat, value: seq<nat>, pad: nat): Result<seq<int>>
  {
    PciPairs(PciSplit(value, PciCellSize(na, ns, value), 0, pad), ns)
  }

  /** `get_pci_ranges(node, value, pad)`: pad slots of the ranges value,
      two output numbers per slot. */
  method GetPciRanges(na: nat, ns: nat, value: seq<nat>, pad: nat) returns (r: Result<seq<int>>)
    ensures r == PciRanges(na, ns, value, pad)
  {
    var cellSize := if |value| % 6 == 0 then 6 else na + 2 * ns;
    var split: seq<seq<nat>> := [];
    var lo: nat := 0;
    for i := 0 to pad
      invariant split + PciSplit(value, cellSize, lo, pad - i) == PciSplit(value, cellSize, 0, pad)
    {
      var window := PySlice(value, lo, lo + cellSize);
      ghost var rest := PciSplit(value, cellSize, lo + cellSize, pad - i - 1);
      assert PciSplit(value, cellSize, lo, pad - i) == [window] + rest;
      assert split + [window] + rest == split + ([window] + rest);
      split := split + [window];
      lo := lo + cellSize;
    }
    assert split == PciSplit(value, cellSize, 0, pad);
    r := ScanPciSlots(split, ns);
  }

  /** The second half of `get_pci_ranges`: a [base, base+size-1] pair for
      each slot, [0, 0] for an empty one. */
  method ScanPciSlots(split: seq<seq<nat>>, ns: nat) returns (r: Result<seq<int>>)
    ensures r == PciPairs(split, ns)
  {
    var ranges: seq<int> := [];
    for i := 0 to |split|
      invariant PciPairs(split[..i], ns) == Ok(ranges)
    {
      assert split[..i + 1][..i] == split[..i];
      var slot := split[i];
      if slot != [] {
        var scanned := ScanRangesSize(slot, ns);
        if scanned.Err? {
          PciPairsErrExtends(split, ns, i + 1);
          return Err(scanned.error);
        }
        var (reg, size) := scanned.value;
        ranges := ranges + [reg as int, reg as int + size as int - 1];
      } else {
        ranges := ranges + [0, 0];
      }
    }
    assert split[..|split|] == split;
    r := Ok(ranges);
  }

  /** A slot that fails decides the result of every longer list. */
  lemma {:induction false} PciPairsErrExtends(slots: seq<seq<nat>>, ns: nat, k: nat)
    requires k <= |slots| && PciPairs(slots[..k], ns).Err?
    ensures PciPairs(slots, ns) == PciPairs(slots[..k], ns)
    decreases |slots|
  {
    if k < |slots| {
      var init := slots[..|slots| - 1];
      assert init[..k] == slots[..k];
      PciPairsErrExtends(init, ns, k);
    } else {
      assert slots[..k] == slots;
    }
  }

  /** The pairs are produced exactly when every present slot can be
      scanned; then there are two numbers per slot: [0, 0] for a missing
      range, else the base and base + size - 1 of the range. */
  lemma {:induction false} PciPairsShape(slots: seq<seq<nat>>, ns: nat)
    ensures PciPairs(slots, ns).Ok? <==> forall i | 0 <= i < |slots| :: slots[i] == [] || |slots[i]| >= 3
    ensures PciPairs(slots, ns).Ok? ==>
      var r := PciPairs(slots, ns).value;
      |r| == 2 * |slots| &&
      forall i | 0 <= i < |slots| ::
        if slots[i] == [] then r[2 * i] == 0 && r[2 * i + 1] == 0
        else r[2 * i] == ScanRangesSize(slots[i], ns).value.0
             && r[2 * i + 1] == r[2 * i] + ScanRangesSize(slots[i], ns).value.1 - 1
  {
    if |slots| > 0 {
      var init := slots[..|slots| - 1];
      PciPairsShape(init, ns);
      assert forall i | 0 <= i < |init| :: init[i] == slots[i];
    }
  }

  /** A value whose length is a multiple of 6 is read as 6-cell ranges,
      and a slot past the end of the value is missing. */
  lemma PciSixCellSlots(na: nat, ns: nat, value: seq<nat>, pad: nat, i: nat)
    requires |value| % 6 == 0 && i < pad
    ensures 6 * i + 6 <= |value| ==> PciSplit(value, PciCellSize(na, ns, value), 0, pad)[i] == value[6 * i..6 * i + 6]
    ensures 6 * i >= |value| ==> PciSplit(value, PciCellSize(na, ns, value), 0, pad)[i] == []
  {
    PciSplitSlot(value, 6, 0, pad, i, 6 * i);
  }

  // ---------------------------------------------------------------------
  // get_interrupt_prop

  /** The word of a shared peripheral interrupt: id in bits [11:0] and the
      trigger flags from bit 12 up. */
  function SpiWord(id: nat, flags: nat): nat
  {
    id + flags * 0x1000
  }

  /** The word of a private peripheral interrupt: the trigger type (low
      four flag bits) at bit 12, the CPU mask (flag bits [15:8]) at bit
      16, and bit 20 set. */
  function PpiWord(id: nat, flags: nat): nat
  {
    id + And(flags, 0xFF00) * 0x100 + 0x10_0000 + And(flags, 0xF) * 0x1000
  }

  /** The entry whose id cell is at tmp: its type is the cell before it,
      which for tmp = 0 is Python's `value[-1]`, the last cell. */
  function IntrEntry(value: seq<nat>, tmp: nat, inc: nat): (r: Result<nat>)
    ensures r.Ok? <==> tmp + 1 < |value|
  {
    if tmp + 1 >= |value| then Err(IndexError)
    else
      var kind := if tmp >= 1 then value[tmp - 1] else value[|value| - 1];
      if kind == 1 && inc == 3 then Ok(PpiWord(value[tmp], value[tmp + 1]))
      else Ok(SpiWord(value[tmp], value[tmp + 1]))
  }

  /** The words of n entries, the first with its id at cell tmp and each
      next one inc cells further. */
  function IntrWords(value: seq<nat>, inc: nat, tmp: nat, n: nat): Result<seq<nat>>
    decreases n
  {
    if n == 0 then Ok([])
    else match IntrEntry(value, tmp, inc)
      case Err(e) => Err(e)
      case Ok(w) =>
        match IntrWords(value, inc, tmp + inc, n - 1)
        case Err(e) => Err(e)
        case Ok(rest) => Ok([w] + rest)
  }

  /** `get_interrupt_prop`: `len(value)/inc` entries, with inc the
      interrupt parent's `#interrupt-cells` (0 divides by zero); the first
      id is at cell inc % 2. */
  function InterruptProp(inc: nat, value: seq<nat>): Result<seq<nat>>
  {
    if inc == 0 then Err(ZeroDivisionError) else IntrWords(value, inc, inc % 2, |value| / inc)
  }

  /** Words already produced, ahead of a result still to come. */
  function Prepend(done: seq<nat>, rest: Result<seq<nat>>): Result<seq<nat>>
  {
    match rest
    case Err(e) => Err(e)
    case Ok(v) => Ok(done + v)
  }

  method GetInterruptProp(inc: nat, value: seq<nat>) returns (r: Result<seq<nat>>)
    ensures r == InterruptProp(inc, value)
  {
    if inc == 0 {
      return Err(ZeroDivisionError);
    }
    var intr: seq<nat> := [];
    var nintr := |value| / inc;
    var tmp: nat := inc % 2;
    PrependNothing(InterruptProp(inc, value));
    for i := 0 to nintr
      invariant Prepend(intr, IntrWords(value, inc, tmp, nintr - i)) == InterruptProp(inc, value)
    {
      if tmp + 1 >= |value| {
        return Err(IndexError);
      }
      var sensitivity := value[tmp + 1] * 0x1000;  // << 12
      var id := value[tmp];
      var kind := if tmp >= 1 then value[tmp - 1] else value[|value| - 1];
      if kind == 1 && inc == 3 {
        sensitivity := And(value[tmp + 1], 0xF) * 0x1000;
        var cpuMask := And(value[tmp + 1], 0xFF00) * 0x100;  // << 8
        var ppiType := 0x10_0000;  // 1 << 20
        id := id + cpuMask + ppiType;
      }
      assert IntrEntry(value, tmp, inc) == Ok(id + sensitivity);
      PrependStep(intr, id + sensitivity, IntrWords(value, inc, tmp + inc, nintr - i - 1));
      intr := intr + [id + sensitivity];
      tmp := tmp + inc;
    }
    assert intr + [] == intr;
    r := Ok(intr);
  }

  lemma PrependNothing(r: Result<seq<nat>>)
    ensures Prepend([], r) == r
  {
    if r.Ok? {
      assert [] + r.value == r.value;
    }
  }

  lemma PrependStep(done: seq<nat>, w: nat, rest: Result<seq<nat>>)
    ensures Prepend(done + [w], rest) == Prepend(done, Prepend([w], rest))
  {
    if rest.Ok? {
      assert done + [w] + rest.value == done + ([w] + rest.value);
    }
  }

  /** The cell of entry j: j steps of inc from tmp. */
  function Start(tmp: nat, inc: nat, j: nat): nat
    decreases j
  {
    if j == 0 then tmp else Start(tmp, inc, j - 1) + inc
  }

  lemma {:induction false} StartIs(tmp: nat, inc: nat, j: nat)
    ensures Start(tmp, inc, j) == tmp + j * inc
    decreases j
  {
    if j > 0 {
      StartIs(tmp, inc, j - 1);
    }
  }

  lemma {:induction false} StartShift(tmp: nat, inc: nat, j: nat)
    ensures Start(tmp + inc, inc, j) == Start(tmp, inc, j + 1)
    decreases j
  {
    if j > 0 {
      StartShift(tmp, inc, j - 1);
    }
  }

  lemma {:induction false} StartMono(tmp: nat, inc: nat, j: nat, k: nat)
    requires j <= k
    ensures Start(tmp, inc, j) <= Start(tmp, inc, k)
    decreases k
  {
    if j < k {
      StartMono(tmp, inc, j, k - 1);
    }
  }

  /** While every entry's flags cell is in range, entry j is the word read
      from cell Start(tmp, inc, j) and the one after. */
  lemma {:induction false} IntrWordsOk(value: seq<nat>, inc: nat, tmp: nat, n: nat)
    requires n == 0 || Start(tmp, inc, n - 1) + 1 < |value|
    decreases n
    ensures IntrWords(value, inc, tmp, n).Ok?
    ensures |IntrWords(value, inc, tmp, n).value| == n
    ensures forall j | 0 <= j < n ::
      IntrEntry(value, Start(tmp, inc, j), inc).Ok?
      && IntrWords(value, inc, tmp, n).value[j] == IntrEntry(value, Start(tmp, inc, j), inc).value
  {
    if n > 0 {
      StartMono(tmp, inc, 0, n - 1);
      if n > 1 {
        StartShift(tmp, inc, n - 2);
      }
      IntrWordsOk(value, inc, tmp + inc, n - 1);
      forall j | 0 <= j < n
        ensures IntrEntry(value, Start(tmp, inc, j), inc).Ok?
        ensures IntrWords(value, inc, tmp, n).value[j] == IntrEntry(value, Start(tmp, inc, j), inc).value
      {
        StartMono(tmp, inc, j, n - 1);
        if j > 0 {
          StartShift(tmp, inc, j - 1);
        }
      }
    }
  }

  /** With two or more cells per entry, the last entry's flags cell lies
      inside the value. */
  lemma LastEntryInRange(len: nat, inc: nat)
    requires inc >= 2 && len / inc >= 1
    ensures Start(inc % 2, inc, len / inc - 1) + 1 < len
  {
    var n := len / inc;
    StartIs(inc % 2, inc, n - 1);
    assert n * inc <= len;
    assert (n - 1) * inc + inc == n * inc;
  }

  /** Three cells per entry (type, id, flags): one word per entry, a PPI
      word when the type cell is 1 and an SPI word otherwise. */
  lemma InterruptThreeCells(value: seq<nat>)
    ensures InterruptProp(3, value).Ok?
    ensures |InterruptProp(3, value).value| == |value| / 3
    ensures forall j | 0 <= j < |value| / 3 ::
      InterruptProp(3, value).value[j]
        == if value[3 * j] == 1 then PpiWord(value[3 * j + 1], value[3 * j + 2])
           else SpiWord(value[3 * j + 1], value[3 * j + 2])
  {
    var n := |value| / 3;
    if n >= 1 {
      LastEntryInRange(|value|, 3);
    }
    IntrWordsOk(value, 3, 1, n);
    forall j | 0 <= j < n
      ensures 3 * j + 2 < |value|
      ensures IntrWords(value, 3, 1, n).value[j] == IntrEntry(value, 1 + 3 * j, 3).value
    {
      StartIs(1, 3, j);
      StartMono(1, 3, j, n - 1);
    }
  }

  /** Two cells per entry (id, flags): an SPI word per entry. */
  lemma InterruptTwoCells(value: seq<nat>)
    ensures InterruptProp(2, value).Ok?
    ensures |InterruptProp(2, value).value| == |value| / 2
    ensures forall j | 0 <= j < |value| / 2 ::
      InterruptProp(2, value).value[j] == SpiWord(value[2 * j], value[2 * j + 1])
  {
    var n := |value| / 2;
    if n >= 1 {
      LastEntryInRange(|value|, 2);
    }
    IntrWordsOk(value, 2, 0, n);
    forall j | 0 <= j < n
      ensures 2 * j + 1 < |value|
      ensures IntrWords(value, 2, 0, n).value[j] == IntrEntry(value, 2 * j, 2).value
    {
      StartIs(0, 2, j);
      StartMono(0, 2, j, n - 1);
    }
  }

  /** One cell per entry has no flags cell: the last entry reads past the
      end. */
  lemma InterruptOneCell(value: seq<nat>)
    requires |value| >= 1
    ensures InterruptProp(1, value) == Err(IndexError)
  {
    IntrWordsOneFails(value, 1, |value|);
  }

  lemma {:induction false} IntrWordsOneFails(value: seq<nat>, tmp: nat, n: nat)
    requires n >= 1 && tmp + n == |value| + 1
    decreases n
    ensures IntrWords(value, 1, tmp, n) == Err(IndexError)
  {
    if n > 1 {
      IntrWordsOneFails(value, tmp + 1, n - 1);
    }
  }

  /** `flags & 0xFF00` is the second byte of flags, in place. */
  lemma AndSecondByte(f: nat)
    ensures And(f, 0xFF00) == (f / 256 % 256) * 256
  {
    assert Pow2(8) == 256;
    assert Shl(Pow2(8) - 1, 8) == 0xFF00;
    var x := f / 256 % 256;
    forall j: nat ensures Bit(And(f, 0xFF00), j) == Bit(Shl(x, 8), j) {
      AndBit(f, 0xFF00, j);
      ShlBit(Pow2(8) - 1, 8, j);
      ShlBit(x, 8, j);
      if j >= 8 {
        LowMaskBits(8, j - 8);
        ModBits(f / 256, 8, j - 8);
        ShrDiv(f, 8);
        ShrBit(f, 8, j - 8);
      }
    }
    BitsExt(And(f, 0xFF00), Shl(x, 8));
  }

  /** The fields of a PPI word: with an id below 4096 and a CPU mask of
      four bits, bits [11:0] hold the id, [15:12] the trigger type,
      [19:16] the CPU mask and bit 20 alone is above them. */
  lemma PpiWordFields(id: nat, flags: nat)
    requires id < 0x1000 && flags < 0x1000
    ensures PpiWord(id, flags) % 0x1000 == id
    ensures PpiWord(id, flags) / 0x1000 % 16 == flags % 16
    ensures PpiWord(id, flags) / 0x1_0000 % 16 == flags / 256
    ensures PpiWord(id, flags) / 0x10_0000 == 1
  {
    var t := flags % 16;
    var m := flags / 256;
    PpiWordIs(id, flags, t, m);
    var w := PpiWord(id, flags);
    var q := t + 16 * m + 256;
    DivUnique(w, 0x1000, q, id);
    DivUnique(q, 16, m + 16, t);
    DivDiv(w, 0x1000, 16);
    DivUnique(m + 16, 16, 1, m);
    DivUnique(w, 0x10_0000, 1, w - 0x10_0000);
  }

  lemma PpiWordIs(id: nat, flags: nat, t: nat, m: nat)
    requires flags < 0x1000 && t == flags % 16 && m == flags / 256
    ensures m < 16 && t < 16
    ensures PpiWord(id, flags) == id + 0x1000 * t + 0x1_0000 * m + 0x10_0000
  {
    AndSecondByte(flags);
    AndLowMask(flags, 4);
    assert Pow2(4) == 16;
    assert flags / 256 % 256 == m;
  }

  /** The fields of an SPI word: the id below bit 12 and the flags above. */
  lemma SpiWordFields(id: nat, flags: nat)
    requires id < 0x1000
    ensures SpiWord(id, flags) % 0x1000 == id
    ensures SpiWord(id, flags) / 0x1000 == flags
  {
    assert Pow2(12) == 0x1000;
    DivUnique(SpiWord(id, flags), 0x1000, flags, id);
  }

  // ---------------------------------------------------------------------
  // compat_list

  /** A loaded YAML binding schema. */
  datatype Json = JStr(s: string) | JNum(n: int) | JList(items: seq<Json>) | JDict(entries: seq<(string, Json)>)

  /** Python truthiness. */
  predicate Truthy(j: Json)
  {
    match j
    case JStr(s) => s != ""
    case JNum(n) => n != 0
    case JList(xs) => xs != []
    case JDict(es) => es != []
  }

  /** `d[key]` / `d.get(key)` on a dict's entries. */
  function Lookup(es: seq<(string, Json)>, key: string): (r: Option<Json>)
    ensures r.Some? <==> exists i | 0 <= i < |es| :: es[i].0 == key
    ensures r.Some? ==> exists i | 0 <= i < |es| :: es[i] == (key, r.value)
  {
    if es == [] then None
    else if es[0].0 == key then Some(es[0].1)
    else
      var r := Lookup(es[1..], key);
      assert forall i | 1 <= i < |es| :: es[i] == es[1..][i - 1];
      r
  }

  /** The value `item_generator` yields for a matching entry: a string
      wrapped in a list, anything else as it is. */
  function Wrap(v: Json): Json
  {
    if v.JStr? then JList([v]) else v
  }

  /** What `item_generator(json_input, lookup_key)` yields, in order: in a
      dict, the value of each entry named lookup_key and the yields of
      every other entry's value; in a list, the yields of each item. */
  function Gen(j: Json, key: string): seq<Json>
    decreases j, 1
  {
    match j
    case JList(xs) => GenList(j, xs, 0, key)
    case JDict(es) => GenEntries(j, es, 0, key)
    case _ => []
  }

  function GenList(ghost parent: Json, xs: seq<Json>, i: nat, key: string): seq<Json>
    requires forall k | 0 <= k < |xs| :: xs[k] < parent
    decreases parent, 0, |xs| - i
  {
    if i >= |xs| then [] else Gen(xs[i], key) + GenList(parent, xs, i + 1, key)
  }

  function GenEntries(ghost parent: Json, es: seq<(string, Json)>, i: nat, key: string): seq<Json>
    requires forall k | 0 <= k < |es| :: es[k].1 < parent
    decreases parent, 0, |es| - i
  {
    if i >= |es| then []
    else (if es[i].0 == key then [Wrap(es[i].1)] else Gen(es[i].1, key)) + GenEntries(parent, es, i + 1, key)
  }

  /** Everything yielded from an entry that is not itself named key is
      yielded from the dict. */
  lemma {:induction false} GenEntriesHas(parent: Json, es: seq<(string, Json)>, j: nat, i: nat, key: string, x: Json)
    requires forall k | 0 <= k < |es| :: es[k].1 < parent
    requires j <= i < |es| && es[i].0 != key && x in Gen(es[i].1, key)
    ensures x in GenEntries(parent, es, j, key)
    decreases i - j
  {
    if j < i {
      GenEntriesHas(parent, es, j + 1, i, key, x);
    }
  }

  /** `compatible_list.extend(l)`: a list adds its items, a dict its keys
      and a string its characters; an integer is not iterable. */
  function Extend(l: Json): (r: Result<seq<Json>>)
    ensures r.Err? <==> l.JNum?
  {
    match l
    case JList(xs) => Ok(xs)
    case JDict(es) => Ok(seq(|es|, i requires 0 <= i < |es| => JStr(es[i].0)))
    case JStr(s) => Ok(seq(|s|, i requires 0 <= i < |s| => JStr([s[i]])))
    case JNum(_) => Err(TypeError)
  }

  /** Extending acc by each of ls in turn. */
  function ExtendAll(acc: seq<Json>, ls: seq<Json>): Result<seq<Json>>
    decreases |ls|
  {
    if ls == [] then Ok(acc)
    else match Extend(ls[0])
      case Err(e) => Err(e)
      case Ok(xs) => ExtendAll(acc + xs, ls[1..])
  }

  /** The elements the extends of ls add. */
  function ExtElems(ls: seq<Json>): set<Json>
    decreases |ls|
  {
    if ls == [] then {}
    else match Extend(ls[0])
      case Err(_) => ExtElems(ls[1..])
      case Ok(xs) => (set x | x in xs) + ExtElems(ls[1..])
  }

  predicate Iterable(ls: seq<Json>)
  {
    forall i | 0 <= i < |ls| :: !ls[i].JNum?
  }

  /** Extending succeeds exactly when every yielded value is iterable, and
      then holds acc's elements and those of every yielded value. */
  lemma {:induction false} ExtendAllElems(acc: seq<Json>, ls: seq<Json>)
    ensures ExtendAll(acc, ls).Ok? <==> Iterable(ls)
    ensures ExtendAll(acc, ls).Ok? ==>
      (set x | x in ExtendAll(acc, ls).value) == (set x | x in acc) + ExtElems(ls)
    decreases |ls|
  {
    if ls != [] {
      assert forall i | 1 <= i < |ls| :: ls[i] == ls[1..][i - 1];
      match Extend(ls[0])
      case Err(_) =>
      case Ok(xs) =>
        ExtendAllElems(acc + xs, ls[1..]);
        assert (set x | x in acc + xs) == (set x | x in acc) + (set x | x in xs);
    }
  }

  /** Every element a member of ls adds is among the elements of ls. */
  lemma {:induction false} ExtElemsHas(ls: seq<Json>, l: Json)
    requires l in ls && Extend(l).Ok?
    ensures (set x | x in Extend(l).value) <= ExtElems(ls)
    decreases |ls|
  {
    if ls[0] != l {
      ExtElemsHas(ls[1..], l);
    }
  }

  /** `list(set(xs))`: the distinct elements. Python's set order is not
      modelled: the first occurrence of each element is kept. */
  function Dedup(xs: seq<Json>): (r: seq<Json>)
    ensures (set x | x in r) == (set x | x in xs)
    ensures forall i, j | 0 <= i < j < |r| :: r[i] != r[j]
  {
    if xs == [] then []
    else
      var rest := Dedup(xs[1..]);
      assert (set x | x in xs) == {xs[0]} + (set x | x in xs[1..]);
      if xs[0] in rest then rest
      else
        assert forall j | 0 < j < |rest| + 1 :: ([xs[0]] + rest)[j] == rest[j - 1];
        assert (set x | x in [xs[0]] + rest) == {xs[0]} + (set x | x in rest);
        [xs[0]] + rest
  }

  predicate Hashable(xs: seq<Json>)
  {
    forall i | 0 <= i < |xs| :: xs[i].JStr? || xs[i].JNum?
  }

  /** The schema of the `compatible` property: `schema['properties']
      ['compatible']`, None when the schema is empty or names no such
      property. */
  function CompatibleSchema(schema: Json): Result<Option<Json>>
  {
    if !Truthy(schema) then Ok(None)
    else if !schema.JDict? then Err(AttributeError)
    else
      var props := match Lookup(schema.entries, "properties") case None => JDict([]) case Some(p) => p;
      if !props.JDict? then Err(AttributeError)
      else Ok(Lookup(props.entries, "compatible"))
  }

  /** The values item_generator yields for the enum and const keys. */
  function EnumConst(sch: Json): seq<Json>
  {
    Gen(sch, "enum") + Gen(sch, "const")
  }

  /** `compat_list(schema)`: the strings under every enum and const of the
      compatible schema and again of its `contains` entry, each once. */
  function CompatibleStrings(schema: Json): Result<seq<Json>>
  {
    match CompatibleSchema(schema)
    case Err(e) => Err(e)
    case Ok(None) => Ok([])
    case Ok(Some(sch)) =>
      match ExtendAll([], EnumConst(sch))
      case Err(e) => Err(e)
      case Ok(c1) =>
        if !sch.JDict? then Err(AttributeError)
        else
          var c := match Lookup(sch.entries, "contains")
            case None => Ok(c1)
            case Some(ct) => ExtendAll(c1, EnumConst(ct));
          match c
          case Err(e) => Err(e)
          case Ok(all) => if Hashable(all) then Ok(Dedup(all)) else Err(TypeError)
  }

  /** Extending a list by every value of ls, in a loop. */
  method ExtendFrom(acc: seq<Json>, ls: seq<Json>) returns (r: Result<seq<Json>>)
    ensures r == ExtendAll(acc, ls)
  {
    var list := acc;
    for i := 0 to |ls|
      invariant ExtendAll(list, ls[i..]) == ExtendAll(acc, ls)
    {
      assert ls[i..][1..] == ls[i + 1..];
      match ls[i]
      case JNum(_) =>
        return Err(TypeError);
      case _ =>
        list := list + Extend(ls[i]).value;
    }
    assert ls[|ls|..] == [];
    r := Ok(list);
  }

  method CompatList(schema: Json) returns (r: Result<seq<Json>>)
    ensures r == CompatibleStrings(schema)
  {
    var compat := CompatibleSchema(schema);
    if compat.Err? {
      return Err(compat.error);
    }
    if compat.value.None? {
      return Ok([]);
    }
    var sch := compat.value.value;
    var list := ExtendFrom([], Gen(sch, "enum"));
    if list.Err? {
      ExtendAllAppend([], Gen(sch, "enum"), Gen(sch, "const"));
      return list;
    }
    list := ExtendFrom(list.value, Gen(sch, "const"));
    ExtendAllAppend([], Gen(sch, "enum"), Gen(sch, "const"));
    if list.Err? {
      return list;
    }
    if !sch.JDict? {
      return Err(AttributeError);
    }
    var contains := Lookup(sch.entries, "contains");
    if contains.Some? {
      var ct := contains.value;
      var l1 := ExtendFrom(list.value, Gen(ct, "enum"));
      ExtendAllAppend(list.value, Gen(ct, "enum"), Gen(ct, "const"));
      if l1.Err? {
        return l1;
      }
      list := ExtendFrom(l1.value, Gen(ct, "const"));
      if list.Err? {
        return list;
      }
    }
    if !Hashable(list.value) {
      return Err(TypeError);
    }
    r := Ok(Dedup(list.value));
  }

  /** Extending by a + b is extending by a, then by b. */
  lemma {:induction false} ExtendAllAppend(acc: seq<Json>, a: seq<Json>, b: seq<Json>)
    ensures ExtendAll(acc, a + b)
      == match ExtendAll(acc, a) case Err(e) => Err(e) case Ok(m) => ExtendAll(m, b)
    decreases |a|
  {
    if a == [] {
      assert a + b == b;
    } else {
      assert (a + b)[1..] == a[1..] + b;
      match Extend(a[0])
      case Err(_) =>
      case Ok(xs) => ExtendAllAppend(acc + xs, a[1..], b);
    }
  }

  /** The result has no duplicates. */
  lemma CompatListDistinct(schema: Json)
    requires CompatibleStrings(schema).Ok?
    ensures forall i, j | 0 <= i < j < |CompatibleStrings(schema).value| ::
      CompatibleStrings(schema).value[i] != CompatibleStrings(schema).value[j]
  {
  }

  /** The second pass over `contains` finds nothing new: every value it
      yields was already yielded from the compatible schema itself, so
      the result holds exactly the elements of the enum and const values
      anywhere under the compatible schema. */
  lemma CompatContainsAddsNothing(schema: Json, sch: Json)
    requires CompatibleSchema(schema) == Ok(Some(sch))
    requires CompatibleStrings(schema).Ok?
    ensures (set x | x in CompatibleStrings(schema).value) == ExtElems(EnumConst(sch))
  {
    ExtendAllElems([], EnumConst(sch));
    var c1 := ExtendAll([], EnumConst(sch)).value;
    assert (set x: Json | x in []) == {};
    match Lookup(sch.entries, "contains")
    case None =>
    case Some(ct) =>
      ExtendAllElems(c1, EnumConst(ct));
      forall l | l in EnumConst(ct)
        ensures (set x | x in Extend(l).value) <= ExtElems(EnumConst(sch))
      {
        var i :| 0 <= i < |sch.entries| && sch.entries[i] == ("contains", ct);
        var key := if l in Gen(ct, "enum") then "enum" else "const";
        GenEntriesHas(sch, sch.entries, 0, i, key, l);
        assert l in Gen(sch, key);
        assert l in EnumConst(sch);
        ExtElemsHas(EnumConst(sch), l);
      }
      ExtElemsWithin(EnumConst(ct), ExtElems(EnumConst(sch)));
  }

  lemma {:induction false} ExtElemsWithin(ls: seq<Json>, bound: set<Json>)
    requires forall l | l in ls :: Extend(l).Ok? ==> (set x | x in Extend(l).value) <= bound
    ensures ExtElems(ls) <= bound
    decreases |ls|
  {
    if ls != [] {
      assert forall l | l in ls[1..] :: l in ls;
      ExtElemsWithin(ls[1..], bound);
    }
  }
}
