/** The memory helpers of the domain-access assist
    (lopper/assists/domain_access.py): rewriting a domain's (address, size)
    list into `reg` cells for the parent's `#address-cells` and
    `#size-cells`, and looking up the size of the `reg` entry that starts
    at an address. The two cell counts are parameters. */
module DomainAccess {
  import opened Common
  import Baremetal
  import Audit

  // ---------------------------------------------------------------------
  // update_mem_node

  /** `len(hex(v)[2:]) > 8`: v needs more than eight hex digits. */
  predicate Wide(v: nat)
  {
    Baremetal.HexLen(v) > 8
  }

  lemma {:induction false} Pow16Mono(a: nat, b: nat)
    requires a <= b
    ensures Baremetal.Pow16(a) <= Baremetal.Pow16(b)
    decreases b
  {
    if a < b {
      Pow16Mono(a, b - 1);
    }
  }

  /** A value is wide exactly when it does not fit one 32-bit cell. */
  lemma WideIs(v: nat)
    ensures Wide(v) <==> v >= TWO32
  {
    assert Baremetal.Pow16(8) == TWO32;
    var k := Baremetal.HexLen(v);
    if v < TWO32 {
      Baremetal.HexLenAtMost(v, 8);
    } else if k <= 8 {
      Pow16Mono(k, 8);
    }
  }

  /** The cells step j of the inner loop appends for a value over n cells:
      the last step writes the value, split into `val[:pad]` (the digits
      above the low eight, v / 2^32) and `val[pad:]` (v % 2^32) when it is
      wide; earlier steps pad with a zero cell only when it is not. */
  function CellStep(v: nat, n: nat, j: nat): seq<nat>
  {
    if j == n - 1 then (if Wide(v) then [v / TWO32, v % TWO32] else [v])
    else if !Wide(v) then [0]
    else []
  }

  function CellsUpTo(v: nat, n: nat, j: nat): seq<nat>
    requires j <= n
  {
    if j == 0 then [] else CellsUpTo(v, n, j - 1) + CellStep(v, n, j - 1)
  }

  /** The cells one value takes in the new `reg`. */
  function ValueCells(v: nat, n: nat): seq<nat>
  {
    CellsUpTo(v, n, n)
  }

  function Zeros(k: nat): (r: seq<nat>)
    ensures |r| == k && forall i | 0 <= i < k :: r[i] == 0
  {
    seq(k, i => 0)
  }

  lemma {:induction false} CellsUpToPadding(v: nat, n: nat, j: nat)
    requires j < n
    ensures CellsUpTo(v, n, j) == if Wide(v) then [] else Zeros(j)
  {
    if j > 0 {
      CellsUpToPadding(v, n, j - 1);
      if !Wide(v) {
        assert Zeros(j - 1) + [0] == Zeros(j);
      }
    }
  }

  /** The cells of a value: none for no cells, the high and low halves
      when it does not fit 32 bits (whatever n is), else zero padding and
      the value in the last cell. */
  lemma ValueCellsForm(v: nat, n: nat)
    ensures ValueCells(v, n) ==
      if n == 0 then []
      else if v >= TWO32 then [v / TWO32, v % TWO32]
      else Zeros(n - 1) + [v]
  {
    WideIs(v);
    if n > 0 {
      CellsUpToPadding(v, n, n - 1);
    }
  }

  /** Cells read most significant first. */
  function CellsNumber(cs: seq<nat>): nat
  {
    if |cs| == 0 then 0 else CellsNumber(cs[..|cs| - 1]) * TWO32 + cs[|cs| - 1]
  }

  lemma {:induction false} ZerosNumber(k: nat)
    ensures CellsNumber(Zeros(k)) == 0
  {
    if k > 0 {
      assert Zeros(k)[..k - 1] == Zeros(k - 1);
      ZerosNumber(k - 1);
    }
  }

  /** The cells written for a value read back as the value; they are n
      cells for a value that fits 32 bits and two cells otherwise. */
  lemma ValueCellsKeep(v: nat, n: nat)
    requires n >= 1
    ensures CellsNumber(ValueCells(v, n)) == v
    ensures |ValueCells(v, n)| == if v >= TWO32 then 2 else n
  {
    ValueCellsForm(v, n);
    var cs := ValueCells(v, n);
    if v >= TWO32 {
      assert cs[..1] == [v / TWO32];
      assert CellsNumber([v / TWO32]) == v / TWO32 by {
        assert [v / TWO32][..0] == [];
      }
    } else {
      assert cs[..n - 1] == Zeros(n - 1);
      ZerosNumber(n - 1);
    }
  }

  /** The cells of pair i of the (address, size) list. */
  function PairCells(ac: nat, sc: nat, memVal: seq<nat>, i: nat): seq<nat>
    requires i < |memVal| / 2
  {
    ValueCells(memVal[2 * i], ac) + ValueCells(memVal[2 * i + 1], sc)
  }

  /** The new `reg` from pair i on; `len(mem_val)/2` pairs, an odd
      trailing address is dropped. */
  function MemCellsFrom(ac: nat, sc: nat, memVal: seq<nat>, i: nat): seq<nat>
    requires i <= |memVal| / 2
    decreases |memVal| / 2 - i
  {
    if i == |memVal| / 2 then [] else PairCells(ac, sc, memVal, i) + MemCellsFrom(ac, sc, memVal, i + 1)
  }

  /** One run of the inner loop of `update_mem_node` for a value over n
      cells. */
  method AppendValueCells(out: seq<nat>, v: nat, n: nat) returns (r: seq<nat>)
    ensures r == out + ValueCells(v, n)
  {
    r := out;
    for j: nat := 0 to n
      invariant r == out + CellsUpTo(v, n, j)
    {
      var wide := Baremetal.HexLen(v) > 8;
      if j == n - 1 {
        if wide {
          r := r + [v / TWO32, v % TWO32];
        } else {
          r := r + [v];
        }
      } else if !wide {
        r := r + [0];
      }
      assert CellsUpTo(v, n, j + 1) == CellsUpTo(v, n, j) + CellStep(v, n, j);
    }
  }

  lemma AppendAssoc(p: seq<nat>, a: seq<nat>, b: seq<nat>, l: seq<nat>)
    ensures ((p + a) + b) + l == p + ((a + b) + l)
  {
  }

  /** `update_mem_node(node, mem_val)`: the new `reg` cells for the
      (address, size) list. */
  method UpdateMemNode(ac: nat, sc: nat, memVal: seq<nat>) returns (newMemVal: seq<nat>)
    ensures newMemVal == MemCellsFrom(ac, sc, memVal, 0)
  {
    newMemVal := [];
    var pairs := |memVal| / 2;
    for i: nat := 0 to pairs
      invariant newMemVal + MemCellsFrom(ac, sc, memVal, i) == MemCellsFrom(ac, sc, memVal, 0)
    {
      ghost var before := newMemVal;
      ghost var later := MemCellsFrom(ac, sc, memVal, i + 1);
      var addr := memVal[2 * i];
      var size := memVal[2 * i + 1];
      newMemVal := AppendValueCells(newMemVal, addr, ac);
      newMemVal := AppendValueCells(newMemVal, size, sc);
      assert MemCellsFrom(ac, sc, memVal, i) == (ValueCells(addr, ac) + ValueCells(size, sc)) + later;
      AppendAssoc(before, ValueCells(addr, ac), ValueCells(size, sc), later);
    }
  }

  // ---------------------------------------------------------------------
  // memory_get_size

  /** `memory_get_size` as written: it calls `lopper_lib.cell_value_get`,
      which lopper/assists/lopper_lib.py does not define, so the first entry
      raises AttributeError; with no entries it returns None, and a zero
      entry width makes `chunks` raise ValueError. */
  function MemoryGetSizeAsWritten(ac: nat, sc: nat, reg: seq<Cell>, addr: nat): (r: Result<Option<nat>>)
    ensures r.Ok? <==> ac + sc > 0 && |reg| == 0
    ensures r.Ok? ==> r.value.None?
  {
    if ac + sc == 0 then Err(ValueError)
    else if |reg| == 0 then Ok(None)
    else Err(AttributeError)
  }

  /** `memory_get_size(mem_node, start_address)` with the cell reader of
      lopper/audit.py (same arguments): the size of the first `reg` entry
      whose address is `start_address`, None when there is none; a short
      entry raises IndexError. */
  function SizeOf(ac: nat, sc: nat, reg: seq<Cell>, addr: nat): Result<Option<nat>>
    decreases |reg|
  {
    if ac + sc == 0 then Err(ValueError)
    else if |reg| == 0 then Ok(None)
    else
      var w := ac + sc;
      var entry := if |reg| <= w then reg else reg[..w];
      var rest := if |reg| <= w then [] else reg[w..];
      match Audit.CellValueGet(entry, ac, 0)
      case Err(e) => Err(e)
      case Ok((start, _)) =>
        match Audit.CellValueGet(entry, sc, ac)
        case Err(e) => Err(e)
        case Ok((size, _)) => if start == addr then Ok(Some(size)) else SizeOf(ac, sc, rest, addr)
  }

  /** The search loop of `memory_get_size`, over `chunks(reg, ac + sc)`. */
  method MemoryGetSize(ac: nat, sc: nat, reg: seq<Cell>, addr: nat) returns (r: Result<Option<nat>>)
    ensures r == SizeOf(ac, sc, reg, addr)
  {
    if ac + sc == 0 {
      return Err(ValueError);
    }
    var w := ac + sc;
    var off: nat := 0;
    while off < |reg|
      invariant off <= |reg|
      invariant SizeOf(ac, sc, reg[off..], addr) == SizeOf(ac, sc, reg, addr)
      decreases |reg| - off
    {
      var end: nat := if off + w < |reg| then off + w else |reg|;
      var entry := reg[off..end];
      assert entry == if |reg[off..]| <= w then reg[off..] else reg[off..][..w];
      assert reg[end..] == if |reg[off..]| <= w then [] else reg[off..][w..];
      var startValue := Audit.CellValueGet(entry, ac, 0);
      if startValue.Err? {
        return Err(startValue.error);
      }
      var sizeValue := Audit.CellValueGet(entry, sc, ac);
      if sizeValue.Err? {
        return Err(sizeValue.error);
      }
      if startValue.value.0 == addr {
        return Ok(Some(sizeValue.value.0));
      }
      off := end;
    }
    assert reg[off..] == [];
    return Ok(None);
  }

  /** The as-written lookup fails on a one-entry `reg` where the corrected
      one finds the size. */
  lemma MissingCellReader(reg: seq<Cell>)
    requires reg == [0x1000, 0x2000]
    ensures MemoryGetSizeAsWritten(1, 1, reg, 0x1000) == Err(AttributeError)
    ensures SizeOf(1, 1, reg, 0x1000) == Ok(Some(0x2000))
  {
    assert reg[..2] == reg;
  }

  // ---------------------------------------------------------------------
  // update_mem_node, then memory_get_size

  /** A value fits n cells that the cell reader can read back: one cell
      below 2^32, two cells below 2^64. */
  predicate Fits(v: nat, n: nat)
  {
    (n == 1 && v < TWO32) || (n == 2 && v < TWO32 * TWO32)
  }

  /** The size paired with the first address equal to addr, from pair i on. */
  function FirstSize(memVal: seq<nat>, i: nat, addr: nat): Option<nat>
    requires i <= |memVal| / 2
    decreases |memVal| / 2 - i
  {
    if i == |memVal| / 2 then None
    else if memVal[2 * i] == addr then Some(memVal[2 * i + 1])
    else FirstSize(memVal, i + 1, addr)
  }

  /** Reading a value at `start` of a cell list that holds its cells there. */
  lemma ReadValue(entry: seq<Cell>, start: nat, v: nat, n: nat)
    requires Fits(v, n)
    requires start + |ValueCells(v, n)| <= |entry|
    requires entry[start..start + |ValueCells(v, n)|] == ValueCells(v, n)
    ensures Audit.CellValueGet(entry, n, start).Ok?
    ensures Audit.CellValueGet(entry, n, start).value.0 == v
  {
    ValueCellsForm(v, n);
    ValueCellsKeep(v, n);
    var cs := ValueCells(v, n);
    assert entry[start] == cs[0];
    if n == 2 {
      assert entry[start + 1] == cs[1];
      if v >= TWO32 {
        assert v == (v / TWO32) * TWO32 + v % TWO32;
      } else {
        assert cs == [0, v];
      }
    }
  }

  /** The cells of one pair take ac + sc cells when both values fit. */
  lemma PairWidth(ac: nat, sc: nat, memVal: seq<nat>, i: nat)
    requires i < |memVal| / 2
    requires Fits(memVal[2 * i], ac) && Fits(memVal[2 * i + 1], sc)
    ensures |PairCells(ac, sc, memVal, i)| == ac + sc
  {
    ValueCellsKeep(memVal[2 * i], ac);
    ValueCellsKeep(memVal[2 * i + 1], sc);
  }

  /** The lookup reads the first entry of the `reg` and moves on to the
      rest when its address is not the one sought. */
  lemma SizeOfFirstEntry(ac: nat, sc: nat, entry: seq<Cell>, rest: seq<Cell>, addr: nat, a: nat, s: nat)
    requires |entry| == ac + sc > 0
    requires Audit.CellValueGet(entry, ac, 0).Ok? && Audit.CellValueGet(entry, ac, 0).value.0 == a
    requires Audit.CellValueGet(entry, sc, ac).Ok? && Audit.CellValueGet(entry, sc, ac).value.0 == s
    ensures SizeOf(ac, sc, entry + rest, addr) == if a == addr then Ok(Some(s)) else SizeOf(ac, sc, rest, addr)
  {
    var reg := entry + rest;
    assert reg[..ac + sc] == entry;
    assert reg[ac + sc..] == rest;
  }

  /** The cells of one pair read back as its address and size. */
  lemma ReadPair(ac: nat, sc: nat, a: nat, s: nat, entry: seq<Cell>)
    requires Fits(a, ac) && Fits(s, sc)
    requires entry == ValueCells(a, ac) + ValueCells(s, sc)
    ensures |entry| == ac + sc
    ensures Audit.CellValueGet(entry, ac, 0).Ok? && Audit.CellValueGet(entry, ac, 0).value.0 == a
    ensures Audit.CellValueGet(entry, sc, ac).Ok? && Audit.CellValueGet(entry, sc, ac).value.0 == s
  {
    ValueCellsKeep(a, ac);
    ValueCellsKeep(s, sc);
    assert entry[0..ac] == ValueCells(a, ac);
    assert entry[ac..ac + sc] == ValueCells(s, sc);
    ReadValue(entry, 0, a, ac);
    ReadValue(entry, ac, s, sc);
  }

  /** The `reg` from pair i on starts with the cells of pair i. */
  lemma SplitReg(ac: nat, sc: nat, memVal: seq<nat>, i: nat, reg: seq<Cell>)
    requires i < |memVal| / 2
    requires Fits(memVal[2 * i], ac) && Fits(memVal[2 * i + 1], sc)
    requires reg == MemCellsFrom(ac, sc, memVal, i)
    ensures |reg| >= ac + sc
    ensures reg[..ac + sc] == ValueCells(memVal[2 * i], ac) + ValueCells(memVal[2 * i + 1], sc)
    ensures reg[ac + sc..] == MemCellsFrom(ac, sc, memVal, i + 1)
  {
    PairWidth(ac, sc, memVal, i);
    var p := PairCells(ac, sc, memVal, i);
    assert reg == p + MemCellsFrom(ac, sc, memVal, i + 1);
  }

  /** Looking an address up in the `reg` that `update_mem_node` wrote
      (address and size cells of one or two cells, values that fit them)
      finds the size of the first pair with that address, and None when
      no pair has it. */
  lemma {:induction false} UpdateThenGetSize(ac: nat, sc: nat, memVal: seq<nat>, i: nat, addr: nat, reg: seq<Cell>)
    requires 1 <= ac <= 2 && 1 <= sc <= 2 && i <= |memVal| / 2
    requires forall k | i <= k < |memVal| / 2 :: Fits(memVal[2 * k], ac) && Fits(memVal[2 * k + 1], sc)
    requires reg == MemCellsFrom(ac, sc, memVal, i)
    ensures SizeOf(ac, sc, reg, addr) == Ok(FirstSize(memVal, i, addr))
    decreases |memVal| / 2 - i
  {
    if i < |memVal| / 2 {
      assert Fits(memVal[2 * i], ac) && Fits(memVal[2 * i + 1], sc);
      SplitReg(ac, sc, memVal, i, reg);
      var rest := reg[ac + sc..];
      UpdateThenGetSize(ac, sc, memVal, i + 1, addr, rest);
      GetSizeStep(ac, sc, memVal, i, addr, reg);
    } else {
      assert reg == [];
    }
  }

  /** One pair of UpdateThenGetSize: the lookup in the `reg` from pair i
      on answers for pair i, or as the `reg` from pair i + 1 does. */
  lemma GetSizeStep(ac: nat, sc: nat, memVal: seq<nat>, i: nat, addr: nat, reg: seq<Cell>)
    requires 1 <= ac <= 2 && 1 <= sc <= 2 && i < |memVal| / 2
    requires Fits(memVal[2 * i], ac) && Fits(memVal[2 * i + 1], sc)
    requires reg == MemCellsFrom(ac, sc, memVal, i)
    requires |reg| >= ac + sc && SizeOf(ac, sc, reg[ac + sc..], addr) == Ok(FirstSize(memVal, i + 1, addr))
    ensures SizeOf(ac, sc, reg, addr) == Ok(FirstSize(memVal, i, addr))
  {
    var a := memVal[2 * i];
    var s := memVal[2 * i + 1];
    SplitReg(ac, sc, memVal, i, reg);
    var entry: seq<Cell> := reg[..ac + sc];
    var restCells: seq<Cell> := reg[ac + sc..];
    ReadPair(ac, sc, a, s, entry);
    assert reg == entry + restCells;
    SizeOfFirstEntry(ac, sc, entry, restCells, addr, a, s);
  }
}
