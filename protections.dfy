/** The protection map of lopper/assists/xlnx/protections.py: modules
    behind firewalls with their address ranges and firewall-table (FTB)
    entries, memory nodes with their firewall configuration, and the
    aperture masks derived from the master tables of the XPPU instances.
    The FTB entry and master-id records come from ftb.py, which is not
    part of this model; they are the datatypes below. */
module XlnxProtections {
  import opened Common
  import opened Bits
  import Xppu
  import Xmpu

  /** The range recorded for a module whose property is missing or has
      an odd number of cells. */
  const DEFVAL: (nat, nat) := (0xdeadbeef, 0xdeadbeef)

  /** The PMC subsystem, whose entries give an XPPU its default mask. */
  const PMC_SUBSYSTEM: nat := 0x1C000000

  // ---------------------------------------------------------------------
  // get_base_and_size: register cells to (address, size) pairs

  /** `hi << 32 | lo`. */
  function Wide(hi: nat, lo: nat): nat
  {
    Or(Shl(hi, 32), lo)
  }

  /** Consecutive 4-cell slices, each read as a 64-bit address and a
      64-bit size. */
  function QuadPairs(v: seq<nat>): (r: seq<(nat, nat)>)
    requires |v| % 4 == 0
    ensures |r| == |v| / 4
    decreases |v|
  {
    if |v| == 0 then [] else [(Wide(v[0], v[1]), Wide(v[2], v[3]))] + QuadPairs(v[4..])
  }

  /** Consecutive 2-cell slices, each an address and a size. */
  function DuoPairs(v: seq<nat>): (r: seq<(nat, nat)>)
    requires |v| % 2 == 0
    ensures |r| == |v| / 2
    decreases |v|
  {
    if |v| == 0 then [] else [(v[0], v[1])] + DuoPairs(v[2..])
  }

  /** The ranges `get_base_and_size` derives from a property value (None
      when the node lacks the property). The result is empty exactly when
      the property is present with no cells. */
  function BaseAndSize(v: Option<seq<nat>>): (r: seq<(nat, nat)>)
    ensures r == [] <==> v == Some([])
  {
    if v.None? then [DEFVAL]
    else if |v.value| % 4 != 0 && |v.value| % 2 != 0 then [DEFVAL]
    else if |v.value| % 4 == 0 then QuadPairs(v.value)
    else DuoPairs(v.value)
  }

  /** One pass of the 4-cell loop of `get_base_and_size`. */
  lemma QuadStep(acc: seq<(nat, nat)>, rest: seq<nat>, cells: seq<nat>, addr: nat, size: nat)
    requires |rest| > 0 && |rest| % 4 == 0 && |cells| % 4 == 0
    requires acc + QuadPairs(rest) == QuadPairs(cells)
    requires addr == Wide(rest[0], rest[1]) && size == Wide(rest[2], rest[3])
    ensures (acc + [(addr, size)]) + QuadPairs(rest[4..]) == QuadPairs(cells)
  {
    assert QuadPairs(rest) == [(addr, size)] + QuadPairs(rest[4..]);
    assert acc + ([(addr, size)] + QuadPairs(rest[4..])) == (acc + [(addr, size)]) + QuadPairs(rest[4..]);
  }

  /** One pass of the 2-cell loop of `get_base_and_size`. */
  lemma DuoStep(acc: seq<(nat, nat)>, rest: seq<nat>, cells: seq<nat>)
    requires |rest| > 0 && |rest| % 2 == 0 && |cells| % 2 == 0
    requires acc + DuoPairs(rest) == DuoPairs(cells)
    ensures (acc + [(rest[0], rest[1])]) + DuoPairs(rest[2..]) == DuoPairs(cells)
  {
    assert DuoPairs(rest) == [(rest[0], rest[1])] + DuoPairs(rest[2..]);
    assert acc + ([(rest[0], rest[1])] + DuoPairs(rest[2..])) == (acc + [(rest[0], rest[1])]) + DuoPairs(rest[2..]);
  }

  /** Every cell is a 32-bit word. */
  predicate Cells32(v: seq<nat>)
  {
    forall i | 0 <= i < |v| :: v[i] < TWO32
  }

  /** With a 32-bit low word, the OR is the 64-bit value. */
  lemma WideValue(hi: nat, lo: nat)
    requires lo < TWO32
    ensures Wide(hi, lo) == hi * TWO32 + lo
  {
    Xmpu.Pow2Of32();
    ShlOrAdd(hi, 32, lo);
  }

  /** Pair k of a 4-cell property is read from cells 4k to 4k+3. */
  lemma {:induction false} QuadPairsWide(v: seq<nat>, k: nat)
    requires |v| % 4 == 0 && 4 * k + 4 <= |v|
    ensures QuadPairs(v)[k] == (Wide(v[4 * k], v[4 * k + 1]), Wide(v[4 * k + 2], v[4 * k + 3]))
    decreases k
  {
    if k > 0 {
      var rest := v[4..];
      QuadPairsWide(rest, k - 1);
      assert QuadPairs(v)[k] == QuadPairs(rest)[k - 1];
      var j := 4 * (k - 1);
      assert j + 4 == 4 * k;
      assert rest[j] == v[j + 4] && rest[j + 1] == v[j + 5] && rest[j + 2] == v[j + 6] && rest[j + 3] == v[j + 7];
    }
  }

  /** With 32-bit cells, pair k is the 64-bit address and size held in
      cells 4k to 4k+3, high word first. */
  lemma QuadPairsAt(v: seq<nat>, k: nat)
    requires |v| % 4 == 0 && Cells32(v) && 4 * k + 4 <= |v|
    ensures QuadPairs(v)[k].0 == v[4 * k] * TWO32 + v[4 * k + 1]
    ensures QuadPairs(v)[k].1 == v[4 * k + 2] * TWO32 + v[4 * k + 3]
  {
    QuadPairsWide(v, k);
    var p := QuadPairs(v)[k];
    WideValue(v[4 * k], v[4 * k + 1]);
    WideValue(v[4 * k + 2], v[4 * k + 3]);
    assert p.0 == Wide(v[4 * k], v[4 * k + 1]);
  }

  /** The high and low 32-bit words of a value. */
  function Words(n: nat): seq<nat>
  {
    [n / TWO32, n % TWO32]
  }

  /** The cells that encode a list of 64-bit ranges. */
  function QuadCells(ps: seq<(nat, nat)>): seq<nat>
  {
    if |ps| == 0 then [] else Words(ps[0].0) + Words(ps[0].1) + QuadCells(ps[1..])
  }

  /** The cells that encode a list of 32-bit ranges. */
  function DuoCells(ps: seq<(nat, nat)>): seq<nat>
  {
    if |ps| == 0 then [] else [ps[0].0, ps[0].1] + DuoCells(ps[1..])
  }

  lemma WordsOfWide(hi: nat, lo: nat)
    requires hi < TWO32 && lo < TWO32
    ensures Words(Wide(hi, lo)) == [hi, lo]
  {
    WideValue(hi, lo);
    DivUnique(Wide(hi, lo), TWO32, hi, lo);
  }

  lemma Cells32Drop(v: seq<nat>, n: nat)
    requires n <= |v| && Cells32(v)
    ensures Cells32(v[n..])
  {
    forall i | 0 <= i < |v| - n ensures v[n..][i] < TWO32 {
      assert v[n..][i] == v[i + n];
    }
  }

  /** One 4-cell slice of the round trip, given the rest. */
  lemma QuadCons(v: seq<nat>, rest: seq<nat>)
    requires |v| >= 4 && |v| % 4 == 0 && rest == v[4..]
    requires v[0] < TWO32 && v[1] < TWO32 && v[2] < TWO32 && v[3] < TWO32
    requires QuadCells(QuadPairs(rest)) == rest
    ensures QuadCells(QuadPairs(v)) == v
  {
    WordsOfWide(v[0], v[1]);
    WordsOfWide(v[2], v[3]);
    var ps := QuadPairs(v);
    assert ps[1..] == QuadPairs(rest);
    assert QuadCells(ps) == [v[0], v[1]] + [v[2], v[3]] + rest;
    assert v == [v[0], v[1], v[2], v[3]] + rest;
  }

  /** Encoding the 4-cell ranges again gives back the property. */
  lemma {:induction false} QuadRoundTrip(v: seq<nat>)
    requires |v| % 4 == 0 && Cells32(v)
    ensures QuadCells(QuadPairs(v)) == v
    decreases |v|
  {
    if |v| > 0 {
      Cells32Drop(v, 4);
      QuadRoundTrip(v[4..]);
      QuadCons(v, v[4..]);
    }
  }

  /** One 2-cell slice of the round trip, given the rest. */
  lemma DuoCons(v: seq<nat>, rest: seq<nat>)
    requires |v| >= 2 && |v| % 2 == 0 && rest == v[2..]
    requires DuoCells(DuoPairs(rest)) == rest
    ensures DuoCells(DuoPairs(v)) == v
  {
    var ps := DuoPairs(v);
    assert ps[1..] == DuoPairs(rest);
    assert v == [v[0], v[1]] + rest;
  }

  /** Encoding the 2-cell ranges again gives back the property. */
  lemma {:induction false} DuoRoundTrip(v: seq<nat>)
    requires |v| % 2 == 0
    ensures DuoCells(DuoPairs(v)) == v
    decreases |v|
  {
    if |v| > 0 {
      DuoRoundTrip(v[2..]);
      DuoCons(v, v[2..]);
    }
  }

  // ---------------------------------------------------------------------
  // Firewall-table entries

  /** `ftb.MidEntry(name, smid, mask)`. */
  datatype MidEntry = MidEntry(name: string, smid: nat, mask: nat)

  /** `ftb.FirewallTableEntry`; a new entry's aperture mask is 0. */
  datatype FtbEntry = FtbEntry(subsystemId: nat, baseAddr: nat, size: nat, rw: nat, tz: nat,
                               midList: seq<MidEntry>, moduleName: string, pmTag: string,
                               priority: int, aperMask: nat)

  /** `{ subsystem_id: [FirewallTableEntry, ...] }`. */
  type Table = map<nat, seq<FtbEntry>>

  /** Every entry sits in the list of its own subsystem, and none keeps
      the priority 0 that the subsystem plugin uses for "highest". */
  ghost predicate Filed(t: Table)
  {
    forall sid, i | sid in t && 0 <= i < |t[sid]| ::
      t[sid][i].subsystemId == sid && t[sid][i].priority != 0
  }

  /** The priority an entry is stored with: 0 becomes 10. */
  function Priority(p: int): (r: int)
    ensures r != 0
    ensures p != 0 ==> r == p
  {
    if p == 0 then 10 else p
  }

  /** The table after appending e to its subsystem's list, which is
      created empty when missing. */
  function Appended(t: Table, e: FtbEntry): Table
  {
    t[e.subsystemId := (if e.subsystemId in t then t[e.subsystemId] else []) + [e]]
  }

  // ---------------------------------------------------------------------
  // Aperture masks

  /** What `get_master_by_smid` and `get_master_by_smrw` look for. */
  datatype Query = BySmid(mid: nat) | BySmrw(mid: nat, mask: nat, rw: nat)

  predicate Answers(s: Option<Xppu.MasterId>, q: Query)
  {
    match q
    case BySmid(mid) => Xppu.HasMid(s, mid)
    case BySmrw(mid, mask, rw) => Xppu.HasMidMaskRw(s, mid, mask, rw)
  }

  /** The first master slot that answers the query. */
  function FirstSlot(ms: seq<Option<Xppu.MasterId>>, q: Query): (r: Option<nat>)
    ensures r.Some? ==> r.value < |ms| && Answers(ms[r.value], q)
    ensures r.Some? ==> forall j | 0 <= j < r.value :: !Answers(ms[j], q)
    ensures r.None? ==> forall j | 0 <= j < |ms| :: !Answers(ms[j], q)
    decreases |ms|
  {
    if |ms| == 0 then None
    else if Answers(ms[0], q) then Some(0)
    else
      match FirstSlot(ms[1..], q)
      case None => None
      case Some(i) => Some(i + 1)
  }

  /** Any answer with the lookup methods' contract is the first slot. */
  lemma SlotUnique(ms: seq<Option<Xppu.MasterId>>, q: Query, r: Option<nat>)
    requires r.Some? ==> r.value < |ms| && Answers(ms[r.value], q)
    requires r.Some? ==> forall j | 0 <= j < r.value :: !Answers(ms[j], q)
    requires r.None? ==> forall j | 0 <= j < |ms| :: !Answers(ms[j], q)
    ensures r == FirstSlot(ms, q)
  {
  }

  /** The OR of `1 << idx` over the slots the queries find, in order;
      a query that finds nothing adds nothing. */
  function MaskOver(ms: seq<Option<Xppu.MasterId>>, qs: seq<Query>): nat
    decreases |qs|
  {
    if |qs| == 0 then 0
    else
      var m := MaskOver(ms, qs[..|qs| - 1]);
      match FirstSlot(ms, qs[|qs| - 1])
      case None => m
      case Some(i) => Or(m, Shl(1, i))
  }

  /** Some query finds slot k. */
  ghost predicate Found(ms: seq<Option<Xppu.MasterId>>, qs: seq<Query>, k: nat)
  {
    exists j :: 0 <= j < |qs| && FirstSlot(ms, qs[j]) == Some(k)
  }

  lemma FoundStep(ms: seq<Option<Xppu.MasterId>>, qs: seq<Query>, k: nat)
    requires |qs| > 0
    ensures Found(ms, qs, k) <==> Found(ms, qs[..|qs| - 1], k) || FirstSlot(ms, qs[|qs| - 1]) == Some(k)
  {
    var n := |qs| - 1;
    var init := qs[..n];
    if Found(ms, qs, k) {
      var j :| 0 <= j < |qs| && FirstSlot(ms, qs[j]) == Some(k);
      if j < n {
        assert init[j] == qs[j];
      }
    }
    if Found(ms, init, k) {
      var j :| 0 <= j < |init| && FirstSlot(ms, init[j]) == Some(k);
      assert qs[j] == init[j];
    }
  }

  lemma MaskStep(ms: seq<Option<Xppu.MasterId>>, qs: seq<Query>, k: nat)
    requires |qs| > 0
    ensures Bit(MaskOver(ms, qs), k) == 1 <==>
      Bit(MaskOver(ms, qs[..|qs| - 1]), k) == 1 || FirstSlot(ms, qs[|qs| - 1]) == Some(k)
  {
    var prev := MaskOver(ms, qs[..|qs| - 1]);
    var last := FirstSlot(ms, qs[|qs| - 1]);
    if last.Some? {
      OrBit(prev, Shl(1, last.value), k);
      BitPow2(last.value, k);
    }
  }

  /** Bit k of the mask is set exactly when some query finds slot k. */
  lemma {:induction false} MaskOverBits(ms: seq<Option<Xppu.MasterId>>, qs: seq<Query>, k: nat)
    ensures Bit(MaskOver(ms, qs), k) == 1 <==> Found(ms, qs, k)
    decreases |qs|
  {
    if |qs| == 0 {
      ZeroBit(k);
    } else {
      MaskOverBits(ms, qs[..|qs| - 1], k);
      FoundStep(ms, qs, k);
      MaskStep(ms, qs, k);
    }
  }

  /** The queries of an FTB entry: each master id with the entry's rw. */
  function SmrwQueries(mids: seq<MidEntry>, rw: nat): (qs: seq<Query>)
    ensures |qs| == |mids|
    ensures forall j | 0 <= j < |mids| :: qs[j] == BySmrw(mids[j].smid, mids[j].mask, rw)
  {
    seq(|mids|, j requires 0 <= j < |mids| => BySmrw(mids[j].smid, mids[j].mask, rw))
  }

  /** The aperture mask `compute_aper_mask` stores in an entry. */
  function AperMaskOf(ms: seq<Option<Xppu.MasterId>>, mids: seq<MidEntry>, rw: nat): nat
  {
    MaskOver(ms, SmrwQueries(mids, rw))
  }

  /** Bit k of an entry's mask is set exactly when one of its master ids
      matches the master in slot k (first match, same SMID, mask and rw). */
  lemma AperMaskBits(ms: seq<Option<Xppu.MasterId>>, mids: seq<MidEntry>, rw: nat, k: nat)
    ensures Bit(AperMaskOf(ms, mids, rw), k) == 1 <==>
      exists j :: 0 <= j < |mids| && FirstSlot(ms, BySmrw(mids[j].smid, mids[j].mask, rw)) == Some(k)
  {
    var qs := SmrwQueries(mids, rw);
    MaskOverBits(ms, qs, k);
    if Bit(AperMaskOf(ms, mids, rw), k) == 1 {
      var j :| 0 <= j < |qs| && FirstSlot(ms, qs[j]) == Some(k);
      assert FirstSlot(ms, BySmrw(mids[j].smid, mids[j].mask, rw)) == Some(k);
    }
    if exists j :: 0 <= j < |mids| && FirstSlot(ms, BySmrw(mids[j].smid, mids[j].mask, rw)) == Some(k) {
      var j :| 0 <= j < |mids| && FirstSlot(ms, BySmrw(mids[j].smid, mids[j].mask, rw)) == Some(k);
      assert FirstSlot(ms, qs[j]) == Some(k);
    }
  }

  /** Each entry of a list with its aperture mask computed. */
  function MaskedEntries(es: seq<FtbEntry>, ms: seq<Option<Xppu.MasterId>>): (r: seq<FtbEntry>)
  {
    seq(|es|, i requires 0 <= i < |es| => es[i].(aperMask := AperMaskOf(ms, es[i].midList, es[i].rw)))
  }

  /** A table with every entry's aperture mask computed. */
  function MaskedTable(t: Table, ms: seq<Option<Xppu.MasterId>>): Table
  {
    map sid | sid in t :: MaskedEntries(t[sid], ms)
  }

  /** The OR of the entries' aperture masks. */
  function OrMasks(es: seq<FtbEntry>): nat
    decreases |es|
  {
    if |es| == 0 then 0 else Or(OrMasks(es[..|es| - 1]), es[|es| - 1].aperMask)
  }

  /** Bit k of the OR is set exactly when it is set in some entry. */
  lemma {:induction false} OrMasksBits(es: seq<FtbEntry>, k: nat)
    ensures Bit(OrMasks(es), k) == 1 <==> exists i :: 0 <= i < |es| && Bit(es[i].aperMask, k) == 1
    decreases |es|
  {
    if |es| == 0 {
      ZeroBit(k);
    } else {
      var n := |es| - 1;
      var init := es[..n];
      OrMasksBits(init, k);
      OrBit(OrMasks(init), es[n].aperMask, k);
      if Bit(OrMasks(init), k) == 1 {
        var i :| 0 <= i < |init| && Bit(init[i].aperMask, k) == 1;
        assert es[i] == init[i];
      }
      if exists i :: 0 <= i < |es| && Bit(es[i].aperMask, k) == 1 {
        var i :| 0 <= i < |es| && Bit(es[i].aperMask, k) == 1;
        if i < n {
          assert init[i] == es[i];
        }
      }
    }
  }

  /** `get_aperture`: 0 for a subsystem without entries, otherwise the OR
      of its entries' masks. */
  function ApertureOf(t: Table, sid: nat): nat
  {
    if sid in t then OrMasks(t[sid]) else 0
  }

  /** One of the entry's master ids matches the master in slot k. */
  ghost predicate HitsSlot(e: FtbEntry, ms: seq<Option<Xppu.MasterId>>, k: nat)
  {
    exists j :: 0 <= j < |e.midList| && FirstSlot(ms, BySmrw(e.midList[j].smid, e.midList[j].mask, e.rw)) == Some(k)
  }

  /** After `compute_aper_mask`, bit k of a subsystem's aperture is set
      exactly when one of its entries names a master id that matches the
      master in slot k. */
  lemma ApertureBits(t: Table, ms: seq<Option<Xppu.MasterId>>, sid: nat, k: nat)
    ensures Bit(ApertureOf(MaskedTable(t, ms), sid), k) == 1 <==>
      sid in t && exists i :: 0 <= i < |t[sid]| && HitsSlot(t[sid][i], ms, k)
  {
    if sid !in t {
      ZeroBit(k);
    } else {
      var es := MaskedEntries(t[sid], ms);
      OrMasksBits(es, k);
      if Bit(ApertureOf(MaskedTable(t, ms), sid), k) == 1 {
        var i :| 0 <= i < |es| && Bit(es[i].aperMask, k) == 1;
        var e := t[sid][i];
        AperMaskBits(ms, e.midList, e.rw, k);
        assert HitsSlot(e, ms, k);
      }
      if exists i :: 0 <= i < |t[sid]| && HitsSlot(t[sid][i], ms, k) {
        var i :| 0 <= i < |t[sid]| && HitsSlot(t[sid][i], ms, k);
        var e := t[sid][i];
        AperMaskBits(ms, e.midList, e.rw, k);
        assert Bit(es[i].aperMask, k) == 1;
      }
    }
  }

  /** The mask of one entry, as the innermost loop of `compute_aper_mask`
      builds it from `get_master_by_smrw`. */
  method EntryMask(x: Xppu.Xppu, mids: seq<MidEntry>, rw: nat) returns (mask: nat)
    ensures mask == AperMaskOf(x.masters, mids, rw)
  {
    var qs := SmrwQueries(mids, rw);
    mask := 0;
    for j := 0 to |mids|
      invariant mask == MaskOver(x.masters, qs[..j])
    {
      var idx := x.GetMasterBySmrw(mids[j].smid, mids[j].mask, rw);
      SlotUnique(x.masters, qs[j], idx);
      assert qs[..j + 1][..j] == qs[..j];
      if idx.Some? {
        mask := Or(mask, Shl(1, idx.value));
      }
    }
    assert qs[..|mids|] == qs;
  }

  /** The entry loop of `compute_aper_mask` for one subsystem. */
  method MaskEntries(x: Xppu.Xppu, entries: seq<FtbEntry>) returns (out: seq<FtbEntry>)
    ensures out == MaskedEntries(entries, x.masters)
  {
    out := [];
    for i := 0 to |entries|
      invariant |out| == i
      invariant forall k | 0 <= k < i ::
        out[k] == entries[k].(aperMask := AperMaskOf(x.masters, entries[k].midList, entries[k].rw))
    {
      var mask := EntryMask(x, entries[i].midList, entries[i].rw);
      out := out + [entries[i].(aperMask := mask)];
    }
  }

  /** Computing the masks keeps every entry where it was filed, with its
      priority. */
  lemma MaskedFiled(t: Table, ms: seq<Option<Xppu.MasterId>>)
    requires Filed(t)
    ensures Filed(MaskedTable(t, ms))
  {
    forall sid, i | sid in MaskedTable(t, ms) && 0 <= i < |MaskedTable(t, ms)[sid]|
      ensures MaskedTable(t, ms)[sid][i].subsystemId == sid && MaskedTable(t, ms)[sid][i].priority != 0
    {
      assert MaskedTable(t, ms)[sid][i].subsystemId == t[sid][i].subsystemId;
    }
  }

  /** The subsystem/domain mask of one XPPU: the OR of `1 << idx` over the
      slots of the SMIDs, or TypeError (`1 << None`) when an SMID has no
      slot. */
  function SsMask(ms: seq<Option<Xppu.MasterId>>, mids: seq<nat>): Result<nat>
  {
    if forall j | 0 <= j < |mids| :: FirstSlot(ms, BySmid(mids[j])).Some?
    then Ok(MaskOver(ms, SmidQueries(mids)))
    else Err(TypeError)
  }

  function SmidQueries(mids: seq<nat>): (qs: seq<Query>)
    ensures |qs| == |mids|
    ensures forall j | 0 <= j < |mids| :: qs[j] == BySmid(mids[j])
  {
    seq(|mids|, j requires 0 <= j < |mids| => BySmid(mids[j]))
  }

  /** Bit k of a derived mask is set exactly when one of the SMIDs is the
      master in slot k. */
  lemma SsMaskBits(ms: seq<Option<Xppu.MasterId>>, mids: seq<nat>, k: nat)
    requires SsMask(ms, mids).Ok?
    ensures Bit(SsMask(ms, mids).value, k) == 1 <==>
      exists j :: 0 <= j < |mids| && FirstSlot(ms, BySmid(mids[j])) == Some(k)
  {
    var qs := SmidQueries(mids);
    MaskOverBits(ms, qs, k);
    if Bit(SsMask(ms, mids).value, k) == 1 {
      var j :| 0 <= j < |qs| && FirstSlot(ms, qs[j]) == Some(k);
      assert FirstSlot(ms, BySmid(mids[j])) == Some(k);
    }
    if exists j :: 0 <= j < |mids| && FirstSlot(ms, BySmid(mids[j])) == Some(k) {
      var j :| 0 <= j < |mids| && FirstSlot(ms, BySmid(mids[j])) == Some(k);
      assert FirstSlot(ms, qs[j]) == Some(k);
    }
  }

  /** The inner loop of `derive_ss_mask` for one XPPU. */
  method SmidMask(x: Xppu.Xppu, mids: seq<nat>) returns (r: Result<nat>)
    ensures r == SsMask(x.masters, mids)
  {
    var qs := SmidQueries(mids);
    var mask: nat := 0;
    for j := 0 to |mids|
      invariant mask == MaskOver(x.masters, qs[..j])
      invariant forall i | 0 <= i < j :: FirstSlot(x.masters, BySmid(mids[i])).Some?
    {
      var idx := x.GetMasterBySmid(mids[j]);
      SlotUnique(x.masters, qs[j], idx);
      if idx.None? {
        return Err(TypeError);
      }
      assert qs[..j + 1][..j] == qs[..j];
      mask := Or(mask, Shl(1, idx.value));
    }
    assert qs[..|mids|] == qs;
    return Ok(mask);
  }

  // ---------------------------------------------------------------------
  // Modules behind a firewall

  /** `ModuleNode`: a module protected by a firewall, its cached ranges,
      its PM labels and its FTB entries (`ftb_entries` and, for custom
      configurations, `ftb_entries_in`). */
  class ModuleNode {
    const name: string
    /** The node's property values; a property the node lacks is absent. */
    const props: map<string, seq<nat>>
    var reg: seq<(nat, nat)>
    var pm: set<string>
    var ftbEntries: Table
    var ftbEntriesIn: Table

    ghost predicate Valid()
      reads this
    {
      Filed(ftbEntries) && Filed(ftbEntriesIn)
    }

    constructor (name: string, props: map<string, seq<nat>>)
      ensures this.name == name && this.props == props
      ensures reg == [] && pm == {} && ftbEntries == map[] && ftbEntriesIn == map[]
      ensures Valid()
    {
      this.name := name;
      this.props := props;
      reg := [];
      pm := {};
      ftbEntries := map[];
      ftbEntriesIn := map[];
    }

    /** `node.propval(prop)`, None for a missing property. */
    function PropVal(prop: string): Option<seq<nat>>
    {
      if prop in props then Some(props[prop]) else None
    }

    /** `get_base_and_size(prop)`: the cached ranges when there are any
        (whatever prop is asked for), otherwise the ranges of the
        property, which become the cache. */
    method GetBaseAndSize(prop: string) returns (r: seq<(nat, nat)>)
      modifies this`reg
      ensures reg == r
      ensures old(reg) != [] ==> r == old(reg)
      ensures old(reg) == [] ==> r == BaseAndSize(PropVal(prop))
    {
      if reg != [] {
        return reg;
      }
      var v := PropVal(prop);
      if v.None? {
        reg := reg + [DEFVAL];
        return reg;
      }
      var cells := v.value;
      if |cells| % 4 != 0 && |cells| % 2 != 0 {
        reg := reg + [DEFVAL];
        return reg;
      }
      if |cells| % 4 == 0 {
        var rest := cells;
        while |rest| > 0
          invariant |rest| % 4 == 0
          invariant reg + QuadPairs(rest) == QuadPairs(cells)
          decreases |rest|
        {
          var addr := Or(Shl(rest[0], 32), rest[1]);
          var size := Or(Shl(rest[2], 32), rest[3]);
          QuadStep(reg, rest, cells, addr, size);
          reg := reg + [(addr, size)];
          rest := rest[4..];
        }
      } else {
        var rest := cells;
        while |rest| > 0
          invariant |rest| % 2 == 0
          invariant reg + DuoPairs(rest) == DuoPairs(cells)
          decreases |rest|
        {
          var addr := rest[0];
          var size := rest[1];
          DuoStep(reg, rest, cells);
          reg := reg + [(addr, size)];
          rest := rest[2..];
        }
      }
      return reg;
    }

    /** `add_ftb_entry`: appends an entry for the module's range to the
        subsystem's list (created when missing), with priority 0 stored
        as 10; a non-zero `custom` selects `ftb_entries_in`. */
    method AddFtbEntry(subsystemId: nat, moduleName: string, baseAddr: nat, size: nat, rw: nat, tz: nat,
                       priority: int, midList: seq<MidEntry>, pmName: string, custom: int)
      requires Valid()
      modifies this`ftbEntries, this`ftbEntriesIn
      ensures Valid()
      ensures custom != 0 ==> ftbEntriesIn == Appended(old(ftbEntriesIn),
        FtbEntry(subsystemId, baseAddr, size, rw, tz, midList, moduleName, pmName, Priority(priority), 0))
      ensures custom != 0 ==> ftbEntries == old(ftbEntries)
      ensures custom == 0 ==> ftbEntries == Appended(old(ftbEntries),
        FtbEntry(subsystemId, baseAddr, size, rw, tz, midList, moduleName, pmName, Priority(priority), 0))
      ensures custom == 0 ==> ftbEntriesIn == old(ftbEntriesIn)
    {
      var ents := if custom != 0 then ftbEntriesIn else ftbEntries;
      if subsystemId !in ents {
        ents := ents[subsystemId := []];
      }
      var p := priority;
      if p == 0 {
        p := 10;
      }
      var entry := FtbEntry(subsystemId, baseAddr, size, rw, tz, midList, moduleName, pmName, p, 0);
      ents := ents[subsystemId := ents[subsystemId] + [entry]];
      if custom != 0 {
        ftbEntriesIn := ents;
      } else {
        ftbEntries := ents;
      }
    }

    /** `compute_aper_mask(x_inst, custom)`: stores in every entry of the
        selected table the mask of the master slots its master ids match
        in the XPPU. */
    method ComputeAperMask(x: Xppu.Xppu, custom: int)
      requires Valid()
      modifies this`ftbEntries, this`ftbEntriesIn
      ensures Valid()
      ensures custom != 0 ==> ftbEntriesIn == MaskedTable(old(ftbEntriesIn), x.masters)
      ensures custom != 0 ==> ftbEntries == old(ftbEntries)
      ensures custom == 0 ==> ftbEntries == MaskedTable(old(ftbEntries), x.masters)
      ensures custom == 0 ==> ftbEntriesIn == old(ftbEntriesIn)
    {
      var t := if custom != 0 then ftbEntriesIn else ftbEntries;
      var r := t;
      var todo := t.Keys;
      while todo != {}
        invariant todo <= t.Keys && r.Keys == t.Keys
        invariant forall sid | sid in t :: r[sid] == if sid in todo then t[sid] else MaskedEntries(t[sid], x.masters)
        invariant ftbEntries == old(ftbEntries) && ftbEntriesIn == old(ftbEntriesIn)
        decreases |todo|
      {
        var sid :| sid in todo;
        var out := MaskEntries(x, t[sid]);
        r := r[sid := out];
        todo := todo - {sid};
      }
      assert r == MaskedTable(t, x.masters);
      MaskedFiled(t, x.masters);
      if custom != 0 {
        ftbEntriesIn := r;
      } else {
        ftbEntries := r;
      }
    }

    /** `set_default_mask_for_xppu(x_inst, custom)`: when the PMC subsystem
        has entries, the XPPU's default aperture becomes the OR of their
        masks; otherwise nothing changes. */
    method SetDefaultMaskForXppu(x: Xppu.Xppu, custom: int)
      modifies x`defApermask
      ensures var t := if custom != 0 then ftbEntriesIn else ftbEntries;
        x.defApermask == if PMC_SUBSYSTEM in t then OrMasks(t[PMC_SUBSYSTEM]) else old(x.defApermask)
    {
      var t := if custom != 0 then ftbEntriesIn else ftbEntries;
      if PMC_SUBSYSTEM !in t {
        return;
      }
      var entries := t[PMC_SUBSYSTEM];
      var mask: nat := 0;
      for i := 0 to |entries|
        invariant mask == OrMasks(entries[..i])
      {
        assert entries[..i + 1][..i] == entries[..i];
        mask := Or(mask, entries[i].aperMask);
      }
      assert entries[..|entries|] == entries;
      x.SetDefaultAperture(mask);
    }

    /** `get_aperture(subsystem_id, custom)`. */
    method GetAperture(subsystemId: nat, custom: int) returns (mask: nat)
      ensures mask == ApertureOf(if custom != 0 then ftbEntriesIn else ftbEntries, subsystemId)
    {
      var t := if custom != 0 then ftbEntriesIn else ftbEntries;
      mask := 0;
      if subsystemId !in t {
        return mask;
      }
      var entries := t[subsystemId];
      for i := 0 to |entries|
        invariant mask == OrMasks(entries[..i])
      {
        assert entries[..i + 1][..i] == entries[..i];
        mask := Or(mask, entries[i].aperMask);
      }
      assert entries[..|entries|] == entries;
    }
  }

  // ---------------------------------------------------------------------
  // Memory nodes

  /** A firewall configuration: rule lists under "allow" and "block"
      (and possibly other keys); each rule is kept as an opaque text. */
  type FwConfig = map<string, seq<string>>

  /** `MemNode`: a memory range, the XMPUs it sits behind, its firewall
      configuration and its FTB entries. The range never changes. */
  class MemNode {
    const addr: nat
    const size: nat
    var fwParents: seq<string>
    var fwConfig: FwConfig
    var ftbEntries: Table
    var ftbEntriesIn: Table

    ghost predicate Valid()
      reads this
    {
      Filed(ftbEntries) && Filed(ftbEntriesIn)
    }

    constructor (addr: nat, size: nat)
      ensures this.addr == addr && this.size == size
      ensures fwParents == [] && fwConfig == map[] && ftbEntries == map[] && ftbEntriesIn == map[]
      ensures Valid()
    {
      this.addr := addr;
      this.size := size;
      fwParents := [];
      fwConfig := map[];
      ftbEntries := map[];
      ftbEntriesIn := map[];
    }

    /** `add_ftb_entry`: as for a module, over this node's own range, with
        the module tag as the entry's module name and no PM tag. */
    method AddFtbEntry(subsystemId: nat, rw: nat, tz: nat, priority: int, midList: seq<MidEntry>,
                       moduleTag: string, custom: int)
      requires Valid()
      modifies this`ftbEntries, this`ftbEntriesIn
      ensures Valid()
      ensures custom != 0 ==> ftbEntriesIn == Appended(old(ftbEntriesIn),
        FtbEntry(subsystemId, addr, size, rw, tz, midList, moduleTag, "", Priority(priority), 0))
      ensures custom != 0 ==> ftbEntries == old(ftbEntries)
      ensures custom == 0 ==> ftbEntries == Appended(old(ftbEntries),
        FtbEntry(subsystemId, addr, size, rw, tz, midList, moduleTag, "", Priority(priority), 0))
      ensures custom == 0 ==> ftbEntriesIn == old(ftbEntriesIn)
    {
      var ents := if custom != 0 then ftbEntriesIn else ftbEntries;
      if subsystemId !in ents {
        ents := ents[subsystemId := []];
      }
      var p := priority;
      if p == 0 {
        p := 10;
      }
      var entry := FtbEntry(subsystemId, addr, size, rw, tz, midList, moduleTag, "", p, 0);
      ents := ents[subsystemId := ents[subsystemId] + [entry]];
      if custom != 0 {
        ftbEntriesIn := ents;
      } else {
        ftbEntries := ents;
      }
    }

    /** The merge loop of `add_to_mem_map`: for "allow" and then "block",
        each rule of the new configuration is appended to the node's list
        for that key; a KeyError stops the loop. */
    method MergeConfig(conf: FwConfig) returns (err: Option<Error>)
      modifies this`fwConfig
      ensures fwConfig == Merged(old(fwConfig), conf).config
      ensures err == Merged(old(fwConfig), conf).error
    {
      var keys := ["allow", "block"];
      for k := 0 to 2
        invariant k >= 1 ==> MergeKey(old(fwConfig), conf, "allow").Ok?
        invariant k == 2 ==> MergeKey(MergeKey(old(fwConfig), conf, "allow").value, conf, "block").Ok?
        invariant fwConfig == if k == 0 then old(fwConfig)
          else if k == 1 then MergeKey(old(fwConfig), conf, "allow").value
          else MergeKey(MergeKey(old(fwConfig), conf, "allow").value, conf, "block").value
      {
        var key := keys[k];
        var start := fwConfig;
        if key !in conf {
          return Some(KeyError);
        }
        var items := conf[key];
        for j := 0 to |items|
          invariant j == 0 ==> fwConfig == start
          invariant j > 0 ==> key in start && fwConfig == start[key := start[key] + items[..j]]
        {
          if key !in fwConfig {
            return Some(KeyError);
          }
          var v := fwConfig[key] + [items[j]];
          assert v == start[key] + items[..j + 1] by {
            assert items[..j + 1] == items[..j] + [items[j]];
          }
          assert fwConfig[key := v] == start[key := v];
          fwConfig := fwConfig[key := fwConfig[key] + [items[j]]];
        }
        assert items[..|items|] == items;
      }
      return None;
    }
  }

  /** The first memory node with the given range. */
  function FindNode(nodes: seq<MemNode>, addr: nat, size: nat): (r: Option<nat>)
    ensures r.Some? ==> r.value < |nodes| && nodes[r.value].addr == addr && nodes[r.value].size == size
    ensures r.None? ==> forall i | 0 <= i < |nodes| :: nodes[i].addr != addr || nodes[i].size != size
    decreases |nodes|
  {
    if |nodes| == 0 then None
    else if nodes[0].addr == addr && nodes[0].size == size then Some(0)
    else
      match FindNode(nodes[1..], addr, size)
      case None => None
      case Some(i) => Some(i + 1)
  }

  /** A merged configuration, and the KeyError that stopped the merge. */
  datatype Merge = Merge(config: FwConfig, error: Option<Error>)

  /** Appending the rules of one key: KeyError when the new configuration
      lacks the key, or when it has rules for it and the node's
      configuration lacks the key. */
  function MergeKey(cur: FwConfig, conf: FwConfig, key: string): Result<FwConfig>
  {
    if key !in conf then Err(KeyError)
    else if |conf[key]| == 0 then Ok(cur)
    else if key !in cur then Err(KeyError)
    else Ok(cur[key := cur[key] + conf[key]])
  }

  /** The "allow" rules, then the "block" rules; a KeyError on "block"
      leaves the "allow" rules appended. */
  function Merged(cur: FwConfig, conf: FwConfig): Merge
  {
    match MergeKey(cur, conf, "allow")
    case Err(e) => Merge(cur, Some(e))
    case Ok(a) =>
      match MergeKey(a, conf, "block")
      case Err(e) => Merge(a, Some(e))
      case Ok(b) => Merge(b, None)
  }

  /** A merge succeeds exactly when both keys are in the new configuration
      and every key with rules to append is in the node's; it never drops
      a key or a rule, and on success each list ends with the new rules. */
  lemma MergedMeaning(cur: FwConfig, conf: FwConfig)
    ensures Merged(cur, conf).error.None? <==>
      "allow" in conf && "block" in conf &&
      (conf["allow"] != [] ==> "allow" in cur) && (conf["block"] != [] ==> "block" in cur)
    ensures Merged(cur, conf).config.Keys == cur.Keys
    ensures forall key | key in cur :: cur[key] <= Merged(cur, conf).config[key]
    ensures Merged(cur, conf).error.None? ==>
      forall key | key in cur ::
        Merged(cur, conf).config[key] == cur[key] + (if key == "allow" || key == "block" then conf[key] else [])
  {
    assert "allow" != "block";
  }

  // ---------------------------------------------------------------------
  // The protection map

  /** The hardware instance behind a firewall node; the XMPU instance is
      not consulted by the operations here. */
  datatype Hw = NoHw | XppuHw(x: Xppu.Xppu) | XmpuHw

  /** `FirewallNode(name, node, compat)`. */
  datatype FirewallNode = FirewallNode(name: string, compat: string, hw: Hw)

  /** The SMIDs of a subsystem's bus masters: `[n[1] for n in ...]`. */
  function Smids(busMids: seq<(string, nat)>): (r: seq<nat>)
    ensures |r| == |busMids|
    ensures forall i | 0 <= i < |busMids| :: r[i] == busMids[i].1
  {
    seq(|busMids|, i requires 0 <= i < |busMids| => busMids[i].1)
  }

  /** `FirewallToModuleMap`: the firewalls (`ppus`), the bus masters of
      each subsystem or domain (`ss_or_dom`, without the node) and the
      memory nodes. No two memory nodes share a range. */
  class FirewallToModuleMap {
    var ppus: map<string, FirewallNode>
    var ssOrDom: map<string, seq<(string, nat)>>
    var memoryNodes: seq<MemNode>

    ghost predicate DistinctRanges()
      reads this
    {
      forall i, j | 0 <= i < j < |memoryNodes| ::
        memoryNodes[i].addr != memoryNodes[j].addr || memoryNodes[i].size != memoryNodes[j].size
    }

    /** The map once the firewalls are registered (`add_firewall` is not
        part of this model) and before anything else is added. */
    constructor (ppus: map<string, FirewallNode>)
      ensures this.ppus == ppus && ssOrDom == map[] && memoryNodes == []
      ensures DistinctRanges()
    {
      this.ppus := ppus;
      ssOrDom := map[];
      memoryNodes := [];
    }

    /** `add_ss_to_bus_mids(name, node, bus_mid)`: appends the bus master
        to the subsystem's list, which is created when missing. */
    method AddSsToBusMids(name: string, busMid: (string, nat))
      modifies this`ssOrDom
      ensures ssOrDom == old(ssOrDom)[name := (if name in old(ssOrDom) then old(ssOrDom)[name] else []) + [busMid]]
    {
      if name !in ssOrDom {
        assert [] + [busMid] == [busMid];
        ssOrDom := ssOrDom[name := [busMid]];
      } else {
        ssOrDom := ssOrDom[name := ssOrDom[name] + [busMid]];
      }
    }

    /** The firewalls `derive_ss_mask` computes a mask for: those with a
        hardware instance whose compatible string is "xlnx,xppu". */
    function XppuNames(): set<string>
      reads this
    {
      set n | n in ppus && ppus[n].hw.XppuHw? && ppus[n].compat == "xlnx,xppu"
    }

    /** `derive_ss_mask(name)`: None for an unknown subsystem; otherwise,
        for every XPPU, the hex text of the OR of `1 << slot` over the
        subsystem's SMIDs; TypeError when some XPPU has no slot for one of
        them. */
    method DeriveSsMask(name: string) returns (r: Result<Option<map<string, string>>>)
      ensures name !in ssOrDom ==> r == Ok(None)
      ensures name in ssOrDom ==>
        (r.Ok? <==> forall n | n in XppuNames() :: SsMask(ppus[n].hw.x.masters, Smids(ssOrDom[name])).Ok?)
      ensures r.Err? ==> r.error == TypeError
      ensures name in ssOrDom && r.Ok? ==>
        r.value.Some? && r.value.value.Keys == XppuNames() &&
        forall n | n in XppuNames() ::
          r.value.value[n] == Xppu.Hex(SsMask(ppus[n].hw.x.masters, Smids(ssOrDom[name])).value)
    {
      if name !in ssOrDom {
        return Ok(None);
      }
      var mids := Smids(ssOrDom[name]);
      var names := XppuNames();
      var out: map<string, string> := map[];
      var todo := names;
      while todo != {}
        invariant todo <= names && out.Keys == names - todo
        invariant forall n | n in out ::
          SsMask(ppus[n].hw.x.masters, mids).Ok? && out[n] == Xppu.Hex(SsMask(ppus[n].hw.x.masters, mids).value)
        decreases |todo|
      {
        var n :| n in todo;
        var m := SmidMask(ppus[n].hw.x, mids);
        if m.Err? {
          return Err(TypeError);
        }
        out := out[n := Xppu.Hex(m.value)];
        todo := todo - {n};
      }
      return Ok(Some(out));
    }

    /** `add_to_mem_map(addr, size, fw_conf)`: the memory node with this
        range gets the new configuration's "allow" and "block" rules
        appended; when there is none, a new node with a copy of the
        configuration and the given parent XMPUs is appended. */
    method AddToMemMap(addr: nat, size: nat, fwConf: FwConfig, parents: seq<string>) returns (r: Result<MemNode>)
      requires DistinctRanges()
      modifies this`memoryNodes, memoryNodes
      ensures DistinctRanges()
      ensures FindNode(old(memoryNodes), addr, size).None? ==>
        r.Ok? && fresh(r.value) && memoryNodes == old(memoryNodes) + [r.value] &&
        r.value.addr == addr && r.value.size == size &&
        r.value.fwConfig == fwConf && r.value.fwParents == parents &&
        r.value.ftbEntries == map[] && r.value.ftbEntriesIn == map[]
      ensures FindNode(old(memoryNodes), addr, size).Some? ==>
        var n := old(memoryNodes)[FindNode(old(memoryNodes), addr, size).value];
        memoryNodes == old(memoryNodes) &&
        n.fwConfig == Merged(old(n.fwConfig), fwConf).config &&
        r == (if Merged(old(n.fwConfig), fwConf).error.Some?
              then Err(Merged(old(n.fwConfig), fwConf).error.value) else Ok(n)) &&
        n.fwParents == old(n.fwParents) && n.ftbEntries == old(n.ftbEntries) &&
        n.ftbEntriesIn == old(n.ftbEntriesIn)
      ensures forall m | m in old(memoryNodes) && (m.addr != addr || m.size != size) :: unchanged(m)
    {
      var found := FindNode(memoryNodes, addr, size);
      var i := 0;
      while i < |memoryNodes|
        invariant i <= |memoryNodes|
        invariant forall j | 0 <= j < i :: memoryNodes[j].addr != addr || memoryNodes[j].size != size
      {
        if memoryNodes[i].addr == addr && memoryNodes[i].size == size {
          break;
        }
        i := i + 1;
      }
      if i == |memoryNodes| {
        var node := new MemNode(addr, size);
        node.fwConfig := fwConf;
        node.fwParents := parents;
        memoryNodes := memoryNodes + [node];
        return Ok(node);
      }
      var node := memoryNodes[i];
      assert found == Some(i);
      var err := node.MergeConfig(fwConf);
      if err.Some? {
        return Err(err.value);
      }
      return Ok(node);
    }
  }
}
