/** The Xilinx subsystem assist (lopper/assists/xlnx/subsystem.py): it
    names each subsystem, turns a node's flag names into references into
    the subsystem's `flags` table, decides how devices that several
    subsystems claim are shared, and writes each device's power-management
    requirement words. Subsystems are kept in an array of records and the
    passes update the records in place, as the assist updates its
    `Subsystem` and `Device` objects. */
module XlnxSubsystem {
  import opened Common
  import opened Bits

  // ---------------------------------------------------------------------
  // get_sub_id_and_str

  /** Node id base of a subsystem: `0x1C000000`. */
  const SUBSYSTEM_ID_BASE: nat := 0x1C00_0000

  /** `get_sub_id_and_str`: the name "subsystem_<id>" and the node id
      `0x1C000000 | id`. */
  function SubIdAndStr(id: nat): (string, nat)
  {
    ("subsystem_" + NatToDecimal(id), Or(SUBSYSTEM_ID_BASE, id))
  }

  lemma BaseBits(k: nat)
    ensures Bit(SUBSYSTEM_ID_BASE, k) == if 26 <= k <= 28 then 1 else 0
  {
    assert Pow2(8) == 0x100;
    assert Pow2(16) == 0x1_0000;
    assert Pow2(26) == 0x400_0000 by {
      PowAdd(16, 10);
    }
    assert SUBSYSTEM_ID_BASE == Shl(Pow2(3) - 1, 26);
    ShlBit(Pow2(3) - 1, 26, k);
    if k >= 26 {
      LowMaskBits(3, k - 26);
    }
  }

  /** The subsystem node id carries bits 26 to 28 and, elsewhere, the
      bits of the id. */
  lemma SubIdBits(id: nat, k: nat)
    ensures Bit(SubIdAndStr(id).1, k) == if 26 <= k <= 28 then 1 else Bit(id, k)
  {
    OrBit(SUBSYSTEM_ID_BASE, id, k);
    BaseBits(k);
  }

  /** An id below 2^26 is added to the base unchanged. */
  lemma SubIdSmall(id: nat)
    requires id < 0x400_0000
    ensures SubIdAndStr(id).1 == SUBSYSTEM_ID_BASE + id
  {
    assert Pow2(8) == 0x100;
    assert Pow2(16) == 0x1_0000;
    assert Pow2(26) == 0x400_0000 by {
      PowAdd(16, 10);
    }
    forall k: nat ensures Bit(SUBSYSTEM_ID_BASE, k) == 0 || Bit(id, k) == 0 {
      BaseBits(k);
      if k >= 26 {
        SmallBits(id, 26, k);
      }
    }
    OrDisjoint(SUBSYSTEM_ID_BASE, id);
  }

  // ---------------------------------------------------------------------
  // usage_no_restrictions, prelim_flag_processing

  /** `usage_no_restrictions`: the node's `firewallconf-default` exists
      (a missing property reads as `[""]`) and both its cells are 0. */
  function UsageNoRestrictions(fw: seq<PVal>): (r: Result<bool>)
    ensures r == Ok(true) <==> |fw| >= 2 && fw[0] == Num(0) && fw[1] == Num(0)
    ensures r.Err? <==> |fw| == 0 || (|fw| == 1 && fw[0] == Num(0))
    ensures r.Err? ==> r.error == IndexError
  {
    if fw == [Str("")] then Ok(false)
    else if |fw| == 0 then Err(IndexError)
    else if fw[0] != Num(0) then Ok(false)
    else if |fw| == 1 then Err(IndexError)
    else Ok(fw[1] == Num(0))
  }

  /** `s.split("::")[0]`: the part of s before the first "::". */
  function FlagName(s: string): (r: string)
    ensures |r| <= |s| && r == s[..|r|]
    ensures forall i | 0 <= i < |r| && i + 1 < |s| :: !(s[i] == ':' && s[i + 1] == ':')
    ensures |r| < |s| ==> |r| + 2 <= |s| && s[|r|] == ':' && s[|r| + 1] == ':'
    decreases |s|
  {
    if |s| < 2 then s
    else if s[0] == ':' && s[1] == ':' then ""
    else [s[0]] + FlagName(s[1..])
  }

  /** s holds no "::". */
  predicate NoSep(s: string)
  {
    forall i | 0 <= i < |s| - 1 :: !(s[i] == ':' && s[i + 1] == ':')
  }

  /** A name without "::" is its own flag name. */
  lemma FlagNamePlain(a: string)
    requires NoSep(a)
    ensures FlagName(a) == a
  {
    var r := FlagName(a);
    if |r| < |a| {
      assert false;
    }
  }

  /** The flag name of `a + "::" + b` is a, when a holds no "::" and does
      not end in ':'. */
  lemma FlagNameSuffixed(a: string, b: string)
    requires NoSep(a) && (|a| == 0 || a[|a| - 1] != ':')
    ensures FlagName(a + "::" + b) == a
  {
    var s := a + "::" + b;
    var r := FlagName(s);
    assert s[|a|] == ':' && s[|a| + 1] == ':';
    if |r| < |a| {
      assert false;
    } else if |r| > |a| {
      assert false;
    }
    assert s[..|a|] == a;
  }

  const NO_RESTRICTIONS_SUFFIX: string := "::no-restrictions"

  /** `prelim_flag_processing`: the node's flags name (the first of
      `<prefix>-flags-names`, "default" when the property is missing),
      suffixed with "::no-restrictions" when the node is unrestricted, and
      the raw name alone. */
  function PrelimFlagProcessing(names: seq<string>, fw: seq<PVal>): (r: Result<(string, seq<string>)>)
    ensures r.Err? <==> (names != [""] && |names| == 0) || UsageNoRestrictions(fw).Err?
  {
    if names != [""] && |names| == 0 then Err(IndexError)
    else
      var flags := if names == [""] then "default" else names[0];
      match UsageNoRestrictions(fw)
      case Err(e) => Err(e)
      case Ok(unrestricted) =>
        Ok((if unrestricted then flags + NO_RESTRICTIONS_SUFFIX else flags, [flags]))
  }

  /** "default" holds no "::" and does not end in ':'. */
  lemma DefaultPlain()
    ensures NoSep("default") && "default"[6] != ':'
  {
  }

  /** The flags name splits back into the raw name, and it carries the
      no-restrictions suffix exactly when the node is unrestricted. */
  lemma PrelimFlagsRoundTrip(names: seq<string>, fw: seq<PVal>, raw0: string)
    requires PrelimFlagProcessing(names, fw).Ok?
    requires raw0 == if names == [""] then "default" else names[0]
    requires NoSep(raw0) && (|raw0| == 0 || raw0[|raw0| - 1] != ':')
    ensures PrelimFlagProcessing(names, fw).value.1 == [raw0]
    ensures FlagName(PrelimFlagProcessing(names, fw).value.0) == raw0
    ensures PrelimFlagProcessing(names, fw).value.0 != raw0 <==> UsageNoRestrictions(fw) == Ok(true)
  {
    var flags := PrelimFlagProcessing(names, fw).value.0;
    if UsageNoRestrictions(fw) == Ok(true) {
      assert flags == raw0 + "::" + "no-restrictions";
      FlagNameSuffixed(raw0, "no-restrictions");
      assert |flags| > |raw0|;
    } else {
      assert flags == raw0;
      FlagNamePlain(raw0);
    }
  }

  // ---------------------------------------------------------------------
  // Subsystems and devices

  /** A device claimed by a subsystem: its PM node id, the flag names it
      was listed with, and its four requirement words. */
  datatype Device = Device(nodeId: nat, flags: seq<string>, pmReqs: seq<nat>)

  /** A subsystem: its node id, `flag_references` (flags name to four
      requirement words) and `dev_dict` in insertion order. */
  datatype Sub = Sub(subId: nat, flagRefs: map<string, seq<nat>>, devices: seq<Device>)

  /** `node_id in dev_dict` and the entry: the first device with that id. */
  function FindDevice(devs: seq<Device>, id: nat): (r: Option<nat>)
    ensures r.Some? ==> r.value < |devs| && devs[r.value].nodeId == id
    ensures r.Some? ==> forall i | 0 <= i < r.value :: devs[i].nodeId != id
    ensures r.None? <==> forall i | 0 <= i < |devs| :: devs[i].nodeId != id
  {
    if |devs| == 0 then None
    else if devs[0].nodeId == id then Some(0)
    else match FindDevice(devs[1..], id)
      case None => None
      case Some(k) => Some(k + 1)
  }

  // ---------------------------------------------------------------------
  // construct_flag_references

  /** The references that `construct_flag_references` builds from name k
      on: the k-th name maps to flags[4k..4k+4]; a short table stops the
      pass with an IndexError, keeping the names stored before it. */
  function FlagRefsFrom(refs: map<string, seq<nat>>, flags: seq<nat>, names: seq<string>, k: nat)
    : (map<string, seq<nat>>, Option<Error>)
    requires k <= |names|
    decreases |names| - k
  {
    if k == |names| then (refs, None)
    else if 4 * k + 4 > |flags| then (refs, Some(IndexError))
    else FlagRefsFrom(refs[names[k] := flags[4 * k..4 * k + 4]], flags, names, k + 1)
  }

  /** Name j is not repeated after position j. */
  predicate LastOccurrence(names: seq<string>, j: nat)
    requires j < |names|
  {
    forall l | j < l < |names| :: names[l] != names[j]
  }

  /** With a table of four words per name, the pass succeeds; the keys are
      the old keys and the names, each name maps to the words of its last
      occurrence, and other keys keep their words. */
  lemma {:induction false} FlagRefsEntries(refs: map<string, seq<nat>>, flags: seq<nat>, names: seq<string>, k: nat)
    requires k <= |names| && 4 * |names| <= |flags|
    ensures FlagRefsFrom(refs, flags, names, k).1 == None
    ensures var m := FlagRefsFrom(refs, flags, names, k).0;
      && (forall n :: n in m <==> n in refs || n in names[k..])
      && (forall j | k <= j < |names| && LastOccurrence(names, j) :: m[names[j]] == flags[4 * j..4 * j + 4])
      && (forall n | n in refs && n !in names[k..] :: m[n] == refs[n])
    decreases |names| - k
  {
    if k < |names| {
      var refs' := refs[names[k] := flags[4 * k..4 * k + 4]];
      FlagRefsEntries(refs', flags, names, k + 1);
      var m := FlagRefsFrom(refs, flags, names, k).0;
      assert m == FlagRefsFrom(refs', flags, names, k + 1).0;
      assert names[k..] == [names[k]] + names[k + 1..];
      forall j | k <= j < |names| && LastOccurrence(names, j)
        ensures m[names[j]] == flags[4 * j..4 * j + 4]
      {
        if j == k && names[k] !in names[k + 1..] {
          assert m[names[k]] == refs'[names[k]];
        }
      }
    }
  }

  /** A table shorter than four words per name stops with an IndexError. */
  lemma {:induction false} FlagRefsShort(refs: map<string, seq<nat>>, flags: seq<nat>, names: seq<string>, k: nat)
    requires k < |names| && 4 * |names| > |flags|
    ensures FlagRefsFrom(refs, flags, names, k).1 == Some(IndexError)
    decreases |names| - k
  {
    if 4 * k + 4 <= |flags| {
      FlagRefsShort(refs[names[k] := flags[4 * k..4 * k + 4]], flags, names, k + 1);
    }
  }

  /** `construct_flag_references(subsystem)`: fills subsystem si's
      `flag_references` from its `flags` and `flags-names` properties. */
  method ConstructFlagReferences(subs: array<Sub>, si: nat, flags: seq<nat>, names: seq<string>)
    returns (err: Option<Error>)
    requires si < subs.Length
    modifies subs
    ensures var (refs, e) := FlagRefsFrom(old(subs[si].flagRefs), flags, names, 0);
      err == e && subs[..] == old(subs[..])[si := old(subs[si]).(flagRefs := refs)]
  {
    for k := 0 to |names|
      invariant FlagRefsFrom(subs[si].flagRefs, flags, names, k) == FlagRefsFrom(old(subs[si].flagRefs), flags, names, 0)
      invariant subs[..] == old(subs[..])[si := old(subs[si]).(flagRefs := subs[si].flagRefs)]
    {
      var base := 4 * k;
      var refFlags: seq<nat> := [0, 0, 0, 0];
      for i := 0 to 4
        invariant |refFlags| == 4
        invariant 0 < i ==> base + i <= |flags|
        invariant forall j | 0 <= j < i :: refFlags[j] == flags[base + j]
      {
        if base + i >= |flags| {
          return Some(IndexError);
        }
        refFlags := refFlags[i := flags[base + i]];
      }
      assert base + 4 <= |flags|;
      assert refFlags == flags[base..base + 4];
      subs[si] := subs[si].(flagRefs := subs[si].flagRefs[names[k] := refFlags]);
    }
    return None;
  }

  // ---------------------------------------------------------------------
  // determine_inclusion

  /** The reference a flags entry selects in a subsystem: its flag name,
      or "default" when the name has no reference. */
  function RefFor(refs: map<string, seq<nat>>, flag: string): (r: Result<seq<nat>>)
    ensures r.Ok? <==> FlagName(flag) in refs || "default" in refs
    ensures r.Ok? ==> r.value == if FlagName(flag) in refs then refs[FlagName(flag)] else refs["default"]
    ensures r.Err? ==> r.error == KeyError
  {
    var key := if FlagName(flag) in refs then FlagName(flag) else "default";
    if key in refs then Ok(refs[key]) else Err(KeyError)
  }

  /** One flags entry folded into the inclusion word: `incMask` for an
      "include" entry, `accMask` for an "access" entry without "include". */
  function FlagStep(acc: nat, f: string, incMask: nat, accMask: nat): nat
  {
    var a := if Contains(f, "include") then Or(acc, incMask) else acc;
    if Contains(f, "access") && !Contains(f, "include") then Or(a, accMask) else a
  }

  function IncludeMask(flags: seq<string>, incMask: nat, accMask: nat, start: nat): nat
  {
    if |flags| == 0 then start
    else FlagStep(IncludeMask(flags[..|flags| - 1], incMask, accMask, start), flags[|flags| - 1], incMask, accMask)
  }

  predicate HasInclude(flags: seq<string>)
  {
    exists i | 0 <= i < |flags| :: Contains(flags[i], "include")
  }

  predicate HasAccessOnly(flags: seq<string>)
  {
    exists i | 0 <= i < |flags| :: Contains(flags[i], "access") && !Contains(flags[i], "include")
  }

  /** Bit a of the folded word records an "include" entry, bit b an
      access-only entry; other bits come from the start word. */
  lemma {:induction false} IncludeMaskBit(flags: seq<string>, a: nat, b: nat, start: nat, k: nat)
    requires a != b
    ensures Bit(IncludeMask(flags, Pow2(a), Pow2(b), start), k) == 1 <==>
      Bit(start, k) == 1 || (k == a && HasInclude(flags)) || (k == b && HasAccessOnly(flags))
    decreases |flags|
  {
    if |flags| > 0 {
      var init := flags[..|flags| - 1];
      var f := flags[|flags| - 1];
      var acc := IncludeMask(init, Pow2(a), Pow2(b), start);
      IncludeMaskBit(init, a, b, start, k);
      var a1 := if Contains(f, "include") then Or(acc, Pow2(a)) else acc;
      OrBit(acc, Pow2(a), k);
      OrBit(a1, Pow2(b), k);
      BitPow2(a, k);
      BitPow2(b, k);
      assert HasInclude(flags) <==> HasInclude(init) || Contains(f, "include") by {
        if HasInclude(flags) {
          var i :| 0 <= i < |flags| && Contains(flags[i], "include");
          if i < |init| {
            assert init[i] == flags[i];
          }
        }
        if HasInclude(init) {
          var i :| 0 <= i < |init| && Contains(init[i], "include");
          assert flags[i] == init[i];
        }
      }
      assert HasAccessOnly(flags) <==> HasAccessOnly(init) || (Contains(f, "access") && !Contains(f, "include")) by {
        if HasAccessOnly(flags) {
          var i :| 0 <= i < |flags| && Contains(flags[i], "access") && !Contains(flags[i], "include");
          if i < |init| {
            assert init[i] == flags[i];
          }
        }
        if HasAccessOnly(init) {
          var i :| 0 <= i < |init| && Contains(init[i], "access") && !Contains(init[i], "include");
          assert flags[i] == init[i];
        }
      }
    }
  }

  /** Whether a reference marks time sharing: `ref[0] & 3 == 3`. */
  function Timeshared(r: seq<nat>): bool
    requires |r| > 0
  {
    And(r[0], 3) == 3
  }

  /** The inclusion word once both references are found: bits 0 and 1 for
      the device's own entries, 3 and 2 for the other device's, 4 and 5 for
      time sharing in the two references. */
  function InclusionWord(devFlags: seq<string>, otherFlags: seq<string>, ownRef: seq<nat>, otherRef: seq<nat>)
    : Result<nat>
  {
    var inc := IncludeMask(otherFlags, 8, 4, IncludeMask(devFlags, 1, 2, 0));
    if |ownRef| == 0 || |otherRef| == 0 then Err(IndexError)
    else
      var a := if Timeshared(ownRef) then Or(inc, 16) else inc;
      Ok(if Timeshared(otherRef) then Or(a, 32) else a)
  }

  /** `determine_inclusion` as written: the other subsystem's reference is
      looked up by the device's own flags name. */
  function InclusionOfAsWritten(devFlags: seq<string>, otherFlags: seq<string>,
                                subRefs: map<string, seq<nat>>, otherRefs: map<string, seq<nat>>): Result<nat>
  {
    if |devFlags| == 0 then Err(IndexError)
    else
      var own := RefFor(subRefs, devFlags[0]);
      var other := RefFor(otherRefs, devFlags[0]);
      if own.Err? then Err(own.error)
      else if other.Err? then Err(other.error)
      else InclusionWord(devFlags, otherFlags, own.value, other.value)
  }

  /** The flags entry that selects the other subsystem's reference: the
      other device's first entry; with no other device (the call with an
      empty list) the device's own. */
  function OtherKey(devFlags: seq<string>, otherFlags: seq<string>): string
    requires |devFlags| > 0
  {
    if |otherFlags| > 0 then otherFlags[0] else devFlags[0]
  }

  /** `determine_inclusion` with the other subsystem's time sharing taken
      from the other device's flags. */
  function InclusionOf(devFlags: seq<string>, otherFlags: seq<string>,
                       subRefs: map<string, seq<nat>>, otherRefs: map<string, seq<nat>>): Result<nat>
  {
    if |devFlags| == 0 then Err(IndexError)
    else
      var own := RefFor(subRefs, devFlags[0]);
      var other := RefFor(otherRefs, OtherKey(devFlags, otherFlags));
      if own.Err? then Err(own.error)
      else if other.Err? then Err(other.error)
      else InclusionWord(devFlags, otherFlags, own.value, other.value)
  }

  /** What each bit of the inclusion word records; no bit above 5 is set. */
  lemma InclusionBits(devFlags: seq<string>, otherFlags: seq<string>,
                      subRefs: map<string, seq<nat>>, otherRefs: map<string, seq<nat>>, k: nat)
    requires InclusionOf(devFlags, otherFlags, subRefs, otherRefs).Ok?
    ensures var v := InclusionOf(devFlags, otherFlags, subRefs, otherRefs).value;
      && |devFlags| > 0
      && (Bit(v, k) == 1 <==>
          || (k == 0 && HasInclude(devFlags))
          || (k == 1 && HasAccessOnly(devFlags))
          || (k == 2 && HasAccessOnly(otherFlags))
          || (k == 3 && HasInclude(otherFlags))
          || (k == 4 && Timeshared(RefFor(subRefs, devFlags[0]).value))
          || (k == 5 && Timeshared(RefFor(otherRefs, OtherKey(devFlags, otherFlags)).value)))
  {
    var ownRef := RefFor(subRefs, devFlags[0]).value;
    var otherRef := RefFor(otherRefs, OtherKey(devFlags, otherFlags)).value;
    assert Pow2(0) == 1 && Pow2(1) == 2 && Pow2(2) == 4 && Pow2(3) == 8 && Pow2(4) == 16 && Pow2(5) == 32;
    var own := IncludeMask(devFlags, 1, 2, 0);
    var inc := IncludeMask(otherFlags, 8, 4, own);
    ZeroBit(k);
    IncludeMaskBit(devFlags, 0, 1, 0, k);
    IncludeMaskBit(otherFlags, 3, 2, own, k);
    var a := if Timeshared(ownRef) then Or(inc, 16) else inc;
    OrBit(inc, 16, k);
    OrBit(a, 32, k);
    BitPow2(4, k);
    BitPow2(5, k);
  }

  /** `determine_inclusion(device_flags, other_device_flags, sub, other_sub)`. */
  method DetermineInclusion(devFlags: seq<string>, otherFlags: seq<string>,
                            subRefs: map<string, seq<nat>>, otherRefs: map<string, seq<nat>>)
    returns (r: Result<nat>)
    ensures r == InclusionOf(devFlags, otherFlags, subRefs, otherRefs)
  {
    if |devFlags| == 0 {
      return Err(IndexError);
    }
    var own := RefFor(subRefs, devFlags[0]);
    if own.Err? {
      return Err(own.error);
    }
    var other := RefFor(otherRefs, OtherKey(devFlags, otherFlags));
    if other.Err? {
      return Err(other.error);
    }
    var included := 0;
    for i := 0 to |devFlags|
      invariant included == IncludeMask(devFlags[..i], 1, 2, 0)
    {
      var f := devFlags[i];
      assert devFlags[..i + 1][..i] == devFlags[..i];
      if Contains(f, "include") {
        included := Or(included, 1);
      }
      if Contains(f, "access") && !Contains(f, "include") {
        included := Or(included, 2);
      }
    }
    assert devFlags[..|devFlags|] == devFlags;
    var start := included;
    for i := 0 to |otherFlags|
      invariant included == IncludeMask(otherFlags[..i], 8, 4, start)
    {
      var f := otherFlags[i];
      assert otherFlags[..i + 1][..i] == otherFlags[..i];
      if Contains(f, "include") {
        included := Or(included, 8);
      }
      if Contains(f, "access") && !Contains(f, "include") {
        included := Or(included, 4);
      }
    }
    assert otherFlags[..|otherFlags|] == otherFlags;
    if |own.value| == 0 || |other.value| == 0 {
      return Err(IndexError);
    }
    if And(own.value[0], 3) == 3 {
      included := Or(included, 16);
    }
    if And(other.value[0], 3) == 3 {
      included := Or(included, 32);
    }
    return Ok(included);
  }

  /** The as-written lookup misses a time-sharing mismatch: the device is
      listed as "ts" (time shared) in its subsystem and as "y" in the
      other, where "y" has no reference and selects the "default" one (not
      time shared); yet the word has both time-sharing bits, so the
      mismatch warning is not given. The corrected word has bit 4 alone. */
  lemma TimeshareMismatchExample(refs: map<string, seq<nat>>)
    requires refs == map["default" := [0, 0, 0, 0], "ts" := [3, 0, 0, 0]]
    ensures InclusionOfAsWritten(["ts"], ["y"], refs, refs) == Ok(48)
    ensures InclusionOf(["ts"], ["y"], refs, refs) == Ok(16)
  {
    ExampleLookups(refs);
    ExampleMask();
    assert And(3, 3) == 3;
    assert And(0, 3) == 0;
    assert Or(0, 16) == 16;
    assert Or(16, 32) == 48;
  }

  lemma ExampleLookups(refs: map<string, seq<nat>>)
    requires refs == map["default" := [0, 0, 0, 0], "ts" := [3, 0, 0, 0]]
    ensures RefFor(refs, "ts") == Ok([3, 0, 0, 0])
    ensures RefFor(refs, "y") == Ok([0, 0, 0, 0])
  {
    assert NoSep("ts") && NoSep("y");
    FlagNamePlain("ts");
    FlagNamePlain("y");
  }

  lemma ExampleMask()
    ensures IncludeMask(["ts"], 1, 2, 0) == 0
    ensures IncludeMask(["y"], 8, 4, 0) == 0
  {
    assert !Contains("ts", "include") && !Contains("ts", "access");
    assert !Contains("y", "include") && !Contains("y", "access");
    assert ["ts"][..0] == [];
    assert ["y"][..0] == [];
  }

  // ---------------------------------------------------------------------
  // set_dev_pm_reqs

  lemma MaskFcBits(k: nat)
    ensures Bit(0xFC, k) == if 2 <= k < 8 then 1 else 0
  {
    assert 0xFC == Shl(Pow2(6) - 1, 2);
    ShlBit(Pow2(6) - 1, 2, k);
    if k >= 2 {
      LowMaskBits(6, k - 2);
    }
  }

  /** Word 0 of the requirements for a usage: usage 0 keeps bits 2 to 7
      alone (`&= 0xFC`), any other usage is or-ed in. */
  function PmWord0(w: nat, usage: nat): (r: nat)
    ensures usage == 0 ==> forall k: nat :: Bit(r, k) == if 2 <= k < 8 then Bit(w, k) else 0
    ensures usage != 0 ==> forall k: nat :: Bit(r, k) == if Bit(w, k) == 1 || Bit(usage, k) == 1 then 1 else 0
  {
    forall k: nat ensures Bit(And(w, 0xFC), k) == if 2 <= k < 8 then Bit(w, k) else 0 {
      AndBit(w, 0xFC, k);
      MaskFcBits(k);
    }
    forall k: nat ensures Bit(Or(w, usage), k) == if Bit(w, k) == 1 || Bit(usage, k) == 1 then 1 else 0 {
      OrBit(w, usage, k);
    }
    if usage == 0 then And(w, 0xFC) else Or(w, usage)
  }

  /** Default XPPU aperture permissions written to word 1. */
  const DEFAULT_APERTURE: nat := 0xFFFFF

  /** `set_dev_pm_reqs(sub, device, usage)`: the device's requirements
      become a copy of the reference its first flags entry selects, word 0
      adjusted for the usage and word 1 the default aperture. A reference
      shorter than two words stops with an IndexError after the words
      already written. */
  function SetDevPmReqs(refs: map<string, seq<nat>>, d: Device, usage: nat): (r: (Device, Option<Error>))
    ensures r.0.nodeId == d.nodeId && r.0.flags == d.flags
  {
    if |d.flags| == 0 then (d, Some(IndexError))
    else match RefFor(refs, d.flags[0])
      case Err(e) => (d, Some(e))
      case Ok(ref) =>
        if |ref| == 0 then (d.(pmReqs := []), Some(IndexError))
        else if |ref| == 1 then (d.(pmReqs := [PmWord0(ref[0], usage)]), Some(IndexError))
        else (d.(pmReqs := [PmWord0(ref[0], usage), DEFAULT_APERTURE] + ref[2..]), None)
  }

  /** The requirement words: the reference's, with word 0 adjusted and
      word 1 the default aperture; it fails exactly when the device has
      no flags, no reference is found, or the reference is short. */
  lemma SetDevPmReqsWords(refs: map<string, seq<nat>>, d: Device, usage: nat)
    ensures var (d2, err) := SetDevPmReqs(refs, d, usage);
      && (err.None? <==> |d.flags| > 0 && RefFor(refs, d.flags[0]).Ok? && |RefFor(refs, d.flags[0]).value| >= 2)
      && (err.None? ==>
            var ref := RefFor(refs, d.flags[0]).value;
            && |d2.pmReqs| == |ref|
            && d2.pmReqs[0] == PmWord0(ref[0], usage)
            && d2.pmReqs[1] == DEFAULT_APERTURE
            && d2.pmReqs[2..] == ref[2..])
  {
  }

  // ---------------------------------------------------------------------
  // construct_pm_reqs

  /** The usage decided for one device, or a warning that ends the pass. */
  datatype Verdict = Usage(u: nat) | Warn

  /** One other subsystem j in the usage loop of `construct_pm_reqs`:
      `None` for a warning that ends the pass (an overlap with access
      entries, or a time-sharing mismatch), else the usage after it. An
      include-only overlap makes the device shared (1); a subsystem without
      the device makes it shared when the device alone includes it. */
  function UsageAt(s: seq<Sub>, si: nat, d: Device, j: nat, usage: nat): Result<Option<nat>>
    requires si < |s| && j < |s|
  {
    var od := FindDevice(s[j].devices, d.nodeId);
    var otherFlags := if od.Some? then s[j].devices[od.value].flags else [];
    match InclusionOf(d.flags, otherFlags, s[si].flagRefs, s[j].flagRefs)
    case Err(e) => Err(e)
    case Ok(inc) =>
      if od.Some? && And(inc, 6) != 0 then Ok(None)
      else if od.Some? && And(inc, 16) != 0 && And(inc, 32) == 0 then Ok(None)
      else
        var shared := if od.Some? then inc == 1 || inc == 8 || inc == 9 else inc == 1;
        Ok(Some(if shared then 1 else usage))
  }

  /** The usage loop of `construct_pm_reqs` over the other subsystems from
      j on. */
  function UsageFrom(s: seq<Sub>, si: nat, d: Device, j: nat, usage: nat): (r: Result<Verdict>)
    requires si < |s| && j <= |s|
    decreases |s| - j
  {
    if j == |s| then Ok(Usage(usage))
    else if j == si then UsageFrom(s, si, d, j + 1, usage)
    else match UsageAt(s, si, d, j, usage)
      case Err(e) => Err(e)
      case Ok(None) => Ok(Warn)
      case Ok(Some(u)) => UsageFrom(s, si, d, j + 1, u)
  }

  predicate HasNoRestrictions(flags: seq<string>)
  {
    exists i | 0 <= i < |flags| :: Contains(flags[i], "no-restrictions")
  }

  /** The usage of device d of subsystem si: non-shared (2) unless an
      overlap makes it shared; 0 when any of its entries is unrestricted. */
  function DeviceUsage(s: seq<Sub>, si: nat, d: Device): Result<Verdict>
    requires si < |s|
  {
    match UsageFrom(s, si, d, 0, 2)
    case Ok(Usage(u)) => Ok(Usage(if HasNoRestrictions(d.flags) then 0 else u))
    case other => other
  }

  /** Some subsystem other than si lists the node with an "include" entry. */
  predicate OtherIncludes(s: seq<Sub>, j: nat, id: nat)
    requires j < |s|
  {
    var od := FindDevice(s[j].devices, id);
    od.Some? && HasInclude(s[j].devices[od.value].flags)
  }

  /** One step keeps the usage or makes it 1, and only an "include"
      entry of the device or of the other subsystem's device makes it 1. */
  lemma UsageAtShared(s: seq<Sub>, si: nat, d: Device, j: nat, usage: nat)
    requires si < |s| && j < |s|
    requires UsageAt(s, si, d, j, usage).Ok? && UsageAt(s, si, d, j, usage).value.Some?
    ensures var u := UsageAt(s, si, d, j, usage).value.value;
      && (u == usage || u == 1)
      && (u == 1 && usage != 1 ==> HasInclude(d.flags) || OtherIncludes(s, j, d.nodeId))
  {
    var od := FindDevice(s[j].devices, d.nodeId);
    var otherFlags := if od.Some? then s[j].devices[od.value].flags else [];
    var inc := InclusionOf(d.flags, otherFlags, s[si].flagRefs, s[j].flagRefs).value;
    if inc == 1 || inc == 9 {
      InclusionBits(d.flags, otherFlags, s[si].flagRefs, s[j].flagRefs, 0);
      assert Bit(inc, 0) == 1;
    } else if inc == 8 {
      InclusionBits(d.flags, otherFlags, s[si].flagRefs, s[j].flagRefs, 3);
      assert Bit(8, 3) == 1;
    }
  }

  /** The usage so far stays in {1, 2} along the loop and becomes 1 only
      through an "include" entry of the device or of an overlapping one. */
  lemma {:induction false} UsageFromRange(s: seq<Sub>, si: nat, d: Device, j: nat, usage: nat)
    requires si < |s| && j <= |s| && 1 <= usage <= 2
    requires usage == 1 ==> HasInclude(d.flags) || exists l | 0 <= l < |s| && l != si :: OtherIncludes(s, l, d.nodeId)
    ensures UsageFrom(s, si, d, j, usage).Ok? && UsageFrom(s, si, d, j, usage).value.Usage? ==>
      var u := UsageFrom(s, si, d, j, usage).value.u;
      && 1 <= u <= 2
      && (u == 1 ==> HasInclude(d.flags) || exists l | 0 <= l < |s| && l != si :: OtherIncludes(s, l, d.nodeId))
    decreases |s| - j
  {
    if j < |s| && j != si {
      var step := UsageAt(s, si, d, j, usage);
      if step.Ok? && step.value.Some? {
        UsageAtShared(s, si, d, j, usage);
        UsageFromRange(s, si, d, j + 1, step.value.value);
      }
    } else if j < |s| {
      UsageFromRange(s, si, d, j + 1, usage);
    }
  }

  /** The usage a device gets is 0, 1 or 2: 0 exactly when one of its
      entries is unrestricted, 1 only when an "include" entry shares it,
      and otherwise the non-shared 2. */
  lemma DeviceUsageValues(s: seq<Sub>, si: nat, d: Device)
    requires si < |s|
    requires DeviceUsage(s, si, d).Ok? && DeviceUsage(s, si, d).value.Usage?
    ensures var u := DeviceUsage(s, si, d).value.u;
      && u <= 2
      && (u == 0 <==> HasNoRestrictions(d.flags))
      && (u == 1 ==> HasInclude(d.flags) || exists l | 0 <= l < |s| && l != si :: OtherIncludes(s, l, d.nodeId))
      && ((!HasNoRestrictions(d.flags) && !HasInclude(d.flags) &&
           (forall l | 0 <= l < |s| && l != si :: !OtherIncludes(s, l, d.nodeId))) ==> u == 2)
  {
    UsageFromRange(s, si, d, 0, 2);
  }

  /** One other subsystem in the usage loop of `construct_pm_reqs`. */
  method UsageStep(subs: seq<Sub>, si: nat, d: Device, j: nat, usage: nat) returns (r: Result<Option<nat>>)
    requires si < |subs| && j < |subs|
    ensures r == UsageAt(subs, si, d, j, usage)
  {
    var other := subs[j];
    var od := FindDevice(other.devices, d.nodeId);
    if od.Some? {
      var included := DetermineInclusion(d.flags, other.devices[od.value].flags, subs[si].flagRefs, other.flagRefs);
      if included.Err? {
        return Err(included.error);
      }
      var inc := included.value;
      if And(inc, 6) != 0 {
        return Ok(None);
      }
      if And(inc, 16) != 0 && And(inc, 32) == 0 {
        return Ok(None);
      }
      return Ok(Some(if inc == 1 || inc == 8 || inc == 9 then 1 else usage));
    } else {
      var included := DetermineInclusion(d.flags, [], subs[si].flagRefs, other.flagRefs);
      if included.Err? {
        return Err(included.error);
      }
      return Ok(Some(if included.value == 1 then 1 else usage));
    }
  }

  /** The `"no-restrictions" in f` scan over a device's flags entries. */
  method AnyNoRestrictions(flags: seq<string>) returns (b: bool)
    ensures b == HasNoRestrictions(flags)
  {
    b := false;
    for i := 0 to |flags|
      invariant b <==> exists l | 0 <= l < i :: Contains(flags[l], "no-restrictions")
    {
      if Contains(flags[i], "no-restrictions") {
        b := true;
      }
    }
  }

  /** One other subsystem decides the rest of the usage loop. */
  lemma UsageFromNext(s: seq<Sub>, si: nat, d: Device, j: nat, usage: nat, step: Result<Option<nat>>)
    requires si < |s| && j < |s| && j != si && step == UsageAt(s, si, d, j, usage)
    ensures step.Err? ==> UsageFrom(s, si, d, j, usage) == Err(step.error)
    ensures step.Ok? && step.value.None? ==> UsageFrom(s, si, d, j, usage) == Ok(Warn)
    ensures step.Ok? && step.value.Some? ==>
      UsageFrom(s, si, d, j, usage) == UsageFrom(s, si, d, j + 1, step.value.value)
  {
  }

  /** The loop of `construct_pm_reqs` over the other subsystems for
      device d of subsystem si. */
  method SharedUsage(subs: seq<Sub>, si: nat, d: Device) returns (r: Result<Verdict>)
    requires si < |subs|
    ensures r == UsageFrom(subs, si, d, 0, 2)
  {
    ghost var goal := UsageFrom(subs, si, d, 0, 2);
    var usage: nat := 2;
    for j: nat := 0 to |subs|
      invariant UsageFrom(subs, si, d, j, usage) == goal
    {
      if j != si {
        var step := UsageStep(subs, si, d, j, usage);
        UsageFromNext(subs, si, d, j, usage, step);
        match step
        case Err(e) => return Err(e);
        case Ok(None) => return Ok(Warn);
        case Ok(Some(u)) => usage := u;
      }
    }
    return Ok(Usage(usage));
  }

  /** The usage `construct_pm_reqs` gives device d of subsystem si. */
  method ComputeUsage(subs: seq<Sub>, si: nat, d: Device) returns (r: Result<Verdict>)
    requires si < |subs|
    ensures r == DeviceUsage(subs, si, d)
  {
    r := SharedUsage(subs, si, d);
    if r.Ok? && r.value.Usage? {
      var noRestrictions := AnyNoRestrictions(d.flags);
      if noRestrictions {
        r := Ok(Usage(0));
      }
    }
  }

  /** How `construct_pm_reqs` ends: after every device, at a warning, or
      at an exception. */
  datatype Outcome = Done | Warned | Failed(error: Error)

  /** The pass of `construct_pm_reqs` from device di of subsystem si on:
      the new subsystems and how the pass ends. */
  function PmFrom(s: seq<Sub>, si: nat, di: nat): (seq<Sub>, Outcome)
    requires si <= |s| && (si < |s| ==> di <= |s[si].devices|)
    decreases |s| - si, if si < |s| then |s[si].devices| - di else 0
  {
    if si == |s| then (s, Done)
    else if di == |s[si].devices| then PmFrom(s, si + 1, 0)
    else
      var d := s[si].devices[di];
      match DeviceUsage(s, si, d)
      case Err(e) => (s, Failed(e))
      case Ok(Warn) => (s, Warned)
      case Ok(Usage(u)) =>
        var (d2, err) := SetDevPmReqs(s[si].flagRefs, d, u);
        var s2 := s[si := s[si].(devices := s[si].devices[di := d2])];
        if err.Some? then (s2, Failed(err.value)) else PmFrom(s2, si, di + 1)
  }

  /** t differs from s only in devices' requirement words. */
  predicate SameShape(s: seq<Sub>, t: seq<Sub>)
  {
    && |s| == |t|
    && forall i | 0 <= i < |s| ::
         && t[i].subId == s[i].subId
         && t[i].flagRefs == s[i].flagRefs
         && |t[i].devices| == |s[i].devices|
         && forall k | 0 <= k < |s[i].devices| ::
              t[i].devices[k].nodeId == s[i].devices[k].nodeId && t[i].devices[k].flags == s[i].devices[k].flags
  }

  /** Every device before (si, di) has the default aperture in word 1. */
  predicate ApertureSetBefore(s: seq<Sub>, si: nat, di: nat)
  {
    forall i, k | 0 <= i < |s| && 0 <= k < |s[i].devices| && (i < si || (i == si && k < di)) ::
      |s[i].devices[k].pmReqs| >= 2 && s[i].devices[k].pmReqs[1] == DEFAULT_APERTURE
  }

  /** The pass changes only requirement words, and when it ends without
      warning or exception every device has the default aperture in
      word 1. */
  lemma {:induction false} PmFromEffect(s: seq<Sub>, si: nat, di: nat)
    requires si <= |s| && (si < |s| ==> di <= |s[si].devices|)
    requires ApertureSetBefore(s, si, di)
    ensures SameShape(s, PmFrom(s, si, di).0)
    ensures PmFrom(s, si, di).1 == Done ==> ApertureSetBefore(PmFrom(s, si, di).0, |s|, 0)
    decreases |s| - si, if si < |s| then |s[si].devices| - di else 0
  {
    if si == |s| {
    } else if di == |s[si].devices| {
      PmFromEffect(s, si + 1, 0);
    } else {
      var d := s[si].devices[di];
      var v := DeviceUsage(s, si, d);
      if v.Ok? && v.value.Usage? {
        var (d2, err) := SetDevPmReqs(s[si].flagRefs, d, v.value.u);
        var s2 := s[si := s[si].(devices := s[si].devices[di := d2])];
        assert SameShape(s, s2);
        if err.None? {
          SetDevPmReqsWords(s[si].flagRefs, d, v.value.u);
          assert ApertureSetBefore(s2, si, di + 1);
          PmFromEffect(s2, si, di + 1);
          SameShapeTrans(s, s2, PmFrom(s2, si, di + 1).0);
        }
      }
    }
  }

  lemma SameShapeTrans(a: seq<Sub>, b: seq<Sub>, c: seq<Sub>)
    requires SameShape(a, b) && SameShape(b, c)
    ensures SameShape(a, c)
  {
  }

  /** `construct_pm_reqs(subsystems)`: decides each device's usage and
      writes its requirement words, subsystem by subsystem. */
  method ConstructPmReqs(subs: array<Sub>) returns (outcome: Outcome)
    modifies subs
    ensures (subs[..], outcome) == PmFrom(old(subs[..]), 0, 0)
  {
    for si := 0 to subs.Length
      invariant PmFrom(subs[..], si, 0) == PmFrom(old(subs[..]), 0, 0)
    {
      var di := 0;
      while di < |subs[si].devices|
        invariant di <= |subs[si].devices|
        invariant PmFrom(subs[..], si, di) == PmFrom(old(subs[..]), 0, 0)
        decreases |subs[si].devices| - di
      {
        var d := subs[si].devices[di];
        var v := ComputeUsage(subs[..], si, d);
        if v.Err? {
          return Failed(v.error);
        }
        if v.value.Warn? {
          return Warned;
        }
        var (d2, err) := SetDevPmReqs(subs[si].flagRefs, d, v.value.u);
        subs[si] := subs[si].(devices := subs[si].devices[di := d2]);
        if err.Some? {
          return Failed(err.value);
        }
        di := di + 1;
      }
    }
    return Done;
  }
}
