/** The tree helpers of lopper/assists/lopper_lib.py that the domain assists
    share:
    - `includes` and `node_accesses` dereference phandle lists;
    - `is_compat` tests a node's `compatible` strings;
    - `cpu_refs` works out which sub-cpus a domain's `cpus` masks select.
    The bit helpers of the same file are in Bits. Its `chunks` is
    Chunks.Chunks. */
module LopperLib {
  import opened Common
  import opened Bits
  import opened Chunks

  /** `tree.pnode(ph)` for a value of a property. The phandle index is
      keyed by integers, so a string entry finds no node. Nodes are named
      by their paths, which is also how LopperNode compares them. */
  function Deref(pnode: int -> Option<string>, v: PVal): (r: Option<string>)
    ensures v.Str? ==> r.None?
  {
    if v.Num? then pnode(v.n) else None
  }

  /** The nodes the entries of a list resolve to, in order. Entries that
      resolve to nothing are dropped. */
  function Resolved(vs: seq<PVal>, pnode: int -> Option<string>): (r: seq<string>)
    ensures |r| <= |vs|
    decreases |vs|
  {
    if |vs| == 0 then []
    else
      var head := match Deref(pnode, vs[0]) case Some(p) => [p] case None => [];
      head + Resolved(vs[1..], pnode)
  }

  /** A node is in the resolved list exactly when some entry resolves to it. */
  lemma {:induction false} ResolvedMember(vs: seq<PVal>, pnode: int -> Option<string>, x: string)
    ensures x in Resolved(vs, pnode) <==> exists i :: 0 <= i < |vs| && Deref(pnode, vs[i]) == Some(x)
    decreases |vs|
  {
    if |vs| > 0 {
      ResolvedMember(vs[1..], pnode, x);
      if exists i :: 0 <= i < |vs| && Deref(pnode, vs[i]) == Some(x) {
        var i :| 0 <= i < |vs| && Deref(pnode, vs[i]) == Some(x);
        if i > 0 {
          assert vs[1..][i - 1] == vs[i];
        }
      }
      if exists i :: 0 <= i < |vs[1..]| && Deref(pnode, vs[1..][i]) == Some(x) {
        var i :| 0 <= i < |vs[1..]| && Deref(pnode, vs[1..][i]) == Some(x);
        assert vs[i + 1] == vs[1..][i];
      }
    }
  }

  /** One more entry adds its node, if it has one, at the end. */
  lemma {:induction false} ResolvedAppend(vs: seq<PVal>, v: PVal, pnode: int -> Option<string>)
    ensures Resolved(vs + [v], pnode)
         == Resolved(vs, pnode) + match Deref(pnode, v) case Some(p) => [p] case None => []
    decreases |vs|
  {
    if |vs| == 0 {
      assert [v][1..] == [];
    } else {
      assert (vs + [v])[1..] == vs[1..] + [v];
      ResolvedAppend(vs[1..], v, pnode);
    }
  }

  /** `includes(tree, include_prop)`: the nodes the entries of the
      property resolve to. A missing or empty property gives none. */
  method Includes(includeProp: Option<seq<PVal>>, pnode: int -> Option<string>) returns (nodes: seq<string>)
    ensures !Truthy(includeProp) ==> nodes == []
    ensures Truthy(includeProp) ==> nodes == Resolved(includeProp.value, pnode)
  {
    nodes := [];
    if Truthy(includeProp) {
      var vs := includeProp.value;
      var i := 0;
      while i < |vs|
        invariant i <= |vs|
        invariant nodes == Resolved(vs[..i], pnode)
      {
        ResolvedAppend(vs[..i], vs[i], pnode);
        assert vs[..i + 1] == vs[..i] + [vs[i]];
        var anode := Deref(pnode, vs[i]);
        if anode.Some? {
          nodes := nodes + [anode.value];
        }
        i := i + 1;
      }
      assert vs[..i] == vs;
    }
  }

  /** `l[::2]`: the entries at even positions. */
  function EvenEntries<T>(l: seq<T>): (r: seq<T>)
    ensures |r| == (|l| + 1) / 2
    ensures forall k :: 0 <= k < |r| ==> r[k] == l[2 * k]
    decreases |l|
  {
    if |l| <= 2 then (if |l| == 0 then [] else [l[0]])
    else [l[0]] + EvenEntries(l[2..])
  }

  /** `node_accesses(tree, node)`: the `access` property holds (phandle,
      flags) pairs. Only the phandle of each pair is resolved, and the
      pairs that resolve to nothing are dropped. A missing `access`
      property gives none. */
  method NodeAccesses(access: Option<seq<PVal>>, pnode: int -> Option<string>) returns (nodes: seq<string>)
    ensures !Truthy(access) ==> nodes == []
    ensures Truthy(access) ==> nodes == Resolved(EvenEntries(access.value), pnode)
  {
    nodes := [];
    if Truthy(access) {
      var phs := EvenEntries(access.value);
      var i := 0;
      while i < |phs|
        invariant i <= |phs|
        invariant nodes == Resolved(phs[..i], pnode)
      {
        ResolvedAppend(phs[..i], phs[i], pnode);
        assert phs[..i + 1] == phs[..i] + [phs[i]];
        var anode := Deref(pnode, phs[i]);
        if anode.Some? {
          nodes := nodes + [anode.value];
        }
        i := i + 1;
      }
      assert phs[..i] == phs;
    }
  }

  /** A node is accessed exactly when the entry at some even position
      resolves to it. The flags at odd positions are never dereferenced. */
  lemma AccessedNodes(vs: seq<PVal>, pnode: int -> Option<string>, x: string)
    ensures x in Resolved(EvenEntries(vs), pnode) <==>
      exists k :: 0 <= k && 2 * k < |vs| && Deref(pnode, vs[2 * k]) == Some(x)
  {
    var ev := EvenEntries(vs);
    ResolvedMember(ev, pnode, x);
    if x in Resolved(ev, pnode) {
      var i :| 0 <= i < |ev| && Deref(pnode, ev[i]) == Some(x);
      assert ev[i] == vs[2 * i];
    }
    if exists k :: 0 <= k && 2 * k < |vs| && Deref(pnode, vs[2 * k]) == Some(x) {
      var k :| 0 <= k && 2 * k < |vs| && Deref(pnode, vs[2 * k]) == Some(x);
      assert ev[k] == vs[2 * k];
    }
  }

  // ---------------------------------------------------------------------
  // is_compat

  /** The second argument of `is_compat`: one string, or a list of them. */
  datatype CompatQuery = One(s: string) | Many(ss: seq<string>)

  /** `[item for item in node_compat if c in item]`. */
  function Matching(compat: seq<string>, c: string): (r: seq<string>)
    ensures forall x :: x in r <==> x in compat && Contains(x, c)
    decreases |compat|
  {
    if |compat| == 0 then []
    else (if Contains(compat[0], c) then [compat[0]] else []) + Matching(compat[1..], c)
  }

  /** The list loop of `is_compat`: x starts as None, and each c
      recomputes x while x is falsy (None or empty). */
  function FirstMatching(compat: seq<string>, cs: seq<string>, x: Option<seq<string>>): (r: Option<seq<string>>)
    decreases |cs|
  {
    if |cs| == 0 then x
    else if x.None? || |x.value| == 0 then FirstMatching(compat, cs[1..], Some(Matching(compat, cs[0])))
    else FirstMatching(compat, cs[1..], x)
  }

  /** `is_compat(node, q)` as written. A node without `compatible` gives
      None. Otherwise the result is `x != []`, where x is the list of
      matching entries. An empty query list leaves x as None, and
      `None != []` is True. */
  function IsCompatAsWritten(compat: Option<seq<string>>, q: CompatQuery): (r: Option<bool>)
    ensures compat.None? <==> r.None?
  {
    match compat
    case None => None
    case Some(entries) =>
      match q
      case One(s) => Some(Matching(entries, s) != [])
      case Many(ss) => Some(FirstMatching(entries, ss, None) != Some([]))
  }

  /** Some query string is a substring of some `compatible` entry. */
  predicate AnyContains(compat: seq<string>, cs: seq<string>)
  {
    exists i, j :: 0 <= i < |cs| && 0 <= j < |compat| && Contains(compat[j], cs[i])
  }

  /** The loop keeps the first non-empty match list. Its result is
      non-empty exactly when some query string matches. */
  lemma {:induction false} FirstMatchingMeans(compat: seq<string>, cs: seq<string>, x: Option<seq<string>>)
    ensures var r := FirstMatching(compat, cs, x);
      (x.Some? && |x.value| > 0 ==> r == x)
      && (|cs| > 0 ==> r.Some?)
      && (x.None? || |x.value| == 0 ==> (r.Some? && |r.value| > 0 <==> AnyContains(compat, cs)))
    decreases |cs|
  {
    if |cs| > 0 {
      var m := Matching(compat, cs[0]);
      if x.None? || |x.value| == 0 {
        FirstMatchingMeans(compat, cs[1..], Some(m));
        if |m| > 0 {
          assert m[0] in compat && Contains(m[0], cs[0]);
          var j :| 0 <= j < |compat| && compat[j] == m[0];
          assert Contains(compat[j], cs[0]);
        } else {
          if AnyContains(compat, cs) {
            var i, j :| 0 <= i < |cs| && 0 <= j < |compat| && Contains(compat[j], cs[i]);
            if i == 0 {
              assert compat[j] in m;
            } else {
              assert cs[1..][i - 1] == cs[i];
            }
          }
          if AnyContains(compat, cs[1..]) {
            var i, j :| 0 <= i < |cs[1..]| && 0 <= j < |compat| && Contains(compat[j], cs[1..][i]);
            assert cs[i + 1] == cs[1..][i];
          }
        }
      } else {
        FirstMatchingMeans(compat, cs[1..], x);
      }
    }
  }

  /** `is_compat` as its comment describes it: whether some `compatible`
      entry contains the string, or one of the strings. */
  function IsCompat(compat: Option<seq<string>>, q: CompatQuery): (r: Option<bool>)
    ensures compat.None? <==> r.None?
    ensures r.Some? && q.One? ==> (r.value <==> exists j :: 0 <= j < |compat.value| && Contains(compat.value[j], q.s))
    ensures r.Some? && q.Many? ==> (r.value <==> AnyContains(compat.value, q.ss))
  {
    match compat
    case None => None
    case Some(entries) =>
      match q
      case One(s) =>
        var m := Matching(entries, s);
        assert |m| > 0 ==> m[0] in m;
        Some(m != [])
      case Many(ss) =>
        FirstMatchingMeans(entries, ss, None);
        var x := FirstMatching(entries, ss, None);
        Some(x.Some? && x.value != [])
  }

  /** The two agree on every non-empty query. An empty query list is
      compatible with every node as written and with none as intended. */
  lemma IsCompatAgree(compat: Option<seq<string>>, q: CompatQuery)
    ensures q.One? || |q.ss| > 0 ==> IsCompatAsWritten(compat, q) == IsCompat(compat, q)
    ensures compat.Some? && q == Many([]) ==> IsCompatAsWritten(compat, q) == Some(true)
    ensures compat.Some? && q == Many([]) ==> IsCompat(compat, q) == Some(false)
  {
    if compat.Some? && q.Many? {
      FirstMatchingMeans(compat.value, q.ss, None);
    }
  }

  // ---------------------------------------------------------------------
  // cpu_refs

  /** `check_bit_set(mask, idx)` on any integer. Python's `&` works on the
      two's complement, so a negative mask has bit k set exactly when its
      complement `-mask - 1` has it clear. */
  predicate MaskBit(mask: int, k: nat)
  {
    if mask >= 0 then CheckBitSet(mask, k) else !CheckBitSet(-mask - 1, k)
  }

  /** The sub-cpus the mask selects, from bit `idx` to bit 31: bit i
      selects `sub_cpus[i]`, and a bit past the end of the list selects
      nothing. */
  function Picks(mask: int, subs: seq<string>, idx: nat): (r: seq<string>)
    ensures forall x :: x in r ==> x in subs
    decreases 32 - idx
  {
    if idx >= 32 then []
    else (if MaskBit(mask, idx) && idx < |subs| then [subs[idx]] else []) + Picks(mask, subs, idx + 1)
  }

  /** A sub-cpu is selected exactly when a set bit below 32 sits at its
      position in the list. */
  lemma {:induction false} PicksMember(mask: int, subs: seq<string>, idx: nat, x: string)
    ensures x in Picks(mask, subs, idx) <==>
      exists i :: idx <= i < 32 && i < |subs| && MaskBit(mask, i) && subs[i] == x
    decreases 32 - idx
  {
    if idx < 32 {
      PicksMember(mask, subs, idx + 1, x);
    }
  }

  /** What `cpu_refs` does with a `cpus` entry whose phandle resolves to
      no node. As written, `pnode` returns None instead of raising, and the
      following `subnodes(None)` raises AttributeError. As intended, the
      entry is skipped. */
  datatype Unresolved = Raise | Skip

  /** The triple loop of `cpu_refs`, from triple `t` on. `refd` holds the
      sub-cpus selected so far. `all` is every sub-cpu seen so far, each
      node's list put in front of the earlier ones. A short last triple
      cannot be unpacked (ValueError). A text mask cannot be and-ed
      (TypeError). */
  function CpuTriples(vs: seq<PVal>, t: nat, refd: seq<string>, all: seq<string>,
                      pnode: int -> Option<string>, subCpus: string -> seq<string>, missing: Unresolved)
    : (r: Result<(seq<string>, seq<string>)>)
    ensures r.Ok? ==> (forall x :: x in r.value.0 ==> x in refd || x in r.value.1)
    ensures r.Ok? ==> (forall x :: x in all ==> x in r.value.1)
    decreases |vs| - 3 * t
  {
    if 3 * t >= |vs| then Ok((refd, all))
    else if |vs| - 3 * t < 3 then Err(ValueError)
    else match Deref(pnode, vs[3 * t])
      case None =>
        if missing == Raise then Err(AttributeError)
        else CpuTriples(vs, t + 1, refd, all, pnode, subCpus, missing)
      case Some(cpu) =>
        var subs := subCpus(cpu);
        var mask := vs[3 * t + 1];
        if mask.Str? then Err(TypeError)
        else CpuTriples(vs, t + 1, refd + Picks(mask.n, subs, 0), subs + all, pnode, subCpus, missing)
  }

  /** The sub-cpus of `all` that were not selected, in order, repeats kept. */
  function Unselected(all: seq<string>, refd: seq<string>): (r: seq<string>)
    ensures forall x :: x in r <==> x in all && x !in refd
    decreases |all|
  {
    if |all| == 0 then []
    else (if all[0] !in refd then [all[0]] else []) + Unselected(all[1..], refd)
  }

  /** `cpu_refs(tree, cpu_prop)`: the selected and the unselected sub-cpus.
      A missing or empty `cpus` property gives two empty lists. */
  function CpuRefsSpec(cpuProp: Option<seq<PVal>>, pnode: int -> Option<string>,
                       subCpus: string -> seq<string>, missing: Unresolved): (r: Result<(seq<string>, seq<string>)>)
    ensures !Truthy(cpuProp) ==> r == Ok(([], []))
  {
    if !Truthy(cpuProp) then Ok(([], []))
    else match CpuTriples(cpuProp.value, 0, [], [], pnode, subCpus, missing)
      case Err(e) => Err(e)
      case Ok(res) => Ok((res.0, Unselected(res.1, res.0)))
  }

  /** The selected and the unselected sub-cpus split the sub-cpus of the
      listed cpu nodes: each is in exactly one of the two lists. Each
      selected one is the sub-cpu at a set bit of its triple's mask. */
  lemma CpuRefsPartition(cpuProp: Option<seq<PVal>>, pnode: int -> Option<string>,
                         subCpus: string -> seq<string>, missing: Unresolved, x: string)
    requires CpuRefsSpec(cpuProp, pnode, subCpus, missing).Ok?
    ensures var (refd, unrefd) := CpuRefsSpec(cpuProp, pnode, subCpus, missing).value;
      !(x in refd && x in unrefd)
      && (Truthy(cpuProp) ==>
            (x in refd || x in unrefd <==> x in CpuTriples(cpuProp.value, 0, [], [], pnode, subCpus, missing).value.1))
  {
  }

  /** Triple u resolves to a cpu node, and a set bit of its mask selects
      x from that node's sub-cpus. */
  predicate SelectedBy(vs: seq<PVal>, u: nat, pnode: int -> Option<string>, subCpus: string -> seq<string>, x: string)
  {
    3 * u + 2 < |vs| && Deref(pnode, vs[3 * u]).Some? && vs[3 * u + 1].Num?
    && exists i :: 0 <= i < 32 && i < |subCpus(Deref(pnode, vs[3 * u]).value)| && MaskBit(vs[3 * u + 1].n, i)
                   && subCpus(Deref(pnode, vs[3 * u]).value)[i] == x
  }

  /** Every selected sub-cpu sits at a set bit of the mask of a triple
      whose cpu node lists it. */
  lemma {:induction false} CpuTriplesSelect(vs: seq<PVal>, t: nat, refd: seq<string>, all: seq<string>,
                                            pnode: int -> Option<string>, subCpus: string -> seq<string>,
                                            missing: Unresolved, x: string)
    requires CpuTriples(vs, t, refd, all, pnode, subCpus, missing).Ok?
    ensures x in CpuTriples(vs, t, refd, all, pnode, subCpus, missing).value.0 ==>
      x in refd || exists u :: t <= u && SelectedBy(vs, u, pnode, subCpus, x)
    decreases |vs| - 3 * t
  {
    if 3 * t < |vs| && |vs| - 3 * t >= 3 {
      var cpu := Deref(pnode, vs[3 * t]);
      if cpu.None? {
        CpuTriplesSelect(vs, t + 1, refd, all, pnode, subCpus, missing, x);
      } else {
        var subs := subCpus(cpu.value);
        var picked := Picks(vs[3 * t + 1].n, subs, 0);
        assert CpuTriples(vs, t, refd, all, pnode, subCpus, missing)
            == CpuTriples(vs, t + 1, refd + picked, subs + all, pnode, subCpus, missing);
        CpuTriplesSelect(vs, t + 1, refd + picked, subs + all, pnode, subCpus, missing, x);
        PickedSelected(vs, t, pnode, subCpus, x);
      }
    }
  }

  /** A sub-cpu picked by triple t is selected by it. */
  lemma PickedSelected(vs: seq<PVal>, t: nat, pnode: int -> Option<string>, subCpus: string -> seq<string>, x: string)
    requires 3 * t + 2 < |vs| && Deref(pnode, vs[3 * t]).Some? && vs[3 * t + 1].Num?
    ensures x in Picks(vs[3 * t + 1].n, subCpus(Deref(pnode, vs[3 * t]).value), 0) ==> SelectedBy(vs, t, pnode, subCpus, x)
  {
    PicksMember(vs[3 * t + 1].n, subCpus(Deref(pnode, vs[3 * t]).value), 0, x);
  }

  /** Skipping unresolved entries only differs from raising where raising
      fails: whenever the code as written succeeds, so does the intended
      version, with the same lists. */
  lemma {:induction false} SkipExtendsRaise(vs: seq<PVal>, t: nat, refd: seq<string>, all: seq<string>,
                                            pnode: int -> Option<string>, subCpus: string -> seq<string>)
    requires CpuTriples(vs, t, refd, all, pnode, subCpus, Raise).Ok?
    ensures CpuTriples(vs, t, refd, all, pnode, subCpus, Skip) == CpuTriples(vs, t, refd, all, pnode, subCpus, Raise)
    decreases |vs| - 3 * t
  {
    if 3 * t < |vs| && |vs| - 3 * t >= 3 {
      match Deref(pnode, vs[3 * t])
      case None =>
      case Some(cpu) =>
        var subs := subCpus(cpu);
        var mask := vs[3 * t + 1];
        SkipExtendsRaise(vs, t + 1, refd + Picks(mask.n, subs, 0), subs + all, pnode, subCpus);
    }
  }

  /** A `cpus` triple naming a phandle with no node: the code as written
      raises AttributeError, the intended version returns two empty lists. */
  lemma UnresolvedCpuRaises(pnode: int -> Option<string>, subCpus: string -> seq<string>, ph: int)
    requires pnode(ph).None?
    ensures CpuRefsSpec(Some([Num(ph), Num(1), Num(0)]), pnode, subCpus, Raise) == Err(AttributeError)
    ensures CpuRefsSpec(Some([Num(ph), Num(1), Num(0)]), pnode, subCpus, Skip) == Ok(([], []))
  {
    var vs := [Num(ph), Num(1), Num(0)];
    assert CpuTriples(vs, 1, [], [], pnode, subCpus, Skip) == Ok(([], []));
  }

  /** The mask loop of one triple: bits 0 to 31 in order. */
  method PickSubCpus(mask: int, subs: seq<string>) returns (picked: seq<string>)
    ensures picked == Picks(mask, subs, 0)
  {
    picked := [];
    var idx := 32;
    // the picks from idx on are collected back to front
    while idx > 0
      invariant 0 <= idx <= 32
      invariant picked == Picks(mask, subs, idx)
    {
      idx := idx - 1;
      if MaskBit(mask, idx) && idx < |subs| {
        picked := [subs[idx]] + picked;
      }
    }
  }

  /** The unselected loop of `cpu_refs`. */
  method CollectUnselected(all: seq<string>, refd: seq<string>) returns (unrefd: seq<string>)
    ensures unrefd == Unselected(all, refd)
  {
    unrefd := [];
    var i := |all|;
    while i > 0
      invariant 0 <= i <= |all|
      invariant unrefd == Unselected(all[i..], refd)
    {
      i := i - 1;
      assert all[i..][0] == all[i] && all[i..][1..] == all[i + 1..];
      if all[i] !in refd {
        unrefd := [all[i]] + unrefd;
      }
    }
  }

  /** `cpu_refs` with unresolved phandles skipped, as the code's comment
      intends. */
  method CpuRefs(cpuProp: Option<seq<PVal>>, pnode: int -> Option<string>, subCpus: string -> seq<string>)
    returns (r: Result<(seq<string>, seq<string>)>)
    ensures r == CpuRefsSpec(cpuProp, pnode, subCpus, Skip)
  {
    if !Truthy(cpuProp) {
      return Ok(([], []));
    }
    var vs := cpuProp.value;
    var refd: seq<string> := [];
    var all: seq<string> := [];
    var t := 0;
    while 3 * t < |vs|
      invariant CpuTriples(vs, 0, [], [], pnode, subCpus, Skip) == CpuTriples(vs, t, refd, all, pnode, subCpus, Skip)
      decreases |vs| - 3 * t
    {
      if |vs| - 3 * t < 3 {
        return Err(ValueError);
      }
      var cpu := Deref(pnode, vs[3 * t]);
      if cpu.Some? {
        var subs := subCpus(cpu.value);
        var mask := vs[3 * t + 1];
        if mask.Str? {
          return Err(TypeError);
        }
        var picked := PickSubCpus(mask.n, subs);
        refd := refd + picked;
        all := subs + all;
      }
      t := t + 1;
    }
    var unrefd := CollectUnselected(all, refd);
    return Ok((refd, unrefd));
  }
}
