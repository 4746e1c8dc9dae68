/** The tree audits of lopper/audit.py. Two checks live here:
    - the dangling-phandle check, over every node and phandle-bearing property;
    - the reserved-memory check, which asks whether each region a domain
      reserves lies inside one of the domain's memory ranges.
    Both collect what they find in a list. The two wrappers report that list
    and return its length. */
module Audit {
  import opened Common
  import Ranges
  import LopperTree

  // ---------------------------------------------------------------------
  // _cell_value_get

  /** The cells as property values, for the big-endian reading of Ranges. */
  function AsValues(cs: seq<Cell>): (r: seq<PVal>)
    ensures |r| == |cs| && forall k :: 0 <= k < |cs| ==> r[k] == Num(cs[k])
  {
    seq(|cs|, k requires 0 <= k < |cs| => Num(cs[k]))
  }

  /** `_cell_value_get(cells, size, start)`. Size 2 reads two cells, the
      first shifted up by 32 bits and or-ed with the second. Any other size
      reads one cell. A read past the end raises IndexError. On success
      the result pairs the value with the cells read. */
  function CellValueGet(cells: seq<Cell>, size: int, start: nat): (r: Result<(nat, seq<Cell>)>)
    ensures r.Ok? <==> start + (if size == 2 then 2 else 1) <= |cells|
    ensures r.Err? ==> r.error == IndexError
    ensures r.Ok? ==> |r.value.1| == (if size == 2 then 2 else 1)
    ensures r.Ok? ==> r.value.1 == cells[start..start + |r.value.1|]
    ensures r.Ok? ==> Ranges.CellsValue(AsValues(r.value.1)) == Ok(r.value.0)
    ensures r.Ok? ==> r.value.0 < Ranges.Pow32(|r.value.1|)
  {
    if size == 2 then
      if start + 1 < |cells| then
        TwoCellsValue(cells[start], cells[start + 1]);
        Ok((cells[start] * TWO32 + cells[start + 1], [cells[start], cells[start + 1]]))
      else Err(IndexError)
    else if start < |cells| then
      OneCellValue(cells[start]);
      Ok((cells[start], [cells[start]]))
    else Err(IndexError)
  }

  /** One cell read big-endian is the cell. */
  lemma OneCellValue(c: Cell)
    ensures Ranges.CellsValue(AsValues([c])) == Ok(c)
    ensures c < Ranges.Pow32(1)
  {
    assert AsValues([c])[1..] == [];
  }

  /** Two cells read big-endian are the first shifted up 32 bits plus
      the second. */
  lemma TwoCellsValue(hi: Cell, lo: Cell)
    ensures Ranges.CellsValue(AsValues([hi, lo])) == Ok(hi * TWO32 + lo)
    ensures hi * TWO32 + lo < Ranges.Pow32(2)
  {
    var vs := AsValues([hi, lo]);
    assert vs[1..] == AsValues([lo]);
    OneCellValue(lo);
    assert Ranges.Pow32(1) == TWO32;
    assert Ranges.Pow32(2) == TWO32 * TWO32;
    assert hi * TWO32 + lo < (hi + 1) * TWO32;
    Ranges.MulMono(hi + 1, TWO32, TWO32);
  }

  /** The two cells of a 64-bit number, most significant first. */
  function Split64(v: nat): (r: seq<Cell>)
    requires v < TWO32 * TWO32
    ensures |r| == 2
  {
    [v / TWO32, v % TWO32]
  }

  /** Reading two cells back from anywhere in a property gives the number
      they were split from. */
  lemma CellValueSplit(pre: seq<Cell>, v: nat, post: seq<Cell>)
    requires v < TWO32 * TWO32
    ensures CellValueGet(pre + Split64(v) + post, 2, |pre|) == Ok((v, Split64(v)))
  {
    var cells := pre + Split64(v) + post;
    assert cells[|pre|] == v / TWO32 && cells[|pre| + 1] == v % TWO32;
  }

  /** Reading one cell at any size other than 2 gives that cell back. */
  lemma CellValueSingle(pre: seq<Cell>, c: Cell, post: seq<Cell>, size: int)
    requires size != 2
    ensures CellValueGet(pre + [c] + post, size, |pre|) == Ok((c, [c]))
  {
    assert (pre + [c] + post)[|pre|] == c;
  }

  // ---------------------------------------------------------------------
  // check_invalid_phandles

  /** A property as the dangling-phandle check sees it:
      - its name;
      - whether its state is "syncd";
      - its `__modified__` flag;
      - what `resolve_phandles(tag_invalid=True)` returns for it, or None
        when that call raises. */
  datatype AuditProp = AuditProp(name: string, syncd: bool, modified: bool, targets: Option<seq<string>>)

  /** A node as the check sees it:
      - its absolute path;
      - whether its state is "resolved";
      - its `__modified__` flag;
      - its properties, in order. */
  datatype AuditNode = AuditNode(path: string, resolved: bool, modified: bool, props: seq<AuditProp>)

  /** The node is excluded when one of the patterns matches its path. */
  predicate Excluded(path: string, exclude: seq<string>, m: Matcher)
  {
    exists k :: 0 <= k < |exclude| && m(exclude[k], path)
  }

  /** The node is checked unless the modified-only mode skips it (resolved
      and not modified) or a pattern excludes it. */
  predicate NodeChecked(n: AuditNode, onlyModified: bool, exclude: seq<string>, m: Matcher)
  {
    !(onlyModified && n.resolved && !n.modified) && !Excluded(n.path, exclude, m)
  }

  /** A property is reported when all of these hold:
      - its name is a key of the phandle descriptor table;
      - the modified-only mode does not skip it (skipped means syncd and
        not modified);
      - its phandles resolve without raising;
      - one of the resolved targets is "#invalid". */
  predicate PropFlagged(p: AuditProp, table: map<string, string>, onlyModified: bool)
  {
    p.name in table && !(onlyModified && p.syncd && !p.modified)
    && p.targets.Some? && "#invalid" in p.targets.value
  }

  /** The entries a node adds: its reported properties, in order. */
  function NodeFlags(path: string, props: seq<AuditProp>, table: map<string, string>, onlyModified: bool): (r: seq<(string, string)>)
    decreases |props|
  {
    if |props| == 0 then []
    else
      var head := if PropFlagged(props[0], table, onlyModified) then [(path, props[0].name)] else [];
      head + NodeFlags(path, props[1..], table, onlyModified)
  }

  /** `check_invalid_phandles` on the nodes from the i-th on, after the
      entries `acc` of the nodes before. */
  function FlaggedFrom(nodes: seq<AuditNode>, i: nat, acc: seq<(string, string)>,
                       table: map<string, string>, onlyModified: bool, exclude: seq<string>, m: Matcher): seq<(string, string)>
    decreases |nodes| - i
  {
    if i >= |nodes| then acc
    else FlaggedFrom(nodes, i + 1,
                     acc + (if NodeChecked(nodes[i], onlyModified, exclude, m)
                            then NodeFlags(nodes[i].path, nodes[i].props, table, onlyModified) else []),
                     table, onlyModified, exclude, m)
  }

  /** Every (path, property) pair the check reports. */
  function Flagged(nodes: seq<AuditNode>, table: map<string, string>, onlyModified: bool,
                   exclude: seq<string>, m: Matcher): seq<(string, string)>
  {
    FlaggedFrom(nodes, 0, [], table, onlyModified, exclude, m)
  }

  /** The walk of `check_invalid_phandles` over the tree. The phandle table
      is `phandle_possible_properties()`. The patterns are the entries of
      its `__phandle_exclude__` value. */
  method CheckInvalidPhandles(nodes: seq<AuditNode>, table: map<string, string>, onlyModified: bool,
                              exclude: seq<string>, m: Matcher)
    returns (refs: seq<(string, string)>)
    ensures refs == Flagged(nodes, table, onlyModified, exclude, m)
  {
    refs := [];
    var i := 0;
    while i < |nodes|
      invariant i <= |nodes|
      invariant Flagged(nodes, table, onlyModified, exclude, m) == FlaggedFrom(nodes, i, refs, table, onlyModified, exclude, m)
    {
      var n := nodes[i];
      ghost var add := if NodeChecked(n, onlyModified, exclude, m)
                       then NodeFlags(n.path, n.props, table, onlyModified) else [];
      assert FlaggedFrom(nodes, i, refs, table, onlyModified, exclude, m)
          == FlaggedFrom(nodes, i + 1, refs + add, table, onlyModified, exclude, m);
      var found: seq<(string, string)> := [];
      var skip := onlyModified && n.resolved && !n.modified;
      if !skip {
        var excluded := PathExcluded(n.path, exclude, m);
        if !excluded {
          found := CheckNodeProps(n.path, n.props, table, onlyModified);
        }
      }
      assert found == add;
      refs := refs + found;
      i := i + 1;
    }
  }

  /** The pattern loop: whether some pattern matches the path. */
  method PathExcluded(path: string, exclude: seq<string>, m: Matcher) returns (excluded: bool)
    ensures excluded <==> Excluded(path, exclude, m)
  {
    excluded := false;
    var k := 0;
    while k < |exclude|
      invariant k <= |exclude|
      invariant forall j :: 0 <= j < k ==> !m(exclude[j], path)
    {
      if m(exclude[k], path) {
        return true;
      }
      k := k + 1;
    }
  }

  /** The property loop of one node. */
  method CheckNodeProps(path: string, props: seq<AuditProp>, table: map<string, string>, onlyModified: bool)
    returns (found: seq<(string, string)>)
    ensures found == NodeFlags(path, props, table, onlyModified)
  {
    ghost var goal := NodeFlags(path, props, table, onlyModified);
    found := [];
    var k := 0;
    while k < |props|
      invariant k <= |props|
      invariant goal == found + NodeFlags(path, props[k..], table, onlyModified)
    {
      ghost var prev := found;
      var p := props[k];
      if p.name in table && !(onlyModified && p.syncd && !p.modified) && p.targets.Some? {
        var invalid := HasInvalid(p.targets.value);
        if invalid {
          found := found + [(path, p.name)];
        }
      }
      assert found == prev + (if PropFlagged(p, table, onlyModified) then [(path, p.name)] else []);
      NodeFlagsNext(goal, prev, path, props, k, table, onlyModified);
      k := k + 1;
    }
  }

  /** One property of the loop: what is left to find after the k-th
      property is the rest's entries. */
  lemma NodeFlagsNext(goal: seq<(string, string)>, found: seq<(string, string)>, path: string,
                      props: seq<AuditProp>, k: nat, table: map<string, string>, onlyModified: bool)
    requires k < |props| && goal == found + NodeFlags(path, props[k..], table, onlyModified)
    ensures goal == (found + (if PropFlagged(props[k], table, onlyModified) then [(path, props[k].name)] else []))
                    + NodeFlags(path, props[k + 1..], table, onlyModified)
  {
    assert props[k..][0] == props[k] && props[k..][1..] == props[k + 1..];
  }

  /** The target loop: it stops at the first "#invalid". */
  method HasInvalid(targets: seq<string>) returns (invalid: bool)
    ensures invalid <==> "#invalid" in targets
  {
    var j := 0;
    while j < |targets|
      invariant j <= |targets|
      invariant "#invalid" !in targets[..j]
    {
      if targets[j] == "#invalid" {
        return true;
      }
      assert targets[..j + 1] == targets[..j] + [targets[j]];
      j := j + 1;
    }
    assert targets[..j] == targets;
    return false;
  }

  /** A node's entries are exactly its reported properties. Each entry
      carries the node's path. */
  lemma {:induction false} NodeFlagsMember(path: string, props: seq<AuditProp>, table: map<string, string>,
                                           onlyModified: bool, e: (string, string))
    ensures e in NodeFlags(path, props, table, onlyModified) <==>
      e.0 == path && exists k :: 0 <= k < |props| && props[k].name == e.1 && PropFlagged(props[k], table, onlyModified)
    decreases |props|
  {
    if |props| > 0 {
      NodeFlagsMember(path, props[1..], table, onlyModified, e);
      if e.0 == path && exists k :: 0 <= k < |props| && props[k].name == e.1 && PropFlagged(props[k], table, onlyModified) {
        var k :| 0 <= k < |props| && props[k].name == e.1 && PropFlagged(props[k], table, onlyModified);
        if k > 0 {
          assert props[1..][k - 1] == props[k];
        }
      }
      if exists k :: 0 <= k < |props[1..]| && props[1..][k].name == e.1 && PropFlagged(props[1..][k], table, onlyModified) {
        var k :| 0 <= k < |props[1..]| && props[1..][k].name == e.1 && PropFlagged(props[1..][k], table, onlyModified);
        assert props[k + 1] == props[1..][k];
      }
    }
  }

  /** A pair is reported exactly when some checked node has that path and
      a reported property of that name. */
  lemma {:induction false} FlaggedFromMember(nodes: seq<AuditNode>, i: nat, acc: seq<(string, string)>,
                                             table: map<string, string>, onlyModified: bool,
                                             exclude: seq<string>, m: Matcher, e: (string, string))
    ensures e in FlaggedFrom(nodes, i, acc, table, onlyModified, exclude, m) <==>
      e in acc || exists j :: i <= j < |nodes| && NodeChecked(nodes[j], onlyModified, exclude, m)
                             && e in NodeFlags(nodes[j].path, nodes[j].props, table, onlyModified)
    decreases |nodes| - i
  {
    if i < |nodes| {
      var add := if NodeChecked(nodes[i], onlyModified, exclude, m)
                 then NodeFlags(nodes[i].path, nodes[i].props, table, onlyModified) else [];
      FlaggedFromMember(nodes, i + 1, acc + add, table, onlyModified, exclude, m, e);
    }
  }

  /** The membership of `check_invalid_phandles`' result, node by node and
      property by property. */
  lemma FlaggedMember(nodes: seq<AuditNode>, table: map<string, string>, onlyModified: bool,
                      exclude: seq<string>, m: Matcher, path: string, name: string)
    ensures (path, name) in Flagged(nodes, table, onlyModified, exclude, m) <==>
      exists j, k :: 0 <= j < |nodes| && 0 <= k < |nodes[j].props| && nodes[j].path == path
                     && NodeChecked(nodes[j], onlyModified, exclude, m)
                     && nodes[j].props[k].name == name && PropFlagged(nodes[j].props[k], table, onlyModified)
  {
    FlaggedFromMember(nodes, 0, [], table, onlyModified, exclude, m, (path, name));
    forall j | 0 <= j < |nodes|
      ensures (path, name) in NodeFlags(nodes[j].path, nodes[j].props, table, onlyModified) <==>
        nodes[j].path == path && exists k :: 0 <= k < |nodes[j].props| && nodes[j].props[k].name == name
                                             && PropFlagged(nodes[j].props[k], table, onlyModified)
    {
      NodeFlagsMember(nodes[j].path, nodes[j].props, table, onlyModified, (path, name));
    }
  }

  /** In modified-only mode a resolved, unmodified node contributes nothing. */
  lemma UntouchedNodeSkipped(path: string, n: AuditNode, exclude: seq<string>, m: Matcher)
    requires n.resolved && !n.modified
    ensures !NodeChecked(n, true, exclude, m)
  {
  }

  /** A modified node is checked in modified-only mode exactly as in the
      full check. Every node of a tree is modified (see
      `LopperTree.Node.MarkResolvedAsWritten`), so the skip above never
      applies to a node. */
  lemma ModifiedNodeChecked(n: AuditNode, exclude: seq<string>, m: Matcher)
    requires n.modified
    ensures NodeChecked(n, true, exclude, m) == NodeChecked(n, false, exclude, m)
  {
  }

  /** In modified-only mode a syncd, unmodified property is never reported. */
  lemma UntouchedPropSkipped(p: AuditProp, table: map<string, string>)
    requires p.syncd && !p.modified
    ensures !PropFlagged(p, table, true)
  {
  }

  /** The modified-only check reports a subset of what the full check reports. */
  lemma ModifiedOnlySubset(nodes: seq<AuditNode>, table: map<string, string>, exclude: seq<string>,
                           m: Matcher, path: string, name: string)
    ensures (path, name) in Flagged(nodes, table, true, exclude, m) ==>
            (path, name) in Flagged(nodes, table, false, exclude, m)
  {
    FlaggedMember(nodes, table, true, exclude, m, path, name);
    FlaggedMember(nodes, table, false, exclude, m, path, name);
  }

  /** Two nodes have different paths. */
  predicate DistinctPaths(nodes: seq<AuditNode>)
  {
    forall i, j :: 0 <= i < j < |nodes| ==> nodes[i].path != nodes[j].path
  }

  /** A property name appears at most once per node. */
  predicate DistinctPropNames(props: seq<AuditProp>)
  {
    forall i, j :: 0 <= i < j < |props| ==> props[i].name != props[j].name
  }

  /** Within one node no pair repeats. */
  lemma {:induction false} NodeFlagsDistinct(path: string, props: seq<AuditProp>, table: map<string, string>, onlyModified: bool)
    requires DistinctPropNames(props)
    ensures LopperTree.Distinct(NodeFlags(path, props, table, onlyModified))
    decreases |props|
  {
    if |props| > 0 {
      var rest := NodeFlags(path, props[1..], table, onlyModified);
      NodeFlagsDistinct(path, props[1..], table, onlyModified);
      if PropFlagged(props[0], table, onlyModified) {
        NodeFlagsMember(path, props[1..], table, onlyModified, (path, props[0].name));
        DistinctCons((path, props[0].name), rest);
      }
    }
  }

  /** A fresh element in front of a repetition-free list keeps it so. */
  lemma DistinctCons<T(!new)>(x: T, s: seq<T>)
    requires LopperTree.Distinct(s) && x !in s
    ensures LopperTree.Distinct([x] + s)
  {
    var t := [x] + s;
    forall i, j | 0 <= i < j < |t|
      ensures t[i] != t[j]
    {
      if i == 0 {
        assert t[j] == s[j - 1];
      } else {
        assert t[i] == s[i - 1] && t[j] == s[j - 1];
      }
    }
  }

  /** Two repetition-free lists with no common element join into one. */
  lemma DistinctJoin<T(!new)>(a: seq<T>, b: seq<T>)
    requires LopperTree.Distinct(a) && LopperTree.Distinct(b)
    requires forall x :: x in a ==> x !in b
    ensures LopperTree.Distinct(a + b)
  {
    var t := a + b;
    forall i, j | 0 <= i < j < |t|
      ensures t[i] != t[j]
    {
      if j < |a| {
        assert t[i] == a[i] && t[j] == a[j];
      } else if i >= |a| {
        assert t[i] == b[i - |a|] && t[j] == b[j - |a|];
      } else {
        assert t[i] == a[i] && t[i] in a && t[j] == b[j - |a|] && t[j] in b;
      }
    }
  }

  /** Each entry of the fold so far names a node before the i-th. */
  lemma {:induction false} FlaggedFromDistinct(nodes: seq<AuditNode>, i: nat, acc: seq<(string, string)>,
                                               table: map<string, string>, onlyModified: bool,
                                               exclude: seq<string>, m: Matcher)
    requires i <= |nodes|
    requires DistinctPaths(nodes)
    requires forall j :: 0 <= j < |nodes| ==> DistinctPropNames(nodes[j].props)
    requires LopperTree.Distinct(acc)
    requires forall e :: e in acc ==> exists j :: 0 <= j < i && nodes[j].path == e.0
    ensures LopperTree.Distinct(FlaggedFrom(nodes, i, acc, table, onlyModified, exclude, m))
    decreases |nodes| - i
  {
    if i < |nodes| {
      var n := nodes[i];
      var add := if NodeChecked(n, onlyModified, exclude, m)
                 then NodeFlags(n.path, n.props, table, onlyModified) else [];
      NodeFlagsDistinct(n.path, n.props, table, onlyModified);
      forall e | e in add
        ensures e.0 == n.path
      {
        NodeFlagsMember(n.path, n.props, table, onlyModified, e);
      }
      forall e | e in acc
        ensures e !in add
      {
        var j :| 0 <= j < i && nodes[j].path == e.0;
        assert nodes[j].path != n.path;
      }
      DistinctJoin(acc, add);
      forall e | e in acc + add
        ensures exists j :: 0 <= j < i + 1 && nodes[j].path == e.0
      {
        if e in add {
          assert nodes[i].path == e.0;
        } else {
          var j :| 0 <= j < i && nodes[j].path == e.0;
          assert nodes[j].path == e.0;
        }
      }
      FlaggedFromDistinct(nodes, i + 1, acc + add, table, onlyModified, exclude, m);
    }
  }

  /** Each offending (path, property) pair is recorded at most once,
      however many of its targets are invalid. */
  lemma FlaggedOnce(nodes: seq<AuditNode>, table: map<string, string>, onlyModified: bool,
                    exclude: seq<string>, m: Matcher)
    requires DistinctPaths(nodes)
    requires forall j :: 0 <= j < |nodes| ==> DistinctPropNames(nodes[j].props)
    ensures LopperTree.Distinct(Flagged(nodes, table, onlyModified, exclude, m))
  {
    FlaggedFromDistinct(nodes, 0, [], table, onlyModified, exclude, m);
  }

  /** `report_invalid_phandles`. Each finding is logged. With werror the
      first one is logged as an error that exits (SystemExit). Otherwise
      the result is the number of findings. */
  method ReportInvalidPhandles(nodes: seq<AuditNode>, table: map<string, string>, werror: bool,
                               onlyModified: bool, exclude: seq<string>, m: Matcher)
    returns (r: Result<nat>)
    ensures var refs := Flagged(nodes, table, onlyModified, exclude, m);
      r == if werror && |refs| > 0 then Err(SystemExit) else Ok(|refs|)
  {
    var refs := CheckInvalidPhandles(nodes, table, onlyModified, exclude, m);
    if werror && |refs| > 0 {
      return Err(SystemExit);
    }
    return Ok(|refs|);
  }

  // ---------------------------------------------------------------------
  // check_reserved_memory_in_memory_ranges

  /** The `(start, end)` window of a `reg`-style value: the address read
      with `ac` cells and then the size read with `sc` cells after it. The
      end is the start plus the size. */
  function RangeOf(cells: seq<Cell>, ac: nat, sc: nat): (r: Result<(nat, nat)>)
    ensures r.Ok? ==> r.value.0 <= r.value.1
    ensures r.Err? ==> r.error == IndexError
  {
    match CellValueGet(cells, ac, 0)
    case Err(e) => Err(e)
    case Ok(a) =>
      match CellValueGet(cells, sc, ac)
      case Err(e) => Err(e)
      case Ok(z) => Ok((a.0, a.0 + z.0))
  }

  /** A chunk of exactly `ac + sc` cells is read without error exactly
      when there is at least one size cell. */
  lemma RangeOfChunk(chunk: seq<Cell>, ac: nat, sc: nat)
    requires |chunk| == ac + sc
    ensures RangeOf(chunk, ac, sc).Ok? <==> sc > 0
  {
  }

  /** The memory-range loop from offset i on, after the ranges `acc`. It
      steps by `ac + sc` cells and stops at a short chunk. */
  function RangesFrom(mem: seq<Cell>, ac: nat, sc: nat, i: nat, acc: seq<(nat, nat)>): (r: Result<seq<(nat, nat)>>)
    requires ac + sc > 0
    ensures r.Ok? ==> |r.value| >= |acc| && r.value[..|acc|] == acc
    ensures r.Err? ==> r.error == IndexError
    decreases |mem| - i
  {
    if i >= |mem| || |mem| - i < ac + sc then Ok(acc)
    else match RangeOf(mem[i..i + ac + sc], ac, sc)
      case Err(e) => Err(e)
      case Ok(rg) =>
        var r := RangesFrom(mem, ac, sc, i + ac + sc, acc + [rg]);
        assert r.Ok? ==> r.value[..|acc|] == r.value[..|acc| + 1][..|acc|];
        r
  }

  /** The domain's memory ranges. A cell count of 0 in total is a zero step
      for `range`, which raises ValueError. */
  function MemoryRanges(mem: seq<Cell>, ac: nat, sc: nat): (r: Result<seq<(nat, nat)>>)
    ensures ac + sc == 0 ==> r == Err(ValueError)
  {
    if ac + sc == 0 then Err(ValueError) else RangesFrom(mem, ac, sc, 0, [])
  }

  /** The window of the whole chunk at offset o of the memory property is x. */
  predicate ChunkRange(mem: seq<Cell>, ac: nat, sc: nat, o: nat, x: (nat, nat))
  {
    o + ac + sc <= |mem| && RangeOf(mem[o..o + ac + sc], ac, sc) == Ok(x)
  }

  /** With size cells the memory loop never fails. Each range it yields
      is the window of some whole chunk of the property. */
  lemma {:induction false} RangesFromOk(mem: seq<Cell>, ac: nat, sc: nat, i: nat, acc: seq<(nat, nat)>)
    requires ac + sc > 0 && sc > 0
    ensures RangesFrom(mem, ac, sc, i, acc).Ok?
    ensures forall x :: x in RangesFrom(mem, ac, sc, i, acc).value ==>
      x in acc || exists o :: i <= o && ChunkRange(mem, ac, sc, o, x)
    decreases |mem| - i
  {
    if !(i >= |mem| || |mem| - i < ac + sc) {
      var chunk := mem[i..i + ac + sc];
      RangeOfChunk(chunk, ac, sc);
      var rg := RangeOf(chunk, ac, sc).value;
      RangesFromOk(mem, ac, sc, i + ac + sc, acc + [rg]);
      assert RangesFrom(mem, ac, sc, i, acc) == RangesFrom(mem, ac, sc, i + ac + sc, acc + [rg]);
      forall x | x in RangesFrom(mem, ac, sc, i, acc).value
        ensures x in acc || exists o :: i <= o && ChunkRange(mem, ac, sc, o, x)
      {
        if x == rg {
          assert ChunkRange(mem, ac, sc, i, x);
        } else if x !in acc {
          assert x !in acc + [rg];
        }
      }
    }
  }

  /** A reserved-memory node as the check sees it:
      - its absolute path;
      - its `reg` value, or None when it has none;
      - its parent's `#address-cells[0]`, or None when reading it raises;
      - its parent's `#size-cells[0]`, or None likewise. */
  datatype ResNode = ResNode(path: string, reg: Option<seq<Cell>>, parentAc: Option<nat>, parentSc: Option<nat>)

  /** A cell count read with a fallback for when reading it raises. */
  function CellsOr(v: Option<nat>, fallback: nat): (r: nat)
    ensures v.Some? ==> r == v.value
    ensures v.None? ==> r == fallback
  {
    if v.Some? then v.value else fallback
  }

  /** Some domain memory range holds [s, e]. */
  predicate Within(ranges: seq<(nat, nat)>, s: nat, e: nat)
  {
    exists k :: 0 <= k < |ranges| && s >= ranges[k].0 && e <= ranges[k].1
  }

  /** What one entry of the domain's `reserved-memory` adds.
      - Nothing for a value that is not an integer.
      - Nothing for a phandle with no node.
      - Nothing for a node with no, or an empty, `reg`.
      - Otherwise the region (path, start, end) when no range holds it.
      The region's cell counts come from its parent, defaulting to the
      root's. A `reg` too short for them raises IndexError. */
  function RegionCheck(ph: PVal, pnode: int -> Option<ResNode>, ranges: seq<(nat, nat)>,
                       rootAc: nat, rootSc: nat): (r: Result<seq<(string, nat, nat)>>)
    ensures r.Ok? ==> |r.value| <= 1
  {
    if !ph.Num? then Ok([])
    else match pnode(ph.n)
      case None => Ok([])
      case Some(node) =>
        if node.reg.None? || |node.reg.value| == 0 then Ok([])
        else match RangeOf(node.reg.value, CellsOr(node.parentAc, rootAc), CellsOr(node.parentSc, rootSc))
          case Err(e) => Err(e)
          case Ok(rg) => if Within(ranges, rg.0, rg.1) then Ok([]) else Ok([(node.path, rg.0, rg.1)])
  }

  /** The reserved-memory loop from the i-th entry on, after the regions
      `acc`. */
  function RegionsFrom(phs: seq<PVal>, i: nat, acc: seq<(string, nat, nat)>, pnode: int -> Option<ResNode>,
                       ranges: seq<(nat, nat)>, rootAc: nat, rootSc: nat): Result<seq<(string, nat, nat)>>
    decreases |phs| - i
  {
    if i >= |phs| then Ok(acc)
    else match RegionCheck(phs[i], pnode, ranges, rootAc, rootSc)
      case Err(e) => Err(e)
      case Ok(add) => RegionsFrom(phs, i + 1, acc + add, pnode, ranges, rootAc, rootSc)
  }

  /** A value that reads as absent: no property, an empty list or `['']`. */
  predicate Blank(v: Option<seq<PVal>>)
  {
    v.None? || |v.value| == 0 || v.value == [Str("")]
  }

  /** `check_reserved_memory_in_memory_ranges(tree, domain)`.
      - `memory` is the domain's memory property; None when absent.
      - `reserved` is its reserved-memory property.
      - `rootAc` and `rootSc` are the root's cell counts; None when reading
        them raises.
      - `pnode` looks up a phandle. */
  function ReservedMemoryCheck(memory: Option<seq<Cell>>, reserved: Option<seq<PVal>>,
                               rootAc: Option<nat>, rootSc: Option<nat>,
                               pnode: int -> Option<ResNode>): (r: Result<seq<(string, nat, nat)>>)
    ensures memory.None? || |memory.value| == 0 ==> r == Ok([])
    ensures Blank(reserved) ==> r == Ok([])
  {
    if memory.None? || |memory.value| == 0 then Ok([])
    else if Blank(reserved) then Ok([])
    else
      var ac := CellsOr(rootAc, 2);
      var sc := CellsOr(rootSc, 2);
      match MemoryRanges(memory.value, ac, sc)
      case Err(e) => Err(e)
      case Ok(ranges) =>
        if |ranges| == 0 then Ok([])
        else RegionsFrom(reserved.value, 0, [], pnode, ranges, ac, sc)
  }

  /** The memory loop of the check. */
  method ParseMemoryRanges(mem: seq<Cell>, ac: nat, sc: nat) returns (r: Result<seq<(nat, nat)>>)
    ensures r == MemoryRanges(mem, ac, sc)
  {
    if ac + sc == 0 {
      return Err(ValueError);
    }
    var cellSize := ac + sc;
    var ranges: seq<(nat, nat)> := [];
    var i := 0;
    while i < |mem|
      invariant MemoryRanges(mem, ac, sc) == RangesFrom(mem, ac, sc, i, ranges)
      decreases |mem| - i
    {
      if |mem| - i < cellSize {
        break;
      }
      var chunk := mem[i..i + cellSize];
      var start := CellValueGet(chunk, ac, 0);
      if start.Err? {
        return Err(start.error);
      }
      var size := CellValueGet(chunk, sc, ac);
      if size.Err? {
        return Err(size.error);
      }
      ranges := ranges + [(start.value.0, start.value.0 + size.value.0)];
      i := i + cellSize;
    }
    return Ok(ranges);
  }

  /** The inner range loop: whether some memory range holds the region. */
  method InSomeRange(ranges: seq<(nat, nat)>, s: nat, e: nat) returns (found: bool)
    ensures found <==> Within(ranges, s, e)
  {
    found := false;
    var k := 0;
    while k < |ranges|
      invariant k <= |ranges|
      invariant forall j :: 0 <= j < k ==> !(s >= ranges[j].0 && e <= ranges[j].1)
    {
      if s >= ranges[k].0 && e <= ranges[k].1 {
        return true;
      }
      k := k + 1;
    }
  }

  /** One iteration of the reserved-memory loop. */
  method CheckRegion(ph: PVal, pnode: int -> Option<ResNode>, ranges: seq<(nat, nat)>,
                     rootAc: nat, rootSc: nat) returns (r: Result<seq<(string, nat, nat)>>)
    ensures r == RegionCheck(ph, pnode, ranges, rootAc, rootSc)
  {
    if !ph.Num? {
      return Ok([]);
    }
    var node := pnode(ph.n);
    if node.None? {
      return Ok([]);
    }
    var n := node.value;
    if n.reg.None? || |n.reg.value| == 0 {
      return Ok([]);
    }
    var ac := CellsOr(n.parentAc, rootAc);
    var sc := CellsOr(n.parentSc, rootSc);
    var window := RangeOf(n.reg.value, ac, sc);
    if window.Err? {
      return Err(window.error);
    }
    var found := InSomeRange(ranges, window.value.0, window.value.1);
    if found {
      return Ok([]);
    }
    return Ok([(n.path, window.value.0, window.value.1)]);
  }

  /** The reserved-memory check as the source runs it. */
  method CheckReservedMemory(memory: Option<seq<Cell>>, reserved: Option<seq<PVal>>,
                             rootAc: Option<nat>, rootSc: Option<nat>,
                             pnode: int -> Option<ResNode>) returns (r: Result<seq<(string, nat, nat)>>)
    ensures r == ReservedMemoryCheck(memory, reserved, rootAc, rootSc, pnode)
  {
    if memory.None? || |memory.value| == 0 {
      return Ok([]);
    }
    if reserved.None? || |reserved.value| == 0 || reserved.value == [Str("")] {
      return Ok([]);
    }
    var ac := if rootAc.Some? then rootAc.value else 2;
    var sc := if rootSc.Some? then rootSc.value else 2;
    var parsed := ParseMemoryRanges(memory.value, ac, sc);
    if parsed.Err? {
      return Err(parsed.error);
    }
    var ranges := parsed.value;
    if |ranges| == 0 {
      return Ok([]);
    }
    var phs := reserved.value;
    var regions: seq<(string, nat, nat)> := [];
    var i := 0;
    while i < |phs|
      invariant i <= |phs|
      invariant ReservedMemoryCheck(memory, reserved, rootAc, rootSc, pnode)
                == RegionsFrom(phs, i, regions, pnode, ranges, ac, sc)
    {
      var add := CheckRegion(phs[i], pnode, ranges, ac, sc);
      if add.Err? {
        return Err(add.error);
      }
      regions := regions + add.value;
      i := i + 1;
    }
    return Ok(regions);
  }

  /** A region is reported exactly when it comes from an entry of the
      list whose window no memory range holds. */
  lemma {:induction false} RegionsFromMember(phs: seq<PVal>, i: nat, acc: seq<(string, nat, nat)>,
                                             pnode: int -> Option<ResNode>, ranges: seq<(nat, nat)>,
                                             rootAc: nat, rootSc: nat, x: (string, nat, nat))
    requires RegionsFrom(phs, i, acc, pnode, ranges, rootAc, rootSc).Ok?
    ensures x in RegionsFrom(phs, i, acc, pnode, ranges, rootAc, rootSc).value <==>
      x in acc || exists j :: i <= j < |phs| && RegionCheck(phs[j], pnode, ranges, rootAc, rootSc) == Ok([x])
    decreases |phs| - i
  {
    if i < |phs| {
      var add := RegionCheck(phs[i], pnode, ranges, rootAc, rootSc).value;
      RegionsFromMember(phs, i + 1, acc + add, pnode, ranges, rootAc, rootSc, x);
      if x in add {
        assert add == [x];
      }
      if exists j :: i <= j < |phs| && RegionCheck(phs[j], pnode, ranges, rootAc, rootSc) == Ok([x]) {
        var j :| i <= j < |phs| && RegionCheck(phs[j], pnode, ranges, rootAc, rootSc) == Ok([x]);
        if j == i {
          assert x in acc + add;
        }
      }
    }
  }

  /** An entry reports a region exactly when it is a phandle whose node
      has a non-empty `reg`, and no memory range holds the window of that
      `reg`. */
  lemma RegionCheckReports(ph: PVal, pnode: int -> Option<ResNode>, ranges: seq<(nat, nat)>,
                           rootAc: nat, rootSc: nat, x: (string, nat, nat))
    ensures RegionCheck(ph, pnode, ranges, rootAc, rootSc) == Ok([x]) <==>
      ph.Num? && pnode(ph.n).Some? && pnode(ph.n).value.path == x.0
      && pnode(ph.n).value.reg.Some? && |pnode(ph.n).value.reg.value| > 0
      && RangeOf(pnode(ph.n).value.reg.value, CellsOr(pnode(ph.n).value.parentAc, rootAc),
                 CellsOr(pnode(ph.n).value.parentSc, rootSc)) == Ok((x.1, x.2))
      && !Within(ranges, x.1, x.2)
  {
  }

  /** The reserved-memory check reports (path, start, end) exactly when an
      entry of `reserved-memory` names that region and no memory range
      of the domain holds it. */
  lemma ReservedMemoryReports(memory: Option<seq<Cell>>, reserved: Option<seq<PVal>>,
                              rootAc: Option<nat>, rootSc: Option<nat>,
                              pnode: int -> Option<ResNode>, x: (string, nat, nat))
    requires ReservedMemoryCheck(memory, reserved, rootAc, rootSc, pnode).Ok?
    requires memory.Some? && |memory.value| > 0 && !Blank(reserved)
    requires MemoryRanges(memory.value, CellsOr(rootAc, 2), CellsOr(rootSc, 2)).Ok?
    ensures var ranges := MemoryRanges(memory.value, CellsOr(rootAc, 2), CellsOr(rootSc, 2)).value;
      var ac := CellsOr(rootAc, 2);
      var sc := CellsOr(rootSc, 2);
      x in ReservedMemoryCheck(memory, reserved, rootAc, rootSc, pnode).value <==>
        (|ranges| > 0 && exists j :: 0 <= j < |reserved.value| && RegionCheck(reserved.value[j], pnode, ranges, ac, sc) == Ok([x]))
  {
    var ranges := MemoryRanges(memory.value, CellsOr(rootAc, 2), CellsOr(rootSc, 2)).value;
    if |ranges| > 0 {
      RegionsFromMember(reserved.value, 0, [], pnode, ranges, CellsOr(rootAc, 2), CellsOr(rootSc, 2), x);
    }
  }

  /** Root cell counts that cannot be read count as 2. */
  lemma RootCellsDefault(memory: Option<seq<Cell>>, reserved: Option<seq<PVal>>, pnode: int -> Option<ResNode>)
    ensures ReservedMemoryCheck(memory, reserved, None, None, pnode)
         == ReservedMemoryCheck(memory, reserved, Some(2), Some(2), pnode)
  {
  }

  /** With the default two address and two size cells the memory
      property never fails to parse. Each range it yields is the window of
      a whole four-cell chunk. */
  lemma DefaultRangesParse(mem: seq<Cell>)
    ensures MemoryRanges(mem, 2, 2).Ok?
    ensures forall x :: x in MemoryRanges(mem, 2, 2).value ==>
      exists o :: ChunkRange(mem, 2, 2, o, x)
  {
    RangesFromOk(mem, 2, 2, 0, []);
  }

  /** `validate_reserved_memory_in_memory_ranges` as written. Each region is
      logged with `_error(msg)`. The default of `_error` is to exit, so the
      first region ends the run with SystemExit whatever `werror` says. */
  function ValidateAsWritten(memory: Option<seq<Cell>>, reserved: Option<seq<PVal>>,
                             rootAc: Option<nat>, rootSc: Option<nat>,
                             pnode: int -> Option<ResNode>, werror: bool): (r: Result<nat>)
    ensures var c := ReservedMemoryCheck(memory, reserved, rootAc, rootSc, pnode);
      c.Ok? && |c.value| > 0 ==> r == Err(SystemExit)
  {
    match ReservedMemoryCheck(memory, reserved, rootAc, rootSc, pnode)
    case Err(e) => Err(e)
    case Ok(regions) => if |regions| > 0 then Err(SystemExit) else Ok(0)
  }

  /** The wrapper as its contract describes it. With werror, the first
      region exits. Otherwise every region is logged and the result is
      their number. */
  method ValidateReservedMemory(memory: Option<seq<Cell>>, reserved: Option<seq<PVal>>,
                                rootAc: Option<nat>, rootSc: Option<nat>,
                                pnode: int -> Option<ResNode>, werror: bool) returns (r: Result<nat>)
    ensures var c := ReservedMemoryCheck(memory, reserved, rootAc, rootSc, pnode);
      r == if c.Err? then Err(c.error)
           else if werror && |c.value| > 0 then Err(SystemExit)
           else Ok(|c.value|)
  {
    var c := CheckReservedMemory(memory, reserved, rootAc, rootSc, pnode);
    if c.Err? {
      return Err(c.error);
    }
    if werror && |c.value| > 0 {
      return Err(SystemExit);
    }
    return Ok(|c.value|);
  }

  /** A domain with memory [0, 0x4000_0000) that reserves one region at
      0x8000_0000 of size 0x1000_0000. Its node sits under a parent of two
      address and two size cells. */
  function OutsideNode(ph: int): Option<ResNode>
  {
    if ph == 1 then Some(ResNode("/reserved-memory/outside", Some([0, 0x8000_0000, 0, 0x1000_0000]), Some(2), Some(2)))
    else None
  }

  /** On that domain the check finds the one region outside memory. The
      wrapper as written then exits even without werror. The wrapper as
      intended returns 1. */
  lemma ValidateExitsWithoutWerror()
    ensures ReservedMemoryCheck(Some([0, 0, 0, 0x4000_0000]), Some([Num(1)]), Some(2), Some(2), OutsideNode)
            == Ok([("/reserved-memory/outside", 0x8000_0000, 0x9000_0000)])
    ensures ValidateAsWritten(Some([0, 0, 0, 0x4000_0000]), Some([Num(1)]), Some(2), Some(2), OutsideNode, false)
            == Err(SystemExit)
  {
    var mem: seq<Cell> := [0, 0, 0, 0x4000_0000];
    assert mem[0..4] == mem;
    assert RangeOf(mem, 2, 2) == Ok((0, 0x4000_0000));
    assert RangesFrom(mem, 2, 2, 4, [(0, 0x4000_0000)]) == Ok([(0, 0x4000_0000)]);
    var ranges: seq<(nat, nat)> := [(0, 0x4000_0000)];
    assert RangeOf([0, 0x8000_0000, 0, 0x1000_0000], 2, 2) == Ok((0x8000_0000, 0x9000_0000));
    assert !Within(ranges, 0x8000_0000, 0x9000_0000);
    assert MemoryRanges(mem, 2, 2) == Ok(ranges);
    var x: (string, nat, nat) := ("/reserved-memory/outside", 0x8000_0000, 0x9000_0000);
    assert RegionCheck(Num(1), OutsideNode, ranges, 2, 2) == Ok([x]);
    var phs: seq<PVal> := [Num(1)];
    var acc: seq<(string, nat, nat)> := [];
    assert acc + [x] == [x];
    assert RegionsFrom(phs, 1, [x], OutsideNode, ranges, 2, 2) == Ok([x]);
    assert RegionsFrom(phs, 0, acc, OutsideNode, ranges, 2, 2) == Ok([x]);
  }
}
