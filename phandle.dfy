/** `LopperProp.phandle_map` and `LopperProp.phandle_params` of
    lopper/tree.py. The field descriptor a property name has in the
    `phandle_possible_properties` table is walked over the property's
    cells record by record: `#x` fields count cells from the node's own
    property x, `^...` fields from the parent's, `phandle` fields mark a
    cell as a phandle (and `phandle:prop` reads the cell count that follows
    from the node the phandle names), anything else is one cell. The cells
    are then cut into records and every phandle cell is looked up. */
module PhandleMaps {
  import opened Common
  import opened Base
  import opened Chunks

  type Props = map<string, seq<PVal>>

  /** What the walk sees besides the property itself: whether the property
      belongs to a node and the node to a tree, the tree's strict flag, the
      node's own and its parent's properties, `tree.deref` (a phandle or
      label to the path of a node), the properties of the node at a path,
      and Python's `eval` of a count followed by an expression suffix. */
  datatype Context = Context(
    hasNode: bool, inTree: bool, strict: bool,
    own: Props, parent: Option<Props>,
    deref: PVal -> Option<string>, propsOf: string -> Props,
    eval: (PVal, string) -> PVal)

  /** An entry of the map: 0 for an ordinary cell, the node a phandle cell
      names, or "#invalid" for a phandle cell that names no node. */
  datatype Entry = Zero | Target(path: string) | Invalid

  /** The kinds of descriptor fields, tested in this order: `#x`, `^...`,
      `phandle...`, a lookback `[+-]digits:prop`, anything else. */
  datatype Field =
    | Count(prop: string)
    | ParentCount(parts: seq<string>)
    | Ref(parts: seq<string>)
    | Lookback(sign: string)
    | Plain

  function Classify(tok: string): Field
  {
    if StartsWith(tok, "#") then Count(tok)
    else if StartsWith(tok, "^") then ParentCount(SplitOn(tok, ':'))
    else if StartsWith(tok, "phandle") then Ref(SplitOn(tok, ':'))
    else if LookbackToken(tok) then Lookback(if tok[0] == '+' || tok[0] == '-' then [tok[0]] else "")
    else Plain
  }

  function FieldsOf(toks: seq<string>): (fs: seq<Field>)
    ensures |fs| == |toks|
  {
    if |toks| == 0 then [] else [Classify(toks[0])] + FieldsOf(toks[1..])
  }

  function SignLength(tok: string): nat
  {
    if |tok| > 0 && (tok[0] == '+' || tok[0] == '-') then 1 else 0
  }

  function DigitRun(s: string, i: nat): (j: nat)
    requires i <= |s|
    ensures i <= j <= |s|
    decreases |s| - i
  {
    if i < |s| && '0' <= s[i] <= '9' then DigitRun(s, i + 1) else i
  }

  /** `re.match(r'([+-]?)(\d+):(.*)', tok)` on a token without blanks. */
  predicate LookbackToken(tok: string)
  {
    SignLength(tok) <= |tok| && SignLength(tok) < DigitRun(tok, SignLength(tok)) < |tok|
    && tok[DigitRun(tok, SignLength(tok))] == ':'
  }

  /** The first cell of a property, when there is one. */
  function FirstCell(props: Props, name: string): Option<PVal>
  {
    if name in props && |props[name]| > 0 then Some(props[name][0]) else None
  }

  /** The walk's counters: cells in the current record, the index of the
      next cell, and the indices of phandle cells so far. */
  datatype Scan = Scan(gs: int, idx: int, refs: seq<int>)

  /** After one field: go on, stop the walk (`break`), or leave
      `phandle_map` with a value or an exception. */
  datatype Outcome = Next(s: Scan) | Stop(s: Scan) | Early(r: Result<seq<seq<Entry>>>)

  /** A failed lookup returns the (still empty) map at once when the
      property's node is in a strict tree. */
  predicate StrictTree(ctx: Context)
  {
    ctx.hasNode && ctx.inTree && ctx.strict
  }

  /** Advance by `extra` cells and a count read from a property: a missing
      count is 1 (or the empty map in a strict tree), and a textual count
      cannot be added (TypeError). */
  function Advance(ctx: Context, found: Option<PVal>, s: Scan, extra: int): Outcome
  {
    match found
    case None =>
      if StrictTree(ctx) then Early(Ok([])) else Next(Scan(s.gs + extra + 1, s.idx + extra + 1, s.refs))
    case Some(Str(_)) => Early(Err(TypeError))
    case Some(Num(n)) => Next(Scan(s.gs + extra + n, s.idx + extra + n, s.refs))
  }

  /** One field of the descriptor. A lookback always fails: the list it
      indexes is only filled after the walk (an IndexError for a "-"
      offset, a TypeError for the string index otherwise). */
  function FieldStep(ctx: Context, value: seq<PVal>, f: Field, s: Scan): Outcome
  {
    match f
    case Count(x) =>
      Advance(ctx, if ctx.hasNode then FirstCell(ctx.own, x) else None, s, 0)
    case ParentCount(parts) =>
      if |parts| != 2 then Next(Scan(s.gs + 1, s.idx + 1, s.refs))
      else Advance(ctx, if ctx.hasNode && ctx.parent.Some? then FirstCell(ctx.parent.value, parts[1]) else None, s, 0)
    case Ref(parts) => RefStep(ctx, value, parts, s)
    case Lookback(sign) => Early(Err(if sign == "-" then IndexError else TypeError))
    case Plain => Next(Scan(s.gs + 1, s.idx + 1, s.refs))
  }

  /** A `phandle` field: the cell at the index is a phandle; with a
      `:prop` part the count of cells after it is read from the node the
      phandle names (with a third part, adjusted by `eval`). A missing cell
      skips the field, or ends the walk when the property has a node and
      the index is past the end. */
  function RefStep(ctx: Context, value: seq<PVal>, parts: seq<string>, s: Scan): Outcome
  {
    var refs := s.refs + [s.idx];
    match PyAt(value, s.idx)
    case None =>
      if ctx.hasNode && s.idx >= |value| then Stop(Scan(s.gs, s.idx, refs)) else Next(Scan(s.gs, s.idx, refs))
    case Some(v) =>
      if |parts| < 2 then Next(Scan(s.gs + 1, s.idx + 1, refs))
      else if !(ctx.hasNode && ctx.inTree) then Early(Ok([]))
      else
        var found := match ctx.deref(v) case Some(t) => FirstCell(ctx.propsOf(t), parts[1]) case None => None;
        if found.None? && ctx.strict then Early(Ok([]))
        else
          var c := if found.Some? then found.value else Num(1);
          match (if |parts| == 3 then ctx.eval(c, parts[2]) else c)
          case Str(_) => Early(Err(TypeError))
          case Num(n) => Next(Scan(s.gs + 1 + n, s.idx + 1 + n, refs))
  }

  /** One pass of the field loop over the whole descriptor. */
  function Pass(ctx: Context, value: seq<PVal>, fields: seq<Field>, s: Scan): Outcome
    decreases |fields|
  {
    if |fields| == 0 then Next(s)
    else match FieldStep(ctx, value, fields[0], s)
      case Next(s') => Pass(ctx, value, fields[1..], s')
      case o => o
  }

  /** The result of the record loop: the last record's size, all record
      sizes and the phandle cells, or the early result. */
  datatype Walk = Walked(gs: int, sizes: seq<int>, refs: seq<int>) | Quit(r: Result<seq<seq<Entry>>>)

  /** The record loop from a record starting at cell idx: one pass per
      record, going on while the next index names a cell. A record that
      does not move the index forward ends the loop. */
  function Records(ctx: Context, value: seq<PVal>, fields: seq<Field>, idx: int, refs: seq<int>, sizes: seq<int>): Walk
    decreases |value| - idx
  {
    match Pass(ctx, value, fields, Scan(0, idx, refs))
    case Early(r) => Quit(r)
    case Stop(s) => Walked(s.gs, sizes + [s.gs], s.refs)
    case Next(s) =>
      if PyAt(value, s.idx).Some? && s.idx > idx then Records(ctx, value, fields, s.idx, s.refs, sizes + [s.gs])
      else Walked(s.gs, sizes + [s.gs], s.refs)
  }

  /** The record loop as written: it goes on while the next index names a
      cell, whether or not the record moved it. `fuel` bounds the number of
      records; None means the fuel ran out. */
  function RecordsAsWritten(ctx: Context, value: seq<PVal>, fields: seq<Field>, idx: int, refs: seq<int>,
                            sizes: seq<int>, fuel: nat): Option<Walk>
    decreases fuel
  {
    if fuel == 0 then None
    else match Pass(ctx, value, fields, Scan(0, idx, refs))
      case Early(r) => Some(Quit(r))
      case Stop(s) => Some(Walked(s.gs, sizes + [s.gs], s.refs))
      case Next(s) =>
        if PyAt(value, s.idx).Some? then RecordsAsWritten(ctx, value, fields, s.idx, s.refs, sizes + [s.gs], fuel - 1)
        else Some(Walked(s.gs, sizes + [s.gs], s.refs))
  }

  /** The records: `chunks_variable` by the record sizes, or fixed chunks
      of the last record's size when the sizes do not add up. */
  function Grouped(value: seq<PVal>, sizes: seq<int>, gs: int): seq<seq<PVal>>
  {
    match ChunksVariable(value, sizes)
    case Ok(g) => g
    case Err(_) => if gs > 0 then Chunks.Chunks(value, gs) else []
  }

  /** The entry for the cell p at running position k. */
  function Mark(ctx: Context, p: PVal, k: int, refs: seq<int>): Entry
  {
    if k !in refs then Zero
    else if !(ctx.hasNode && ctx.inTree) then Invalid
    else match ctx.deref(p)
      case Some(t) => Target(t)
      case None => Invalid
  }

  function MarkRun(ctx: Context, g: seq<PVal>, k: int, refs: seq<int>): (r: seq<Entry>)
    ensures |r| == |g|
    ensures forall i :: 0 <= i < |g| ==> r[i] == Mark(ctx, g[i], k + i, refs)
  {
    seq(|g|, i requires 0 <= i < |g| => Mark(ctx, g[i], k + i, refs))
  }

  /** The entries record by record, positions counted across records. */
  function Assemble(ctx: Context, groups: seq<seq<PVal>>, k: int, refs: seq<int>): (r: seq<seq<Entry>>)
    ensures |r| == |groups|
    ensures forall i :: 0 <= i < |r| ==> |r[i]| == |groups[i]|
    decreases |groups|
  {
    if |groups| == 0 then []
    else [MarkRun(ctx, groups[0], k, refs)] + Assemble(ctx, groups[1..], k + |groups[0]|, refs)
  }

  /** `phandle_map()` with the tag for invalid phandles on. A property
      whose name has no descriptor, a json property and a property of a
      lop node give the empty map. */
  function PhandleMapOf(ctx: Context, installed: map<string, string>, name: string, pclass: string,
                        value: seq<PVal>): (r: Result<seq<seq<Entry>>>)
    ensures name !in PhandlePossibleProperties(installed) || pclass == "json" || |value| == 0 ==> r == Ok([])
  {
    var table := PhandlePossibleProperties(installed);
    if name !in table || pclass == "json" || MarksLop(ctx) || |value| == 0 then Ok([])
    else match Records(ctx, value, FieldsOf(SplitWs(table[name])), 0, [], [])
      case Quit(r) => r
      case Walked(gs, sizes, refs) => if gs == 0 then Ok([]) else Ok(Assemble(ctx, Grouped(value, sizes, gs), 0, refs))
  }

  /** The node's `compatible` names a lop ("system-device-tree-v1,lop"),
      and every entry is a string (a number makes `re.search` raise, and
      the exception skips the early return). */
  predicate MarksLop(ctx: Context)
  {
    ctx.hasNode && "compatible" in ctx.own
    && (forall i :: 0 <= i < |ctx.own["compatible"]| ==> ctx.own["compatible"][i].Str?)
    && exists i :: 0 <= i < |ctx.own["compatible"]| && Contains(ctx.own["compatible"][i].s, "system-device-tree-v1,lop")
  }

  /** The field loop of `phandle_map` for one record starting at cell idx:
      the outcome of one pass over the descriptor. */
  method FieldPass(ctx: Context, value: seq<PVal>, fields: seq<Field>, idx0: int, refs0: seq<int>)
    returns (o: Outcome)
    ensures o == Pass(ctx, value, fields, Scan(0, idx0, refs0))
  {
    var gs, idx, refs := 0, idx0, refs0;
    var i := 0;
    while i < |fields|
      invariant 0 <= i <= |fields|
      invariant Pass(ctx, value, fields, Scan(0, idx0, refs0)) == Pass(ctx, value, fields[i..], Scan(gs, idx, refs))
    {
      assert fields[i..][1..] == fields[i + 1..];
      match FieldStep(ctx, value, fields[i], Scan(gs, idx, refs))
      case Early(e) =>
        return Early(e);
      case Stop(t) =>
        return Stop(t);
      case Next(t) =>
        gs, idx, refs := t.gs, t.idx, t.refs;
        i := i + 1;
    }
    o := Next(Scan(gs, idx, refs));
  }

  /** `phandle_map()`: the descriptor loop over records, then the records
      cut out and their phandle cells looked up. */
  method PhandleMap(ctx: Context, installed: map<string, string>, name: string, pclass: string,
                    value: seq<PVal>) returns (r: Result<seq<seq<Entry>>>)
    ensures r == PhandleMapOf(ctx, installed, name, pclass, value)
  {
    var table := PhandlePossibleProperties(installed);
    if name !in table || pclass == "json" || MarksLop(ctx) {
      return Ok([]);
    }
    var fields := FieldsOf(SplitWs(table[name]));
    ghost var spec := Records(ctx, value, fields, 0, [], []);
    var gs, idx, refs, sizes := 0, 0, [], [];
    var going := PyAt(value, 0).Some?;
    while going
      invariant going ==> PyAt(value, idx).Some? && spec == Records(ctx, value, fields, idx, refs, sizes)
      invariant !going ==> (|value| == 0 && gs == 0) || (|value| > 0 && spec == Walked(gs, sizes, refs))
      decreases if going then |value| - idx + 1 else 0
    {
      var start := idx;
      var o := FieldPass(ctx, value, fields, idx, refs);
      match o
      case Early(e) =>
        return e;
      case Stop(t) =>
        gs, idx, refs := t.gs, t.idx, t.refs;
        sizes := sizes + [gs];
        going := false;
      case Next(t) =>
        gs, idx, refs := t.gs, t.idx, t.refs;
        sizes := sizes + [gs];
        if PyAt(value, idx).None? || idx <= start {
          going := false;
        }
    }
    if gs == 0 {
      return Ok([]);
    }
    var groups := Grouped(value, sizes, gs);
    var entries := AssembleEntries(ctx, groups, refs);
    r := Ok(entries);
  }

  /** The inner loop of the last loop of `phandle_map`: one record. */
  method MarkRecord(ctx: Context, g: seq<PVal>, k0: int, refs: seq<int>) returns (sub: seq<Entry>)
    ensures sub == MarkRun(ctx, g, k0, refs)
  {
    sub := [];
    for j := 0 to |g|
      invariant sub == MarkRun(ctx, g[..j], k0, refs)
    {
      sub := sub + [Mark(ctx, g[j], k0 + j, refs)];
    }
    assert g[..|g|] == g;
  }

  /** One record more: the loop invariant of `AssembleEntries` moves on. */
  lemma AssembleStep(ctx: Context, groups: seq<seq<PVal>>, g: nat, k: int, refs: seq<int>,
                     out: seq<seq<Entry>>, sub: seq<Entry>, goal: seq<seq<Entry>>)
    requires g < |groups|
    requires out + Assemble(ctx, groups[g..], k, refs) == goal
    requires sub == MarkRun(ctx, groups[g], k, refs)
    ensures (out + [sub]) + Assemble(ctx, groups[g + 1..], k + |groups[g]|, refs) == goal
  {
    assert groups[g..][1..] == groups[g + 1..];
    assert Assemble(ctx, groups[g..], k, refs)
           == [sub] + Assemble(ctx, groups[g + 1..], k + |groups[g]|, refs);
    AppendAssocEntries(out, [sub], Assemble(ctx, groups[g + 1..], k + |groups[g]|, refs));
  }

  lemma AppendAssocEntries(a: seq<seq<Entry>>, b: seq<seq<Entry>>, c: seq<seq<Entry>>)
    ensures (a + b) + c == a + (b + c)
  {
  }

  /** One pass of the last loop of `phandle_map`: the next record marked. */
  method AssembleNext(ctx: Context, groups: seq<seq<PVal>>, refs: seq<int>, g: nat, k: int,
                      out: seq<seq<Entry>>, ghost goal: seq<seq<Entry>>) returns (out': seq<seq<Entry>>, k': int)
    requires g < |groups|
    requires out + Assemble(ctx, groups[g..], k, refs) == goal
    ensures out' + Assemble(ctx, groups[g + 1..], k', refs) == goal
  {
    var sub := MarkRecord(ctx, groups[g], k, refs);
    AssembleStep(ctx, groups, g, k, refs, out, sub, goal);
    out' := out + [sub];
    k' := k + |groups[g]|;
  }

  /** The last loop of `phandle_map`: one list per record, each cell 0
      unless its running position is a phandle position. */
  method AssembleEntries(ctx: Context, groups: seq<seq<PVal>>, refs: seq<int>) returns (out: seq<seq<Entry>>)
    ensures out == Assemble(ctx, groups, 0, refs)
  {
    ghost var goal := Assemble(ctx, groups, 0, refs);
    out := [];
    var k := 0;
    assert groups[0..] == groups;
    for g := 0 to |groups|
      invariant out + Assemble(ctx, groups[g..], k, refs) == goal
    {
      out, k := AssembleNext(ctx, groups, refs, g, k, out, goal);
    }
    assert groups[|groups|..] == [];
  }

  /** Read across records, the entries are the cells marked one by one:
      no cell is lost, added or moved. */
  lemma {:induction false} AssembleFlat(ctx: Context, groups: seq<seq<PVal>>, k: int, refs: seq<int>)
    ensures Flatten(Assemble(ctx, groups, k, refs)) == MarkRun(ctx, Flatten(groups), k, refs)
    decreases |groups|
  {
    if |groups| > 0 {
      AssembleFlat(ctx, groups[1..], k + |groups[0]|, refs);
      var a := MarkRun(ctx, groups[0], k, refs);
      var b := MarkRun(ctx, Flatten(groups[1..]), k + |groups[0]|, refs);
      assert Flatten(groups) == groups[0] + Flatten(groups[1..]);
      assert a + b == MarkRun(ctx, Flatten(groups), k, refs);
    }
  }

  /** When the record loop ends normally with a non-empty last record and
      the record sizes are not negative, the map has one entry per cell
      of the property: the entry at position k is 0 unless a `phandle`
      field sat at k, and then the node the cell names or "#invalid".
      When the sizes add up to the number of cells, the records have
      exactly those sizes. */
  lemma PhandleMapCells(ctx: Context, installed: map<string, string>, name: string, pclass: string,
                        value: seq<PVal>, gs: int, sizes: seq<int>, refs: seq<int>)
    requires name in PhandlePossibleProperties(installed) && pclass != "json" && !MarksLop(ctx) && |value| > 0
    requires Records(ctx, value, FieldsOf(SplitWs(PhandlePossibleProperties(installed)[name])), 0, [], [])
      == Walked(gs, sizes, refs)
    requires gs > 0 && forall i :: 0 <= i < |sizes| ==> sizes[i] >= 0
    ensures PhandleMapOf(ctx, installed, name, pclass, value).Ok?
    ensures var m := PhandleMapOf(ctx, installed, name, pclass, value).value;
      Flatten(m) == MarkRun(ctx, value, 0, refs)
      && (SumInt(sizes) == |value| ==> |m| == |sizes| && forall i :: 0 <= i < |m| ==> |m[i]| == sizes[i])
  {
    var groups := Grouped(value, sizes, gs);
    ChunksVariableLaws(value, sizes);
    if SumInt(sizes) != |value| {
      ChunksLaws(value, gs);
    }
    assert Flatten(groups) == value;
    AssembleFlat(ctx, groups, 0, refs);
  }

  /** A `#x` field takes its count from the node's property x, and counts
      1 when the node or the property is missing (in a strict tree the map
      is then empty). */
  lemma CountField(ctx: Context, value: seq<PVal>, x: string, s: Scan, n: int)
    requires StartsWith(x, "#")
    ensures ctx.hasNode && FirstCell(ctx.own, x) == Some(Num(n)) ==>
      FieldStep(ctx, value, Classify(x), s) == Next(Scan(s.gs + n, s.idx + n, s.refs))
    ensures (!ctx.hasNode || FirstCell(ctx.own, x).None?) && !StrictTree(ctx) ==>
      FieldStep(ctx, value, Classify(x), s) == Next(Scan(s.gs + 1, s.idx + 1, s.refs))
    ensures (!ctx.hasNode || FirstCell(ctx.own, x).None?) && StrictTree(ctx) ==>
      FieldStep(ctx, value, Classify(x), s) == Early(Ok([]))
  {
  }

  /** A descriptor of one field `#c`, on a node whose `#c` is 0. */
  function StuckContext(): Context
  {
    Context(true, true, false, map["#c" := [Num(0)]], None, (p: PVal) => None, (t: string) => map[],
            (c: PVal, e: string) => c)
  }

  /** One pass over the stuck property consumes nothing. */
  lemma StuckPass(refs: seq<int>)
    ensures Pass(StuckContext(), [Num(7)], [Count("#c")], Scan(0, 0, refs)) == Next(Scan(0, 0, refs))
  {
    var ctx := StuckContext();
    assert FirstCell(ctx.own, "#c") == Some(Num(0));
    assert FieldStep(ctx, [Num(7)], Count("#c"), Scan(0, 0, refs)) == Next(Scan(0, 0, refs));
  }

  /** As written, the record loop never ends on the property <7> with the
      descriptor "#c" when the node's `#c` is 0: the record consumes no
      cell, so every pass starts where the previous one did. */
  lemma {:induction false} StuckAsWritten(fuel: nat, sizes: seq<int>)
    ensures RecordsAsWritten(StuckContext(), [Num(7)], [Count("#c")], 0, [], sizes, fuel) == None
    decreases fuel
  {
    if fuel > 0 {
      StuckPass([]);
      assert PyAt([Num(7)], 0).Some?;
      StuckAsWritten(fuel - 1, sizes + [0]);
    }
  }

  /** With the loop stopping at a record that consumes no cell, the same
      property gives the empty map. */
  lemma StuckRecords()
    ensures Records(StuckContext(), [Num(7)], [Count("#c")], 0, [], []) == Walked(0, [0], [])
  {
    StuckPass([]);
  }

  lemma StuckCorrected()
    ensures PhandleMapOf(StuckContext(), map["p" := "#c"], "p", "", [Num(7)]) == Ok([])
  {
    StuckRecords();
    assert !IsSpace('#') && !IsSpace('c');
    assert NonSpaceRunEnd("#c", 2) == 2;
    assert NonSpaceRunEnd("#c", 0) == 2;
    assert "#c"[..2] == "#c" && "#c"[2..] == "";
    assert SplitWs("") == [];
    assert SplitWs("#c") == ["#c"[..2]] + SplitWs("#c"[2..]);
    assert Classify("#c") == Count("#c");
    assert FieldsOf(SplitWs("#c")) == [Count("#c")];
    assert PhandlePossibleProperties(map["p" := "#c"])["p"] == "#c";
  }

  /** No entry of the map names a node. */
  predicate AllZero(m: seq<seq<Entry>>)
  {
    forall a, b :: 0 <= a < |m| && 0 <= b < |m[a]| ==> m[a][b] == Zero
  }

  /** Entry b of record a is the first that is not 0. */
  predicate FirstAt(m: seq<seq<Entry>>, a: int, b: int)
  {
    0 <= a < |m| && 0 <= b < |m[a]| && m[a][b] != Zero && AllZero(m[..a])
    && forall j :: 0 <= j < b ==> m[a][j] == Zero
  }

  /** `phandle_params()`: the 1-based position, counted across records, of
      the first entry that names a node (or is "#invalid"), and the size
      of its record; (0, 0) when every entry is 0. The exceptions of
      `phandle_map` pass through. */
  method PhandleParams(ctx: Context, installed: map<string, string>, name: string, pclass: string,
                       value: seq<PVal>) returns (r: Result<(nat, nat)>)
    ensures PhandleMapOf(ctx, installed, name, pclass, value).Err? ==>
      r == Err(PhandleMapOf(ctx, installed, name, pclass, value).error)
    ensures PhandleMapOf(ctx, installed, name, pclass, value).Ok? ==> (r.Ok? &&
      var m := PhandleMapOf(ctx, installed, name, pclass, value).value;
      (r.value == (0, 0) && AllZero(m))
      || exists a, b :: FirstAt(m, a, b) && r.value == (|Flatten(m[..a])| + b + 1, |m[a]|))
  {
    var pm := PhandleMap(ctx, installed, name, pclass, value);
    if pm.Err? {
      return Err(pm.error);
    }
    var m := pm.value;
    var fieldIndex := 0;
    for a := 0 to |m|
      invariant fieldIndex == |Flatten(m[..a])| && AllZero(m[..a])
    {
      for b := 0 to |m[a]|
        invariant fieldIndex == |Flatten(m[..a])| + b
        invariant forall j :: 0 <= j < b ==> m[a][j] == Zero
      {
        fieldIndex := fieldIndex + 1;
        if m[a][b] != Zero {
          assert FirstAt(m, a, b);
          return Ok((fieldIndex, |m[a]|));
        }
      }
      assert m[..a + 1] == m[..a] + [m[a]];
      FlattenAppend(m[..a], m[a]);
    }
    assert m[..|m|] == m;
    return Ok((0, 0));
  }
}

/** The model's record walk against the record loop as written in
    `phandle_map` (lopper/tree.py:753-760). */
module PhandleWalks {
  import opened Common
  import opened Base
  import opened PhandleMaps

  /** Every record of the walk from idx that is followed by another cell
      moves the index forward, so the stop in `Records` never fires early. */
  predicate Forward(ctx: Context, value: seq<PVal>, fields: seq<Field>, idx: int, refs: seq<int>)
    decreases |value| - idx
  {
    match Pass(ctx, value, fields, Scan(0, idx, refs))
    case Next(s) => PyAt(value, s.idx).Some? ==> s.idx > idx && Forward(ctx, value, fields, s.idx, s.refs)
    case _ => true
  }

  /** On a walk whose records all move the index forward, the record loop
      as written ends within |value| - idx + 1 passes, with the walk
      `Records` gives. */
  lemma {:induction false} RecordsMatchAsWritten(ctx: Context, value: seq<PVal>, fields: seq<Field>, idx: int,
                                                 refs: seq<int>, sizes: seq<int>, fuel: nat)
    requires fuel > 0 && fuel > |value| - idx
    requires Forward(ctx, value, fields, idx, refs)
    ensures RecordsAsWritten(ctx, value, fields, idx, refs, sizes, fuel) == Some(Records(ctx, value, fields, idx, refs, sizes))
    decreases |value| - idx
  {
    match Pass(ctx, value, fields, Scan(0, idx, refs))
    case Early(r) =>
    case Stop(s) =>
    case Next(s) =>
      if PyAt(value, s.idx).Some? {
        RecordsMatchAsWritten(ctx, value, fields, s.idx, s.refs, sizes + [s.gs], fuel - 1);
      }
  }
}
