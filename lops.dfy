/** The lop engine of lopper/__init__.py: the `select`, `modify`,
    `meta` (phandle-desc) and `conditional` lops of `LopperSDT.exec_lop`,
    and the priority run queue and gating of `perform_lops`. Nodes are
    named by their absolute paths (LopperNode equality is path equality);
    the tree lookups a lop makes are passed in as functions. */
module Lops {
  import opened Common
  import opened LopperTree
  import Base

  // ------------------------------------------------------------ select

  /** What a lop sees of the tree: `tree.nodes(regex)`, `tree.lnodes(label)`,
      `node[prop]` (None when it raises KeyError) and `LopperProp.compare`
      of a test value against a node's value. */
  datatype Env = Env(
    byPath: string -> seq<string>,
    byLabel: string -> seq<string>,
    propOf: (string, string) -> Option<seq<PVal>>,
    compare: (seq<PVal>, seq<PVal>) -> bool)

  /** A select clause `node_regex:prop:value`. */
  datatype Clause = Clause(nodes: string, prop: string, val: string)

  /** `node_regex, prop, prop_val = s.split(":")`: exactly three parts
      unpack, any other count leaves the whole text as the node pattern. */
  function ParseClause(s: string): Clause
  {
    var parts := SplitOn(s, ':');
    if |parts| == 3 then Clause(parts[0], parts[1], parts[2]) else Clause(s, "", "")
  }

  /** A clause written out with its two colons parses back to itself. */
  lemma ParseClauseJoin(c: Clause)
    requires ':' !in c.nodes && ':' !in c.prop && ':' !in c.val
    ensures ParseClause(c.nodes + ":" + c.prop + ":" + c.val) == c
  {
    var parts := [c.nodes, c.prop, c.val];
    assert parts[1..] == [c.prop, c.val] && parts[1..][1..] == [c.val];
    assert JoinWith([c.val], ':') == c.val;
    assert JoinWith([c.prop, c.val], ':') == c.prop + ":" + c.val;
    assert JoinWith(parts, ':') == c.nodes + ":" + (c.prop + ":" + c.val);
    assert c.nodes + ":" + (c.prop + ":" + c.val) == c.nodes + ":" + c.prop + ":" + c.val;
    SplitJoin(parts, ':');
  }

  /** A text without a colon is all node pattern. */
  lemma ParseClauseNoColon(s: string)
    requires ':' !in s
    ensures ParseClause(s) == Clause(s, "", "")
  {
    SplitNoSep(s, ':');
  }

  /** `re.sub('^\!', '', s)`: one leading '!' removed. */
  function StripBang(s: string): (r: string)
    ensures |s| > 0 && s[0] == '!' ==> r == s[1..]
    ensures !(|s| > 0 && s[0] == '!') ==> r == s
  {
    if |s| > 0 && s[0] == '!' then s[1..] else s
  }

  /** What a clause with a property does to one candidate: append it to
      the selection, remove it, or leave the selection alone. */
  datatype Verdict = Add | Drop | Keep

  /** The verdict on candidate x. A value test (`prop:value`) compares the
      converted value `want` with x's property, inverted when the value
      held a '!'; a failed test removes x only in a clause without a node
      pattern. An existence test (`prop:` or `!prop:`) removes or adds x
      whatever the clause's node pattern. */
  function VerdictOn(env: Env, c: Clause, want: seq<PVal>, x: string): Verdict
    requires c.prop != ""
  {
    if c.val != "" then
      var v := env.propOf(x, c.prop);
      if Truthy(v) && env.compare(want, v.value) != ('!' in c.val) then Add
      else if c.nodes == "" then Drop
      else Keep
    else
      var v := env.propOf(x, StripBang(c.prop));
      if '!' !in c.prop then (if v.Some? then Add else Drop)
      else if Truthy(v) then Drop
      else Add
  }

  /** `list.remove(x)`: the first occurrence taken out. */
  function RemoveFirst(s: seq<string>, x: string): (r: seq<string>)
    ensures x in s ==> multiset(r) == multiset(s) - multiset{x}
    ensures x !in s ==> r == s
  {
    if |s| == 0 then []
    else
      assert s == [s[0]] + s[1..];
      if s[0] == x then s[1..] else [s[0]] + RemoveFirst(s[1..], x)
  }

  /** One verdict applied to the selection: an Add appends x unless it is
      there, a Drop removes its first occurrence if it is there. */
  function Apply(v: Verdict, x: string, sel: seq<string>): seq<string>
  {
    match v
    case Add => if x in sel then sel else sel + [x]
    case Drop => RemoveFirst(sel, x)
    case Keep => sel
  }

  /** The candidate loop of a clause with a property, from the first
      candidate to the last. */
  function Sweep(env: Env, c: Clause, want: seq<PVal>, cands: seq<string>, sel: seq<string>): seq<string>
    requires c.prop != ""
    decreases |cands|
  {
    if |cands| == 0 then sel
    else Sweep(env, c, want, cands[1..], Apply(VerdictOn(env, c, want, cands[0]), cands[0], sel))
  }

  /** A Python list of node paths as an object: `selected_nodes`,
      `selected_nodes_possible` and `tree.__selected__` are names bound
      to such lists, and two of them can be bound to the same list. */
  class NodeList {
    var items: seq<string>

    constructor(xs: seq<string>)
      ensures items == xs
    {
      items := xs;
    }
  }

  /** The select loop's state as values: the contents of the selection
      being built (`selected_nodes`), of the candidates
      (`selected_nodes_possible`) and of the tree's selection
      (`tree.__selected__`), and which of these names are bound to one
      list. */
  datatype SelState = SelState(selected: seq<string>, possible: seq<string>, treeSel: seq<string>,
                               selPoss: bool, selTree: bool, possTree: bool)

  /** Names bound to one list show the same contents, and being bound to
      one list is transitive. */
  predicate Coherent(st: SelState)
  {
    (st.selPoss ==> st.selected == st.possible)
    && (st.selTree ==> st.selected == st.treeSel)
    && (st.possTree ==> st.possible == st.treeSel)
    && (st.selPoss && st.selTree ==> st.possTree)
    && (st.selPoss && st.possTree ==> st.selTree)
    && (st.selTree && st.possTree ==> st.selPoss)
  }

  /** The state three list objects make. */
  function Snapshot(s: NodeList, p: NodeList, t: NodeList): (st: SelState)
    reads s, p, t
    ensures Coherent(st)
  {
    SelState(s.items, p.items, t.items, s == p, s == t, p == t)
  }

  /** The nodes a clause's node pattern names: `tree.nodes(regex)` for a
      pattern starting with '/', `tree.lnodes(label)` otherwise. */
  function Found(env: Env, c: Clause): seq<string>
  {
    if StartsWith(c.nodes, "/") then env.byPath(c.nodes) else env.byLabel(c.nodes)
  }

  /** The candidates of a clause: with a node pattern, the earlier
      candidates followed by the nodes it names; without one, the
      selection so far, or the tree's selection when that is empty. */
  function Candidates(env: Env, c: Clause, st: SelState): seq<string>
  {
    if c.nodes != "" then st.possible + Found(env, c)
    else if |st.selected| > 0 then st.selected
    else st.treeSel
  }

  /** Rebinding the candidates for a clause: a node pattern binds them to
      a new list; without one they are bound to the selection list
      itself, or to the tree's selection list when the selection is
      empty. */
  function Retarget(env: Env, c: Clause, st: SelState): (r: SelState)
    ensures r.possible == Candidates(env, c, st)
    ensures r.selected == st.selected && r.treeSel == st.treeSel && r.selTree == st.selTree
    ensures Coherent(st) ==> Coherent(r)
  {
    if c.nodes != "" then st.(possible := st.possible + Found(env, c), selPoss := false, possTree := false)
    else if |st.selected| > 0 then st.(possible := st.selected, selPoss := true, possTree := st.selTree)
    else st.(possible := st.treeSel, possTree := true, selPoss := st.selTree)
  }

  /** The selection list changed in place to xs: every name bound to it
      sees xs, the others keep their contents. */
  function WriteSelected(st: SelState, xs: seq<string>): (r: SelState)
    ensures r.selected == xs
    ensures Coherent(st) ==> Coherent(r)
  {
    st.(selected := xs,
        possible := if st.selPoss then xs else st.possible,
        treeSel := if st.selTree then xs else st.treeSel)
  }

  /** The test value of a clause: `property_convert` of the value without
      its leading '!' (it ends the program on a bad cell list). */
  function TestValue(c: Clause): Result<seq<PVal>>
  {
    if c.prop != "" && c.val != "" then Base.Convert(StripBang(c.val)) else Ok([])
  }

  /** One sweep of a copy of the candidates into the selection list. */
  function SweepStep(env: Env, c: Clause, want: seq<PVal>, st: SelState): SelState
    requires c.prop != ""
  {
    WriteSelected(st, Sweep(env, c, want, st.possible, st.selected))
  }

  /** The existence test on a clause's property (`prop:` or `!prop:`). */
  function ExistsPart(c: Clause): Clause
  {
    c.(val := "")
  }

  /** A value test whose value converts to an empty list (`<>`, `!<>`)
      is followed by the existence test: after the conversion the value
      is falsy, so the existence branch runs as well, over the candidate
      list as the value sweep left it. */
  predicate Retests(c: Clause, want: seq<PVal>)
  {
    c.val != "" && want == []
  }

  /** One clause: the candidates are rebound; a property test sweeps a
      copy of them, changing the selection list in place (twice for a
      value that converts to nothing); a clause with neither property nor
      value binds the selection to the candidate list itself; a value
      with no property does nothing more. */
  function ClauseStep(env: Env, s: string, st: SelState): Result<SelState>
  {
    var c := ParseClause(s);
    var st1 := Retarget(env, c, st);
    match TestValue(c)
    case Err(e) => Err(e)
    case Ok(want) =>
      if c.prop != "" then
        var st2 := SweepStep(env, c, want, st1);
        if Retests(c, want) then Ok(SweepStep(env, ExistsPart(c), [], st2)) else Ok(st2)
      else if c.val == "" then Ok(st1.(selected := st1.possible, selPoss := true, selTree := st1.possTree))
      else Ok(st1)
  }

  /** The clauses of one `select_N` property, in order. */
  function ClauseRun(env: Env, values: seq<string>, st: SelState): Result<SelState>
    decreases |values|
  {
    if |values| == 0 then Ok(st)
    else match ClauseStep(env, values[0], st)
      case Err(e) => Err(e)
      case Ok(st') => ClauseRun(env, values[1..], st')
  }

  /** One `select_N` property: the value [""] binds the tree's selection
      to a new empty list; otherwise its clauses run and the candidates
      are bound to the selection list for the next property. */
  function SelectProp(env: Env, values: seq<string>, st: SelState): Result<SelState>
  {
    if values == [""] then Ok(st.(treeSel := [], selTree := false, possTree := false))
    else match ClauseRun(env, values, st)
      case Err(e) => Err(e)
      case Ok(st') => Ok(st'.(possible := st'.selected, selPoss := true, possTree := st'.selTree))
  }

  function SelectRun(env: Env, props: seq<seq<string>>, st: SelState): Result<SelState>
    decreases |props|
  {
    if |props| == 0 then Ok(st)
    else match SelectProp(env, props[0], st)
      case Err(e) => Err(e)
      case Ok(st') => SelectRun(env, props[1..], st')
  }

  /** The state a select lop starts from: two new empty lists and the
      tree's selection. */
  function SelStart(treeSel: seq<string>): SelState
  {
    SelState([], [], treeSel, false, false, false)
  }

  /** The tree's new selection after a select lop with these `select_*`
      properties. */
  function SelectOf(env: Env, props: seq<seq<string>>, treeSel: seq<string>): Result<seq<string>>
  {
    match SelectRun(env, props, SelStart(treeSel))
    case Err(e) => Err(e)
    case Ok(st) => Ok(st.selected)
  }

  /** The select lop: the clauses of every `select_*` property run in
      order on list objects; the tree's selection becomes the nodes
      selected, and the lop returns whether any were. */
  method Select(env: Env, props: seq<seq<string>>, treeSel: seq<string>)
    returns (r: Result<(seq<string>, bool)>)
    ensures SelectOf(env, props, treeSel).Err? ==> r == Err(SelectOf(env, props, treeSel).error)
    ensures SelectOf(env, props, treeSel).Ok? ==>
      r.Ok? && r.value.0 == SelectOf(env, props, treeSel).value && (r.value.1 <==> |r.value.0| > 0)
  {
    var selected := new NodeList([]);
    var possible := new NodeList([]);
    var tree := new NodeList(treeSel);
    var k := 0;
    while k < |props|
      invariant k <= |props|
      invariant fresh(selected) && fresh(possible) && fresh(tree)
      invariant SelectRun(env, props, SelStart(treeSel))
             == SelectRun(env, props[k..], Snapshot(selected, possible, tree))
    {
      var values := props[k];
      assert props[k..][1..] == props[k + 1..];
      if values == [""] {
        tree := new NodeList([]);
      } else {
        var res := RunClauses(env, values, selected, possible, tree);
        if res.Err? {
          return Err(res.error);
        }
        selected := res.value.0;
        possible := selected;
      }
      k := k + 1;
    }
    return Ok((selected.items, |selected.items| > 0));
  }

  /** The clause loop of one `select_N` property, on the lists bound to
      `selected_nodes`, `selected_nodes_possible` and `tree.__selected__`;
      it returns the lists the first two names are bound to at the end. */
  method RunClauses(env: Env, values: seq<string>, s: NodeList, p: NodeList, t: NodeList)
    returns (r: Result<(NodeList, NodeList)>)
    modifies s, p, t
    ensures ClauseRun(env, values, old(Snapshot(s, p, t))).Err? ==>
      r == Err(ClauseRun(env, values, old(Snapshot(s, p, t))).error)
    ensures ClauseRun(env, values, old(Snapshot(s, p, t))).Ok? ==>
      r.Ok? && Snapshot(r.value.0, r.value.1, t) == ClauseRun(env, values, old(Snapshot(s, p, t))).value
    ensures r.Ok? ==> (r.value.0 in {s, p, t} || fresh(r.value.0))
  {
    ghost var st0 := Snapshot(s, p, t);
    var sel, poss := s, p;
    var i := 0;
    while i < |values|
      invariant i <= |values|
      invariant sel in {s, p, t} || fresh(sel)
      invariant poss in {s, p, t} || fresh(poss)
      invariant ClauseRun(env, values, st0) == ClauseRun(env, values[i..], Snapshot(sel, poss, t))
    {
      assert values[i..][1..] == values[i + 1..];
      var res := StepClause(env, values[i], sel, poss, t);
      if res.Err? {
        return Err(res.error);
      }
      sel, poss := res.value.0, res.value.1;
      i := i + 1;
    }
    r := Ok((sel, poss));
  }

  /** One clause on the lists: rebind the candidates, then sweep them
      into the selection list, or bind the selection to the candidate
      list. It returns the lists the two names are bound to afterwards. */
  method StepClause(env: Env, v: string, sel: NodeList, poss: NodeList, t: NodeList)
    returns (r: Result<(NodeList, NodeList)>)
    modifies sel
    ensures ClauseStep(env, v, old(Snapshot(sel, poss, t))).Err? ==>
      r == Err(ClauseStep(env, v, old(Snapshot(sel, poss, t))).error)
    ensures ClauseStep(env, v, old(Snapshot(sel, poss, t))).Ok? ==>
      r.Ok? && Snapshot(r.value.0, r.value.1, t) == ClauseStep(env, v, old(Snapshot(sel, poss, t))).value
    ensures r.Ok? ==> (r.value.0 in {sel, t} || fresh(r.value.0)) && (r.value.1 in {sel, t} || fresh(r.value.1))
  {
    var c := ParseClause(v);
    var cands := Rebind(env, c, sel, poss, t);
    ghost var st1 := Snapshot(sel, cands, t);
    var want: seq<PVal> := [];
    if c.prop != "" && c.val != "" {
      var conv := Base.PropertyConvert(StripBang(c.val));
      if conv.Err? {
        return Err(conv.error);
      }
      want := conv.value;
    }
    if c.prop != "" {
      SweepCandidates(env, c, want, cands.items, sel);
      assert Snapshot(sel, cands, t) == SweepStep(env, c, want, st1);
      if c.val != "" && want == [] {
        ghost var st2 := Snapshot(sel, cands, t);
        SweepCandidates(env, ExistsPart(c), [], cands.items, sel);
        assert Snapshot(sel, cands, t) == SweepStep(env, ExistsPart(c), [], st2);
      }
      r := Ok((sel, cands));
    } else if c.val == "" {
      r := Ok((cands, cands));
    } else {
      r := Ok((sel, cands));
    }
  }

  /** The candidates rebound for a clause: a new list, the selection
      list, or the tree's selection list. */
  method Rebind(env: Env, c: Clause, sel: NodeList, poss: NodeList, t: NodeList) returns (cands: NodeList)
    ensures Snapshot(sel, cands, t) == Retarget(env, c, Snapshot(sel, poss, t))
    ensures cands in {sel, t} || fresh(cands)
  {
    if c.nodes != "" {
      cands := new NodeList(poss.items + Found(env, c));
    } else if |sel.items| > 0 {
      cands := sel;
    } else {
      cands := t;
    }
  }

  /** The loop over a copy of the candidates, appending to and removing
      from the selection list in place. */
  method SweepCandidates(env: Env, c: Clause, want: seq<PVal>, cands: seq<string>, sel: NodeList)
    requires c.prop != ""
    modifies sel
    ensures sel.items == Sweep(env, c, want, cands, old(sel.items))
  {
    ghost var sel0 := sel.items;
    var i := 0;
    while i < |cands|
      invariant i <= |cands|
      invariant Sweep(env, c, want, cands, sel0) == Sweep(env, c, want, cands[i..], sel.items)
    {
      assert cands[i..][1..] == cands[i + 1..];
      var x := cands[i];
      var v := VerdictOn(env, c, want, x);
      if v == Add && x !in sel.items {
        sel.items := sel.items + [x];
      } else if v == Drop && x in sel.items {
        sel.items := RemoveFirst(sel.items, x);
      }
      i := i + 1;
    }
  }

  /** Membership after the candidate loop: x ends up selected exactly when
      a candidate x was added, or x was already selected and not removed.
      This needs a removed node to be at most as often in the selection as
      among the candidates (each removal takes out one copy). */
  lemma {:induction false} SweepMembership(env: Env, c: Clause, want: seq<PVal>, cands: seq<string>, sel: seq<string>, x: string)
    requires c.prop != ""
    requires VerdictOn(env, c, want, x) == Drop ==> multiset(sel)[x] <= multiset(cands)[x]
    ensures x in Sweep(env, c, want, cands, sel) <==>
      (x in cands && VerdictOn(env, c, want, x) == Add) || (x in sel && VerdictOn(env, c, want, x) != Drop)
    decreases |cands|
  {
    if |cands| > 0 {
      var y := cands[0];
      var sel' := Apply(VerdictOn(env, c, want, y), y, sel);
      assert cands == [y] + cands[1..];
      assert multiset(cands)[x] == multiset(cands[1..])[x] + (if y == x then 1 else 0);
      if y != x {
        assert multiset(sel')[x] == multiset(sel)[x];
      }
      SweepMembership(env, c, want, cands[1..], sel', x);
    }
  }

  /** The loop only appends candidates that are not selected yet, so the
      selection stays within the candidates, copies counted. */
  lemma {:induction false} SweepBound(env: Env, c: Clause, want: seq<PVal>, all: seq<string>, cands: seq<string>, sel: seq<string>)
    requires c.prop != ""
    requires multiset(sel) <= multiset(all)
    requires forall y :: y in cands ==> y in all
    ensures multiset(Sweep(env, c, want, cands, sel)) <= multiset(all)
    decreases |cands|
  {
    if |cands| > 0 {
      var y := cands[0];
      var sel' := Apply(VerdictOn(env, c, want, y), y, sel);
      if VerdictOn(env, c, want, y) == Add && y !in sel {
        assert multiset(sel') == multiset(sel) + multiset{y};
        assert multiset(sel)[y] == 0 && y in all;
        forall z
          ensures multiset(sel')[z] <= multiset(all)[z]
        {
          if z != y {
            assert multiset(sel')[z] == multiset(sel)[z];
          }
        }
      }
      SweepBound(env, c, want, all, cands[1..], sel');
    }
  }

  /** What holds between clauses: the selection lies within the
      candidates, copies counted. */
  predicate Within(st: SelState)
  {
    multiset(st.selected) <= multiset(st.possible)
  }

  /** One sweep keeps the selection within the candidates and the names
      coherent and bound as they were; x ends up selected exactly when it
      is a candidate that passes, or was selected and is not dropped. */
  lemma SweepStepMembership(env: Env, c: Clause, want: seq<PVal>, st: SelState, x: string)
    requires c.prop != "" && Within(st) && Coherent(st)
    ensures var r := SweepStep(env, c, want, st);
      Within(r) && Coherent(r)
      && r.selPoss == st.selPoss && r.selTree == st.selTree && r.possTree == st.possTree
      && r.possible == (if st.selPoss then r.selected else st.possible)
      && r.treeSel == (if st.selTree then r.selected else st.treeSel)
    ensures x in SweepStep(env, c, want, st).selected <==>
      (x in st.possible && VerdictOn(env, c, want, x) == Add)
      || (x in st.selected && VerdictOn(env, c, want, x) != Drop)
  {
    SweepMembership(env, c, want, st.possible, st.selected, x);
    SweepBound(env, c, want, st.possible, st.possible, st.selected);
  }

  /** A clause keeps the selection within the candidates and the names
      coherent. The candidate list afterwards is the selection list when
      the two are bound together, else the clause's candidates; the tree's
      selection sees the new selection when bound to it. Membership: a
      property test adds the candidates it passes and removes those it
      fails with a Drop; when the value converts to nothing, the existence
      test that follows decides alone, except on a selection a pathless
      clause swept in place, where both tests must pass; a bare node
      pattern selects exactly its candidates; a value without a property
      changes nothing. */
  lemma ClauseMembership(env: Env, s: string, st: SelState, x: string)
    requires Within(st) && Coherent(st)
    requires ClauseStep(env, s, st).Ok?
    ensures Within(ClauseStep(env, s, st).value) && Coherent(ClauseStep(env, s, st).value)
    ensures var c, st' := ParseClause(s), ClauseStep(env, s, st).value;
      st'.possible == (if st'.selPoss then st'.selected else Candidates(env, c, st))
      && st'.treeSel == (if st'.selTree then st'.selected else st.treeSel)
    ensures var c, st' := ParseClause(s), ClauseStep(env, s, st).value;
      if c.prop != "" then
        var want := TestValue(c).value;
        var passes := (x in Candidates(env, c, st) && VerdictOn(env, c, want, x) == Add)
                      || (x in st.selected && VerdictOn(env, c, want, x) != Drop);
        (x in st'.selected <==>
          if !Retests(c, want) then passes
          else VerdictOn(env, ExistsPart(c), [], x) == Add
               && (if c.nodes == "" && |st.selected| > 0 then passes else x in Candidates(env, c, st)))
      else if c.val == "" then st'.selected == Candidates(env, c, st)
      else st'.selected == st.selected
  {
    var c := ParseClause(s);
    var st1 := Retarget(env, c, st);
    var cands := st1.possible;
    assert multiset(st.selected) <= multiset(cands) by {
      if c.nodes != "" {
        assert multiset(cands) == multiset(st.possible) + multiset(Found(env, c));
      }
    }
    if c.prop != "" {
      var want := TestValue(c).value;
      SweepStepMembership(env, c, want, st1, x);
      if Retests(c, want) {
        var st2 := SweepStep(env, c, want, st1);
        SweepStepMembership(env, ExistsPart(c), [], st2, x);
        if !(c.nodes == "" && |st.selected| > 0) && x in st2.selected && !st1.selPoss {
          assert multiset(st2.selected)[x] <= multiset(cands)[x];
        }
      }
    }
  }

  /** A clause with a node pattern and a value test only ever adds: every
      node selected before stays selected, and the new ones are the
      candidates (earlier candidates and the pattern's nodes) that pass.
      A value that converts to nothing instead leaves selected exactly
      the candidates that pass the existence test on the property. */
  lemma PathClauseAdds(env: Env, s: string, st: SelState, x: string)
    requires Within(st) && Coherent(st)
    requires ParseClause(s).nodes != "" && ParseClause(s).prop != "" && ParseClause(s).val != ""
    requires ClauseStep(env, s, st).Ok?
    ensures var c := ParseClause(s);
      var want := TestValue(c).value;
      x in ClauseStep(env, s, st).value.selected <==>
        if Retests(c, want) then
          x in st.possible + Found(env, c) && VerdictOn(env, ExistsPart(c), [], x) == Add
        else
          x in st.selected
          || (x in st.possible + Found(env, c) && VerdictOn(env, c, want, x) == Add)
  {
    ClauseMembership(env, s, st, x);
  }

  /** A clause without a node pattern refines: it works on the selection
      so far (or the tree's selection when nothing is selected yet), and a
      node stays selected exactly when it passes the test. A value that
      converts to nothing adds the existence test, which on the tree's
      selection replaces the value test. */
  lemma PathlessClauseRefines(env: Env, s: string, st: SelState, x: string)
    requires Within(st) && Coherent(st)
    requires ParseClause(s).nodes == "" && ParseClause(s).prop != ""
    requires ClauseStep(env, s, st).Ok?
    ensures var c := ParseClause(s);
      var want := TestValue(c).value;
      x in ClauseStep(env, s, st).value.selected <==>
        x in (if |st.selected| > 0 then st.selected else st.treeSel)
        && (|st.selected| > 0 || !Retests(c, want) ==> VerdictOn(env, c, want, x) == Add)
        && (Retests(c, want) ==> VerdictOn(env, ExistsPart(c), [], x) == Add)
  {
    ClauseMembership(env, s, st, x);
  }

  /** A pathless clause that works on the selection shares its list: the
      candidates a later path clause extends are the refined selection,
      not the selection the clause started from. */
  lemma PathlessSharesList(env: Env, s: string, st: SelState)
    requires Within(st) && Coherent(st)
    requires ParseClause(s).nodes == "" && ParseClause(s).prop != "" && |st.selected| > 0
    requires ClauseStep(env, s, st).Ok?
    ensures ClauseStep(env, s, st).value.possible == ClauseStep(env, s, st).value.selected
  {
    ClauseMembership(env, s, st, "");
  }

  /** A '!' in front of a pathless clause's value inverts the test for a
      node with a non-empty property: `:p:!v` keeps it exactly when
      `:p:v` does not. On an empty selection a value that converts to
      nothing is the exception: the existence test that follows selects
      the node under both. */
  lemma InvertFlips(env: Env, p: string, v: string, st: SelState, x: string)
    requires Within(st) && Coherent(st)
    requires p != "" && v != "" && ':' !in p && ':' !in v && '!' !in p && '!' !in v
    requires Base.Convert(v).Ok?
    requires x in (if |st.selected| > 0 then st.selected else st.treeSel) && Truthy(env.propOf(x, p))
    ensures ClauseStep(env, ":" + p + ":" + v, st).Ok? && ClauseStep(env, ":" + p + ":!" + v, st).Ok?
    ensures var sel := ClauseStep(env, ":" + p + ":" + v, st).value.selected;
      var inv := ClauseStep(env, ":" + p + ":!" + v, st).value.selected;
      if Base.Convert(v) == Ok([]) && |st.selected| == 0 then x in sel && x in inv
      else (x in inv <==> x !in sel)
  {
    var c, ci := Clause("", p, v), Clause("", p, "!" + v);
    ParseClauseJoin(c);
    ParseClauseJoin(ci);
    assert "" + ":" + p + ":" + v == ":" + p + ":" + v;
    assert "" + ":" + p + ":" + ("!" + v) == ":" + p + ":!" + v;
    assert StripBang(ci.val) == v && ci.val[0] == '!';
    assert StripBang(v) == v by {
      assert v[0] != '!';
    }
    PathlessClauseRefines(env, ":" + p + ":" + v, st, x);
    PathlessClauseRefines(env, ":" + p + ":!" + v, st, x);
  }

  /** The existence tests: `:p:` keeps exactly the nodes that have p, and
      `:!p:` exactly those whose p is missing or empty. */
  lemma ExistenceTests(env: Env, p: string, st: SelState, x: string)
    requires Within(st) && Coherent(st)
    requires p != "" && ':' !in p && '!' !in p
    ensures ClauseStep(env, ":" + p + ":", st).Ok? && ClauseStep(env, ":!" + p + ":", st).Ok?
    ensures var base := if |st.selected| > 0 then st.selected else st.treeSel;
      (x in ClauseStep(env, ":" + p + ":", st).value.selected <==> x in base && env.propOf(x, p).Some?)
      && (x in ClauseStep(env, ":!" + p + ":", st).value.selected <==> x in base && !Truthy(env.propOf(x, p)))
  {
    var c, cn := Clause("", p, ""), Clause("", "!" + p, "");
    ParseClauseJoin(c);
    ParseClauseJoin(cn);
    assert "" + ":" + p + ":" + "" == ":" + p + ":";
    assert "" + ":" + ("!" + p) + ":" + "" == ":!" + p + ":";
    assert StripBang(cn.prop) == p && cn.prop[0] == '!';
    assert StripBang(p) == p by {
      assert p[0] != '!';
    }
    PathlessClauseRefines(env, ":" + p + ":", st, x);
    PathlessClauseRefines(env, ":!" + p + ":", st, x);
  }

  /** A path clause with no property selects the earlier candidates and
      every node the pattern finds, and the two names share one new
      list. */
  lemma PathClauseUnion(env: Env, path: string, st: SelState)
    requires ':' !in path && StartsWith(path, "/")
    ensures ClauseStep(env, path, st) ==
      Ok(SelState(st.possible + env.byPath(path), st.possible + env.byPath(path), st.treeSel,
                  true, false, false))
  {
    ParseClauseNoColon(path);
  }

  /** A tree seen through the lookups: /a and /b exist, only /a has a
      property q, and none has p. */
  function ExampleEnv(): Env
  {
    Env(
      pat => if pat == "/a" then ["/a"] else if pat == "/b" then ["/b"] else [],
      lab => [],
      (x, pr) => if x == "/a" && pr == "q" then Some([]) else None,
      (u, w) => true)
  }

  /** "/a" selects /a, ":p:" drops it (it has no p), and "/b:q:" then
      sees only /b: the list /a was dropped from is the candidate list
      too, so /a is not tested for q although it has it. */
  lemma SharedListExample()
    ensures ClauseRun(ExampleEnv(), ["/a", ":p:", "/b:q:"], SelStart([]))
         == Ok(SelState([], ["/b"], [], false, false, false))
  {
    ExampleFirst();
    ExampleSecond();
    ExampleThird();
    assert ["/a", ":p:", "/b:q:"][1..] == [":p:", "/b:q:"];
    assert [":p:", "/b:q:"][1..] == ["/b:q:"];
  }

  /** "/a" binds both names to a new list [/a]. */
  lemma ExampleFirst()
    ensures ClauseStep(ExampleEnv(), "/a", SelStart([])) == Ok(SelState(["/a"], ["/a"], [], true, false, false))
  {
    var env := ExampleEnv();
    var c := Clause("/a", "", "");
    ParseClauseNoColon("/a");
    assert StartsWith("/a", "/");
    assert Found(env, c) == ["/a"];
    assert Retarget(env, c, SelStart([])) == SelState([], ["/a"], [], false, false, false);
  }

  /** ":p:" drops /a from the shared list, emptying both names. */
  lemma ExampleSecond()
    ensures ClauseStep(ExampleEnv(), ":p:", SelState(["/a"], ["/a"], [], true, false, false))
         == Ok(SelState([], [], [], true, false, false))
  {
    var env := ExampleEnv();
    var c := Clause("", "p", "");
    ParseClauseJoin(c);
    assert "" + ":" + "p" + ":" + "" == ":p:";
    var st1 := SelState(["/a"], ["/a"], [], true, false, false);
    assert Retarget(env, c, st1) == st1;
    assert VerdictOn(env, c, [], "/a") == Drop;
    assert Sweep(env, c, [], ["/a"], ["/a"]) == [];
  }

  /** "/b:q:" extends the emptied candidates by /b alone and drops it. */
  lemma ExampleThird()
    ensures ClauseStep(ExampleEnv(), "/b:q:", SelState([], [], [], true, false, false))
         == Ok(SelState([], ["/b"], [], false, false, false))
  {
    var env := ExampleEnv();
    var c := Clause("/b", "q", "");
    ParseClauseJoin(c);
    assert "/b" + ":" + "q" + ":" + "" == "/b:q:";
    assert StartsWith("/b", "/");
    assert Found(env, c) == ["/b"];
    var st3 := Retarget(env, c, SelState([], [], [], true, false, false));
    assert st3 == SelState([], ["/b"], [], false, false, false);
    assert VerdictOn(env, c, [], "/b") == Drop;
    assert Sweep(env, c, [], ["/b"], []) == [];
  }

  /** "/a:q:<>" selects /a: its q is empty, so the value test passes it
      by, but `<>` converts to nothing and the existence test on q that
      follows adds it. */
  lemma EmptyCellsExample()
    ensures ClauseStep(ExampleEnv(), "/a:q:<>", SelStart([]))
         == Ok(SelState(["/a"], ["/a"], [], false, false, false))
  {
    var env := ExampleEnv();
    var c := Clause("/a", "q", "<>");
    ParseClauseJoin(c);
    assert "/a" + ":" + "q" + ":" + "<>" == "/a:q:<>";
    assert StartsWith("/a", "/") && StartsWith("<>", "<");
    assert Found(env, c) == ["/a"];
    assert Base.CellTokens("<>") == [];
    assert TestValue(c) == Ok([]);
    assert VerdictOn(env, c, [], "/a") == Keep;
    assert VerdictOn(env, ExistsPart(c), [], "/a") == Add;
    var st1 := Retarget(env, c, SelStart([]));
    assert st1 == SelState([], ["/a"], [], false, false, false);
    assert Sweep(env, c, [], ["/a"], []) == [];
    assert Sweep(env, ExistsPart(c), [], ["/a"], []) == ["/a"];
  }

  /** An empty `select_N` clears the tree's selection, leaving the
      selection being built and the candidates as they are. */
  lemma EmptySelectClears(env: Env, st: SelState)
    ensures SelectProp(env, [""], st).Ok?
    ensures var st' := SelectProp(env, [""], st).value;
      st'.treeSel == [] && st'.selected == st.selected && st'.possible == st.possible
      && !st'.selTree && !st'.possTree
  {
  }

  /** Every property keeps the selection within the candidates and the
      names coherent. */
  lemma {:induction false} ClauseRunWithin(env: Env, values: seq<string>, st: SelState)
    requires Within(st) && Coherent(st) && ClauseRun(env, values, st).Ok?
    ensures Within(ClauseRun(env, values, st).value) && Coherent(ClauseRun(env, values, st).value)
    decreases |values|
  {
    if |values| > 0 {
      ClauseMembership(env, values[0], st, "");
      ClauseRunWithin(env, values[1..], ClauseStep(env, values[0], st).value);
    }
  }

  /** The selection state of every select lop stays within its
      candidates, with coherent names, so the clause lemmas above apply to
      each clause. */
  lemma {:induction false} SelectRunWithin(env: Env, props: seq<seq<string>>, st: SelState)
    requires Within(st) && Coherent(st) && SelectRun(env, props, st).Ok?
    ensures Within(SelectRun(env, props, st).value) && Coherent(SelectRun(env, props, st).value)
    decreases |props|
  {
    if |props| > 0 {
      if props[0] != [""] {
        ClauseRunWithin(env, props[0], st);
      }
      SelectRunWithin(env, props[1..], SelectProp(env, props[0], st).value);
    }
  }

  // ------------------------------------------------------- conditional

  /** A property of the last node of a conditional chain: a condition on
      the target nodes. */
  datatype Cond = Cond(name: string, value: seq<PVal>)

  /** A name ending in "__not__" inverts the condition. */
  predicate Inverted(k: Cond)
  {
    EndsWith(k.name, "__not__")
  }

  /** The property a condition looks for: its name without "__not__". */
  function CondProp(k: Cond): (r: string)
    ensures Inverted(k) ==> k.name == r + "__not__"
    ensures !Inverted(k) ==> r == k.name
  {
    if Inverted(k) then k.name[..|k.name| - 7] else k.name
  }

  /** Target x meets condition k: x has the (non-empty) property and the
      condition's value compares equal to it, or unequal when inverted. */
  predicate Holds(env: Env, k: Cond, x: string)
  {
    var v := env.propOf(x, CondProp(k));
    Truthy(v) && env.compare(k.value, v.value) != Inverted(k)
  }

  /** The targets that matched (`tgt_matches`) and failed
      (`tgt_false_matches`). */
  datatype Outcome = Outcome(hits: seq<string>, misses: seq<string>)

  /** One target under one condition: a target that meets it is added to
      the matches; one that does not is taken out of the matches and added
      to the failures. */
  function Judge(env: Env, k: Cond, x: string, o: Outcome): Outcome
  {
    if Holds(env, k, x) then
      Outcome(if x in o.hits then o.hits else o.hits + [x], o.misses)
    else
      Outcome(RemoveFirst(o.hits, x), if x in o.misses then o.misses else o.misses + [x])
  }

  function JudgeAll(env: Env, k: Cond, targets: seq<string>, o: Outcome): Outcome
    decreases |targets|
  {
    if |targets| == 0 then o else JudgeAll(env, k, targets[1..], Judge(env, k, targets[0], o))
  }

  function CondRun(env: Env, conds: seq<Cond>, targets: seq<string>, o: Outcome): Outcome
    decreases |conds|
  {
    if |conds| == 0 then o else CondRun(env, conds[1..], targets, JudgeAll(env, conds[0], targets, o))
  }

  /** The two lists the conditional lop builds before it runs its `true*`
      blocks on the matches and its `false*` blocks on the failures. */
  method ConditionalMatches(env: Env, conds: seq<Cond>, targets: seq<string>)
    returns (hits: seq<string>, misses: seq<string>)
    ensures Outcome(hits, misses) == CondRun(env, conds, targets, Outcome([], []))
  {
    hits, misses := [], [];
    var i := 0;
    while i < |conds|
      invariant i <= |conds|
      invariant CondRun(env, conds, targets, Outcome([], [])) == CondRun(env, conds[i..], targets, Outcome(hits, misses))
    {
      assert conds[i..][1..] == conds[i + 1..];
      var k := conds[i];
      var j := 0;
      while j < |targets|
        invariant j <= |targets|
        invariant CondRun(env, conds, targets, Outcome([], []))
               == CondRun(env, conds[i + 1..], targets, JudgeAll(env, k, targets[j..], Outcome(hits, misses)))
      {
        assert targets[j..][1..] == targets[j + 1..];
        var x := targets[j];
        if Holds(env, k, x) {
          if x !in hits {
            hits := hits + [x];
          }
        } else {
          if x in hits {
            hits := RemoveFirst(hits, x);
          }
          if x !in misses {
            misses := misses + [x];
          }
        }
        j := j + 1;
      }
      i := i + 1;
    }
  }

  /** Removing x from a list without repeats takes every x out. */
  lemma {:induction false} RemoveFirstDistinct(s: seq<string>, x: string)
    requires Distinct(s)
    ensures x !in RemoveFirst(s, x) && Distinct(RemoveFirst(s, x))
    ensures forall y :: y != x ==> (y in RemoveFirst(s, x) <==> y in s)
    decreases |s|
  {
    if |s| > 0 {
      assert s == [s[0]] + s[1..];
      assert Distinct(s[1..]) && s[0] !in s[1..];
      if s[0] != x {
        RemoveFirstDistinct(s[1..], x);
        DistinctCons(s[0], RemoveFirst(s[1..], x));
      }
    }
  }

  lemma DistinctCons(a: string, r: seq<string>)
    requires a !in r && Distinct(r)
    ensures Distinct([a] + r)
  {
    forall i, j | 0 <= i < j < |[a] + r|
      ensures ([a] + r)[i] != ([a] + r)[j]
    {
      if i > 0 {
        assert ([a] + r)[i] == r[i - 1];
      }
      assert ([a] + r)[j] == r[j - 1];
    }
  }

  /** One condition over all targets: afterwards a target is a match
      exactly when it meets this condition, and a failure when it failed
      this one or failed before. */
  lemma {:induction false} JudgeAllMembership(env: Env, k: Cond, targets: seq<string>, o: Outcome, x: string)
    requires Distinct(o.hits)
    ensures Distinct(JudgeAll(env, k, targets, o).hits)
    ensures x in JudgeAll(env, k, targets, o).hits <==>
      (x in targets && Holds(env, k, x)) || (x !in targets && x in o.hits)
    ensures x in JudgeAll(env, k, targets, o).misses <==>
      (x in targets && !Holds(env, k, x)) || x in o.misses
    decreases |targets|
  {
    if |targets| > 0 {
      var y := targets[0];
      var o' := Judge(env, k, y, o);
      if Holds(env, k, y) {
        if y !in o.hits {
          assert o'.hits == o.hits + [y];
        }
      } else {
        RemoveFirstDistinct(o.hits, y);
      }
      assert Distinct(o'.hits);
      JudgeAllMembership(env, k, targets[1..], o', x);
      assert targets == [y] + targets[1..];
    }
  }

  /** As written, a target ends among the matches when it meets the LAST
      condition, and among the failures when it fails ANY condition. */
  lemma {:induction false} CondRunMembership(env: Env, conds: seq<Cond>, targets: seq<string>, o: Outcome, x: string)
    requires Distinct(o.hits) && |conds| > 0
    requires forall y :: y in o.hits ==> y in targets
    ensures x in CondRun(env, conds, targets, o).hits <==> x in targets && Holds(env, conds[|conds| - 1], x)
    ensures x in CondRun(env, conds, targets, o).misses <==>
      x in o.misses || (x in targets && exists i :: 0 <= i < |conds| && !Holds(env, conds[i], x))
    decreases |conds|
  {
    var o' := JudgeAll(env, conds[0], targets, o);
    JudgeAllMembership(env, conds[0], targets, o, x);
    if |conds| > 1 {
      forall y | y in o'.hits
        ensures y in targets
      {
        JudgeAllMembership(env, conds[0], targets, o, y);
      }
      CondRunMembership(env, conds[1..], targets, o', x);
      assert conds[1..][|conds| - 2] == conds[|conds| - 1];
      if x in targets && exists i :: 0 <= i < |conds| && !Holds(env, conds[i], x) {
        var i :| 0 <= i < |conds| && !Holds(env, conds[i], x);
        if i > 0 {
          assert conds[1..][i - 1] == conds[i];
        }
      }
      if exists i :: 0 <= i < |conds[1..]| && !Holds(env, conds[1..][i], x) {
        var i :| 0 <= i < |conds[1..]| && !Holds(env, conds[1..][i], x);
        assert conds[i + 1] == conds[1..][i];
      }
    }
  }

  /** As written, a target that fails an early condition and meets a
      later one is both a match and a failure: with conditions p and q,
      a target that lacks p but has q runs the `true*` blocks and the
      `false*` blocks. */
  lemma StaleMatch()
    ensures var env := Env(p => [], l => [],
                          (x: string, n: string) => if n == "q" then Some([Num(1)]) else None,
                          (a: seq<PVal>, b: seq<PVal>) => a == b);
      CondRun(env, [Cond("p", [Num(1)]), Cond("q", [Num(1)])], ["/n"], Outcome([], []))
        == Outcome(["/n"], ["/n"])
  {
    var env := Env(p => [], l => [],
                   (x: string, n: string) => if n == "q" then Some([Num(1)]) else None,
                   (a: seq<PVal>, b: seq<PVal>) => a == b);
    assert !EndsWith("p", "__not__") && !EndsWith("q", "__not__");
    assert !Holds(env, Cond("p", [Num(1)]), "/n");
    assert Holds(env, Cond("q", [Num(1)]), "/n");
  }

  /** Target x meets every condition. */
  predicate MeetsAll(env: Env, conds: seq<Cond>, x: string)
  {
    forall i :: 0 <= i < |conds| ==> Holds(env, conds[i], x)
  }

  /** The targets, in order, that meet every condition (`want`) or fail
      one (`!want`). */
  function Partition(env: Env, conds: seq<Cond>, targets: seq<string>, want: bool): (r: seq<string>)
    ensures forall x :: x in r <==> x in targets && MeetsAll(env, conds, x) == want
    decreases |targets|
  {
    if |targets| == 0 then []
    else
      assert targets == [targets[0]] + targets[1..];
      (if MeetsAll(env, conds, targets[0]) == want then [targets[0]] else [])
      + Partition(env, conds, targets[1..], want)
  }

  /** The matches and failures as the conditional lop means them: a
      target matches when it meets all the conditions (they are ANDed) and
      fails otherwise. */
  function IntendedMatches(env: Env, conds: seq<Cond>, targets: seq<string>): Outcome
  {
    Outcome(Partition(env, conds, targets, true), Partition(env, conds, targets, false))
  }

  /** Every target is a match or a failure and never both; the failures
      are the ones the lop as written finds. */
  lemma IntendedMatchesPartition(env: Env, conds: seq<Cond>, targets: seq<string>, x: string)
    requires |conds| > 0
    ensures var o := IntendedMatches(env, conds, targets);
      (x in targets <==> x in o.hits || x in o.misses) && !(x in o.hits && x in o.misses)
    ensures x in IntendedMatches(env, conds, targets).misses <==> x in CondRun(env, conds, targets, Outcome([], [])).misses
  {
    CondRunMembership(env, conds, targets, Outcome([], []), x);
  }
}
