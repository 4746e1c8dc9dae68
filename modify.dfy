/** The property half of the `modify` lop of lopper/__init__.py: the
    `path:property:value` expression, the nodes it works on, and the
    deletion or assignment of the property on each of them. */
module Modify {
  import opened Common
  import opened LopperTree
  import Base
  import Lops

  /** A modify expression `path:property:value`. */
  datatype ModifyExpr = ModifyExpr(path: string, prop: string, val: string)

  /** `prop.split(":")` read at 0, 1 and 2: fewer than three parts is the
      IndexError of the indexing, and parts past the third are ignored. */
  function ParseModify(s: string): (r: Result<ModifyExpr>)
    ensures r.Err? <==> |SplitOn(s, ':')| < 3
    ensures r.Err? ==> r.error == IndexError
    ensures r.Ok? ==> var parts := SplitOn(s, ':');
      r.value == ModifyExpr(parts[0], parts[1], parts[2])
  {
    var parts := SplitOn(s, ':');
    if |parts| < 3 then Err(IndexError) else Ok(ModifyExpr(parts[0], parts[1], parts[2]))
  }

  /** An expression written out with its two colons parses back to
      itself. */
  lemma ParseModifyJoin(e: ModifyExpr)
    requires ':' !in e.path && ':' !in e.prop && ':' !in e.val
    ensures ParseModify(e.path + ":" + e.prop + ":" + e.val) == Ok(e)
  {
    Lops.ParseClauseJoin(Lops.Clause(e.path, e.prop, e.val));
  }

  /** A text with no colon cannot be unpacked. */
  lemma ParseModifyNoColon(s: string)
    requires ':' !in s
    ensures ParseModify(s) == Err(IndexError)
  {
    SplitNoSep(s, ':');
  }

  /** The nodes a modify works on: `tree.__selected__` for an empty path,
      which must then be non-empty (None: the lop returns False and
      changes nothing); otherwise the nodes the path gives, through
      `subnodes(tree[path])` for a delete and `tree.nodes(path)` for a
      set. */
  function ModifyTargets(e: ModifyExpr, treeSel: seq<string>, subtreeOf: string -> seq<string>, byPath: string -> seq<string>): (r: Option<seq<string>>)
    ensures r.None? <==> e.path == "" && treeSel == []
    ensures r.Some? && e.path == "" ==> r.value == treeSel
    ensures r.Some? && e.path != "" ==> r.value == (if e.val == "" then subtreeOf(e.path) else byPath(e.path))
  {
    if e.path == "" then (if treeSel == [] then None else Some(treeSel))
    else if e.val == "" then Some(subtreeOf(e.path))
    else Some(byPath(e.path))
  }

  /** The value a property set stores: the text through
      `Lopper.property_convert`. Only a `<...>` literal with a cell that
      is not a number fails (the program exits); such a literal stores
      numbers only, and any other text stores at least one value. */
  function ModifyValue(e: ModifyExpr): (r: Result<seq<PVal>>)
    requires '&' !in e.val
    ensures r.Err? ==> StartsWith(e.val, "<") && r.error == SystemExit
    ensures StartsWith(e.val, "<") && r.Ok? ==> forall v :: v in r.value ==> v.Num?
    ensures !StartsWith(e.val, "<") ==> r.Ok? && |r.value| > 0
  {
    Base.Convert(e.val)
  }

  /** The properties other than `name`, in order. */
  function Dropped(props: seq<Prop>, name: string): (r: seq<Prop>)
    ensures forall x :: x in r <==> x in props && x.name != name
    ensures PropIndex(r, name).None?
    ensures |r| <= |props|
    decreases |props|
  {
    if |props| == 0 then []
    else
      assert props == [props[0]] + props[1..];
      (if props[0].name == name then [] else [props[0]]) + Dropped(props[1..], name)
  }

  /** Dropping a name that is not there changes nothing. */
  lemma {:induction false} DroppedAbsent(props: seq<Prop>, name: string)
    requires PropIndex(props, name).None?
    ensures Dropped(props, name) == props
    decreases |props|
  {
    if |props| > 0 {
      DroppedAbsent(props[1..], name);
      assert props == [props[0]] + props[1..];
    }
  }

  /** With distinct names, removing the property at its index is dropping
      its name. */
  lemma {:induction false} DroppedAt(props: seq<Prop>, name: string, i: nat)
    requires DistinctNames(props) && PropIndex(props, name) == Some(i)
    ensures props[..i] + props[i + 1..] == Dropped(props, name)
    decreases |props|
  {
    var t := props[1..];
    DistinctTail(props);
    if i == 0 {
      TailAbsent(props, name);
      DroppedAbsent(t, name);
    } else {
      DroppedAt(t, name, i - 1);
      SpliceCons(props, i);
      DroppedCons(props, name);
    }
  }

  lemma DroppedCons(props: seq<Prop>, name: string)
    requires |props| > 0 && props[0].name != name
    ensures Dropped(props, name) == [props[0]] + Dropped(props[1..], name)
  {
  }

  lemma SpliceCons(props: seq<Prop>, i: nat)
    requires 0 < i < |props|
    ensures props[..i] + props[i + 1..] == [props[0]] + (props[1..][..i - 1] + props[1..][i..])
  {
  }

  lemma DistinctTail(props: seq<Prop>)
    requires DistinctNames(props) && |props| > 0
    ensures DistinctNames(props[1..])
  {
    var t := props[1..];
    forall a, b | 0 <= a < b < |t| ensures t[a].name != t[b].name {
      assert t[a] == props[a + 1] && t[b] == props[b + 1];
    }
  }

  lemma TailAbsent(props: seq<Prop>, name: string)
    requires DistinctNames(props) && |props| > 0 && props[0].name == name
    ensures PropIndex(props[1..], name).None?
  {
    forall k | 0 <= k < |props[1..]| ensures props[1..][k].name != name {
      assert props[1..][k] == props[k + 1];
    }
  }

  /** Dropping a name twice is dropping it once. */
  lemma DroppedIdempotent(props: seq<Prop>, name: string)
    ensures Dropped(Dropped(props, name), name) == Dropped(props, name)
  {
    DroppedAbsent(Dropped(props, name), name);
  }

  /** Dropped keeps names distinct. */
  lemma {:induction false} DroppedDistinct(props: seq<Prop>, name: string)
    requires DistinctNames(props)
    ensures DistinctNames(Dropped(props, name))
    decreases |props|
  {
    if |props| > 0 {
      var t := props[1..];
      DistinctTail(props);
      DroppedDistinct(t, name);
      if props[0].name != name {
        HeadFresh(props, Dropped(t, name));
      }
    }
  }

  lemma HeadFresh(props: seq<Prop>, d: seq<Prop>)
    requires DistinctNames(props) && |props| > 0 && DistinctNames(d)
    requires forall x :: x in d ==> x in props[1..]
    ensures DistinctNames([props[0]] + d)
  {
    forall k | 0 <= k < |d| ensures d[k].name != props[0].name {
      assert d[k] in d && d[k] in props[1..];
      var j :| 0 <= j < |props[1..]| && props[1..][j] == d[k];
      assert props[1..][j] == props[j + 1];
    }
    var s := [props[0]] + d;
    forall a, b | 0 <= a < b < |s| ensures s[a].name != s[b].name {
      if a > 0 { assert s[a] == d[a - 1] && s[b] == d[b - 1]; }
      else { assert s[b] == d[b - 1]; }
    }
  }

  /** A set followed by a delete of the same name is the delete alone. */
  lemma DropAfterPut(props: seq<Prop>, p: Prop)
    ensures Dropped(Put(props, p), p.name) == Dropped(props, p.name)
  {
    match PropIndex(props, p.name)
    case Some(i) => DroppedUpdate(props, p.name, i, p);
    case None => DroppedAppend(props, p);
  }

  lemma {:induction false} DroppedUpdate(props: seq<Prop>, name: string, i: nat, p: Prop)
    requires i < |props| && props[i].name == name && p.name == name
    ensures Dropped(props[i := p], name) == Dropped(props, name)
    decreases |props|
  {
    if i > 0 {
      assert props[i := p][1..] == props[1..][i - 1 := p];
      DroppedUpdate(props[1..], name, i - 1, p);
    }
  }

  lemma {:induction false} DroppedAppend(props: seq<Prop>, p: Prop)
    ensures Dropped(props + [p], p.name) == Dropped(props, p.name)
    decreases |props|
  {
    if |props| == 0 {
      assert props + [p] == [p];
    } else {
      assert (props + [p])[1..] == props[1..] + [p];
      DroppedAppend(props[1..], p);
    }
  }

  /** What a modify changes on a node: its properties and its modified
      mark. */
  function Marked(n: Node): (seq<Prop>, bool)
    reads n
  {
    (n.props, n.modified)
  }

  /** A node's properties and mark once `delete(name)` has been tried on
      it: the property is gone, and the node is marked when it had it. */
  function AfterDelete(s: (seq<Prop>, bool), name: string): (r: (seq<Prop>, bool))
  {
    (Dropped(s.0, name), s.1 || PropIndex(s.0, name).Some?)
  }

  /** The property delete of a modify: `n.delete(prop)` on every node,
      a missing property (KeyError) tolerated. Every node ends without the
      property and with its others in order; a node is marked modified
      when it had the property. */
  method DeleteEach(nodes: seq<Node>, name: string)
    requires forall n :: n in nodes ==> DistinctNames(n.props)
    modifies nodes`props, nodes`modified
    ensures forall n :: n in nodes ==> n.props == Dropped(old(n.props), name)
    ensures forall n :: n in nodes ==> n.modified == (old(n.modified) || PropIndex(old(n.props), name).Some?)
  {
    var i := 0;
    ghost var done: set<Node> := {};
    while i < |nodes|
      invariant i <= |nodes|
      invariant forall j :: 0 <= j < i ==> nodes[j] in done
      invariant forall j :: 0 <= j < |nodes| ==>
        Marked(nodes[j]) == if nodes[j] in done then AfterDelete(old(Marked(nodes[j])), name) else old(Marked(nodes[j]))
    {
      var n := nodes[i];
      DeleteStep(n, old(n.props), old(n.modified), n in done, name);
      done := done + {n};
      i := i + 1;
    }
  }

  /** One node of DeleteEach: a node not yet visited loses the property,
      a node met again is left as it is. */
  method DeleteStep(n: Node, ghost orig: seq<Prop>, ghost mark: bool, ghost seen: bool, name: string)
    requires DistinctNames(orig)
    requires Marked(n) == if seen then AfterDelete((orig, mark), name) else (orig, mark)
    modifies n`props, n`modified
    ensures Marked(n) == AfterDelete((orig, mark), name)
  {
    ghost var before := n.props;
    DroppedDistinct(orig, name);
    if seen {
      DroppedIdempotent(orig, name);
    }
    var r := n.DeleteProp(name);
    if r.Ok? {
      DroppedAt(before, name, PropIndex(before, name).value);
    } else {
      DroppedAbsent(before, name);
    }
  }

  /** The property set of a modify: `n[prop] = value` on every node. Each
      node ends with the property holding the value, stored where it was
      or appended; the nodes are not marked. */
  method SetEach(nodes: seq<Node>, name: string, v: seq<PVal>)
    modifies nodes`props
    ensures forall n :: n in nodes ==> n.props == Put(old(n.props), Prop(name, v, "", true))
    ensures forall n :: n in nodes ==> n.Propval(name) == v
  {
    var i := 0;
    ghost var done: set<Node> := {};
    while i < |nodes|
      invariant i <= |nodes|
      invariant forall j :: 0 <= j < i ==> nodes[j] in done
      invariant forall j :: 0 <= j < |nodes| ==>
        nodes[j].props == if nodes[j] in done then Put(old(nodes[j].props), Prop(name, v, "", true)) else old(nodes[j].props)
    {
      var n := nodes[i];
      if n in done {
        PutIdempotent(old(n.props), Prop(name, v, "", true));
      }
      n.SetItem(name, v);
      done := done + {n};
      i := i + 1;
    }
  }
}
