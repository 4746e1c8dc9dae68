/** The in-memory devicetree of lopper/tree.py: nodes indexed by path,
    phandle, label and number, with the node and tree operations that keep
    those indices in step. */
module LopperTree {
  import opened Common
  import opened Paths
  import opened Ranges
  import Base

  /** A LopperProp: its name, its value list, its class ("json", "label",
      ...) and whether it changed since the last write-back. */
  datatype Prop = Prop(name: string, value: seq<PVal>, pclass: string, modified: bool)

  /** The LopperProp `value` setter: the new list is stored, and the property
      counts as modified only when the multiset of values changed. */
  function AssignValue(p: Prop, v: seq<PVal>): (r: Prop)
    ensures r.name == p.name && r.pclass == p.pclass && r.value == v
    ensures r.modified <==> p.modified || multiset(p.value) != multiset(v)
  {
    p.(value := v, modified := p.modified || multiset(p.value) != multiset(v))
  }

  /** Assigning a permutation of the current values does not mark the
      property modified. */
  lemma AssignPermutationKeepsFlag(p: Prop, v: seq<PVal>)
    requires multiset(v) == multiset(p.value) && !p.modified
    ensures !AssignValue(p, v).modified && AssignValue(p, v).value == v
  {
  }

  /** Position of the property called `name`. */
  function PropIndex(props: seq<Prop>, name: string): (r: Option<nat>)
    ensures r.Some? ==> r.value < |props| && props[r.value].name == name
    ensures r.Some? ==> forall k :: 0 <= k < r.value ==> props[k].name != name
    ensures r.None? ==> forall k :: 0 <= k < |props| ==> props[k].name != name
  {
    if |props| == 0 then None
    else if props[0].name == name then Some(0)
    else match PropIndex(props[1..], name)
      case None => None
      case Some(i) => Some(i + 1)
  }

  lemma {:induction false} PropIndexAppend(props: seq<Prop>, p: Prop)
    requires PropIndex(props, p.name).None?
    ensures PropIndex(props + [p], p.name) == Some(|props|)
    decreases |props|
  {
    if |props| == 0 {
      assert props + [p] == [p];
    } else {
      assert (props + [p])[1..] == props[1..] + [p];
      PropIndexAppend(props[1..], p);
    }
  }

  lemma {:induction false} PropIndexUpdate(props: seq<Prop>, i: nat, p: Prop)
    requires PropIndex(props, p.name) == Some(i)
    ensures PropIndex(props[i := p], p.name) == Some(i)
    decreases |props|
  {
    if i > 0 {
      assert props[i := p][1..] == props[1..][i - 1 := p];
      PropIndexUpdate(props[1..], i - 1, p);
    }
  }

  predicate DistinctNames(props: seq<Prop>)
  {
    forall i, j :: 0 <= i < j < |props| ==> props[i].name != props[j].name
  }

  /** The property list after storing p under its name: p takes the place
      of the property of that name, or is appended when there is none. */
  function Put(props: seq<Prop>, p: Prop): (r: seq<Prop>)
    ensures PropIndex(r, p.name).Some? && r[PropIndex(r, p.name).value] == p
    ensures PropIndex(props, p.name).Some? ==> PropIndex(r, p.name) == PropIndex(props, p.name) && |r| == |props|
    ensures PropIndex(props, p.name).None? ==> PropIndex(r, p.name) == Some(|props|) && |r| == |props| + 1
    ensures forall k :: 0 <= k < |props| && props[k].name != p.name ==> r[k] == props[k]
    ensures forall k :: 0 <= k < |r| ==> r[k] == p || (k < |props| && r[k] == props[k])
    ensures DistinctNames(props) ==> DistinctNames(r)
  {
    match PropIndex(props, p.name)
    case Some(i) =>
      PropIndexUpdate(props, i, p);
      props[i := p]
    case None =>
      PropIndexAppend(props, p);
      props + [p]
  }

  /** Storing the same property twice is storing it once. */
  lemma PutIdempotent(props: seq<Prop>, p: Prop)
    ensures Put(Put(props, p), p) == Put(props, p)
  {
    var r := Put(props, p);
    assert r[PropIndex(r, p.name).value := p] == r;
  }

  /** Storing a property leaves every other name's value as it was. */
  lemma PutOthers(props: seq<Prop>, p: Prop, name: string)
    requires name != p.name
    ensures PropIndex(Put(props, p), name) == PropIndex(props, name)
  {
    var r := Put(props, p);
    assert forall k :: 0 <= k < |r| && r[k].name == name ==> k < |props| && r[k] == props[k];
    assert forall k :: 0 <= k < |props| && props[k].name == name ==> r[k] == props[k];
  }

  /** The properties whose names the pattern matches, in order. */
  function MatchingProps(props: seq<Prop>, pattern: string, m: Matcher): (r: seq<Prop>)
    ensures forall x :: x in r ==> x in props && m(pattern, x.name)
    ensures forall x :: x in props && m(pattern, x.name) ==> x in r
  {
    if |props| == 0 then []
    else (if m(pattern, props[0].name) then [props[0]] else []) + MatchingProps(props[1..], pattern, m)
  }

  predicate Distinct<T(==,!new)>(s: seq<T>)
  {
    forall i, j :: 0 <= i < j < |s| ==> s[i] != s[j]
  }

  /** s without every occurrence of x. */
  function Without<T(==,!new)>(s: seq<T>, x: T): (r: seq<T>)
    ensures x !in r
    ensures forall y :: y in r <==> y in s && y != x
    ensures x !in s ==> r == s
  {
    if |s| == 0 then []
    else if s[0] == x then Without(s[1..], x)
    else [s[0]] + Without(s[1..], x)
  }

  lemma {:induction false} WithoutDistinct<T(!new)>(s: seq<T>, x: T)
    requires Distinct(s)
    ensures Distinct(Without(s, x))
    decreases |s|
  {
    if |s| > 0 {
      WithoutDistinct(s[1..], x);
      assert s[0] !in s[1..];
    }
  }

  function IndexOf<T(==,!new)>(s: seq<T>, x: T): (i: nat)
    requires x in s
    ensures i < |s| && s[i] == x && x !in s[..i]
  {
    if s[0] == x then 0 else IndexOf(s[1..], x) + 1
  }

  /** What `reorder_child` leaves in the child table: KeyError when either
      path is missing; moving a child next to itself finds no target
      (StopIteration); otherwise the child is taken out and put back just
      after (or before) the target. */
  function Reordered(cs: seq<string>, key: string, target: string, after: bool): Result<seq<string>>
  {
    if key !in cs || target !in cs then Err(KeyError)
    else if target !in Without(cs, key) then Err(StopIteration)
    else Ok(Spliced(cs, key, target, after))
  }

  /** The child table with key taken out and put back next to target. */
  function Spliced(cs: seq<string>, key: string, target: string, after: bool): seq<string>
    requires target in Without(cs, key)
  {
    var rest := Without(cs, key);
    var pos := IndexOf(rest, target) + (if after then 1 else 0);
    rest[..pos] + [key] + rest[pos..]
  }

  /** `reorder_child` keeps the same children, puts the moved one right
      next to the target, and leaves the order of the others alone. */
  lemma ReorderedLaws(cs: seq<string>, key: string, target: string, after: bool)
    requires Distinct(cs)
    ensures Reordered(cs, key, target, after).Err? <==> key !in cs || target !in cs || key == target
    ensures key !in cs || target !in cs ==> Reordered(cs, key, target, after) == Err(KeyError)
    ensures key in cs && key == target ==> Reordered(cs, key, target, after) == Err(StopIteration)
    ensures Reordered(cs, key, target, after).Ok? ==>
      var r := Reordered(cs, key, target, after).value;
      multiset(r) == multiset(cs) && Distinct(r) && Without(r, key) == Without(cs, key)
      && exists i :: 0 <= i < |r| - 1 &&
           (if after then r[i] == target && r[i + 1] == key else r[i] == key && r[i + 1] == target)
  {
    if key in cs && target in cs && key != target {
      SplicedLaws(cs, key, target, after);
    }
  }

  lemma SplicedLaws(cs: seq<string>, key: string, target: string, after: bool)
    requires Distinct(cs) && key in cs && target in Without(cs, key)
    ensures var r := Spliced(cs, key, target, after);
      multiset(r) == multiset(cs) && Distinct(r) && Without(r, key) == Without(cs, key)
      && exists i :: 0 <= i < |r| - 1 &&
           (if after then r[i] == target && r[i + 1] == key else r[i] == key && r[i + 1] == target)
  {
    var rest := Without(cs, key);
    var t := IndexOf(rest, target);
    var pos := t + (if after then 1 else 0);
    assert rest[..pos] + rest[pos..] == rest;
    assert Spliced(cs, key, target, after) == rest[..pos] + [key] + rest[pos..];
    ReorderedShape(cs, key, rest[..pos], rest[pos..]);
    SplicedNext(cs, key, target, after);
  }

  lemma SplicedNext(cs: seq<string>, key: string, target: string, after: bool)
    requires target in Without(cs, key)
    ensures var r := Spliced(cs, key, target, after);
      exists i :: 0 <= i < |r| - 1 &&
        (if after then r[i] == target && r[i + 1] == key else r[i] == key && r[i + 1] == target)
  {
    var t := IndexOf(Without(cs, key), target);
    var r := Spliced(cs, key, target, after);
    assert if after then r[t] == target && r[t + 1] == key else r[t] == key && r[t + 1] == target;
  }

  lemma ReorderedShape(cs: seq<string>, key: string, a: seq<string>, b: seq<string>)
    requires Distinct(cs) && key in cs && a + b == Without(cs, key)
    ensures var r := a + [key] + b;
      multiset(r) == multiset(cs) && Distinct(r) && Without(r, key) == Without(cs, key)
  {
    var rest := Without(cs, key);
    var r := a + [key] + b;
    assert key !in a && key !in b by {
      assert forall y :: y in a ==> y in rest;
      assert forall y :: y in b ==> y in rest;
    }
    WithoutSplice(a, key, b);
    WithoutMultiset(cs, key);
    WithoutDistinct(cs, key);
    assert multiset(r) == multiset(a) + multiset{key} + multiset(b);
    assert multiset(rest) == multiset(a) + multiset(b);
    DistinctSplice(a, key, b);
  }

  lemma DistinctSplice(a: seq<string>, key: string, b: seq<string>)
    requires Distinct(a + b) && key !in a && key !in b
    ensures Distinct(a + [key] + b)
  {
    var r := a + [key] + b;
    var ab := a + b;
    forall i, j | 0 <= i < j < |r|
      ensures r[i] != r[j]
    {
      if j < |a| {
        assert r[i] == ab[i] && r[j] == ab[j];
      } else if i > |a| {
        assert r[i] == ab[i - 1] && r[j] == ab[j - 1];
      } else if i < |a| && j > |a| {
        assert r[i] == ab[i] && r[j] == ab[j - 1];
      } else if i == |a| {
        assert r[j] == b[j - |a| - 1];
      } else {
        assert r[i] == a[i];
      }
    }
  }

  lemma {:induction false} WithoutMultiset(s: seq<string>, x: string)
    requires Distinct(s) && x in s
    ensures multiset(s) == multiset(Without(s, x)) + multiset{x}
    decreases |s|
  {
    if s[0] == x {
      assert x !in s[1..];
      assert Without(s[1..], x) == s[1..];
      assert s == [x] + s[1..];
    } else {
      WithoutMultiset(s[1..], x);
      assert s == [s[0]] + s[1..];
    }
  }

  lemma {:induction false} WithoutSplice(a: seq<string>, x: string, b: seq<string>)
    requires x !in a && x !in b
    ensures Without(a + [x] + b, x) == a + b
    decreases |a|
  {
    if |a| == 0 {
      assert a + [x] + b == [x] + b;
      assert ([x] + b)[1..] == b;
    } else {
      assert (a + [x] + b)[1..] == a[1..] + [x] + b;
      WithoutSplice(a[1..], x, b);
      assert a + b == [a[0]] + (a[1..] + b);
    }
  }

  /** A LopperNode. Its properties are values it owns; its children are
      the paths held in its child table, in order. */
  class Node {
    var name: string
    var path: string
    var number: int
    var phandle: int
    var labelName: string
    var props: seq<Prop>
    var children: seq<string>
    var refcount: nat
    /** Whether `__nstate__` is "resolved". */
    var resolved: bool
    /** `__modified__`. Every attribute write goes through `__setattr__`,
        which ends by setting this flag, so a write of False leaves it true. */
    var modified: bool

    /** `LopperNode(number, abspath, phandle=..., name=...)`: the path is the
        one given, else "/" + name, else empty. The closing
        `self.__modified__ = False` of `__init__` is an attribute write,
        so the new node is modified. */
    constructor (number: int, abspath: string, phandle: int, name: string)
      ensures this.path == (if abspath != "" then abspath else if name != "" then "/" + name else "")
      ensures this.number == number && this.phandle == phandle && this.name == name
      ensures labelName == "" && props == [] && children == [] && refcount == 0
      ensures !resolved && modified
    {
      this.number := number;
      this.name := name;
      this.phandle := phandle;
      this.path := if abspath != "" then abspath else if name != "" then "/" + name else "";
      this.labelName := "";
      this.props := [];
      this.children := [];
      this.refcount := 0;
      this.resolved := false;
      this.modified := true;
    }

    /** The closing writes of `resolve()` and `load()`, as written:
        `__nstate__` becomes "resolved" and `self.__modified__ = False`
        goes through `__setattr__`, which stores False and then True. */
    method MarkResolvedAsWritten()
      modifies this`resolved, this`modified
      ensures resolved && modified
    {
      resolved := true;
      modified := false;
      modified := true;
    }

    /** The same writes with the flag cleared, as the `False` means: the
        node is resolved and not modified. */
    method MarkResolved()
      modifies this`resolved, this`modified
      ensures resolved && !modified
    {
      resolved := true;
      modified := false;
    }

    /** The fields the tree indices depend on. */
    function Shape(): Shape
      reads this`path, this`number, this`phandle, this`children
    {
      (path, number, phandle, children)
    }

    /** The `ref` setter: a positive value adds to the refcount, anything
        else clears it. */
    method SetRef(r: int)
      modifies this`refcount, this`modified
      ensures refcount == (if r > 0 then old(refcount) + r else 0) && modified
    {
      if r > 0 {
        refcount := refcount + r;
      } else {
        refcount := 0;
      }
      modified := true;
    }

    /** `props(name)`: the property called name, or else every property
        whose name the pattern matches. */
    function Props(name: string, m: Matcher): (r: seq<Prop>)
      reads this
      ensures forall x :: x in r ==> x in props
      ensures PropIndex(props, name).Some? ==> |r| == 1 && r[0].name == name
      ensures PropIndex(props, name).None? ==>
        forall x :: x in props ==> (x in r <==> m(name, x.name))
    {
      match PropIndex(props, name)
      case Some(i) => [props[i]]
      case None => MatchingProps(props, name, m)
    }

    /** `propval(name)`: the value of the named property, [""] when there is
        none. */
    function Propval(name: string): (r: seq<PVal>)
      reads this
      ensures PropIndex(props, name).None? ==> r == [Str("")]
      ensures PropIndex(props, name).Some? ==> exists x :: x in props && x.name == name && r == x.value
    {
      match PropIndex(props, name)
      case Some(i) => props[i].value
      case None => [Str("")]
    }

    /** `add(prop)`: the property replaces the one of the same name in place,
        or is appended; reading it back gives its value, and the node is
        marked modified. */
    method AddProp(p: Prop)
      modifies this`props, this`modified
      ensures props == Put(old(props), p)
      ensures Propval(p.name) == p.value
      ensures modified
    {
      props := Put(props, p);
      modified := true;
    }

    /** `node[key] = values`: a new property of that name and value is
        stored as `add` stores one, but the assignment goes to the property
        dictionary and does not mark the node. */
    method SetItem(key: string, v: seq<PVal>)
      modifies this`props
      ensures props == Put(old(props), Prop(key, v, "", true))
      ensures Propval(key) == v
    {
      props := Put(props, Prop(key, v, "", true));
    }

    /** `delete(prop_name)`: KeyError when there is no such property;
        otherwise it is removed and the node is marked modified. */
    method DeleteProp(pname: string) returns (r: Result<()>)
      modifies this`props, this`modified
      ensures r.Err? <==> PropIndex(old(props), pname).None?
      ensures r.Err? ==> r.error == KeyError && props == old(props) && modified == old(modified)
      ensures r.Ok? ==>
        var i := PropIndex(old(props), pname).value;
        props == old(props)[..i] + old(props)[i + 1..] && modified
      ensures r.Ok? && old(DistinctNames(props)) ==> PropIndex(props, pname).None? && DistinctNames(props)
    {
      match PropIndex(props, pname)
      case None =>
        r := Err(KeyError);
      case Some(i) =>
        ghost var before := props;
        props := props[..i] + props[i + 1..];
        modified := true;
        r := Ok(());
        if DistinctNames(before) {
          assert forall k :: 0 <= k < |props| ==> props[k] == before[if k < i then k else k + 1];
        }
    }

    /** The node-side writes of `add` for a node entering the tree: its
        number, name and phandle are set, the `phandle` property follows
        the phandle, and the node is resolved. */
    method SetAdded(number': int, name': string, phandle': int)
      modifies this`number, this`name, this`phandle, this`props, this`resolved, this`modified
      ensures number == number' && name == name' && phandle == phandle'
      ensures props == WithPhandleProp(old(props), phandle') && resolved && modified
    {
      number, name, phandle := number', name', phandle';
      props, resolved, modified := WithPhandleProp(props, phandle'), true, true;
    }

    /** The node-side writes of `load(export, update_props=True)`. An
        empty export (from an unresolved node) loads nothing; the `dct`
        write still marks the node. Otherwise the export's name and
        phandle are taken, the properties merge (MergeProps) with the
        `phandle` property following the phandle, and the node is
        resolved. Indexing the phandle is the tree's part. */
    method LoadExport(exported: bool, name': string, phandle': int, props': seq<Prop>)
      modifies this`name, this`phandle, this`props, this`resolved, this`modified
      ensures modified
      ensures !exported ==>
        name == old(name) && phandle == old(phandle) && props == old(props) && resolved == old(resolved)
      ensures exported ==>
        name == name' && phandle == phandle' && resolved
        && props == WithPhandleProp(MergeProps(old(props), props'), phandle')
    {
      if exported {
        name, phandle := name', phandle';
        props := WithPhandleProp(MergeProps(props, props'), phandle');
        resolved := true;
      }
      modified := true;
    }

    /** `reorder_child(path, next_to, after)`. */
    method ReorderChild(key: string, target: string, after: bool) returns (r: Result<seq<string>>)
      modifies this`children, this`modified
      ensures r == Reordered(old(children), key, target, after)
      ensures r.Ok? ==> children == r.value && modified
      ensures r.Err? ==> children == old(children) && modified == old(modified)
    {
      r := Reordered(children, key, target, after);
      if r.Ok? {
        children := r.value;
        modified := true;
      }
    }
  }

  /** What the tree indices depend on in a node: its path, number,
      phandle and child paths. */
  type Shape = (string, int, int, seq<string>)

  /** A set of integers that is not empty has an element. */
  lemma Inhabited(s: set<int>)
    ensures s == {} || exists x :: x in s
  {
    if !exists x :: x in s {
      assert s == {};
    }
  }

  /** An upper bound on the lengths of a set of strings. */
  ghost function MaxLen(s: set<string>): (m: nat)
    ensures forall x :: x in s ==> |x| <= m
    decreases |s|
  {
    if s == {} then 0
    else
      var x :| x in s;
      var rest := MaxLen(s - {x});
      if |x| > rest then |x| else rest
  }

  /** Node shapes keyed by path form a tree: keys are the nodes' own
      well-formed paths, child lists are duplicate-free and hold paths
      directly below their parent, and every non-root node is listed by its
      parent. */
  ghost predicate TreeShaped(sh: map<string, Shape>)
  {
    OwnPaths(sh) && ChildLinks(sh) && ParentLinks(sh)
  }

  ghost predicate OwnPaths(sh: map<string, Shape>)
  {
    forall p :: p in sh ==> sh[p].0 == p && WellFormed(p) && Distinct(sh[p].3)
  }

  ghost predicate ChildLinks(sh: map<string, Shape>)
  {
    forall p, c :: p in sh && c in sh[p].3 ==> c in sh && c != "/" && WellFormed(c) && Dirname(c) == p
  }

  ghost predicate ParentLinks(sh: map<string, Shape>)
  {
    forall p {:trigger Dirname(p)} :: p in sh && p != "/" && WellFormed(p) ==> Dirname(p) in sh && p in sh[Dirname(p)].3
  }

  /** The tree shape together with the phandle index (phandles are unique,
      and the index names exactly the nodes carrying one) and the number
      index. */
  ghost predicate Consistent(sh: map<string, Shape>, pnodes: map<int, string>, nnodes: map<int, string>)
  {
    TreeShaped(sh) && PhandleIndex(sh, pnodes) && NumberIndex(sh, nnodes)
  }

  ghost predicate PhandleIndex(sh: map<string, Shape>, pnodes: map<int, string>)
  {
    (forall ph :: ph in pnodes ==> ph > 0 && pnodes[ph] in sh && sh[pnodes[ph]].2 == ph)
    && (forall p :: p in sh && sh[p].2 > 0 ==> sh[p].2 in pnodes && pnodes[sh[p].2] == p)
  }

  ghost predicate NumberIndex(sh: map<string, Shape>, nnodes: map<int, string>)
  {
    forall n :: n in nnodes ==> nnodes[n] in sh && sh[nnodes[n]].1 == n
  }

  lemma ChildLonger(sh: map<string, Shape>, p: string, c: string)
    requires TreeShaped(sh) && p in sh && c in sh[p].3
    ensures c in sh && |p| < |c| <= MaxLen(sh.Keys)
  {
  }

  /** The paths below p in preorder: p, then each child's walk in child
      order (`LopperTree.subnodes`). */
  function Walk(sh: map<string, Shape>, p: string): (r: seq<string>)
    requires TreeShaped(sh) && p in sh
    ensures |r| > 0 && r[0] == p
    ensures forall q :: q in r ==> q in sh
    decreases MaxLen(sh.Keys) - |p|, 1, 0
  {
    [p] + WalkList(sh, p, sh[p].3)
  }

  function WalkList(sh: map<string, Shape>, p: string, cs: seq<string>): (r: seq<string>)
    requires TreeShaped(sh) && p in sh
    requires forall c :: c in cs ==> c in sh[p].3
    ensures forall q :: q in r ==> q in sh
    decreases MaxLen(sh.Keys) - |p|, 0, |cs|
  {
    if |cs| == 0 then []
    else
      ChildLonger(sh, p, cs[0]);
      Walk(sh, cs[0]) + WalkList(sh, p, cs[1..])
  }

  lemma {:induction false} WalkUnder(sh: map<string, Shape>, p: string)
    requires TreeShaped(sh) && p in sh
    ensures forall q :: q in Walk(sh, p) ==> Under(p, q)
    decreases MaxLen(sh.Keys) - |p|, 1, 0
  {
    WalkListUnder(sh, p, sh[p].3);
  }

  lemma {:induction false} WalkListUnder(sh: map<string, Shape>, p: string, cs: seq<string>)
    requires TreeShaped(sh) && p in sh
    requires forall c :: c in cs ==> c in sh[p].3
    ensures forall q :: q in WalkList(sh, p, cs) ==> Under(p, q) && |q| > |p|
    decreases MaxLen(sh.Keys) - |p|, 0, |cs|
  {
    if |cs| > 0 {
      var c := cs[0];
      ChildLonger(sh, p, c);
      WalkUnder(sh, c);
      WalkListUnder(sh, p, cs[1..]);
      UnderChild(p, p, c);
      forall q | q in Walk(sh, c)
        ensures Under(p, q) && |q| > |p|
      {
        UnderTrans(p, c, q);
      }
    }
  }

  lemma {:induction false} WalkListMember(sh: map<string, Shape>, p: string, cs: seq<string>, q: string)
    requires TreeShaped(sh) && p in sh
    requires forall c :: c in cs ==> c in sh[p].3
    requires q in WalkList(sh, p, cs)
    ensures exists c :: c in cs && q in Walk(sh, c)
    decreases |cs|
  {
    if q !in Walk(sh, cs[0]) {
      WalkListMember(sh, p, cs[1..], q);
    }
  }

  lemma {:induction false} WalkListHas(sh: map<string, Shape>, p: string, cs: seq<string>, c: string)
    requires TreeShaped(sh) && p in sh
    requires forall c :: c in cs ==> c in sh[p].3
    requires c in cs
    ensures forall q :: q in Walk(sh, c) ==> q in WalkList(sh, p, cs)
    decreases |cs|
  {
    if cs[0] != c {
      WalkListHas(sh, p, cs[1..], c);
    }
  }

  /** The walk below any node the walk reaches stays inside the walk. */
  lemma {:induction false} WalkClosed(sh: map<string, Shape>, p: string, x: string)
    requires TreeShaped(sh) && p in sh && x in Walk(sh, p)
    ensures forall q :: q in Walk(sh, x) ==> q in Walk(sh, p)
    decreases MaxLen(sh.Keys) - |p|
  {
    if x != p {
      var cs := sh[p].3;
      WalkListMember(sh, p, cs, x);
      var c :| c in cs && x in Walk(sh, c);
      ChildLonger(sh, p, c);
      WalkClosed(sh, c, x);
      WalkListHas(sh, p, cs, c);
    }
  }

  /** The preorder walk from p visits exactly the nodes whose paths lie
      under p. */
  lemma WalkIsSubtree(sh: map<string, Shape>, p: string, q: string)
    requires TreeShaped(sh) && p in sh
    ensures q in Walk(sh, p) <==> q in sh && Under(p, q)
  {
    WalkUnder(sh, p);
    if q in sh && Under(p, q) {
      WalkComplete(sh, p, q);
    }
  }

  lemma {:induction false} WalkComplete(sh: map<string, Shape>, p: string, q: string)
    requires TreeShaped(sh) && p in sh && q in sh && Under(p, q)
    ensures q in Walk(sh, p)
    decreases |q|
  {
    if q != p {
      assert q != "/";
      var d := Dirname(q);
      UnderParent(p, q);
      WalkComplete(sh, p, d);
      WalkClosed(sh, p, d);
      WalkListHas(sh, d, sh[d].3, q);
      assert q in Walk(sh, q);
      assert q in Walk(sh, d);
    }
  }

  /** `LopperNode.subnodes(depth, max_depth, children_only)`. The depth
      limit is only tested at non-zero depths. */
  function NodeSubnodes(sh: map<string, Shape>, p: string, depth: int, maxDepth: Option<int>,
                       childrenOnly: bool): (r: seq<string>)
    requires TreeShaped(sh) && p in sh
    ensures forall q :: q in r ==> q in sh
    decreases MaxLen(sh.Keys) - |p|, 1, 0
  {
    (if childrenOnly then [] else [p])
    + (if depth != 0 && maxDepth == Some(depth) then []
       else NodeSubnodesList(sh, p, sh[p].3, depth + 1, maxDepth))
  }

  function NodeSubnodesList(sh: map<string, Shape>, p: string, cs: seq<string>, depth: int,
                            maxDepth: Option<int>): (r: seq<string>)
    requires TreeShaped(sh) && p in sh
    requires forall c :: c in cs ==> c in sh[p].3
    ensures forall q :: q in r ==> q in sh
    decreases MaxLen(sh.Keys) - |p|, 0, |cs|
  {
    if |cs| == 0 then []
    else
      ChildLonger(sh, p, cs[0]);
      NodeSubnodes(sh, cs[0], depth, maxDepth, false) + NodeSubnodesList(sh, p, cs[1..], depth, maxDepth)
  }

  /** A depth limit that can no longer be reached changes nothing: the node
      walk is the tree walk. */
  lemma {:induction false} NodeSubnodesUnlimited(sh: map<string, Shape>, p: string, depth: int, k: int)
    requires TreeShaped(sh) && p in sh && k < depth
    ensures NodeSubnodes(sh, p, depth, Some(k), false) == Walk(sh, p)
    ensures NodeSubnodes(sh, p, depth, None, false) == Walk(sh, p)
    decreases MaxLen(sh.Keys) - |p|, 1, 0
  {
    NodeSubnodesListUnlimited(sh, p, sh[p].3, depth + 1, k);
  }

  lemma {:induction false} NodeSubnodesListUnlimited(sh: map<string, Shape>, p: string, cs: seq<string>,
                                                     depth: int, k: int)
    requires TreeShaped(sh) && p in sh && k < depth
    requires forall c :: c in cs ==> c in sh[p].3
    ensures NodeSubnodesList(sh, p, cs, depth, Some(k)) == WalkList(sh, p, cs)
    ensures NodeSubnodesList(sh, p, cs, depth, None) == WalkList(sh, p, cs)
    decreases MaxLen(sh.Keys) - |p|, 0, |cs|
  {
    if |cs| > 0 {
      ChildLonger(sh, p, cs[0]);
      NodeSubnodesUnlimited(sh, cs[0], depth, k);
      NodeSubnodesListUnlimited(sh, p, cs[1..], depth, k);
    }
  }

  /** `subnodes()` from depth 0 with no limit, or with `max_depth=0` (never
      reached, since the limit is only tested at non-zero depths), is the
      whole preorder walk. */
  lemma NodeSubnodesDepthZero(sh: map<string, Shape>, p: string)
    requires TreeShaped(sh) && p in sh
    ensures NodeSubnodes(sh, p, 0, None, false) == Walk(sh, p)
    ensures NodeSubnodes(sh, p, 0, Some(0), false) == Walk(sh, p)
  {
    NodeSubnodesListUnlimited(sh, p, sh[p].3, 1, 0);
  }

  /** `subnodes(max_depth=1, children_only=True)`, as `resolve_all_refs`
      uses it, is the child list. */
  lemma ChildrenOnly(sh: map<string, Shape>, p: string)
    requires TreeShaped(sh) && p in sh
    ensures NodeSubnodes(sh, p, 0, Some(1), true) == sh[p].3
  {
    ChildrenAtLimit(sh, p, sh[p].3);
  }

  lemma {:induction false} ChildrenAtLimit(sh: map<string, Shape>, p: string, cs: seq<string>)
    requires TreeShaped(sh) && p in sh
    requires forall c :: c in cs ==> c in sh[p].3
    ensures NodeSubnodesList(sh, p, cs, 1, Some(1)) == cs
    decreases |cs|
  {
    if |cs| > 0 {
      ChildrenAtLimit(sh, p, cs[1..]);
    }
  }

  /** The paths the pattern matches, in order. */
  function FilterPaths(ps: seq<string>, pattern: string, m: Matcher): (r: seq<string>)
    ensures forall q :: q in r <==> q in ps && m(pattern, q)
  {
    if |ps| == 0 then []
    else (if m(pattern, ps[0]) then [ps[0]] else []) + FilterPaths(ps[1..], pattern, m)
  }

  /** The label `label_set` settles on: while the candidate is taken, append
      "_" and the next count to it. */
  ghost function FreshLabel(value: string, labels: set<string>, count: nat): (r: string)
    ensures r !in labels
    ensures |r| >= |value| && r[..|value|] == value
    decreases if |value| <= MaxLen(labels) then MaxLen(labels) - |value| + 1 else 0
  {
    if value in labels then
      var next := value + "_" + NatToDecimal(count);
      var r := FreshLabel(next, labels, count + 1);
      assert r[..|value|] == next[..|value|];
      r
    else value
  }

  /** The messages `warn` issues for one call, and the counts it leaves: a
      message "w: context" goes out only the first time it is counted; with
      werror the first one ends the program. */
  function WarnRun(issued: map<string, nat>, ws: seq<string>, enabled: seq<string>,
                   context: string, werror: bool): (r: (map<string, nat>, Result<seq<string>>))
    ensures r.1.Ok? ==> forall m :: m in r.1.value ==> m !in issued && m in r.0
    ensures r.1.Ok? ==> Distinct(r.1.value)
    ensures forall m :: m in issued ==> m in r.0
    ensures r.1.Err? ==> r.1.error == SystemExit && werror
    decreases |ws|
  {
    if |ws| == 0 then (issued, Ok([]))
    else
      var w := ws[0];
      if w in enabled || "all" in enabled then
        var out := w + ": " + context;
        if out in issued then
          WarnRun(issued[out := issued[out] + 1], ws[1..], enabled, context, werror)
        else if werror then (issued[out := 1], Err(SystemExit))
        else
          var rest := WarnRun(issued[out := 1], ws[1..], enabled, context, werror);
          (rest.0, if rest.1.Ok? then Ok([out] + rest.1.value) else rest.1)
      else WarnRun(issued, ws[1..], enabled, context, werror)
  }

  /** The shapes after a node with path P, number num and phandle ph and no
      children is linked in: a non-root node is appended to its parent's
      child list. */
  function Attached(sh: map<string, Shape>, P: string, num: int, ph: int): (r: map<string, Shape>)
    requires WellFormed(P) && (P != "/" ==> Dirname(P) in sh)
    ensures r.Keys == sh.Keys + {P}
  {
    if P == "/" then sh[P := (P, num, ph, [])]
    else
      var D := Dirname(P);
      sh[D := (sh[D].0, sh[D].1, sh[D].2, sh[D].3 + [P])][P := (P, num, ph, [])]
  }

  /** Linking in a new leaf keeps the tree shape and the indices
      consistent, provided its phandle is not in use. */
  lemma AttachConsistent(sh: map<string, Shape>, pn: map<int, string>, nn: map<int, string>,
                         P: string, num: int, ph: int)
    requires Consistent(sh, pn, nn) && WellFormed(P) && P !in sh
    requires P != "/" ==> Dirname(P) in sh
    requires ph > 0 ==> ph !in pn
    ensures Consistent(Attached(sh, P, num, ph),
                       if ph > 0 then pn[ph := P] else pn,
                       if num >= 0 then nn[num := P] else nn)
  {
    AttachShaped(sh, P, num, ph);
    AttachIndexed(sh, pn, nn, P, num, ph);
  }

  /** The shapes after appending P to its parent's children and adding P as
      a leaf are Attached(sh0, ...), and the indices stay consistent. */
  lemma LinkConsistent(sh0: map<string, Shape>, pn0: map<int, string>, nn0: map<int, string>,
                       sh1: map<string, Shape>, sh: map<string, Shape>, pn: map<int, string>, nn: map<int, string>,
                       P: string, num: int, ph: int)
    requires Consistent(sh0, pn0, nn0) && WellFormed(P) && P !in sh0
    requires P != "/" ==> Dirname(P) in sh0
    requires ph > 0 ==> ph !in pn0
    requires sh1 == if P == "/" then sh0 else
      var D := Dirname(P); sh0[D := (sh0[D].0, sh0[D].1, sh0[D].2, sh0[D].3 + [P])]
    requires sh == sh1[P := (P, num, ph, [])]
    requires pn == if ph > 0 then pn0[ph := P] else pn0
    requires nn == if num >= 0 then nn0[num := P] else nn0
    ensures sh == Attached(sh0, P, num, ph) && Consistent(sh, pn, nn)
  {
    AttachConsistent(sh0, pn0, nn0, P, num, ph);
  }

  lemma AttachIndexed(sh: map<string, Shape>, pn: map<int, string>, nn: map<int, string>,
                      P: string, num: int, ph: int)
    requires Consistent(sh, pn, nn) && WellFormed(P) && P !in sh
    requires P != "/" ==> Dirname(P) in sh
    requires ph > 0 ==> ph !in pn
    ensures PhandleIndex(Attached(sh, P, num, ph), if ph > 0 then pn[ph := P] else pn)
    ensures NumberIndex(Attached(sh, P, num, ph), if num >= 0 then nn[num := P] else nn)
  {
    var sh' := Attached(sh, P, num, ph);
    AttachKeepsIndexed(sh, P, num, ph, sh');
    var pn' := if ph > 0 then pn[ph := P] else pn;
    assert forall x :: x in pn' ==> x > 0 && pn'[x] in sh' && sh'[pn'[x]].2 == x;
    assert forall q :: q in sh' && sh'[q].2 > 0 ==> sh'[q].2 in pn' && pn'[sh'[q].2] == q;
  }

  /** Linking in P changes the number and phandle of no other node. */
  lemma AttachKeepsIndexed(sh: map<string, Shape>, P: string, num: int, ph: int, sh': map<string, Shape>)
    requires WellFormed(P) && (P != "/" ==> Dirname(P) in sh) && sh' == Attached(sh, P, num, ph)
    ensures forall q :: q in sh && q != P ==> sh'[q].1 == sh[q].1 && sh'[q].2 == sh[q].2
    ensures sh'[P].1 == num && sh'[P].2 == ph
  {
  }

  lemma AttachShaped(sh: map<string, Shape>, P: string, num: int, ph: int)
    requires TreeShaped(sh) && WellFormed(P) && P !in sh
    requires P != "/" ==> Dirname(P) in sh
    ensures TreeShaped(Attached(sh, P, num, ph))
  {
    var sh' := Attached(sh, P, num, ph);
    if P != "/" {
      var D := Dirname(P);
      assert P !in sh[D].3;
      assert Distinct(sh[D].3 + [P]);
      assert forall q :: q in sh' && q != D && q != P ==> sh'[q] == sh[q];
      assert OwnPaths(sh');
      AttachChildLinks(sh, sh', P, num, ph);
      AttachParentLinks(sh, sh', P, num, ph);
    }
  }

  lemma AttachChildLinks(sh: map<string, Shape>, sh': map<string, Shape>, P: string, num: int, ph: int)
    requires TreeShaped(sh) && WellFormed(P) && P !in sh && P != "/" && Dirname(P) in sh
    requires sh' == Attached(sh, P, num, ph)
    ensures ChildLinks(sh')
  {
    var D := Dirname(P);
    forall q, c | q in sh' && c in sh'[q].3
      ensures c in sh' && c != "/" && Dirname(c) == q
    {
      if q != D {
        assert c in sh[q].3;
      }
    }
  }

  lemma AttachParentLinks(sh: map<string, Shape>, sh': map<string, Shape>, P: string, num: int, ph: int)
    requires TreeShaped(sh) && WellFormed(P) && P !in sh && P != "/" && Dirname(P) in sh
    requires sh' == Attached(sh, P, num, ph)
    ensures ParentLinks(sh')
  {
    forall q | q in sh' && q != "/"
      ensures Dirname(q) in sh' && q in sh'[Dirname(q)].3
    {
      if q != P {
        assert Dirname(q) in sh && q in sh[Dirname(q)].3;
      }
    }
  }

  /** The shapes after the subtree at p is removed: its paths are gone and
      p leaves its parent's child list. */
  function Deleted(sh: map<string, Shape>, p: string): (r: map<string, Shape>)
    requires TreeShaped(sh) && p in sh
    ensures r.Keys == set q | q in sh && !Under(p, q)
  {
    map q | q in sh && !Under(p, q) ::
      if p != "/" && q == Dirname(p) then (sh[q].0, sh[q].1, sh[q].2, Without(sh[q].3, p)) else sh[q]
  }

  /** The phandles and the numbers of the nodes under p. */
  function PhandlesUnder(sh: map<string, Shape>, p: string): set<int>
  {
    set q | q in sh && Under(p, q) :: sh[q].2
  }

  function NumbersUnder(sh: map<string, Shape>, p: string): set<int>
  {
    set q | q in sh && Under(p, q) :: sh[q].1
  }

  /** Removing a subtree, together with the index entries of its phandles
      and numbers, keeps the tree shape and the indices consistent. */
  lemma DeleteConsistent(sh: map<string, Shape>, pn: map<int, string>, nn: map<int, string>, p: string,
                         sh': map<string, Shape>, pn': map<int, string>, nn': map<int, string>)
    requires Consistent(sh, pn, nn) && p in sh
    requires sh' == Deleted(sh, p) && pn' == pn - PhandlesUnder(sh, p) && nn' == nn - NumbersUnder(sh, p)
    ensures Consistent(sh', pn', nn')
  {
    DeleteKeepsOwnShapes(sh, p);
    DeleteChildLinks(sh, p);
    DeleteParentLinks(sh, p);
    DeletePhandles(sh, pn, nn, p);
    DeleteNumbers(sh, pn, nn, p);
  }

  lemma DeleteKeepsOwnShapes(sh: map<string, Shape>, p: string)
    requires TreeShaped(sh) && p in sh
    ensures OwnPaths(Deleted(sh, p))
    ensures forall q :: q in Deleted(sh, p) ==> Deleted(sh, p)[q].1 == sh[q].1 && Deleted(sh, p)[q].2 == sh[q].2
  {
    var sh' := Deleted(sh, p);
    forall q | q in sh'
      ensures sh'[q].0 == q && WellFormed(q) && Distinct(sh'[q].3)
    {
      if p != "/" && q == Dirname(p) {
        WithoutDistinct(sh[q].3, p);
      }
    }
  }

  lemma DeleteChildLinks(sh: map<string, Shape>, p: string)
    requires TreeShaped(sh) && p in sh
    ensures ChildLinks(Deleted(sh, p))
  {
    var sh' := Deleted(sh, p);
    forall q, c | q in sh' && c in sh'[q].3
      ensures c in sh' && c != "/" && WellFormed(c) && Dirname(c) == q
    {
      assert c in sh[q].3;
      if Under(p, c) && c != p {
        UnderParent(p, c);
      }
    }
  }

  lemma DeleteParentLinks(sh: map<string, Shape>, p: string)
    requires TreeShaped(sh) && p in sh
    ensures ParentLinks(Deleted(sh, p))
  {
    var sh' := Deleted(sh, p);
    forall q | q in sh' && q != "/" && WellFormed(q)
      ensures Dirname(q) in sh' && q in sh'[Dirname(q)].3
    {
      var d := Dirname(q);
      if Under(p, d) {
        UnderChild(p, d, q);
      }
    }
  }

  lemma DeletePhandles(sh: map<string, Shape>, pn: map<int, string>, nn: map<int, string>, p: string)
    requires Consistent(sh, pn, nn) && p in sh
    ensures PhandleIndex(Deleted(sh, p), pn - PhandlesUnder(sh, p))
  {
    var sh' := Deleted(sh, p);
    var pn' := pn - PhandlesUnder(sh, p);
    forall ph | ph in pn'
      ensures ph > 0 && pn'[ph] in sh' && sh'[pn'[ph]].2 == ph
    {
    }
    forall q | q in sh' && sh'[q].2 > 0
      ensures sh'[q].2 in pn' && pn'[sh'[q].2] == q
    {
    }
  }

  lemma DeleteNumbers(sh: map<string, Shape>, pn: map<int, string>, nn: map<int, string>, p: string)
    requires Consistent(sh, pn, nn) && p in sh
    ensures NumberIndex(Deleted(sh, p), nn - NumbersUnder(sh, p))
  {
    var sh' := Deleted(sh, p);
    var nn' := nn - NumbersUnder(sh, p);
    forall n | n in nn'
      ensures nn'[n] in sh' && sh'[nn'[n]].1 == n
    {
    }
  }

  /** A tree of the root alone, numbered 0 and without a phandle, is
      consistent. */
  lemma RootConsistent()
    ensures Consistent(map["/" := ("/", 0, -1, [])], map[], map[0 := "/"])
  {
  }

  /** `phandle_set(ph)` on the properties: a `phandle` property takes the
      value ph, and every other property stays. */
  function WithPhandleProp(props: seq<Prop>, ph: int): (r: seq<Prop>)
    ensures |r| == |props|
    ensures forall i :: 0 <= i < |props| && props[i].name != "phandle" ==> r[i] == props[i]
    ensures PropIndex(props, "phandle").Some? ==>
      var i := PropIndex(props, "phandle").value;
      r[i].name == "phandle" && r[i].value == [Num(ph)] && PropIndex(r, "phandle") == Some(i)
  {
    match PropIndex(props, "phandle")
    case Some(i) => props[i := AssignValue(props[i], [Num(ph)])]
    case None => props
  }

  /** `merge(other)` as far as properties go: the other node's properties
      in its order, each taking the place of a same-named property of this
      node with the new value, then this node's remaining properties. */
  function MergeProps(existing: seq<Prop>, incoming: seq<Prop>): (r: seq<Prop>)
  {
    MergeFront(existing, incoming) + Unmatched(existing, incoming)
  }

  function MergeFront(existing: seq<Prop>, incoming: seq<Prop>): (r: seq<Prop>)
    ensures |r| == |incoming|
    ensures forall i :: 0 <= i < |r| ==> r[i].name == incoming[i].name && r[i].value == incoming[i].value
  {
    if |incoming| == 0 then []
    else
      var x := incoming[0];
      var y := match PropIndex(existing, x.name)
        case Some(i) => AssignValue(existing[i], x.value)
        case None => Prop(x.name, x.value, x.pclass, false);
      [y] + MergeFront(existing, incoming[1..])
  }

  function Unmatched(existing: seq<Prop>, incoming: seq<Prop>): (r: seq<Prop>)
    ensures forall e :: e in r <==> e in existing && PropIndex(incoming, e.name).None?
    ensures DistinctNames(existing) ==> DistinctNames(r)
  {
    if |existing| == 0 then []
    else (if PropIndex(incoming, existing[0].name).None? then [existing[0]] else [])
         + Unmatched(existing[1..], incoming)
  }

  /** After a merge, each of the other node's properties reads back with
      its new value, every property of this node that the other lacks is
      still there, and names stay distinct. */
  lemma MergeLaws(existing: seq<Prop>, incoming: seq<Prop>)
    requires DistinctNames(existing) && DistinctNames(incoming)
    ensures DistinctNames(MergeProps(existing, incoming))
    ensures forall i :: 0 <= i < |incoming| ==>
      PropIndex(MergeProps(existing, incoming), incoming[i].name) == Some(i)
      && MergeProps(existing, incoming)[i].value == incoming[i].value
    ensures forall e :: e in existing && PropIndex(incoming, e.name).None? ==> e in MergeProps(existing, incoming)
  {
    MergeDistinct(existing, incoming);
    var r := MergeProps(existing, incoming);
    forall i | 0 <= i < |incoming|
      ensures PropIndex(r, incoming[i].name) == Some(i)
    {
      PropIndexOfDistinct(r, i);
    }
  }

  lemma MergeDistinct(existing: seq<Prop>, incoming: seq<Prop>)
    requires DistinctNames(existing) && DistinctNames(incoming)
    ensures DistinctNames(MergeProps(existing, incoming))
  {
    var front := MergeFront(existing, incoming);
    var rest := Unmatched(existing, incoming);
    var r := front + rest;
    forall i, j | 0 <= i < j < |r|
      ensures r[i].name != r[j].name
    {
      if i >= |front| {
        assert r[i] == rest[i - |front|] && r[j] == rest[j - |front|];
      } else if j >= |front| {
        assert r[j] == rest[j - |front|];
        assert r[j] in rest;
      }
    }
  }

  /** In a list with distinct names, a property is found at its own index. */
  lemma PropIndexOfDistinct(props: seq<Prop>, i: nat)
    requires DistinctNames(props) && i < |props|
    ensures PropIndex(props, props[i].name) == Some(i)
  {
  }

  /** A LopperTree: nodes by path, and the phandle, label and number
      indices. */
  /** `int(name.split('@')[1], 16)`: None when there is no '@' or the
      text after it is not a hex number. */
  function UnitAddress(name: string): (r: Option<int>)
    ensures '@' !in name ==> r.None?
  {
    if '@' !in name then
      SplitNoSep(name, '@');
      None
    else
      var parts := SplitOn(name, '@');
      if |parts| < 2 then None else Base.PyInt(parts[1], 16)
  }

  /** The three cell counts of `address`: every `propval(...)[0]` is read
      before any `int()`, so an empty value (IndexError) wins over a
      string that does not parse (ValueError). The flag says a count is a
      string, which the slicing of the first entry rejects. */
  function AddressCounts(acv: seq<PVal>, pacv: seq<PVal>, scv: seq<PVal>): (r: Result<(int, int, int, bool)>)
    ensures r.Err? <==> (|acv| == 0 || |pacv| == 0 || |scv| == 0
                         || CellCount(acv, 2).Err? || CellCount(pacv, 2).Err? || CellCount(scv, 1).Err?)
    ensures r.Err? && (|acv| == 0 || |pacv| == 0 || |scv| == 0) ==> r.error == IndexError
  {
    if |acv| == 0 || |pacv| == 0 || |scv| == 0 then Err(IndexError)
    else match (CellCount(acv, 2), CellCount(pacv, 2), CellCount(scv, 1))
      case (Ok(a), Ok(pa), Ok(s)) => Ok((a.0, pa.0, s.0, a.1 || pa.1 || s.1))
      case _ => Err(ValueError)
  }

  /** Well-formed paths, each with its parent present. */
  ghost predicate PathClosed(keys: set<string>)
  {
    (forall x :: x in keys ==> WellFormed(x))
    && forall x {:trigger Dirname(x)} :: x in keys && WellFormed(x) && x != "/" ==> Dirname(x) in keys
  }

  /** The segment a node named names[q] adds to a path: "/" and the name,
      or nothing for an empty name. */
  function Segment(names: map<string, string>, q: string): string
    requires q in names
  {
    if names[q] != "" then "/" + names[q] else ""
  }

  /** The segments of q and its ancestors, root first. */
  function NamedPrefix(names: map<string, string>, q: string): string
    requires PathClosed(names.Keys) && q in names
    decreases |q|
  {
    if q == "/" then Segment(names, q) else NamedPrefix(names, Dirname(q)) + Segment(names, q)
  }

  /** The segments of the proper ancestors of q. */
  function Above(names: map<string, string>, q: string): string
    requires PathClosed(names.Keys) && q in names
  {
    if q == "/" then "" else NamedPrefix(names, Dirname(q))
  }

  /** One step up: the ancestors of q are those of its parent, and the
      parent. */
  lemma AboveStep(names: map<string, string>, q: string)
    requires PathClosed(names.Keys) && q in names && q != "/"
    ensures Dirname(q) in names && |Dirname(q)| < |q|
    ensures Above(names, q) == Above(names, Dirname(q)) + Segment(names, Dirname(q))
  {
  }

  /** When every node is named after the last component of its path, the
      segments of a node and its ancestors spell its path, so `path()`
      gives the node's own path back. */
  lemma {:induction false} NamedPrefixIsPath(names: map<string, string>, q: string)
    requires PathClosed(names.Keys) && q in names
    requires forall x :: x in names ==> names[x] == Basename(x)
    ensures NamedPrefix(names, q) == (if q == "/" then "" else q)
    ensures Above(names, q) + "/" + names[q] == q
    decreases |q|
  {
    if q != "/" {
      NamedPrefixIsPath(names, Dirname(q));
      NamedPrefixStep(names, q);
    } else {
      assert Basename("/") == "";
    }
  }

  /** The induction step of NamedPrefixIsPath, for a node whose parent's
      segments already spell the parent's path. */
  lemma NamedPrefixStep(names: map<string, string>, q: string)
    requires PathClosed(names.Keys) && q in names && q != "/" && names[q] == Basename(q)
    requires NamedPrefix(names, Dirname(q)) == (if Dirname(q) == "/" then "" else Dirname(q))
    ensures NamedPrefix(names, q) == q
    ensures Above(names, q) + "/" + names[q] == q
  {
    DirnameBasename(q);
    JoinParts(Dirname(q), Basename(q));
  }

  /** Prepending the parent's segment keeps the ancestors' segments
      followed by the text built so far equal to the whole path. */
  lemma PrependSegment(names: map<string, string>, q: string, prev: string, next: string, whole: string)
    requires PathClosed(names.Keys) && q in names && q != "/"
    requires Above(names, q) + prev == whole
    requires next == Segment(names, Dirname(q)) + prev
    ensures Above(names, Dirname(q)) + next == whole
  {
    AboveStep(names, q);
  }

  class Tree {
    var nodes: map<string, Node>
    var pnodes: map<int, string>
    var lnodes: map<string, string>
    var nnodes: map<int, string>
    var strict: bool
    var check: bool
    var warnings: seq<string>
    var werror: bool
    var issued: map<string, nat>

    /** The shapes of the nodes, by path. */
    function Shapes(): (sh: map<string, Shape>)
      reads this`nodes, nodes.Values`path, nodes.Values`number, nodes.Values`phandle, nodes.Values`children
      ensures sh.Keys == nodes.Keys
      ensures forall p :: p in sh ==> sh[p] == nodes[p].Shape()
    {
      map p | p in nodes :: nodes[p].Shape()
    }

    ghost predicate Valid()
      reads this`nodes, this`pnodes, this`nnodes
      reads nodes.Values`path, nodes.Values`number, nodes.Values`phandle, nodes.Values`children
    {
      Consistent(Shapes(), pnodes, nnodes) == true
    }

    /** A new tree holds the root node "/" (number 0, no phandle), which
        `load` has resolved. */
    constructor ()
      ensures Valid()
      ensures nodes.Keys == {"/"} && nodes["/"].name == "" && nodes["/"].number == 0
      ensures nodes["/"].phandle == -1 && nodes["/"].children == []
      ensures nodes["/"].resolved && nodes["/"].modified
      ensures pnodes == map[] && lnodes == map[] && nnodes == map[0 := "/"]
      ensures strict && !check && warnings == [] && !werror && issued == map[]
    {
      var root := new Node(0, "/", -1, "");
      root.MarkResolvedAsWritten();
      nodes := map["/" := root];
      pnodes := map[];
      lnodes := map[];
      nnodes := map[0 := "/"];
      strict := true;
      check := false;
      warnings := [];
      werror := false;
      issued := map[];
      new;
      assert Shapes() == map["/" := ("/", 0, -1, [])];
      RootConsistent();
    }

    /** `subnodes(start, regex)`: the preorder walk from start, keeping the
        paths the pattern matches when one is given. It visits exactly the
        nodes under start. */
    function Subnodes(start: string, regex: string, m: Matcher): (r: seq<string>)
      requires Valid() && start in nodes
      reads this, nodes.Values
      ensures regex == "" ==> r == Walk(Shapes(), start)
      ensures forall q :: q in r <==> q in nodes && Under(start, q) && (regex == "" || m(regex, q))
    {
      var w := Walk(Shapes(), start);
      assert forall q :: q in w <==> q in nodes && Under(start, q) by {
        forall q {
          WalkIsSubtree(Shapes(), start, q);
        }
      }
      if regex == "" then w else FilterPaths(w, regex, m)
    }

    /** `phandle_gen`: one more than the highest phandle in use, or 1 when
        none is; never a phandle in use. */
    method PhandleGen() returns (r: int)
      ensures r >= 1 && r !in pnodes
      ensures forall ph :: ph in pnodes ==> ph < r
      ensures r == 1 || r - 1 in pnodes
    {
      var todo := pnodes.Keys;
      var highest := 0;
      while |todo| > 0
        invariant todo <= pnodes.Keys
        invariant highest == 0 || highest in pnodes
        invariant forall x :: x in pnodes && x !in todo ==> x <= highest
        decreases |todo|
      {
        Inhabited(todo);
        var k :| k in todo;
        if k > highest {
          highest := k;
        }
        todo := todo - {k};
      }
      r := highest + 1;
    }

    /** `pnode(phandle)`. */
    function Pnode(ph: int): (r: Option<string>)
      requires Valid()
      reads this, nodes.Values
      ensures r.Some? ==> r.value in nodes && nodes[r.value].phandle == ph
      ensures r.None? ==> forall p :: p in nodes ==> nodes[p].phandle != ph || ph <= 0
    {
      if ph in pnodes then Some(pnodes[ph]) else None
    }

    /** `nodes(name, strict)`: the node at that exact path, or else every
        path the pattern matches (anchored when strict). */
    function NodesNamed(name: string, strictMatch: bool, m: Matcher): (r: set<string>)
      reads this
      ensures r <= nodes.Keys
      ensures var pat := if strictMatch then "^" + name + "$" else name;
        (pat in nodes ==> r == {pat}) && (pat !in nodes ==> forall q :: q in nodes ==> (q in r <==> m(pat, q)))
    {
      var pat := if strictMatch then "^" + name + "$" else name;
      if pat in nodes then {pat} else set q | q in nodes && m(pat, q)
    }

    /** `lnodes(label, exact)`: the nodes whose label the pattern matches,
        anchored when exact. */
    function Lnodes(lbl: string, exact: bool, m: Matcher): (r: set<string>)
      reads this
      ensures forall q :: q in r <==>
        (exists l :: l in lnodes && lnodes[l] == q && m(if exact then "^" + lbl + "$" else lbl, l))
    {
      var pat := if exact then "^" + lbl + "$" else lbl;
      set l | l in lnodes && m(pat, l) :: lnodes[l]
    }

    /** `refd(regex)`: the referenced nodes, restricted to matching paths
        when a pattern is given. */
    function Refd(regex: string, m: Matcher): (r: set<string>)
      reads this, nodes.Values
      ensures forall q :: q in r <==> q in nodes && nodes[q].refcount > 0 && (regex == "" || m(regex, q))
    {
      set q | q in nodes && nodes[q].refcount > 0 && (regex == "" || m(regex, q))
    }

    /** `ref(value, regex)`: apply the refcount setter to every node, or to
        the nodes `nodes(regex)` finds. */
    method Ref(value: int, regex: string, m: Matcher)
      requires forall p :: p in nodes ==> nodes[p].path == p
      modifies nodes.Values`refcount, nodes.Values`modified
      ensures forall p :: p in nodes ==>
        (nodes[p].refcount ==
           if p in (if regex == "" then nodes.Keys else NodesNamed(regex, false, m))
           then (if value > 0 then old(nodes[p].refcount) + value else 0)
           else old(nodes[p].refcount))
      ensures regex == "" && value > 0 ==> Refd("", m) == nodes.Keys
      ensures regex == "" && value <= 0 ==> Refd("", m) == {}
    {
      var targets := if regex == "" then nodes.Keys else NodesNamed(regex, false, m);
      var todo := targets;
      while |todo| > 0
        invariant todo <= targets <= nodes.Keys
        invariant forall p :: p in nodes ==>
          (nodes[p].refcount ==
             if p in targets && p !in todo then (if value > 0 then old(nodes[p].refcount) + value else 0)
             else old(nodes[p].refcount))
        decreases |todo|
      {
        var p :| p in todo;
        nodes[p].SetRef(value);
        todo := todo - {p};
      }
    }

    /** `label_set(value)` on a node in this tree: an empty label changes
        nothing; otherwise the first free label among value, value_1,
        value_1_2, ... is recorded for the node. The entry for its old
        label stays. */
    method LabelSet(p: string, value: string)
      requires p in nodes
      modifies this`lnodes, {nodes[p]}`labelName, {nodes[p]}`modified
      ensures Shapes() == old(Shapes())
      ensures value == "" ==> lnodes == old(lnodes) && nodes[p].labelName == old(nodes[p].labelName)
      ensures value != "" ==>
        var l := FreshLabel(value, old(lnodes).Keys, 1);
        l !in old(lnodes) && nodes[p].labelName == l && lnodes == old(lnodes)[l := p] && nodes[p].modified
    {
      if value != "" {
        var v := value;
        var count := 1;
        while v in lnodes
          invariant FreshLabel(v, lnodes.Keys, count) == FreshLabel(value, lnodes.Keys, 1)
          decreases if |v| <= MaxLen(lnodes.Keys) then MaxLen(lnodes.Keys) - |v| + 1 else 0
        {
          v := v + "_" + NatToDecimal(count);
          count := count + 1;
        }
        lnodes := lnodes[v := p];
        nodes[p].labelName := v;
        nodes[p].modified := true;
      }
    }

    /** `warn(warnings, context)`: nothing unless checking is on and some
        warning class is enabled; each message goes out once. */
    method Warn(ws: seq<string>, context: string) returns (r: Result<seq<string>>)
      modifies this`issued
      ensures !check || warnings == [] ==> r == Ok([]) && issued == old(issued)
      ensures check && warnings != [] ==>
        (issued, r) == WarnRun(old(issued), ws, warnings, context, werror)
    {
      if !check || warnings == [] {
        return Ok([]);
      }
      var enabled, strictError, counts := warnings, werror, issued;
      var emitted: seq<string> := [];
      var k := 0;
      ghost var whole := WarnRun(counts, ws, enabled, context, strictError);
      assert ws[0..] == ws;
      if whole.1.Ok? {
        assert emitted + whole.1.value == whole.1.value;
      }
      while k < |ws|
        invariant 0 <= k <= |ws|
        invariant whole == WarnPrefixed(emitted, WarnRun(counts, ws[k..], enabled, context, strictError))
      {
        var w := ws[k];
        assert ws[k..][1..] == ws[k + 1..];
        if w in enabled || "all" in enabled {
          var out := w + ": " + context;
          if out in counts {
            counts := counts[out := counts[out] + 1];
          } else {
            counts := counts[out := 1];
            if strictError {
              issued := counts;
              return Err(SystemExit);
            }
            WarnShift(emitted, out, WarnRun(counts, ws[k + 1..], enabled, context, strictError));
            emitted := emitted + [out];
          }
        }
        k := k + 1;
      }
      assert ws[k..] == [];
      assert emitted + [] == emitted;
      issued := counts;
      r := Ok(emitted);
    }

    /** The label step of `add`: a label already in use goes through
        `label_set`, a new one is recorded as it is. */
    method LabelNode(node: Node)
      requires node.path in nodes && nodes[node.path] == node
      modifies this`lnodes, node`labelName, node`modified
      ensures Shapes() == old(Shapes())
      ensures old(node.modified) ==> node.modified
      ensures old(node.labelName) == "" ==> lnodes == old(lnodes) && node.labelName == ""
      ensures old(node.labelName) != "" ==>
        node.labelName == FreshLabel(old(node.labelName), old(lnodes).Keys, 1)
        && lnodes == old(lnodes)[node.labelName := node.path]
    {
      if node.labelName != "" {
        if node.labelName in lnodes {
          LabelSet(node.path, node.labelName);
        } else {
          lnodes := lnodes[node.labelName := node.path];
        }
      }
    }

    /** The node-side part of `add` before the node is indexed; its `load`
        leaves it resolved. */
    method Prepare(node: Node)
      requires node !in nodes.Values
      modifies node`number, node`name, node`phandle, node`props, node`resolved, node`modified
      ensures node.path == old(node.path) && node.children == old(node.children)
      ensures node.labelName == old(node.labelName) && node.refcount == old(node.refcount)
      ensures node.number == (if node.path == "/" then 0 else old(node.number))
      ensures node.name == (if old(node.name) == "" && WellFormed(node.path) then Basename(node.path) else old(node.name))
      ensures old(node.phandle) == -1 ==> node.phandle == 0
      ensures old(node.phandle) > 0 && old(node.phandle) in pnodes ==>
        node.phandle !in pnodes && (forall x :: x in pnodes ==> x < node.phandle) && node.phandle - 1 in pnodes
      ensures old(node.phandle) != -1 && !(old(node.phandle) > 0 && old(node.phandle) in pnodes) ==>
        node.phandle == old(node.phandle)
      ensures node.phandle > 0 ==> node.phandle !in pnodes
      ensures node.props == WithPhandleProp(old(node.props), node.phandle)
      ensures node.resolved && node.modified
    {
      var number := if node.path == "/" then 0 else node.number;
      var name := if node.name == "" && WellFormed(node.path) then Basename(node.path) else node.name;
      var phandle := if node.phandle == -1 then 0 else node.phandle;
      if phandle > 0 && phandle in pnodes {
        phandle := PhandleGen();
      }
      node.SetAdded(number, name, phandle);
    }

    /** Index a prepared node and append it to its parent's children. */
    method Link(node: Node)
      requires Valid() && node !in nodes.Values
      requires WellFormed(node.path) && node.path !in nodes && node.children == []
      requires node.path != "/" ==> Dirname(node.path) in nodes
      requires node.phandle > 0 ==> node.phandle !in pnodes
      modifies this`nodes, this`pnodes, this`nnodes, nodes.Values`children
      ensures Valid()
      ensures nodes == old(nodes)[node.path := node]
      ensures Shapes() == Attached(old(Shapes()), node.path, node.number, node.phandle)
      ensures pnodes == if node.phandle > 0 then old(pnodes)[node.phandle := node.path] else old(pnodes)
      ensures nnodes == if node.number >= 0 then old(nnodes)[node.number := node.path] else old(nnodes)
    {
      var P := node.path;
      ghost var pn0 := pnodes;
      ghost var nn0 := nnodes;
      ghost var sh0 := Shapes();
      if P != "/" {
        AppendChild(Dirname(P), P);
      }
      ghost var sh1 := Shapes();
      InsertNode(node);
      IndexNode(node);
      LinkConsistent(sh0, pn0, nn0, sh1, Shapes(), pnodes, nnodes, P, node.number, node.phandle);
    }

    /** Put a node into the path map. */
    method InsertNode(node: Node)
      requires node.path !in nodes
      modifies this`nodes
      ensures nodes == old(nodes)[node.path := node]
      ensures Shapes() == old(Shapes())[node.path := node.Shape()]
    {
      nodes := nodes[node.path := node];
    }

    /** Record a node under its number, and under its phandle if positive. */
    method IndexNode(node: Node)
      modifies this`pnodes, this`nnodes
      ensures pnodes == if node.phandle > 0 then old(pnodes)[node.phandle := node.path] else old(pnodes)
      ensures nnodes == if node.number >= 0 then old(nnodes)[node.number := node.path] else old(nnodes)
    {
      if node.number >= 0 {
        nnodes := nnodes[node.number := node.path];
      }
      if node.phandle > 0 {
        pnodes := pnodes[node.phandle := node.path];
      }
    }

    /** Append a path to the child list of the node at D. */
    method AppendChild(D: string, P: string)
      requires Valid() && D in nodes
      modifies nodes.Values`children
      ensures nodes[D].children == old(nodes[D].children) + [P]
      ensures Shapes() == old(Shapes())[D := (D, old(nodes[D].number), old(nodes[D].phandle), old(nodes[D].children) + [P])]
    {
      ghost var sh0 := Shapes();
      var parent := nodes[D];
      parent.children := parent.children + [P];
      forall q | q in nodes && q != D
        ensures nodes[q].Shape() == sh0[q]
      {
        assert sh0[q].0 == q;
      }
    }

    /** `add(node, merge)` for a node that is not in the tree yet and has no
        children of its own. A node already at the path is left alone, or
        with merge takes what the new node exports (AddMerge); otherwise
        the node goes in with its missing ancestors (AddFresh). Nodes
        already in the tree stay; the new paths are the node's own and its
        ancestors'. */
    method Add(node: Node, merge: bool)
      requires Valid() && node !in nodes.Values
      requires WellFormed(node.path) && node.children == []
      modifies this`nodes, this`pnodes, this`nnodes, this`lnodes,
        nodes.Values`children, nodes.Values`name, nodes.Values`phandle, nodes.Values`props,
        nodes.Values`resolved, nodes.Values`modified,
        node`number, node`name, node`phandle, node`props, node`resolved, node`modified, node`labelName
      ensures node.path in nodes
      ensures forall q :: q in old(nodes) ==> q in nodes && nodes[q] == old(nodes[q])
      ensures forall q :: q in nodes && q !in old(nodes) ==> Under(q, node.path)
      ensures node.path !in old(nodes) ==> Valid() && nodes[node.path] == node
      ensures node.path in old(nodes) ==> nodes == old(nodes) && lnodes == old(lnodes) && nnodes == old(nnodes)
      ensures node.path in old(nodes) && !(merge && old(node.resolved)) ==>
        Valid() && pnodes == old(pnodes) && Shapes() == old(Shapes())
      ensures node.path in old(nodes) && merge && old(node.resolved) && old(node.phandle) == old(nodes[node.path].phandle) ==>
        Valid()
    {
      if node.path in nodes {
        if merge {
          MergeExisting(node);
        }
      } else {
        AddFresh(node);
      }
    }

    /** AddMerge on a consistent tree: the path, number and label indices
        stay; an unresolved node changes nothing the indices see, and a
        resolved one with the existing node's phandle keeps the tree
        consistent. */
    method MergeExisting(node: Node)
      requires Valid() && node !in nodes.Values && node.path in nodes
      modifies this`pnodes, {nodes[node.path]}`name, {nodes[node.path]}`phandle, {nodes[node.path]}`props,
        {nodes[node.path]}`resolved, {nodes[node.path]}`modified, node`modified
      ensures nodes == old(nodes) && lnodes == old(lnodes) && nnodes == old(nnodes)
      ensures !old(node.resolved) ==> Valid() && pnodes == old(pnodes) && Shapes() == old(Shapes())
      ensures old(node.resolved) && node.phandle == old(nodes[node.path].phandle) ==> Valid()
    {
      ghost var sh0, pn0 := Shapes(), pnodes;
      ValidKeyed();
      AddMerge(node);
      if node.resolved && node.phandle == sh0[node.path].2 {
        SamePhandleConsistent(sh0, pn0, nnodes, node.path);
      }
    }

    /** The merge branch of `add`: the node already at the path takes what
        the new node exports (MergeInto). Whether the tree stays
        consistent is left to the caller (SamePhandleConsistent). */
    method AddMerge(node: Node)
      requires KeyedByPath() && node !in nodes.Values && node.path in nodes
      modifies this`pnodes, {nodes[node.path]}`name, {nodes[node.path]}`phandle, {nodes[node.path]}`props,
        {nodes[node.path]}`resolved, {nodes[node.path]}`modified, node`modified
      ensures nodes[node.path].modified
      ensures !old(node.resolved) ==>
        pnodes == old(pnodes) && Shapes() == old(Shapes())
        && nodes[node.path].props == old(nodes[node.path].props)
      ensures old(node.resolved) ==>
        var e := nodes[node.path];
        e.name == node.name && e.phandle == node.phandle && e.resolved
        && e.props == WithPhandleProp(MergeProps(old(e.props), node.props), node.phandle)
        && pnodes == (if node.phandle > 0 then old(pnodes)[node.phandle := node.path] else old(pnodes))
        && Shapes() == old(Shapes())[node.path := (node.path, e.number, node.phandle, e.children)]
    {
      assert nodes[node.path] in nodes.Values;
      MergeInto(nodes[node.path], node);
    }

    /** `add` of a node whose path is not in the tree: missing ancestors
        first (AddParent), then the node itself (AddNew). */
    method AddFresh(node: Node)
      requires Valid() && node !in nodes.Values
      requires WellFormed(node.path) && node.path !in nodes && node.children == []
      modifies this`nodes, this`pnodes, this`nnodes, this`lnodes, nodes.Values`children,
        node`number, node`name, node`phandle, node`props, node`resolved, node`modified, node`labelName
      decreases |node.path|, 2
      ensures Valid() && node.path in nodes && nodes[node.path] == node
      ensures forall q :: q in old(nodes) ==> q in nodes && nodes[q] == old(nodes[q])
      ensures forall q :: q in nodes && q !in old(nodes) ==> Under(q, node.path)
      ensures forall q :: q in nodes && q !in old(nodes) && q != node.path ==> fresh(nodes[q])
    {
      AddParent(node.path, node);
      AddNew(node);
    }

    /** The first step of `add`: when the directory of P is not in the tree,
        an empty node (number -1, no phandle) is added there, after its own
        missing ancestors. The node `keep`, not in the tree, stays out. */
    method AddParent(P: string, ghost keep: Node)
      requires Valid() && WellFormed(P) && keep !in nodes.Values
      modifies this`nodes, this`pnodes, this`nnodes, this`lnodes, nodes.Values`children
      decreases |P|, 1
      ensures Valid() && (P != "/" ==> Dirname(P) in nodes)
      ensures forall q :: q in old(nodes) ==> q in nodes && nodes[q] == old(nodes[q])
      ensures forall q :: q in nodes && q !in old(nodes) ==> Under(q, P) && q != P && fresh(nodes[q])
      ensures keep !in nodes.Values
      ensures P == "/" || Dirname(P) in old(nodes) ==>
        nodes == old(nodes) && pnodes == old(pnodes) && lnodes == old(lnodes) && nnodes == old(nnodes)
        && Shapes() == old(Shapes())
    {
      if P != "/" && Dirname(P) !in nodes {
        var D := Dirname(P);
        var inode := new Node(-1, D, -1, "");
        AddFresh(inode);
        forall q | q in nodes && q !in old(nodes)
          ensures Under(q, P) && q != P
        {
          UnderDirnameOf(q, P);
        }
        assert keep !in nodes.Values by {
          forall q | q in nodes
            ensures nodes[q] != keep
          {
            if q in old(nodes) {
              assert old(nodes[q]) in old(nodes.Values);
            }
          }
        }
      }
    }

    /** The rest of `add` for a path not in the tree, once its directory
        is: the node is prepared (Prepare), linked and indexed (Link) and
        its label recorded (LabelNode). */
    method AddNew(node: Node)
      requires Valid() && node !in nodes.Values
      requires WellFormed(node.path) && node.path !in nodes && node.children == []
      requires node.path != "/" ==> Dirname(node.path) in nodes
      modifies this`nodes, this`pnodes, this`nnodes, this`lnodes, nodes.Values`children,
        node`number, node`name, node`phandle, node`props, node`resolved, node`modified, node`labelName
      ensures Valid() && node.path == old(node.path)
      ensures nodes == old(nodes)[node.path := node]
    {
      PrepareLink(node);
      LabelNode(node);
    }

    /** Prepare, then Link: preparing touches none of the indexed fields
        but the phandle, and the node is not in the tree yet. */
    method PrepareLink(node: Node)
      requires Valid() && node !in nodes.Values
      requires WellFormed(node.path) && node.path !in nodes && node.children == []
      requires node.path != "/" ==> Dirname(node.path) in nodes
      modifies this`nodes, this`pnodes, this`nnodes, nodes.Values`children,
        node`number, node`name, node`phandle, node`props, node`resolved, node`modified
      ensures Valid() && node.path == old(node.path)
      ensures nodes == old(nodes)[node.path := node]
    {
      ghost var sh0 := Shapes();
      Prepare(node);
      assert Shapes() == sh0;
      Link(node);
    }

    /** `merge(other)`: `existing.load(other.export(), clear_children=False,
        update_props=True)`. Export writes the other node's path, which
        marks it modified. An unresolved node exports nothing, and loading
        nothing only marks the existing node. A resolved one passes its
        name, phandle and properties: the name and phandle are overwritten,
        a positive phandle is indexed to the existing node (the entry of
        its old phandle stays), the properties merge (MergeProps) with the
        `phandle` property set to the new phandle, and the node is resolved.
        With an unchanged phandle the tree stays consistent. */
    method MergeInto(existing: Node, incoming: Node)
      requires existing.path in nodes && nodes[existing.path] == existing && KeyedByPath()
      requires incoming !in nodes.Values && incoming != existing
      modifies this`pnodes, existing`name, existing`phandle, existing`props, existing`resolved,
        existing`modified, incoming`modified
      ensures existing.modified && incoming.modified
      ensures !old(incoming.resolved) ==>
        existing.name == old(existing.name) && existing.phandle == old(existing.phandle)
        && existing.props == old(existing.props) && existing.resolved == old(existing.resolved)
        && pnodes == old(pnodes) && Shapes() == old(Shapes())
      ensures old(incoming.resolved) ==>
        existing.name == incoming.name && existing.phandle == incoming.phandle && existing.resolved
        && existing.props == WithPhandleProp(MergeProps(old(existing.props), incoming.props), incoming.phandle)
        && pnodes == (if incoming.phandle > 0 then old(pnodes)[incoming.phandle := existing.path] else old(pnodes))
        && Shapes() == old(Shapes())[existing.path := (existing.path, old(Shapes())[existing.path].1,
                                                       incoming.phandle, old(Shapes())[existing.path].3)]
    {
      var p := existing.path;
      var exported, ph := incoming.resolved, incoming.phandle;
      RecordExport(incoming, p);
      ghost var sh0 := Shapes();
      existing.LoadExport(exported, incoming.name, ph, incoming.props);
      forall q | q in nodes && q != p
        ensures nodes[q].Shape() == sh0[q]
      {
        assert nodes[q].path == q;
      }
      assert existing.Shape() == (p, sh0[p].1, existing.phandle, sh0[p].3);
      ShapesOneChanged(sh0, p);
    }

    /** The export half of `merge`: exporting writes the node's path,
        which marks it modified, and a positive exported phandle is
        indexed to the path it is loaded at. No node changes shape. */
    method RecordExport(incoming: Node, p: string)
      modifies this`pnodes, incoming`modified
      ensures incoming.modified
      ensures pnodes == if incoming.resolved && incoming.phandle > 0 then old(pnodes)[incoming.phandle := p] else old(pnodes)
      ensures Shapes() == old(Shapes())
    {
      if incoming.resolved && incoming.phandle > 0 {
        pnodes := pnodes[incoming.phandle := p];
      }
      incoming.modified := true;
    }

    /** When only the node at p may have changed shape, Shapes() changes
        at p alone. */
    lemma ShapesOneChanged(sh0: map<string, Shape>, p: string)
      requires p in nodes && sh0.Keys == nodes.Keys
      requires forall q :: q in nodes && q != p ==> nodes[q].Shape() == sh0[q]
      ensures Shapes() == sh0[p := nodes[p].Shape()]
    {
    }

    /** Every node sits at its own path. */
    ghost predicate KeyedByPath()
      reads this`nodes, nodes.Values`path
    {
      forall q :: q in nodes ==> nodes[q].path == q
    }

    lemma ValidKeyed()
      requires Valid()
      ensures KeyedByPath()
    {
      forall q | q in nodes
        ensures nodes[q].path == q
      {
        assert Shapes()[q].0 == q;
      }
    }

    /** Writing a node's own phandle back keeps the tree consistent. */
    static lemma SamePhandleConsistent(sh: map<string, Shape>, pn: map<int, string>, nn: map<int, string>, p: string)
      requires Consistent(sh, pn, nn) && p in sh
      ensures var ph := sh[p].2;
        Consistent(sh[p := (p, sh[p].1, ph, sh[p].3)], if ph > 0 then pn[ph := p] else pn, nn)
    {
      assert sh[p := (p, sh[p].1, sh[p].2, sh[p].3)] == sh;
      if sh[p].2 > 0 {
        assert pn[sh[p].2 := p] == pn;
      }
    }

    /** `delete(node)` for a node of this tree: the node and everything
        under it leave the path, phandle, label and number indices, the
        node leaves its parent's children, and every removed node is
        marked deleted (no longer resolved) and modified; the nodes that
        stay keep their state. */
    method Delete(p: string)
      requires Valid() && p in nodes
      modifies this`nodes, this`pnodes, this`nnodes, this`lnodes, nodes.Values`children,
        nodes.Values`modified, nodes.Values`resolved
      ensures Valid()
      ensures Shapes() == Deleted(old(Shapes()), p)
      ensures forall q :: q in nodes <==> q in old(nodes) && !Under(p, q)
      ensures forall q :: q in nodes ==> nodes[q] == old(nodes[q]) && nodes[q].resolved == old(nodes[q].resolved)
      ensures pnodes == old(pnodes) - PhandlesUnder(old(Shapes()), p)
      ensures nnodes == old(nnodes) - NumbersUnder(old(Shapes()), p)
      ensures lnodes == old(lnodes) - old(LabelsUnder(p))
      ensures forall q :: q in old(nodes) && Under(p, q) ==> old(nodes[q]).modified && !old(nodes[q]).resolved
      ensures forall ph :: ph in pnodes ==> !Under(p, pnodes[ph])
      ensures forall n :: n in nnodes ==> !Under(p, nnodes[n])
    {
      ghost var sh0 := Shapes();
      ghost var pn0, nn0 := pnodes, nnodes;
      var labels := LabelsUnder(p);
      var phandles := PhandlesUnder(Shapes(), p);
      var numbers := NumbersUnder(Shapes(), p);
      Detach(p);
      DropIndices(phandles, numbers, labels);
      DeleteConsistent(sh0, pn0, nn0, p, Shapes(), pnodes, nnodes);
    }

    /** The tree-shape part of Delete: the subtree leaves the path map and
        its parent's children, and its nodes are flagged deleted and
        modified. */
    method Detach(p: string)
      requires Valid() && p in nodes
      modifies this`nodes, nodes.Values`children, nodes.Values`modified, nodes.Values`resolved
      ensures Shapes() == Deleted(old(Shapes()), p)
      ensures forall q :: q in nodes <==> q in old(nodes) && !Under(p, q)
      ensures forall q :: q in nodes ==> nodes[q] == old(nodes[q])
      ensures forall q :: q in old(nodes) && Under(p, q) ==> old(nodes[q]).modified && !old(nodes[q]).resolved
      ensures forall q :: q in nodes ==> nodes[q].resolved == old(nodes[q].resolved)
    {
      ValidKeyed();
      var gone := GoneUnder(p);
      assert forall q :: q in nodes && !Under(p, q) ==> nodes[q] !in gone;
      Unlink(p);
      MarkDeleted(gone);
    }

    /** A node of a consistent tree other than the root has its parent in
        the tree, on a shorter path. */
    lemma ParentIn(p: string)
      requires Valid() && p in nodes && p != "/"
      ensures WellFormed(p) && Dirname(p) in nodes && |Dirname(p)| < |p|
    {
      assert Shapes()[p].0 == p;
    }

    /** The names of the nodes, by path. */
    function Names(): (r: map<string, string>)
      reads this`nodes, nodes.Values`name
      ensures r.Keys == nodes.Keys
      ensures forall q :: q in r ==> r[q] == nodes[q].name
    {
      map q | q in nodes :: nodes[q].name
    }

    /** Paths of a consistent tree are well formed and closed under taking
        the parent. */
    lemma ValidClosed()
      requires Valid()
      ensures PathClosed(nodes.Keys)
    {
      forall x | x in nodes
        ensures WellFormed(x)
      {
        assert Shapes()[x].0 == x;
      }
    }

    /** `path()`: "/" and the node's name, after "/" and the name of each
        ancestor whose name is not empty, walking up the parents. */
    method NodePath(p: string) returns (npath: string)
      requires PathClosed(nodes.Keys) && p in nodes
      ensures npath == Above(Names(), p) + "/" + nodes[p].name
    {
      ghost var names := Names();
      npath := "/" + nodes[p].name;
      var cur := p;
      while cur != "/"
        invariant cur in nodes
        invariant Above(names, cur) + npath == Above(names, p) + "/" + nodes[p].name
        decreases |cur|
      {
        AboveStep(names, cur);
        var d := Dirname(cur);
        ghost var prev := npath;
        if nodes[d].name != "" {
          npath := "/" + nodes[d].name + npath;
        }
        PrependSegment(names, cur, prev, npath, Above(names, p) + "/" + nodes[p].name);
        cur := d;
      }
    }

    /** `address(child_addr)`: the unit address (child_addr, or when that
        is 0 the hex number after the first '@' of the name), carried up
        through the parents' `ranges`. No parent, or a parent without
        ranges, ends the walk; a one-element `ranges` maps 1:1 to the
        parent; otherwise the first window of the parent's ranges holding
        the address moves it into the parent's space and the walk goes on
        from the parent, and when no window holds it the address is
        returned as it is. Cell counts come from the node's own
        #address-cells (default 2) and #size-cells (default 1) and the
        parent's #address-cells (default 2). */
    function Address(p: string, childAddr: int, m: Matcher): (r: Result<Option<int>>)
      requires Valid() && p in nodes
      reads this, nodes.Values
      ensures childAddr == 0 && UnitAddress(nodes[p].name).None? ==> r == Ok(None)
      ensures p == "/" ==> r == Ok(if childAddr != 0 then Some(childAddr) else UnitAddress(nodes[p].name))
      decreases |p|
    {
      var n := nodes[p];
      var start := if childAddr != 0 then Some(childAddr) else UnitAddress(n.name);
      if start.None? then Ok(None)
      else if p == "/" then Ok(start)
      else
        ParentIn(p);
        var parent := nodes[Dirname(p)];
        var pranges := parent.Props("ranges", m);
        if |pranges| == 0 then Ok(start)
        else if |pranges[0].value| == 1 then Address(Dirname(p), start.value, m)
        else
          match Through(n, parent, pranges[0].value, start.value)
          case Err(e) => Err(e)
          case Ok(None) => Ok(start)
          case Ok(Some(x)) => Address(Dirname(p), x, m)
    }

    /** A node whose `ranges` maps its children's addresses 1:1 to its
        own: it has none, or a one-element one (`ranges;`). */
    predicate Transparent(a: string, m: Matcher)
      requires a in nodes
      reads this, nodes.Values
    {
      var pr := nodes[a].Props("ranges", m);
      |pr| == 0 || |pr[0].value| == 1
    }

    /** With no translating `ranges` on the way up, a non-zero address
        comes back unchanged. */
    lemma {:induction false} AddressUntranslated(p: string, c: int, m: Matcher)
      requires Valid() && p in nodes && c != 0
      requires forall a :: a in nodes && Under(a, p) && a != p ==> Transparent(a, m)
      ensures Address(p, c, m) == Ok(Some(c))
      decreases |p|
    {
      if p != "/" {
        ParentIn(p);
        var D := Dirname(p);
        UnderDirname(p);
        var pr := nodes[D].Props("ranges", m);
        if |pr| > 0 {
          forall a | a in nodes && Under(a, D) && a != D
            ensures Transparent(a, m)
          {
            UnderDirnameOf(a, p);
          }
          AddressUntranslated(D, c, m);
        }
      }
    }

    /** One translating level: when the first window of the parent's
        `ranges` holding c moves it to a non-zero x, and nothing above
        translates, the address is x. */
    lemma AddressTranslated(p: string, c: int, m: Matcher, ac: int, pac: int, sc: int, i: nat)
      requires Valid() && p in nodes && p != "/" && c != 0
      requires WellFormed(p) && Dirname(p) in nodes
      requires var pr := nodes[Dirname(p)].Props("ranges", m);
        |pr| > 0 && |pr[0].value| != 1
        && AddressCounts(nodes[p].Propval("#address-cells"), nodes[Dirname(p)].Propval("#address-cells"),
                         nodes[p].Propval("#size-cells")) == Ok((ac, pac, sc, false))
        && sc + ac + pac > 0
        && FirstHit(Chunks.Chunks(pr[0].value, sc + ac + pac), ac, pac, sc, c, i)
        && Moved(Chunks.Chunks(pr[0].value, sc + ac + pac)[i], ac, pac, sc, c) != 0
      requires forall a :: a in nodes && Under(a, Dirname(p)) && a != Dirname(p) ==> Transparent(a, m)
      ensures Address(p, c, m) == Ok(Some(Moved(Chunks.Chunks(nodes[Dirname(p)].Props("ranges", m)[0].value,
                                                              sc + ac + pac)[i], ac, pac, sc, c)))
    {
      var D := Dirname(p);
      var entries := Chunks.Chunks(nodes[D].Props("ranges", m)[0].value, sc + ac + pac);
      TranslateFirstHit(entries, ac, pac, sc, c, i);
      AddressUntranslated(D, Moved(entries[i], ac, pac, sc, c), m);
    }

    /** The translation step of `address` through one `ranges` value. */
    function Through(n: Node, parent: Node, values: seq<PVal>, u: int): (r: Result<Option<int>>)
      reads n, parent
    {
      match AddressCounts(n.Propval("#address-cells"), parent.Propval("#address-cells"), n.Propval("#size-cells"))
      case Err(e) => Err(e)
      case Ok((ac, pac, sc, textual)) =>
        match RangeEntries(values, sc + ac + pac)
        case Err(e) => Err(e)
        case Ok(entries) =>
          if textual && |entries| > 0 then Err(TypeError)
          else Translate(entries, ac, pac, sc, u)
    }

    /** The node objects under p. */
    function GoneUnder(p: string): (r: set<Node>)
      reads this`nodes
      ensures forall q :: q in nodes && Under(p, q) ==> nodes[q] in r
    {
      set q | q in nodes && Under(p, q) :: nodes[q]
    }

    /** The labels of the nodes under p. */
    function LabelsUnder(p: string): (r: set<string>)
      reads this`nodes, nodes.Values`labelName
      ensures forall l :: l in r <==> exists q :: q in nodes && Under(p, q) && nodes[q].labelName == l
    {
      set q | q in nodes && Under(p, q) :: nodes[q].labelName
    }

    /** Flag every node of a set as deleted (`__nstate__ = "deleted"`) and
        modified. */
    method MarkDeleted(gone: set<Node>)
      modifies gone`modified, gone`resolved
      ensures forall n :: n in gone ==> n.modified && !n.resolved
      ensures Shapes() == old(Shapes())
    {
      forall n | n in gone {
        n.resolved := false;
      }
      forall n | n in gone {
        n.modified := true;
      }
    }

    /** Drop index entries by phandle, number and label. */
    method DropIndices(phandles: set<int>, numbers: set<int>, labels: set<string>)
      modifies this`pnodes, this`nnodes, this`lnodes
      ensures pnodes == old(pnodes) - phandles && nnodes == old(nnodes) - numbers && lnodes == old(lnodes) - labels
      ensures Shapes() == old(Shapes())
    {
      pnodes, nnodes, lnodes := pnodes - phandles, nnodes - numbers, lnodes - labels;
    }

    /** The path-map part of Delete. */
    method Unlink(p: string)
      requires Valid() && p in nodes
      modifies this`nodes, nodes.Values`children
      ensures Shapes() == Deleted(old(Shapes()), p)
      ensures forall q :: q in nodes <==> q in old(nodes) && !Under(p, q)
      ensures forall q :: q in nodes ==> nodes[q] == old(nodes[q])
    {
      ghost var sh0 := Shapes();
      if p != "/" {
        var parent := nodes[Dirname(p)];
        parent.children := Without(parent.children, p);
        forall q | q in nodes && q != Dirname(p)
          ensures nodes[q].Shape() == sh0[q]
        {
          assert sh0[q].0 == q;
        }
      }
      nodes := map q | q in nodes && !Under(p, q) :: nodes[q];
    }
  }

  /** A warning run with messages already emitted in front. */
  function WarnPrefixed(emitted: seq<string>, run: (map<string, nat>, Result<seq<string>>)): (r: (map<string, nat>, Result<seq<string>>))
    ensures r.0 == run.0 && r.1.Ok? == run.1.Ok?
  {
    (run.0, if run.1.Ok? then Ok(emitted + run.1.value) else run.1)
  }

  /** A message issued now can move from the run into the prefix. */
  lemma WarnShift(emitted: seq<string>, out: string, run: (map<string, nat>, Result<seq<string>>))
    ensures WarnPrefixed(emitted, (run.0, if run.1.Ok? then Ok([out] + run.1.value) else run.1))
      == WarnPrefixed(emitted + [out], run)
  {
    if run.1.Ok? {
      assert emitted + ([out] + run.1.value) == (emitted + [out]) + run.1.value;
    }
  }
}
