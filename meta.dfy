/** The `meta` lop with `phandle-desc` of lopper/__init__.py: it rebuilds
    the installed phandle descriptor table (`Lopper.phandle_possible_prop_dict`)
    from the properties of the lop node. The table is edited in place, so
    an error part-way leaves the edits made so far installed. */
module PhandleDesc {
  import opened Common
  import opened Base

  /** A property of the meta lop node: its name and its value, read as
      the texts of a descriptor. */
  datatype MetaProp = MetaProp(name: string, value: seq<string>)

  /** `re.search('^-.*', name)`. */
  predicate IsRemoval(name: string)
  {
    |name| > 0 && name[0] == '-'
  }

  /** The properties that leave the table alone: `compatible` and the
      `lopper-comment*` notes. */
  predicate Skipped(name: string)
  {
    name == "compatible" || (name != "reset" && StartsWith(name, "lopper-comment"))
  }

  /** What one property does to the table: `reset` empties it, a
      `-name` property removes `name` (absent is fine), any other sets
      `name` to the first text of the value, which must exist
      (IndexError). */
  function Edit(t: map<string, string>, p: MetaProp): (r: Result<map<string, string>>)
    ensures Skipped(p.name) ==> r == Ok(t)
    ensures p.name == "reset" ==> r == Ok(map[])
    ensures !Skipped(p.name) && p.name != "reset" && IsRemoval(p.name) ==>
      r.Ok? && r.value.Keys == t.Keys - {p.name[1..]} && forall k :: k in r.value ==> r.value[k] == t[k]
    ensures !Skipped(p.name) && p.name != "reset" && !IsRemoval(p.name) ==>
      (r.Err? <==> |p.value| == 0) && (r.Err? ==> r.error == IndexError)
      && (r.Ok? ==>
            (r.value.Keys == t.Keys + {p.name} && r.value[p.name] == p.value[0]
             && forall k :: k in t && k != p.name ==> r.value[k] == t[k]))
  {
    if p.name == "compatible" then Ok(t)
    else if p.name == "reset" then Ok(map[])
    else if StartsWith(p.name, "lopper-comment") then Ok(t)
    else if IsRemoval(p.name) then Ok(t - {p.name[1..]})
    else if |p.value| == 0 then Err(IndexError)
    else Ok(t[p.name := p.value[0]])
  }

  /** The properties applied in order: the table after them, or the table
      as far as the edits got and the error that stopped them. */
  function Edits(t: map<string, string>, ps: seq<MetaProp>): (map<string, string>, Option<Error>)
    decreases |ps|
  {
    if |ps| == 0 then (t, None)
    else match Edit(t, ps[0])
      case Err(e) => (t, Some(e))
      case Ok(t') => Edits(t', ps[1..])
  }

  /** The table the lop starts from: the installed one, or the built-in
      one when none is installed, without its "DEFAULT" entry. */
  function Start(installed: map<string, string>): (t: map<string, string>)
    ensures "DEFAULT" !in t
    ensures forall k :: k in t ==> k in PhandlePossibleProperties(installed) && t[k] == PhandlePossibleProperties(installed)[k]
    ensures forall k :: k in PhandlePossibleProperties(installed) && k != "DEFAULT" ==> k in t
  {
    PhandlePossibleProperties(installed) - {"DEFAULT"}
  }

  /** One step of Edits. */
  lemma EditsCons(t: map<string, string>, ps: seq<MetaProp>)
    requires |ps| > 0
    ensures Edit(t, ps[0]).Err? ==> Edits(t, ps) == (t, Some(Edit(t, ps[0]).error))
    ensures Edit(t, ps[0]).Ok? ==> Edits(t, ps) == Edits(Edit(t, ps[0]).value, ps[1..])
  {
  }

  /** The lop: start from the current table and apply every property of
      the node in order. */
  method MetaPhandleDesc(installed: map<string, string>, props: seq<MetaProp>)
    returns (table: map<string, string>, err: Option<Error>)
    ensures (table, err) == Edits(Start(installed), props)
  {
    table := PhandlePossibleProperties(installed);
    table := table - {"DEFAULT"};
    ghost var goal := Edits(table, props);
    assert props[0..] == props;
    err := None;
    var i := 0;
    while i < |props|
      invariant i <= |props|
      invariant goal == Edits(table, props[i..])
      invariant err == None
    {
      EditsCons(table, props[i..]);
      assert props[i..][0] == props[i] && props[i..][1..] == props[i + 1..];
      var r := ApplyEdit(table, props[i]);
      if r.Err? {
        err := Some(r.error);
        return;
      }
      table := r.value;
      i := i + 1;
    }
  }

  /** The dictionary update of one property, in place. */
  method ApplyEdit(t: map<string, string>, p: MetaProp) returns (r: Result<map<string, string>>)
    ensures r == Edit(t, p)
  {
    r := Ok(t);
    if p.name != "compatible" {
      if p.name == "reset" {
        r := Ok(map[]);
      } else if StartsWith(p.name, "lopper-comment") {
      } else if IsRemoval(p.name) {
        r := Ok(t - {p.name[1..]});
      } else if |p.value| == 0 {
        r := Err(IndexError);
      } else {
        r := Ok(t[p.name := p.value[0]]);
      }
    }
  }

  /** Running two lists of properties is running the first, then the
      second on its table, unless the first stopped on an error. */
  lemma {:induction false} EditsAppend(t: map<string, string>, ps: seq<MetaProp>, qs: seq<MetaProp>)
    ensures Edits(t, ps).1.Some? ==> Edits(t, ps + qs) == Edits(t, ps)
    ensures Edits(t, ps).1.None? ==> Edits(t, ps + qs) == Edits(Edits(t, ps).0, qs)
    decreases |ps|
  {
    if |ps| == 0 {
      assert ps + qs == qs;
    } else {
      assert (ps + qs)[0] == ps[0] && (ps + qs)[1..] == ps[1..] + qs;
      match Edit(t, ps[0])
      case Err(_) =>
      case Ok(t') => EditsAppend(t', ps[1..], qs);
    }
  }

  /** A `reset` forgets every edit before it. */
  lemma ResetForgets(t: map<string, string>, ps: seq<MetaProp>, qs: seq<MetaProp>)
    requires Edits(t, ps).1.None?
    ensures Edits(t, ps + [MetaProp("reset", [])] + qs) == Edits(map[], qs)
  {
    var rest := [MetaProp("reset", [])] + qs;
    EditsAppend(t, ps, rest);
    assert ps + [MetaProp("reset", [])] + qs == ps + rest;
    EditsCons(Edits(t, ps).0, rest);
    assert rest[0] == MetaProp("reset", []) && rest[1..] == qs;
  }

  /** After a `reset` with nothing set again, the installed table is
      empty, so `phandle_possible_properties` hands out the built-in table
      again, its "DEFAULT" entry included. */
  lemma ResetRestoresBuiltIn(installed: map<string, string>)
    ensures Edits(Start(installed), [MetaProp("reset", [])]) == (map[], None)
    ensures PhandlePossibleProperties(map[]) == DefaultPhandleDescriptors()
    ensures "DEFAULT" in PhandlePossibleProperties(map[])
  {
    assert [MetaProp("reset", [])][1..] == [];
  }

  /** The last property decides: a set makes its name map to its text, a
      removal takes the name out, a skipped property changes nothing. */
  lemma LastEdit(t: map<string, string>, ps: seq<MetaProp>, p: MetaProp)
    requires Edits(t, ps).1.None?
    ensures var r := Edits(t, ps + [p]);
      var before := Edits(t, ps).0;
      (Skipped(p.name) ==> r == (before, None))
      && (!Skipped(p.name) && p.name != "reset" && IsRemoval(p.name) ==> r.1.None? && p.name[1..] !in r.0)
      && (!Skipped(p.name) && p.name != "reset" && !IsRemoval(p.name) && |p.value| > 0 ==>
            r.1.None? && p.name in r.0 && r.0[p.name] == p.value[0])
      && (!Skipped(p.name) && p.name != "reset" && !IsRemoval(p.name) && |p.value| == 0 ==>
            r == (before, Some(IndexError)))
  {
    EditsAppend(t, ps, [p]);
    EditsCons(Edits(t, ps).0, [p]);
    assert [p][0] == p && [p][1..] == [];
  }

  /** "DEFAULT" is in the table the lop leaves only when a property of
      the node set it. */
  lemma {:induction false} DefaultOnlyIfSet(t: map<string, string>, ps: seq<MetaProp>)
    requires "DEFAULT" !in t
    ensures "DEFAULT" in Edits(t, ps).0 ==> exists i :: 0 <= i < |ps| && ps[i].name == "DEFAULT"
    decreases |ps|
  {
    if |ps| > 0 {
      match Edit(t, ps[0])
      case Err(_) =>
      case Ok(t') =>
        if ps[0].name == "DEFAULT" {
        } else {
          DefaultOnlyIfSet(t', ps[1..]);
          if "DEFAULT" in Edits(t, ps).0 {
            var i :| 0 <= i < |ps[1..]| && ps[1..][i].name == "DEFAULT";
            assert ps[i + 1].name == "DEFAULT";
          }
        }
    }
  }
}
