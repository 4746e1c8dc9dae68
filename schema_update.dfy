/** The schema update helpers at the end of lopper/schema.py:
    `update_schema` dispatching to the property and node-pattern updates of
    a schema dictionary that is changed in place. */
module SchemaUpdate {
  import opened Common

  /** A schema definition; how it is built from a LopperFmt or a type
      string is not modelled. */
  datatype Def = Def(kind: string)

  /** The context argument: its 'compatible', 'path' and 'pattern' keys. */
  datatype Context = Context(compatible: Option<string>, path: Option<string>, pattern: Option<string>)

  datatype PatternEntry = PatternEntry(regex: string, schema: Def, context: Context)

  /** The sections of the schema dictionary the updates touch; a section
      that is not there yet is an empty map. */
  datatype SchemaState = SchemaState(
    propertyDefinitions: map<string, Def>,
    propertyPatterns: map<string, PatternEntry>,
    pathOverrides: map<string, map<string, Def>>,
    compatibleMappings: map<string, map<string, Def>>,
    nodePatterns: map<string, map<string, Def>>)

  /** A name holding a regular expression metacharacter is a pattern. */
  predicate IsNamePattern(name: string)
  {
    exists i :: 0 <= i < |name| && name[i] in ".*+?[]{}()^$\\|"
  }

  /** The key of a property pattern: the name, tagged with the first of
      the context's compatible, path and node pattern that is given. */
  function PatternKey(name: string, ctx: Context): string
  {
    if ctx.compatible.Some? then name + "|compatible:" + ctx.compatible.value
    else if ctx.path.Some? then name + "|path:" + ctx.path.value
    else if ctx.pattern.Some? then name + "|node:" + ctx.pattern.value
    else name
  }

  /** `table[key]['properties'][prop] = def`, creating the entry. */
  function AddTo(table: map<string, map<string, Def>>, key: string, prop: string, def: Def): (r: map<string, map<string, Def>>)
    ensures key in r && prop in r[key] && r[key][prop] == def
  {
    table[key := (if key in table then table[key] else map[])[prop := def]]
  }

  /** `_update_property`. */
  function UpdatedProperty(s: SchemaState, name: string, def: Def, ctx: Context): SchemaState
  {
    if IsNamePattern(name) then
      s.(propertyPatterns := s.propertyPatterns[PatternKey(name, ctx) := PatternEntry(name, def, ctx)])
    else
      InContext(s.(propertyDefinitions := s.propertyDefinitions[name := def]), name, def, ctx)
  }

  /** The context-specific copy of a plain property's definition: under
      the path override, else the compatible mapping, else the node
      pattern, as the context gives them. */
  function InContext(s: SchemaState, name: string, def: Def, ctx: Context): (r: SchemaState)
    ensures r.propertyDefinitions == s.propertyDefinitions && r.propertyPatterns == s.propertyPatterns
  {
    if ctx.path.Some? then s.(pathOverrides := AddTo(s.pathOverrides, ctx.path.value, name, def))
    else if ctx.compatible.Some? then s.(compatibleMappings := AddTo(s.compatibleMappings, ctx.compatible.value, name, def))
    else if ctx.pattern.Some? then s.(nodePatterns := AddTo(s.nodePatterns, ctx.pattern.value, name, def))
    else s
  }

  /** One (name, definition) pair of `_update_node_pattern`'s loop. */
  function UpdatedNodeProperty(s: SchemaState, pattern: string, prop: (string, Def)): SchemaState
  {
    if IsNamePattern(prop.0) then
      s.(propertyPatterns := s.propertyPatterns[NodeKey(prop.0, pattern) := NodeEntry(prop, pattern)])
    else
      s.(nodePatterns := AddTo(s.nodePatterns, pattern, prop.0, prop.1),
         propertyDefinitions :=
           if prop.0 in s.propertyDefinitions then s.propertyDefinitions
           else s.propertyDefinitions[prop.0 := prop.1])
  }

  function WithNode(s: SchemaState, pattern: string): SchemaState
  {
    if pattern in s.nodePatterns then s else s.(nodePatterns := s.nodePatterns[pattern := map[]])
  }

  function NodeProps(s: SchemaState, pattern: string, props: seq<(string, Def)>): SchemaState
  {
    if |props| == 0 then s
    else UpdatedNodeProperty(NodeProps(s, pattern, props[..|props| - 1]), pattern, props[|props| - 1])
  }

  /** `_update_node_pattern`; the properties are the dictionary's items in
      order (no properties and None alike give the empty sequence). */
  function UpdatedNode(s: SchemaState, pattern: string, props: seq<(string, Def)>): SchemaState
  {
    NodeProps(WithNode(s, pattern), pattern, props)
  }

  /** The schema dictionary that `update_schema` changes in place. */
  class SchemaDict {
    var propertyDefinitions: map<string, Def>
    var propertyPatterns: map<string, PatternEntry>
    var pathOverrides: map<string, map<string, Def>>
    var compatibleMappings: map<string, map<string, Def>>
    var nodePatterns: map<string, map<string, Def>>

    function State(): SchemaState
      reads this
    {
      SchemaState(propertyDefinitions, propertyPatterns, pathOverrides, compatibleMappings, nodePatterns)
    }

    constructor ()
      ensures State() == SchemaState(map[], map[], map[], map[], map[])
    {
      propertyDefinitions := map[];
      propertyPatterns := map[];
      pathOverrides := map[];
      compatibleMappings := map[];
      nodePatterns := map[];
    }

    /** `update_schema`: 'property' and 'node' updates, ValueError for any
        other schema type. The type (for a property) and the property
        dictionary (for a node) share one Python argument; here they are
        two. */
    method UpdateSchema(name: string, schemaType: string, def: Def, props: seq<(string, Def)>, ctx: Context)
      returns (err: Option<Error>)
      modifies this
      ensures schemaType == "property" ==> err == None && State() == UpdatedProperty(old(State()), name, def, ctx)
      ensures schemaType == "node" ==> err == None && State() == UpdatedNode(old(State()), name, props)
      ensures schemaType != "property" && schemaType != "node" ==> err == Some(ValueError) && State() == old(State())
    {
      if schemaType == "property" {
        UpdateProperty(name, def, ctx);
        err := None;
      } else if schemaType == "node" {
        UpdateNodePattern(name, props);
        err := None;
      } else {
        err := Some(ValueError);
      }
    }

    method UpdateProperty(name: string, def: Def, ctx: Context)
      modifies this
      ensures State() == UpdatedProperty(old(State()), name, def, ctx)
    {
      if IsNamePattern(name) {
        propertyPatterns := propertyPatterns[PatternKey(name, ctx) := PatternEntry(name, def, ctx)];
      } else {
        propertyDefinitions := propertyDefinitions[name := def];
        if ctx.path.Some? {
          pathOverrides := AddTo(pathOverrides, ctx.path.value, name, def);
        } else if ctx.compatible.Some? {
          compatibleMappings := AddTo(compatibleMappings, ctx.compatible.value, name, def);
        } else if ctx.pattern.Some? {
          nodePatterns := AddTo(nodePatterns, ctx.pattern.value, name, def);
        }
      }
    }

    method UpdateNodePattern(pattern: string, props: seq<(string, Def)>)
      modifies this
      ensures State() == UpdatedNode(old(State()), pattern, props)
    {
      if pattern !in nodePatterns {
        nodePatterns := nodePatterns[pattern := map[]];
      }
      ghost var start := State();
      for i := 0 to |props|
        invariant State() == NodeProps(start, pattern, props[..i])
      {
        var (prop, d) := props[i];
        assert props[..i + 1][..i] == props[..i];
        if IsNamePattern(prop) {
          propertyPatterns := propertyPatterns[NodeKey(prop, pattern) := NodeEntry((prop, d), pattern)];
        } else {
          nodePatterns := AddTo(nodePatterns, pattern, prop, d);
          if prop !in propertyDefinitions {
            propertyDefinitions := propertyDefinitions[prop := d];
          }
        }
      }
      assert props[..|props|] == props;
    }
  }

  // ------------------------------------------------------------ properties

  /** A plain property name sets its global definition, leaves the
      patterns alone and, under a path context, the path override. */
  lemma PlainPropertyUpdate(s: SchemaState, name: string, def: Def, ctx: Context)
    requires !IsNamePattern(name)
    ensures var r := UpdatedProperty(s, name, def, ctx);
      && r.propertyDefinitions == s.propertyDefinitions[name := def]
      && r.propertyPatterns == s.propertyPatterns
      && (ctx.path.Some? ==> r.pathOverrides[ctx.path.value][name] == def
                             && r.compatibleMappings == s.compatibleMappings && r.nodePatterns == s.nodePatterns)
      && (ctx.path.None? && ctx.compatible.Some? ==> r.compatibleMappings[ctx.compatible.value][name] == def)
  {
  }

  /** A pattern name only adds its pattern entry, under the key its
      context gives. */
  lemma PatternPropertyUpdate(s: SchemaState, name: string, def: Def, ctx: Context)
    requires IsNamePattern(name)
    ensures var r := UpdatedProperty(s, name, def, ctx);
      && r.propertyPatterns[PatternKey(name, ctx)] == PatternEntry(name, def, ctx)
      && r.propertyDefinitions == s.propertyDefinitions
      && r.pathOverrides == s.pathOverrides
      && r.compatibleMappings == s.compatibleMappings
      && r.nodePatterns == s.nodePatterns
  {
  }

  /** Updating a property twice is the same as once. */
  lemma PropertyUpdateIdempotent(s: SchemaState, name: string, def: Def, ctx: Context)
    ensures UpdatedProperty(UpdatedProperty(s, name, def, ctx), name, def, ctx) == UpdatedProperty(s, name, def, ctx)
  {
    if !IsNamePattern(name) {
      var r := UpdatedProperty(s, name, def, ctx);
      var s1 := s.(propertyDefinitions := s.propertyDefinitions[name := def]);
      assert r == InContext(s1, name, def, ctx);
      assert r.propertyDefinitions[name := def] == r.propertyDefinitions;
      assert r.(propertyDefinitions := r.propertyDefinitions[name := def]) == r;
      InContextTwice(s1, name, def, ctx);
    }
  }

  lemma InContextTwice(s: SchemaState, name: string, def: Def, ctx: Context)
    ensures InContext(InContext(s, name, def, ctx), name, def, ctx) == InContext(s, name, def, ctx)
  {
    if ctx.path.Some? {
      AddTwice(s.pathOverrides, ctx.path.value, name, def);
    } else if ctx.compatible.Some? {
      AddTwice(s.compatibleMappings, ctx.compatible.value, name, def);
    } else if ctx.pattern.Some? {
      AddTwice(s.nodePatterns, ctx.pattern.value, name, def);
    }
  }

  lemma AddTwice(table: map<string, map<string, Def>>, key: string, prop: string, def: Def)
    ensures AddTo(AddTo(table, key, prop, def), key, prop, def) == AddTo(table, key, prop, def)
  {
    var t := AddTo(table, key, prop, def);
    assert t[key][prop := def] == t[key];
  }

  /** Names whose pattern keys for one node pattern are equal are equal. */
  lemma NodeKeyInjective(a: string, b: string, pattern: string)
    requires NodeKey(a, pattern) == NodeKey(b, pattern)
    ensures a == b
  {
    var x := NodeKey(a, pattern);
    assert |a| == |b|;
    assert a == x[..|a|] == b;
  }

  /** Property names of a node pattern update are pairwise distinct, as the
      keys of a dictionary are. */
  predicate DistinctNames(props: seq<(string, Def)>)
  {
    forall i, j :: 0 <= i < j < |props| ==> props[i].0 != props[j].0
  }

  function NodeKey(name: string, pattern: string): string
  {
    name + "|node:" + pattern
  }

  function NodeEntry(prop: (string, Def), pattern: string): PatternEntry
  {
    PatternEntry(prop.0, prop.1, Context(None, None, Some(pattern)))
  }

  /** What one property of a node pattern update leaves alone: the global
      definitions already there, the other node patterns, the node
      pattern's other properties and the other pattern entries. */
  lemma StepKeeps(s: SchemaState, pattern: string, prop: (string, Def))
    requires pattern in s.nodePatterns
    ensures var r := UpdatedNodeProperty(s, pattern, prop);
      && pattern in r.nodePatterns
      && (forall p :: p in s.propertyDefinitions ==> p in r.propertyDefinitions && r.propertyDefinitions[p] == s.propertyDefinitions[p])
      && (forall q :: q in s.nodePatterns && q != pattern ==> q in r.nodePatterns && r.nodePatterns[q] == s.nodePatterns[q])
      && (forall p :: p in s.nodePatterns[pattern] && p != prop.0 ==> p in r.nodePatterns[pattern] && r.nodePatterns[pattern][p] == s.nodePatterns[pattern][p])
      && (forall k :: k in s.propertyPatterns && k != NodeKey(prop.0, pattern) ==> k in r.propertyPatterns && r.propertyPatterns[k] == s.propertyPatterns[k])
  {
    if !IsNamePattern(prop.0) {
      var r := UpdatedNodeProperty(s, pattern, prop);
      assert r.nodePatterns == AddTo(s.nodePatterns, pattern, prop.0, prop.1);
      assert r.propertyPatterns == s.propertyPatterns;
    }
  }

  /** What one property of a node pattern update sets. */
  lemma StepSets(s: SchemaState, pattern: string, prop: (string, Def))
    ensures var r := UpdatedNodeProperty(s, pattern, prop);
      && (!IsNamePattern(prop.0) ==> pattern in r.nodePatterns && prop.0 in r.nodePatterns[pattern]
                                     && r.nodePatterns[pattern][prop.0] == prop.1 && prop.0 in r.propertyDefinitions)
      && (IsNamePattern(prop.0) ==> NodeKey(prop.0, pattern) in r.propertyPatterns
                                    && r.propertyPatterns[NodeKey(prop.0, pattern)] == NodeEntry(prop, pattern))
  {
  }

  /** After the properties of a node pattern update, the node pattern is
      there, the global definitions already there are unchanged and so are
      the other node patterns. */
  lemma {:induction false} NodePropsKeep(s: SchemaState, pattern: string, props: seq<(string, Def)>)
    requires pattern in s.nodePatterns
    ensures var r := NodeProps(s, pattern, props);
      && pattern in r.nodePatterns
      && (forall p :: p in s.propertyDefinitions ==> p in r.propertyDefinitions && r.propertyDefinitions[p] == s.propertyDefinitions[p])
      && (forall q :: q in s.nodePatterns && q != pattern ==> q in r.nodePatterns && r.nodePatterns[q] == s.nodePatterns[q])
    decreases |props|
  {
    if |props| > 0 {
      var init := props[..|props| - 1];
      NodePropsKeep(s, pattern, init);
      StepKeeps(NodeProps(s, pattern, init), pattern, props[|props| - 1]);
    }
  }

  /** After the properties of a node pattern update, each plain property
      is in the node pattern with its definition and has a global
      definition, and each pattern property has its entry. */
  lemma {:induction false} NodePropsSet(s: SchemaState, pattern: string, props: seq<(string, Def)>)
    requires pattern in s.nodePatterns
    requires DistinctNames(props)
    ensures var r := NodeProps(s, pattern, props);
      && pattern in r.nodePatterns
      && (forall i :: 0 <= i < |props| && !IsNamePattern(props[i].0) ==>
            props[i].0 in r.nodePatterns[pattern] && r.nodePatterns[pattern][props[i].0] == props[i].1
            && props[i].0 in r.propertyDefinitions)
      && (forall i :: 0 <= i < |props| && IsNamePattern(props[i].0) ==>
            NodeKey(props[i].0, pattern) in r.propertyPatterns
            && r.propertyPatterns[NodeKey(props[i].0, pattern)] == NodeEntry(props[i], pattern))
    decreases |props|
  {
    if |props| > 0 {
      var n := |props| - 1;
      var init := props[..n];
      assert DistinctNames(init);
      NodePropsSet(s, pattern, init);
      var prev := NodeProps(s, pattern, init);
      var r := NodeProps(s, pattern, props);
      StepKeeps(prev, pattern, props[n]);
      StepSets(prev, pattern, props[n]);
      forall i | 0 <= i < n
        ensures !IsNamePattern(props[i].0) ==> (props[i].0 in r.nodePatterns[pattern]
                  && r.nodePatterns[pattern][props[i].0] == props[i].1 && props[i].0 in r.propertyDefinitions)
        ensures IsNamePattern(props[i].0) ==> (NodeKey(props[i].0, pattern) in r.propertyPatterns
                  && r.propertyPatterns[NodeKey(props[i].0, pattern)] == NodeEntry(props[i], pattern))
      {
        assert init[i] == props[i];
        assert props[i].0 != props[n].0;
        if NodeKey(props[n].0, pattern) == NodeKey(props[i].0, pattern) {
          NodeKeyInjective(props[n].0, props[i].0, pattern);
        }
      }
    }
  }

  /** `_update_node_pattern` in full, from any schema state: the node
      pattern is there with its earlier properties, each plain property of
      the update is in it with its definition, and the global definitions
      already there are never replaced. */
  lemma NodeUpdateResult(s: SchemaState, pattern: string, props: seq<(string, Def)>)
    requires DistinctNames(props)
    ensures var r := UpdatedNode(s, pattern, props);
      && pattern in r.nodePatterns
      && (forall p :: p in s.propertyDefinitions ==> p in r.propertyDefinitions && r.propertyDefinitions[p] == s.propertyDefinitions[p])
      && (forall q :: q in s.nodePatterns && q != pattern ==> q in r.nodePatterns && r.nodePatterns[q] == s.nodePatterns[q])
      && (forall i :: 0 <= i < |props| && !IsNamePattern(props[i].0) ==>
            props[i].0 in r.nodePatterns[pattern] && r.nodePatterns[pattern][props[i].0] == props[i].1)
      && (forall i :: 0 <= i < |props| && IsNamePattern(props[i].0) ==>
            NodeKey(props[i].0, pattern) in r.propertyPatterns
            && r.propertyPatterns[NodeKey(props[i].0, pattern)] == NodeEntry(props[i], pattern))
  {
    var w := WithNode(s, pattern);
    NodePropsKeep(w, pattern, props);
    NodePropsSet(w, pattern, props);
  }
}
