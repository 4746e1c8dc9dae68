# lopper, modelled in Dafny

lopper is a devicetree manipulation tool. It loads a system devicetree into an in-memory tree. It then runs "lops": small operations written as devicetree nodes that select, modify and annotate nodes. Python "assists" then compute hardware settings from the tree. This project models the core of that engine and the cell and bit arithmetic the assists rely on. It proves what each part promises.

The model follows the source file by file, one Dafny module per file:

- **Tree** (`LopperTree`, `Paths`, `Ranges`, `PhandleMaps`, `Chunks`), from lopper/tree.py:
  - nodes as a class with properties, reference counts and the state and modified flags that every attribute write updates;
  - the tree as a class holding the path, phandle, label and number indices, kept consistent by adding, merging and deleting nodes;
  - phandle allocation, subnode walks, labels and `warn`;
  - the phandle field-descriptor walk of `phandle_map`;
  - address translation through parent `ranges`, as in section 2.3.8 of the Devicetree Specification.
  - `chunks` appears word for word in lopper/tree.py, lopper/assists/lopper_lib.py and lopper/assists/xlnx/protections.py. It is modelled once, as `Chunks.Chunks`.
- **Lop engine** (`Lops`, `Modify`, `PhandleDesc`, `RunQueue`), from lopper/__init__.py:
  - the clause algebra of `select`, with its three lists as objects, so that names bound to one list see each other's changes;
  - the `modify` expression and its property edits;
  - the `meta` phandle-desc table edits;
  - `conditional` matching;
  - the priority run queue of `perform_lops`, gated by `noexec` and `cond`.
- **Codec helpers** (`Base`), from lopper/base.py: type guessing, the string test, byte encodings, literal parsing and compound decoding.
- **Audits** (`Audit`), from lopper/audit.py: multi-cell values, dangling phandles, and reserved memory inside domain memory.
- **Assist helpers** (`LopperLib`, `Bits`), from lopper/assists/lopper_lib.py.
- **Xilinx assists**:
  - XPPU (`Xppu`) and XMPU (`Xmpu`) register words;
  - firewall protections (`XlnxProtections`);
  - subsystem requirement flags (`XlnxSubsystem`);
  - domain memory cells (`DomainAccess`);
  - baremetal `reg`, `ranges` and interrupt decoding (`Baremetal`);
  - YAML domain expansion (`YamlExpansion`);
  - power-management flag decoders (`XlnxPower`).
- **Schema inference** (`Schema`, `SchemaUpdate`), from lopper/schema.py.

`Common` holds the shared vocabulary. Python exceptions become `Err` values naming the exception, so every error path of the source is a result the contracts talk about. Python integers are unbounded, like Dafny's. Devicetree cells are kept below 2^32 by a subset type.

Four things the source computes outside these files become parameters:
- regular-expression matching (`re.search`, `re.match`, `fnmatch`) is a function `(pattern, text) -> bool`;
- the eval-based `LopperProp.compare` is a parameter of the select clauses;
- the tree lookups a lop makes are passed in as functions;
- the boolean result of running a lop is given to the run queue.

Where the source works by updating state, the model keeps that form: classes with `modifies` frames, and loops with invariants proved against specification functions.

## Model

| member | source | states |
|---|---|---|
| Chunks.ChunksLaws | lopper/tree.py:45-49 | `chunks(l, n)` loses nothing: the slices concatenate back to the list, every slice but the last holds exactly n items, and none is empty or longer than n |
| Chunks.SliceRunLaws | lopper/tree.py:66-74 | the slices that `chunks_variable` yields have the requested sizes and concatenate back to the rest of the list |
| Chunks.ChunksVariableLaws | lopper/tree.py:51-74 | `chunks_variable` raises ValueError exactly when the sizes do not add up to the list length; otherwise it gives one slice per size, of that size, and the slices rebuild the list |
| Chunks.Check32BitMeaning | lopper/tree.py:42-43 | `check_32_bit(n)` holds exactly for the values below 2^32 among the 64-bit values, and rejects the negative values down to -2^64 + 2^32 |
| Bits.SetBit | lopper/assists/lopper_lib.py:43-44 | `set_bit` sets the named bit and keeps every other bit |
| Bits.ClearBit | lopper/assists/lopper_lib.py:46-47 | `clear_bit` clears the named bit and keeps every other bit |
| Bits.CheckBitSetMeans | lopper/assists/lopper_lib.py:37-41 | `check_bit_set(n, k)` is true exactly when bit k of n is 1 |
| Bits.SetThenCheck | lopper/assists/lopper_lib.py:37-44 | a bit just set tests as set |
| Bits.ClearThenCheck | lopper/assists/lopper_lib.py:37-47 | a bit just cleared tests as clear |
| Bits.SetClearInverse | lopper/assists/lopper_lib.py:43-47 | clearing a bit that was clear before it was set gives the value back, and setting a bit that was set before it was cleared gives it back |
| Paths.Dirname | lopper/tree.py:4143-4146 | the parent path of a node is a well-formed path, shorter than the node's own unless it is the root |
| Paths.Basename | lopper/tree.py:4143 | a node's name taken from its path holds no '/' |
| Paths.DirnameBasename | lopper/tree.py:4143-4146 | a non-root path is its parent's path joined with its non-empty last component, so splitting a path and joining it back gives it again |
| Paths.SiblingsDisjoint | lopper/tree.py:4265-4302 | the subtrees of two different children of one node share no path |
| Base.PropertyTypeGuess | lopper/base.py:283-345 | `property_type_guess`: EMPTY exactly for no bytes, STRING exactly when the bytes pass the string test, UINT32 exactly for a non-empty multiple of four bytes that is not a string, UINT8 otherwise |
| Base.StringTest | lopper/base.py:511-559 | the byte walk of `string_test` returns the string predicate of the bytes, and a passing property ends with a NUL byte |
| Base.Utf8RoundTrip | lopper/base.py:237 | decoding as UTF-8 what `str.encode()` produced gives the string back |
| Base.EncodeByteArray | lopper/base.py:475-488 | `encode_byte_array` gives four big-endian bytes per value, and OverflowError exactly when some value does not fit in 32 unsigned bits |
| Base.EncodeByteArrayFromStrings | lopper/base.py:491-508 | `encode_byte_array_from_strings`: IndexError exactly for an empty list, a single string encoded without a terminator, several strings each NUL terminated |
| Base.PropertyValueDecode | lopper/base.py:222-280 | the compound decimal decode: the guessed format picks strings, bytes or big-endian words, and the number loop steps one byte or one word; the method returns the decoded value of the bytes |
| Base.CellsRoundTrip | lopper/base.py:222-280 | cells written by `encode_byte_array` decode back to the same numbers when the first cell leaves the first byte zero |
| Base.StringsRoundTrip | lopper/base.py:491-508 | two or more plain strings written by `encode_byte_array_from_strings` are guessed STRING and decode back to the same list |
| Base.SingleStringNotTerminated | lopper/base.py:501-506 | a single string is written without a NUL terminator, so it is never guessed to be a string when read back |
| Base.PropertyConvert | lopper/base.py:349-413 | `property_convert`: a `<...>` literal becomes its list of numbers, two or more quoted strings that list of strings, anything else one number or the text itself; the method returns the value of the conversion function |
| Base.ConvertCells | lopper/base.py:372-386 | the number loop of `property_convert` gives the parsed numbers, read as Python's `int` reads them (sign, white space, a 0x prefix for base 16, single underscores between digits), and SystemExit when a token is not a number |
| Base.GroupedPlain | lopper/base.py:379-381 | digits of the base without underscores are read as their plain value |
| Base.UnderscoreExamples | lopper/base.py:379-384 | an underscore between digits is skipped, so `1_0` reads as 10, while a leading, trailing or doubled underscore makes the token no number |
| Base.UnderscoreToken | lopper/base.py:376-381 | the token `1_0` reads as the number 10 in the base `property_convert` picks for it |
| Base.UnderscoreConvert | lopper/base.py:399-411 | the bare text `1_0` converts to the number 10, not to the text itself |
| Base.UnderscoreCells | lopper/base.py:372-386 | the cell literal `<1_0>` converts to the one number 10 |
| Base.UnderscoreCellTokens | lopper/base.py:372-386 | the single cell of `<1_0>` reads as 10 |
| Base.ConvertStrings | lopper/base.py:390-398 | the string loop of `property_convert` gives the strings it found, in order |
| Base.CellLiteralRoundTrip | lopper/base.py:349-413 | a cell literal `<n1 n2 ...>` written in decimal converts back to the same numbers |
| Base.QuotedListRoundTrip | lopper/base.py:349-413 | two or more quoted strings separated by commas convert back to those strings |
| Base.PhandleSafeNameShape | lopper/base.py:458-471 | the safe name holds neither '@' nor '-', keeps every other character in order, and is one character shorter per '@' dropped |
| Base.PhandleSafeNameIdempotent | lopper/base.py:458-471 | making a name safe twice changes nothing more, and a name that is already safe is kept |
| Base.PhandlePossibleProperties | lopper/base.py:416-455 | the table a lop file installed, or else the built-in table, which describes `clocks`, `interrupt-parent` and a DEFAULT entry |
| Ranges.CellsValueOk | lopper/tree.py:3105-3115 | the cells of a `ranges` field are read without error exactly when every one is an integer that fits in 32 unsigned bits |
| Ranges.CellsValueBound | lopper/tree.py:3105-3115 | a field read from k cells is below 2^(32 k) |
| Ranges.CellsValueAppend | lopper/tree.py:3105-3115 | the first cell is the most significant: one more cell shifts the number up by 32 bits and adds the cell |
| Ranges.CellsValuePair | lopper/tree.py:3105-3115 | two cells give (hi << 32) \| lo |
| Ranges.CellCount | lopper/tree.py:3072-3082 | the cell counts of `address`: an empty value is an error, a zero, empty or missing count falls back to the default, a number is taken as it is and a text is parsed, an unparsable text being the error |
| Ranges.TranslateCons | lopper/tree.py:3102-3126 | one step of the window walk: an entry holding the address moves it, an entry that does not hold it passes to the next |
| Ranges.TranslateNone | lopper/tree.py:3102-3126 | the walk finds no window exactly when every entry misses the address |
| Ranges.TranslateFirstHit | lopper/tree.py:3121-3124 | when entry i is the first whose window [child, child + size] holds the address, the walk moves it through entry i |
| Ranges.TranslateFound | lopper/tree.py:3121-3124 | whatever the walk yields comes from the first entry that holds the address |
| Ranges.MissesCons | lopper/tree.py:3102-3126 | missing every entry is missing the first and missing the rest |
| Ranges.RangeEntries | lopper/tree.py:3099-3100 | the entries of the walk are `chunks(values, sc + ac + pac)`; a zero step is the ValueError of `range` and a negative one yields nothing |
| PhandleMaps.PhandleMapOf | lopper/tree.py:529-835 | `phandle_map()` with invalid phandles tagged: a property without descriptor, a json property, an empty value and a lop node's property give the empty map; the record walk stops at a record that does not move forward (listed under Left out) |
| PhandleMaps.PhandleMap | lopper/tree.py:590-835 | the descriptor loop over records, then the records cut out and their phandle cells looked up, as a method that returns the map the specification gives (with the same stop at a record that does not move forward) |
| PhandleWalks.RecordsMatchAsWritten | lopper/tree.py:753-760 | when every record followed by another cell moves the index forward, the record loop as written ends within one pass per remaining cell plus one, with the same record sizes, last size and phandle positions as the model's walk |
| PhandleMaps.AssembleEntries | lopper/tree.py:803-823 | the last loop of `phandle_map`: one list per record, each cell 0 unless its running position is a phandle position, returns the assembled records |
| PhandleMaps.AssembleFlat | lopper/tree.py:803-823 | read across records, the entries are the cells marked one by one: no cell is lost, added or moved |
| PhandleMaps.PhandleMapCells | lopper/tree.py:753-823 | when the record loop ends with a non-empty last record and the record sizes are not negative, the map has one entry per cell, one list per record of that record's size |
| PhandleMaps.CountField | lopper/tree.py:617-628 | a `#x` field takes its count from the node's property x; with no node or property it counts 1, and a strict tree gives the empty map instead |
| PhandleMaps.StuckPass | lopper/tree.py:615-760 | on the property <7> with descriptor `#c` and `#c = <0>`, one pass over the fields consumes no cell |
| PhandleMaps.StuckAsWritten | lopper/tree.py:615-760 | as written, the record loop on that property never ends: for every bound on the number of passes, the walk has not finished |
| PhandleMaps.StuckRecords | lopper/tree.py:753-760 | with the loop stopping at a record that consumes no cell, the walk ends after one empty record |
| PhandleMaps.StuckCorrected | lopper/tree.py:763-764 | with that stop, the stuck property gives the empty map |
| PhandleMaps.PhandleParams | lopper/tree.py:837-873 | `phandle_params()`: the 1-based position, counted across records, of the first entry that names a node (or is "#invalid"), and the size of its record; (0, 0) when there is none; errors of the map pass through |
| LopperTree.AssignValue | lopper/tree.py:341-356 | the `value` setter stores the new list and marks the property modified exactly when it was already modified or the multiset of values changed |
| LopperTree.AssignPermutationKeepsFlag | lopper/tree.py:352-354 | assigning a reordering of the current values does not mark an unmodified property modified |
| LopperTree.PropIndex | lopper/tree.py:2639-2684 | the position of the property called name is the first one holding that name, and None exactly when no property has it |
| LopperTree.Put | lopper/tree.py:2639-2684 | storing a property: it takes the place of the property of that name, or is appended when there is none, and reads back at its position |
| LopperTree.PutIdempotent | lopper/tree.py:2639-2684 | storing the same property twice is storing it once |
| LopperTree.PutOthers | lopper/tree.py:2639-2684 | storing a property leaves the position of every other name as it was |
| LopperTree.MatchingProps | lopper/tree.py:2508-2532 | the properties whose names the pattern matches: only properties of the node, and all that match |
| LopperTree.ReorderedLaws | lopper/tree.py:3139-3174 | `reorder_child`: KeyError exactly when either path is not a child, StopIteration when the two are the same child; otherwise the same children, with the moved one next to the target, before or after it, and the others in their old order |
| LopperTree.SplicedLaws | lopper/tree.py:3139-3174 | the reordered list is a permutation of the children without repeats, the others keep their order, and the moved child sits right before or after the target |
| LopperTree.Node.constructor | lopper/tree.py:1474-1517 | a new node takes the given path, else "/" and its name, else the empty path, with no properties, no children, a zero refcount, unresolved; the closing `__modified__ = False` goes through `__setattr__`, so the node starts modified |
| LopperTree.Node.MarkResolvedAsWritten | lopper/tree.py:2931-2932 | as written, the closing writes of `load` and `resolve` leave the node resolved and still modified, because `__setattr__` sets the flag after storing False |
| LopperTree.Node.MarkResolved | lopper/tree.py:2996-2997 | the same writes with the evident meaning: the node is resolved and not modified |
| LopperTree.Node.SetAdded | lopper/tree.py:4139-4175 | the node-side writes of `add`: number, name and phandle take the given values, the `phandle` property follows the phandle, and the node is resolved and modified |
| LopperTree.Node.LoadExport | lopper/tree.py:2708-2932 | `load(export, update_props=True)`: an empty export changes nothing but the modified flag; otherwise name and phandle are taken, the properties merge with the `phandle` property following the phandle, and the node is resolved |
| LopperTree.Node.SetRef | lopper/tree.py:1946-1958 | the `ref` setter: a positive value adds to the refcount, anything else clears it, and the node is marked modified |
| LopperTree.Node.Props | lopper/tree.py:2508-2532 | `props(name)`: the property of that exact name, or else every property whose name the pattern matches |
| LopperTree.Node.Propval | lopper/tree.py:2533-2566 | `propval(name)`: the value of the named property, or [""] when there is none |
| LopperTree.Node.AddProp | lopper/tree.py:2639-2684 | `add(prop)`: the property list becomes Put of the old one, the value reads back, and the node is marked modified |
| LopperTree.Node.SetItem | lopper/tree.py:1895-1931 | `node[key] = values` stores a new property as `add` does, and the value reads back |
| LopperTree.Node.DeleteProp | lopper/tree.py:2464-2506 | `delete(prop_name)`: KeyError exactly when there is no such property, leaving the node alone; otherwise only that property is removed and the node is marked modified |
| LopperTree.Node.ReorderChild | lopper/tree.py:3139-3174 | the method applies the reordering function to the child list, and on an error the children are unchanged |
| LopperTree.Walk | lopper/tree.py:4285-4287 | the preorder walk starts at the node and stays inside the tree |
| LopperTree.WalkIsSubtree | lopper/tree.py:4285-4287 | the walk from p visits exactly the nodes whose paths lie under p |
| LopperTree.WalkClosed | lopper/tree.py:4285-4287 | the walk below any node the walk reaches stays inside the walk |
| LopperTree.NodeSubnodes | lopper/tree.py:2111-2136 | `LopperNode.subnodes(depth, max_depth, children_only)` returns nodes of the tree |
| LopperTree.NodeSubnodesUnlimited | lopper/tree.py:2129-2134 | a depth limit that can no longer be reached changes nothing: the node walk is the tree walk |
| LopperTree.NodeSubnodesDepthZero | lopper/tree.py:2129-2134 | from depth 0 with no limit, or with `max_depth=0`, which is never tested at depth 0, the node walk is the whole preorder walk |
| LopperTree.ChildrenOnly | lopper/tree.py:2124-2134 | `subnodes(max_depth=1, children_only=True)` is the child list |
| LopperTree.FilterPaths | lopper/tree.py:4289-4295 | the regex filter of `subnodes` keeps exactly the paths the pattern matches |
| LopperTree.FreshLabel | lopper/tree.py:2004-2026 | the label `label_set` settles on is free, and starts with the requested label |
| LopperTree.WarnRun | lopper/tree.py:3534-3578 | `warn`: a message goes out only the first time it is counted, no message goes out twice, every message is counted, and SystemExit comes only with werror |
| LopperTree.Attached | lopper/tree.py:4136-4187 | linking in a new node adds its path to the tree |
| LopperTree.AttachConsistent | lopper/tree.py:4136-4187 | linking in a new leaf whose phandle is not in use keeps the tree shape and the phandle and number indices consistent |
| LopperTree.LinkConsistent | lopper/tree.py:4167-4187 | appending the node to its parent's children and adding it as a leaf keeps the tree consistent |
| LopperTree.AttachKeepsIndexed | lopper/tree.py:4175-4187 | linking in a node changes the number and phandle of no other node |
| LopperTree.Deleted | lopper/tree.py:3924-3999 | removing the subtree at p leaves exactly the paths not under p |
| LopperTree.DeleteConsistent | lopper/tree.py:3924-3999 | removing a subtree with the index entries of its phandles and numbers keeps the tree shape and the indices consistent |
| LopperTree.MergeLaws | lopper/tree.py:2686-2706 | after `merge`, each of the other node's properties reads back with its new value, every property the other node lacks is still there, and names stay distinct |
| LopperTree.UnitAddress | lopper/tree.py:3036-3043 | a name without '@' has no unit address |
| LopperTree.AddressCounts | lopper/tree.py:3072-3099 | the three cell counts of `address`: every `propval(...)[0]` is read before any `int()`, so an empty value gives IndexError before a text that does not parse |
| LopperTree.NamedPrefixIsPath | lopper/tree.py:1960-1987 | when every node is named after the last component of its path, `path()` gives the node's own path |
| LopperTree.Tree.constructor | lopper/tree.py:3228-3288 | a new tree holds only the root "/", number 0 and no phandle, with empty phandle and label indices; the root is resolved and modified, as loading it leaves it |
| LopperTree.Tree.Subnodes | lopper/tree.py:4265-4302 | `subnodes(start, regex)`: the preorder walk from start, filtered by the pattern when one is given; it visits exactly the nodes under start that match |
| LopperTree.Tree.PhandleGen | lopper/tree.py:3612-3635 | `phandle_gen`: one more than the highest phandle in use, or 1 when none is; never a phandle in use |
| LopperTree.Tree.Pnode | lopper/tree.py:4372-4388 | `pnode(phandle)`: the node holding that phandle, or None when no node holds it |
| LopperTree.Tree.NodesNamed | lopper/tree.py:4305-4333 | `nodes(name, strict)`: the node at that exact path, or else every path the pattern matches, anchored when strict |
| LopperTree.Tree.Lnodes | lopper/tree.py:4412-4438 | `lnodes(label, exact)`: exactly the nodes whose label the pattern matches, anchored when exact |
| LopperTree.Tree.Refd | lopper/tree.py:3696-3727 | `refd(regex)`: exactly the nodes with a positive refcount, restricted to matching paths when a pattern is given |
| LopperTree.Tree.Ref | lopper/tree.py:3669-3694 | `ref(value, regex)`: the refcount setter applied to every node, or to the nodes `nodes(regex)` finds, and to no other |
| LopperTree.Tree.LabelSet | lopper/tree.py:2004-2026 | `label_set(value)`: an empty label changes nothing; otherwise the first free label among value, value_1, ... is recorded for the node, and the tree shape is unchanged |
| LopperTree.Tree.Warn | lopper/tree.py:3534-3578 | nothing is issued unless checking is on and a warning class is enabled; otherwise the issued counts and messages are those of the warning run |
| LopperTree.Tree.Add | lopper/tree.py:4054-4187 | `add(node, merge)` for a new leaf: the node's path is in the tree and the nodes already there stay; a new path goes in with its missing ancestors, all under it, and the tree stays consistent; an existing path keeps the path, number and label indices, and the tree stays consistent when there is no merge, when the incoming node is unresolved, or when it carries the existing node's phandle |
| LopperTree.Tree.MergeExisting | lopper/tree.py:4127-4134 | the merge branch of `add` on a consistent tree keeps the path, number and label indices; an unresolved node changes no index, and a resolved one with the existing node's phandle keeps the tree consistent |
| LopperTree.Tree.AddMerge | lopper/tree.py:4127-4134 | the node at the path takes the incoming node's name, phandle and merged properties when the incoming node is resolved, and its phandle is indexed to that path; otherwise only the modified flag changes |
| LopperTree.Tree.AddFresh | lopper/tree.py:4098-4187 | a path not in the tree goes in with its missing ancestors: the tree stays consistent, the nodes already there stay, and every new path is under the node's path |
| LopperTree.Tree.Prepare | lopper/tree.py:4139-4167 | before indexing, the root gets number 0, a nameless node the last path component, phandle -1 becomes 0, a phandle in use is replaced by `phandle_gen`, and the node is resolved |
| LopperTree.Tree.RecordExport | lopper/tree.py:2331-2420 | `export()` of a resolved node marks it modified, and its positive phandle is indexed to the path it is loaded at; no node changes shape |
| LopperTree.Tree.SamePhandleConsistent | lopper/tree.py:1670-1684 | re-indexing a node under the phandle it already has keeps the indices consistent |
| LopperTree.WithPhandleProp | lopper/tree.py:1989-2000 | `phandle_set`: a `phandle` property takes the new value at its place, every other property stays, and the length is unchanged |
| LopperTree.RootConsistent | lopper/tree.py:3228-3288 | the tree of the root alone, numbered 0 without phandle, is consistent |
| LopperTree.Tree.AddParent | lopper/tree.py:4109-4119 | when the parent of the path is not in the tree, an empty node (number -1) is added there after its own missing ancestors |
| LopperTree.Tree.MergeInto | lopper/tree.py:2686-2706 | `merge(other)`: both nodes end modified; an unresolved other node exports nothing, so nothing else changes; a resolved one gives the existing node its name, phandle and merged properties, indexes a positive phandle to the existing path (the old phandle's entry stays), and changes that node's shape in its phandle alone |
| LopperTree.Tree.Delete | lopper/tree.py:3924-3999 | `delete(node)`: the node and everything under it leave the path, phandle, label and number indices, the node leaves its parent's children, and the tree stays consistent; every removed node is marked deleted (no longer resolved) and modified, and every node that stays keeps its state |
| LopperTree.Tree.NodePath | lopper/tree.py:1960-1987 | `path()`: "/" and the node's name after the names of its named ancestors, walking up the parents |
| LopperTree.Tree.Address | lopper/tree.py:3018-3126 | `address(child_addr)`: a node with no address and no unit address gives None, and the root returns the address it was given |
| LopperTree.Tree.AddressUntranslated | lopper/tree.py:3049-3068 | with no translating `ranges` on the way up, a non-zero address comes back unchanged |
| LopperTree.Tree.AddressTranslated | lopper/tree.py:3099-3124 | one translating level: the address is moved through the first window of the parent's `ranges` that holds it |
| Lops.ParseClauseJoin | lopper/__init__.py:978-983 | a select clause written out with its two colons splits back into its node pattern, property and value |
| Lops.ParseClauseNoColon | lopper/__init__.py:980-983 | a clause without a colon is all node pattern, with no property test |
| Lops.StripBang | lopper/__init__.py:1013-1015 | one leading '!' is removed, anything else is kept |
| Lops.RemoveFirst | lopper/__init__.py:1050 | `list.remove(x)` takes out one copy of x, and changes nothing when x is absent |
| Lops.Select | lopper/__init__.py:945-1112 | the select lop runs the clauses of every `select_*` property in order on three list objects; the tree's selection ends holding the contents `SelectOf` gives, a malformed value stops the lop with its error, and the lop returns whether the selection is non-empty |
| Lops.RunClauses | lopper/__init__.py:976-1104 | the clause loop of one `select_N` property leaves the list objects showing the state the clause run gives, aliasing included, or stops with the first clause's error |
| Lops.SweepCandidates | lopper/__init__.py:1027-1056 | the loop over a copy of the candidates returns the selection the sweep gives |
| Lops.SweepMembership | lopper/__init__.py:1027-1091 | after the candidate loop a node is selected exactly when it was a candidate that passed, or was selected before and was not dropped |
| Lops.SweepBound | lopper/__init__.py:1042-1044 | the loop only appends candidates that are not selected yet, so the selection stays within the candidates, copies counted |
| Lops.ClauseMembership | lopper/__init__.py:985-1104 | a clause keeps the selection within the candidates and the names coherent; the candidates name shows the selection when bound to it and the clause's candidates otherwise; a property test adds the candidates it passes and, without node pattern, removes those it fails; when the value converts to an empty list the existence test that follows decides, together with the value test only on a selection a pathless clause swept in place; no property test selects all candidates |
| Lops.PathClauseAdds | lopper/__init__.py:985-1091 | a clause with a node pattern and a value test only adds: every node selected before stays selected, and the new ones are candidates that pass; a value converting to an empty list instead leaves exactly the candidates that pass the existence test |
| Lops.PathlessClauseRefines | lopper/__init__.py:998-1091 | a clause without node pattern refines the selection so far, or the tree's selection when nothing is selected yet: a node stays selected exactly when it passes; a value converting to an empty list adds the existence test, which on the tree's selection replaces the value test |
| Lops.PathClauseUnion | lopper/__init__.py:985-1094 | a path clause with no property binds the selection and the candidates to one new list holding the earlier candidates and every node the pattern finds |
| Lops.InvertFlips | lopper/__init__.py:1011-1091 | a '!' in front of a pathless clause's value inverts the test for a node that has a non-empty property, except that on an empty selection a value converting to an empty list selects the node under both |
| Lops.SweepStepMembership | lopper/__init__.py:1027-1091 | one sweep of the candidate list keeps the selection within the candidates and the bindings as they were, and selects a node exactly when it is a candidate that passes or was selected and is not dropped |
| Lops.EmptyCellsExample | lopper/__init__.py:1019-1091 | `/a:q:<>` on a tree where /a has an empty q selects /a: the value test passes it by, and the existence test that the empty conversion lets run adds it |
| Lops.ExistenceTests | lopper/__init__.py:1058-1091 | for a pathless clause, `!prop:` keeps exactly the nodes whose property is missing or empty, and `prop:` exactly those that have it |
| Lops.EmptySelectClears | lopper/__init__.py:970-972 | an empty `select_N` binds the tree's selection to a new empty list, leaving the selection being built and the candidates as they are |
| Lops.SelectRunWithin | lopper/__init__.py:969-1104 | the selection state of a select lop stays within its candidates throughout, and names bound to one list always show the same contents |
| Lops.ClauseRunWithin | lopper/__init__.py:976-1104 | every clause of one `select_N` keeps the selection within its candidates and the list names coherent, so the run ends in such a state |
| Lops.NodeList.constructor | lopper/__init__.py:967-968 | a new list object holds the given paths |
| Lops.Snapshot | lopper/__init__.py:967-1107 | the state read off three list objects is coherent: names bound to one object show the same contents, and sharing is transitive |
| Lops.Retarget | lopper/__init__.py:985-1004 | rebinding the candidates gives them the clause's candidates, leaves the selection and the tree's selection alone, and keeps the names coherent |
| Lops.WriteSelected | lopper/__init__.py:1044-1056 | changing the selection list in place gives it the new contents, every name bound to it sees them, and the names stay coherent |
| Lops.Rebind | lopper/__init__.py:985-1004 | the method binds the candidates name to a new list holding the earlier candidates and the nodes found, or to the selection list, or to the tree's selection list, as `Retarget` describes |
| Lops.StepClause | lopper/__init__.py:976-1094 | one clause on the three list objects: a malformed value is the conversion's error, otherwise the objects then show the state the clause step gives, including the second, existence sweep that a value converting to an empty list runs over the candidate list as the first sweep left it |
| Lops.PathlessSharesList | lopper/__init__.py:1000-1002 | after a pathless clause on a non-empty selection the candidates name is bound to the selection list, so both show the refined selection |
| Lops.SharedListExample | lopper/__init__.py:985-1056 | clauses "/a", ":p:" and "/b:q:" on a tree where only /a has q select nothing: dropping /a from the shared list empties the candidates too, so /a is never tested for q |
| Lops.ExampleFirst | lopper/__init__.py:985-1094 | the clause "/a" binds the selection and the candidates to one new list holding /a |
| Lops.ExampleSecond | lopper/__init__.py:1060-1088 | ":p:" removes /a, which lacks p, from the shared list, so both names see an empty list |
| Lops.ExampleThird | lopper/__init__.py:985-1088 | "/b:q:" extends the emptied candidates by /b alone, and /b, which lacks q, is not selected |
| Lops.CondProp | lopper/__init__.py:1644-1650 | the property a condition looks for is its name without the `__not__` suffix, which inverts the test |
| Lops.ConditionalMatches | lopper/__init__.py:1639-1690 | the method returns the match and failure lists the conditional lop builds before it runs its `true*` and `false*` blocks |
| Lops.JudgeAllMembership | lopper/__init__.py:1654-1690 | one condition over all targets: afterwards a target is a match exactly when it meets this condition, and a failure when it fails this one or failed before |
| Lops.CondRunMembership | lopper/__init__.py:1643-1690 | as written, a target ends among the matches when it meets the last condition, and among the failures when it fails any condition |
| Lops.StaleMatch | lopper/__init__.py:1643-1690 | as written, with conditions p and q, a target that lacks p but has q is both a match and a failure |
| Lops.Partition | lopper/__init__.py:1639-1690 | the targets, in order, that meet every condition, or that fail one |
| Lops.IntendedMatchesPartition | lopper/__init__.py:1639-1690 | with matches taken as the targets meeting every condition, each target is a match or a failure and never both, and the failures are those the lop as written finds |
| PhandleDesc.Edit | lopper/__init__.py:1126-1144 | one property of the `meta` lop: `reset` empties the table, `-name` removes name, comments and `compatible` are skipped, any other sets name to the property's first value |
| PhandleDesc.Start | lopper/__init__.py:1119-1123 | the lop starts from the current table, or the built-in one when none is installed, without its DEFAULT entry |
| PhandleDesc.MetaPhandleDesc | lopper/__init__.py:1114-1146 | the lop's loop leaves the table, and the error if any, that applying every property in order to the starting table gives |
| PhandleDesc.ApplyEdit | lopper/__init__.py:1129-1144 | the in-place dictionary update of one property gives the table the edit function gives |
| PhandleDesc.EditsAppend | lopper/__init__.py:1126-1144 | running two lists of properties is running the first, then the second on its table, unless the first stopped on an error |
| PhandleDesc.ResetForgets | lopper/__init__.py:1130-1132 | a `reset` forgets every edit before it |
| PhandleDesc.ResetRestoresBuiltIn | lopper/__init__.py:1130-1132 | after a lone `reset` the table is empty, so `phandle_possible_properties` hands out the built-in table again, DEFAULT entry included |
| PhandleDesc.LastEdit | lopper/__init__.py:1126-1144 | the last property decides: a set makes its name map to its value, a removal takes the name out, a skipped property changes nothing |
| PhandleDesc.DefaultOnlyIfSet | lopper/__init__.py:1119-1144 | DEFAULT is in the table the lop leaves only when a property of the lop node set it |
| Modify.ParseModify | lopper/__init__.py:1830-1834 | `prop.split(":")` read at 0, 1 and 2: fewer than three parts is IndexError, and parts past the third are ignored |
| Modify.ParseModifyJoin | lopper/__init__.py:1830-1834 | an expression written out with its two colons parses back to itself |
| Modify.ParseModifyNoColon | lopper/__init__.py:1830-1834 | a text with no colon cannot be unpacked |
| Modify.ModifyTargets | lopper/__init__.py:1844-1855 | the nodes a modify works on: the tree's selection for an empty path, None (the lop returns False) when that is empty too, otherwise the subtree or the nodes the path names |
| Modify.ModifyValue | lopper/__init__.py:1937-1938 | the value a property set stores is the text through `property_convert`: only a `<...>` cell literal can fail, and then with SystemExit; a cell literal gives numbers only, and any other text gives a non-empty value |
| Modify.Dropped | lopper/__init__.py:1866-1872 | the properties other than name, in order; no property of that name is left |
| Modify.DroppedIdempotent | lopper/__init__.py:1866-1872 | dropping a name twice is dropping it once |
| Modify.DropAfterPut | lopper/__init__.py:1866-1944 | a property set followed by a delete of the same name is the delete alone |
| Modify.DeleteEach | lopper/__init__.py:1866-1872 | `n.delete(prop)` on every node, a missing property tolerated: every node ends without the property and is marked modified exactly when it had it or was already |
| Modify.SetEach | lopper/__init__.py:1940-1944 | `n[prop] = value` on every node: each node's property list becomes Put of the old one and the value reads back |
| RunQueue.PriorityOf | lopper/__init__.py:2113-2119 | a lop file's priority: 5 when the property or its first value is missing, the value when it is a key 1 to 9 of the run queue, KeyError otherwise |
| RunQueue.Priorities | lopper/__init__.py:2087-2119 | the priority of every file, or KeyError exactly when some file's priority is not a queue key |
| RunQueue.BucketFacts | lopper/__init__.py:2082-2119 | a bucket holds exactly the files of its priority, in input order |
| RunQueue.BuildQueue | lopper/__init__.py:2082-2126 | the run queue is one bucket per priority 1 to 9, each filled in input order, read from 1 to 9; KeyError exactly when a priority is not a key |
| RunQueue.FillBuckets | lopper/__init__.py:2082-2119 | the first loop of `perform_lops` appends each file to the bucket of its priority |
| RunQueue.QueueMembers | lopper/__init__.py:2125-2126 | the first k buckets hold exactly the files whose priority is at most k |
| RunQueue.QueueOrdered | lopper/__init__.py:2125-2126 | the queue lists files by non-decreasing priority |
| RunQueue.QueuePermutation | lopper/__init__.py:2082-2126 | the run queue is a permutation of the files: every file is in it exactly once |
| RunQueue.CondResult | lopper/__init__.py:2149-2160 | the result recorded for the lop that `cond` points at, or None when any step of the lookup fails |
| RunQueue.PerformLops | lopper/__init__.py:2082-2171 | the run loops of `perform_lops` give the results and the run order of the specification, and KeyError exactly when it does |
| RunQueue.StepRuns | lopper/__init__.py:2131-2169 | a lop node runs exactly when it is a lop, it is not on the skip list in force, and its `cond` lop recorded true, or there is no such result and it has no `noexec` |
| RunQueue.NoexecHeldBack | lopper/__init__.py:2144-2164 | a lop with `noexec` and no true `cond` result does not run |
| RunQueue.RunNodesAppends | lopper/__init__.py:2131-2169 | a file's run only appends lops of that file, after those already run |
| RunQueue.SkipListHolds | lopper/__init__.py:2138-2164 | below a conditional lop, while no other conditional lop replaces the skip list, no node on it runs |
| RunQueue.RunFilesByPriority | lopper/__init__.py:2125-2169 | running the files in queue order runs the lops of lower priority numbers first |
| RunQueue.PerformByPriority | lopper/__init__.py:2032-2171 | `perform_lops` runs the lops file by file in priority order |
| Audit.CellValueGet | lopper/audit.py:26-46 | `_cell_value_get`: size 2 reads two cells as (first << 32) \| second, any other size one cell; IndexError exactly when the cells run out; the used cells are those read |
| Audit.CellValueSplit | lopper/audit.py:38-41 | reading two cells back from anywhere in a property gives the 64-bit number they were split from |
| Audit.CellValueSingle | lopper/audit.py:42-44 | reading at any size other than 2 gives the one cell back |
| Audit.CheckInvalidPhandles | lopper/audit.py:48-120 | the walk of `check_invalid_phandles` over the nodes returns the pairs the specification fold gives |
| Audit.PathExcluded | lopper/audit.py:86-90 | the pattern loop finds out whether some exclude pattern matches the path |
| Audit.CheckNodeProps | lopper/audit.py:94-118 | the property loop of one node gives that node's reported pairs |
| Audit.HasInvalid | lopper/audit.py:114-118 | the target loop stops at the first "#invalid" and finds one exactly when there is one |
| Audit.NodeFlagsMember | lopper/audit.py:94-118 | a node's entries are exactly its reported properties, each with the node's path |
| Audit.FlaggedMember | lopper/audit.py:74-120 | a (path, property) pair is reported exactly when a checked node has that path and a phandle property of that name that resolves to "#invalid" |
| Audit.UntouchedNodeSkipped | lopper/audit.py:76-80 | in modified-only mode a resolved, unmodified node contributes nothing; a LopperNode never reaches that state (see Findings) |
| Audit.UntouchedPropSkipped | lopper/audit.py:99-102 | in modified-only mode a synced, unmodified property is never reported |
| Audit.ModifiedOnlySubset | lopper/audit.py:48-120 | the modified-only check reports a subset of what the full check reports |
| Audit.FlaggedOnce | lopper/audit.py:114-118 | each offending (path, property) pair is recorded at most once, however many of its targets are invalid |
| Audit.ReportInvalidPhandles | lopper/audit.py:123-146 | `report_invalid_phandles`: SystemExit when werror is set and something is found, otherwise the number of findings |
| Audit.RangeOf | lopper/audit.py:199-201 | the window of a `reg`-style value ends at or after its start, and a short value is IndexError |
| Audit.RangeOfChunk | lopper/audit.py:196-201 | a chunk of exactly ac + sc cells is read without error exactly when there is at least one size cell |
| Audit.RangesFrom | lopper/audit.py:195-202 | the memory loop only appends ranges to those found so far, and its only error is IndexError |
| Audit.MemoryRanges | lopper/audit.py:194-195 | a total cell count of 0 is a zero step for `range`, which raises ValueError |
| Audit.RangesFromOk | lopper/audit.py:195-202 | with size cells the memory loop never fails, and each range it yields is the window of a whole chunk |
| Audit.CellsOr | lopper/audit.py:183-190 | a cell count that cannot be read falls back to the default |
| Audit.RegionCheck | lopper/audit.py:208-248 | one entry of `reserved-memory` adds at most one region |
| Audit.ReservedMemoryCheck | lopper/audit.py:149-250 | a missing or empty `memory` or `reserved-memory` property reports nothing |
| Audit.ParseMemoryRanges | lopper/audit.py:193-202 | the memory loop of the check gives the specification's ranges |
| Audit.InSomeRange | lopper/audit.py:241-245 | the inner loop finds a range exactly when some memory range holds the region |
| Audit.CheckRegion | lopper/audit.py:208-248 | one iteration of the reserved-memory loop gives what the entry adds |
| Audit.CheckReservedMemory | lopper/audit.py:149-250 | the check as a method returns the specification's result |
| Audit.RegionsFromMember | lopper/audit.py:208-248 | a region is reported exactly when it comes from an entry whose window no memory range holds |
| Audit.RegionCheckReports | lopper/audit.py:208-248 | an entry reports a region exactly when it is a phandle whose node has a non-empty `reg` whose window no memory range holds |
| Audit.ReservedMemoryReports | lopper/audit.py:149-250 | the check reports (path, start, end) exactly when an entry of `reserved-memory` names that region and no memory range of the domain holds it |
| Audit.RootCellsDefault | lopper/audit.py:183-190 | root cell counts that cannot be read count as 2 |
| Audit.DefaultRangesParse | lopper/audit.py:193-202 | with two address and two size cells the memory property always parses, into windows of whole four-cell chunks |
| Audit.ValidateAsWritten | lopper/audit.py:253-280 | as written, any region found exits, because `_error` exits by default even without werror |
| Audit.ValidateReservedMemory | lopper/audit.py:253-280 | as documented: with werror the first region exits, otherwise every region is logged and the result is their number |
| Audit.ValidateExitsWithoutWerror | lopper/audit.py:272-278 | on a domain with one region outside memory, the wrapper as written exits without werror, while the documented wrapper returns 1 |
| LopperLib.Deref | lopper/assists/lopper_lib.py:153 | `tree.pnode(ph)` of a string entry finds no node |
| LopperLib.ResolvedMember | lopper/assists/lopper_lib.py:152-155 | a node is in the resolved list exactly when some entry resolves to it |
| LopperLib.ResolvedAppend | lopper/assists/lopper_lib.py:152-155 | one more entry adds its node, if it has one, at the end |
| LopperLib.Includes | lopper/assists/lopper_lib.py:146-157 | `includes`: the nodes the entries resolve to, in order; a missing or empty property gives none |
| LopperLib.EvenEntries | lopper/assists/lopper_lib.py:170 | `l[::2]` is the entries at even positions |
| LopperLib.NodeAccesses | lopper/assists/lopper_lib.py:160-176 | `node_accesses`: only the phandle of each (phandle, flags) pair is resolved, and pairs that resolve to nothing are dropped |
| LopperLib.AccessedNodes | lopper/assists/lopper_lib.py:170-174 | a node is accessed exactly when the entry at some even position resolves to it |
| LopperLib.Matching | lopper/assists/lopper_lib.py:191-193 | the `compatible` entries that contain the query string, and no others |
| LopperLib.IsCompatAsWritten | lopper/assists/lopper_lib.py:181-195 | `is_compat` as written: None exactly for a node without `compatible` |
| LopperLib.FirstMatchingMeans | lopper/assists/lopper_lib.py:187-191 | the loop keeps the first non-empty match list, which is non-empty exactly when some query string matches |
| LopperLib.IsCompat | lopper/assists/lopper_lib.py:181-195 | `is_compat` as its comment describes it: whether some `compatible` entry contains the string, or one of the strings |
| LopperLib.IsCompatAgree | lopper/assists/lopper_lib.py:181-195 | the two agree on every non-empty query; an empty query list is compatible with every node as written and with none as intended |
| LopperLib.PicksMember | lopper/assists/lopper_lib.py:236-244 | a sub-cpu is selected exactly when a set bit below 32 sits at its position in the list |
| LopperLib.CpuTriples | lopper/assists/lopper_lib.py:212-244 | the triple loop selects only sub-cpus it has seen, and keeps every sub-cpu seen |
| LopperLib.Unselected | lopper/assists/lopper_lib.py:246-250 | the unselected sub-cpus are exactly those seen and not selected |
| LopperLib.CpuRefsSpec | lopper/assists/lopper_lib.py:198-258 | `cpu_refs`: a missing or empty `cpus` property gives two empty lists |
| LopperLib.CpuRefsPartition | lopper/assists/lopper_lib.py:198-258 | the selected and unselected sub-cpus split the sub-cpus of the listed cpu nodes: each is in exactly one list |
| LopperLib.CpuTriplesSelect | lopper/assists/lopper_lib.py:212-244 | every selected sub-cpu sits at a set bit of the mask of a triple whose cpu node lists it |
| LopperLib.SkipExtendsRaise | lopper/assists/lopper_lib.py:217-221 | skipping unresolved phandles only differs from raising where raising fails |
| LopperLib.UnresolvedCpuRaises | lopper/assists/lopper_lib.py:217-223 | a triple naming a phandle with no node: the code as written raises AttributeError, the intended version gives two empty lists |
| LopperLib.PickSubCpus | lopper/assists/lopper_lib.py:236-244 | the mask loop of one triple, bits 0 to 31 in order, picks what the specification picks |
| LopperLib.CollectUnselected | lopper/assists/lopper_lib.py:246-250 | the unselected loop returns the specification's list |
| LopperLib.CpuRefs | lopper/assists/lopper_lib.py:198-258 | `cpu_refs` with unresolved phandles skipped, as the code's comment intends |
| Schema.Find | lopper/schema.py:330-331 | `s.find(pat)`: a position where the pattern occurs, found exactly when it occurs |
| Schema.RemoveBlocks | lopper/schema.py:328-335 | cutting block comments out never lengthens the line, and leaves no opener followed by a closer |
| Schema.StripDtsComments | lopper/schema.py:282-340 | the corrected `strip_dts_comments` returns the intended stripped line |
| Schema.ScanLine | lopper/schema.py:290-340 | the character loop keeps what the scan specification keeps |
| Schema.AsWrittenAgrees | lopper/schema.py:282-340 | on a line that lacks a comment opener or closer the code as written returns the intended result |
| Schema.BlockCommentLine | lopper/schema.py:328-338 | a line holding only `/* x */` comes out as "/" as written, while the comment should leave an empty line |
| Schema.StrippedNoSlash | lopper/schema.py:282-340 | a line without '/' holds no comment and is only stripped |
| Schema.CutsLineComment | lopper/schema.py:322-325 | a "//" after plain text starts a comment that is dropped |
| Schema.KeepsSlashesInString | lopper/schema.py:307-325 | a "//" inside a string literal is kept |
| Schema.SplitWsStrip | lopper/schema.py:733 | leading and trailing white space do not change `split()` |
| Schema.LooksLikeArray | lopper/schema.py:254-280 | `_looks_like_array`: the stripped value is bracketed by '<' and '>' and holds at least two items |
| Schema.ArrayOfItems | lopper/schema.py:254-280 | a cell list written out is an array exactly when it has two items or more |
| Schema.Is64BitValue | lopper/schema.py:801-806 | `_is_64bit_value`: exactly two cells, both starting with "0x" |
| Schema.CellGrouping | lopper/schema.py:813-827 | `_determine_cell_grouping`, the later definition that Python keeps: 2 for `reg`, `clocks` and `resets` with an even count, 3 for `ranges` and `interrupts` with a count divisible by 3, 1 otherwise |
| Schema.PropertyType | lopper/schema.py:688-774 | `_determine_property_type`: a string-hint name is a string exactly when the value has a quote, else unknown; a boolean-hint name is boolean; a `/bits/` width gives its width's type |
| Schema.CellListTypes | lopper/schema.py:729-764 | a cell list: no cells is empty, one cell a uint32, two cells a uint64 only for a potential 64-bit name with two hex cells, and a matrix or an array otherwise |
| Schema.ByteArrayType | lopper/schema.py:765-766 | a value in square brackets is a byte array |
| Schema.EmptyIsBoolean | lopper/schema.py:729-730 | an empty value is a boolean |
| Schema.QuotedStringType | lopper/schema.py:767-772 | one quoted string without a comma is a string |
| Schema.QuotedListType | lopper/schema.py:767-770 | two or more quoted strings joined by ", " are a string array |
| Schema.SuffixFrom | lopper/schema.py:1579-1608 | the first suffix rule the name ends with, and no earlier one |
| Schema.PrefixFrom | lopper/schema.py:1579-1608 | the first prefix rule that decides, and no earlier one |
| Schema.PatternFrom | lopper/schema.py:1579-1608 | the first regular expression pattern that matches, and no earlier one |
| Schema.HeuristicsOrder | lopper/schema.py:1579-1608 | `_apply_heuristics`: an exact name wins, then the first matching suffix, then the first deciding prefix, then the first matching pattern, else UNKNOWN |
| Schema.LiteralPattern | lopper/schema.py:1181-1186 | `_matches_pattern` with a pattern without '*' matches exactly the paths ending in '/' and the pattern |
| Schema.UnitAddressPattern | lopper/schema.py:1181-1186 | a pattern "name@*" matches a path whose last node is that name with a unit address |
| Schema.SlashNeeded | lopper/schema.py:1181-1186 | a path without '/' matches no pattern |
| SchemaUpdate.AddTo | lopper/schema.py:1856-1929 | `table[key]['properties'][prop] = def` creates the entry and the definition reads back |
| SchemaUpdate.InContext | lopper/schema.py:1856-1929 | the context-specific copy of a plain property's definition leaves the global definitions and the patterns alone |
| SchemaUpdate.SchemaDict.constructor | lopper/schema.py:1833-1853 | a new schema dictionary holds no definitions, patterns, overrides or mappings |
| SchemaUpdate.SchemaDict.UpdateSchema | lopper/schema.py:1833-1853 | `update_schema`: a property or node update changes the state as the specification says, and any other schema type is ValueError with the state unchanged |
| SchemaUpdate.SchemaDict.UpdateProperty | lopper/schema.py:1856-1929 | the state after `_update_property` is the specification's |
| SchemaUpdate.SchemaDict.UpdateNodePattern | lopper/schema.py:1932-1982 | the state after `_update_node_pattern` is the specification's |
| SchemaUpdate.PlainPropertyUpdate | lopper/schema.py:1856-1929 | a plain property name sets its global definition, leaves the patterns alone and, under a path context, sets the path override |
| SchemaUpdate.PatternPropertyUpdate | lopper/schema.py:1856-1929 | a pattern name only adds its pattern entry, under the key its context gives |
| SchemaUpdate.PropertyUpdateIdempotent | lopper/schema.py:1856-1929 | updating a property twice is the same as once |
| SchemaUpdate.NodeKeyInjective | lopper/schema.py:1932-1982 | names whose pattern keys for one node pattern are equal are equal |
| SchemaUpdate.StepKeeps | lopper/schema.py:1932-1982 | one property of a node pattern update leaves alone the global definitions already there, the other node patterns and the node pattern's other properties |
| SchemaUpdate.StepSets | lopper/schema.py:1932-1982 | one property of a node pattern update sets its definition in the node pattern, or its pattern entry |
| SchemaUpdate.NodePropsKeep | lopper/schema.py:1932-1982 | after the update the node pattern is there, and earlier definitions and other node patterns are unchanged |
| SchemaUpdate.NodePropsSet | lopper/schema.py:1932-1982 | after the update each plain property is in the node pattern with its definition and has a global definition, and each pattern property has its pattern entry |
| SchemaUpdate.NodeUpdateResult | lopper/schema.py:1932-1982 | `_update_node_pattern` in full, from any schema state: what it keeps and what it sets |
| Xppu.H2i | lopper/assists/xlnx/xppu.py:94-97 | `h2i` gives 0 for a missing text, fails with ValueError on an empty text, and otherwise reads base-16 text with an optional "0x" prefix |
| Xppu.H2iHex | lopper/assists/xlnx/xppu.py:94-101 | `h2i` reads back every number `i2h`/`hex` writes: the two are inverse |
| Xppu.InRange | lopper/assists/xlnx/xppu.py:148-154 | `in_range` fails exactly when one of its three texts is not base-16 text |
| Xppu.InRangeInclusive | lopper/assists/xlnx/xppu.py:148-154 | on texts `hex` writes, `in_range` is the inclusive comparison lo <= a <= hi, both ends included |
| Xppu.CalcParity | lopper/assists/xlnx/xppu.py:104-110 | `calc_parity` yields a single bit |
| Xppu.CalcParityOnes | lopper/assists/xlnx/xppu.py:104-110 | the five xor-folds of `calc_parity` compute the parity of the number of set bits among the low 32 bits |
| Xppu.CompParity | lopper/assists/xlnx/xppu.py:126-135 | `comp_parity` yields a single bit |
| Xppu.CompParityParts | lopper/assists/xlnx/xppu.py:126-135 | with parity on, `comp_parity` is the parity of the id's, the mask's and the rw bit's parities |
| Xppu.CompParityMeans | lopper/assists/xlnx/xppu.py:126-135 | `comp_parity` is 0 with parity off, and otherwise the parity of all set bits of the id, the mask and the rw bit |
| Xppu.WordFields | lopper/assists/xlnx/xppu.py:137-145 | a master-id word fits 32 bits and each field reads back from its place: id bits 0-15, mask bits 16-29, rw bit 30, parity bit 31 |
| Xppu.ValLayout | lopper/assists/xlnx/xppu.py:137-145 | `val()` of a master whose fields fit their widths equals the or of the shifted fields, and each field reads back from it |
| Xppu.ValEvenParity | lopper/assists/xlnx/xppu.py:126-145 | with parity on, the word `val()` has an even number of set bits, so `calc_parity` of it is 0 |
| Xppu.ProtectedRange | lopper/assists/xlnx/xppu.py:209-221 | `aper_get_protected_range` succeeds exactly on the 64KB, 1MB and 512MB aperture indices, and exits the program on any other |
| Xppu.Apertures64KTile | lopper/assists/xlnx/xppu.py:209-213 | the 256 64KB apertures start at the region base, each is 64KB long, each starts where the previous ends, and the last ends at the region end |
| Xppu.Apertures1MBTile | lopper/assists/xlnx/xppu.py:214-216 | the 16 1MB apertures 384-399 tile the 1MB region in the same way |
| Xppu.Aperture64KCovers | lopper/assists/xlnx/xppu.py:200-213 | an address of the 64KB region lies in aperture (addr - base) // 64K and in no other 64KB aperture |
| Xppu.Aperture1MBCovers | lopper/assists/xlnx/xppu.py:203-216 | an address of the 1MB region lies in aperture 384 + (addr - base) // 1MB and in no other 1MB aperture |
| Xppu.CalcAperture | lopper/assists/xlnx/xppu.py:157-160 | `calc_aperture` fails exactly when the address or base text is not base-16 text; otherwise it is the true quotient |
| Xppu.ApermapUpTo | lopper/assists/xlnx/xppu.py:179-182 | the aperture map `__init__` builds holds exactly the aperture indices, each mapped to its protected range |
| Xppu.SlotOf | lopper/assists/xlnx/xppu.py:223-227 | a dictionary key names a master slot when it is 0x100 + 4i for a slot i, and names none otherwise |
| Xppu.SlotOfIndex | lopper/assists/xlnx/xppu.py:223-232 | the key computed from idx names a slot exactly when 0 <= idx < 20, and then slot idx |
| Xppu.Xppu.constructor | lopper/assists/xlnx/xppu.py:166-185 | a new XPPU holds its name, base, region ends (0x0-0x0 without a 512MB base), a zero default mask, the full aperture map and 20 empty slots |
| Xppu.Xppu.SetMaster | lopper/assists/xlnx/xppu.py:223-227 | `set_master` stores the master in slot idx, keeps every other slot, and changes nothing for an index naming no slot |
| Xppu.Xppu.GetMaster | lopper/assists/xlnx/xppu.py:229-232 | `get_master` gives the slot's master, and None for an index naming no slot |
| Xppu.Xppu.GetMasterBySmid | lopper/assists/xlnx/xppu.py:234-239 | `get_master_by_smid` finds the first slot whose master has the SMID, or None when no slot has it |
| Xppu.Xppu.GetMasterBySmrw | lopper/assists/xlnx/xppu.py:241-251 | `get_master_by_smrw` finds the first slot whose master matches SMID, mask and rw flag, or None when none does |
| Xppu.Xppu.GetMasterAddr | lopper/assists/xlnx/xppu.py:253-256 | `get_master_addr` gives a register address in the master-id block exactly for the slot indices |
| Xppu.Xppu.GetMasterVal | lopper/assists/xlnx/xppu.py:258-261 | `get_master_val` gives 0 for an empty slot, the master's word otherwise, and None for an index naming no slot |
| Xppu.Xppu.MidNameToIdxx | lopper/assists/xlnx/xppu.py:263-264 | `mid_name_to_idxx` gives the slot of a key held in the dictionary, and ValueError for a key it does not hold |
| Xppu.Xppu.CtrlRegVal | lopper/assists/xlnx/xppu.py:266-267 | the control register value sets the aperture and master-id parity enable bits 1 and 2, and is 6 |
| Xppu.Xppu.IenRegAddrVal | lopper/assists/xlnx/xppu.py:269-274 | the interrupt-enable register sits at base + 0x18, and its value is the or of the enabled interrupts' bits |
| Xppu.Xppu.GetAperture | lopper/assists/xlnx/xppu.py:276-283 | `get_aperture` computes the aperture mask of the listed masters over all slots |
| Xppu.Xppu.SetDefaultAperture | lopper/assists/xlnx/xppu.py:285-287 | `set_default_aperture` replaces the default mask |
| Xppu.Xppu.GetNondefRwAperture | lopper/assists/xlnx/xppu.py:294-296 | the non-default read-write mask is the default mask or-ed with the aperture of "ANY_RW" |
| Xppu.Xppu.GetNondefRoAperture | lopper/assists/xlnx/xppu.py:298-300 | the non-default read-only mask is the default mask or-ed with the aperture of "ANY_RO" |
| Xppu.IsAddrInRangeMeans | lopper/assists/xlnx/xppu.py:190-198 | `is_addr_in_range` fails only on an address that is not base-16 text, and otherwise places the address in the 64KB, 1MB or 512MB region, or in none |
| Xppu.AddrInRangeMeans | lopper/assists/xlnx/xppu.py:190-204 | on any six bound texts that read as numbers, `is_addr_in_range` fails with ValueError exactly on an address that is not base-16 text, and otherwise reports the first region holding the address with its real aperture index, or none |
| Xppu.AddrInRangeOk | lopper/assists/xlnx/xppu.py:190-204 | for an address that reads as a number, the region tests in order give the classification of that number |
| Xppu.AddrInFirst | lopper/assists/xlnx/xppu.py:191-192 | an address inside the 64KB bounds is a 64KB hit at aperture 0 plus the true quotient of its offset by 64K; any other address goes on to the later tests |
| Xppu.AddrPastFirst | lopper/assists/xlnx/xppu.py:193-198 | past the 64KB test, an address in the 1MB bounds is a 1MB hit at aperture 384 plus the true quotient of its offset by 1MB, one in the 512MB bounds is aperture 400, and any other is no hit |
| Xppu.FloorOfQuotient | lopper/assists/xlnx/xppu.py:157-160 | truncating the true quotient of two naturals gives their integer quotient |
| Xppu.ApertureInRegion | lopper/assists/xlnx/xppu.py:179-182 | every aperture of the map lies inside the region it belongs to, and its start is not past its end |
| Xppu.AddrHitNamesAperture | lopper/assists/xlnx/xppu.py:190-204 | the truncated aperture index `is_addr_in_range` reports is an aperture of the map holding the address; an address reported outside holds no aperture of the map |
| Xppu.IenValueBits | lopper/assists/xlnx/xppu.py:269-274 | bit j of the interrupt-enable value is set exactly when an enabled interrupt names bit j |
| Xppu.IenValueAllOn | lopper/assists/xlnx/xppu.py:23-31 | with the interrupt table as given, the enable value is 0xEF |
| Xppu.MidNameToIdxxSlot | lopper/assists/xlnx/xppu.py:263-264 | the key of slot i sits at position i of the masters dictionary |
| Xppu.ApertureBits | lopper/assists/xlnx/xppu.py:276-283 | bit j of the aperture mask is set exactly when slot j holds a listed master, or j is the TrustZone bit 27 once a slot was visited |
| Xppu.NamesFrom | lopper/assists/xlnx/xppu.py:302-305 | `get_master_list_from_aperture` fails with AttributeError exactly when a set bit names an empty slot |
| Xppu.ApertureRoundTrip | lopper/assists/xlnx/xppu.py:276-305 | reading the master list back from the mask `get_aperture` built gives the selected masters' names, highest slot first |
| Xppu.NondefApertureBits | lopper/assists/xlnx/xppu.py:294-300 | a non-default mask keeps every default bit and adds bit 27 and the bits of the slots holding the named master |
| Xppu.RegisterLayout | lopper/assists/xlnx/xppu.py:206-207 | the master-id registers sit above the interrupt-enable register and below the aperture registers, and distinct slots have distinct registers |
| Xppu.MidlFits | lopper/assists/xlnx/xppu.py:52-72 | every id of the master table fits 16 bits and every mask fits 14 bits |
| Xppu.Mid | lopper/assists/xlnx/xppu.py:308-314 | `mid` builds the master with the table's id and mask, and a master missing from the table is an unbound-name error |
| Xppu.MidWord | lopper/assists/xlnx/xppu.py:308-314 | a master built by `mid` gives a 32-bit word with its fields in place, of even parity when parity is on |
| Xppu.InitMastersKnown | lopper/assists/xlnx/xppu.py:317-338 | every master `init_masters` installs is in the master table, in a valid slot, with rw 0 or 1 |
| Xppu.InitMasters | lopper/assists/xlnx/xppu.py:317-338 | `init_masters` leaves the slots as the 17 `set_master` calls define them |
| Xppu.InitSlotsFilled | lopper/assists/xlnx/xppu.py:317-338 | `init_masters` fills slots 0-14, 18 and 19 as its table says, and leaves slots 15-17 alone |
| Xppu.InitSlotsWords | lopper/assists/xlnx/xppu.py:317-338 | every installed master has a 32-bit word with even parity |
| Xppu.InitXppu | lopper/assists/xlnx/xppu.py:355-358 | `init_xppu` builds a fresh instance from its hardware-table row, and an unknown name is a KeyError |
| Xppu.MissingLargeRegionHoldsZero | lopper/assists/xlnx/xppu.py:172-173 | an XPPU without a 512MB region reports address 0 as aperture 400 when 0 lies outside its other regions, and no other outside address |
| Xmpu.Dword | assists/xlnx_pm/xmpu.py:96-97 | `dword` keeps the low 32 bits: the result is below 2^32 and equals the number modulo 2^32 |
| Xmpu.JoinHalves | assists/xlnx_pm/xmpu.py:306-308 | joining two 32-bit cells as `(hi << 32) \| lo` and splitting with `dword(x >> 32)` and `dword(x)` gives the cells back |
| Xmpu.SplitHalves | assists/xlnx_pm/xmpu.py:197-207 | a value below 2^64 is its high dword times 2^32 plus its low dword |
| Xmpu.MasterValFields | assists/xlnx_pm/xmpu.py:110-113 | with 16-bit fields the master word is a dword whose low half is the id and whose high half is the mask |
| Xmpu.IorShiftedValue | assists/xlnx_pm/xmpu.py:131-137 | or-ing 0/1 flags shifted by their positions adds them at their binary weights |
| Xmpu.ConfigWordLayout | assists/xlnx_pm/xmpu.py:131-137 | the configuration word is enable at bit 0, rd at bit 1, wr at bit 2, tz at bit 3 and check type at bit 4 |
| Xmpu.RwAfter | assists/xlnx_pm/xmpu.py:148-157 | `set_rw` with 0 sets both permissions, with 1 sets rd, with 2 sets wr, and with any other value changes nothing |
| Xmpu.RwAfterOnlySets | assists/xlnx_pm/xmpu.py:148-157 | `set_rw` never clears a permission, so on the default configuration every rw value leaves read and write both allowed |
| Xmpu.Config.constructor | assists/xlnx_pm/xmpu.py:121-126 | a configuration holds the five flags it is given |
| Xmpu.Config.SetTz | assists/xlnx_pm/xmpu.py:139-140 | `set_tz` replaces the TrustZone flag |
| Xmpu.Config.SetWrAllowed | assists/xlnx_pm/xmpu.py:142-143 | `set_wr_allowed` replaces the write permission |
| Xmpu.Config.SetRdAllowed | assists/xlnx_pm/xmpu.py:145-146 | `set_rd_allowed` replaces the read permission |
| Xmpu.Config.SetRw | assists/xlnx_pm/xmpu.py:148-157 | `set_rw` leaves the permissions that `RwAfter` gives and nothing else changed |
| Xmpu.Config.En | assists/xlnx_pm/xmpu.py:159-160 | `en` enables the region |
| Xmpu.Config.Disable | assists/xlnx_pm/xmpu.py:162-163 | `disable` disables the region |
| Xmpu.OffsetOf | assists/xlnx_pm/xmpu.py:39-59 | every register offset is word-aligned and inside the 0x18-byte region block |
| Xmpu.OffsetsDistinct | assists/xlnx_pm/xmpu.py:42-59 | the six registers of a region block have six distinct offsets |
| Xmpu.Region.constructor | assists/xlnx_pm/xmpu.py:168-174 | a new region has an empty window, the any-master entry and the default configuration, not yet enabled |
| Xmpu.Region.SetMaster | assists/xlnx_pm/xmpu.py:179-182 | `set_master` copies the master's id, mask and name |
| Xmpu.Region.SetAddr | assists/xlnx_pm/xmpu.py:184-186 | `set_addr` sets the window to run from addr to addr + size |
| Xmpu.RegionHalves | assists/xlnx_pm/xmpu.py:197-207 | the four address registers of a region whose ends fit 64 bits write out its start and end exactly |
| Xmpu.Xmpu.constructor | assists/xlnx_pm/xmpu.py:212-221 | a new XMPU has 16 fresh regions, none enabled, and no region used |
| Xmpu.Xmpu.SetMaster | assists/xlnx_pm/xmpu.py:226-232 | `set_master` sets the master of region idx and keeps its window; an index past the last region changes nothing |
| Xmpu.Xmpu.SetAddr | assists/xlnx_pm/xmpu.py:234-240 | `set_addr` sets the window of region idx and keeps its master |
| Xmpu.Xmpu.SetConfig | assists/xlnx_pm/xmpu.py:242-249 | `set_config` sets the TrustZone flag, applies `set_rw`, and keeps the enable flag and the check type |
| Xmpu.Xmpu.EnableRegion | assists/xlnx_pm/xmpu.py:251-257 | `enable_region` enables region idx and keeps its other flags, the check type included |
| Xmpu.Xmpu.CreateRegionAndEn | assists/xlnx_pm/xmpu.py:259-269 | `create_region_and_en` succeeds exactly while a region is free, then fills it with window, master and permissions, enables it, keeps its check type and advances the counter; when full it changes nothing |
| Xmpu.Xmpu.IsFilled | assists/xlnx_pm/xmpu.py:271-272 | `is_filled` holds exactly while a region is still free |
| Xmpu.Xmpu.CtrlRegAddrVal | assists/xlnx_pm/xmpu.py:274-276 | the control register sits at the base and holds the default permissions, both off |
| Xmpu.Xmpu.IenRegAddrVal | assists/xlnx_pm/xmpu.py:278-283 | the interrupt-enable register sits at base + 0x18 and holds the or of the enabled interrupts' bits |
| Xmpu.IenValueAllOn | assists/xlnx_pm/xmpu.py:27-32 | with the interrupt table as given, the enable value is 0xF |
| Xmpu.RegionBlocksDisjoint | assists/xlnx_pm/xmpu.py:188-189 | every register of a lower region lies below every register of a higher one |
| Xmpu.Mid | assists/xlnx_pm/xmpu.py:286-292 | `mid` builds the master with the table's id and mask, and a master missing from the table is an unbound-name error |
| Xmpu.MidlWords | assists/xlnx_pm/xmpu.py:62-78 | every master of the table has a word that splits back into its id and mask |
| Xmpu.InitMastersKnown | assists/xlnx_pm/xmpu.py:295-303 | the seven masters `init_masters` installs are in the table, with their ids and masks |
| Xmpu.InitMasters | assists/xlnx_pm/xmpu.py:295-303 | `init_masters` puts the PMC, PSM, PMC DMA, DAP and HSDP masters in regions 15 down to 10 and "any master" in region 0 |
| Xmpu.InitXmpu | assists/xlnx_pm/xmpu.py:306-310 | `init_xmpu` builds a fresh XMPU whose base and size join the cell pairs, and fewer than four cells is an IndexError |
| Xmpu.InitXmpuCells | assists/xlnx_pm/xmpu.py:306-308 | with 32-bit cells the base and size are the 64-bit numbers the cell pairs spell |
| YamlExpansion.EscapeChar | lopper/assists/yaml_to_dts_expansion.py:62 | `re.escape` puts a backslash before each special character and keeps every other character |
| YamlExpansion.GlobToRegex | lopper/assists/yaml_to_dts_expansion.py:52-68 | `glob_to_regex` anchors its result with `^` at the start and `$` at the end |
| YamlExpansion.StarStage | lopper/assists/yaml_to_dts_expansion.py:62-64 | replacing the escaped stars of the escaped glob turns exactly the glob's stars into `.*` |
| YamlExpansion.QuestionStage | lopper/assists/yaml_to_dts_expansion.py:64-66 | the second replacement then turns exactly the glob's question marks into `.` |
| YamlExpansion.GlobToRegexTranslates | lopper/assists/yaml_to_dts_expansion.py:52-68 | the regular expression is the anchored character-by-character translation: `*` to `.*`, `?` to `.`, every other character escaped to stand for itself |
| YamlExpansion.TranslateLiteral | lopper/assists/yaml_to_dts_expansion.py:40-68 | on a text `is_glob_pattern` rejects, the translation is plain escaping |
| YamlExpansion.LiteralGlob | lopper/assists/yaml_to_dts_expansion.py:40-68 | a name without wildcards becomes the anchored escaped name, which matches only itself |
| YamlExpansion.PlainChar | lopper/assists/yaml_to_dts_expansion.py:62 | lower-case letters, digits and `@` are not escaped |
| YamlExpansion.GlobExample | lopper/assists/yaml_to_dts_expansion.py:52-68 | `uart*` becomes `^uart.*$` |
| YamlExpansion.FilterDevices | lopper/assists/yaml_to_dts_expansion.py:166-167 | a device comprehension keeps exactly the devices the test accepts, and reading the name of an entry without one is a KeyError |
| YamlExpansion.DevNames | lopper/assists/yaml_to_dts_expansion.py:181 | the list of names has one name per device, in order, or is a KeyError when an entry has no name |
| YamlExpansion.DomainDevices | lopper/assists/yaml_to_dts_expansion.py:146-192 | `domain_devices` raises ValueError exactly for an unknown action, and ADD appends a given list to the devices |
| YamlExpansion.RemoveListExact | lopper/assists/yaml_to_dts_expansion.py:179-183 | REMOVE with a list keeps exactly the devices whose name does not appear in the list |
| YamlExpansion.GetRemovePartition | lopper/assists/yaml_to_dts_expansion.py:163-186 | GET and REMOVE with one pattern split the devices: each device is in exactly one of the two results |
| YamlExpansion.SetIf | lopper/assists/yaml_to_dts_expansion.py:589-594 | a flag that is on sets its bit, and every other bit is kept; a missing flag is passed over |
| YamlExpansion.AccessFlagBits | lopper/assists/yaml_to_dts_expansion.py:587-637 | bit k of the access flags value is set exactly when a flag that is on owns bit k: timeshare 0, allow-secure 2, read-only 4, requested 6, requested-secure 36, coherent 37, virtualized 38 |
| YamlExpansion.ModeMaskBits | lopper/assists/yaml_to_dts_expansion.py:948-972 | bit k of the cpu mode word is set exactly for secure at 31, lockstep at 30, and an exception level at bits 0 and 1 |
| YamlExpansion.Chosen | lopper/assists/yaml_to_dts_expansion.py:1163-1172 | a flag is read from the flags node when it has the property, else from the default flags node when that has it, else not at all |
| YamlExpansion.ExpandFirstWord | lopper/assists/yaml_to_dts_expansion.py:1142-1201 | the first-word pass updates word 0 in place and leaves the other words alone |
| YamlExpansion.FirstTable | lopper/assists/yaml_to_dts_expansion.py:1154-1158 | the first-word keys are allow-secure at bit 2, read-only at bit 4 and requested at bit 6, in that order |
| YamlExpansion.FirstWordBits | lopper/assists/yaml_to_dts_expansion.py:1161-1201 | the first word has bits 0 and 1 for timeshare, bit 2 unless allow-secure is [1], bit 4 unless read-only is [1], bit 6 when requested is [1], and no other bit |
| YamlExpansion.ExpandThirdWord | lopper/assists/yaml_to_dts_expansion.py:1204-1248 | the third-word pass updates word 2 in place from the seven keys and leaves the other words alone |
| YamlExpansion.ThirdTable | lopper/assists/yaml_to_dts_expansion.py:1216-1224 | the seven third-word keys own bits 0 to 6 in order |
| YamlExpansion.ThirdFoldBits | lopper/assists/yaml_to_dts_expansion.py:1226-1247 | after the first n keys, a bit is set exactly when it was set before or one of those keys counts |
| YamlExpansion.ThirdWordBits | lopper/assists/yaml_to_dts_expansion.py:1226-1247 | the third word sets bit k for the k-th key exactly when that key counts, and no other bit |
| YamlExpansion.ExpandCdoFlagsBits | lopper/assists/yaml_to_dts_expansion.py:1251-1278 | the descriptor is four words from [0, 0, 0, 0]: first and third filled in, second 0xfffff, fourth the qos |
| YamlExpansion.RequestedSecureNeedsRequested | lopper/assists/yaml_to_dts_expansion.py:1240-1245 | requested-secure is raised only together with requested, and requested is raised exactly when it is [1] |
| YamlExpansion.ThirdFoldAsWrittenAgrees | lopper/assists/yaml_to_dts_expansion.py:1226-1247 | while requested-secure is absent or [0], the third-word pass as written gives the corrected word |
| YamlExpansion.ThirdFoldAsWrittenFails | lopper/assists/yaml_to_dts_expansion.py:1240-1245 | when requested-secure is present with any other value, the pass as written fails with a NameError |
| YamlExpansion.CdoFlagsAsWritten | lopper/assists/yaml_to_dts_expansion.py:1240-1278 | as written, the descriptor fails with NameError exactly when requested-secure is given with a value other than [0], and otherwise equals the corrected descriptor |
| YamlExpansion.RequestedSecureExample | lopper/assists/yaml_to_dts_expansion.py:1240-1245 | flags with both requested and requested-secure give a NameError, where the corrected descriptor sets bit 4 of the third word |
| Baremetal.HexLen | lopper/assists/baremetalconfig_xlnx.py:101 | the number of hex digits `hex()` prints for n is the least k >= 1 with n < 16^k |
| Baremetal.HexConcatCells | lopper/assists/baremetalconfig_xlnx.py:101 | joining `hex(hi)` with the low cell printed as 8 hex digits and reading it back is hi * 2^32 + lo, for a low cell below 2^32 |
| Baremetal.FourGbFix | lopper/assists/baremetalconfig_xlnx.py:114-122 | the size becomes 4 GB exactly for a region at 0 of size 0xFFFFFFFF, or when it already is 4 GB; the address is never changed |
| Baremetal.ScanRegTwoCells | lopper/assists/baremetalconfig_xlnx.py:109-112 | with one address and one size cell, entry idx is cells 2 idx and 2 idx + 1, and an entry past the end is an IndexError |
| Baremetal.ScanRegFourCells | lopper/assists/baremetalconfig_xlnx.py:97-108 | with two address and two size cells, address and size are the 64-bit values of their cell pairs |
| Baremetal.ScanRegSizeFixed | lopper/assists/baremetalconfig_xlnx.py:91-124 | reading the address from cells [0, na) of the entry and the size from [na, na+ns) succeeds exactly when the entry lies inside the value |
| Baremetal.ScanRegFixedAgrees | lopper/assists/baremetalconfig_xlnx.py:97-108 | for two address and two size cells the corrected reading equals the reading as written |
| Baremetal.ScanRegMixedCells | lopper/assists/baremetalconfig_xlnx.py:103-107 | with two address cells and one size cell, the code as written reads a region of 0x2000 bytes at 0x1000 as 0x2000 * 2^32 + 0x2000 bytes |
| Baremetal.ScanRangesSize | lopper/assists/baremetalconfig_xlnx.py:211-229 | `scan_ranges_size` succeeds exactly on a range of at least three cells |
| Baremetal.ScanRangesCells | lopper/assists/baremetalconfig_xlnx.py:211-229 | the PCI address is cells 1:2, and the size is the last cell joined with the one before it only when the size has two cells |
| Baremetal.PciCellSize | lopper/assists/baremetalconfig_xlnx.py:262-265 | a PCI range has na + 2 ns cells, or 6 whenever the value's length is a multiple of 6 |
| Baremetal.PciSplit | lopper/assists/baremetalconfig_xlnx.py:267-269 | the split has exactly pad slots |
| Baremetal.PciSplitSlot | lopper/assists/baremetalconfig_xlnx.py:267-269 | slot i of the split is the Python slice of cs cells starting at cell i cs |
| Baremetal.PciPair | lopper/assists/baremetalconfig_xlnx.py:271-280 | the output of one slot is a pair, and it exists exactly when the slot is empty or has at least three cells |
| Baremetal.GetPciRanges | lopper/assists/baremetalconfig_xlnx.py:241-282 | the loops of `get_pci_ranges` compute the split and the pairs the specification functions define |
| Baremetal.ScanPciSlots | lopper/assists/baremetalconfig_xlnx.py:270-281 | the pair loop appends one pair per slot, as `PciPairs` defines |
| Baremetal.PciPairsErrExtends | lopper/assists/baremetalconfig_xlnx.py:270-281 | a slot that fails decides the result of every longer slot list |
| Baremetal.PciPairsShape | lopper/assists/baremetalconfig_xlnx.py:270-281 | the pairs exist exactly when every non-empty slot can be scanned; then each slot gives [0, 0] when empty and [base, base + size - 1] otherwise |
| Baremetal.PciSixCellSlots | lopper/assists/baremetalconfig_xlnx.py:264-269 | a value whose length is a multiple of 6 splits into 6-cell ranges, and a slot past its end is empty |
| Baremetal.IntrEntry | lopper/assists/baremetalconfig_xlnx.py:141-152 | one interrupt entry can be read exactly when its flags cell lies inside the value |
| Baremetal.GetInterruptProp | lopper/assists/baremetalconfig_xlnx.py:126-154 | the loop of `get_interrupt_prop` computes the words the specification function defines |
| Baremetal.IntrWordsOk | lopper/assists/baremetalconfig_xlnx.py:139-153 | while every entry's flags cell is in range, word j is read from the cells of entry j |
| Baremetal.LastEntryInRange | lopper/assists/baremetalconfig_xlnx.py:139-141 | with two or more cells per entry, the last entry's flags cell lies inside the value |
| Baremetal.InterruptThreeCells | lopper/assists/baremetalconfig_xlnx.py:139-153 | with three cells per entry, one word per entry: a PPI word when the type cell is 1, an SPI word otherwise |
| Baremetal.InterruptTwoCells | lopper/assists/baremetalconfig_xlnx.py:139-153 | with two cells per entry, one SPI word per entry |
| Baremetal.InterruptOneCell | lopper/assists/baremetalconfig_xlnx.py:139-153 | with one cell per entry, the last entry reads past the end of the value: an IndexError |
| Baremetal.PpiWordFields | lopper/assists/baremetalconfig_xlnx.py:130-150 | a PPI word holds the id in bits 11:0, the trigger in 15:12, the CPU mask in 19:16 and the PPI bit 20 |
| Baremetal.SpiWordFields | lopper/assists/baremetalconfig_xlnx.py:142-152 | an SPI word holds the id below bit 12 and the flags above it |
| Baremetal.Lookup | lopper/assists/baremetalconfig_xlnx.py:47-48 | a dictionary lookup finds a value exactly when an entry has the key, and then that entry's value |
| Baremetal.GenEntriesHas | lopper/assists/baremetalconfig_xlnx.py:45-59 | every value yielded from an entry not named key is yielded from the dictionary |
| Baremetal.Extend | lopper/assists/baremetalconfig_xlnx.py:68-72 | `extend` fails exactly on an integer, which is not iterable |
| Baremetal.ExtendAllElems | lopper/assists/baremetalconfig_xlnx.py:68-77 | extending succeeds exactly when every yielded value is iterable, and then holds the earlier elements and those of every yielded value |
| Baremetal.Dedup | lopper/assists/baremetalconfig_xlnx.py:79 | `list(set(xs))` holds the same elements as xs, each once |
| Baremetal.ExtendFrom | lopper/assists/baremetalconfig_xlnx.py:68-77 | each extend loop computes what `ExtendAll` defines |
| Baremetal.CompatList | lopper/assists/baremetalconfig_xlnx.py:62-80 | `compat_list` computes the compatible strings the specification function defines |
| Baremetal.ExtendAllAppend | lopper/assists/baremetalconfig_xlnx.py:68-77 | extending by a + b is extending by a and then by b |
| Baremetal.CompatListDistinct | lopper/assists/baremetalconfig_xlnx.py:79 | the compatible list has no duplicates |
| Baremetal.CompatContainsAddsNothing | lopper/assists/baremetalconfig_xlnx.py:74-79 | the pass over `contains` adds nothing new: the list holds exactly the enum and const strings found under the compatible schema |
| XlnxSubsystem.SubIdBits | lopper/assists/xlnx/subsystem.py:43-49 | the subsystem node id sets bits 26 to 28 of `0x1C000000` and keeps the id's bits elsewhere |
| XlnxSubsystem.SubIdSmall | lopper/assists/xlnx/subsystem.py:43-49 | an id below 2^26 is added to the base unchanged |
| XlnxSubsystem.UsageNoRestrictions | lopper/assists/xlnx/subsystem.py:92-98 | a node is unrestricted exactly when `firewallconf-default` exists and both its first cells are 0; a value too short for the cells read is an IndexError |
| XlnxSubsystem.FlagName | lopper/assists/xlnx/subsystem.py:593 | `split("::")[0]` is the longest prefix without "::", followed in the text by "::" when it is not the whole text |
| XlnxSubsystem.FlagNamePlain | lopper/assists/xlnx/subsystem.py:593 | a name without "::" is its own flag name |
| XlnxSubsystem.FlagNameSuffixed | lopper/assists/xlnx/subsystem.py:145-161 | the flag name of `a + "::" + b` is a, for a holding no "::" and not ending in ':' |
| XlnxSubsystem.PrelimFlagProcessing | lopper/assists/xlnx/subsystem.py:145-161 | `prelim_flag_processing` fails exactly when the names property is an empty list or the restriction test fails |
| XlnxSubsystem.PrelimFlagsRoundTrip | lopper/assists/xlnx/subsystem.py:145-161 | the flags name splits back into the raw name, and it carries the "::no-restrictions" suffix exactly when the node is unrestricted |
| XlnxSubsystem.FindDevice | lopper/assists/xlnx/subsystem.py:684-685 | a device lookup by node id finds the first device with that id, or none exactly when no device has it |
| XlnxSubsystem.FlagRefsEntries | lopper/assists/xlnx/subsystem.py:575-584 | with four words per name, the keys become the old keys and the names, each name maps to the words of its last occurrence, and other keys keep their words |
| XlnxSubsystem.FlagRefsShort | lopper/assists/xlnx/subsystem.py:580-582 | a flags table shorter than four words per name stops with an IndexError |
| XlnxSubsystem.ConstructFlagReferences | lopper/assists/xlnx/subsystem.py:575-584 | the loop updates only subsystem si's references, to what `FlagRefsFrom` defines |
| XlnxSubsystem.RefFor | lopper/assists/xlnx/subsystem.py:593-597 | a flags entry selects the reference of its flag name, else the "default" reference, else a KeyError |
| XlnxSubsystem.IncludeMaskBit | lopper/assists/xlnx/subsystem.py:606-615 | the flag loops set bit a for an "include" entry and bit b for an access-only entry, and keep the other bits |
| XlnxSubsystem.InclusionBits | lopper/assists/xlnx/subsystem.py:587-624 | each bit of the inclusion word records one fact: 0 device include, 1 device access, 2 other access, 3 other include, 4 own time share, 5 the other device's time share; no higher bit is set |
| XlnxSubsystem.DetermineInclusion | lopper/assists/xlnx/subsystem.py:587-624 | `determine_inclusion` computes the inclusion word the corrected specification defines |
| XlnxSubsystem.TimeshareMismatchExample | lopper/assists/xlnx/subsystem.py:599-603 | a device listed as time shared in its subsystem and not in the other gives 48 as written, where looking up the other device's own flags gives 16 |
| XlnxSubsystem.PmWord0 | lopper/assists/xlnx/subsystem.py:634-637 | word 0 keeps only bits 2 to 7 for usage 0, and is or-ed with the usage otherwise |
| XlnxSubsystem.SetDevPmReqs | lopper/assists/xlnx/subsystem.py:627-647 | `set_dev_pm_reqs` keeps the device's id and flags |
| XlnxSubsystem.SetDevPmReqsWords | lopper/assists/xlnx/subsystem.py:627-639 | the requirements are the selected reference's words with word 0 adjusted and word 1 the default aperture; it fails exactly when the device has no flags, no reference is found, or the reference is too short |
| XlnxSubsystem.UsageAtShared | lopper/assists/xlnx/subsystem.py:677-716 | one other subsystem keeps the usage or makes it 1, and only an "include" entry makes it 1 |
| XlnxSubsystem.UsageFromRange | lopper/assists/xlnx/subsystem.py:677-716 | along the loop the usage stays 1 or 2, and becomes 1 only through an "include" entry of the device or of the same device elsewhere |
| XlnxSubsystem.DeviceUsageValues | lopper/assists/xlnx/subsystem.py:674-729 | a device's usage is 0 exactly when an entry is unrestricted, 1 only when shared by include, and 2 when nothing shares it |
| XlnxSubsystem.UsageStep | lopper/assists/xlnx/subsystem.py:677-716 | one pass of the inner loop computes what `UsageAt` defines |
| XlnxSubsystem.AnyNoRestrictions | lopper/assists/xlnx/subsystem.py:718-720 | the scan finds "no-restrictions" exactly when a flags entry contains it |
| XlnxSubsystem.SharedUsage | lopper/assists/xlnx/subsystem.py:677-716 | the loop over the other subsystems computes what `UsageFrom` defines |
| XlnxSubsystem.ComputeUsage | lopper/assists/xlnx/subsystem.py:674-720 | the usage the method computes is `DeviceUsage` |
| XlnxSubsystem.PmFromEffect | lopper/assists/xlnx/subsystem.py:665-729 | the pass changes only requirement words, and when it ends without a warning every device has the default aperture in word 1 |
| XlnxSubsystem.ConstructPmReqs | lopper/assists/xlnx/subsystem.py:665-729 | `construct_pm_reqs` visits the devices subsystem by subsystem and leaves the subsystems and the outcome that `PmFrom` defines: it stops at the first warning or exception, and each device's usage comes from the corrected inclusion lookup, which reads the other subsystem's `other_device_flags[0]` where the source reads `device_flags[0]` (see Findings); `PmFromEffect` states what the pass changes |
| DomainAccess.WideIs | lopper/assists/domain_access.py:108-110 | a value has more than 8 hex digits exactly when it does not fit one 32-bit cell |
| DomainAccess.ValueCellsForm | lopper/assists/domain_access.py:106-136 | the cells of one value over n cells: none for n = 0, its high and low halves when it does not fit 32 bits, else zero padding and the value in the last cell |
| DomainAccess.ValueCellsKeep | lopper/assists/domain_access.py:106-136 | the cells written for a value read back as the value, and they are n cells for a 32-bit value and two otherwise |
| DomainAccess.AppendValueCells | lopper/assists/domain_access.py:106-119 | one inner loop of `update_mem_node` appends exactly the cells of one value |
| DomainAccess.UpdateMemNode | lopper/assists/domain_access.py:96-137 | `update_mem_node` builds the cells of every (address, size) pair in turn |
| DomainAccess.MemoryGetSizeAsWritten | lopper/assists/domain_access.py:74-95 | as written, the lookup succeeds only when no entry is read: an empty `reg` gives None, and any entry raises AttributeError |
| DomainAccess.MemoryGetSize | lopper/assists/domain_access.py:74-95 | the search loop, with a cell reader that exists, computes the size of the first entry at the address, or None |
| DomainAccess.MissingCellReader | lopper/assists/domain_access.py:83-84 | on a one-entry `reg` the lookup as written fails where the corrected one finds the size |
| DomainAccess.ReadPair | lopper/assists/domain_access.py:83-84 | the cells of one (address, size) pair read back as that address and size |
| DomainAccess.SizeOfFirstEntry | lopper/assists/domain_access.py:82-88 | the lookup returns the first entry's size when its address matches, and otherwise searches the rest |
| DomainAccess.UpdateThenGetSize | lopper/assists/domain_access.py:74-137 | looking an address up in the `reg` that `update_mem_node` wrote finds the size of the first pair with that address |
| XlnxPower.UsageKey | lopper/assists/xlnx/power.py:14-32 | the usage table has an entry exactly for the values 0 to 3, each the policy of that value |
| XlnxPower.FlagBit | lopper/assists/xlnx/power.py:55-62 | `(flags & mask) >> offset` with a one-bit mask reads that bit of flags |
| XlnxPower.UsageOf | lopper/assists/xlnx/power.py:37-40 | `usage(flags)` reports the policy whose value is the low two bits, and the lookup cannot miss |
| XlnxPower.SecurityOf | lopper/assists/xlnx/power.py:55-62 | `security(flags)` reports the requirement of bit 2 |
| XlnxPower.ReadPolicyOf | lopper/assists/xlnx/power.py:76-86 | `read_policy(flags)` reports the policy of bit 3 |
| XlnxPower.WritePolicyOf | lopper/assists/xlnx/power.py:78-92 | `write_policy(flags)` reports the policy of bit 4 |
| XlnxPower.NsregnPolicyOf | lopper/assists/xlnx/power.py:95-114 | `nsregn_policy(flags)` reports the region check of bit 5 |
| XlnxPower.PreallocPolicyOf | lopper/assists/xlnx/power.py:129-149 | `prealloc_policy(flags)` reports the preallocation policy of bit 6 |
| XlnxPower.CapabilityOf | lopper/assists/xlnx/power.py:117-126 | `capability_policy(flags)` reports the seven bits from bit 8 |
| XlnxPower.MemRegnNode | lopper/assists/xlnx/power.py:179-180 | `mem_regn_node(id)` holds exactly when the six-bit class field from bit 20 of the id is 3 |
| XlnxPower.PreallocDetailedPolicy | lopper/assists/xlnx/power.py:152-162 | the loop over the capabilities appends the name of each one whose bit is set, in order |
| XlnxPower.CapWordsEmpty | lopper/assists/xlnx/power.py:152-162 | the detailed report lists no capability exactly when none of the capability bits is set |
| XlnxPower.CapListed | lopper/assists/xlnx/power.py:152-162 | every capability whose bit is set is named in the report |
| XlnxPower.DecodePacked | lopper/assists/xlnx/power.py:37-176 | decoding a requirement packed into a flags word gives the requirement back |
| XlnxPower.PackedFields | lopper/assists/xlnx/power.py:37-149 | each field packed into the flags word reads back from its own bits |
| XlnxPower.PackDecoded | lopper/assists/xlnx/power.py:37-176 | packing what the decoders read keeps bits 0 to 6 and 8 to 14 of the flags and clears the rest, so no other bit carries a policy |
| XlnxProtections.QuadPairs | lopper/assists/xlnx/protections.py:242-246 | a property of 4-cell ranges gives one (address, size) pair per four cells |
| XlnxProtections.DuoPairs | lopper/assists/xlnx/protections.py:248-251 | a property of 2-cell ranges gives one pair per two cells |
| XlnxProtections.BaseAndSize | lopper/assists/xlnx/protections.py:222-253 | the derived ranges are empty exactly when the property is present and empty; a missing or odd-length property gives the placeholder range |
| XlnxProtections.WideValue | lopper/assists/xlnx/protections.py:244-245 | `hi << 32 \| lo` with a 32-bit low word is hi * 2^32 + lo |
| XlnxProtections.QuadPairsWide | lopper/assists/xlnx/protections.py:242-246 | pair k of a 4-cell property is read from cells 4k to 4k+3 |
| XlnxProtections.QuadPairsAt | lopper/assists/xlnx/protections.py:242-246 | with 32-bit cells, pair k is the 64-bit address and size in cells 4k to 4k+3, high word first |
| XlnxProtections.QuadRoundTrip | lopper/assists/xlnx/protections.py:242-246 | writing the 4-cell ranges back as cells gives the property back |
| XlnxProtections.DuoRoundTrip | lopper/assists/xlnx/protections.py:248-251 | writing the 2-cell ranges back as cells gives the property back |
| XlnxProtections.Priority | lopper/assists/xlnx/protections.py:277-278 | a stored priority is never 0: 0 becomes 10 and every other priority is kept |
| XlnxProtections.FirstSlot | lopper/assists/xlnx/xppu.py:234-251 | the master lookup finds the first slot that answers the query, or none exactly when no slot does |
| XlnxProtections.SlotUnique | lopper/assists/xlnx/xppu.py:234-251 | any answer meeting the lookup methods' contract is that first slot |
| XlnxProtections.MaskOverBits | lopper/assists/xlnx/protections.py:304-309 | bit k of the or-ed mask is set exactly when some query finds slot k |
| XlnxProtections.AperMaskBits | lopper/assists/xlnx/protections.py:303-311 | bit k of an entry's mask is set exactly when one of its master ids first matches slot k with the entry's rw |
| XlnxProtections.OrMasksBits | lopper/assists/xlnx/protections.py:325-328 | bit k of the or of the entries' masks is set exactly when some entry has it |
| XlnxProtections.ApertureBits | lopper/assists/xlnx/protections.py:295-344 | after `compute_aper_mask`, bit k of a subsystem's aperture is set exactly when one of its entries names a master id matching slot k |
| XlnxProtections.EntryMask | lopper/assists/xlnx/protections.py:303-309 | the innermost loop computes an entry's mask from `get_master_by_smrw` |
| XlnxProtections.MaskEntries | lopper/assists/xlnx/protections.py:302-311 | the entry loop stores every entry's mask and keeps the entries in order |
| XlnxProtections.MaskedFiled | lopper/assists/xlnx/protections.py:301-311 | computing the masks keeps every entry filed under its own subsystem, with a non-zero priority |
| XlnxProtections.SsMaskBits | lopper/assists/xlnx/protections.py:462-466 | bit k of a derived mask is set exactly when one of the subsystem's SMIDs is found in slot k |
| XlnxProtections.SmidMask | lopper/assists/xlnx/protections.py:463-466 | the inner loop of `derive_ss_mask` computes the mask the specification defines, or a TypeError when an SMID has no slot |
| XlnxProtections.ModuleNode.constructor | lopper/assists/xlnx/protections.py:165-173 | a new module has its name and properties, no cached ranges and empty entry tables |
| XlnxProtections.ModuleNode.GetBaseAndSize | lopper/assists/xlnx/protections.py:222-253 | the cached ranges are returned when there are any, whatever property is asked for; otherwise the property's ranges are computed and cached |
| XlnxProtections.ModuleNode.AddFtbEntry | lopper/assists/xlnx/protections.py:255-293 | the entry for the module's range is appended to the subsystem's list in the table `custom` selects, with priority 0 stored as 10; the other table is unchanged |
| XlnxProtections.ModuleNode.ComputeAperMask | lopper/assists/xlnx/protections.py:295-311 | every entry of the selected table gets the mask of the slots its master ids match; the other table is unchanged |
| XlnxProtections.ModuleNode.SetDefaultMaskForXppu | lopper/assists/xlnx/protections.py:313-328 | when the PMC subsystem has entries the XPPU's default mask becomes the or of their masks, and otherwise it is unchanged |
| XlnxProtections.ModuleNode.GetAperture | lopper/assists/xlnx/protections.py:330-344 | the aperture of a subsystem is the or of its entries' masks, 0 when it has none |
| XlnxProtections.MemNode.constructor | lopper/assists/xlnx/protections.py:79-85 | a new memory node has its range, no parents, no configuration and empty entry tables |
| XlnxProtections.MemNode.AddFtbEntry | lopper/assists/xlnx/protections.py:105-140 | the entry for the node's own range is appended in the table `custom` selects, with the module tag and priority 0 stored as 10 |
| XlnxProtections.MemNode.MergeConfig | lopper/assists/xlnx/protections.py:640-643 | the merge loop appends the new "allow" and "block" rules to the node's lists, or stops with a KeyError |
| XlnxProtections.FindNode | lopper/assists/xlnx/protections.py:625-629 | the search finds the first memory node with the range, or none exactly when no node has it |
| XlnxProtections.MergedMeaning | lopper/assists/xlnx/protections.py:640-643 | a merge succeeds exactly when both keys are in the new configuration and every key with rules to add is in the node's; it never drops a key or a rule |
| XlnxProtections.Smids | lopper/assists/xlnx/protections.py:455 | the SMIDs list takes the second field of every bus master, in order |
| XlnxProtections.FirewallToModuleMap.constructor | lopper/assists/xlnx/protections.py:354-363 | a new map holds the given firewalls, no subsystem and no memory node |
| XlnxProtections.FirewallToModuleMap.AddSsToBusMids | lopper/assists/xlnx/protections.py:437-445 | the bus master is appended to the subsystem's list, which is created when missing; other subsystems are unchanged |
| XlnxProtections.FirewallToModuleMap.DeriveSsMask | lopper/assists/xlnx/protections.py:447-468 | an unknown subsystem gives None; otherwise each XPPU gets the or of its slots holding the subsystem's SMIDs, or a TypeError when an SMID has no slot |
| XlnxProtections.FirewallToModuleMap.AddToMemMap | lopper/assists/xlnx/protections.py:621-645 | a new range gets a fresh memory node with the configuration and parents; a known range gets the new rules merged into its node; node ranges stay distinct |

## Left out

- Loading, syncing and exporting a tree: FDT and dtc I/O, `dt_compile` and `dt_preprocess`. These are thin wrappers over libfdt, devicetree and subprocesses.
- `LopperTree.move`: renaming a subtree is not modelled. `add` and `delete` keep the path, number, phandle and label indices consistent; `merge` does so when the incoming node is unresolved or carries the existing node's phandle.
- LopperTree.Tree.MergeInto: the path rewrite of `export` and `load` is not modelled. The model takes the incoming node's name as matching the last component of its path; when it does not, the source renames the existing node's path, which the path index does not follow.
- LopperTree.Tree.MergeInto: the label that `export` passes as a `lopper-label-*` property does not reach the node's label or the label index. `load` with no parent path also drops the node's parent link; parent links are not modelled.
- LopperTree.Tree.MergeInto: a phandle change leaves the entry of the old phandle in the phandle index, as the source does. The tree is then not consistent, so `Tree.Add` and `Tree.MergeExisting` promise consistency only when the phandle is unchanged.
- LopperTree.Tree.Add: only a node without children is added. The re-adding of a new node's saved children and `dont_sync` are not modelled.
- LopperTree.Tree.Add: the path rewrite of `load` (lopper/tree.py:2791-2793) is not modelled. When a node's name differs from the last component of its path, the source rewrites the path during `add` (lopper/tree.py:4167-4175) and indexes the node under the rewritten path. The model indexes it under the path it arrives with.
- LopperTree.Tree.Add: the branch for a node object already in the tree (lopper/tree.py:4081-4101), which moves it, is not modelled. The model requires the node to be outside the tree; moving is `LopperTree.move`, listed above.
- LopperTree.Tree.AddFresh: same gaps as `Tree.Add`. The path rewrite of `load` and the move of a node already in the tree are not modelled.
- LopperTree.Tree.Prepare: the name is completed from the path, but the path is never rewritten from the name (lopper/tree.py:4167-4175).
- LopperTree.Tree.Delete: the gate at lopper/tree.py:3950 is not modelled. The source removes a node from the indices only when its state is "resolved" and the tree is not awaiting a sync; the model removes the whole subtree whatever the nodes' state. The root a new tree starts with and every node `Tree.Add` inserts are resolved. The model does not prove that every node stays resolved until it is deleted, since the source's own writes can change a node's state.
- Base.PyInt: Python's `int` also accepts non-ASCII decimal digits; only ASCII digits are modelled. Devicetree text holds only ASCII.
- Printing and string rendering: `resolve`, `print`, the tree printer and the log output. These compute no tree state.
- Regular-expression semantics: every regex match is a parameter, as described above.
- `exec_cmd`, `filter`, the `code` and `xlate` lops and the body of `LopperProp.compare`: they evaluate generated Python.
- The option parsing of `exec_lop`: the `exec` and `code` lops split `options` into `key:value` pairs that only reach the code they run, which is outside this model.
- The node forms of `modify`: renaming, moving and deleting nodes, and `&label` phandle values. Only the property forms are modelled.
- `phandle_map` lookback fields (`[+-]digits:prop`) always end in an error here. The list they index is always empty in the source, so they raise.
- PhandleMaps.RecordsAsWritten: takes a fuel bound, because the source's record loop need not terminate (see Findings). It states nothing about runs longer than the fuel.
- PhandleMaps.Records: the model's record walk stops after any record that does not move the index forward, whether it stays put or moves backwards (a negative count). The source loop (lopper/tree.py:753-759) goes on while `value[index]` names a cell. A zero move loops forever there (see Findings); a backward move may go on to a different map. `PhandleWalks.RecordsMatchAsWritten` proves the two agree on every walk whose records all move forward.
- PhandleMaps.PhandleMapOf: built on `Records`, so on a walk with a record that moves the index backwards it ends where the source keeps walking, and the map can differ. It is exact on walks where every record moves forward (`PhandleWalks.Forward`).
- PhandleMaps.PhandleMap: proved equal to `PhandleMapOf`, so it has the same gap on walks with a backward record.
- LopperLib.CpuRefs: the refcount bump `tree.ref_all(sub_cpu_node, True)` on each selected sub-cpu and its parents is not modelled. The model returns the two lists only, so no refcount changes.
- Audit: the exclude patterns of the audits are a list parameter, not read from the tree's audit table.
- The message text of warnings and errors is not modelled; only whether one is raised, and for which node or property.
- XlnxPower: the constant tables `DEVNAME_TO_ID` and `DEVID_TO_NAME` are modelled as map constants. That they are mutual inverses is not proved: the two 77-entry maps are inverse entry by entry, but the verifier does not complete lookups into map displays this large.
- XlnxPower: capability text and hex formatting of the decoders' messages are not modelled.
- XlnxProtections: `get_parent_xmpus` is a parameter, and `add_firewall` is replaced by giving the firewalls to the constructor.
- XlnxProtections: the FTB entry and master-id records come from lopper/assists/xlnx/ftb.py, which is not part of this model. They are datatypes here, and a fresh entry's aperture mask starts at 0.
- XlnxProtections: `MemNode.compute_regions` and the other `FirewallToModuleMap` maps are not modelled. Deep copies become values, and `ModuleNode` is reduced to the property values it reads.
- XlnxSubsystem: the firewall entry `set_dev_pm_reqs` adds when `prot_enable` is set (`protections.setup_dev_ftb_entry`) and `setup_fw_apertures` are not modelled. They belong to the protections map.
- Xppu and Xmpu: fields the source stores as hex text are kept as numbers. `Xppu.H2iHex` bridges the two. The debug print of `init_instances` is dropped.
- Xppu.H2i: reads only an optional "0x" or "0X" prefix followed by hex digits. Python's `int(s, 16)` also accepts a sign, surrounding whitespace and `_` between digits; `H2i` gives ValueError for those. Every text the XPPU code reads is written by `hex`, which uses none of them.
- Baremetal: `DtbtoCStruct` and the file generators that consume these values are not modelled.
- DomainAccess: `core_domain_access` is tree glue over the two helpers and is not modelled.
- Schema: debug warnings are not modelled.
  - In path patterns, regex metacharacters other than `*` are taken literally, and `$` before a trailing newline is not modelled.
  - The conversion of the schema to definitions and the type-or-properties split are not modelled.
  - Context keys beyond three are not modelled, and a missing section is identified with an empty one.
  - The heuristic tables are a parameter of `_apply_heuristics`.

## Findings

| source | as written | input that shows it | evidently intended | confidence | as-written member | corrected member |
|---|---|---|---|---|---|---|
| lopper/tree.py:615-760 | `phandle_map` repeats its record pass until the index reaches the end of the value, even when a pass consumes no cells | property value `<7>` with descriptor `#c`, where the node's `#c` is `<0>`: each pass consumes 0 cells and the loop never ends | stop when a pass does not advance | not executed | PhandleMaps.StuckAsWritten | PhandleMaps.StuckCorrected |
| lopper/__init__.py:1643-1690 | a `conditional` lop re-adds a target to the matches when a later condition holds, after an earlier condition already moved it to the false matches | conditions `p = <1>` and `q = <1>`; target `/n` lacks `p` and has `q = <1>`: `/n` ends up in both the matches and the false matches | a target matches only when every condition holds, so the matches and false matches partition the targets | not executed | Lops.StaleMatch | Lops.IntendedMatchesPartition |
| lopper/audit.py:272-278 | without `werror` the validate wrapper calls `_error(msg)`, whose `also_exit` defaults to true, so it exits anyway | a domain with memory 0x0-0x40000000 and a reserved region 0x80000000-0x90000000, `werror` false: `SystemExit` | report the region and return the count of findings | not executed | Audit.ValidateExitsWithoutWerror | Audit.ValidateReservedMemory |
| lopper/assists/lopper_lib.py:187-195 | with a list of queries, `x` starts as None, and `None != []` is True | `is_compat(node, [])` on a node with a `compatible` property returns True | an empty query list matches nothing | not executed | LopperLib.IsCompatAsWritten | LopperLib.IsCompat |
| lopper/assists/lopper_lib.py:217-223 | `tree.pnode` returns None for an unknown phandle instead of raising, so the `except` never skips it and `subnodes(None, ...)` raises AttributeError | `cpus = <ph 1 0>` where no node has phandle `ph` | skip the unresolved cpu entry | not executed | LopperLib.UnresolvedCpuRaises | LopperLib.CpuRefs |
| lopper/assists/yaml_to_dts_expansion.py:1240-1245 | the third-word pass tests `first_keywords`, a name bound only in the first-word function, so it raises NameError | a device with `requested-secure` set to a value other than `[0]` | test the `requested` bit of the first word | not executed | YamlExpansion.CdoFlagsAsWritten | YamlExpansion.RequestedSecureNeedsRequested |
| lopper/assists/baremetalconfig_xlnx.py:103-107 | the low size cell is read at index `ns + 1`, which is right only when `na == ns == 2` | `na = 2`, `ns = 1`, `reg = <0 0x1000 0x2000>`, a region of 0x2000 bytes at 0x1000: the size is read as 0x2000 * 2^32 + 0x2000 | read the size cells that follow the address cells | not executed | Baremetal.ScanRegMixedCells | Baremetal.ScanRegSizeFixed |
| lopper/assists/xlnx/subsystem.py:599-603 | the other subsystem's timeshare name is taken from `device_flags[0]`, this subsystem's own flags | own flags `["ts"]`, other flags `["y"]`: the inclusion word is 48 and the timeshare mismatch goes unnoticed | use `other_device_flags[0]`, giving 16, which raises the mismatch warning | not executed | XlnxSubsystem.TimeshareMismatchExample | XlnxSubsystem.DetermineInclusion |
| lopper/assists/domain_access.py:83-84 | `memory_get_size` calls `lopper_lib.cell_value_get`, which lopper_lib.py does not define | any `reg` with at least one entry: AttributeError | read the cells with the audit's multi-cell reader | not executed | DomainAccess.MissingCellReader | DomainAccess.MemoryGetSize |
| lopper/schema.py:328-338 | the character loop cuts a `/* ... */` comment out of `line` at the `/` it is reading, then still appends that `/` | the line `/* x */` gives `/` | the empty line | not executed | Schema.BlockCommentLine | Schema.StripDtsComments |
| lopper/tree.py:1645-1686 | `__init__` (line 1517), `load` (2932) and `resolve` (2997) end with `self.__modified__ = False`, but `__setattr__` stores the value and then sets `__modified__` to True | any node after `LopperNode()`, `load()` or `resolve()`: `__modified__` is True, so the modified-only audit (lopper/audit.py:76-80) never skips a node | the writes clear the flag, so an untouched node is not modified | not executed | LopperTree.Node.MarkResolvedAsWritten | LopperTree.Node.MarkResolved |
