/** `LopperSDT.perform_lops` of lopper/__init__.py: lop files are put in a
    run queue by the `priority` of their root node (1 to 9, 5 when there is
    none), then every lop node of every file is run in queue order, unless
    `noexec`, the recorded result of its `cond` lop or an enclosing
    conditional lop holds it back. What a lop does to the tree is outside
    this module: its boolean result is a parameter. */
module RunQueue {
  import opened Common
  import opened LopperTree
  import Lops

  // ------------------------------------------------------------ priorities

  /** `ln["priority"].value[0]` of a file's root node used as the key of
      `lops_runqueue`: no property (or no first value) falls back to 5, and
      a value that is not one of the keys 1 to 9 is the KeyError of the
      append. */
  function PriorityOf(v: Option<seq<PVal>>): (r: Result<int>)
    ensures r.Ok? ==> 1 <= r.value <= 9
    ensures r.Err? ==> r.error == KeyError
    ensures (v.None? || |v.value| == 0) ==> r == Ok(5)
    ensures v.Some? && |v.value| > 0 ==> (r.Ok? <==> v.value[0].Num? && 1 <= v.value[0].n <= 9)
  {
    if v.None? || |v.value| == 0 then Ok(5)
    else match v.value[0]
      case Num(n) => if 1 <= n <= 9 then Ok(n) else Err(KeyError)
      case Str(_) => Err(KeyError)
  }

  /** A node of a lop file, as `perform_lops` looks at it: whether it is a
      lop and a conditional lop (its `compatible` matched), its `noexec`
      and `cond` properties (None when absent), and the paths of the nodes
      below it (its `subnodes()` without itself). */
  datatype LopNode = LopNode(
    path: string, name: string, isLop: bool, isCond: bool,
    noexec: Option<seq<PVal>>, cond: Option<seq<PVal>>, below: seq<string>)

  /** A lop file: its root `priority` property and its nodes in tree
      order. */
  datatype LopFile = LopFile(priority: Option<seq<PVal>>, nodes: seq<LopNode>)

  predicate AllInRange(prs: seq<int>)
  {
    forall i :: 0 <= i < |prs| ==> 1 <= prs[i] <= 9
  }

  /** The priority of every file, or the error of the first file whose
      priority is not a queue key. */
  function Priorities(files: seq<LopFile>): (r: Result<seq<int>>)
    ensures r.Ok? ==> |r.value| == |files| && AllInRange(r.value)
    ensures r.Err? ==> r.error == KeyError
    ensures r.Ok? ==> forall i :: 0 <= i < |files| ==> PriorityOf(files[i].priority) == Ok(r.value[i])
    ensures r.Err? <==> exists i :: 0 <= i < |files| && PriorityOf(files[i].priority).Err?
    decreases |files|
  {
    if |files| == 0 then Ok([])
    else match PriorityOf(files[0].priority)
      case Err(e) => Err(e)
      case Ok(p) =>
        match Priorities(files[1..])
        case Err(e) => assert files[1..][0] == files[1]; Err(e)
        case Ok(ps) => Ok([p] + ps)
  }

  // ------------------------------------------------------------ run queue

  /** The files of priority p among the first n, in input order. */
  function Bucket(prs: seq<int>, p: int, n: nat): seq<nat>
    requires n <= |prs|
    decreases n
  {
    if n == 0 then []
    else Bucket(prs, p, n - 1) + (if prs[n - 1] == p then [n - 1] else [])
  }

  /** A bucket holds exactly the files of its priority among the first n,
      in increasing order. */
  lemma {:induction false} BucketFacts(prs: seq<int>, p: int, n: nat)
    requires n <= |prs|
    ensures forall i: nat :: i in Bucket(prs, p, n) <==> i < n && prs[i] == p
    ensures forall a, b :: 0 <= a < b < |Bucket(prs, p, n)| ==> Bucket(prs, p, n)[a] < Bucket(prs, p, n)[b]
    ensures forall a :: 0 <= a < |Bucket(prs, p, n)| ==> Bucket(prs, p, n)[a] < n
    decreases n
  {
    if n > 0 {
      BucketFacts(prs, p, n - 1);
    }
  }

  /** Buckets 1 to k, one after the other. */
  function Queue(prs: seq<int>, k: nat): seq<nat>
  {
    if k == 0 then [] else Queue(prs, k - 1) + Bucket(prs, k, |prs|)
  }

  /** `lops_runqueue` and its reading: one bucket per priority 1 to 9,
      each filled in input order, then the buckets read from 1 to 9. */
  method BuildQueue(files: seq<LopFile>) returns (r: Result<seq<nat>>)
    ensures r.Err? <==> Priorities(files).Err?
    ensures r.Err? ==> r.error == KeyError
    ensures r.Ok? ==> r.value == Queue(Priorities(files).value, 9)
  {
    var buckets := FillBuckets(files);
    if buckets.Err? {
      return Err(buckets.error);
    }
    var q: seq<nat> := [];
    var p := 1;
    while p <= 9
      invariant 1 <= p <= 10 && q == Queue(Priorities(files).value, p - 1)
    {
      q := q + buckets.value[p - 1];
      p := p + 1;
    }
    return Ok(q);
  }

  /** The first loop of `perform_lops`: each file appended to the bucket
      of its priority. */
  method FillBuckets(files: seq<LopFile>) returns (r: Result<seq<seq<nat>>>)
    ensures r.Err? <==> Priorities(files).Err?
    ensures r.Err? ==> r.error == KeyError
    ensures r.Ok? ==> |r.value| == 9
    ensures r.Ok? ==> forall p :: 1 <= p <= 9 ==> r.value[p - 1] == Bucket(Priorities(files).value, p, |files|)
  {
    var buckets: seq<seq<nat>> := [[], [], [], [], [], [], [], [], []];
    ghost var prs: seq<int> := [];
    var i := 0;
    while i < |files|
      invariant i <= |files| && |buckets| == 9 && |prs| == i
      invariant AllInRange(prs)
      invariant forall k :: 0 <= k < i ==> PriorityOf(files[k].priority) == Ok(prs[k])
      invariant forall p :: 1 <= p <= 9 ==> buckets[p - 1] == Bucket(prs, p, i)
    {
      var pr := PriorityOf(files[i].priority);
      if pr.Err? {
        PrioritiesFail(files, i);
        return Err(pr.error);
      }
      BucketsGrow(prs, pr.value, buckets, prs + [pr.value]);
      buckets := buckets[pr.value - 1 := buckets[pr.value - 1] + [i]];
      prs := prs + [pr.value];
      i := i + 1;
    }
    PrioritiesAll(files, prs);
    return Ok(buckets);
  }

  /** Adding a file of priority x to the buckets: bucket x gains it at
      the end, the others stay as they are. */
  lemma BucketsGrow(prs: seq<int>, x: int, buckets: seq<seq<nat>>, grown: seq<int>)
    requires |buckets| == 9 && 1 <= x <= 9 && grown == prs + [x]
    requires forall p :: 1 <= p <= 9 ==> buckets[p - 1] == Bucket(prs, p, |prs|)
    ensures forall p :: 1 <= p <= 9 ==>
      buckets[x - 1 := buckets[x - 1] + [|prs|]][p - 1] == Bucket(grown, p, |grown|)
  {
    forall p | 1 <= p <= 9
      ensures buckets[x - 1 := buckets[x - 1] + [|prs|]][p - 1] == Bucket(grown, p, |grown|)
    {
      var u := buckets[x - 1 := buckets[x - 1] + [|prs|]];
      BucketPrefix(prs, [x], p, |prs|);
      assert grown[|prs|] == x;
      assert Bucket(grown, p, |grown|) == Bucket(prs, p, |prs|) + (if x == p then [|prs|] else []);
      if p == x {
        assert u[p - 1] == buckets[x - 1] + [|prs|];
      } else {
        assert u[p - 1] == buckets[p - 1];
      }
    }
  }

  /** A bucket of the first n files does not look past them. */
  lemma {:induction false} BucketPrefix(prs: seq<int>, more: seq<int>, p: int, n: nat)
    requires n <= |prs|
    ensures Bucket(prs + more, p, n) == Bucket(prs, p, n)
    decreases n
  {
    if n > 0 {
      BucketPrefix(prs, more, p, n - 1);
      assert (prs + more)[n - 1] == prs[n - 1];
    }
  }

  lemma PrioritiesFail(files: seq<LopFile>, i: nat)
    requires i < |files| && PriorityOf(files[i].priority).Err?
    ensures Priorities(files).Err?
  {
  }

  lemma {:induction false} PrioritiesAll(files: seq<LopFile>, prs: seq<int>)
    requires |prs| == |files|
    requires forall k :: 0 <= k < |files| ==> PriorityOf(files[k].priority) == Ok(prs[k])
    ensures Priorities(files) == Ok(prs)
    decreases |files|
  {
    if |files| > 0 {
      PrioritiesAll(files[1..], prs[1..]);
      assert prs == [prs[0]] + prs[1..];
    }
  }

  /** The queue holds the files whose priority is at most k. */
  lemma {:induction false} QueueMembers(prs: seq<int>, k: nat)
    ensures forall i: nat :: i in Queue(prs, k) <==> i < |prs| && 1 <= prs[i] <= k
    decreases k
  {
    if k > 0 {
      QueueMembers(prs, k - 1);
      BucketFacts(prs, k, |prs|);
    }
  }

  /** The queue is ordered by priority, and by input position within a
      priority. */
  predicate Ordered(prs: seq<int>, q: seq<nat>)
  {
    forall a, b :: 0 <= a < b < |q| ==>
      (q[a] < |prs| && q[b] < |prs| && (prs[q[a]] < prs[q[b]] || (prs[q[a]] == prs[q[b]] && q[a] < q[b])))
  }

  lemma {:induction false} QueueOrdered(prs: seq<int>, k: nat)
    ensures Ordered(prs, Queue(prs, k))
    ensures forall a :: 0 <= a < |Queue(prs, k)| ==> Queue(prs, k)[a] < |prs| && 1 <= prs[Queue(prs, k)[a]] <= k
    decreases k
  {
    if k > 0 {
      QueueOrdered(prs, k - 1);
      BucketFacts(prs, k, |prs|);
      OrderedAppend(prs, Queue(prs, k - 1), Bucket(prs, k, |prs|), k);
    }
  }

  /** A bucket of a higher priority, in increasing order, extends an
      ordered queue. */
  lemma OrderedAppend(prs: seq<int>, q: seq<nat>, b: seq<nat>, k: nat)
    requires Ordered(prs, q) && k >= 1
    requires forall a :: 0 <= a < |q| ==> q[a] < |prs| && 1 <= prs[q[a]] < k
    requires forall i: nat :: i in b ==> i < |prs| && prs[i] == k
    requires forall x, y :: 0 <= x < y < |b| ==> b[x] < b[y]
    ensures Ordered(prs, q + b)
    ensures forall a :: 0 <= a < |q + b| ==> (q + b)[a] < |prs| && 1 <= prs[(q + b)[a]] <= k
  {
    var s := q + b;
    assert forall a :: 0 <= a < |b| ==> b[a] in b;
    forall x, y | 0 <= x < y < |s|
      ensures s[x] < |prs| && s[y] < |prs| && (prs[s[x]] < prs[s[y]] || (prs[s[x]] == prs[s[y]] && s[x] < s[y]))
    {
      if y < |q| {
        assert s[x] == q[x] && s[y] == q[y];
      } else if x < |q| {
        assert s[x] == q[x] && s[y] == b[y - |q|];
      } else {
        assert s[x] == b[x - |q|] && s[y] == b[y - |q|];
      }
    }
    forall a | 0 <= a < |s| ensures s[a] < |prs| && 1 <= prs[s[a]] <= k {
      if a < |q| { assert s[a] == q[a]; } else { assert s[a] == b[a - |q|] && b[a - |q|] in b; }
    }
  }

  /** The run queue is a permutation of the files: every file is in it
      exactly once. */
  lemma QueuePermutation(prs: seq<int>)
    requires AllInRange(prs)
    ensures Distinct(Queue(prs, 9))
    ensures forall i: nat :: i in Queue(prs, 9) <==> i < |prs|
  {
    QueueOrdered(prs, 9);
    QueueMembers(prs, 9);
  }

  // ------------------------------------------------------------ gating

  /** The parts of `perform_lops` that are not ours: `fdt_tree.pnode` of a
      file (the name of the node holding a phandle) and the result
      `exec_lop` returns for a lop node of a file. */
  datatype RunEnv = RunEnv(pnodeName: (nat, int) -> Option<string>, exec: (nat, string) -> bool)

  /** `lop_results[fdt_tree.pnode(f['cond'].value[0]).name]`: the result
      recorded for the lop that `cond` points at; None when any step of
      the lookup fails (the exception is swallowed). */
  function CondResult(env: RunEnv, fi: nat, f: LopNode, results: map<string, bool>): (r: Option<bool>)
    ensures r.Some? <==>
      (f.cond.Some? && |f.cond.value| > 0 && f.cond.value[0].Num?
       && env.pnodeName(fi, f.cond.value[0].n).Some?
       && env.pnodeName(fi, f.cond.value[0].n).value in results)
    ensures r.Some? ==> r.value == results[env.pnodeName(fi, f.cond.value[0].n).value]
  {
    if f.cond.Some? && |f.cond.value| > 0 && f.cond.value[0].Num? then
      match env.pnodeName(fi, f.cond.value[0].n)
      case None => None
      case Some(nm) => if nm in results then Some(results[nm]) else None
    else None
  }

  /** `noexec`: the `noexec` property, unless the `cond` lop has a
      recorded result, which then decides alone. */
  predicate NoExec(env: RunEnv, fi: nat, f: LopNode, results: map<string, bool>)
  {
    match CondResult(env, fi, f, results)
    case Some(b) => !b
    case None => Truthy(f.noexec)
  }

  /** The state of the run: the skip list of the current file, the
      results by lop node name, and the lops run, as (file, path). */
  datatype RunState = RunState(skip: seq<string>, results: map<string, bool>, ran: seq<(nat, string)>)

  /** One node of a file: a node that is not a lop is passed over; a
      conditional lop replaces the skip list with the nodes below it; a
      lop held back by `noexec` or the skip list is not run; any other is
      run and its result recorded under its name. */
  function Step(env: RunEnv, fi: nat, f: LopNode, st: RunState): (r: RunState)
  {
    if !f.isLop then st
    else
      var skip := if f.isCond then f.below else st.skip;
      if NoExec(env, fi, f, st.results) || f.path in skip then st.(skip := skip)
      else RunState(skip, st.results[f.name := env.exec(fi, f.path)], st.ran + [(fi, f.path)])
  }

  /** The nodes of one file, in tree order. */
  function RunNodes(env: RunEnv, fi: nat, nodes: seq<LopNode>, st: RunState): RunState
    decreases |nodes|
  {
    if |nodes| == 0 then st else RunNodes(env, fi, nodes[1..], Step(env, fi, nodes[0], st))
  }

  /** The files in queue order, each starting with an empty skip list. */
  function RunFiles(env: RunEnv, files: seq<LopFile>, order: seq<nat>, st: RunState): RunState
    requires forall k :: 0 <= k < |order| ==> order[k] < |files|
    decreases |order|
  {
    if |order| == 0 then st
    else RunFiles(env, files, order[1..], RunNodes(env, order[0], files[order[0]].nodes, st.(skip := [])))
  }

  /** `perform_lops` after the files are loaded: a bad priority stops it
      before any lop runs. */
  function Perform(env: RunEnv, files: seq<LopFile>): Result<RunState>
  {
    match Priorities(files)
    case Err(e) => Err(e)
    case Ok(prs) =>
      QueueOrdered(prs, 9);
      Ok(RunFiles(env, files, Queue(prs, 9), RunState([], map[], [])))
  }

  /** The run loops of `perform_lops`. */
  method PerformLops(env: RunEnv, files: seq<LopFile>) returns (r: Result<(map<string, bool>, seq<(nat, string)>)>)
    ensures r.Err? <==> Perform(env, files).Err?
    ensures r.Err? ==> r.error == Perform(env, files).error
    ensures r.Ok? ==> r.value == (Perform(env, files).value.results, Perform(env, files).value.ran)
  {
    var q := BuildQueue(files);
    if q.Err? {
      return Err(q.error);
    }
    var order := q.value;
    QueueOrdered(Priorities(files).value, 9);
    var results: map<string, bool> := map[];
    var ran: seq<(nat, string)> := [];
    ghost var goal := RunFiles(env, files, order, RunState([], map[], []));
    ghost var lastSkip: seq<string> := [];
    var k := 0;
    while k < |order|
      invariant k <= |order|
      invariant goal == RunFiles(env, files, order[k..], RunState(lastSkip, results, ran))
    {
      assert order[k..][0] == order[k] && order[k..][1..] == order[k + 1..];
      var fi := order[k];
      var nodes := files[fi].nodes;
      ghost var entry := RunState([], results, ran);
      var skip: seq<string> := [];
      var j := 0;
      assert nodes[0..] == nodes;
      while j < |nodes|
        invariant j <= |nodes|
        invariant RunNodes(env, fi, nodes, entry) == RunNodes(env, fi, nodes[j..], RunState(skip, results, ran))
      {
        assert nodes[j..][0] == nodes[j] && nodes[j..][1..] == nodes[j + 1..];
        var f := nodes[j];
        if f.isLop {
          if f.isCond {
            skip := f.below;
          }
          if !(NoExec(env, fi, f, results) || f.path in skip) {
            results := results[f.name := env.exec(fi, f.path)];
            ran := ran + [(fi, f.path)];
          }
        }
        j := j + 1;
      }
      lastSkip := skip;
      k := k + 1;
    }
    return Ok((results, ran));
  }

  // ------------------------------------------------------------ properties

  /** Whether a lop node runs: it is a lop, it is not in the skip list in
      force (its own, for a conditional lop), and its `cond` lop recorded a
      true result, or there is no such result and it has no `noexec`.
      A node that runs is recorded under its name; any other changes
      neither the results nor the lops run. */
  lemma StepRuns(env: RunEnv, fi: nat, f: LopNode, st: RunState)
    ensures var r := Step(env, fi, f, st);
      var skip := if f.isLop && f.isCond then f.below else st.skip;
      var runs := f.isLop && f.path !in skip &&
        (CondResult(env, fi, f, st.results) == Some(true)
         || (CondResult(env, fi, f, st.results).None? && !Truthy(f.noexec)));
      (runs ==> r.ran == st.ran + [(fi, f.path)] && r.results == st.results[f.name := env.exec(fi, f.path)])
      && (!runs ==> r.ran == st.ran && r.results == st.results)
  {
  }

  /** A lop with a `noexec` property runs only when its `cond` lop
      recorded a true result. */
  lemma NoexecHeldBack(env: RunEnv, fi: nat, f: LopNode, st: RunState)
    requires Truthy(f.noexec) && CondResult(env, fi, f, st.results) != Some(true)
    ensures Step(env, fi, f, st).ran == st.ran
  {
    StepRuns(env, fi, f, st);
  }

  /** b is a followed by lops of file fi only. */
  predicate Extends(a: seq<(nat, string)>, b: seq<(nat, string)>, fi: nat)
  {
    |a| <= |b| && b[..|a|] == a && forall i :: |a| <= i < |b| ==> b[i].0 == fi
  }

  lemma ExtendsTrans(a: seq<(nat, string)>, b: seq<(nat, string)>, c: seq<(nat, string)>, fi: nat)
    requires Extends(a, b, fi) && Extends(b, c, fi)
    ensures Extends(a, c, fi)
  {
    assert c[..|a|] == c[..|b|][..|a|];
  }

  /** One node appends at most itself, under its own file. */
  lemma StepAppends(env: RunEnv, fi: nat, f: LopNode, st: RunState)
    ensures Extends(st.ran, Step(env, fi, f, st).ran, fi)
  {
    var r := Step(env, fi, f, st);
    if r.ran != st.ran {
      assert r.ran == st.ran + [(fi, f.path)];
    }
  }

  /** A file's run only appends lops of that file, after the ones already
      run. */
  lemma {:induction false} RunNodesAppends(env: RunEnv, fi: nat, nodes: seq<LopNode>, st: RunState)
    ensures var r := RunNodes(env, fi, nodes, st);
      |st.ran| <= |r.ran| && r.ran[..|st.ran|] == st.ran
      && forall i :: |st.ran| <= i < |r.ran| ==> r.ran[i].0 == fi
    decreases |nodes|
  {
    if |nodes| > 0 {
      var s1 := Step(env, fi, nodes[0], st);
      StepAppends(env, fi, nodes[0], st);
      RunNodesAppends(env, fi, nodes[1..], s1);
      ExtendsTrans(st.ran, s1.ran, RunNodes(env, fi, nodes[1..], s1).ran, fi);
    }
  }

  /** Below a conditional lop: while no other conditional lop replaces
      the skip list, no node on it runs. */
  lemma {:induction false} SkipListHolds(env: RunEnv, fi: nat, nodes: seq<LopNode>, st: RunState)
    requires forall j :: 0 <= j < |nodes| ==> !(nodes[j].isLop && nodes[j].isCond)
    ensures var r := RunNodes(env, fi, nodes, st);
      r.skip == st.skip && forall i :: |st.ran| <= i < |r.ran| ==> r.ran[i].1 !in st.skip
    decreases |nodes|
  {
    if |nodes| > 0 {
      var s1 := Step(env, fi, nodes[0], st);
      StepRuns(env, fi, nodes[0], st);
      SkipListHolds(env, fi, nodes[1..], s1);
      RunNodesAppends(env, fi, nodes[1..], s1);
      var r := RunNodes(env, fi, nodes, st);
      assert r == RunNodes(env, fi, nodes[1..], s1);
      forall i | |st.ran| <= i < |r.ran| ensures r.ran[i].1 !in st.skip {
        if i < |s1.ran| {
          assert r.ran[i] == r.ran[..|s1.ran|][i] == s1.ran[i];
        }
      }
    }
  }

  /** The lops run, by the priority of their files, never go down. */
  predicate RanByPriority(prs: seq<int>, ran: seq<(nat, string)>)
  {
    forall a, b :: 0 <= a < b < |ran| ==> ran[a].0 < |prs| && ran[b].0 < |prs| && prs[ran[a].0] <= prs[ran[b].0]
  }

  /** Running the files in queue order runs the lops of lower priority
      numbers first. */
  lemma {:induction false} RunFilesByPriority(env: RunEnv, files: seq<LopFile>, prs: seq<int>, order: seq<nat>, st: RunState)
    requires |prs| == |files| && Ordered(prs, order)
    requires forall k :: 0 <= k < |order| ==> order[k] < |files|
    requires RanByPriority(prs, st.ran)
    requires forall i :: 0 <= i < |st.ran| ==> st.ran[i].0 < |prs| && (|order| > 0 ==> prs[st.ran[i].0] <= prs[order[0]])
    ensures RanByPriority(prs, RunFiles(env, files, order, st).ran)
    decreases |order|
  {
    if |order| > 0 {
      var fi := order[0];
      var s1 := RunNodes(env, fi, files[fi].nodes, st.(skip := []));
      RunNodesAppends(env, fi, files[fi].nodes, st.(skip := []));
      assert forall i :: 0 <= i < |s1.ran| ==> s1.ran[i].0 < |prs| && prs[s1.ran[i].0] <= prs[fi] by {
        forall i | 0 <= i < |s1.ran| ensures s1.ran[i].0 < |prs| && prs[s1.ran[i].0] <= prs[fi] {
          if i < |st.ran| {
            assert s1.ran[i] == s1.ran[..|st.ran|][i] == st.ran[i];
          }
        }
      }
      forall a, b | 0 <= a < b < |s1.ran|
        ensures s1.ran[a].0 < |prs| && s1.ran[b].0 < |prs| && prs[s1.ran[a].0] <= prs[s1.ran[b].0]
      {
        if b < |st.ran| {
          assert s1.ran[a] == s1.ran[..|st.ran|][a] == st.ran[a];
          assert s1.ran[b] == s1.ran[..|st.ran|][b] == st.ran[b];
        } else if a < |st.ran| {
          assert s1.ran[a] == s1.ran[..|st.ran|][a] == st.ran[a];
        }
      }
      if |order| > 1 {
        assert prs[order[0]] <= prs[order[1]];
      }
      RunFilesByPriority(env, files, prs, order[1..], s1);
    }
  }

  /** `perform_lops` runs the lops file by file in priority order. */
  lemma PerformByPriority(env: RunEnv, files: seq<LopFile>)
    requires Perform(env, files).Ok?
    ensures RanByPriority(Priorities(files).value, Perform(env, files).value.ran)
  {
    var prs := Priorities(files).value;
    QueueOrdered(prs, 9);
    RunFilesByPriority(env, files, prs, Queue(prs, 9), RunState([], map[], []));
  }
}
