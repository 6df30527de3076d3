/** Circular partition dependencies (src/tools/tfm_parse_manifest_list.py): a depth-first search that shares one
    chain between all branches and never takes anything off it. */
module DependencyCheck {
  /** The partitions each partition depends on. */
  type Graph = seq<seq<nat>>

  ghost predicate Closed(g: Graph) {
    forall v, i | 0 <= v < |g| && 0 <= i < |g[v]| :: g[v][i] < |g|
  }

  ghost predicate Path(g: Graph, path: seq<nat>) {
    && (forall i | 0 <= i < |path| :: path[i] < |g|)
    && (forall i | 0 <= i < |path| - 1 :: path[i + 1] in g[path[i]])
  }

  /** A chain of dependencies that leads back to its start; a partition that depends on itself is one. */
  ghost predicate Cycle(g: Graph, path: seq<nat>) {
    path != [] && Path(g, path) && path[0] in g[path[|path| - 1]]
  }

  ghost predicate Cyclic(g: Graph) {
    exists path :: Cycle(g, path)
  }

  // ---- An order of validation rules out cycles -------------------------------------------------

  ghost predicate Distinct(s: seq<nat>) {
    forall i, j | 0 <= i < j < |s| :: s[i] != s[j]
  }

  /** Every partition in the list depends only on partitions before it. */
  ghost predicate Ordered(g: Graph, done: seq<nat>) {
    && Distinct(done)
    && (forall i | 0 <= i < |done| :: done[i] < |g| && forall d | d in g[done[i]] :: d in done[..i])
  }

  ghost function Rank(done: seq<nat>, v: nat): (r: nat)
    requires v in done
    ensures r < |done| && done[r] == v
  {
    var i :| 0 <= i < |done| && done[i] == v;
    i
  }

  lemma RankDrops(g: Graph, done: seq<nat>, v: nat, d: nat)
    requires Ordered(g, done) && v in done && v < |g| && d in g[v]
    ensures d in done && Rank(done, d) < Rank(done, v)
  {
    var i := Rank(done, v);
    assert d in done[..i];
    var j :| 0 <= j < i && done[..i][j] == d;
    assert done[j] == d;
  }

  lemma {:induction false} RankDropsAlong(g: Graph, done: seq<nat>, path: seq<nat>, k: nat)
    requires Ordered(g, done) && Path(g, path) && k < |path| && path[0] in done
    ensures path[k] in done && Rank(done, path[k]) <= Rank(done, path[0])
  {
    if k > 0 {
      RankDropsAlong(g, done, path, k - 1);
      assert path[k - 1 + 1] in g[path[k - 1]];
      RankDrops(g, done, path[k - 1], path[k]);
    }
  }

  /** If all partitions are in such an order, there is no cycle. */
  lemma OrderedIsAcyclic(g: Graph, done: seq<nat>)
    requires Ordered(g, done) && forall v: nat | v < |g| :: v in done
    ensures !Cyclic(g)
  {
    forall path | path != [] && Path(g, path)
      ensures path[0] !in g[path[|path| - 1]]
    {
      NeverBack(g, done, path);
    }
  }

  lemma NeverBack(g: Graph, done: seq<nat>, path: seq<nat>)
    requires Ordered(g, done) && path != [] && Path(g, path) && path[0] in done
    ensures path[0] !in g[path[|path| - 1]]
  {
    var last := |path| - 1;
    RankDropsAlong(g, done, path, last);
    if path[0] in g[path[last]] {
      RankDrops(g, done, path[last], path[0]);
    }
  }

  // ---- At most as many distinct partitions as there are ----------------------------------------

  lemma {:induction false} DistinctFits(s: seq<nat>, n: nat)
    requires Distinct(s) && forall i | 0 <= i < |s| :: s[i] < n
    ensures |s| <= n
    decreases n
  {
    if |s| == 0 {
    } else if n - 1 in s {
      var k :| 0 <= k < |s| && s[k] == n - 1;
      DistinctFits(s[..k] + s[k + 1..], n - 1);
    } else {
      assert s[0] in s && s[0] < n;
      assert forall i | 0 <= i < |s| :: s[i] in s;
      DistinctFits(s, n - 1);
    }
  }

  // ---- The search ------------------------------------------------------------------------------

  /** `stack` holds the partitions whose check is under way and `done` the validated ones, in the order of
      their validation. The chain holds the stack and, because nothing is ever taken off it, other partitions
      that are all validated. */
  ghost predicate Sound(g: Graph, validated: set<nat>, chain: seq<nat>, done: seq<nat>, stack: seq<nat>) {
    && Closed(g) && Ordered(g, done) && validated == (set v | v in done)
    && Distinct(chain) && (forall i | 0 <= i < |chain| :: chain[i] < |g|)
    && (forall v | v in chain :: v in stack || v in done)
    && (forall v | v in stack :: v in chain)
    && Path(g, stack)
  }

  lemma Enter(g: Graph, validated: set<nat>, chain: seq<nat>, done: seq<nat>, stack: seq<nat>, p: nat)
    requires Sound(g, validated, chain, done, stack) && p < |g| && p !in chain
    requires stack != [] ==> p in g[stack[|stack| - 1]]
    ensures Sound(g, validated, chain + [p], done, stack + [p])
  {
    var chain' := chain + [p];
    forall i, j | 0 <= i < j < |chain'|
      ensures chain'[i] != chain'[j]
    {
      assert chain[i] in chain;
    }
  }

  lemma OrderedGrows(g: Graph, done: seq<nat>, p: nat)
    requires Ordered(g, done) && p < |g| && p !in done && forall i | 0 <= i < |g[p]| :: g[p][i] in done
    ensures Ordered(g, done + [p])
  {
    var done' := done + [p];
    forall i | 0 <= i < |done'|
      ensures done'[i] < |g| && forall d | d in g[done'[i]] :: d in done'[..i]
    {
      assert done'[..i] == done[..i];
      if i == |done| {
        assert done[..i] == done;
      }
    }
    forall i, j | 0 <= i < j < |done'|
      ensures done'[i] != done'[j]
    {
      assert done[i] in done;
    }
  }

  lemma Leave(g: Graph, validated: set<nat>, chain: seq<nat>, done: seq<nat>, stack: seq<nat>, p: nat)
    requires Sound(g, validated, chain, done, stack + [p]) && p < |g|
    requires forall i | 0 <= i < |g[p]| :: g[p][i] in validated
    ensures Sound(g, validated + {p}, chain, if p in done then done else done + [p], stack)
  {
    if p !in done {
      OrderedGrows(g, done, p);
    }
    var stack' := stack + [p];
    assert forall i | 0 <= i < |stack| :: stack[i] == stack'[i] && stack[i] in stack';
    assert Path(g, stack);
  }

  class Checker {
    const g: Graph
    var validated: set<nat>
    var chain: seq<nat>
    ghost var done: seq<nat>      // the validated partitions in the order of their validation

    constructor (g: Graph)
      requires Closed(g)
      ensures this.g == g && validated == {} && chain == [] && done == [] && Valid([])
    {
      this.g, validated, chain, done := g, {}, [], [];
    }

    ghost predicate Valid(stack: seq<nat>)
      reads this
    {
      Sound(g, validated, chain, done, stack)
    }

    /** `validate_dependency_chain`: it returns true and the partition is validated, or there is a cycle.
        It terminates although the chain is shared, because the chain holds no partition twice. */
    method ValidateChain(p: nat, ghost stack: seq<nat>) returns (ok: bool)
      requires Valid(stack) && p < |g|
      requires stack == [] ==> chain == []
      requires stack != [] ==> p in g[stack[|stack| - 1]] && p !in validated
      modifies this
      ensures !ok ==> Cyclic(g)
      ensures ok ==> Valid(stack) && old(validated) + {p} <= validated && |old(chain)| < |chain|
      decreases |g| - |chain|
    {
      ghost var before := chain;
      chain := chain + [p];
      assert chain[..|chain| - 1] == before;
      if p in chain[..|chain| - 1] {
        BackEdge(g, stack, p);
        return false;
      }
      Enter(g, validated, before, done, stack, p);
      DistinctFits(chain, |g|);
      var i := 0;
      while i < |g[p]|
        invariant i <= |g[p]| && Valid(stack + [p]) && old(validated) <= validated && |old(chain)| < |chain|
        invariant forall j | 0 <= j < i :: g[p][j] in validated
      {
        var d := g[p][i];
        if d !in validated {
          DistinctFits(chain, |g|);
          ok := ValidateChain(d, stack + [p]);
          if !ok {
            return;
          }
        }
        i := i + 1;
      }
      Leave(g, validated, chain, done, stack, p);
      validated := validated + {p};
      done := if p in done then done else done + [p];
      ok := true;
    }

    /** `check_circular_dependency`: an error is reported exactly when the graph has a cycle. */
    method CheckCircularDependency() returns (ok: bool)
      requires Valid([]) && chain == []
      modifies this
      ensures ok <==> !Cyclic(g)
    {
      var p := 0;
      while p < |g|
        invariant p <= |g| && Valid([])
        invariant forall v: nat | v < p :: v in validated
      {
        chain := [];
        ok := ValidateChain(p, []);
        if !ok {
          return;
        }
        p := p + 1;
      }
      forall v: nat | v < |g|
        ensures v in done
      {
        assert v in validated;
      }
      OrderedIsAcyclic(g, done);
      ok := true;
    }
  }

  /** An edge from the end of a path back into it closes a cycle. */
  lemma BackEdge(g: Graph, stack: seq<nat>, p: nat)
    requires Path(g, stack) && p in stack && p in g[stack[|stack| - 1]]
    ensures Cyclic(g)
  {
    var i :| 0 <= i < |stack| && stack[i] == p;
    assert Cycle(g, stack[i..]);
  }
}
