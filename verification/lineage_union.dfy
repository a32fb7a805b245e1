/**
 * The lineage of several jobs: `Job.get_all_jobs_lineage` and
 * `RecordGroup.get_jobs_lineage` concatenate the lineages of the selected
 * jobs, keep one node per id and one edge per key (the last one, as a dict
 * comprehension does), and sort nodes by id and edges by key.
 */
module LineageUnion {
  import opened Wrappers
  import opened Schema
  import opened Ordering
  import opened Lineage

  /** `{key(x): x for x in xs}`: each key present maps to an element that has it. */
  function LastByKey<K(!new), T>(xs: seq<T>, key: T -> K): (m: map<K, T>)
    ensures forall k :: k in m <==> exists i :: 0 <= i < |xs| && key(xs[i]) == k
    ensures forall k :: k in m ==> key(m[k]) == k
  {
    if xs == [] then map[]
    else
      var init := xs[..|xs| - 1];
      var m := LastByKey(init, key);
      assert forall i :: 0 <= i < |init| ==> init[i] == xs[i];
      m[key(xs[|xs| - 1]) := xs[|xs| - 1]]
  }

  /** `x` occurs in `xs` and no later element has the same key. */
  ghost predicate IsLast<K(!new), T>(xs: seq<T>, key: T -> K, x: T)
  {
    exists i :: 0 <= i < |xs| && xs[i] == x && forall j :: i < j < |xs| ==> key(xs[j]) != key(x)
  }

  /** The dict comprehension keeps, for every key, the last element with that key. */
  lemma {:induction false} LastByKeyIsLast<K(!new), T>(xs: seq<T>, key: T -> K)
    ensures forall k :: k in LastByKey(xs, key) ==> IsLast(xs, key, LastByKey(xs, key)[k])
  {
    if xs != [] {
      var init := xs[..|xs| - 1];
      var last := xs[|xs| - 1];
      LastByKeyIsLast(init, key);
      var m := LastByKey(xs, key);
      forall k | k in m ensures IsLast(xs, key, m[k]) {
        if k == key(last) {
          assert xs[|xs| - 1] == m[k];
        } else {
          var x := LastByKey(init, key)[k];
          assert m[k] == x;
          var i :| 0 <= i < |init| && init[i] == x && forall j :: i < j < |init| ==> key(init[j]) != key(x);
          assert xs[i] == x;
          forall j | i < j < |xs| ensures key(xs[j]) != key(x) {
            if j < |init| {
              assert xs[j] == init[j];
            }
          }
        }
      }
    }
  }

  /** `[m[k] for k in ks]`. */
  function ValuesAt<K, T>(m: map<K, T>, ks: seq<K>): (r: seq<T>)
    requires forall k :: k in ks ==> k in m
    ensures |r| == |ks| && forall i :: 0 <= i < |ks| ==> r[i] == m[ks[i]]
  {
    if ks == [] then [] else [m[ks[0]]] + ValuesAt(m, ks[1..])
  }

  function NodeKey(n: Node): nat { n.id }

  function EdgeKeyOf(e: Edge): string { e.id }

  lemma NodeIdsMembers(nodes: seq<Node>)
    ensures forall id :: id in NodeIds(nodes) <==> id in IdSet(nodes)
    ensures forall id :: id in NodeIds(nodes) <==> exists i :: 0 <= i < |nodes| && NodeKey(nodes[i]) == id
  {
    forall id | id in IdSet(nodes) ensures id in NodeIds(nodes) {
      var n :| n in nodes && n.id == id;
      var i :| 0 <= i < |nodes| && nodes[i] == n;
      assert NodeIds(nodes)[i] == id;
    }
    forall id | id in NodeIds(nodes) ensures exists i :: 0 <= i < |nodes| && NodeKey(nodes[i]) == id {
      var i :| 0 <= i < |nodes| && NodeIds(nodes)[i] == id;
      assert NodeKey(nodes[i]) == id;
    }
  }

  lemma EdgeIdsMembers(edges: seq<Edge>)
    ensures forall k :: k in EdgeIds(edges) <==> exists i :: 0 <= i < |edges| && EdgeKeyOf(edges[i]) == k
  {
    forall k | k in EdgeIds(edges) ensures exists i :: 0 <= i < |edges| && EdgeKeyOf(edges[i]) == k {
      var i :| 0 <= i < |edges| && EdgeIds(edges)[i] == k;
      assert EdgeKeyOf(edges[i]) == k;
    }
  }

  /** `list({node['id']: node for node in nodes}.values())` sorted by id. */
  function UniqueNodes(nodes: seq<Node>): (r: seq<Node>)
    ensures Increasing(NodeIds(r))
    ensures forall id :: id in NodeIds(r) <==> id in NodeIds(nodes)
    ensures forall n :: n in r ==> IsLast(nodes, NodeKey, n)
  {
    var m := LastByKey(nodes, NodeKey);
    LastByKeyIsLast(nodes, NodeKey);
    NodeIdsMembers(nodes);
    var ks := SortNats(NodeIds(nodes));
    var r := ValuesAt(m, ks);
    assert NodeIds(r) == ks by {
      forall i | 0 <= i < |ks| ensures NodeIds(r)[i] == ks[i] {
        assert NodeKey(m[ks[i]]) == ks[i];
      }
    }
    r
  }

  /** `list({edge['id']: edge for edge in edges}.values())` sorted by key. */
  function UniqueEdges(edges: seq<Edge>): (r: seq<Edge>)
    ensures StrIncreasing(EdgeIds(r))
    ensures forall k :: k in EdgeIds(r) <==> k in EdgeIds(edges)
    ensures forall e :: e in r ==> IsLast(edges, EdgeKeyOf, e)
  {
    var m := LastByKey(edges, EdgeKeyOf);
    LastByKeyIsLast(edges, EdgeKeyOf);
    EdgeIdsMembers(edges);
    var ks := SortStrings(EdgeIds(edges));
    var r := ValuesAt(m, ks);
    assert EdgeIds(r) == ks by {
      forall i | 0 <= i < |ks| ensures EdgeIds(r)[i] == ks[i] {
        assert EdgeKeyOf(m[ks[i]]) == ks[i];
      }
    }
    r
  }

  lemma IsLastIn<K(!new), T>(xs: seq<T>, key: T -> K, x: T)
    requires IsLast(xs, key, x)
    ensures x in xs
  {
  }

  /** When every key is built from its endpoints, keeping one edge per key loses no edge. */
  lemma UniqueEdgesKeepsAll(edges: seq<Edge>)
    requires WellKeyed(edges)
    ensures forall e :: e in UniqueEdges(edges) <==> e in edges
  {
    var r := UniqueEdges(edges);
    forall e | e in r ensures e in edges {
      IsLastIn(edges, EdgeKeyOf, e);
    }
    forall e | e in edges ensures e in r {
      var p :| 0 <= p < |edges| && edges[p] == e;
      assert EdgeIds(edges)[p] == e.id;
      assert e.id in EdgeIds(r);
      var q :| 0 <= q < |r| && EdgeIds(r)[q] == e.id;
      var f := r[q];
      assert f in r;
      IsLastIn(edges, EdgeKeyOf, f);
      EdgeKeyInjective(e.from, e.to, f.from, f.to);
    }
  }

  /** The dedup-and-sort step applied to a lineage dictionary. */
  function Union(c: Graph): Graph
  {
    Graph(UniqueNodes(c.nodes), UniqueEdges(c.edges))
  }

  /** `ld['nodes'].extend(...)` and `ld['edges'].extend(...)` over several lineage dictionaries. */
  function Concat(ls: seq<Graph>): Graph
  {
    if ls == [] then Graph([], [])
    else
      var g := Concat(ls[..|ls| - 1]);
      Graph(g.nodes + ls[|ls| - 1].nodes, g.edges + ls[|ls| - 1].edges)
  }

  lemma {:induction false} ConcatMembers(ls: seq<Graph>)
    ensures forall n :: n in Concat(ls).nodes <==> exists i :: 0 <= i < |ls| && n in ls[i].nodes
    ensures forall e :: e in Concat(ls).edges <==> exists i :: 0 <= i < |ls| && e in ls[i].edges
  {
    if ls != [] {
      var init := ls[..|ls| - 1];
      ConcatMembers(init);
      assert forall i :: 0 <= i < |init| ==> init[i] == ls[i];
    }
  }

  /** The last node with a given id in the concatenation comes from the last dictionary that has that id. */
  lemma {:induction false} ConcatLastNode(ls: seq<Graph>, n: Node)
    requires IsLast(Concat(ls).nodes, NodeKey, n)
    ensures exists i :: 0 <= i < |ls| && n in ls[i].nodes && forall k :: i < k < |ls| ==> n.id !in IdSet(ls[k].nodes)
  {
    var init := ls[..|ls| - 1];
    var g := Concat(init);
    var l := ls[|ls| - 1];
    var c := Concat(ls);
    var p :| 0 <= p < |c.nodes| && c.nodes[p] == n && forall q :: p < q < |c.nodes| ==> NodeKey(c.nodes[q]) != NodeKey(n);
    if p >= |g.nodes| {
      assert l.nodes[p - |g.nodes|] == n;
    } else {
      assert g.nodes[p] == n;
      assert IsLast(g.nodes, NodeKey, n) by {
        forall q | p < q < |g.nodes| ensures NodeKey(g.nodes[q]) != NodeKey(n) {
          assert c.nodes[q] == g.nodes[q];
        }
      }
      assert n.id !in IdSet(l.nodes) by {
        forall m | m in l.nodes ensures m.id != n.id {
          var q :| 0 <= q < |l.nodes| && l.nodes[q] == m;
          assert c.nodes[|g.nodes| + q] == m;
        }
      }
      ConcatLastNode(init, n);
      var i :| 0 <= i < |init| && n in init[i].nodes && forall k :: i < k < |init| ==> n.id !in IdSet(init[k].nodes);
      assert init[i] == ls[i];
      forall k | i < k < |ls| ensures n.id !in IdSet(ls[k].nodes) {
        if k < |init| {
          assert init[k] == ls[k];
        }
      }
    }
  }

  /** The lineage dictionaries of `jobs`, in order. */
  function Lineages(db: Db, jobs: seq<nat>, dir: Direction): (ls: seq<Graph>)
    requires WellFormed(db) && forall j :: j in jobs ==> j in db.jobs
    ensures |ls| == |jobs| && forall i :: 0 <= i < |jobs| ==> ls[i] == LineageOf(db, jobs[i], dir)
  {
    if jobs == [] then [] else [LineageOf(db, jobs[0], dir)] + Lineages(db, jobs[1..], dir)
  }

  /** The union of the lineages of `jobs`. */
  function MergedLineage(db: Db, jobs: seq<nat>, dir: Direction): Graph
    requires WellFormed(db) && forall j :: j in jobs ==> j in db.jobs
  {
    Union(Concat(Lineages(db, jobs, dir)))
  }

  /** A job together with its ancestors. */
  ghost function Closure(db: Db, j: nat): set<nat>
    requires WellFormed(db)
  {
    {j} + Ancestors(db.inputs, j)
  }

  /**
   * The union of the lineages of `jobs`: node ids ascending, exactly the
   * selected jobs and their ancestors; edge keys ascending in `str` order,
   * and the edges exactly the oriented input links among those jobs.
   */
  lemma MergedLineageShape(db: Db, jobs: seq<nat>, dir: Direction)
    requires WellFormed(db) && forall j :: j in jobs ==> j in db.jobs
    ensures var g := MergedLineage(db, jobs, dir);
            && Increasing(NodeIds(g.nodes)) && StrIncreasing(EdgeIds(g.edges))
            && (forall id :: id in NodeIds(g.nodes) <==> exists i :: 0 <= i < |jobs| && id in Closure(db, jobs[i]))
            && (forall e :: e in g.edges <==>
                  exists i :: 0 <= i < |jobs| && e in LinkEdges(db.inputs, dir, Closure(db, jobs[i])))
  {
    MergedLineageNodes(db, jobs, dir);
    MergedLineageEdges(db, jobs, dir);
  }

  /** The facts about each lineage of `jobs` that the union lemmas use. */
  lemma LineagesShape(db: Db, jobs: seq<nat>, dir: Direction)
    requires WellFormed(db) && forall j :: j in jobs ==> j in db.jobs
    ensures var ls := Lineages(db, jobs, dir);
            forall i :: 0 <= i < |jobs| ==>
              && IdSet(ls[i].nodes) == Closure(db, jobs[i]) && WellKeyed(ls[i].edges)
              && EdgeSet(ls[i].edges) == LinkEdges(db.inputs, dir, Closure(db, jobs[i]))
  {
    var ls := Lineages(db, jobs, dir);
    forall i | 0 <= i < |jobs|
      ensures IdSet(ls[i].nodes) == Closure(db, jobs[i]) && WellKeyed(ls[i].edges)
      ensures EdgeSet(ls[i].edges) == LinkEdges(db.inputs, dir, Closure(db, jobs[i]))
    {
      LineageShape(db, jobs[i], dir);
    }
  }

  lemma MergedLineageNodes(db: Db, jobs: seq<nat>, dir: Direction)
    requires WellFormed(db) && forall j :: j in jobs ==> j in db.jobs
    ensures var g := MergedLineage(db, jobs, dir);
            forall id :: id in NodeIds(g.nodes) <==> exists i :: 0 <= i < |jobs| && id in Closure(db, jobs[i])
  {
    var ls := Lineages(db, jobs, dir);
    var c := Concat(ls);
    var g := MergedLineage(db, jobs, dir);
    ConcatMembers(ls);
    LineagesShape(db, jobs, dir);
    NodeIdsMembers(c.nodes);
    NodeIdsMembers(g.nodes);
    forall id | id in IdSet(c.nodes) ensures exists i :: 0 <= i < |jobs| && id in Closure(db, jobs[i]) {
      var n :| n in c.nodes && n.id == id;
      var i :| 0 <= i < |ls| && n in ls[i].nodes;
      assert id in IdSet(ls[i].nodes);
    }
    forall id, i | 0 <= i < |jobs| && id in Closure(db, jobs[i]) ensures id in IdSet(c.nodes) {
      var n :| n in ls[i].nodes && n.id == id;
      assert n in c.nodes;
    }
  }

  lemma MergedLineageEdges(db: Db, jobs: seq<nat>, dir: Direction)
    requires WellFormed(db) && forall j :: j in jobs ==> j in db.jobs
    ensures var g := MergedLineage(db, jobs, dir);
            forall e :: e in g.edges <==> exists i :: 0 <= i < |jobs| && e in LinkEdges(db.inputs, dir, Closure(db, jobs[i]))
  {
    var ls := Lineages(db, jobs, dir);
    var c := Concat(ls);
    ConcatMembers(ls);
    LineagesShape(db, jobs, dir);
    assert WellKeyed(c.edges);
    UniqueEdgesKeepsAll(c.edges);
    forall e | e in c.edges ensures exists i :: 0 <= i < |jobs| && e in LinkEdges(db.inputs, dir, Closure(db, jobs[i])) {
      ConcatEdgeFrom(db, jobs, dir, e);
    }
    forall e, i | 0 <= i < |jobs| && e in LinkEdges(db.inputs, dir, Closure(db, jobs[i])) ensures e in c.edges {
      assert e in EdgeSet(ls[i].edges);
    }
  }

  lemma ConcatEdgeFrom(db: Db, jobs: seq<nat>, dir: Direction, e: Edge)
    requires WellFormed(db) && forall j :: j in jobs ==> j in db.jobs
    requires e in Concat(Lineages(db, jobs, dir)).edges
    ensures exists i :: 0 <= i < |jobs| && e in LinkEdges(db.inputs, dir, Closure(db, jobs[i]))
  {
    var ls := Lineages(db, jobs, dir);
    ConcatMembers(ls);
    var i :| 0 <= i < |ls| && e in ls[i].edges;
    LineageShape(db, jobs[i], dir);
    assert e in EdgeSet(ls[i].edges);
  }

  /** `n` is the node of a job reached from `jobs[i]`, with `jobs[i]`'s status, and no later job reaches it. */
  ghost predicate NodeFrom(db: Db, jobs: seq<nat>, n: Node, i: nat)
    requires WellFormed(db)
  {
    && i < |jobs| && n.id in Closure(db, jobs[i])
    && jobs[i] in db.jobs && n.id in db.jobs && n == NodeOf(db, n.id, db.jobs[jobs[i]].status)
    && forall k :: i < k < |jobs| ==> n.id !in Closure(db, jobs[k])
  }

  /**
   * A node that occurs in several lineages keeps the version of the last job
   * processed whose lineage contains it, and so carries that job's status.
   */
  lemma MergedNodeStatus(db: Db, jobs: seq<nat>, dir: Direction)
    requires WellFormed(db) && forall j :: j in jobs ==> j in db.jobs
    ensures forall n :: n in MergedLineage(db, jobs, dir).nodes ==> exists i :: NodeFrom(db, jobs, n, i)
  {
    forall n | n in MergedLineage(db, jobs, dir).nodes ensures exists i :: NodeFrom(db, jobs, n, i) {
      MergedNodeFrom(db, jobs, dir, n);
    }
  }

  lemma MergedNodeFrom(db: Db, jobs: seq<nat>, dir: Direction, n: Node)
    requires WellFormed(db) && forall j :: j in jobs ==> j in db.jobs
    requires n in MergedLineage(db, jobs, dir).nodes
    ensures exists i :: NodeFrom(db, jobs, n, i)
  {
    var ls := Lineages(db, jobs, dir);
    ConcatLastNode(ls, n);
    var i :| 0 <= i < |ls| && n in ls[i].nodes && forall k :: i < k < |ls| ==> n.id !in IdSet(ls[k].nodes);
    forall k | i < k < |jobs| ensures n.id !in Closure(db, jobs[k]) {
      LineageShape(db, jobs[k], dir);
    }
    LineageShape(db, jobs[i], dir);
    assert n.id in IdSet(ls[i].nodes);
    assert NodeFrom(db, jobs, n, i);
  }

  /** The loop that extends the lineage dictionary with the lineage of each job, followed by the union. */
  method MergeLineages(db: Db, jobs: seq<nat>, dir: Direction) returns (g: Graph)
    requires WellFormed(db) && forall j :: j in jobs ==> j in db.jobs
    ensures g == MergedLineage(db, jobs, dir)
  {
    ghost var ls := Lineages(db, jobs, dir);
    var nodes: seq<Node> := [];
    var edges: seq<Edge> := [];
    for i := 0 to |jobs|
      invariant Graph(nodes, edges) == Concat(ls[..i])
    {
      var jl := GetLineage(db, jobs[i], dir);
      ConcatSnoc(ls, i);
      edges := edges + jl.edges;
      nodes := nodes + jl.nodes;
    }
    assert ls[..|jobs|] == ls;
    g := Union(Graph(nodes, edges));
  }

  lemma ConcatSnoc(ls: seq<Graph>, i: nat)
    requires i < |ls|
    ensures Concat(ls[..i + 1]) == Graph(Concat(ls[..i]).nodes + ls[i].nodes, Concat(ls[..i]).edges + ls[i].edges)
  {
    assert ls[..i + 1][..i] == ls[..i];
  }

  /** `Job.objects.all()`, in primary-key order: the jobs with an id below `bound`. */
  function JobIdsBelow(jobs: map<nat, Job>, bound: nat): (r: seq<nat>)
    ensures Increasing(r)
    ensures forall j :: j in r <==> j in jobs && j < bound
  {
    if bound == 0 then []
    else
      var r := JobIdsBelow(jobs, bound - 1);
      assert forall i :: 0 <= i < |r| ==> r[i] in r;
      if bound - 1 in jobs then r + [bound - 1] else r
  }

  /** The filters `get_all_jobs_lineage` applies when it builds the job query itself. */
  predicate Selected(db: Db, j: nat, org: Option<nat>, group: Option<nat>, excludeAnalysis: bool)
    requires WellFormed(db) && j in db.jobs
  {
    && (org.Some? ==> db.groups[db.jobs[j].recordGroup].organization == org.value)
    && (group.Some? ==> db.jobs[j].recordGroup == group.value)
    && (excludeAnalysis ==> db.jobs[j].jobType != AnalysisJob)
  }

  function FilterJobs(db: Db, ids: seq<nat>, org: Option<nat>, group: Option<nat>, excludeAnalysis: bool): (r: seq<nat>)
    requires WellFormed(db) && forall j :: j in ids ==> j in db.jobs
    ensures forall j :: j in r <==> j in ids && Selected(db, j, org, group, excludeAnalysis)
    ensures Increasing(ids) ==> Increasing(r)
  {
    if ids == [] then []
    else
      var rest := FilterJobs(db, ids[1..], org, group, excludeAnalysis);
      assert Increasing(ids) ==> forall i :: 0 <= i < |rest| ==> ids[0] < rest[i] by {
        if Increasing(ids) {
          forall i | 0 <= i < |rest| ensures ids[0] < rest[i] {
            assert rest[i] in ids[1..];
          }
        }
      }
      if Selected(db, ids[0], org, group, excludeAnalysis) then [ids[0]] + rest else rest
  }

  /**
   * The jobs `get_all_jobs_lineage` walks: a non-empty query set as given;
   * otherwise (an empty query set is false in Python, like none) every job,
   * in id order, that passes the organisation, record group and analysis
   * filters. `bound` exceeds every job id.
   */
  function AllJobsSelection(db: Db, bound: nat, org: Option<nat>, group: Option<nat>,
                            querySet: Option<seq<nat>>, excludeAnalysis: bool): (r: seq<nat>)
    requires WellFormed(db) && forall j :: j in db.jobs ==> j < bound
    requires querySet.Some? ==> forall j :: j in querySet.value ==> j in db.jobs
    ensures forall j :: j in r ==> j in db.jobs
    ensures querySet.Some? && |querySet.value| > 0 ==> r == querySet.value
    ensures !(querySet.Some? && |querySet.value| > 0) ==>
              Increasing(r) && forall j :: j in r <==> j in db.jobs && Selected(db, j, org, group, excludeAnalysis)
  {
    if querySet.Some? && |querySet.value| > 0 then querySet.value
    else FilterJobs(db, JobIdsBelow(db.jobs, bound), org, group, excludeAnalysis)
  }

  /** `Job.get_all_jobs_lineage`. */
  method GetAllJobsLineage(db: Db, bound: nat, org: Option<nat>, group: Option<nat>, dir: Direction,
                           querySet: Option<seq<nat>>, excludeAnalysis: bool) returns (g: Graph)
    requires WellFormed(db) && forall j :: j in db.jobs ==> j < bound
    requires querySet.Some? ==> forall j :: j in querySet.value ==> j in db.jobs
    ensures g == MergedLineage(db, AllJobsSelection(db, bound, org, group, querySet, excludeAnalysis), dir)
  {
    var jobs := AllJobsSelection(db, bound, org, group, querySet, excludeAnalysis);
    g := MergeLineages(db, jobs, dir);
  }

  function Reverse(s: seq<nat>): (r: seq<nat>)
    ensures |r| == |s| && forall i :: 0 <= i < |s| ==> r[i] == s[|s| - 1 - i]
  {
    if s == [] then [] else Reverse(s[1..]) + [s[0]]
  }

  /** `self.job_set.order_by('-id')`: the jobs of the record group, highest id first. */
  function GroupJobsDescending(db: Db, bound: nat, group: nat): (r: seq<nat>)
    requires WellFormed(db) && forall j :: j in db.jobs ==> j < bound
    ensures forall j :: j in r <==> j in db.jobs && db.jobs[j].recordGroup == group
    ensures forall i, k :: 0 <= i < k < |r| ==> r[i] > r[k]
  {
    var up := FilterJobs(db, JobIdsBelow(db.jobs, bound), None, Some(group), false);
    var r := Reverse(up);
    assert forall j :: j in r <==> j in up by {
      forall j ensures j in r <==> j in up {
        if j in up {
          var i :| 0 <= i < |up| && up[i] == j;
          assert r[|up| - 1 - i] == j;
        }
      }
    }
    r
  }

  /** `RecordGroup.get_jobs_lineage`: downstream lineages of the group's jobs, highest id first. */
  method GetJobsLineage(db: Db, bound: nat, group: nat) returns (g: Graph)
    requires WellFormed(db) && forall j :: j in db.jobs ==> j < bound
    ensures g == MergedLineage(db, GroupJobsDescending(db, bound, group), Downstream)
  {
    var jobs := GroupJobsDescending(db, bound, group);
    g := MergeLineages(db, jobs, Downstream);
  }

  /**
   * When the jobs are taken highest id first, a node reached from several of
   * them carries the status of the lowest-id job that reaches it.
   */
  lemma DescendingLineageStatus(db: Db, jobs: seq<nat>, dir: Direction)
    requires WellFormed(db) && forall j :: j in jobs ==> j in db.jobs
    requires forall i, k :: 0 <= i < k < |jobs| ==> jobs[i] > jobs[k]
    ensures forall n :: n in MergedLineage(db, jobs, dir).nodes ==> LowestReacher(db, jobs, n)
  {
    MergedNodeStatus(db, jobs, dir);
    forall n | n in MergedLineage(db, jobs, dir).nodes ensures LowestReacher(db, jobs, n) {
      var i :| NodeFrom(db, jobs, n, i);
      LowestReaching(db, jobs, n, i);
    }
  }

  /** `n` is the node of a job reached from some `j` in `jobs`, with `j`'s status, and no lower job in `jobs` reaches it. */
  ghost predicate LowestReacher(db: Db, jobs: seq<nat>, n: Node)
    requires WellFormed(db)
  {
    exists j :: j in jobs && n.id in Closure(db, j) && n.id in db.jobs && j in db.jobs
                && n == NodeOf(db, n.id, db.jobs[j].status)
                && forall k :: k in jobs && k < j ==> n.id !in Closure(db, k)
  }

  lemma LowestReaching(db: Db, jobs: seq<nat>, n: Node, i: nat)
    requires WellFormed(db) && NodeFrom(db, jobs, n, i)
    requires forall i, k :: 0 <= i < k < |jobs| ==> jobs[i] > jobs[k]
    ensures LowestReacher(db, jobs, n)
  {
    forall k | k in jobs && k < jobs[i] ensures n.id !in Closure(db, k) {
      var q :| 0 <= q < |jobs| && jobs[q] == k;
      assert i < q;
    }
    assert jobs[i] in jobs;
  }

  /** In `RecordGroup.get_jobs_lineage` a node shared by several of the group's jobs gets the status of the lowest-id one. */
  lemma GroupLineageStatus(db: Db, bound: nat, group: nat)
    requires WellFormed(db) && forall j :: j in db.jobs ==> j < bound
    ensures var jobs := GroupJobsDescending(db, bound, group);
            forall n :: n in MergedLineage(db, jobs, Downstream).nodes ==> LowestReacher(db, jobs, n)
  {
    DescendingLineageStatus(db, GroupJobsDescending(db, bound, group), Downstream);
  }
}
