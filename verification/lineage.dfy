/**
 * The lineage graph of one job: `Job.get_lineage` puts the job itself into a
 * lineage dictionary and `Job._get_parent_jobs` walks up its input edges,
 * appending a node per job not yet present and an edge per key not yet
 * present, and recursing into every input job.
 */
module Lineage {
  import opened Wrappers
  import opened Text
  import opened Schema
  import Validation

  /** The `directionality` argument: which way the edges point. */
  datatype Direction = Upstream | Downstream

  /** A node dictionary of the lineage. */
  datatype Node = Node(
    id: nat,
    name: string,
    recordGroupId: Option<nat>,
    orgId: Option<nat>,
    jobType: JobType,
    jobStatus: string,
    isValid: bool,
    deleted: bool)

  /** An edge dictionary of the lineage; `id` is `'<from>_to_<to>'`. */
  datatype Edge = Edge(id: string, from: nat, to: nat)

  /** The lineage dictionary: its `nodes` and `edges` lists. */
  datatype Graph = Graph(nodes: seq<Node>, edges: seq<Edge>)

  /**
   * The node of job `j`. The status is passed in: every node of a lineage
   * carries the status of the job the lineage was asked for. Analysis jobs
   * have no record group or organisation id.
   */
  function NodeOf(db: Db, j: nat, status: string): (n: Node)
    requires WellFormed(db) && j in db.jobs
    ensures n.id == j && n.jobStatus == status
    ensures n.name == db.jobs[j].name && n.jobType == db.jobs[j].jobType && n.deleted == db.jobs[j].deleted
    ensures n.isValid == Validation.ValidationResults(db, j).verdict
    ensures n.recordGroupId.None? <==> db.jobs[j].jobType == AnalysisJob
    ensures n.orgId.None? <==> db.jobs[j].jobType == AnalysisJob
    ensures n.recordGroupId.Some? ==>
              n.recordGroupId.value == db.jobs[j].recordGroup && n.orgId == Some(db.groups[db.jobs[j].recordGroup].organization)
  {
    var job := db.jobs[j];
    var analysis := job.jobType == AnalysisJob;
    Node(j, job.name,
         if analysis then None else Some(job.recordGroup),
         if analysis then None else Some(db.groups[job.recordGroup].organization),
         job.jobType, status, Validation.ValidationResults(db, j).verdict, job.deleted)
  }

  /** `'%s_to_%s' % (from_node, to_node)`. */
  function EdgeKey(from: nat, to: nat): string
  {
    NatToString(from) + "_to_" + NatToString(to)
  }

  /** Distinct edges get distinct keys: the first `_` ends the first number. */
  lemma EdgeKeyInjective(a: nat, b: nat, c: nat, d: nat)
    requires EdgeKey(a, b) == EdgeKey(c, d)
    ensures a == c && b == d
  {
    var sa, sb, sc, sd := NatToString(a), NatToString(b), NatToString(c), NatToString(d);
    var k := EdgeKey(a, b);
    assert k == sa + ("_to_" + sb) && k == sc + ("_to_" + sd);
    var m := if |sa| <= |sc| then |sa| else |sc|;
    assert k[m] == '_';
    assert m == |sa| && m == |sc|;
    assert sa == k[..|sa|] == sc;
    assert sb == k[|sa| + 4..] == sd;
    NatToStringInjective(a, c);
    NatToStringInjective(b, d);
  }

  /** The edge for the link from `job` to its input job `parent`. */
  function EdgeOf(dir: Direction, job: nat, parent: nat): (e: Edge)
    ensures dir == Downstream ==> e.from == parent && e.to == job
    ensures dir == Upstream ==> e.from == job && e.to == parent
    ensures e.id == EdgeKey(e.from, e.to)
  {
    match dir
    case Upstream => Edge(EdgeKey(job, parent), job, parent)
    case Downstream => Edge(EdgeKey(parent, job), parent, job)
  }

  /** `[node['id'] for node in ld['nodes']]`. */
  function NodeIds(nodes: seq<Node>): (r: seq<nat>)
    ensures |r| == |nodes| && forall i :: 0 <= i < |nodes| ==> r[i] == nodes[i].id
  {
    if nodes == [] then [] else [nodes[0].id] + NodeIds(nodes[1..])
  }

  /** `[edge['id'] for edge in ld['edges']]`. */
  function EdgeIds(edges: seq<Edge>): (r: seq<string>)
    ensures |r| == |edges| && forall i :: 0 <= i < |edges| ==> r[i] == edges[i].id
  {
    if edges == [] then [] else [edges[0].id] + EdgeIds(edges[1..])
  }

  /** Appends a node unless one with its id is present. */
  function AddNode(g: Graph, n: Node): Graph
  {
    if n.id in NodeIds(g.nodes) then g else g.(nodes := g.nodes + [n])
  }

  /** Appends an edge unless one with its key is present. */
  function AddEdge(g: Graph, e: Edge): Graph
  {
    if e.id in EdgeIds(g.edges) then g else g.(edges := g.edges + [e])
  }

  /** `self._get_parent_jobs(job, ld, directionality)`, with `status` the status of `self`. */
  function ParentWalk(db: Db, status: string, dir: Direction, job: nat, g: Graph): Graph
    requires WellFormed(db) && job in db.jobs
    decreases job, 1
  {
    LinksWalk(db, status, dir, job, InputLinks(db.inputs, job), g)
  }

  /** The loop of `_get_parent_jobs` over the input links `links` of `job`. */
  function LinksWalk(db: Db, status: string, dir: Direction, job: nat, links: seq<JobInput>, g: Graph): Graph
    requires WellFormed(db)
    requires forall l :: l in links ==> l in db.inputs && l.job == job
    decreases job, 0, |links|
  {
    if links == [] then g
    else
      var pj := links[0].inputJob;
      var g1 := AddNode(g, NodeOf(db, pj, status));
      var g2 := AddEdge(g1, EdgeOf(dir, job, pj));
      LinksWalk(db, status, dir, job, links[1..], ParentWalk(db, status, dir, pj, g2))
  }

  /** `job.get_lineage(directionality)`: the job's own node, then the walk over its ancestors. */
  function LineageOf(db: Db, job: nat, dir: Direction): Graph
    requires WellFormed(db) && job in db.jobs
  {
    var status := db.jobs[job].status;
    ParentWalk(db, status, dir, job, Graph([NodeOf(db, job, status)], []))
  }

  predicate DistinctIds(nodes: seq<Node>)
  {
    forall i, j :: 0 <= i < j < |nodes| ==> nodes[i].id != nodes[j].id
  }

  predicate DistinctKeys(edges: seq<Edge>)
  {
    forall i, j :: 0 <= i < j < |edges| ==> edges[i].id != edges[j].id
  }

  /** Every edge's key is built from its endpoints. */
  predicate WellKeyed(edges: seq<Edge>)
  {
    forall e :: e in edges ==> e.id == EdgeKey(e.from, e.to)
  }

  function IdSet(nodes: seq<Node>): set<nat>
  {
    set n | n in nodes :: n.id
  }

  function EdgeSet(edges: seq<Edge>): set<Edge>
  {
    set e | e in edges
  }

  /** Every node not in `g` is the node of its job, with status `status`. */
  ghost predicate NewNodesOf(db: Db, status: string, g: Graph, r: Graph)
    requires WellFormed(db)
  {
    forall n :: n in r.nodes ==> n in g.nodes || (n.id in db.jobs && n == NodeOf(db, n.id, status))
  }

  /** The oriented edges of the input links of the jobs in `s`. */
  ghost function LinkEdges(inputs: seq<JobInput>, dir: Direction, s: set<nat>): set<Edge>
  {
    set l | l in inputs && l.job in s :: EdgeOf(dir, l.job, l.inputJob)
  }

  /** The oriented edges of the links `links`. */
  ghost function EdgesOfLinks(dir: Direction, links: seq<JobInput>): set<Edge>
  {
    set l | l in links :: EdgeOf(dir, l.job, l.inputJob)
  }

  lemma AddNodeFacts(g: Graph, n: Node)
    ensures g.nodes <= AddNode(g, n).nodes && AddNode(g, n).edges == g.edges
    ensures IdSet(AddNode(g, n).nodes) == IdSet(g.nodes) + {n.id}
    ensures DistinctIds(g.nodes) ==> DistinctIds(AddNode(g, n).nodes)
    ensures forall m :: m in AddNode(g, n).nodes ==> m in g.nodes || m == n
  {
    if n.id in NodeIds(g.nodes) {
      var i :| 0 <= i < |g.nodes| && NodeIds(g.nodes)[i] == n.id;
      assert g.nodes[i] in g.nodes;
    }
  }

  lemma AddEdgeFacts(g: Graph, e: Edge)
    requires e.id == EdgeKey(e.from, e.to)
    ensures g.edges <= AddEdge(g, e).edges && AddEdge(g, e).nodes == g.nodes
    ensures DistinctKeys(g.edges) ==> DistinctKeys(AddEdge(g, e).edges)
    ensures WellKeyed(g.edges) ==> WellKeyed(AddEdge(g, e).edges)
    ensures WellKeyed(g.edges) ==> EdgeSet(AddEdge(g, e).edges) == EdgeSet(g.edges) + {e}
  {
    if e.id in EdgeIds(g.edges) {
      var i :| 0 <= i < |g.edges| && EdgeIds(g.edges)[i] == e.id;
      var f := g.edges[i];
      if WellKeyed(g.edges) {
        assert f in g.edges;
        EdgeKeyInjective(f.from, f.to, e.from, e.to);
        assert f == e;
      }
    }
  }

  /** The walk only appends, and every node it adds is the node of its job carrying the given status. */
  lemma {:induction false} ParentWalkAppends(db: Db, status: string, dir: Direction, job: nat, g: Graph)
    requires WellFormed(db) && job in db.jobs
    ensures Extends(db, status, g, ParentWalk(db, status, dir, job, g))
    decreases job, 1
  {
    LinksWalkAppends(db, status, dir, job, InputLinks(db.inputs, job), g);
  }

  lemma {:induction false} LinksWalkAppends(db: Db, status: string, dir: Direction, job: nat, links: seq<JobInput>, g: Graph)
    requires WellFormed(db)
    requires forall l :: l in links ==> l in db.inputs && l.job == job
    ensures Extends(db, status, g, LinksWalk(db, status, dir, job, links, g))
    decreases job, 0, |links|
  {
    if links != [] {
      var pj := links[0].inputJob;
      LinksWalkStep(db, status, dir, job, links, g);
      var g1 := AddNode(g, NodeOf(db, pj, status));
      var g2 := AddEdge(g1, EdgeOf(dir, job, pj));
      var g3 := ParentWalk(db, status, dir, pj, g2);
      var r := LinksWalk(db, status, dir, job, links[1..], g3);
      AddNodeFacts(g, NodeOf(db, pj, status));
      AddEdgeFacts(g1, EdgeOf(dir, job, pj));
      assert Extends(db, status, g, g2);
      ParentWalkAppends(db, status, dir, pj, g2);
      LinksWalkAppends(db, status, dir, job, links[1..], g3);
      ExtendsTrans(db, status, g, g2, g3);
      ExtendsTrans(db, status, g, g3, r);
    }
  }

  /** One turn of the loop over `links`: the first input job is older, and the walk and the ancestors unfold once. */
  lemma LinksWalkStep(db: Db, status: string, dir: Direction, job: nat, links: seq<JobInput>, g: Graph)
    requires WellFormed(db) && links != []
    requires forall l :: l in links ==> l in db.inputs && l.job == job
    ensures var pj := links[0].inputJob;
            && pj in db.jobs && pj < job
            && (forall l :: l in links[1..] ==> l in db.inputs && l.job == job)
            && LinksWalk(db, status, dir, job, links, g)
               == LinksWalk(db, status, dir, job, links[1..],
                            ParentWalk(db, status, dir, pj, AddEdge(AddNode(g, NodeOf(db, pj, status)), EdgeOf(dir, job, pj))))
            && AncestorsVia(db.inputs, job, links)
               == {pj} + Ancestors(db.inputs, pj) + AncestorsVia(db.inputs, job, links[1..])
  {
    assert links[0] in links;
    assert forall l :: l in links[1..] ==> l in links;
  }

  /** `r` keeps the nodes and edges of `g` in order, and every node it adds is its job's node with `status`. */
  ghost predicate Extends(db: Db, status: string, g: Graph, r: Graph)
    requires WellFormed(db)
  {
    g.nodes <= r.nodes && g.edges <= r.edges && NewNodesOf(db, status, g, r)
  }

  lemma ExtendsTrans(db: Db, status: string, g: Graph, h: Graph, k: Graph)
    requires WellFormed(db)
    requires Extends(db, status, g, h) && Extends(db, status, h, k)
    ensures Extends(db, status, g, k)
  {
  }

  /** The ids the walk adds are exactly the ancestors of the job, and it keeps node ids distinct. */
  lemma {:induction false} ParentWalkIds(db: Db, status: string, dir: Direction, job: nat, g: Graph)
    requires WellFormed(db) && job in db.jobs
    ensures var r := ParentWalk(db, status, dir, job, g);
            && IdSet(r.nodes) == IdSet(g.nodes) + Ancestors(db.inputs, job)
            && (DistinctIds(g.nodes) ==> DistinctIds(r.nodes))
    decreases job, 1
  {
    LinksWalkIds(db, status, dir, job, InputLinks(db.inputs, job), g);
  }

  lemma {:induction false} LinksWalkIds(db: Db, status: string, dir: Direction, job: nat, links: seq<JobInput>, g: Graph)
    requires WellFormed(db)
    requires forall l :: l in links ==> l in db.inputs && l.job == job
    ensures var r := LinksWalk(db, status, dir, job, links, g);
            && IdSet(r.nodes) == IdSet(g.nodes) + AncestorsVia(db.inputs, job, links)
            && (DistinctIds(g.nodes) ==> DistinctIds(r.nodes))
    decreases job, 0, |links|
  {
    if links != [] {
      var pj := links[0].inputJob;
      LinksWalkStep(db, status, dir, job, links, g);
      var g1 := AddNode(g, NodeOf(db, pj, status));
      var g2 := AddEdge(g1, EdgeOf(dir, job, pj));
      var g3 := ParentWalk(db, status, dir, pj, g2);
      var r := LinksWalk(db, status, dir, job, links[1..], g3);
      AddNodeFacts(g, NodeOf(db, pj, status));
      AddEdgeFacts(g1, EdgeOf(dir, job, pj));
      assert IdSet(g2.nodes) == IdSet(g.nodes) + {pj};
      ParentWalkIds(db, status, dir, pj, g2);
      LinksWalkIds(db, status, dir, job, links[1..], g3);
    }
  }

  /** The edges the walk adds are exactly the oriented input links of the job and of its ancestors. */
  lemma {:induction false} ParentWalkEdges(db: Db, status: string, dir: Direction, job: nat, g: Graph)
    requires WellFormed(db) && job in db.jobs
    requires WellKeyed(g.edges)
    ensures var r := ParentWalk(db, status, dir, job, g);
            && WellKeyed(r.edges)
            && (DistinctKeys(g.edges) ==> DistinctKeys(r.edges))
            && EdgeSet(r.edges) == EdgeSet(g.edges) + LinkEdges(db.inputs, dir, {job} + Ancestors(db.inputs, job))
    decreases job, 1
  {
    var links := InputLinks(db.inputs, job);
    LinksWalkEdges(db, status, dir, job, links, g);
    var a := Ancestors(db.inputs, job);
    assert EdgesOfLinks(dir, links) + LinkEdges(db.inputs, dir, a) == LinkEdges(db.inputs, dir, {job} + a) by {
      LinkEdgesUnion(db.inputs, dir, {job}, a);
      assert EdgesOfLinks(dir, links) == LinkEdges(db.inputs, dir, {job});
    }
  }

  lemma {:induction false} LinksWalkEdges(db: Db, status: string, dir: Direction, job: nat, links: seq<JobInput>, g: Graph)
    requires WellFormed(db)
    requires forall l :: l in links ==> l in db.inputs && l.job == job
    requires WellKeyed(g.edges)
    ensures var r := LinksWalk(db, status, dir, job, links, g);
            && WellKeyed(r.edges)
            && (DistinctKeys(g.edges) ==> DistinctKeys(r.edges))
            && EdgeSet(r.edges) == EdgeSet(g.edges) + EdgesOfLinks(dir, links)
                                   + LinkEdges(db.inputs, dir, AncestorsVia(db.inputs, job, links))
    decreases job, 0, |links|
  {
    if links == [] {
      assert EdgesOfLinks(dir, links) == {};
    } else {
      var pj := links[0].inputJob;
      LinksWalkStep(db, status, dir, job, links, g);
      var e := EdgeOf(dir, job, pj);
      var g1 := AddNode(g, NodeOf(db, pj, status));
      var g2 := AddEdge(g1, e);
      var g3 := ParentWalk(db, status, dir, pj, g2);
      var r := LinksWalk(db, status, dir, job, links[1..], g3);
      AddNodeFacts(g, NodeOf(db, pj, status));
      AddEdgeFacts(g1, e);
      ParentWalkEdges(db, status, dir, pj, g2);
      LinksWalkEdges(db, status, dir, job, links[1..], g3);
      var up := {pj} + Ancestors(db.inputs, pj);
      var rest := AncestorsVia(db.inputs, job, links[1..]);
      EdgesOfLinksCons(dir, links);
      LinkEdgesUnion(db.inputs, dir, up, rest);
      UnionSteps(EdgeSet(g.edges), e, EdgeSet(g2.edges), LinkEdges(db.inputs, dir, up), EdgeSet(g3.edges),
                 EdgesOfLinks(dir, links[1..]), LinkEdges(db.inputs, dir, rest), EdgeSet(r.edges));
    }
  }

  lemma EdgesOfLinksCons(dir: Direction, links: seq<JobInput>)
    requires links != []
    ensures EdgesOfLinks(dir, links) == {EdgeOf(dir, links[0].job, links[0].inputJob)} + EdgesOfLinks(dir, links[1..])
  {
    assert forall l :: l in links <==> l == links[0] || l in links[1..];
  }

  lemma UnionSteps<T>(g: set<T>, e: T, g2: set<T>, up: set<T>, g3: set<T>, links: set<T>, rest: set<T>, r: set<T>)
    requires g2 == g + {e} && g3 == g2 + up && r == g3 + links + rest
    ensures r == g + ({e} + links) + (up + rest)
  {
  }

  lemma LinkEdgesUnion(inputs: seq<JobInput>, dir: Direction, s: set<nat>, t: set<nat>)
    ensures LinkEdges(inputs, dir, s + t) == LinkEdges(inputs, dir, s) + LinkEdges(inputs, dir, t)
  {
  }

  /**
   * The lineage of a job: its node first, node ids distinct and exactly the
   * job and its ancestors, every node carrying the job's own status, edge keys
   * distinct, and the edges exactly the oriented input links among those jobs.
   */
  lemma LineageShape(db: Db, job: nat, dir: Direction)
    requires WellFormed(db) && job in db.jobs
    ensures var g := LineageOf(db, job, dir);
            var status := db.jobs[job].status;
            && |g.nodes| > 0 && g.nodes[0] == NodeOf(db, job, status)
            && DistinctIds(g.nodes)
            && IdSet(g.nodes) == {job} + Ancestors(db.inputs, job)
            && (forall n :: n in g.nodes ==> n.id in db.jobs && n == NodeOf(db, n.id, status))
            && DistinctKeys(g.edges) && WellKeyed(g.edges)
            && EdgeSet(g.edges) == LinkEdges(db.inputs, dir, {job} + Ancestors(db.inputs, job))
  {
    var status := db.jobs[job].status;
    var g0 := Graph([NodeOf(db, job, status)], []);
    assert IdSet(g0.nodes) == {job};
    assert EdgeSet(g0.edges) == {};
    ParentWalkAppends(db, status, dir, job, g0);
    ParentWalkIds(db, status, dir, job, g0);
    ParentWalkEdges(db, status, dir, job, g0);
  }

  /** Every node of a lineage reports the status of the job the lineage was asked for. */
  lemma LineageNodesCarrySeedStatus(db: Db, job: nat, dir: Direction)
    requires WellFormed(db) && job in db.jobs
    ensures forall n :: n in LineageOf(db, job, dir).nodes ==> n.jobStatus == db.jobs[job].status
    ensures forall n :: n in LineageOf(db, job, dir).nodes ==>
              n.id in db.jobs && (n.recordGroupId.None? && n.orgId.None? <==> db.jobs[n.id].jobType == AnalysisJob)
  {
    LineageShape(db, job, dir);
  }

  /** In a downstream lineage every edge points from an input job to the job that reads it; upstream the other way. */
  lemma LineageOrientation(db: Db, job: nat, dir: Direction)
    requires WellFormed(db) && job in db.jobs
    ensures forall e :: e in LineageOf(db, job, dir).edges ==>
              exists l :: l in db.inputs
                          && (dir == Downstream ==> e.from == l.inputJob && e.to == l.job)
                          && (dir == Upstream ==> e.from == l.job && e.to == l.inputJob)
                          && e.id == EdgeKey(e.from, e.to)
  {
    LineageShape(db, job, dir);
    var g := LineageOf(db, job, dir);
    forall e | e in g.edges
      ensures exists l :: l in db.inputs
                          && (dir == Downstream ==> e.from == l.inputJob && e.to == l.job)
                          && (dir == Upstream ==> e.from == l.job && e.to == l.inputJob)
                          && e.id == EdgeKey(e.from, e.to)
    {
      assert e in EdgeSet(g.edges);
      var l :| l in db.inputs && l.job in {job} + Ancestors(db.inputs, job) && e == EdgeOf(dir, l.job, l.inputJob);
    }
  }

  /** The lineage dictionary that `_get_parent_jobs` appends to while it recurses. */
  class LineageDict {
    var nodes: seq<Node>
    var edges: seq<Edge>

    constructor (seed: Node)
      ensures nodes == [seed] && edges == []
    {
      nodes := [seed];
      edges := [];
    }

    function Current(): Graph
      reads this
    {
      Graph(nodes, edges)
    }
  }

  /**
   * `Job._get_parent_jobs`: for each input link of `job`, in table order,
   * appends the input job's node and the link's edge unless already present,
   * then recurses into the input job.
   */
  method GetParentJobs(db: Db, status: string, dir: Direction, job: nat, ld: LineageDict)
    requires WellFormed(db) && job in db.jobs
    modifies ld
    ensures ld.Current() == ParentWalk(db, status, dir, job, old(ld.Current()))
    decreases job
  {
    var links := InputLinks(db.inputs, job);
    var i := 0;
    while i < |links|
      invariant 0 <= i <= |links|
      invariant LinksWalk(db, status, dir, job, links[i..], ld.Current()) == ParentWalk(db, status, dir, job, old(ld.Current()))
    {
      assert links[i] in links;
      var pj := links[i].inputJob;
      if pj !in NodeIds(ld.nodes) {
        ld.nodes := ld.nodes + [NodeOf(db, pj, status)];
      }
      var e := EdgeOf(dir, job, pj);
      if e.id !in EdgeIds(ld.edges) {
        ld.edges := ld.edges + [e];
      }
      assert links[i..][1..] == links[i + 1..];
      GetParentJobs(db, status, dir, pj, ld);
      i := i + 1;
    }
  }

  /** `Job.get_lineage`. */
  method GetLineage(db: Db, job: nat, dir: Direction) returns (g: Graph)
    requires WellFormed(db) && job in db.jobs
    ensures g == LineageOf(db, job, dir)
  {
    var status := db.jobs[job].status;
    var ld := new LineageDict(NodeOf(db, job, status));
    GetParentJobs(db, status, dir, job, ld);
    g := ld.Current();
  }
}
