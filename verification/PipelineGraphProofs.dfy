/** The generated graph preserves the config, and its layout never overlaps. */
module PipelineGraphProofs {
  import opened PipelineGraph

  // ---- layout ------------------------------------------------------------------------------

  lemma {:induction false} BoxAt(k: Kind, t: string, names: seq<string>, x: int, dx: int, y: int, dy: int, i: nat)
    requires i < |names|
    ensures Boxes(k, t, names, x, dx, y, dy)[i] == Box(NodeId(k, t, names[i]), k, names[i], x + i * dx, y + i * dy)
    decreases |names|
  {
    if i < |names| - 1 {
      BoxAt(k, t, names[..|names| - 1], x, dx, y, dy, i);
    }
  }

  /** A box lies inside the section that starts at `y`, at least 100 below its top and 60 above its
      bottom, and between its left and right edges. */
  predicate Inside(p: Pipeline, y: int, n: Node)
  {
    && n.Box? && y + 100 <= n.y && n.y + NODE_HEIGHT + 60 <= y + SectionHeight(p)
    && 50 <= n.x <= 50 + SectionWidth(p) - 300
  }

  lemma ReceiversInside(t: string, p: Pipeline, y: int, i: nat)
    requires i < |p.receivers|
    ensures Inside(p, y, ReceiverBoxes(t, p, y)[i])
    ensures ReceiverBoxes(t, p, y)[i].x == 100
    ensures forall j :: 0 <= j < i ==>
                          && ReceiverBoxes(t, p, y)[j].Box?
                          && ReceiverBoxes(t, p, y)[j].y + NODE_HEIGHT <= ReceiverBoxes(t, p, y)[i].y
  {
    var start := ColumnStart(y, SectionHeight(p), |p.receivers|);
    forall j | 0 <= j <= i
      ensures ReceiverBoxes(t, p, y)[j].Box? && ReceiverBoxes(t, p, y)[j].y == start + j * SPACING
    {
      BoxAt(Receiver, t, p.receivers, 100, 0, start, SPACING, j);
    }
    BoxAt(Receiver, t, p.receivers, 100, 0, start, SPACING, i);
  }

  lemma ExportersInside(t: string, p: Pipeline, y: int, i: nat)
    requires i < |p.exporters|
    ensures Inside(p, y, ExporterBoxes(t, p, y)[i])
    ensures ExporterBoxes(t, p, y)[i].x == ExporterX(p)
    ensures forall j :: 0 <= j < i ==>
                          && ExporterBoxes(t, p, y)[j].Box?
                          && ExporterBoxes(t, p, y)[j].y + NODE_HEIGHT <= ExporterBoxes(t, p, y)[i].y
  {
    var start := ColumnStart(y, SectionHeight(p), |p.exporters|);
    forall j | 0 <= j <= i
      ensures ExporterBoxes(t, p, y)[j].Box? && ExporterBoxes(t, p, y)[j].y == start + j * SPACING
    {
      BoxAt(Exporter, t, p.exporters, ExporterX(p), 0, start, SPACING, j);
    }
    BoxAt(Exporter, t, p.exporters, ExporterX(p), 0, start, SPACING, i);
  }

  /** Processors stand in a row between the receivers and the exporters. */
  lemma ProcessorsInside(t: string, p: Pipeline, y: int, i: nat)
    requires i < |p.processors|
    ensures Inside(p, y, ProcessorBoxes(t, p, y)[i])
    ensures 350 <= ProcessorBoxes(t, p, y)[i].x <= ExporterX(p) - 250
    ensures forall j :: 0 <= j < i ==>
                          && ProcessorBoxes(t, p, y)[j].Box?
                          && ProcessorBoxes(t, p, y)[j].x + 220 <= ProcessorBoxes(t, p, y)[i].x
  {
    var row := y + SectionHeight(p) / 2 - 30;
    forall j | 0 <= j <= i ensures ProcessorBoxes(t, p, y)[j].Box? && ProcessorBoxes(t, p, y)[j].x == 350 + j * 220 {
      BoxAt(Processor, t, p.processors, 350, 220, row, 0, j);
    }
    BoxAt(Processor, t, p.processors, 350, 220, row, 0, i);
  }

  lemma {:induction false} OffsetsGrow(ps: seq<Pipeline>, i: nat, j: nat)
    requires i < j <= |ps|
    ensures Offset(ps[..i]) + SectionHeight(ps[i]) + GAP <= Offset(ps[..j])
    decreases j
  {
    assert ps[..j][..j - 1] == ps[..j - 1];
    if i < j - 1 {
      OffsetsGrow(ps, i, j - 1);
    }
  }

  lemma {:induction false} NodeOrigin(lower: string -> string, ps: seq<Pipeline>, n: Node) returns (i: nat)
    requires n in Nodes(lower, ps)
    ensures i < |ps| && n in PipelineNodes(lower(ps[i].name), ps[i], Offset(ps[..i]))
    decreases |ps|
  {
    var m := |ps| - 1;
    if n in Nodes(lower, ps[..m]) {
      i := NodeOrigin(lower, ps[..m], n);
      assert ps[..m][..i] == ps[..i];
    } else {
      i := m;
    }
  }

  lemma {:induction false} PrefixNodes(lower: string -> string, ps: seq<Pipeline>, k: nat, n: Node)
    requires k <= |ps| && n in Nodes(lower, ps[..k])
    ensures n in Nodes(lower, ps)
    decreases |ps|
  {
    if k == |ps| {
      assert ps[..k] == ps;
    } else {
      assert ps[..|ps| - 1][..k] == ps[..k];
      PrefixNodes(lower, ps[..|ps| - 1], k, n);
    }
  }

  lemma NodeKept(lower: string -> string, ps: seq<Pipeline>, i: nat, n: Node)
    requires i < |ps| && n in PipelineNodes(lower(ps[i].name), ps[i], Offset(ps[..i]))
    ensures n in Nodes(lower, ps)
  {
    assert ps[..i + 1][..i] == ps[..i];
    assert n in Nodes(lower, ps[..i + 1]);
    PrefixNodes(lower, ps, i + 1, n);
  }

  /** For any pipelines and components: every node of the graph is a section of its pipeline or a box
      inside that section, and a later section begins at least 40 below an earlier one. */
  lemma LayoutIsSound(lower: string -> string, ps: seq<Pipeline>, n: Node)
    requires n in Nodes(lower, ps)
    ensures exists i :: 0 <= i < |ps| && (n == SectionOf(ps[i], Offset(ps[..i])) || Inside(ps[i], Offset(ps[..i]), n))
    ensures forall i, j :: 0 <= i < j < |ps| ==> Offset(ps[..i]) + SectionHeight(ps[i]) + GAP <= Offset(ps[..j])
  {
    forall i, j | 0 <= i < j < |ps| ensures Offset(ps[..i]) + SectionHeight(ps[i]) + GAP <= Offset(ps[..j]) {
      OffsetsGrow(ps, i, j);
    }
    var i := NodeOrigin(lower, ps, n);
    NodeInside(lower(ps[i].name), ps[i], Offset(ps[..i]), n);
  }

  lemma NodeInside(t: string, p: Pipeline, y: int, n: Node)
    requires n in PipelineNodes(t, p, y)
    ensures n == SectionOf(p, y) || Inside(p, y, n)
  {
    if n in ReceiverBoxes(t, p, y) {
      var i :| 0 <= i < |p.receivers| && ReceiverBoxes(t, p, y)[i] == n;
      ReceiversInside(t, p, y, i);
    } else if n in ProcessorBoxes(t, p, y) {
      var i :| 0 <= i < |p.processors| && ProcessorBoxes(t, p, y)[i] == n;
      ProcessorsInside(t, p, y, i);
    } else if n in ExporterBoxes(t, p, y) {
      var i :| 0 <= i < |p.exporters| && ExporterBoxes(t, p, y)[i] == n;
      ExportersInside(t, p, y, i);
    }
  }

  // ---- node ids are unambiguous ------------------------------------------------------------

  lemma {:induction false} CutAtDash(t: string, n: string, u: string, m: string)
    requires '-' !in t && '-' !in u && t + "-" + n == u + "-" + m
    ensures t == u && n == m
  {
    assert (t + "-" + n)[0] == if t == "" then '-' else t[0];
    assert (u + "-" + m)[0] == if u == "" then '-' else u[0];
    if t == "" {
      assert n == (t + "-" + n)[1..] && m == (u + "-" + m)[1..];
    } else {
      assert t[1..] + "-" + n == (t + "-" + n)[1..] && u[1..] + "-" + m == (u + "-" + m)[1..];
      CutAtDash(t[1..], n, u[1..], m);
    }
  }

  lemma KindNames(k: Kind)
    ensures KindName(k) != "" && '-' !in KindName(k)
    ensures KindName(k)[0] == match k case Receiver => 'r' case Processor => 'p' case Exporter => 'e'
  {
  }

  datatype Place = Place(kind: Kind, name: string)

  function Id(t: string, a: Place): string
  {
    NodeId(a.kind, t, a.name)
  }

  /** Names whose ids can coincide: equal ones, and a name that continues the other one after a dash. */
  predicate Collide(t: string, u: string)
  {
    t == u || t + "-" <= u || u + "-" <= t
  }

  lemma ShorterName(t: string, n: string, u: string, m: string)
    requires t + "-" + n == u + "-" + m && |t| < |u|
    ensures t + "-" <= u
  {
    var s := u + "-" + m;
    assert s[..|u|] == u;
    assert (t + "-" + n)[..|t| + 1] == t + "-";
    assert s[..|u|][..|t| + 1] == s[..|t| + 1];
  }

  lemma CoincidingIds(t: string, a: Place, u: string, b: Place)
    requires Id(t, a) == Id(u, b)
    ensures a.kind == b.kind && Collide(t, u) && (t == u ==> a == b)
  {
    KindNames(a.kind);
    KindNames(b.kind);
    var k, l := KindName(a.kind), KindName(b.kind);
    assert Id(t, a) == k + "-" + (t + "-" + a.name);
    assert Id(u, b) == l + "-" + (u + "-" + b.name);
    CutAtDash(k, t + "-" + a.name, l, u + "-" + b.name);
    if |t| == |u| {
      assert (t + "-" + a.name)[..|t|] == t && (u + "-" + b.name)[..|u|] == u;
      assert (t + "-" + a.name)[|t| + 1..] == a.name && (u + "-" + b.name)[|u| + 1..] == b.name;
    } else if |t| < |u| {
      ShorterName(t, a.name, u, b.name);
    } else {
      ShorterName(u, b.name, t, a.name);
    }
  }

  /** Unless their names collide, ids of two pipelines differ, and an id determines kind and
      component. */
  lemma IdsAreInjective(t: string, a: Place, u: string, b: Place)
    requires (t == u || !Collide(t, u)) && Id(t, a) == Id(u, b)
    ensures t == u && a == b
  {
    CoincidingIds(t, a, u, b);
  }

  lemma ContinuedName(t: string, u: string) returns (a: Place, b: Place)
    requires t + "-" <= u
    ensures Id(t, a) == Id(u, b) && a.name != "" && b.name != ""
  {
    var m := u[|t| + 1..];
    assert u == t + "-" + m;
    a, b := Place(Receiver, m + "-" + "x"), Place(Receiver, "x");
    var k := KindName(Receiver);
    assert u + "-" + b.name == t + "-" + a.name;
    assert Id(t, a) == k + "-" + (t + "-" + a.name);
    assert Id(u, b) == k + "-" + (u + "-" + b.name);
  }

  ghost predicate ShareAnId(t: string, u: string)
  {
    exists a: Place, b: Place :: Id(t, a) == Id(u, b) && a.name != "" && b.name != ""
  }

  /** Some components of two pipelines get the same id exactly when the names collide. */
  lemma IdsCoincideExactlyWhen(t: string, u: string)
    ensures ShareAnId(t, u) <==> Collide(t, u)
  {
    if ShareAnId(t, u) {
      var a, b :| Id(t, a) == Id(u, b) && a.name != "" && b.name != "";
      CoincidingIds(t, a, u, b);
    }
    if t == u {
      assert Id(t, Place(Receiver, "x")) == Id(u, Place(Receiver, "x"));
    } else if t + "-" <= u {
      var a, b := ContinuedName(t, u);
    } else if u + "-" <= t {
      var b, a := ContinuedName(u, t);
      assert Id(t, a) == Id(u, b);
    }
  }

  // ---- edges are the links of the pipelines ------------------------------------------------

  /** What a pipeline means: receivers feed the first processor, processors feed the next one, the
      last one feeds the exporters; without processors receivers feed exporters. */
  ghost predicate Linked(p: Pipeline, a: Place, b: Place)
  {
    var n := |p.processors|;
    if n == 0 then
      a.kind == Receiver && a.name in p.receivers && b.kind == Exporter && b.name in p.exporters
    else
      || (a.kind == Receiver && a.name in p.receivers && b == Place(Processor, p.processors[0]))
      || (exists i :: 0 <= i < n - 1 && a == Place(Processor, p.processors[i]) &&
                      b == Place(Processor, p.processors[i + 1]))
      || (a == Place(Processor, p.processors[n - 1]) && b.kind == Exporter && b.name in p.exporters)
  }

  lemma {:induction false} FanInEdges(t: string, receivers: seq<string>, target: string, e: Edge)
    ensures e in FanIn(t, receivers, target) <==>
            e.target == target && exists r <- receivers :: e.source == NodeId(Receiver, t, r)
    decreases |receivers|
  {
    if receivers != [] {
      var n := |receivers| - 1;
      assert receivers == receivers[..n] + [receivers[n]];
      FanInEdges(t, receivers[..n], target, e);
    }
  }

  lemma {:induction false} FanOutEdges(t: string, source: string, exporters: seq<string>, e: Edge)
    ensures e in FanOut(t, source, exporters) <==>
            e.source == source && exists x <- exporters :: e.target == NodeId(Exporter, t, x)
    decreases |exporters|
  {
    if exporters != [] {
      var n := |exporters| - 1;
      assert exporters == exporters[..n] + [exporters[n]];
      FanOutEdges(t, source, exporters[..n], e);
    }
  }

  lemma {:induction false} DirectEdges(t: string, receivers: seq<string>, exporters: seq<string>, e: Edge)
    ensures e in Direct(t, receivers, exporters) <==>
            && (exists r <- receivers :: e.source == NodeId(Receiver, t, r))
            && (exists x <- exporters :: e.target == NodeId(Exporter, t, x))
    decreases |receivers|
  {
    if receivers != [] {
      var n := |receivers| - 1;
      assert receivers == receivers[..n] + [receivers[n]];
      DirectEdges(t, receivers[..n], exporters, e);
      FanOutEdges(t, NodeId(Receiver, t, receivers[n]), exporters, e);
    }
  }

  function ChainLink(t: string, processors: seq<string>, i: nat): Edge
    requires i < |processors| - 1
  {
    Edge(NodeId(Processor, t, processors[i]), NodeId(Processor, t, processors[i + 1]))
  }

  lemma {:induction false} ChainOrigin(t: string, processors: seq<string>, e: Edge) returns (i: nat)
    requires e in Chain(t, processors)
    ensures i < |processors| - 1 && e == ChainLink(t, processors, i)
    decreases |processors|
  {
    var n := |processors| - 1;
    if e in Chain(t, processors[..n]) {
      i := ChainOrigin(t, processors[..n], e);
    } else {
      i := n - 1;
    }
  }

  lemma {:induction false} ChainKept(t: string, processors: seq<string>, i: nat)
    requires "" !in processors && i < |processors| - 1
    ensures ChainLink(t, processors, i) in Chain(t, processors)
    decreases |processors|
  {
    var n := |processors| - 1;
    assert processors[n - 1] in processors && processors[n] in processors;
    if i < n - 1 {
      ChainKept(t, processors[..n], i);
    }
  }

  lemma EdgeIsLink(t: string, p: Pipeline, e: Edge) returns (a: Place, b: Place)
    requires e in PipelineEdges(t, p)
    ensures Linked(p, a, b) && e == Edge(Id(t, a), Id(t, b))
  {
    if p.processors == [] {
      DirectEdges(t, p.receivers, p.exporters, e);
      var r :| r in p.receivers && e.source == NodeId(Receiver, t, r);
      var x :| x in p.exporters && e.target == NodeId(Exporter, t, x);
      return Place(Receiver, r), Place(Exporter, x);
    }
    var n := |p.processors| - 1;
    var first, last := NodeId(Processor, t, p.processors[0]), NodeId(Processor, t, p.processors[n]);
    if e in FanIn(t, p.receivers, first) {
      FanInEdges(t, p.receivers, first, e);
      var r :| r in p.receivers && e.source == NodeId(Receiver, t, r);
      return Place(Receiver, r), Place(Processor, p.processors[0]);
    } else if e in Chain(t, p.processors) {
      var i := ChainOrigin(t, p.processors, e);
      return Place(Processor, p.processors[i]), Place(Processor, p.processors[i + 1]);
    } else {
      FanOutEdges(t, last, p.exporters, e);
      var x :| x in p.exporters && e.target == NodeId(Exporter, t, x);
      return Place(Processor, p.processors[n]), Place(Exporter, x);
    }
  }

  lemma LinkIsEdge(t: string, p: Pipeline, a: Place, b: Place)
    requires "" !in p.processors && Linked(p, a, b)
    ensures Edge(Id(t, a), Id(t, b)) in PipelineEdges(t, p)
  {
    var e, n := Edge(Id(t, a), Id(t, b)), |p.processors| - 1;
    if p.processors == [] {
      DirectEdges(t, p.receivers, p.exporters, e);
    } else if a.kind == Receiver {
      FanInEdges(t, p.receivers, NodeId(Processor, t, p.processors[0]), e);
    } else if b.kind == Exporter {
      FanOutEdges(t, NodeId(Processor, t, p.processors[n]), p.exporters, e);
    } else {
      var i :| 0 <= i < n && a == Place(Processor, p.processors[i]) && b == Place(Processor, p.processors[i + 1]);
      ChainKept(t, p.processors, i);
    }
  }

  lemma {:induction false} EdgesByPipeline(lower: string -> string, ps: seq<Pipeline>, e: Edge)
    ensures e in Edges(lower, ps) <==> exists p <- ps :: e in PipelineEdges(lower(p.name), p)
    decreases |ps|
  {
    if ps != [] {
      var m := |ps| - 1;
      assert ps == ps[..m] + [ps[m]];
      EdgesByPipeline(lower, ps[..m], e);
    }
  }

  /** Pipeline names that do not collide after lowercasing, processor names non-empty and distinct
      within a pipeline. */
  ghost predicate WellNamed(lower: string -> string, ps: seq<Pipeline>)
  {
    && (forall p <- ps :: "" !in p.processors)
    && (forall p, q :: p in ps && q in ps && Collide(lower(p.name), lower(q.name)) ==> p == q)
    && (forall p <- ps :: forall i, j :: 0 <= i < j < |p.processors| ==> p.processors[i] != p.processors[j])
  }

  /** Every edge joins two nodes of one pipeline, and those nodes exist. */
  lemma EdgesJoinNodes(lower: string -> string, ps: seq<Pipeline>, e: Edge)
    requires e in Edges(lower, ps)
    ensures exists p, a, b :: p in ps && Linked(p, a, b) && e == Edge(Id(lower(p.name), a), Id(lower(p.name), b)) &&
                              HasNode(Nodes(lower, ps), e.source) && HasNode(Nodes(lower, ps), e.target)
  {
    EdgesByPipeline(lower, ps, e);
    var p :| p in ps && e in PipelineEdges(lower(p.name), p);
    var t := lower(p.name);
    var a, b := EdgeIsLink(t, p, e);
    PlaceHasNode(lower, ps, p, a);
    PlaceHasNode(lower, ps, p, b);
  }

  ghost predicate HasNode(nodes: seq<Node>, id: string)
  {
    exists n <- nodes :: n.id == id
  }

  ghost predicate Declares(p: Pipeline, a: Place)
  {
    match a.kind
    case Receiver => a.name in p.receivers
    case Processor => a.name in p.processors
    case Exporter => a.name in p.exporters
  }

  lemma PlaceHasNode(lower: string -> string, ps: seq<Pipeline>, p: Pipeline, a: Place)
    requires p in ps && Declares(p, a)
    ensures HasNode(Nodes(lower, ps), Id(lower(p.name), a))
  {
    var i :| 0 <= i < |ps| && ps[i] == p;
    var t, y := lower(p.name), Offset(ps[..i]);
    var n := PlaceBox(t, p, y, a);
    NodeKept(lower, ps, i, n);
  }

  lemma PlaceBox(t: string, p: Pipeline, y: int, a: Place) returns (n: Node)
    requires Declares(p, a)
    ensures n in PipelineNodes(t, p, y) && n.Box? && n.id == Id(t, a) && n.kind == a.kind && n.component == a.name
  {
    match a.kind
    case Receiver =>
      var i :| 0 <= i < |p.receivers| && p.receivers[i] == a.name;
      BoxAt(Receiver, t, p.receivers, 100, 0, ColumnStart(y, SectionHeight(p), |p.receivers|), SPACING, i);
      n := ReceiverBoxes(t, p, y)[i];
      assert n in ReceiverBoxes(t, p, y);
    case Processor =>
      var i :| 0 <= i < |p.processors| && p.processors[i] == a.name;
      BoxAt(Processor, t, p.processors, 350, 220, y + SectionHeight(p) / 2 - 30, 0, i);
      n := ProcessorBoxes(t, p, y)[i];
      assert n in ProcessorBoxes(t, p, y);
    case Exporter =>
      var i :| 0 <= i < |p.exporters| && p.exporters[i] == a.name;
      BoxAt(Exporter, t, p.exporters, ExporterX(p), 0, ColumnStart(y, SectionHeight(p), |p.exporters|), SPACING, i);
      n := ExporterBoxes(t, p, y)[i];
      assert n in ExporterBoxes(t, p, y);
  }

  /** Every pipeline has its section, and every component it declares a box inside it. */
  lemma EveryComponentIsDrawn(lower: string -> string, ps: seq<Pipeline>, i: nat, a: Place) returns (n: Node)
    requires i < |ps| && Declares(ps[i], a)
    ensures SectionOf(ps[i], Offset(ps[..i])) in Nodes(lower, ps)
    ensures n in Nodes(lower, ps) && Inside(ps[i], Offset(ps[..i]), n)
    ensures n.id == Id(lower(ps[i].name), a) && n.kind == a.kind && n.component == a.name
  {
    var t, y := lower(ps[i].name), Offset(ps[..i]);
    assert SectionOf(ps[i], y) in PipelineNodes(t, ps[i], y);
    NodeKept(lower, ps, i, SectionOf(ps[i], y));
    n := PlaceBox(t, ps[i], y, a);
    NodeKept(lower, ps, i, n);
    NodeInside(t, ps[i], y, n);
  }

  // ---- exactly one path --------------------------------------------------------------------

  ghost predicate IsPath(edges: seq<Edge>, path: seq<string>)
  {
    |path| >= 1 && forall i :: 0 <= i < |path| - 1 ==> Edge(path[i], path[i + 1]) in edges
  }

  /** What an edge out of a node of a pipeline leads to. */
  lemma Successor(lower: string -> string, ps: seq<Pipeline>, p: Pipeline, a: Place, d: string) returns (b: Place)
    requires WellNamed(lower, ps) && p in ps && Edge(Id(lower(p.name), a), d) in Edges(lower, ps)
    ensures Linked(p, a, b) && d == Id(lower(p.name), b)
  {
    var e := Edge(Id(lower(p.name), a), d);
    EdgesByPipeline(lower, ps, e);
    var q :| q in ps && e in PipelineEdges(lower(q.name), q);
    var c: Place;
    c, b := EdgeIsLink(lower(q.name), q, e);
    IdsAreInjective(lower(p.name), a, lower(q.name), c);
  }

  /** A path to an exporter that has not arrived goes on to a linked node of the same pipeline. */
  lemma NextOnPath(lower: string -> string, ps: seq<Pipeline>, p: Pipeline, a: Place, x: string,
                   path: seq<string>) returns (b: Place)
    requires WellNamed(lower, ps) && p in ps && a.kind != Exporter
    requires IsPath(Edges(lower, ps), path) && path[0] == Id(lower(p.name), a)
    requires path[|path| - 1] == NodeId(Exporter, lower(p.name), x)
    ensures |path| > 1 && Linked(p, a, b) && path[1] == Id(lower(p.name), b)
    ensures IsPath(Edges(lower, ps), path[1..]) && path == [path[0]] + path[1..]
  {
    if |path| == 1 {
      IdsAreInjective(lower(p.name), a, lower(p.name), Place(Exporter, x));
    }
    b := Successor(lower, ps, p, a, path[1]);
  }

  function ProcessorIds(t: string, processors: seq<string>): seq<string>
  {
    if processors == [] then [] else [NodeId(Processor, t, processors[0])] + ProcessorIds(t, processors[1..])
  }

  /** From a processor the only way to an exporter is through all the following processors. */
  lemma {:induction false} OnlyWayFromProcessor(lower: string -> string, ps: seq<Pipeline>, p: Pipeline, k: nat,
                                                x: string, path: seq<string>)
    requires WellNamed(lower, ps) && p in ps && k < |p.processors|
    requires IsPath(Edges(lower, ps), path) && path[0] == NodeId(Processor, lower(p.name), p.processors[k])
    requires path[|path| - 1] == NodeId(Exporter, lower(p.name), x)
    ensures path == ProcessorIds(lower(p.name), p.processors[k..]) + [NodeId(Exporter, lower(p.name), x)]
    decreases |p.processors| - k
  {
    var b := NextOnPath(lower, ps, p, Place(Processor, p.processors[k]), x, path);
    AfterProcessor(p, k, b);
    if k < |p.processors| - 1 {
      OnlyWayFromProcessor(lower, ps, p, k + 1, x, path[1..]);
      assert p.processors[k..][1..] == p.processors[k + 1..];
    } else {
      EndOfPath(lower, ps, p, b, x, path[1..]);
      assert p.processors[k..] == [p.processors[k]] && p.processors[k..][1..] == [];
    }
  }

  lemma AfterProcessor(p: Pipeline, k: nat, b: Place)
    requires k < |p.processors| && Linked(p, Place(Processor, p.processors[k]), b)
    requires forall i, j :: 0 <= i < j < |p.processors| ==> p.processors[i] != p.processors[j]
    ensures if k < |p.processors| - 1 then b == Place(Processor, p.processors[k + 1]) else b.kind == Exporter
  {
  }

  /** No edge leaves an exporter. */
  lemma EndOfPath(lower: string -> string, ps: seq<Pipeline>, p: Pipeline, b: Place, x: string, path: seq<string>)
    requires WellNamed(lower, ps) && p in ps && b.kind == Exporter
    requires IsPath(Edges(lower, ps), path) && path[0] == Id(lower(p.name), b)
    requires path[|path| - 1] == NodeId(Exporter, lower(p.name), x)
    ensures path == [NodeId(Exporter, lower(p.name), x)]
  {
    if |path| > 1 {
      var c := Successor(lower, ps, p, b, path[1]);
    }
  }

  function Route(t: string, p: Pipeline, r: string, x: string): seq<string>
  {
    [NodeId(Receiver, t, r)] + ProcessorIds(t, p.processors) + [NodeId(Exporter, t, x)]
  }

  /** From a receiver of a pipeline to an exporter of it there is exactly one path: the one through
      all the processors in declared order. */
  lemma ExactlyOnePath(lower: string -> string, ps: seq<Pipeline>, p: Pipeline, r: string, x: string,
                       path: seq<string>)
    requires WellNamed(lower, ps) && p in ps && r in p.receivers && x in p.exporters
    ensures (IsPath(Edges(lower, ps), path) && path[0] == NodeId(Receiver, lower(p.name), r) &&
             path[|path| - 1] == NodeId(Exporter, lower(p.name), x))
       <==> path == Route(lower(p.name), p, r, x)
  {
    var t := lower(p.name);
    RouteIsPath(lower, ps, p, r, x);
    var from, to := Place(Receiver, r), Place(Exporter, x);
    if IsPath(Edges(lower, ps), path) && path[0] == Id(t, from) && path[|path| - 1] == Id(t, to) {
      var b := NextOnPath(lower, ps, p, from, x, path);
      if p.processors == [] {
        EndOfPath(lower, ps, p, b, x, path[1..]);
      } else {
        OnlyWayFromProcessor(lower, ps, p, 0, x, path[1..]);
        assert p.processors[0..] == p.processors;
      }
    }
  }

  lemma {:induction false} ProcessorIdAt(t: string, processors: seq<string>, i: nat)
    requires i < |processors|
    ensures |ProcessorIds(t, processors)| == |processors|
    ensures ProcessorIds(t, processors)[i] == NodeId(Processor, t, processors[i])
    decreases |processors|
  {
    if i > 0 {
      ProcessorIdAt(t, processors[1..], i - 1);
    } else if |processors| > 1 {
      ProcessorIdAt(t, processors[1..], 0);
    }
  }

  lemma RouteIsPath(lower: string -> string, ps: seq<Pipeline>, p: Pipeline, r: string, x: string)
    requires WellNamed(lower, ps) && p in ps && r in p.receivers && x in p.exporters
    ensures IsPath(Edges(lower, ps), Route(lower(p.name), p, r, x))
  {
    var t, n := lower(p.name), |p.processors|;
    var route := Route(t, p, r, x);
    forall i | 0 <= i < n ensures |route| == n + 2 && route[i + 1] == NodeId(Processor, t, p.processors[i]) {
      ProcessorIdAt(t, p.processors, i);
    }
    assert |route| == n + 2;
    forall i | 0 <= i < |route| - 1 ensures Edge(route[i], route[i + 1]) in Edges(lower, ps) {
      var a := if i == 0 then Place(Receiver, r) else Place(Processor, p.processors[i - 1]);
      var b := if i == n then Place(Exporter, x) else Place(Processor, p.processors[i]);
      if 0 < i < n {
        assert a == Place(Processor, p.processors[i - 1]) && b == Place(Processor, p.processors[i - 1 + 1]);
      }
      assert Linked(p, a, b);
      LinkIsEdge(t, p, a, b);
      EdgesByPipeline(lower, ps, Edge(Id(t, a), Id(t, b)));
    }
  }

  // ---- what is drawn -----------------------------------------------------------------------

  /** Whatever is drawn for a source is a graph exactly when the source has pipelines; anything else is
      one message without edges. */
  lemma GraphIsDrawnExactlyWhen(lower: string -> string, source: Source, nodes: seq<Node>, edges: seq<Edge>)
    requires Drawn(lower, source, nodes, edges)
    ensures source.Parsed? && source.pipelines != [] <==> forall n <- nodes :: !n.Message?
    ensures !(source.Parsed? && source.pipelines != []) ==> |nodes| == 1 && edges == []
  {
    if source.Parsed? && source.pipelines != [] {
      forall n <- nodes ensures !n.Message? { LayoutIsSound(lower, source.pipelines, n); }
    } else {
      assert nodes[0].Message?;
    }
  }

  /** What is drawn for pipelines lies inside their sections, which do not overlap. */
  lemma DrawnLayoutIsSound(lower: string -> string, source: Source, nodes: seq<Node>, edges: seq<Edge>, n: Node)
    requires Drawn(lower, source, nodes, edges) && source.Parsed? && source.pipelines != [] && n in nodes
    ensures var ps := source.pipelines;
            && (exists i :: 0 <= i < |ps| &&
                            (n == SectionOf(ps[i], Offset(ps[..i])) || Inside(ps[i], Offset(ps[..i]), n)))
            && forall i, j :: 0 <= i < j < |ps| ==> Offset(ps[..i]) + SectionHeight(ps[i]) + GAP <= Offset(ps[..j])
  {
    LayoutIsSound(lower, source.pipelines, n);
  }

  /** And from each receiver to each exporter of a pipeline there is exactly one path of edges drawn. */
  lemma DrawnPathIsUnique(lower: string -> string, source: Source, nodes: seq<Node>, edges: seq<Edge>, p: Pipeline,
                          r: string, x: string, path: seq<string>)
    requires Drawn(lower, source, nodes, edges) && source.Parsed? && WellNamed(lower, source.pipelines)
    requires p in source.pipelines && r in p.receivers && x in p.exporters
    ensures (IsPath(edges, path) && path[0] == NodeId(Receiver, lower(p.name), r) &&
             path[|path| - 1] == NodeId(Exporter, lower(p.name), x))
            <==> path == Route(lower(p.name), p, r, x)
  {
    ExactlyOnePath(lower, source.pipelines, p, r, x, path);
  }

  /** The columns of receivers and exporters are centred on their section, 30 above its middle: what lies
      above the first box and what lies below the last differ by 40, the box being 100 high. */
  lemma ColumnsAreCentred(t: string, p: Pipeline, y: int)
    ensures p.receivers != [] ==>
              var bs := ReceiverBoxes(t, p, y);
              && bs[0].Box? && bs[|bs| - 1].Box?
              && bs[0].y - y == y + SectionHeight(p) - (bs[|bs| - 1].y + NODE_HEIGHT) + 40
    ensures p.exporters != [] ==>
              var bs := ExporterBoxes(t, p, y);
              && bs[0].Box? && bs[|bs| - 1].Box?
              && bs[0].y - y == y + SectionHeight(p) - (bs[|bs| - 1].y + NODE_HEIGHT) + 40
  {
    if p.receivers != [] {
      var start, n := ColumnStart(y, SectionHeight(p), |p.receivers|), |p.receivers|;
      BoxAt(Receiver, t, p.receivers, 100, 0, start, SPACING, 0);
      BoxAt(Receiver, t, p.receivers, 100, 0, start, SPACING, n - 1);
    }
    if p.exporters != [] {
      var start, n := ColumnStart(y, SectionHeight(p), |p.exporters|), |p.exporters|;
      BoxAt(Exporter, t, p.exporters, ExporterX(p), 0, start, SPACING, 0);
      BoxAt(Exporter, t, p.exporters, ExporterX(p), 0, start, SPACING, n - 1);
    }
  }

  /** A section is as small as it may be: 320 high, or so high that the taller column just fits with 100
      above it and 60 below; and 850 wide plus the way from the first processor to the last. */
  lemma SectionsAreTight(t: string, p: Pipeline, y: int)
    ensures SectionHeight(p) >= 320
    ensures SectionHeight(p) > 320 ==>
              || (p.receivers != [] && ReceiverBoxes(t, p, y)[0].Box? && ReceiverBoxes(t, p, y)[0].y == y + 100)
              || (p.exporters != [] && ExporterBoxes(t, p, y)[0].Box? && ExporterBoxes(t, p, y)[0].y == y + 100)
    ensures var bs := ProcessorBoxes(t, p, y);
            if bs == [] then SectionWidth(p) == 850
            else bs[0].Box? && bs[|bs| - 1].Box? && SectionWidth(p) == 850 + bs[|bs| - 1].x - bs[0].x
  {
    var height := SectionHeight(p);
    if p.receivers != [] {
      BoxAt(Receiver, t, p.receivers, 100, 0, ColumnStart(y, height, |p.receivers|), SPACING, 0);
    }
    if p.exporters != [] {
      BoxAt(Exporter, t, p.exporters, ExporterX(p), 0, ColumnStart(y, height, |p.exporters|), SPACING, 0);
    }
    if p.processors != [] {
      BoxAt(Processor, t, p.processors, 350, 220, y + height / 2 - 30, 0, 0);
      BoxAt(Processor, t, p.processors, 350, 220, y + height / 2 - 30, 0, |p.processors| - 1);
    }
  }
}
