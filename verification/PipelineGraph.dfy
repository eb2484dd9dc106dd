/** The pipeline graph of the UI (ui/src/components/collector-pipeline/PipelineGenerator.tsx): nodes,
    edges and layout generated from a parsed collector config. A missing component list reads as the
    empty list. `lower` is JavaScript's toLowerCase; nothing is assumed of it. */
module PipelineGraph {
  import opened Basics

  datatype Pipeline = Pipeline(name: string, receivers: seq<string>, processors: seq<string>, exporters: seq<string>)

  datatype Source = NoConfig | ParseError(message: string) | NoService | Parsed(pipelines: seq<Pipeline>)

  datatype Kind = Receiver | Processor | Exporter

  datatype Node =
    | Message(id: string, text: string)
    | Section(id: string, x: int, y: int, width: int, height: int)
    | Box(id: string, kind: Kind, component: string, x: int, y: int)

  datatype Edge = Edge(source: string, target: string)

  function KindName(k: Kind): string
  {
    match k case Receiver => "receiver" case Processor => "processor" case Exporter => "exporter"
  }

  function NodeId(k: Kind, pipeline: string, component: string): string
  {
    KindName(k) + "-" + pipeline + "-" + component
  }

  // ---- layout arithmetic -------------------------------------------------------------------

  const NODE_HEIGHT := 100
  const SPACING := 120
  const GAP := 40

  function Max(a: int, b: int): (r: int)
    ensures r >= a && r >= b && (r == a || r == b)
  {
    if a >= b then a else b
  }

  function ColumnHeight(count: nat): int
  {
    if count > 0 then NODE_HEIGHT + (count - 1) * SPACING else 0
  }

  function SectionHeight(p: Pipeline): int
  {
    Max(320, Max(Max(ColumnHeight(|p.receivers|), ColumnHeight(|p.exporters|)), NODE_HEIGHT) + 160)
  }

  function SectionWidth(p: Pipeline): int
  {
    Max(850, 850 + if |p.processors| > 1 then (|p.processors| - 1) * 220 else 0)
  }

  function ColumnStart(top: int, height: int, count: nat): int
  {
    top + height / 2 - ((count - 1) * SPACING) / 2 - 30
  }

  function ExporterX(p: Pipeline): int
  {
    if |p.processors| > 0 then 350 + (|p.processors| - 1) * 220 + 250 else 600
  }

  /** Boxes of one kind, the i-th one i steps away from the first. */
  function Boxes(k: Kind, pipeline: string, names: seq<string>, x: int, dx: int, y: int, dy: int): (r: seq<Node>)
    ensures |r| == |names|
  {
    if names == [] then [] else
    var n := |names| - 1;
    Boxes(k, pipeline, names[..n], x, dx, y, dy) +
    [Box(NodeId(k, pipeline, names[n]), k, names[n], x + n * dx, y + n * dy)]
  }

  function SectionOf(p: Pipeline, y: int): Node
  {
    Section("section-" + p.name, 50, y, SectionWidth(p), SectionHeight(p))
  }

  function ReceiverBoxes(t: string, p: Pipeline, y: int): seq<Node>
  {
    Boxes(Receiver, t, p.receivers, 100, 0, ColumnStart(y, SectionHeight(p), |p.receivers|), SPACING)
  }

  function ProcessorBoxes(t: string, p: Pipeline, y: int): seq<Node>
  {
    Boxes(Processor, t, p.processors, 350, 220, y + SectionHeight(p) / 2 - 30, 0)
  }

  function ExporterBoxes(t: string, p: Pipeline, y: int): seq<Node>
  {
    Boxes(Exporter, t, p.exporters, ExporterX(p), 0, ColumnStart(y, SectionHeight(p), |p.exporters|), SPACING)
  }

  function PipelineNodes(t: string, p: Pipeline, y: int): seq<Node>
  {
    [SectionOf(p, y)] + ReceiverBoxes(t, p, y) + ProcessorBoxes(t, p, y) + ExporterBoxes(t, p, y)
  }

  // ---- edges -------------------------------------------------------------------------------

  function FanIn(t: string, receivers: seq<string>, target: string): seq<Edge>
  {
    if receivers == [] then [] else
    var n := |receivers| - 1;
    FanIn(t, receivers[..n], target) + [Edge(NodeId(Receiver, t, receivers[n]), target)]
  }

  function FanOut(t: string, source: string, exporters: seq<string>): seq<Edge>
  {
    if exporters == [] then [] else
    var n := |exporters| - 1;
    FanOut(t, source, exporters[..n]) + [Edge(source, NodeId(Exporter, t, exporters[n]))]
  }

  function Chain(t: string, processors: seq<string>): seq<Edge>
  {
    if |processors| < 2 then [] else
    var n := |processors| - 1;
    var init := Chain(t, processors[..n]);
    if processors[n - 1] != "" && processors[n] != ""
    then init + [Edge(NodeId(Processor, t, processors[n - 1]), NodeId(Processor, t, processors[n]))]
    else init
  }

  function Direct(t: string, receivers: seq<string>, exporters: seq<string>): seq<Edge>
  {
    if receivers == [] then [] else
    var n := |receivers| - 1;
    Direct(t, receivers[..n], exporters) + FanOut(t, NodeId(Receiver, t, receivers[n]), exporters)
  }

  function PipelineEdges(t: string, p: Pipeline): seq<Edge>
  {
    if p.processors == [] then Direct(t, p.receivers, p.exporters) else
    var n := |p.processors| - 1;
    FanIn(t, p.receivers, NodeId(Processor, t, p.processors[0])) +
    Chain(t, p.processors) +
    FanOut(t, NodeId(Processor, t, p.processors[n]), p.exporters)
  }

  // ---- the whole graph ---------------------------------------------------------------------

  function Offset(ps: seq<Pipeline>): int
  {
    if ps == [] then 0 else Offset(ps[..|ps| - 1]) + SectionHeight(ps[|ps| - 1]) + GAP
  }

  function Nodes(lower: string -> string, ps: seq<Pipeline>): seq<Node>
  {
    if ps == [] then [] else
    var init, last := ps[..|ps| - 1], ps[|ps| - 1];
    Nodes(lower, init) + PipelineNodes(lower(last.name), last, Offset(init))
  }

  function Edges(lower: string -> string, ps: seq<Pipeline>): seq<Edge>
  {
    if ps == [] then [] else
    var last := ps[|ps| - 1];
    Edges(lower, ps[..|ps| - 1]) + PipelineEdges(lower(last.name), last)
  }

  method PushBoxes(nodes: seq<Node>, k: Kind, t: string, names: seq<string>, x: int, dx: int, y: int, dy: int)
    returns (r: seq<Node>)
    ensures r == nodes + Boxes(k, t, names, x, dx, y, dy)
  {
    r := nodes;
    for i := 0 to |names|
      invariant r == nodes + Boxes(k, t, names[..i], x, dx, y, dy)
    {
      assert names[..i + 1][..i] == names[..i];
      r := r + [Box(NodeId(k, t, names[i]), k, names[i], x + i * dx, y + i * dy)];
    }
    assert names[..|names|] == names;
  }

  method PushFanOut(edges: seq<Edge>, t: string, source: string, exporters: seq<string>) returns (r: seq<Edge>)
    ensures r == edges + FanOut(t, source, exporters)
  {
    r := edges;
    for i := 0 to |exporters|
      invariant r == edges + FanOut(t, source, exporters[..i])
    {
      assert exporters[..i + 1][..i] == exporters[..i];
      r := r + [Edge(source, NodeId(Exporter, t, exporters[i]))];
    }
    assert exporters[..|exporters|] == exporters;
  }

  method PushFanIn(edges: seq<Edge>, t: string, receivers: seq<string>, target: string) returns (r: seq<Edge>)
    ensures r == edges + FanIn(t, receivers, target)
  {
    r := edges;
    for i := 0 to |receivers|
      invariant r == edges + FanIn(t, receivers[..i], target)
    {
      assert receivers[..i + 1][..i] == receivers[..i];
      r := r + [Edge(NodeId(Receiver, t, receivers[i]), target)];
    }
    assert receivers[..|receivers|] == receivers;
  }

  method PushChain(edges: seq<Edge>, t: string, processors: seq<string>) returns (r: seq<Edge>)
    requires |processors| > 0
    ensures r == edges + Chain(t, processors)
  {
    r := edges;
    for i := 0 to |processors| - 1
      invariant r == edges + Chain(t, processors[..i + 1])
    {
      assert processors[..i + 2][..i + 1] == processors[..i + 1];
      var current, next := processors[i], processors[i + 1];
      if current != "" && next != "" {
        r := r + [Edge(NodeId(Processor, t, current), NodeId(Processor, t, next))];
      }
    }
    assert processors[..|processors|] == processors;
  }

  method LinkDirect(t: string, receivers: seq<string>, exporters: seq<string>) returns (r: seq<Edge>)
    ensures r == Direct(t, receivers, exporters)
  {
    r := [];
    for i := 0 to |receivers|
      invariant r == Direct(t, receivers[..i], exporters)
    {
      assert receivers[..i + 1][..i] == receivers[..i];
      r := PushFanOut(r, t, NodeId(Receiver, t, receivers[i]), exporters);
    }
    assert receivers[..|receivers|] == receivers;
  }

  method LinkPipeline(t: string, p: Pipeline) returns (r: seq<Edge>)
    ensures r == PipelineEdges(t, p)
  {
    if |p.processors| > 0 {
      r := PushFanIn([], t, p.receivers, NodeId(Processor, t, p.processors[0]));
      r := PushChain(r, t, p.processors);
      r := PushFanOut(r, t, NodeId(Processor, t, p.processors[|p.processors| - 1]), p.exporters);
    } else {
      r := LinkDirect(t, p.receivers, p.exporters);
    }
  }

  method PlacePipeline(t: string, p: Pipeline, y: int) returns (r: seq<Node>)
    ensures r == PipelineNodes(t, p, y)
  {
    var height := SectionHeight(p);
    r := [SectionOf(p, y)];
    r := PushBoxes(r, Receiver, t, p.receivers, 100, 0, ColumnStart(y, height, |p.receivers|), SPACING);
    r := PushBoxes(r, Processor, t, p.processors, 350, 220, y + height / 2 - 30, 0);
    r := PushBoxes(r, Exporter, t, p.exporters, ExporterX(p), 0, ColumnStart(y, height, |p.exporters|), SPACING);
  }

  /** The graph of the pipelines if there are any, and otherwise one message and no edges. */
  predicate Drawn(lower: string -> string, source: Source, nodes: seq<Node>, edges: seq<Edge>)
  {
    && (source.NoConfig? ==> nodes == [Message("no-config", "No configuration available")])
    && (source.ParseError? ==> nodes == [Message("parse-error", "YAML Parse Error: " + source.message)])
    && (source.NoService? ==> nodes == [Message("no-service", "No service configuration found")])
    && (source == Parsed([]) ==> nodes == [Message("no-pipelines", "No pipelines configured")])
    && (source.Parsed? && source.pipelines != [] ==>
          nodes == Nodes(lower, source.pipelines) && edges == Edges(lower, source.pipelines))
    && (!source.Parsed? || source.pipelines == [] ==> edges == [])
  }

  method GeneratePipelineNodes(lower: string -> string, source: Source) returns (nodes: seq<Node>, edges: seq<Edge>)
    ensures Drawn(lower, source, nodes, edges)
  {
    match source
    case NoConfig =>
      return [Message("no-config", "No configuration available")], [];
    case ParseError(message) =>
      return [Message("parse-error", "YAML Parse Error: " + message)], [];
    case NoService =>
      return [Message("no-service", "No service configuration found")], [];
    case Parsed(ps) =>
      if |ps| == 0 {
        return [Message("no-pipelines", "No pipelines configured")], [];
      }
      nodes, edges := DrawPipelines(lower, ps);
  }

  method DrawPipelines(lower: string -> string, ps: seq<Pipeline>) returns (nodes: seq<Node>, edges: seq<Edge>)
    ensures nodes == Nodes(lower, ps) && edges == Edges(lower, ps)
  {
    nodes, edges := [], [];
    var y := 0;
    for i := 0 to |ps|
      invariant y == Offset(ps[..i]) && nodes == Nodes(lower, ps[..i]) && edges == Edges(lower, ps[..i])
    {
      assert ps[..i + 1][..i] == ps[..i];
      var placed := PlacePipeline(lower(ps[i].name), ps[i], y);
      var linked := LinkPipeline(lower(ps[i].name), ps[i]);
      nodes, edges := nodes + placed, edges + linked;
      y := y + SectionHeight(ps[i]) + GAP;
    }
    assert ps[..|ps|] == ps;
  }
}
