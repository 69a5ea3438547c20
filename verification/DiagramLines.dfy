/** The line classifier of `checkMermaid`: node table, edge lines and top-level subgraph blocks. The
    regular expressions are taken as already applied: each line arrives as what it matched. */
module DiagramLines {
  import opened Reachability

  datatype Shape = Stadium | Rectangle | Trapezoid | Diamond | Aggregation

  /** What EDGE_RE made of an arrow line. */
  datatype EdgeText =
    | NoMatch
    | Collapsed
    | EdgeText(from: NodeId, to: NodeId, arrow: Arrow, caption: Option<string>)

  /** `agentLabel` is the text before the first `<br/>`; `labelOk` says it matches AGENT_LABEL_RE. */
  datatype Line =
    | Blank
    | Header(leftToRight: bool)
    | Open(title: string)
    | End
    | ArrowLine(edge: EdgeText)
    | NodeLine(id: NodeId, shape: Shape, agentLabel: string, labelOk: bool)
    | Unrecognised

  datatype NodeRecord = NodeRecord(id: NodeId, shape: Shape, agentLabel: string, labelOk: bool, line: nat)

  datatype EdgeLine = EdgeLine(edge: EdgeText, line: nat)

  datatype SubgraphBlock = SubgraphBlock(title: string, line: nat, nodeIds: set<NodeId>)

  datatype Rule =
    | SubgraphTitle | MermaidInvalid | DuplicateNode | CollapsedEdge | UndeclaredNode | AgentLabelFormat
    | LoopLabel | DiagramDirection | LaneMismatch | EdgeMismatch

  datatype Classified =
    | Refused(rule: Rule, line: nat)
    | Tables(nodes: seq<NodeRecord>, edgeLines: seq<EdgeLine>, blocks: seq<SubgraphBlock>)

  // ----- what the classifier is meant to find -----

  /** How many subgraphs are open just before line `n`. */
  function Depth(lines: seq<Line>, n: nat): int
    requires n <= |lines|
  {
    if n == 0 then 0
    else Depth(lines, n - 1) + (match lines[n - 1] case Open(_) => 1 case End => -1 case _ => 0)
  }

  ghost predicate Declared(lines: seq<Line>, n: nat, id: NodeId)
    requires n <= |lines|
  {
    exists k :: 0 <= k < n && lines[k].NodeLine? && lines[k].id == id
  }

  /** The rule line `i` breaks, given that no earlier line broke one. */
  ghost function OffenceAt(lines: seq<Line>, i: nat): Option<Rule>
    requires i < |lines|
  {
    match lines[i]
    case Header(_) => if i == 0 then None else Some(MermaidInvalid)
    case Open(title) => if title == "" then Some(SubgraphTitle) else None
    case End => if Depth(lines, i) == 0 then Some(MermaidInvalid) else None
    case NodeLine(id, _, _, _) => if Declared(lines, i, id) then Some(DuplicateNode) else None
    case Unrecognised => Some(MermaidInvalid)
    case _ => None
  }

  /** Lines `i` and `j` open and close a subgraph that no other subgraph encloses. */
  ghost predicate TopBlock(lines: seq<Line>, i: nat, j: nat) {
    && i < j < |lines| && lines[i].Open? && lines[j].End?
    && Depth(lines, i) == 0 && Depth(lines, j + 1) == 0
    && forall k :: i < k <= j ==> Depth(lines, k) >= 1
  }

  /** The ids declared on the lines strictly between `i` and `j`, nested subgraphs included. */
  function IdsBetween(lines: seq<Line>, i: nat, j: nat): set<NodeId>
    requires i < j <= |lines|
  {
    if j == i + 1 then {}
    else
      IdsBetween(lines, i, j - 1) + (match lines[j - 1] case NodeLine(id, _, _, _) => {id} case _ => {})
  }

  ghost predicate IsBlockOf(lines: seq<Line>, i: nat, j: nat, b: SubgraphBlock) {
    TopBlock(lines, i, j) && b == SubgraphBlock(lines[i].title, i + 1, IdsBetween(lines, i, j))
  }

  /** `spans` are all the closed top-level subgraphs, in source order, and `blocks` records each. */
  ghost predicate Records(lines: seq<Line>, n: nat, spans: seq<(nat, nat)>, blocks: seq<SubgraphBlock>) {
    && |spans| == |blocks|
    && (forall k :: 0 <= k < |spans| ==> spans[k].1 < n && IsBlockOf(lines, spans[k].0, spans[k].1, blocks[k]))
    && (forall k, l :: 0 <= k < l < |spans| ==> spans[k].1 < spans[l].0)
    && (forall i: nat, j: nat {:trigger TopBlock(lines, i, j)} :: TopBlock(lines, i, j) && j < n ==> (i, j) in spans)
  }

  function NodesOf(lines: seq<Line>, n: nat): seq<NodeRecord>
    requires n <= |lines|
  {
    if n == 0 then []
    else
      NodesOf(lines, n - 1) +
      (match lines[n - 1]
       case NodeLine(id, shape, agentLabel, labelOk) => [NodeRecord(id, shape, agentLabel, labelOk, n)]
       case _ => [])
  }

  function EdgesOf(lines: seq<Line>, n: nat): seq<EdgeLine>
    requires n <= |lines|
  {
    if n == 0 then []
    else EdgesOf(lines, n - 1) + (match lines[n - 1] case ArrowLine(e) => [EdgeLine(e, n)] case _ => [])
  }

  // ----- the classifier -----

  /** The block being collected at the bottom of the stack, opened on line `o`. */
  ghost predicate Collecting(lines: seq<Line>, i: nat, o: nat, b: SubgraphBlock) {
    && o < i <= |lines| && lines[o].Open? && Depth(lines, o) == 0
    && (forall k :: o < k <= i ==> Depth(lines, k) >= 1)
    && b == SubgraphBlock(lines[o].title, o + 1, IdsBetween(lines, o, i))
  }

  lemma OnlyOneCloses(lines: seq<Line>, i: nat, o: nat, p: nat)
    requires i < |lines| && TopBlock(lines, o, i) && TopBlock(lines, p, i)
    ensures p == o
  {
    var atO, atP := Depth(lines, o), Depth(lines, p);
    assert p < o ==> atO >= 1;
    assert o < p ==> atP >= 1;
  }

  lemma ClosesAtOne(lines: seq<Line>, p: nat, i: nat)
    requires TopBlock(lines, p, i)
    ensures Depth(lines, i) == 1
  {
    assert Depth(lines, i + 1) == Depth(lines, i) - 1;
  }

  lemma CloseTop(lines: seq<Line>, i: nat, o: nat, b: SubgraphBlock, spans: seq<(nat, nat)>, blocks: seq<SubgraphBlock>)
    requires i < |lines| && lines[i].End? && Depth(lines, i) == 1
    requires Collecting(lines, i, o, b) && Records(lines, i, spans, blocks)
    requires forall k :: 0 <= k < |spans| ==> spans[k].1 < o
    ensures Records(lines, i + 1, spans + [(o, i)], blocks + [b])
  {
    hide IdsBetween;
    assert Depth(lines, i + 1) == 0;
    assert TopBlock(lines, o, i);
    hide Depth;
    var spans' := spans + [(o, i)];
    forall p: nat, q: nat | TopBlock(lines, p, q) && q < i + 1
      ensures (p, q) in spans'
    {
      if q == i {
        OnlyOneCloses(lines, i, o, p);
        assert spans'[|spans|] == (p, q);
      } else {
        var k :| 0 <= k < |spans| && spans[k] == (p, q);
        assert spans'[k] == (p, q);
      }
    }
    hide TopBlock;
  }

  lemma NothingCloses(lines: seq<Line>, i: nat, spans: seq<(nat, nat)>, blocks: seq<SubgraphBlock>)
    requires i < |lines| && Records(lines, i, spans, blocks)
    requires lines[i].End? ==> Depth(lines, i) != 1
    ensures Records(lines, i + 1, spans, blocks)
  {
    hide IdsBetween;
    forall p: nat, q: nat | TopBlock(lines, p, q) && q < i + 1
      ensures q < i
    {
      if q == i {
        ClosesAtOne(lines, p, i);
        assert false;
      }
    }
  }

  lemma CollectingOn(lines: seq<Line>, i: nat, o: nat, b: SubgraphBlock)
    requires i < |lines| && Collecting(lines, i, o, b) && Depth(lines, i + 1) >= 1
    ensures Collecting(lines, i + 1, o, if lines[i].NodeLine? then b.(nodeIds := b.nodeIds + {lines[i].id}) else b)
  {
    hide Depth, IdsBetween;
    IdsNext(lines, o, i);
  }

  lemma IdsNext(lines: seq<Line>, o: nat, i: nat)
    requires o < i < |lines|
    ensures IdsBetween(lines, o, i + 1) == IdsBetween(lines, o, i) + if lines[i].NodeLine? then {lines[i].id} else {}
    ensures !lines[i].NodeLine? ==> IdsBetween(lines, o, i + 1) == IdsBetween(lines, o, i)
  {
  }

  /** The loop's variables: the ids declared, the stack of open blocks and the closed top-level ones. */
  datatype Scan = Scan(ids: set<NodeId>, stack: seq<SubgraphBlock>, blocks: seq<SubgraphBlock>)

  /** What the loop over the lines has established just before line `i`; `o` opened the bottom of the stack. */
  ghost predicate Scanned(lines: seq<Line>, i: nat, s: Scan, o: nat, spans: seq<(nat, nat)>) {
    && i <= |lines|
    && (forall k :: 0 <= k < i ==> OffenceAt(lines, k) == None)
    && (forall id :: id in s.ids <==> Declared(lines, i, id))
    && |s.stack| == Depth(lines, i)
    && Records(lines, i, spans, s.blocks)
    && (s.stack != [] ==> Collecting(lines, i, o, s.stack[0]) && forall k :: 0 <= k < |spans| ==> spans[k].1 < o)
  }

  lemma ScanOpen(lines: seq<Line>, i: nat, s: Scan, o: nat, spans: seq<(nat, nat)>)
    requires i < |lines| && Scanned(lines, i, s, o, spans) && OffenceAt(lines, i) == None && lines[i].Open?
    ensures Scanned(lines, i + 1, s.(stack := s.stack + [SubgraphBlock(lines[i].title, i + 1, {})]),
                    if s.stack == [] then i else o, spans)
  {
    hide Records;
    NothingCloses(lines, i, spans, s.blocks);
    DeclaredNext(lines, i);
    if s.stack == [] {
      SpansEndBefore(lines, i, spans, s.blocks);
    } else {
      CollectingOn(lines, i, o, s.stack[0]);
    }
  }

  lemma SpansEndBefore(lines: seq<Line>, i: nat, spans: seq<(nat, nat)>, blocks: seq<SubgraphBlock>)
    requires Records(lines, i, spans, blocks)
    ensures forall k :: 0 <= k < |spans| ==> spans[k].1 < i
  {
  }

  lemma DeclaredNext(lines: seq<Line>, i: nat)
    requires i < |lines|
    ensures forall id ::
      Declared(lines, i + 1, id) <==> Declared(lines, i, id) || (lines[i].NodeLine? && lines[i].id == id)
  {
    if lines[i].NodeLine? {
      assert Declared(lines, i + 1, lines[i].id);
    }
  }

  lemma ScanEnd(lines: seq<Line>, i: nat, s: Scan, o: nat, spans: seq<(nat, nat)>)
    requires i < |lines| && Scanned(lines, i, s, o, spans) && OffenceAt(lines, i) == None && lines[i].End?
    ensures s.stack != []
    ensures Scanned(lines, i + 1,
                    s.(stack := s.stack[..|s.stack| - 1],
                       blocks := if |s.stack| == 1 then s.blocks + [s.stack[0]] else s.blocks),
                    o, if |s.stack| == 1 then spans + [(o, i)] else spans)
  {
    hide Records;
    DeclaredNext(lines, i);
    if |s.stack| == 1 {
      CloseTop(lines, i, o, s.stack[0], spans, s.blocks);
    } else {
      NothingCloses(lines, i, spans, s.blocks);
      CollectingOn(lines, i, o, s.stack[0]);
    }
  }

  lemma ScanNode(lines: seq<Line>, i: nat, s: Scan, o: nat, spans: seq<(nat, nat)>)
    requires i < |lines| && Scanned(lines, i, s, o, spans) && OffenceAt(lines, i) == None && lines[i].NodeLine?
    ensures Scanned(lines, i + 1,
                    s.(ids := s.ids + {lines[i].id},
                       stack := if s.stack == [] then []
                       else s.stack[0 := s.stack[0].(nodeIds := s.stack[0].nodeIds + {lines[i].id})]),
                    o, spans)
  {
    hide Records;
    DeclaredNext(lines, i);
    NothingCloses(lines, i, spans, s.blocks);
    if s.stack != [] {
      CollectingOn(lines, i, o, s.stack[0]);
    }
  }

  lemma ScanOther(lines: seq<Line>, i: nat, s: Scan, o: nat, spans: seq<(nat, nat)>)
    requires i < |lines| && Scanned(lines, i, s, o, spans) && OffenceAt(lines, i) == None
    requires lines[i].Blank? || lines[i].Header? || lines[i].ArrowLine?
    ensures Scanned(lines, i + 1, s, o, spans)
  {
    hide Records;
    DeclaredNext(lines, i);
    NothingCloses(lines, i, spans, s.blocks);
    if s.stack != [] {
      CollectingOn(lines, i, o, s.stack[0]);
    }
  }

  lemma ScanOffence(lines: seq<Line>, i: nat, s: Scan, o: nat, spans: seq<(nat, nat)>)
    requires i < |lines| && Scanned(lines, i, s, o, spans)
    ensures forall k :: 0 <= k < i ==> OffenceAt(lines, k) == None
    ensures lines[i].End? ==> (OffenceAt(lines, i) == None <==> s.stack != [])
    ensures lines[i].NodeLine? ==> (OffenceAt(lines, i) == None <==> lines[i].id !in s.ids)
  {
    hide Records;
  }

  method Classify(lines: seq<Line>) returns (r: Classified, ghost spans: seq<(nat, nat)>)
    ensures r.Refused? ==>
              exists i :: 0 <= i < |lines| && r.line == i + 1 && OffenceAt(lines, i) == Some(r.rule) &&
                          forall k :: 0 <= k < i ==> OffenceAt(lines, k) == None
    ensures r.Tables? ==>
              && (forall k :: 0 <= k < |lines| ==> OffenceAt(lines, k) == None)
              && r.nodes == NodesOf(lines, |lines|)
              && r.edgeLines == EdgesOf(lines, |lines|)
              && Records(lines, |lines|, spans, r.blocks)
  {
    hide Scanned, Records, Declared, Depth;
    var nodes: seq<NodeRecord> := [];
    var ids: set<NodeId> := {};
    var edgeLines: seq<EdgeLine> := [];
    var openSubgraphs := 0;
    var stack: seq<SubgraphBlock> := [];
    var blocks: seq<SubgraphBlock> := [];
    spans := [];
    ghost var o := 0;
    ScanNothing(lines);
    for i := 0 to |lines|
      invariant Scanned(lines, i, Scan(ids, stack, blocks), o, spans)
      invariant openSubgraphs == |stack|
      invariant nodes == NodesOf(lines, i)
      invariant edgeLines == EdgesOf(lines, i)
    {
      var lineNo := i + 1;
      ghost var s := Scan(ids, stack, blocks);
      ScanOffence(lines, i, s, o, spans);
      match lines[i]
      case Blank =>
        ScanOther(lines, i, s, o, spans);
      case Header(_) =>
        if i != 0 {
          assert OffenceAt(lines, i) == Some(MermaidInvalid);
          return Refused(MermaidInvalid, lineNo), spans;
        }
        ScanOther(lines, i, s, o, spans);
      case Open(title) =>
        openSubgraphs := openSubgraphs + 1;
        if title == "" {
          assert OffenceAt(lines, i) == Some(SubgraphTitle);
          return Refused(SubgraphTitle, lineNo), spans;
        }
        ScanOpen(lines, i, s, o, spans);
        o := if stack == [] then i else o;
        stack := stack + [SubgraphBlock(title, lineNo, {})];
      case End =>
        if openSubgraphs == 0 { return Refused(MermaidInvalid, lineNo), spans; }
        ScanEnd(lines, i, s, o, spans);
        openSubgraphs := openSubgraphs - 1;
        var closed := stack[|stack| - 1];
        stack := stack[..|stack| - 1];
        if stack == [] {
          blocks := blocks + [closed];
          spans := spans + [(o, i)];
        }
      case ArrowLine(e) =>
        ScanOther(lines, i, s, o, spans);
        edgeLines := edgeLines + [EdgeLine(e, lineNo)];
      case NodeLine(id, shape, agentLabel, labelOk) =>
        if id in ids { return Refused(DuplicateNode, lineNo), spans; }
        ScanNode(lines, i, s, o, spans);
        nodes := nodes + [NodeRecord(id, shape, agentLabel, labelOk, lineNo)];
        ids := ids + {id};
        if stack != [] {
          stack := stack[0 := stack[0].(nodeIds := stack[0].nodeIds + {id})];
        }
      case Unrecognised =>
        assert OffenceAt(lines, i) == Some(MermaidInvalid);
        return Refused(MermaidInvalid, lineNo), spans;
    }
    ScanDone(lines, Scan(ids, stack, blocks), o, spans);
    return Tables(nodes, edgeLines, blocks), spans;
  }

  lemma ScanNothing(lines: seq<Line>)
    ensures Scanned(lines, 0, Scan({}, [], []), 0, [])
  {
  }

  lemma ScanDone(lines: seq<Line>, s: Scan, o: nat, spans: seq<(nat, nat)>)
    requires Scanned(lines, |lines|, s, o, spans)
    ensures forall k :: 0 <= k < |lines| ==> OffenceAt(lines, k) == None
    ensures Records(lines, |lines|, spans, s.blocks)
  {
    hide Records;
  }

  // ----- what lane placement relies on -----

  lemma InIdsBetween(lines: seq<Line>, i: nat, j: nat, id: NodeId) returns (k: nat)
    requires i < j <= |lines| && id in IdsBetween(lines, i, j)
    ensures i < k < j && lines[k].NodeLine? && lines[k].id == id
  {
    if lines[j - 1].NodeLine? && lines[j - 1].id == id && j != i + 1 {
      k := j - 1;
    } else {
      k := InIdsBetween(lines, i, j - 1, id);
    }
  }

  lemma {:induction false} DeclaredBetween(lines: seq<Line>, i: nat, j: nat, k: nat)
    requires i < k < j <= |lines| && lines[k].NodeLine?
    ensures lines[k].id in IdsBetween(lines, i, j)
  {
    if k != j - 1 {
      DeclaredBetween(lines, i, j - 1, k);
    }
  }

  ghost predicate Accepted(lines: seq<Line>) {
    forall k :: 0 <= k < |lines| ==> OffenceAt(lines, k) == None
  }

  lemma DeclaredOnce(lines: seq<Line>, k: nat, l: nat)
    requires Accepted(lines) && k < |lines| && l < |lines| && lines[k].NodeLine? && lines[l].NodeLine?
    ensures lines[k].id == lines[l].id ==> k == l
  {
    var first, second := if k <= l then k else l, if k <= l then l else k;
    assert OffenceAt(lines, second) == None;
    assert first < second ==> Declared(lines, second, lines[first].id);
  }

  /** The node on line `k` is in block `b` exactly when `b` is the outermost subgraph around line `k`. */
  lemma LaneOfNode(lines: seq<Line>, spans: seq<(nat, nat)>, blocks: seq<SubgraphBlock>, b: nat, k: nat)
    requires Accepted(lines) && Records(lines, |lines|, spans, blocks)
    requires b < |blocks| && k < |lines| && lines[k].NodeLine?
    ensures lines[k].id in blocks[b].nodeIds <==> spans[b].0 < k < spans[b].1
  {
    var (i, j) := spans[b];
    assert IsBlockOf(lines, i, j, blocks[b]);
    hide Records, Depth;
    if lines[k].id in blocks[b].nodeIds {
      var l := InIdsBetween(lines, i, j, lines[k].id);
      DeclaredOnce(lines, k, l);
    }
    if i < k < j {
      DeclaredBetween(lines, i, j, k);
    }
  }

  /** No node belongs to two lanes. */
  lemma BlocksDisjoint(lines: seq<Line>, spans: seq<(nat, nat)>, blocks: seq<SubgraphBlock>, a: nat, b: nat)
    requires Accepted(lines) && Records(lines, |lines|, spans, blocks)
    requires a < b < |blocks|
    ensures blocks[a].nodeIds !! blocks[b].nodeIds
  {
    var (i, j) := spans[a];
    var (p, q) := spans[b];
    assert IsBlockOf(lines, i, j, blocks[a]) && IsBlockOf(lines, p, q, blocks[b]) && j < p;
    hide Records, Depth;
    forall id | id in blocks[a].nodeIds
      ensures id !in blocks[b].nodeIds
    {
      var k := InIdsBetween(lines, i, j, id);
      if id in blocks[b].nodeIds {
        var l := InIdsBetween(lines, p, q, id);
        DeclaredOnce(lines, k, l);
        assert false;
      }
    }
  }
}
