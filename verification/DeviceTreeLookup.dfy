/** Lookup by path in kernel_core/src/platform/device_tree/mod.rs, against lookup in the abstract tree. */
module DeviceTreeLookup {
  import opened Common
  import opened DeviceTree
  import opened DeviceTreeReader

  const SLASH: Byte := 47
  const AT_SIGN: Byte := 64

  /** "#address-cells" and "#size-cells". */
  const ADDRESS_CELLS: Bytes := [35, 97, 100, 100, 114, 101, 115, 115, 45, 99, 101, 108, 108, 115]
  const SIZE_CELLS: Bytes := [35, 115, 105, 122, 101, 45, 99, 101, 108, 108, 115]

  /** `path.split(|p| *p == b'/')`. */
  function Split(path: Bytes): (segs: seq<Bytes>)
    ensures |segs| > 0
  {
    if path == [] then [[]]
    else if path[0] == SLASH then [[]] + Split(path[1..])
    else
      var rest := Split(path[1..]);
      [[path[0]] + rest[0]] + rest[1..]
  }

  /** The segments with a slash between any two. */
  function Join(segs: seq<Bytes>): Bytes
    requires |segs| > 0
  {
    if |segs| == 1 then segs[0] else segs[0] + [SLASH] + Join(segs[1..])
  }

  /** Splitting cuts at every slash and nowhere else. */
  lemma {:induction false} SplitExact(path: Bytes)
    ensures Join(Split(path)) == path && forall i :: 0 <= i < |Split(path)| ==> SLASH !in Split(path)[i]
  {
    if path != [] {
      SplitExact(path[1..]);
      var rest := Split(path[1..]);
      assert path == [path[0]] + path[1..];
      if path[0] == SLASH {
        assert Split(path)[1..] == rest;
      } else {
        assert Split(path)[1..] == rest[1..];
      }
    }
  }

  /** The counts read so far; `None` stands for the default of section 2.3.5 of the Devicetree Specification. */
  datatype Cells = Cells(address: Option<nat>, size: Option<nat>) {
    function Address(): nat { if address.Some? then address.value else 2 }
    function Size(): nat { if size.Some? then size.value else 1 }
  }

  const DEFAULT: Cells := Cells(None, None)

  /** The counts after a property; none if its data is too short to read. */
  function AfterProp(c: Cells, name: Bytes, data: Bytes): Option<Cells> {
    if name == ADDRESS_CELLS then
      match ReadU32(data, 0) case None => None case Some(v) => Some(c.(address := Some(v)))
    else if name == SIZE_CELLS then
      match ReadU32(data, 0) case None => None case Some(v) => Some(c.(size := Some(v)))
    else Some(c)
  }

  function AfterProps(c: Cells, props: seq<Prop>): Option<Cells>
    decreases |props|
  {
    if props == [] then Some(c)
    else
      match AfterProp(c, props[0].name, props[0].data)
      case None => None
      case Some(c') => AfterProps(c', props[1..])
  }

  // ---------------------------------------------------------------- lookup in the tree

  datatype Answer = FoundNode(node: Tree, cells: Cells) | NoNode | BadCells

  /** The path ends with its last segment, or before an empty one. */
  predicate LastSegment(segs: seq<Bytes>)
    requires |segs| > 0
  {
    |segs| == 1 || segs[1] == []
  }

  /** The first node of that name, and from there on the rest of the path. */
  function Lookup(f: Forest, segs: seq<Bytes>, cells: Cells): Answer
    requires |segs| > 0
    decreases f
  {
    match f
    case Leaf => NoNode
    case More(t, rest) =>
      if t.name != segs[0] then Lookup(rest, segs, cells)
      else if LastSegment(segs) then FoundNode(t, cells)
      else
        match AfterProps(cells, t.props)
        case None => BadCells
        case Some(c) => Lookup(t.children, segs[1..], c)
  }

  // ---------------------------------------------------------------- lookup in the blob

  datatype Search = Found(offset: nat, cells: Cells) | Missing | Failed

  /** What the loop of `iter_node_properties` and `iter_nodes_named` finds, for any blob. */
  function SearchFrom(b: Blob, o: nat, segs: seq<Bytes>, cells: Cells): Search
    requires |segs| > 0
    decreases |b.structure| - o
  {
    match ReadToken(b, o)
    case Panic => Failed
    case Done(_) => Missing
    case Got(End, _) => Missing
    case Got(Start(name), n) =>
      if name == segs[0] then
        if LastSegment(segs) then Found(n, cells) else SearchFrom(b, n, segs[1..], cells)
      else
        (match SkipFrom(b, n, 1) case Crash => Failed case At(m) => SearchFrom(b, m, segs, cells))
    case Got(Property(name, data), n) =>
      (match AfterProp(cells, name, data) case None => Failed case Some(c) => SearchFrom(b, n, segs, c))
  }

  /** That loop. */
  method FindNode(b: Blob, path: Bytes) returns (r: Search)
    ensures r == SearchFrom(b, 0, Split(path), DEFAULT)
  {
    var segments := Split(path);
    var cells := DEFAULT;
    var tokens := new FlattenedTreeIter(b, 0);
    while true
      invariant tokens.blob == b && |segments| > 0
      invariant SearchFrom(b, tokens.currentOffset, segments, cells) == SearchFrom(b, 0, Split(path), DEFAULT)
      decreases |b.structure| - tokens.currentOffset
    {
      var token := tokens.Next();
      match token {
        case Panic => return Failed;
        case Done(_) => return Missing;
        case Got(End, _) => return Missing;
        case Got(Start(name), _) =>
          if name == segments[0] {
            if LastSegment(segments) { return Found(tokens.currentOffset, cells); }
            segments := segments[1..];
          } else {
            var ok := tokens.SkipNode();
            if !ok { return Failed; }
          }
        case Got(Property(name, data), _) =>
          var next := AfterProp(cells, name, data);
          if next.None? { return Failed; }
          cells := next.value;
      }
    }
  }

  // ---------------------------------------------------------------- skipping and reading on a flattened tree

  /** The next token and where it leads. */
  lemma FirstToken(b: Blob, o: nat, t: Token, ts: seq<Token>)
    requires Yields(b, o, [t] + ts)
    ensures ReadToken(b, o).Got? && ReadToken(b, o).token == t && Yields(b, ReadToken(b, o).next, ts)
  {
    assert ([t] + ts)[1..] == ts;
  }

  lemma {:induction false} SkipProps(b: Blob, o: nat, props: seq<Prop>, ts: seq<Token>, depth: nat) returns (n: nat)
    requires depth > 0 && Yields(b, o, PropTokens(props) + ts)
    ensures Yields(b, n, ts) && SkipFrom(b, o, depth) == SkipFrom(b, n, depth)
    decreases |props|
  {
    hide ReadToken;
    if props == [] {
      assert PropTokens(props) + ts == ts;
      n := o;
    } else {
      PropTokensStep(props, ts);
      FirstToken(b, o, Property(props[0].name, props[0].data), PropTokens(props[1..]) + ts);
      n := SkipProps(b, ReadToken(b, o).next, props[1..], ts, depth);
    }
  }

  lemma PropTokensStep(props: seq<Prop>, ts: seq<Token>)
    requires props != []
    ensures PropTokens(props) + ts == [Property(props[0].name, props[0].data)] + (PropTokens(props[1..]) + ts)
  {}

  lemma PreorderStep(t: Tree, ts: seq<Token>)
    ensures Preorder(t) + ts == [Start(t.name)] + (Body(t) + ([End] + ts))
    ensures Body(t) + ts == PropTokens(t.props) + (Tokens(t.children) + ts)
  {}

  lemma ForestStep(f: Forest, ts: seq<Token>)
    requires f.More?
    ensures Tokens(f) + ts == Preorder(f.first) + (Tokens(f.rest) + ts)
  {}

  /** Skipping over whole nodes keeps the depth. */
  lemma {:induction false} SkipForest(b: Blob, o: nat, f: Forest, ts: seq<Token>, depth: nat) returns (n: nat)
    requires depth > 0 && Yields(b, o, Tokens(f) + ts)
    ensures Yields(b, n, ts) && SkipFrom(b, o, depth) == SkipFrom(b, n, depth)
    decreases f
  {
    hide ReadToken, PropTokens;
    match f
    case Leaf =>
      assert Tokens(f) + ts == ts;
      n := o;
    case More(t, rest) =>
      var after := Tokens(rest) + ts;
      ForestStep(f, ts);
      PreorderStep(t, after);
      hide Tokens, Preorder, Body;
      FirstToken(b, o, Start(t.name), Body(t) + ([End] + after));
      PreorderStep(t, [End] + after);
      var p := SkipProps(b, ReadToken(b, o).next, t.props, Tokens(t.children) + ([End] + after), depth + 1);
      var q := SkipForest(b, p, t.children, [End] + after, depth + 1);
      FirstToken(b, q, End, after);
      n := SkipForest(b, ReadToken(b, q).next, rest, ts, depth);
  }

  /** `skip_node` stops exactly after the matching end. */
  lemma SkipNodeExact(b: Blob, o: nat, t: Tree, ts: seq<Token>)
    requires Yields(b, o, Body(t) + ([End] + ts))
    ensures SkipFrom(b, o, 1).At? && Yields(b, SkipFrom(b, o, 1).offset, ts)
  {
    hide ReadToken, PropTokens, Tokens, Body;
    PreorderStep(t, [End] + ts);
    var p := SkipProps(b, o, t.props, Tokens(t.children) + ([End] + ts), 1);
    var q := SkipForest(b, p, t.children, [End] + ts, 1);
    FirstToken(b, q, End, ts);
  }

  lemma {:induction false} SearchProps(b: Blob, o: nat, props: seq<Prop>, ts: seq<Token>, segs: seq<Bytes>,
                                       cells: Cells)
    returns (n: nat)
    requires |segs| > 0 && Yields(b, o, PropTokens(props) + ts)
    ensures match AfterProps(cells, props)
            case None => SearchFrom(b, o, segs, cells) == Failed
            case Some(c) => Yields(b, n, ts) && SearchFrom(b, o, segs, cells) == SearchFrom(b, n, segs, c)
    decreases |props|
  {
    hide ReadToken, AfterProp;
    n := o;
    if props == [] {
      assert PropTokens(props) + ts == ts;
    } else {
      PropTokensStep(props, ts);
      FirstToken(b, o, Property(props[0].name, props[0].data), PropTokens(props[1..]) + ts);
      match AfterProp(cells, props[0].name, props[0].data)
      case None =>
      case Some(c) => n := SearchProps(b, ReadToken(b, o).next, props[1..], ts, segs, c);
    }
  }

  /** Nothing more in this node: the end of the node or of the tree. */
  ghost predicate Closed(ts: seq<Token>) { ts == [] || ts[0] == End }

  /** The search gives the answer of the tree. */
  ghost predicate Agrees(b: Blob, r: Search, a: Answer) {
    match a
    case NoNode => r == Missing
    case BadCells => r == Failed
    case FoundNode(t, c) => r.Found? && r.cells == c && exists ts :: Yields(b, r.offset, Body(t) + ([End] + ts))
  }

  /** On a flattened forest the search in the blob agrees with the lookup in the forest. */
  lemma {:induction false} SearchAgrees(b: Blob, o: nat, f: Forest, ts: seq<Token>, segs: seq<Bytes>, cells: Cells)
    requires |segs| > 0 && Closed(ts) && Yields(b, o, Tokens(f) + ts)
    ensures Agrees(b, SearchFrom(b, o, segs, cells), Lookup(f, segs, cells))
    decreases f
  {
    hide ReadToken, PropTokens, AfterProps, SkipFrom;
    match f
    case Leaf =>
      assert Tokens(f) + ts == ts;
    case More(t, rest) =>
      var after := Tokens(rest) + ts;
      ForestStep(f, ts);
      PreorderStep(t, after);
      hide Tokens, Preorder, Body;
      FirstToken(b, o, Start(t.name), Body(t) + ([End] + after));
      var n := ReadToken(b, o).next;
      if t.name != segs[0] {
        SkipNodeExact(b, n, t, after);
        SearchAgrees(b, SkipFrom(b, n, 1).offset, rest, ts, segs, cells);
      } else if !LastSegment(segs) {
        PreorderStep(t, [End] + after);
        var p := SearchProps(b, n, t.props, Tokens(t.children) + ([End] + after), segs[1..], cells);
        match AfterProps(cells, t.props)
        case None =>
        case Some(c) => SearchAgrees(b, p, t.children, [End] + after, segs[1..], c);
      }
  }

  // ---------------------------------------------------------------- where cell counts come from

  /** The last value a node gives to a count. */
  function Defined(props: seq<Prop>, name: Bytes): Option<nat> {
    if props == [] then None
    else
      var p := props[|props| - 1];
      if p.name == name then ReadU32(p.data, 0) else Defined(props[..|props| - 1], name)
  }

  /** The nodes the lookup enters on its way: the proper ancestors of the node it finds. */
  function Ancestors(f: Forest, segs: seq<Bytes>): seq<Tree>
    requires |segs| > 0
    decreases f
  {
    match f
    case Leaf => []
    case More(t, rest) =>
      if t.name != segs[0] then Ancestors(rest, segs)
      else if LastSegment(segs) then []
      else [t] + Ancestors(t.children, segs[1..])
  }

  /** The value of a count in the nearest of these nodes that gives one. */
  function Nearest(nodes: seq<Tree>, name: Bytes): Option<nat> {
    if nodes == [] then None
    else
      var v := Defined(nodes[|nodes| - 1].props, name);
      if v.Some? then v else Nearest(nodes[..|nodes| - 1], name)
  }

  function OrElse(v: Option<nat>, w: Option<nat>): Option<nat> { if v.Some? then v else w }

  lemma {:induction false} AfterPropsDefined(c: Cells, props: seq<Prop>)
    ensures var r := AfterProps(c, props);
            r.Some? ==>
              && r.value.address == OrElse(Defined(props, ADDRESS_CELLS), c.address)
              && r.value.size == OrElse(Defined(props, SIZE_CELLS), c.size)
    decreases |props|
  {
    hide ReadU32;
    if props != [] {
      var n := |props| - 1;
      AfterPropsSnoc(c, props[..n], props[n]);
      assert props == props[..n] + [props[n]];
      AfterPropsDefined(c, props[..n]);
    }
  }

  lemma {:induction false} AfterPropsSnoc(c: Cells, props: seq<Prop>, p: Prop)
    ensures AfterProps(c, props + [p]) == match AfterProps(c, props)
                                          case None => None
                                          case Some(c') => AfterProp(c', p.name, p.data)
    decreases |props|
  {
    hide AfterProp;
    if props == [] {
      assert props + [p] == [p];
    } else {
      assert (props + [p])[1..] == props[1..] + [p];
      match AfterProp(c, props[0].name, props[0].data)
      case None =>
      case Some(c') => AfterPropsSnoc(c', props[1..], p);
    }
  }

  lemma {:induction false} NearestCons(t: Tree, nodes: seq<Tree>, name: Bytes)
    ensures Nearest([t] + nodes, name) == OrElse(Nearest(nodes, name), Defined(t.props, name))
    decreases |nodes|
  {
    hide Defined;
    if nodes != [] {
      assert ([t] + nodes)[..|nodes|] == [t] + nodes[..|nodes| - 1];
      NearestCons(t, nodes[..|nodes| - 1], name);
    }
  }

  /** The counts reported for a node are those of its nearest proper ancestor on the path that gives them. */
  lemma {:induction false} CellsFromNearest(f: Forest, segs: seq<Bytes>, cells: Cells)
    requires |segs| > 0 && Lookup(f, segs, cells).FoundNode?
    ensures var c, above := Lookup(f, segs, cells).cells, Ancestors(f, segs);
            && c.address == OrElse(Nearest(above, ADDRESS_CELLS), cells.address)
            && c.size == OrElse(Nearest(above, SIZE_CELLS), cells.size)
    decreases f
  {
    hide AfterProps, Defined;
    match f
    case More(t, rest) =>
      if t.name != segs[0] {
        CellsFromNearest(rest, segs, cells);
      } else if !LastSegment(segs) {
        AfterPropsDefined(cells, t.props);
        CellsFromNearest(t.children, segs[1..], AfterProps(cells, t.props).value);
        NearestCons(t, Ancestors(t.children, segs[1..]), ADDRESS_CELLS);
        NearestCons(t, Ancestors(t.children, segs[1..]), SIZE_CELLS);
      }
  }

  // ---------------------------------------------------------------- the properties of a node

  datatype PropStep = Item(name: Bytes, data: Bytes, next: nat) | NoMore | PropFailed

  /** The next property of the node that is open at depth one. */
  function PropFrom(b: Blob, o: nat, depth: nat): (r: PropStep)
    requires depth > 0
    ensures r.Item? ==> r.next > o && o < |b.structure|
    decreases |b.structure| - o
  {
    match ReadToken(b, o)
    case Panic => PropFailed
    case Done(_) => NoMore
    case Got(Start(_), n) => PropFrom(b, n, depth + 1)
    case Got(End, n) => if depth == 1 then NoMore else PropFrom(b, n, depth - 1)
    case Got(Property(name, data), n) => if depth == 1 then Item(name, data, n) else PropFrom(b, n, depth)
  }

  /** `NodePropertyIter`. */
  class NodePropertyIter {
    const blob: Blob
    const cur: FlattenedTreeIter
    var depth: nat
    const cells: Cells

    ghost predicate Valid()
      reads this, cur
    {
      cur.blob == blob && depth <= 1
    }

    constructor (blob: Blob, offset: nat, cells: Cells)
      ensures Valid() && fresh(cur) && this.blob == blob && cur.currentOffset == offset && depth == 1
              && this.cells == cells
    {
      this.blob := blob;
      cur := new FlattenedTreeIter(blob, offset);
      depth := 1;
      this.cells := cells;
    }

    /** `next`, without parsing the data. */
    method Next() returns (r: PropStep)
      requires Valid()
      modifies this`depth, cur`currentOffset
      ensures r == if old(depth) == 0 then NoMore else PropFrom(blob, old(cur.currentOffset), 1)
      ensures r.Item? ==> Valid() && depth == 1 && cur.currentOffset == r.next
      ensures old(depth) == 0 ==> depth == 0
    {
      hide ReadToken;
      if depth == 0 { return NoMore; }
      while true
        invariant cur.blob == blob && depth >= 1
        invariant PropFrom(blob, cur.currentOffset, depth) == PropFrom(blob, old(cur.currentOffset), 1)
        decreases |blob.structure| - cur.currentOffset
      {
        var item := cur.Next();
        match item {
          case Panic => return PropFailed;
          case Done(_) => return NoMore;
          case Got(Start(_), _) => depth := depth + 1;
          case Got(End, _) =>
            depth := depth - 1;
            if depth == 0 { return NoMore; }
          case Got(Property(name, data), n) =>
            if depth == 1 { return Item(name, data, n); }
        }
      }
    }
  }

  /** Everything the iterator yields; none if it panics. */
  function AllProps(b: Blob, o: nat): Option<seq<Prop>>
    decreases |b.structure| - o
  {
    match PropFrom(b, o, 1)
    case PropFailed => None
    case NoMore => Some([])
    case Item(name, data, n) =>
      match AllProps(b, n)
      case None => None
      case Some(more) => Some([Prop(name, data)] + more)
  }

  lemma {:induction false} PassProps(b: Blob, o: nat, props: seq<Prop>, ts: seq<Token>, depth: nat) returns (n: nat)
    requires depth > 1 && Yields(b, o, PropTokens(props) + ts)
    ensures Yields(b, n, ts) && PropFrom(b, o, depth) == PropFrom(b, n, depth)
    decreases |props|
  {
    hide ReadToken;
    n := o;
    if props == [] {
      assert PropTokens(props) + ts == ts;
    } else {
      PropTokensStep(props, ts);
      FirstToken(b, o, Property(props[0].name, props[0].data), PropTokens(props[1..]) + ts);
      n := PassProps(b, ReadToken(b, o).next, props[1..], ts, depth);
    }
  }

  /** The children of the node yield nothing. */
  lemma {:induction false} PassForest(b: Blob, o: nat, f: Forest, ts: seq<Token>, depth: nat) returns (n: nat)
    requires depth > 0 && Yields(b, o, Tokens(f) + ts)
    ensures Yields(b, n, ts) && PropFrom(b, o, depth) == PropFrom(b, n, depth)
    decreases f
  {
    hide ReadToken, PropTokens;
    match f
    case Leaf =>
      assert Tokens(f) + ts == ts;
      n := o;
    case More(t, rest) =>
      var after := Tokens(rest) + ts;
      ForestStep(f, ts);
      PreorderStep(t, after);
      hide Tokens, Preorder, Body;
      FirstToken(b, o, Start(t.name), Body(t) + ([End] + after));
      PreorderStep(t, [End] + after);
      var p := PassProps(b, ReadToken(b, o).next, t.props, Tokens(t.children) + ([End] + after), depth + 1);
      var q := PassForest(b, p, t.children, [End] + after, depth + 1);
      FirstToken(b, q, End, after);
      n := PassForest(b, ReadToken(b, q).next, rest, ts, depth);
  }

  /** The iterator yields exactly the node's own properties, in order. */
  lemma {:induction false} OwnProperties(b: Blob, o: nat, props: seq<Prop>, f: Forest, ts: seq<Token>)
    requires Yields(b, o, PropTokens(props) + (Tokens(f) + ([End] + ts)))
    ensures AllProps(b, o) == Some(props)
    decreases |props|
  {
    hide ReadToken, Tokens, Preorder, Body;
    if props == [] {
      assert PropTokens(props) + (Tokens(f) + ([End] + ts)) == Tokens(f) + ([End] + ts);
      var n := PassForest(b, o, f, [End] + ts, 1);
      FirstToken(b, n, End, ts);
    } else {
      PropTokensStep(props, Tokens(f) + ([End] + ts));
      FirstToken(b, o, Property(props[0].name, props[0].data), PropTokens(props[1..]) + (Tokens(f) + ([End] + ts)));
      OwnProperties(b, ReadToken(b, o).next, props[1..], f, ts);
      assert props == [Prop(props[0].name, props[0].data)] + props[1..];
    }
  }

  lemma NodeProperties(b: Blob, o: nat, t: Tree, ts: seq<Token>)
    requires Yields(b, o, Body(t) + ([End] + ts))
    ensures AllProps(b, o) == Some(t.props)
  {
    hide ReadToken, Tokens, PropTokens, Body, AllProps;
    PreorderStep(t, [End] + ts);
    OwnProperties(b, o, t.props, t.children, ts);
  }
}
