/** `iter_nodes_named`, `find_property`, and what all queries give on the flattened bytes of a tree. */
module DeviceTreeQueries {
  import opened Common
  import opened DeviceTree
  import opened DeviceTreeReader
  import opened DeviceTreeLookup

  // ---------------------------------------------------------------- nodes by name

  /** `split_node_name`: the parts before and after the first at-sign. */
  function SplitName(full: Bytes): (r: (Bytes, Option<Bytes>))
    ensures AT_SIGN !in r.0
    ensures full == match r.1 case None => r.0 case Some(unit) => r.0 + [AT_SIGN] + unit
  {
    if full == [] then ([], None)
    else if full[0] == AT_SIGN then ([], Some(full[1..]))
    else
      var rest := SplitName(full[1..]);
      assert full == [full[0]] + full[1..];
      ([full[0]] + rest.0, rest.1)
  }

  datatype NamedStep = Match(unit: Option<Bytes>, props: nat, cells: Cells, next: nat) | NoMatch | NamedFailed

  /** The next child of the open node whose name before the at-sign is `name`. */
  function NamedFrom(b: Blob, o: nat, name: Bytes, cells: Cells): (r: NamedStep)
    ensures r.Match? ==> r.next > o && o < |b.structure|
    decreases |b.structure| - o
  {
    match ReadToken(b, o)
    case Panic => NamedFailed
    case Done(_) => NoMatch
    case Got(End, _) => NoMatch
    case Got(Start(full), n) =>
      (match SkipFrom(b, n, 1)
       case Crash => NamedFailed
       case At(m) =>
         if SplitName(full).0 == name then Match(SplitName(full).1, n, cells, m) else NamedFrom(b, m, name, cells))
    case Got(Property(p, data), n) =>
      (match AfterProp(cells, p, data) case None => NamedFailed case Some(c) => NamedFrom(b, n, name, c))
  }

  /** The same after the open node has ended: another end is one level too many. */
  function NamedAfter(b: Blob, o: nat, name: Bytes, cells: Cells): (r: NamedStep)
    ensures r.Match? ==> r.next > o && o < |b.structure|
    decreases |b.structure| - o
  {
    match ReadToken(b, o)
    case Panic => NamedFailed
    case Done(_) => NoMatch
    case Got(End, _) => NamedFailed
    case Got(Start(full), n) =>
      (match SkipFrom(b, n, 1)
       case Crash => NamedFailed
       case At(m) =>
         if SplitName(full).0 == name then Match(SplitName(full).1, n, cells, m) else NamedAfter(b, m, name, cells))
    case Got(Property(p, data), n) =>
      (match AfterProp(cells, p, data) case None => NamedFailed case Some(c) => NamedAfter(b, n, name, c))
  }

  function NamedStepFrom(b: Blob, o: nat, name: Bytes, cells: Cells, depth: nat): NamedStep {
    if depth == 1 then NamedFrom(b, o, name, cells) else NamedAfter(b, o, name, cells)
  }

  /** `NodesNamedIter`: the depth is one while its node is open, and zero after. */
  class NodesNamedIter {
    const blob: Blob
    const nodeName: Bytes
    const cur: FlattenedTreeIter
    var depth: nat
    var cells: Cells

    ghost predicate Valid()
      reads this, cur
    {
      cur.blob == blob && depth <= 1
    }

    constructor (blob: Blob, offset: nat, nodeName: Bytes, cells: Cells)
      ensures Valid() && depth == 1 && fresh(cur) && this.blob == blob && this.nodeName == nodeName
      ensures cur.currentOffset == offset && this.cells == cells
    {
      this.blob, this.nodeName, this.cells, depth := blob, nodeName, cells, 1;
      cur := new FlattenedTreeIter(blob, offset);
    }

    /** `next`. */
    method Next() returns (r: NamedStep)
      requires Valid()
      modifies this, cur`currentOffset
      ensures r == NamedStepFrom(blob, old(cur.currentOffset), nodeName, old(cells), old(depth))
      ensures r.Match? ==> depth == old(depth) && cur.currentOffset == r.next && cells == r.cells
      ensures !r.NamedFailed? ==> Valid()
    {
      hide ReadToken, SkipFrom, AfterProp, SplitName;
      while true
        invariant Valid() && depth == old(depth)
        invariant NamedStepFrom(blob, cur.currentOffset, nodeName, cells, depth)
                  == NamedStepFrom(blob, old(cur.currentOffset), nodeName, old(cells), old(depth))
        decreases |blob.structure| - cur.currentOffset
      {
        var token := cur.Next();
        match token {
          case Panic => return NamedFailed;
          case Done(_) => return NoMatch;
          case Got(Start(full), n) =>
            depth := depth + 1;
            var parts := SplitName(full);
            var ok := cur.SkipNode();
            if !ok { return NamedFailed; }
            depth := depth - 1;
            if parts.0 == nodeName { return Match(parts.1, n, cells, cur.currentOffset); }
          case Got(End, _) =>
            if depth == 0 { return NamedFailed; }
            depth := depth - 1;
            return NoMatch;
          case Got(Property(p, data), _) =>
            var next := AfterProp(cells, p, data);
            if next.None? { return NamedFailed; }
            cells := next.value;
        }
      }
    }
  }

  /** A node found by name: its unit address, the counts of its parent, and its properties. */
  datatype Named = Named(unit: Option<Bytes>, cells: Cells, props: seq<Prop>)

  /** Everything the iterator yields, with the properties its items yield; none if one of them panics. */
  function AllNamed(b: Blob, o: nat, name: Bytes, cells: Cells): Option<seq<Named>>
    decreases |b.structure| - o
  {
    match NamedFrom(b, o, name, cells)
    case NamedFailed => None
    case NoMatch => Some([])
    case Match(unit, at, c, n) =>
      match (AllProps(b, at), AllNamed(b, n, name, c))
      case (Some(props), Some(more)) => Some([Named(unit, c, props)] + more)
      case _ => None
  }

  /** The children of that name in the tree. */
  function NamedChildren(f: Forest, name: Bytes, cells: Cells): seq<Named> {
    match f
    case Leaf => []
    case More(t, rest) =>
      (if SplitName(t.name).0 == name then [Named(SplitName(t.name).1, cells, t.props)] else [])
      + NamedChildren(rest, name, cells)
  }

  lemma SameNamed(b: Blob, o: nat, m: nat, name: Bytes, cells: Cells)
    requires NamedFrom(b, o, name, cells) == NamedFrom(b, m, name, cells)
    ensures AllNamed(b, o, name, cells) == AllNamed(b, m, name, cells)
  {
    hide NamedFrom, AllProps;
  }

  lemma {:induction false} NamedForest(b: Blob, o: nat, f: Forest, ts: seq<Token>, name: Bytes, cells: Cells)
    requires Yields(b, o, Tokens(f) + ([End] + ts))
    ensures AllNamed(b, o, name, cells) == Some(NamedChildren(f, name, cells))
    decreases f
  {
    hide ReadToken, PropTokens, SkipFrom, SplitName, AllProps;
    match f
    case Leaf =>
      assert Tokens(f) + ([End] + ts) == [End] + ts;
      FirstToken(b, o, End, ts);
    case More(t, rest) =>
      var after := Tokens(rest) + ([End] + ts);
      ForestStep(f, [End] + ts);
      PreorderStep(t, after);
      hide Tokens, Preorder, Body;
      FirstToken(b, o, Start(t.name), Body(t) + ([End] + after));
      var n := ReadToken(b, o).next;
      SkipNodeExact(b, n, t, after);
      NodeProperties(b, n, t, after);
      var m := SkipFrom(b, n, 1).offset;
      NamedForest(b, m, rest, ts, name, cells);
      if SplitName(t.name).0 == name {
        assert NamedFrom(b, o, name, cells) == Match(SplitName(t.name).1, n, cells, m);
      } else {
        SameNamed(b, o, m, name, cells);
        assert NamedChildren(f, name, cells) == NamedChildren(rest, name, cells);
      }
  }

  /** The iterator yields exactly the direct children of that name, with the node's own counts if it gives any. */
  lemma {:induction false} NamedAgrees(b: Blob, o: nat, props: seq<Prop>, f: Forest, ts: seq<Token>, name: Bytes,
                                       cells: Cells)
    requires Yields(b, o, PropTokens(props) + (Tokens(f) + ([End] + ts)))
    ensures AllNamed(b, o, name, cells) == match AfterProps(cells, props)
                                           case None => None
                                           case Some(c) => Some(NamedChildren(f, name, c))
    decreases |props|
  {
    hide ReadToken, Tokens, SkipFrom, SplitName, AllProps, AfterProp, NamedChildren;
    if props == [] {
      assert PropTokens(props) + (Tokens(f) + ([End] + ts)) == Tokens(f) + ([End] + ts);
      NamedForest(b, o, f, ts, name, cells);
    } else {
      PropTokensStep(props, Tokens(f) + ([End] + ts));
      FirstToken(b, o, Property(props[0].name, props[0].data), PropTokens(props[1..]) + (Tokens(f) + ([End] + ts)));
      match AfterProp(cells, props[0].name, props[0].data)
      case None =>
      case Some(c) => NamedAgrees(b, ReadToken(b, o).next, props[1..], f, ts, name, c);
    }
  }

  // ---------------------------------------------------------------- a property by path

  /** The position of the last slash. */
  function LastSlash(path: Bytes): (r: Option<nat>)
    ensures r.None? <==> SLASH !in path
    ensures r.Some? ==> r.value < |path| && path[r.value] == SLASH && SLASH !in path[r.value + 1..]
  {
    var n := |path|;
    if n == 0 then None
    else
      assert path == path[..n - 1] + [path[n - 1]];
      if path[n - 1] == SLASH then Some(n - 1)
      else
        var r := LastSlash(path[..n - 1]);
        assert r.Some? ==> path[r.value + 1..] == path[..n - 1][r.value + 1..] + [path[n - 1]];
        r
  }

  datatype FindResult = PropFound(name: Bytes, data: Bytes, cells: Cells) | PropMissing | FindFailed

  /** The first property of that name which the iterator yields from `o` on. */
  function FirstNamed(b: Blob, o: nat, name: Bytes, cells: Cells): FindResult
    decreases |b.structure| - o
  {
    match PropFrom(b, o, 1)
    case PropFailed => FindFailed
    case NoMore => PropMissing
    case Item(p, data, n) => if p == name then PropFound(p, data, cells) else FirstNamed(b, n, name, cells)
  }

  /** `find_property`, without parsing the data. */
  function FindIn(b: Blob, path: Bytes): FindResult {
    match LastSlash(path)
    case None => PropMissing
    case Some(i) =>
      match SearchFrom(b, 0, Split(path[..i + 1]), DEFAULT)
      case Failed => FindFailed
      case Missing => PropMissing
      case Found(o, cells) => FirstNamed(b, o, path[i + 1..], cells)
  }

  method FindProperty(b: Blob, path: Bytes) returns (r: FindResult)
    ensures r == FindIn(b, path)
  {
    hide ReadToken, SearchFrom, FirstNamed;
    var i := LastSlash(path);
    if i.None? { return PropMissing; }
    var nodePath, name := path[..i.value + 1], path[i.value + 1..];
    var node := FindNode(b, nodePath);
    match node {
      case Failed => r := FindFailed;
      case Missing => r := PropMissing;
      case Found(o, cells) => r := FindFirst(b, o, name, cells);
    }
  }

  /** The search of `find_property` among the properties of the node. */
  method FindFirst(b: Blob, start: nat, name: Bytes, cells: Cells) returns (r: FindResult)
    ensures r == FirstNamed(b, start, name, cells)
  {
    hide ReadToken, PropFrom;
    var props := new NodePropertyIter(b, start, cells);
    while true
      invariant props.Valid() && props.depth == 1 && props.blob == b && fresh(props) && fresh(props.cur)
      invariant FirstNamed(b, props.cur.currentOffset, name, cells) == FirstNamed(b, start, name, cells)
      decreases |b.structure| - props.cur.currentOffset
    {
      var item := props.Next();
      match item {
        case PropFailed => return FindFailed;
        case NoMore => return PropMissing;
        case Item(p, data, _) =>
          if p == name { return PropFound(p, data, cells); }
      }
    }
  }

  /** The first property of that name. */
  function FirstProp(props: seq<Prop>, name: Bytes): Option<Prop> {
    if props == [] then None else if props[0].name == name then Some(props[0]) else FirstProp(props[1..], name)
  }

  lemma {:induction false} FirstNamedAgrees(b: Blob, o: nat, name: Bytes, cells: Cells)
    requires AllProps(b, o).Some?
    ensures FirstNamed(b, o, name, cells) == match FirstProp(AllProps(b, o).value, name)
                                             case None => PropMissing
                                             case Some(p) => PropFound(p.name, p.data, cells)
    decreases |b.structure| - o
  {
    hide PropFrom;
    match PropFrom(b, o, 1)
    case PropFailed =>
    case NoMore =>
    case Item(p, data, n) =>
      FirstNamedAgrees(b, n, name, cells);
      assert AllProps(b, o).value[1..] == AllProps(b, n).value;
  }

  // ---------------------------------------------------------------- the flattened bytes of a tree

  /** Bytes that flatten the tree: its tokens with NOPs anywhere among them, and anything after the end. */
  ghost predicate Flattens(b: Blob, t: Tree) {
    exists rs, after :: AllOk(rs, b.strings) && Strip(rs, b.strings) == Preorder(t)
                        && b.structure == Flatten(rs, b.strings) + after
  }

  /** The iterator yields exactly the preorder tokens of the tree. */
  lemma TreeYields(b: Blob, t: Tree)
    requires Flattens(b, t)
    ensures Yields(b, 0, Preorder(t))
  {
    hide Yields, Flatten, Strip;
    var rs, after :| AllOk(rs, b.strings) && Strip(rs, b.strings) == Preorder(t)
                     && b.structure == Flatten(rs, b.strings) + after;
    FlattenYields([], rs, b.strings, after);
    assert [] + Flatten(rs, b.strings) + after == b.structure;
  }

  /** What a lookup of the node at a path should give. */
  function LookupPath(t: Tree, path: Bytes): Answer { Lookup(More(t, Leaf), Split(path), DEFAULT) }

  lemma SearchTree(b: Blob, t: Tree, path: Bytes)
    requires Flattens(b, t)
    ensures Agrees(b, SearchFrom(b, 0, Split(path), DEFAULT), LookupPath(t, path))
  {
    hide Flattens, Split, SearchFrom, Lookup, Agrees;
    TreeYields(b, t);
    assert Tokens(More(t, Leaf)) + [] == Preorder(t);
    hide Tokens, Preorder;
    SearchAgrees(b, 0, More(t, Leaf), [], Split(path), DEFAULT);
  }

  /** `iter_node_properties` yields exactly the properties of the node at the path. */
  lemma PropertiesAtPath(b: Blob, t: Tree, path: Bytes)
    requires Flattens(b, t)
    ensures var r, a := SearchFrom(b, 0, Split(path), DEFAULT), LookupPath(t, path);
            && (a.NoNode? ==> r == Missing) && (a.BadCells? ==> r == Failed)
            && (a.FoundNode? ==> r.Found? && r.cells == a.cells && AllProps(b, r.offset) == Some(a.node.props))
  {
    hide Flattens, Split, SearchFrom, Lookup, AllProps, Body, Yields;
    SearchTree(b, t, path);
    match LookupPath(t, path)
    case FoundNode(node, cells) =>
      var o := SearchFrom(b, 0, Split(path), DEFAULT).offset;
      var ts :| Yields(b, o, Body(node) + ([End] + ts));
      NodeProperties(b, o, node, ts);
    case _ =>
  }

  /** `iter_nodes_named` yields exactly the children of that name of the node at the path. */
  lemma NamedAtPath(b: Blob, t: Tree, path: Bytes, name: Bytes)
    requires Flattens(b, t) && LookupPath(t, path).FoundNode?
    ensures var r, a := SearchFrom(b, 0, Split(path), DEFAULT), LookupPath(t, path);
            && r.Found?
            && var own := Cells(Some(r.cells.Address()), Some(r.cells.Size()));
               AllNamed(b, r.offset, name, own) == match AfterProps(own, a.node.props)
                                                   case None => None
                                                   case Some(c) => Some(NamedChildren(a.node.children, name, c))
  {
    hide Flattens, Split, SearchFrom, Lookup, AllNamed, Yields, PropTokens, Tokens, Body, AfterProps, NamedChildren;
    SearchTree(b, t, path);
    var r, node := SearchFrom(b, 0, Split(path), DEFAULT), LookupPath(t, path).node;
    var ts :| Yields(b, r.offset, Body(node) + ([End] + ts));
    PreorderStep(node, [End] + ts);
    NamedAgrees(b, r.offset, node.props, node.children, ts, name, Cells(Some(r.cells.Address()), Some(r.cells.Size())));
  }

  /** `find_property` gives the first property of that name of the node at the path before the last slash. */
  lemma PropertyAtPath(b: Blob, t: Tree, path: Bytes)
    requires Flattens(b, t)
    ensures FindIn(b, path) == match LastSlash(path)
                               case None => PropMissing
                               case Some(i) =>
                                 match LookupPath(t, path[..i + 1])
                                 case NoNode => PropMissing
                                 case BadCells => FindFailed
                                 case FoundNode(node, cells) =>
                                   match FirstProp(node.props, path[i + 1..])
                                   case None => PropMissing
                                   case Some(p) => PropFound(p.name, p.data, cells)
  {
    hide Flattens, Split, SearchFrom, Lookup, AllProps, FirstNamed, FirstProp;
    if LastSlash(path).Some? {
      var i := LastSlash(path).value;
      PropertiesAtPath(b, t, path[..i + 1]);
      match SearchFrom(b, 0, Split(path[..i + 1]), DEFAULT)
      case Found(o, cells) => FirstNamedAgrees(b, o, path[i + 1..], cells);
      case _ =>
    }
  }
}
