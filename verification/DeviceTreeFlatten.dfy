/** A flattener for every tree that can be written, so that reading it back is a round trip. */
module DeviceTreeFlatten {
  import opened DeviceTree
  import opened DeviceTreeReader
  import opened DeviceTreeQueries

  predicate PropWritable(p: Prop) { 0 !in p.name && |p.data| < 0x1_0000_0000 }

  predicate Writable(t: Tree)
    decreases t, 0
  {
    0 !in t.name && (forall i :: 0 <= i < |t.props| ==> PropWritable(t.props[i])) && AllWritable(t.children)
  }

  predicate AllWritable(f: Forest)
    decreases f, 1
  {
    f.More? ==> Writable(f.first) && AllWritable(f.rest)
  }

  /** Items, and the strings block after their names were added to it. */
  datatype Written = Written(items: seq<Raw>, strings: Bytes)

  function WriteProps(props: seq<Prop>, strings: Bytes): Written {
    if props == [] then Written([], strings)
    else
      var rest := WriteProps(props[1..], strings + props[0].name + [0]);
      Written([Attribute(|strings|, props[0].data)] + rest.items, rest.strings)
  }

  function WriteNode(t: Tree, strings: Bytes): Written
    decreases t, 0
  {
    var props := WriteProps(t.props, strings);
    var children := WriteForest(t.children, props.strings);
    Written([BeginNode(t.name)] + props.items + children.items + [EndNode], children.strings)
  }

  function WriteForest(f: Forest, strings: Bytes): Written
    decreases f, 1
  {
    match f
    case Leaf => Written([], strings)
    case More(t, rest) =>
      var first := WriteNode(t, strings);
      var more := WriteForest(rest, first.strings);
      Written(first.items + more.items, more.strings)
  }

  /** The items mean these tokens, whatever else is added to the strings. */
  ghost predicate Means(items: seq<Raw>, strings: Bytes, ts: seq<Token>) {
    AllOk(items, strings) && Strip(items, strings) == ts
  }

  lemma {:induction false} StripAppend(a: seq<Raw>, b: seq<Raw>, strings: Bytes)
    requires AllOk(a, strings) && AllOk(b, strings)
    ensures AllOk(a + b, strings) && Strip(a + b, strings) == Strip(a, strings) + Strip(b, strings)
    decreases |a|
  {
    hide Meaning;
    if a == [] {
      assert a + b == b;
    } else {
      assert (a + b)[1..] == a[1..] + b;
      StripAppend(a[1..], b, strings);
    }
  }

  lemma MeansAppend(a: seq<Raw>, b: seq<Raw>, strings: Bytes, ts: seq<Token>, us: seq<Token>)
    requires Means(a, strings, ts) && Means(b, strings, us)
    ensures Means(a + b, strings, ts + us)
  {
    StripAppend(a, b, strings);
  }

  lemma MeansOne(r: Raw, strings: Bytes)
    requires RawOk(r, strings)
    ensures Means([r], strings, Meaning(r, strings))
  {}

  lemma InMiddle(s: Bytes, name: Bytes, back: Bytes)
    requires |back| > 0
    ensures var all := s + name + back;
            all[|s|..|s| + |name|] == name && all[|s| + |name|] == back[0]
  {}

  /** A name in the strings block is found whatever follows it. */
  lemma NameAt(s: Bytes, name: Bytes, more: Bytes)
    requires 0 !in name
    ensures var all := s + name + [0] + more;
            all[|s|..NameEnd(all, |s|)] == name
  {
    hide NameEnd;
    var front: Bytes, back: Bytes := s + name, [0] + more;
    assert s + name + [0] + more == front + back;
    InMiddle(s, name, back);
    NameEndIs(front + back, |s|, |s| + |name|);
  }

  lemma {:induction false} PropsMean(props: seq<Prop>, strings: Bytes, more: Bytes)
    requires forall i :: 0 <= i < |props| ==> PropWritable(props[i])
    requires |WriteProps(props, strings).strings| < 0x1_0000_0000
    ensures var w := WriteProps(props, strings);
            strings <= w.strings && Means(w.items, w.strings + more, PropTokens(props))
    decreases |props|
  {
    hide Meaning, NameEnd;
    if props == [] {
      assert PropTokens(props) == [];
    } else {
      var p, next := props[0], strings + props[0].name + [0];
      PropsMean(props[1..], next, more);
      var w := WriteProps(props[1..], next);
      var tail := w.strings[|next|..] + more;
      assert w.strings + more == next + tail;
      NameAt(strings, p.name, tail);
      var item := Attribute(|strings|, p.data);
      MeansOne(item, w.strings + more);
      assert Meaning(item, w.strings + more) == [Property(p.name, p.data)] by {
        AttributeMeans(item, w.strings + more, p.name);
      }
      MeansAppend([item], w.items, w.strings + more, [Property(p.name, p.data)], PropTokens(props[1..]));
      assert PropTokens(props) == [Property(p.name, p.data)] + PropTokens(props[1..]);
    }
  }

  lemma AttributeMeans(item: Raw, strings: Bytes, name: Bytes)
    requires item.Attribute? && RawOk(item, strings)
             && strings[item.nameOffset..NameEnd(strings, item.nameOffset)] == name
    ensures Meaning(item, strings) == [Property(name, item.data)]
  {}

  lemma {:induction false} NodeMeans(t: Tree, strings: Bytes, more: Bytes)
    requires Writable(t) && |WriteNode(t, strings).strings| < 0x1_0000_0000
    ensures var w := WriteNode(t, strings);
            strings <= w.strings && Means(w.items, w.strings + more, Preorder(t))
    decreases t, 0
  {
    hide WriteProps, Means, PropTokens;
    var props := WriteProps(t.props, strings);
    var children := WriteForest(t.children, props.strings);
    ForestMeans(t.children, props.strings, more);
    hide WriteForest, Tokens;
    var rest := children.strings[|props.strings|..] + more;
    assert props.strings + rest == children.strings + more;
    PropsMean(t.props, strings, rest);
    var s := children.strings + more;
    MeansOne(BeginNode(t.name), s);
    MeansOne(EndNode, s);
    MeansAppend([BeginNode(t.name)], props.items, s, [Start(t.name)], PropTokens(t.props));
    MeansAppend([BeginNode(t.name)] + props.items, children.items, s,
                [Start(t.name)] + PropTokens(t.props), Tokens(t.children));
    MeansAppend([BeginNode(t.name)] + props.items + children.items, [EndNode], s,
                [Start(t.name)] + PropTokens(t.props) + Tokens(t.children), [End]);
    assert Preorder(t) == [Start(t.name)] + PropTokens(t.props) + Tokens(t.children) + [End];
  }

  lemma {:induction false} ForestMeans(f: Forest, strings: Bytes, more: Bytes)
    requires AllWritable(f) && |WriteForest(f, strings).strings| < 0x1_0000_0000
    ensures var w := WriteForest(f, strings);
            strings <= w.strings && Means(w.items, w.strings + more, Tokens(f))
    decreases f, 1
  {
    match f
    case Leaf =>
    case More(t, rest) =>
      hide WriteNode, Means, Preorder;
      var first := WriteNode(t, strings);
      var w := WriteForest(rest, first.strings);
      ForestMeans(rest, first.strings, more);
      var tail := w.strings[|first.strings|..] + more;
      assert first.strings + tail == w.strings + more;
      NodeMeans(t, strings, tail);
      MeansAppend(first.items, w.items, w.strings + more, Preorder(t), Tokens(rest));
  }

  /** The blob of a tree. */
  function BlobOf(t: Tree, after: Bytes): Blob
    requires Writable(t) && |WriteNode(t, []).strings| < 0x1_0000_0000
  {
    var w := WriteNode(t, []);
    NodeMeans(t, [], []);
    assert w.strings + [] == w.strings;
    Blob(Flatten(w.items, w.strings) + after, w.strings)
  }

  /** Flattening a tree and reading it back gives its preorder tokens, whatever follows in the block. */
  lemma RoundTrip(t: Tree, after: Bytes)
    requires Writable(t) && |WriteNode(t, []).strings| < 0x1_0000_0000
    ensures Flattens(BlobOf(t, after), t) && Yields(BlobOf(t, after), 0, Preorder(t))
  {
    hide Writable, WriteNode, Preorder, Flatten, Strip, Yields;
    var w := WriteNode(t, []);
    NodeMeans(t, [], []);
    assert w.strings + [] == w.strings;
    TreeYields(BlobOf(t, after), t);
  }
}
