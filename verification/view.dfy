/**
 * `Tree.toJSON(context)`: the nested dictionaries turned into an ordered,
 * filtered list, depth first, each node before its children. The source
 * rewrites the nodes in place; here each visited node yields a `NodeView`
 * and the tree itself is left as it was.
 */
module TreeView {
  import opened Wrappers
  import opened UrlCanon
  import opened StableSort
  import opened TreeNodes

  /**
   * A node as it comes out of `toJSON`: its document fields (absent on an
   * intermediate node), `active`/`current` when a context was given, and
   * `children` unless that property was deleted.
   */
  datatype NodeView = NodeView(
    fields: Option<Fields>,
    active: Option<bool>,
    current: Option<bool>,
    children: Children)

  /** The `children` property of an output node: deleted, or a list. */
  datatype Children = Deleted | Listed(views: seq<NodeView>)

  /** The TypeError of reading `.replace` on the undefined `url` of an intermediate node. */
  datatype Error = UrlUndefined

  /** `if (current.hidden) return;` */
  predicate Hidden(node: Node) {
    node.fields.Some? && node.fields.value.hidden
  }

  /** `parseFloat(doc.order)`; `None` is the NaN of a node without an order. */
  function OrderKey(node: Node): Option<int> {
    if node.fields.Some? then Some(node.fields.value.order) else None
  }

  /** The sort criterion of each key of a level: the order of the node it holds. */
  function KeyOf(level: Level): string -> Option<int> {
    (k: string) => if k in level.entries then OrderKey(level.entries[k]) else None
  }

  /**
   * `_.sortBy(level, doc => parseFloat(doc.order))`, as the keys of the
   * sorted nodes; underscore takes the nodes in the dictionary's
   * enumeration order.
   */
  function SortedKeys(level: Level): seq<string> {
    SortBy(Enumeration(level), KeyOf(level))
  }

  /**
   * `addDocument(parent, current)` for one node: `None` when it is hidden
   * and so not pushed, an error when a context is given and the node has no
   * url, else the node with its flags and its (recursively visited) children.
   */
  function ViewNode(node: Node, ctx: Option<Doc>): Result<Option<NodeView>, Error>
    decreases node, 0
  {
    if Hidden(node) then Ok(None)
    else if ctx.Some? && node.fields.None? then Err(UrlUndefined)
    else
      var active := if ctx.Some? then Some(Canonical(node.fields.value.url) <= Canonical(ctx.value.url)) else None;
      var current := if ctx.Some? then Some(Canonical(ctx.value.url) == Canonical(node.fields.value.url)) else None;
      var sorted := SortedKeys(node.children);
      if |sorted| == 0 then Ok(Some(NodeView(node.fields, active, current, Deleted)))
      else
        var kids := ViewKeys(node.children, sorted, ctx);
        if kids.Err? then Err(kids.error)
        else Ok(Some(NodeView(node.fields, active, current, Listed(kids.value))))
  }

  /** The `forEach` over the nodes of `level` taken in the order `ks`, pushing each visited one. */
  function ViewKeys(level: Level, ks: seq<string>, ctx: Option<Doc>): Result<seq<NodeView>, Error>
    decreases level, |ks|
  {
    if ks == [] then Ok([])
    else if ks[0] !in level.entries then ViewKeys(level, ks[1..], ctx)
    else
      var first := ViewNode(level.entries[ks[0]], ctx);
      if first.Err? then Err(first.error)
      else
        var rest := ViewKeys(level, ks[1..], ctx);
        if rest.Err? then Err(rest.error)
        else Ok(Pushed(first.value) + rest.value)
  }

  function Pushed(v: Option<NodeView>): seq<NodeView> {
    if v.Some? then [v.value] else []
  }

  /** `toJSON(context)`: the top level, sorted, then each node visited. */
  function Serialize(level: Level, ctx: Option<Doc>): Result<seq<NodeView>, Error> {
    ViewKeys(level, SortedKeys(level), ctx)
  }

  // ---------------------------------------------------------------------
  // A reference description of the output, independent of the sorting.
  // ---------------------------------------------------------------------

  /** The views in pre-order: each view, then its children, then its later siblings. */
  function Flat(vs: seq<NodeView>): seq<NodeView>
    decreases vs
  {
    if vs == [] then [] else FlatView(vs[0]) + Flat(vs[1..])
  }

  function FlatView(v: NodeView): seq<NodeView>
    decreases v
  {
    [v] + (if v.children.Listed? then Flat(v.children.views) else [])
  }

  function FieldList(vs: seq<NodeView>): seq<Option<Fields>> {
    if vs == [] then [] else [vs[0].fields] + FieldList(vs[1..])
  }

  /** The fields of every node of the subtree that no hidden node hides (itself included). */
  function ShownNode(node: Node): multiset<Option<Fields>>
    decreases node, 0
  {
    if Hidden(node) then multiset{}
    else multiset{node.fields} + ShownKeys(node.children, node.children.keys)
  }

  function ShownKeys(level: Level, ks: seq<string>): multiset<Option<Fields>>
    decreases level, |ks|
  {
    if ks == [] then multiset{}
    else (if ks[0] in level.entries then ShownNode(level.entries[ks[0]]) else multiset{})
         + ShownKeys(level, ks[1..])
  }

  function Shown(level: Level): multiset<Option<Fields>> {
    ShownKeys(level, level.keys)
  }

  /** A view is not hidden and its flags are those `toJSON` promises for `ctx`. */
  ghost predicate Annotated(v: NodeView, ctx: Option<Doc>) {
    && !(v.fields.Some? && v.fields.value.hidden)
    && match ctx
       case None => v.active.None? && v.current.None?
       case Some(c) =>
         && v.fields.Some?
         && v.active == Some(Canonical(v.fields.value.url) <= Canonical(c.url))
         && v.current == Some(Canonical(c.url) == Canonical(v.fields.value.url))
  }

  ghost predicate AllAnnotated(vs: seq<NodeView>, ctx: Option<Doc>) {
    forall i :: 0 <= i < |vs| ==> Annotated(vs[i], ctx)
  }

  lemma {:induction false} FlatAppend(a: seq<NodeView>, b: seq<NodeView>)
    ensures Flat(a + b) == Flat(a) + Flat(b)
    decreases |a|
  {
    if a == [] {
      assert a + b == b;
    } else {
      assert (a + b)[0] == a[0] && (a + b)[1..] == a[1..] + b;
      FlatAppend(a[1..], b);
    }
  }

  lemma {:induction false} FieldListAppend(a: seq<NodeView>, b: seq<NodeView>)
    ensures FieldList(a + b) == FieldList(a) + FieldList(b)
    decreases |a|
  {
    if a == [] {
      assert a + b == b;
    } else {
      assert (a + b)[0] == a[0] && (a + b)[1..] == a[1..] + b;
      FieldListAppend(a[1..], b);
    }
  }

  lemma {:induction false} ShownKeysAppend(level: Level, a: seq<string>, b: seq<string>)
    ensures ShownKeys(level, a + b) == ShownKeys(level, a) + ShownKeys(level, b)
    decreases |a|
  {
    if a == [] {
      assert a + b == b;
    } else {
      assert (a + b)[0] == a[0] && (a + b)[1..] == a[1..] + b;
      ShownKeysAppend(level, a[1..], b);
    }
  }

  lemma ShownKeysRemove(level: Level, b: seq<string>, j: nat)
    requires j < |b|
    ensures ShownKeys(level, b) == ShownKeys(level, [b[j]]) + ShownKeys(level, b[..j] + b[j + 1..])
  {
    assert b == b[..j] + ([b[j]] + b[j + 1..]);
    ShownKeysAppend(level, b[..j], [b[j]] + b[j + 1..]);
    ShownKeysAppend(level, [b[j]], b[j + 1..]);
    ShownKeysAppend(level, b[..j], b[j + 1..]);
  }

  lemma MultisetRemove(a: seq<string>, b: seq<string>, j: nat)
    requires j < |b| && a != [] && b[j] == a[0] && multiset(a) == multiset(b)
    ensures multiset(a[1..]) == multiset(b[..j] + b[j + 1..])
  {
    var rest := b[..j] + b[j + 1..];
    assert b == b[..j] + [b[j]] + b[j + 1..];
    assert a == [a[0]] + a[1..];
    assert multiset(b) == multiset(b[..j]) + multiset{b[j]} + multiset(b[j + 1..]);
    assert multiset(rest) == multiset(b[..j]) + multiset(b[j + 1..]);
    assert multiset(a) == multiset{a[0]} + multiset(a[1..]);
    forall x ensures multiset(a[1..])[x] == multiset(rest)[x] {
      assert multiset(a)[x] == multiset(b)[x];
    }
  }

  /** Visiting the keys in another order shows the same nodes. */
  lemma {:induction false} ShownKeysPermutation(level: Level, a: seq<string>, b: seq<string>)
    requires multiset(a) == multiset(b)
    ensures ShownKeys(level, a) == ShownKeys(level, b)
    decreases |a|
  {
    if a != [] {
      assert a[0] in multiset(b);
      var j :| 0 <= j < |b| && b[j] == a[0];
      MultisetRemove(a, b, j);
      ShownKeysPermutation(level, a[1..], b[..j] + b[j + 1..]);
      ShownKeysRemove(level, b, j);
      assert [b[j]][1..] == [];
    } else {
      assert b == [] by {
        assert |multiset(b)| == 0;
      }
    }
  }

  lemma SortedKeysPermutation(level: Level)
    ensures multiset(SortedKeys(level)) == multiset(level.keys)
    ensures |SortedKeys(level)| == |level.keys|
  {
    SortByPermutation(Enumeration(level), KeyOf(level));
    EnumerationPermutation(level);
  }

  /** What `ViewNode` gives for a node that is visited without failing on its own url. */
  lemma ViewNodeVisited(node: Node, ctx: Option<Doc>)
    requires !Hidden(node) && !(ctx.Some? && node.fields.None?)
    ensures var r, sorted := ViewNode(node, ctx), SortedKeys(node.children);
      && (|sorted| == 0 ==> r.Ok? && r.value.Some? && r.value.value.children == Deleted)
      && (|sorted| > 0 ==> (r.Err? <==> ViewKeys(node.children, sorted, ctx).Err?))
      && (|sorted| > 0 && r.Ok? ==>
            r.value.Some? && r.value.value.children == Listed(ViewKeys(node.children, sorted, ctx).value))
      && (r.Ok? ==> r.value.Some? && r.value.value.fields == node.fields && Annotated(r.value.value, ctx))
  {
  }

  lemma FlatOne(v: NodeView)
    ensures Flat([v]) == FlatView(v)
    ensures FieldList(Flat([v])) == [v.fields] + FieldList(if v.children.Listed? then Flat(v.children.views) else [])
  {
    assert [v][1..] == [];
    assert FlatView(v) + [] == FlatView(v);
    FieldListAppend([v], if v.children.Listed? then Flat(v.children.views) else []);
  }

  /** What the visit of one node promises, stated against the shown subtree. */
  ghost predicate NodeFacts(node: Node, ctx: Option<Doc>) {
    var r := ViewNode(node, ctx);
    && (r.Err? <==> ctx.Some? && None in ShownNode(node))
    && (r.Ok? ==> multiset(FieldList(Flat(Pushed(r.value)))) == ShownNode(node))
    && (r.Ok? ==> AllAnnotated(Flat(Pushed(r.value)), ctx))
  }

  /** What the visit of the keys `ks` of a level promises. */
  ghost predicate KeysFacts(level: Level, ks: seq<string>, ctx: Option<Doc>) {
    var r := ViewKeys(level, ks, ctx);
    && (r.Err? <==> ctx.Some? && None in ShownKeys(level, ks))
    && (r.Ok? ==> multiset(FieldList(Flat(r.value))) == ShownKeys(level, ks))
    && (r.Ok? ==> AllAnnotated(Flat(r.value), ctx))
  }

  lemma ViewNodeLeaf(node: Node, ctx: Option<Doc>)
    requires !Hidden(node) && !(ctx.Some? && node.fields.None?)
    requires SortedKeys(node.children) == [] && node.children.keys == []
    ensures NodeFacts(node, ctx)
  {
    ViewNodeVisited(node, ctx);
    FlatOne(ViewNode(node, ctx).value.value);
  }

  lemma ViewNodeInner(node: Node, ctx: Option<Doc>)
    requires !Hidden(node) && !(ctx.Some? && node.fields.None?)
    requires SortedKeys(node.children) != []
    requires KeysFacts(node.children, SortedKeys(node.children), ctx)
    requires ShownKeys(node.children, SortedKeys(node.children)) == ShownKeys(node.children, node.children.keys)
    ensures NodeFacts(node, ctx)
  {
    ViewNodeVisited(node, ctx);
    var r := ViewNode(node, ctx);
    if r.Ok? {
      var v := r.value.value;
      FlatOne(v);
      assert Pushed(r.value) == [v];
      var rest := Flat(v.children.views);
      assert Flat([v]) == [v] + rest;
      assert AllAnnotated(Flat([v]), ctx) by {
        forall i | 0 <= i < |Flat([v])| ensures Annotated(Flat([v])[i], ctx) {
          if i > 0 {
            assert Flat([v])[i] == rest[i - 1];
          }
        }
      }
    }
  }

  lemma {:induction false} ViewNodeFacts(node: Node, ctx: Option<Doc>)
    ensures NodeFacts(node, ctx)
    decreases node, 0
  {
    if !Hidden(node) && !(ctx.Some? && node.fields.None?) {
      var sorted := SortedKeys(node.children);
      SortedKeysPermutation(node.children);
      ShownKeysPermutation(node.children, sorted, node.children.keys);
      if |sorted| == 0 {
        ViewNodeLeaf(node, ctx);
      } else {
        ViewKeysFacts(node.children, sorted, ctx);
        ViewNodeInner(node, ctx);
      }
    }
  }

  lemma ViewKeysCons(level: Level, ks: seq<string>, ctx: Option<Doc>)
    requires ks != [] && ks[0] in level.entries
    ensures var r, r1, r2 := ViewKeys(level, ks, ctx), ViewNode(level.entries[ks[0]], ctx), ViewKeys(level, ks[1..], ctx);
      && (r.Err? <==> r1.Err? || r2.Err?)
      && (r.Ok? ==> r.value == Pushed(r1.value) + r2.value)
  {
  }

  lemma AllAnnotatedAppend(a: seq<NodeView>, b: seq<NodeView>, ctx: Option<Doc>)
    requires AllAnnotated(a, ctx) && AllAnnotated(b, ctx)
    ensures AllAnnotated(a + b, ctx)
  {
    forall i | 0 <= i < |a + b| ensures Annotated((a + b)[i], ctx) {
      if i >= |a| {
        assert (a + b)[i] == b[i - |a|];
      }
    }
  }

  lemma {:induction false} ViewKeysFacts(level: Level, ks: seq<string>, ctx: Option<Doc>)
    ensures KeysFacts(level, ks, ctx)
    decreases level, |ks|
  {
    if ks != [] {
      ViewKeysFacts(level, ks[1..], ctx);
      if ks[0] in level.entries {
        var node := level.entries[ks[0]];
        ViewNodeFacts(node, ctx);
        ViewKeysCons(level, ks, ctx);
        var r1, r2 := ViewNode(node, ctx), ViewKeys(level, ks[1..], ctx);
        assert ShownKeys(level, ks) == ShownNode(node) + ShownKeys(level, ks[1..]);
        if !r1.Err? && !r2.Err? {
          var first, rest := Pushed(r1.value), r2.value;
          FlatAppend(first, rest);
          FieldListAppend(Flat(first), Flat(rest));
          AllAnnotatedAppend(Flat(first), Flat(rest), ctx);
        }
      }
    }
  }

  /**
   * Every node that is not hidden and has no hidden ancestor appears
   * exactly once in the output: flattened in pre-order, the fields of the
   * output are, as a multiset, those of the shown nodes. A hidden node drops
   * out with its whole subtree.
   */
  lemma SerializeExactlyOnce(level: Level, ctx: Option<Doc>)
    requires Serialize(level, ctx).Ok?
    ensures multiset(FieldList(Flat(Serialize(level, ctx).value))) == Shown(level)
  {
    SortedKeysPermutation(level);
    ShownKeysPermutation(level, SortedKeys(level), level.keys);
    ViewKeysFacts(level, SortedKeys(level), ctx);
  }

  /**
   * `toJSON` fails exactly when a context is given and some shown node has
   * no url (an intermediate node that no document ends at).
   */
  lemma SerializeFails(level: Level, ctx: Option<Doc>)
    ensures Serialize(level, ctx).Err? <==> ctx.Some? && None in Shown(level)
  {
    SortedKeysPermutation(level);
    ShownKeysPermutation(level, SortedKeys(level), level.keys);
    ViewKeysFacts(level, SortedKeys(level), ctx);
  }

  /**
   * No output node, at any depth, is hidden; without a context no node has
   * `active` or `current`; with one, `active` says that the canonical
   * context url starts with the node's canonical url and `current` that they
   * are equal, so `current` implies `active`.
   */
  lemma SerializeAnnotations(level: Level, ctx: Option<Doc>)
    requires Serialize(level, ctx).Ok?
    ensures var flat := Flat(Serialize(level, ctx).value);
      && (forall i :: 0 <= i < |flat| ==> Annotated(flat[i], ctx))
      && (forall i :: 0 <= i < |flat| && flat[i].current == Some(true) ==> flat[i].active == Some(true))
  {
    ViewKeysFacts(level, SortedKeys(level), ctx);
  }

  lemma {:induction false} ViewKeysAllHidden(level: Level, ks: seq<string>, ctx: Option<Doc>)
    requires forall k | k in level.entries :: Hidden(level.entries[k])
    ensures ViewKeys(level, ks, ctx) == Ok([])
    decreases |ks|
  {
    if ks != [] {
      ViewKeysAllHidden(level, ks[1..], ctx);
      if ks[0] in level.entries {
        var first := ViewNode(level.entries[ks[0]], ctx);
        assert Hidden(level.entries[ks[0]]);
        assert first == Ok(None);
        assert Pushed(first.value) == [];
        assert ViewKeys(level, ks, ctx) == Ok(Pushed(first.value) + []);
        assert Pushed(first.value) + [] == [];
      }
    }
  }

  /**
   * `children` is deleted exactly when the node had no children at all; when
   * it had some and all of them are hidden it becomes an empty list.
   */
  lemma ViewChildren(node: Node, ctx: Option<Doc>)
    requires ViewNode(node, ctx).Ok? && ViewNode(node, ctx).value.Some?
    ensures var v := ViewNode(node, ctx).value.value;
      && (v.children.Deleted? <==> node.children.keys == [])
      && ((node.children.keys != [] && forall k | k in node.children.entries :: Hidden(node.children.entries[k]))
          ==> v.children == Listed([]))
  {
    SortedKeysPermutation(node.children);
    if node.children.keys != [] && (forall k | k in node.children.entries :: Hidden(node.children.entries[k])) {
      ViewKeysAllHidden(node.children, SortedKeys(node.children), ctx);
    }
  }

  /** Every view carries fields, with an order of at least `m`, and the orders ascend. */
  ghost predicate OrderedFrom(out: seq<NodeView>, m: int) {
    && (forall i :: 0 <= i < |out| ==> out[i].fields.Some? && out[i].fields.value.order >= m)
    && (forall i, j :: 0 <= i < j < |out| ==> out[i].fields.value.order <= out[j].fields.value.order)
  }

  lemma OrderedCons(first: seq<NodeView>, rest: seq<NodeView>, m: int, m': int)
    requires |first| <= 1 && m <= m'
    requires forall i :: 0 <= i < |first| ==> first[i].fields.Some? && first[i].fields.value.order == m
    requires OrderedFrom(rest, m')
    ensures OrderedFrom(first + rest, m)
  {
    var out := first + rest;
    forall i | 0 <= i < |out| ensures out[i].fields.Some? && out[i].fields.value.order >= m {
      if i >= |first| {
        assert out[i] == rest[i - |first|];
      }
    }
    forall i, j | 0 <= i < j < |out| ensures out[i].fields.value.order <= out[j].fields.value.order {
      assert out[j] == rest[j - |first|];
      if i >= |first| {
        assert out[i] == rest[i - |first|];
      }
    }
  }

  lemma {:induction false} ViewKeysOrdered(level: Level, ks: seq<string>, ctx: Option<Doc>)
    requires AllKeyed(ks, KeyOf(level))
    requires forall i, j :: 0 <= i < j < |ks| ==> KeyOf(level)(ks[i]).value <= KeyOf(level)(ks[j]).value
    requires ViewKeys(level, ks, ctx).Ok?
    ensures |ks| > 0 ==> OrderedFrom(ViewKeys(level, ks, ctx).value, KeyOf(level)(ks[0]).value)
    ensures |ks| == 0 ==> ViewKeys(level, ks, ctx).value == []
    decreases |ks|
  {
    if ks != [] {
      var tail := ks[1..];
      assert AllKeyed(tail, KeyOf(level)) by {
        forall i | 0 <= i < |tail| ensures KeyOf(level)(tail[i]).Some? {
          assert tail[i] == ks[i + 1];
        }
      }
      assert forall i, j :: 0 <= i < j < |tail| ==> KeyOf(level)(tail[i]).value <= KeyOf(level)(tail[j]).value by {
        forall i, j | 0 <= i < j < |tail| ensures KeyOf(level)(tail[i]).value <= KeyOf(level)(tail[j]).value {
          assert tail[i] == ks[i + 1] && tail[j] == ks[j + 1];
        }
      }
      ViewKeysOrdered(level, tail, ctx);
      var m := KeyOf(level)(ks[0]).value;
      var node := level.entries[ks[0]];
      var first := Pushed(ViewNode(node, ctx).value);
      var rest := ViewKeys(level, tail, ctx).value;
      ViewKeysCons(level, ks, ctx);
      if ViewNode(node, ctx).value.Some? {
        ViewNodeVisited(node, ctx);
      }
      if |ks| > 1 {
        assert tail[0] == ks[1];
        OrderedCons(first, rest, m, KeyOf(level)(ks[1]).value);
      } else {
        OrderedCons(first, rest, m, m);
      }
    }
  }

  lemma EnumerationKeyed(level: Level)
    requires forall i :: 0 <= i < |level.keys| ==>
      level.keys[i] in level.entries && level.entries[level.keys[i]].fields.Some?
    ensures AllKeyed(Enumeration(level), KeyOf(level))
  {
    var e := Enumeration(level);
    EnumerationPermutation(level);
    forall i | 0 <= i < |e| ensures KeyOf(level)(e[i]).Some? {
      assert e[i] in multiset(level.keys);
      var j :| 0 <= j < |level.keys| && level.keys[j] == e[i];
    }
  }

  /**
   * At the top level and within every node's children, when every node of
   * the level carries an order, the visited nodes come out in ascending
   * order (ties keep the enumeration order, see `SortByStable`).
   */
  lemma LevelOrdered(level: Level, ctx: Option<Doc>)
    requires forall i :: 0 <= i < |level.keys| ==>
      level.keys[i] in level.entries && level.entries[level.keys[i]].fields.Some?
    requires ViewKeys(level, SortedKeys(level), ctx).Ok?
    ensures var out := ViewKeys(level, SortedKeys(level), ctx).value;
      forall i, j :: 0 <= i < j < |out| ==>
        out[i].fields.Some? && out[j].fields.Some? && out[i].fields.value.order <= out[j].fields.value.order
  {
    EnumerationKeyed(level);
    SortBySorted(Enumeration(level), KeyOf(level));
    ViewKeysOrdered(level, SortedKeys(level), ctx);
  }
}
