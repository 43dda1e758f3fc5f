/**
 * The `Tree` class: its constructor runs `addChild` for every document of
 * the collection, in order, over the top-level dictionary `documents`, and
 * `toJSON(context)` walks the result depth first.
 */
module TreeClass {
  import opened Wrappers
  import opened UrlCanon
  import opened StableSort
  import opened TreeNodes
  import opened TreeView

  /** `out` followed by the views of a serialisation that did not fail. */
  function Prefixed(out: seq<NodeView>, r: Result<seq<NodeView>, Error>): Result<seq<NodeView>, Error> {
    if r.Err? then Err(r.error) else Ok(out + r.value)
  }

  /** `parent` after `addDocument(parent, node)` gave `r`: the view pushed unless the node was hidden. */
  function PushInto(parent: seq<NodeView>, r: Result<Option<NodeView>, Error>): Result<seq<NodeView>, Error> {
    if r.Err? then Err(r.error) else Ok(parent + Pushed(r.value))
  }

  lemma SortedKeysInLevel(level: Level)
    requires ValidLevel(level)
    ensures forall i :: 0 <= i < |SortedKeys(level)| ==> SortedKeys(level)[i] in level.entries
  {
    SortedKeysPermutation(level);
    forall i | 0 <= i < |SortedKeys(level)| ensures SortedKeys(level)[i] in level.entries {
      assert SortedKeys(level)[i] in multiset(level.keys);
    }
  }

  /** One step of the `forEach` over sorted keys. */
  lemma ViewKeysStep(level: Level, ks: seq<string>, i: nat, out: seq<NodeView>, ctx: Option<Doc>)
    requires i < |ks| && ks[i] in level.entries
    ensures Prefixed(out, ViewKeys(level, ks[i..], ctx))
        == (var r := PushInto(out, ViewNode(level.entries[ks[i]], ctx));
            if r.Err? then Err(r.error) else Prefixed(r.value, ViewKeys(level, ks[i + 1..], ctx)))
  {
    assert ks[i..][1..] == ks[i + 1..];
    ViewKeysCons(level, ks[i..], ctx);
    var r1, r2 := ViewNode(level.entries[ks[i]], ctx), ViewKeys(level, ks[i + 1..], ctx);
    if r1.Err? {
      assert r1.error == UrlUndefined && ViewKeys(level, ks[i..], ctx).error == UrlUndefined;
    } else if r2.Err? {
      assert r2.error == UrlUndefined && ViewKeys(level, ks[i..], ctx).error == UrlUndefined;
    } else {
      assert out + (Pushed(r1.value) + r2.value) == (out + Pushed(r1.value)) + r2.value;
    }
  }

  lemma PrefixedEnds(level: Level, ks: seq<string>, out: seq<NodeView>, ctx: Option<Doc>)
    ensures Prefixed([], ViewKeys(level, ks, ctx)) == ViewKeys(level, ks, ctx)
    ensures Prefixed(out, ViewKeys(level, ks[|ks|..], ctx)) == Ok(out)
  {
    assert ks[|ks|..] == [];
    assert out + [] == out;
    var r := ViewKeys(level, ks, ctx);
    if r.Ok? {
      assert [] + r.value == r.value;
    }
  }

  /**
   * `addDocument(parent, current)`: skip a hidden node; otherwise set
   * `active`/`current` when there is a context (failing on a node without
   * url), sort the children, delete `children` when there are none, else
   * visit each child in order into a fresh list. The source pushes the
   * node onto `parent` first and then completes the pushed object in
   * place; here the finished view is appended at the end, which gives the
   * same final list.
   */
  method AddDocument(parent: seq<NodeView>, current: Node, context: Option<Doc>)
    returns (r: Result<seq<NodeView>, Error>)
    requires ValidLevel(current.children)
    ensures r == PushInto(parent, ViewNode(current, context))
    decreases current
  {
    if Hidden(current) {
      assert parent + Pushed(None) == parent;
      return Ok(parent);
    }
    var active, isCurrent := None, None;
    if context.Some? {
      if current.fields.None? {
        return Err(UrlUndefined);
      }
      var contextUrl := Canonical(context.value.url);
      var currentUrl := Canonical(current.fields.value.url);
      active := Some(currentUrl <= contextUrl);
      isCurrent := Some(contextUrl == currentUrl);
    }
    var level := current.children;
    var children := SortedKeys(level);
    if |children| == 0 {
      return Ok(parent + [NodeView(current.fields, active, isCurrent, Deleted)]);
    }
    SortedKeysInLevel(level);
    var kids: seq<NodeView> := [];
    var i := 0;
    PrefixedEnds(level, children, kids, context);
    assert children[0..] == children;
    while i < |children|
      invariant 0 <= i <= |children|
      invariant ViewKeys(level, children, context) == Prefixed(kids, ViewKeys(level, children[i..], context))
    {
      var child := level.entries[children[i]];
      ViewKeysStep(level, children, i, kids, context);
      var res := AddDocument(kids, child, context);
      if res.Err? {
        return Err(res.error);
      }
      kids := res.value;
      i := i + 1;
    }
    PrefixedEnds(level, children, kids, context);
    return Ok(parent + [NodeView(current.fields, active, isCurrent, Listed(kids))]);
  }

  class Tree {
    /** `this.documents`: the top-level dictionary of the tree. */
    var documents: Level

    ghost predicate Valid()
      reads this
    {
      ValidLevel(documents)
    }

    /**
     * `new Tree(collection, includeRoot)`: for each document in order, its
     * segments, with "/" in front when `includeRoot` is set, and, when there
     * are any, `addChild` along them.
     */
    constructor (collection: seq<Doc>, includeRoot: bool)
      ensures Valid()
      ensures documents == Build(collection, includeRoot)
    {
      documents := EmptyLevel;
      new;
      var i := 0;
      while i < |collection|
        invariant 0 <= i <= |collection|
        invariant documents == Build(collection[..i], includeRoot)
      {
        var doc := collection[i];
        var parts := Segments(doc.url);
        if includeRoot {
          parts := ["/"] + parts;
        }
        if |parts| > 0 {
          documents := AddChild(doc, parts, documents, 0);
        }
        assert parts == PathOf(doc, includeRoot);
        assert collection[..i + 1][..i] == collection[..i];
        assert collection[..i + 1][i] == doc;
        i := i + 1;
      }
      assert collection[..i] == collection;
      BuildValid(collection, includeRoot);
    }

    /**
     * `toJSON(context)`: sort the top level, visit each node in that order
     * into `output`, and return it; fails when a visited node has no url
     * while a context is given.
     */
    method ToJSON(context: Option<Doc>) returns (output: Result<seq<NodeView>, Error>)
      requires Valid()
      ensures output == Serialize(documents, context)
    {
      var sorted := SortedKeys(documents);
      SortedKeysInLevel(documents);
      var out: seq<NodeView> := [];
      var i := 0;
      PrefixedEnds(documents, sorted, out, context);
      assert sorted[0..] == sorted;
      while i < |sorted|
        invariant 0 <= i <= |sorted|
        invariant Serialize(documents, context) == Prefixed(out, ViewKeys(documents, sorted[i..], context))
      {
        var node := documents.entries[sorted[i]];
        ViewKeysStep(documents, sorted, i, out, context);
        var res := AddDocument(out, node, context);
        if res.Err? {
          return Err(res.error);
        }
        out := res.value;
        i := i + 1;
      }
      PrefixedEnds(documents, sorted, out, context);
      return Ok(out);
    }
  }
}
