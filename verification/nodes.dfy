/**
 * The nested structure that the `Tree` constructor builds: a dictionary from
 * path segment to node, each node holding the dictionary of its children
 * and, when some document's path ends there, that document's fields.
 */
module TreeNodes {
  import opened Wrappers
  import opened UrlCanon
  import opened StableSort

  /** A document of the collection; `None` is a missing (undefined) property. */
  datatype Doc = Doc(
    url: string,
    menu: Option<string>,
    title: Option<string>,
    order: Option<int>,
    hidden: Option<bool>)

  /** The four properties written on the node where a document's path ends. */
  datatype Fields = Fields(title: Option<string>, url: string, order: int, hidden: bool)

  /** `{children: {...}}`, plus the document fields once a path has ended here. */
  datatype Node = Node(fields: Option<Fields>, children: Level)

  /**
   * A dictionary keyed by segment. `keys` is its insertion order, the order
   * in which the keys were first added; JavaScript enumerates the keys in
   * `Enumeration(level)`, which is derived from it.
   */
  datatype Level = Level(keys: seq<string>, entries: map<string, Node>)

  const EmptyLevel: Level := Level([], map[])

  /** The decimal value of a string of digits. */
  function DecimalValue(s: string): nat {
    if s == [] then 0 else 10 * DecimalValue(s[..|s| - 1]) + (s[|s| - 1] as int - '0' as int) % 10
  }

  /**
   * An array index in the sense of ECMAScript section 6.1.7: the canonical
   * decimal form (no sign, no leading zero) of an integer below 2^32 - 1.
   */
  predicate IsArrayIndex(s: string) {
    && |s| > 0
    && (forall i | 0 <= i < |s| :: '0' <= s[i] <= '9')
    && (s[0] == '0' ==> |s| == 1)
    && DecimalValue(s) < 0xFFFF_FFFF
  }

  function IndexKeys(keys: seq<string>): seq<string> {
    if keys == [] then []
    else (if IsArrayIndex(keys[0]) then [keys[0]] else []) + IndexKeys(keys[1..])
  }

  function NamedKeys(keys: seq<string>): seq<string> {
    if keys == [] then []
    else (if IsArrayIndex(keys[0]) then [] else [keys[0]]) + NamedKeys(keys[1..])
  }

  /**
   * The order in which JavaScript enumerates the keys of a dictionary
   * (ECMAScript section 10.1.11.1, OrdinaryOwnPropertyKeys): array indices
   * first, ascending by value, then the other keys in insertion order.
   */
  function Enumeration(level: Level): seq<string> {
    SortBy(IndexKeys(level.keys), (k: string) => Some(DecimalValue(k))) + NamedKeys(level.keys)
  }

  /** The node `{children: {}}` that `addChild` creates for a missing segment. */
  const NewNode: Node := Node(None, EmptyLevel)

  /** The keys are distinct and are exactly the dictionary's keys, at every level. */
  ghost predicate ValidLevel(level: Level)
    decreases level
  {
    && (forall i, j :: 0 <= i < j < |level.keys| ==> level.keys[i] != level.keys[j])
    && (forall k :: k in level.entries <==> k in level.keys)
    && (forall k | k in level.entries :: ValidLevel(level.entries[k].children))
  }

  /**
   * The fields of the final node: `title = menu || title`, `url`,
   * `order = order || 0`, `hidden = hidden || false` (an empty menu is falsy).
   */
  function FieldsOf(doc: Doc): Fields {
    Fields(
      if doc.menu.Some? && doc.menu.value != "" then doc.menu else doc.title,
      doc.url,
      if doc.order.Some? then doc.order.value else 0,
      doc.hidden == Some(true))
  }

  /** The path a document is inserted under, with the synthetic "/" root segment when asked for. */
  function PathOf(doc: Doc, includeRoot: bool): seq<string> {
    (if includeRoot then ["/"] else []) + Segments(doc.url)
  }

  /** `parent[key] = node`, keeping the insertion position of an existing key. */
  function Put(parent: Level, key: string, node: Node): Level {
    Level(if key in parent.entries then parent.keys else parent.keys + [key],
          parent.entries[key := node])
  }

  /**
   * `addChild(doc, parts, parent, index)`: reuse or create the node for
   * `parts[index]`, then write the document fields on it if it is the last
   * part, else descend into its children.
   */
  function AddChild(doc: Doc, parts: seq<string>, parent: Level, index: nat): Level
    requires index < |parts|
    decreases |parts| - index
  {
    var part := parts[index];
    var current := if part in parent.entries then parent.entries[part] else NewNode;
    if index == |parts| - 1 then
      Put(parent, part, current.(fields := Some(FieldsOf(doc))))
    else
      Put(parent, part, current.(children := AddChild(doc, parts, current.children, index + 1)))
  }

  /** One iteration of the constructor's `forEach`. */
  function Insert(level: Level, doc: Doc, includeRoot: bool): Level {
    var parts := PathOf(doc, includeRoot);
    if |parts| > 0 then AddChild(doc, parts, level, 0) else level
  }

  /** `this.documents` after the constructor has run over `docs`. */
  function Build(docs: seq<Doc>, includeRoot: bool): Level {
    if docs == [] then EmptyLevel
    else Insert(Build(docs[..|docs| - 1], includeRoot), docs[|docs| - 1], includeRoot)
  }

  /** The node reached by following `path` from `level`, if there is one. */
  function Lookup(level: Level, path: seq<string>): Option<Node>
    decreases |path|
  {
    if path == [] || path[0] !in level.entries then None
    else if |path| == 1 then Some(level.entries[path[0]])
    else Lookup(level.entries[path[0]].children, path[1..])
  }

  /** The fields of the last document, in input order, whose path is `path`. */
  function LastFields(docs: seq<Doc>, includeRoot: bool, path: seq<string>): Option<Fields> {
    if docs == [] then None
    else if PathOf(docs[|docs| - 1], includeRoot) == path then Some(FieldsOf(docs[|docs| - 1]))
    else LastFields(docs[..|docs| - 1], includeRoot, path)
  }

  lemma {:induction false} LookupEmpty(path: seq<string>)
    ensures Lookup(EmptyLevel, path) == None
  {
  }

  /** The keys of `level` after `level[key] = ...`: a new key goes last. */
  function KeysAfterPut(level: Level, key: string): seq<string> {
    level.keys + (if key in level.entries then [] else [key])
  }

  /** `addChild` writes one key into the dictionary it is given. */
  lemma AddChildKeys(doc: Doc, parts: seq<string>, parent: Level, index: nat)
    requires index < |parts|
    ensures AddChild(doc, parts, parent, index).keys == KeysAfterPut(parent, parts[index])
  {
  }

  /**
   * Inserting a document only touches its own path. The final node gets the
   * document's fields and keeps its children; every node strictly above it
   * exists afterwards and keeps its fields (a created one has none), and
   * the next segment of the path is appended to the insertion order
   * (`keys`) of its children unless it was there already; every other path is
   * unchanged.
   */
  lemma {:induction false} AddChildLookup(doc: Doc, parts: seq<string>, parent: Level, index: nat, q: seq<string>)
    requires index < |parts|
    ensures var r, p, old_ := AddChild(doc, parts, parent, index), parts[index..], Lookup(parent, q);
      && (q == p ==>
            && Lookup(r, q).Some?
            && Lookup(r, q).value.fields == Some(FieldsOf(doc))
            && Lookup(r, q).value.children == (if old_.Some? then old_.value.children else EmptyLevel))
      && (q != [] && q < p ==>
            && Lookup(r, q).Some?
            && Lookup(r, q).value.fields == (if old_.Some? then old_.value.fields else None)
            && Lookup(r, q).value.children.keys == KeysAfterPut(if old_.Some? then old_.value.children else EmptyLevel, p[|q|]))
      && (!(q <= p) ==> Lookup(r, q) == old_)
    decreases |parts| - index
  {
    var part := parts[index];
    var current := if part in parent.entries then parent.entries[part] else NewNode;
    var p := parts[index..];
    if q == [part] && index < |parts| - 1 {
      AddChildKeys(doc, parts, current.children, index + 1);
      assert p[1] == parts[index + 1];
    }
    if q != [] && q[0] == part && |q| > 1 {
      if index < |parts| - 1 {
        AddChildLookup(doc, parts, current.children, index + 1, q[1..]);
        assert parts[index + 1..] == p[1..];
        assert q <= p <==> q[1..] <= p[1..];
        assert q < p <==> q[1..] < p[1..];
        if part !in parent.entries {
          LookupEmpty(q[1..]);
        }
      } else {
        assert !(q <= p);
        if part !in parent.entries {
          LookupEmpty(q[1..]);
        }
      }
    }
  }

  lemma PutValid(parent: Level, key: string, node: Node)
    requires ValidLevel(parent) && ValidLevel(node.children)
    ensures ValidLevel(Put(parent, key, node))
  {
    var r := Put(parent, key, node);
    forall k | k in r.entries ensures ValidLevel(r.entries[k].children) {
      if k != key {
        assert r.entries[k] == parent.entries[k];
      }
    }
  }

  /** Inserting keeps the dictionaries well formed, and a new key goes last. */
  lemma {:induction false} AddChildValid(doc: Doc, parts: seq<string>, parent: Level, index: nat)
    requires index < |parts|
    requires ValidLevel(parent)
    ensures ValidLevel(AddChild(doc, parts, parent, index))
    ensures AddChild(doc, parts, parent, index).keys == KeysAfterPut(parent, parts[index])
    decreases |parts| - index
  {
    var part := parts[index];
    var current := if part in parent.entries then parent.entries[part] else NewNode;
    assert ValidLevel(current.children);
    if index < |parts| - 1 {
      var below := AddChild(doc, parts, current.children, index + 1);
      AddChildValid(doc, parts, current.children, index + 1);
      PutValid(parent, part, current.(children := below));
    } else {
      PutValid(parent, part, current.(fields := Some(FieldsOf(doc))));
    }
  }

  lemma {:induction false} BuildValid(docs: seq<Doc>, includeRoot: bool)
    ensures ValidLevel(Build(docs, includeRoot))
    decreases |docs|
  {
    if docs != [] {
      var init := docs[..|docs| - 1];
      BuildValid(init, includeRoot);
      var parts := PathOf(docs[|docs| - 1], includeRoot);
      if |parts| > 0 {
        AddChildValid(docs[|docs| - 1], parts, Build(init, includeRoot), 0);
      }
    }
  }

  lemma {:induction false} LastFieldsOnPath(docs: seq<Doc>, includeRoot: bool, q: seq<string>)
    ensures LastFields(docs, includeRoot, q).Some? ==>
      exists i :: 0 <= i < |docs| && PathOf(docs[i], includeRoot) == q
    decreases |docs|
  {
    var n := |docs| - 1;
    if docs != [] && PathOf(docs[n], includeRoot) != q && LastFields(docs, includeRoot, q).Some? {
      LastFieldsOnPath(docs[..n], includeRoot, q);
      var i :| 0 <= i < n && PathOf(docs[..n][i], includeRoot) == q;
      assert docs[..n][i] == docs[i];
    }
  }

  /** One constructor step, seen through `Lookup`. */
  lemma InsertLookup(level: Level, doc: Doc, includeRoot: bool, q: seq<string>)
    requires q != []
    ensures var r, p := Insert(level, doc, includeRoot), PathOf(doc, includeRoot);
      && (Lookup(r, q).Some? <==> Lookup(level, q).Some? || q <= p)
      && (Lookup(r, q).Some? ==>
            Lookup(r, q).value.fields ==
              (if p == q then Some(FieldsOf(doc))
               else if Lookup(level, q).Some? then Lookup(level, q).value.fields
               else None))
  {
    var parts := PathOf(doc, includeRoot);
    if |parts| > 0 {
      AddChildLookup(doc, parts, level, 0, q);
      assert parts[0..] == parts;
    }
  }

  /**
   * The tree the constructor builds: there is a node at path `q` exactly when
   * `q` starts the path of some document, and that node carries the fields of
   * the LAST document whose path is `q` (last write wins), or none when no
   * document's path ends there.
   */
  lemma {:induction false} BuildLookup(docs: seq<Doc>, includeRoot: bool, q: seq<string>)
    requires q != []
    ensures Lookup(Build(docs, includeRoot), q).Some?
        <==> exists i :: 0 <= i < |docs| && q <= PathOf(docs[i], includeRoot)
    ensures Lookup(Build(docs, includeRoot), q).Some? ==>
      Lookup(Build(docs, includeRoot), q).value.fields == LastFields(docs, includeRoot, q)
    decreases |docs|
  {
    if docs == [] {
      LookupEmpty(q);
    } else {
      var n := |docs| - 1;
      var init, doc := docs[..n], docs[n];
      var before := Build(init, includeRoot);
      BuildLookup(init, includeRoot, q);
      InsertLookup(before, doc, includeRoot, q);
      assert forall i :: 0 <= i < n ==> init[i] == docs[i];
      BuildLookupExists(docs, includeRoot, q);
      LastFieldsOnPath(init, includeRoot, q);
    }
  }

  lemma {:induction false} BuildLookupExists(docs: seq<Doc>, includeRoot: bool, q: seq<string>)
    requires q != [] && docs != []
    requires Lookup(Build(docs[..|docs| - 1], includeRoot), q).Some?
        <==> exists i :: 0 <= i < |docs| - 1 && q <= PathOf(docs[i], includeRoot)
    ensures Lookup(Build(docs, includeRoot), q).Some?
        <==> exists i :: 0 <= i < |docs| && q <= PathOf(docs[i], includeRoot)
  {
    var n := |docs| - 1;
    var init, doc := docs[..n], docs[n];
    InsertLookup(Build(init, includeRoot), doc, includeRoot, q);
    assert forall i :: 0 <= i < n ==> init[i] == docs[i];
    if exists i :: 0 <= i < |docs| && q <= PathOf(docs[i], includeRoot) {
      var i :| 0 <= i < |docs| && q <= PathOf(docs[i], includeRoot);
      if i < n {
        assert q <= PathOf(init[i], includeRoot);
      }
    }
  }

  /** With `includeRoot` every document lands under the single top-level "/" node. */
  lemma {:induction false} BuildRootOnly(docs: seq<Doc>)
    ensures Build(docs, true).keys == if docs == [] then [] else ["/"]
    decreases |docs|
  {
    if docs != [] {
      var init := docs[..|docs| - 1];
      BuildRootOnly(init);
      BuildValid(init, true);
      AddChildValid(docs[|docs| - 1], PathOf(docs[|docs| - 1], true), Build(init, true), 0);
    }
  }

  /** Without `includeRoot`, a document with no segments (such as url "/") adds nothing. */
  lemma InsertSkipsRootless(level: Level, doc: Doc)
    requires Segments(doc.url) == []
    ensures Insert(level, doc, false) == level
  {
    assert PathOf(doc, false) == [];
  }

  /** With `includeRoot`, a document with no segments (such as url "/") lands on the "/" node. */
  lemma RootDocument(level: Level, doc: Doc)
    requires Segments(doc.url) == []
    ensures Lookup(Insert(level, doc, true), ["/"]).Some?
    ensures Lookup(Insert(level, doc, true), ["/"]).value.fields == Some(FieldsOf(doc))
  {
    assert PathOf(doc, true) == ["/"];
    AddChildLookup(doc, ["/"], level, 0, ["/"]);
  }

  lemma {:induction false} SplitKeysPermutation(keys: seq<string>)
    ensures multiset(IndexKeys(keys)) + multiset(NamedKeys(keys)) == multiset(keys)
    decreases |keys|
  {
    if keys != [] {
      SplitKeysPermutation(keys[1..]);
      assert keys == [keys[0]] + keys[1..];
    }
  }

  /** Enumeration reorders the keys and loses or adds none. */
  lemma EnumerationPermutation(level: Level)
    ensures multiset(Enumeration(level)) == multiset(level.keys)
    ensures |Enumeration(level)| == |level.keys|
  {
    SplitKeysPermutation(level.keys);
    SortByPermutation(IndexKeys(level.keys), (k: string) => Some(DecimalValue(k)));
    assert |multiset(Enumeration(level))| == |multiset(level.keys)|;
  }

  lemma {:induction false} IndexKeysAreIndices(keys: seq<string>)
    ensures forall i :: 0 <= i < |IndexKeys(keys)| ==> IsArrayIndex(IndexKeys(keys)[i])
    decreases |keys|
  {
    if keys != [] {
      IndexKeysAreIndices(keys[1..]);
      var head := if IsArrayIndex(keys[0]) then [keys[0]] else [];
      forall i | 0 <= i < |IndexKeys(keys)| ensures IsArrayIndex(IndexKeys(keys)[i]) {
        if i >= |head| {
          assert IndexKeys(keys)[i] == IndexKeys(keys[1..])[i - |head|];
        }
      }
    }
  }

  lemma {:induction false} NamedKeysAreNames(keys: seq<string>)
    ensures forall i :: 0 <= i < |NamedKeys(keys)| ==> !IsArrayIndex(NamedKeys(keys)[i])
    decreases |keys|
  {
    if keys != [] {
      NamedKeysAreNames(keys[1..]);
      var head := if IsArrayIndex(keys[0]) then [] else [keys[0]];
      forall i | 0 <= i < |NamedKeys(keys)| ensures !IsArrayIndex(NamedKeys(keys)[i]) {
        if i >= |head| {
          assert NamedKeys(keys)[i] == NamedKeys(keys[1..])[i - |head|];
        }
      }
    }
  }

  /**
   * Integer-like keys come first, in ascending numeric order, and every
   * other key comes after them in the order it was first added.
   */
  lemma EnumerationOrder(level: Level)
    ensures var e, n := Enumeration(level), |IndexKeys(level.keys)|;
      && n <= |e|
      && (forall i :: 0 <= i < |e| ==> (IsArrayIndex(e[i]) <==> i < n))
      && (forall i, j :: 0 <= i < j < n ==> DecimalValue(e[i]) <= DecimalValue(e[j]))
      && e[n..] == NamedKeys(level.keys)
  {
    var key := (k: string) => Some(DecimalValue(k));
    var idx := IndexKeys(level.keys);
    var sorted := SortBy(idx, key);
    SortByPermutation(idx, key);
    SortBySorted(idx, key);
    IndexKeysAreIndices(level.keys);
    NamedKeysAreNames(level.keys);
    var e := Enumeration(level);
    forall i | 0 <= i < |sorted| ensures IsArrayIndex(sorted[i]) {
      assert sorted[i] in multiset(idx);
      var j :| 0 <= j < |idx| && idx[j] == sorted[i];
    }
    assert e[|sorted|..] == NamedKeys(level.keys);
  }

  /** Year-like segments enumerate before named ones, whatever the insertion order. */
  lemma EnumerationExample(entries: map<string, Node>)
    ensures Enumeration(Level(["blog", "2020", "10", "010"], entries)) == ["10", "2020", "blog", "010"]
  {
    ExampleKeysSplit();
    var key := (k: string) => Some(DecimalValue(k));
    assert SortBy(["2020"], key) == ["2020"];
    assert ["2020", "10"][..1] == ["2020"];
    assert SortBy(["2020", "10"], key) == InsertBy("10", ["2020"], key);
  }

  lemma ExampleKeysSplit()
    ensures DecimalValue("10") == 10 && DecimalValue("2020") == 2020
    ensures IndexKeys(["blog", "2020", "10", "010"]) == ["2020", "10"]
    ensures NamedKeys(["blog", "2020", "10", "010"]) == ["blog", "010"]
  {
    var keys := ["blog", "2020", "10", "010"];
    ExampleValues();
    assert !IsArrayIndex("blog") && !IsArrayIndex("010");
    assert IsArrayIndex("2020") && IsArrayIndex("10");
    assert keys[1..] == ["2020", "10", "010"];
    assert keys[1..][1..] == ["10", "010"];
    assert keys[1..][1..][1..] == ["010"];
  }

  lemma ExampleValues()
    ensures DecimalValue("10") == 10 && DecimalValue("2020") == 2020
  {
    assert "10"[..1] == "1" && "1"[..0] == "";
    assert "2020"[..3] == "202" && "202"[..2] == "20" && "20"[..1] == "2" && "2"[..0] == "";
  }

  // ---------------------------------------------------------------------
  // The insertion order of every dictionary after construction.
  // ---------------------------------------------------------------------

  /** The segment that follows `q` on a document's path, when `q` is a strict prefix of it. */
  function NextSeg(doc: Doc, includeRoot: bool, q: seq<string>): seq<string> {
    var p := PathOf(doc, includeRoot);
    if q < p then [p[|q|]] else []
  }

  /** The segments that follow `q` on the documents' paths, in input order, repeats included. */
  function NextSegs(docs: seq<Doc>, includeRoot: bool, q: seq<string>): seq<string> {
    if docs == [] then []
    else NextSegs(docs[..|docs| - 1], includeRoot, q) + NextSeg(docs[|docs| - 1], includeRoot, q)
  }

  /** The first occurrence of each element, in order. */
  function Dedup(s: seq<string>): seq<string> {
    if s == [] then []
    else
      var init, last := s[..|s| - 1], s[|s| - 1];
      Dedup(init) + (if last in init then [] else [last])
  }

  lemma {:induction false} DedupMembers(s: seq<string>, x: string)
    ensures x in Dedup(s) <==> x in s
    decreases |s|
  {
    if s != [] {
      var init := s[..|s| - 1];
      DedupMembers(init, x);
      assert s == init + [s[|s| - 1]];
    }
  }

  lemma DedupSnoc(s: seq<string>, x: string)
    ensures Dedup(s + [x]) == Dedup(s) + (if x in s then [] else [x])
  {
    assert (s + [x])[..|s|] == s;
  }

  /** Below a path that exists, the dictionaries are still well formed. */
  lemma {:induction false} LookupValid(level: Level, q: seq<string>)
    requires ValidLevel(level) && Lookup(level, q).Some?
    ensures ValidLevel(Lookup(level, q).value.children)
    decreases |q|
  {
    if |q| > 1 {
      LookupValid(level.entries[q[0]].children, q[1..]);
    }
  }

  /**
   * The dictionary at `q` (the top level when `q` is empty) holds, in
   * insertion order, the first arrivals of `ns`; where no node exists at
   * `q`, `ns` is empty.
   */
  ghost predicate KeysAgree(level: Level, q: seq<string>, ns: seq<string>) {
    if q == [] then level.keys == Dedup(ns)
    else match Lookup(level, q)
      case None => ns == []
      case Some(n) => n.children.keys == Dedup(ns)
  }

  /** Adding `x` to a dictionary whose keys are the first arrivals of `ns`. */
  lemma PutKeys(level: Level, ns: seq<string>, x: string)
    requires ValidLevel(level) && level.keys == Dedup(ns)
    ensures KeysAfterPut(level, x) == Dedup(ns + [x])
  {
    DedupMembers(ns, x);
    DedupSnoc(ns, x);
  }

  /** One constructor step keeps `KeysAgree`, with the document's next segment appended. */
  lemma InsertKeys(level: Level, doc: Doc, includeRoot: bool, q: seq<string>, ns: seq<string>)
    requires ValidLevel(level) && KeysAgree(level, q, ns)
    ensures KeysAgree(Insert(level, doc, includeRoot), q, ns + NextSeg(doc, includeRoot, q))
  {
    var p := PathOf(doc, includeRoot);
    var r := Insert(level, doc, includeRoot);
    if |p| == 0 {
      assert ns + NextSeg(doc, includeRoot, q) == ns;
    } else if q == [] {
      AddChildKeys(doc, p, level, 0);
      PutKeys(level, ns, p[0]);
    } else {
      AddChildLookup(doc, p, level, 0, q);
      assert p[0..] == p;
      var old_ := Lookup(level, q);
      if q < p {
        var kids := if old_.Some? then old_.value.children else EmptyLevel;
        if old_.Some? {
          LookupValid(level, q);
        }
        assert ValidLevel(kids) && kids.keys == Dedup(ns);
        PutKeys(kids, ns, p[|q|]);
      } else {
        assert ns + NextSeg(doc, includeRoot, q) == ns;
      }
    }
  }

  lemma {:induction false} BuildKeysAgree(docs: seq<Doc>, includeRoot: bool, q: seq<string>)
    ensures KeysAgree(Build(docs, includeRoot), q, NextSegs(docs, includeRoot, q))
    decreases |docs|
  {
    if docs == [] {
      LookupEmpty(q);
    } else {
      var init := docs[..|docs| - 1];
      BuildKeysAgree(init, includeRoot, q);
      BuildValid(init, includeRoot);
      InsertKeys(Build(init, includeRoot), docs[|docs| - 1], includeRoot, q, NextSegs(init, includeRoot, q));
    }
  }

  /**
   * The insertion order of every dictionary the constructor builds: at the
   * top level and below every node `q`, the keys are the segments that
   * follow `q` on the documents' paths, each at its first arrival, in input
   * order.
   */
  lemma BuildKeys(docs: seq<Doc>, includeRoot: bool, q: seq<string>)
    ensures q == [] ==> Build(docs, includeRoot).keys == Dedup(NextSegs(docs, includeRoot, q))
    ensures Lookup(Build(docs, includeRoot), q).Some? ==>
      Lookup(Build(docs, includeRoot), q).value.children.keys == Dedup(NextSegs(docs, includeRoot, q))
  {
    BuildKeysAgree(docs, includeRoot, q);
  }
}
