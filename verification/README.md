# Navigation tree of the DocPad tree plugin, in Dafny

The plugin turns a collection of documents into a navigation menu. It has
two steps, both in the `Tree` class of `src/tree.plugin.js`.

- **Construction.** Each document url is canonicalised with the regular
  expression `/^\/|\/$|index\.\w*$/g`, split on `/`, and its empty pieces
  are dropped. When `includeRoot` is set, a synthetic `"/"` segment goes in
  front. The document is then inserted along that path into nested
  dictionaries. The node where the path ends receives the document's
  `title` (`menu || title`), `url`, `order` (`order || 0`) and `hidden`
  (`hidden || false`).
- **Serialisation.** `toJSON(context)` walks the tree depth first. At each
  level it sorts the nodes by `order` with underscore's stable `_.sortBy`.
  It skips hidden nodes together with their subtrees. When a context
  document is given, it marks each node `active` (the context url starts
  with the node's url) and `current` (the two urls are equal), comparing
  canonical urls. It deletes `children` from a node that has none.

The Dafny modules follow that structure:

| file | module | what it holds |
|---|---|---|
| `wrappers.dfy` | `Wrappers` | `Option` and `Result` |
| `url.dfy` | `UrlCanon` | the global regex replace, scanned position by position; `split`, `join` and `_.compact` |
| `sort.dfy` | `StableSort` | `_.sortBy` with underscore's comparator, where a missing order (NaN) never compares less |
| `nodes.dfy` | `TreeNodes` | documents, nodes and levels as values; `addChild`; the tree that the constructor builds, as a fold over the collection |
| `view.dfy` | `TreeView` | the output nodes (`NodeView`), and `toJSON` as a function with its error path |
| `tree.dfy` | `TreeClass` | the `Tree` class: the constructor as a loop over the collection that updates `this.documents`, `toJSON` as a loop over the sorted top level of `this.documents`, and the recursive `addDocument` as a method, each proved equal to the functions above |

A dictionary of children is a `Level`. It holds the keys in the order they
were first added, plus a map from key to node. `_.sortBy` sees the nodes in
JavaScript's enumeration order (`TreeNodes.Enumeration`). That order puts
integer-like keys such as a `2020` segment first, ascending by value, then
the other keys in insertion order. Ties in `order` keep that enumeration
order. An intermediate node, one that no document's
path ends at, has `fields == None`.

With a context, serialisation reads `url` on every visited node. On an
intermediate node `url` is `undefined`, and the source then throws a
TypeError. The model returns `Err(UrlUndefined)` in that case.

`children` is deleted only from a node that has no children at all.
`_.isEmpty` runs on the sorted children before any of them is visited
(src/tree.plugin.js:69-74), so a node whose children are all hidden gets an
empty list (`TreeView.ViewChildren`).

## Model

| member | source | states |
|---|---|---|
| UrlCanon.Split | src/tree.plugin.js:37 | `split("/")` always gives at least one piece |
| UrlCanon.CanonicalCut | src/tree.plugin.js:16 | the global replace keeps one slice of the url. The slice starts after one leading `/` and ends at the leftmost position where a final `/` or `index.` plus word characters up to the end begins, or at the end of the url. No such match begins inside the slice |
| UrlCanon.CanonicalOf | src/tree.plugin.js:16 | the converse of `CanonicalCut`: any end position that meets those conditions determines the canonical string, so the characterisation is exact |
| UrlCanon.JoinSplit | src/tree.plugin.js:37 | joining the pieces of `split("/")` with `/` gives back the string |
| UrlCanon.SplitJoin | src/tree.plugin.js:37 | splitting a `/`-join of slash-free pieces gives back the pieces |
| UrlCanon.SegmentsWellFormed | src/tree.plugin.js:37 | every path segment is non-empty and contains no `/` |
| UrlCanon.SegmentsEmpty | src/tree.plugin.js:37-43 | a url has no segments, so `addChild` is skipped without `includeRoot`, exactly when its canonical form is all slashes |
| UrlCanon.BlogIndexQuirk | src/tree.plugin.js:16-37 | `/blog/index.html` canonicalises to `blog/` (only the index tail is removed) yet has the single segment `blog` |
| UrlCanon.MyIndexQuirk | src/tree.plugin.js:16 | the index alternative is not tied to a segment boundary: `/myindex.html` canonicalises to `my` |
| UrlCanon.RootQuirk | src/tree.plugin.js:37-45 | the site root `/` canonicalises to the empty string and has no segments |
| UrlCanon.NestedPageExample | src/tree.plugin.js:61-66 | for the context `/blog/post-1/` the node `/blog/` compares `blog` with `blog/post-1`, a proper prefix, so it is active but not current |
| StableSort.SortByPermutation | src/tree.plugin.js:69 | `_.sortBy` returns a permutation of its input |
| StableSort.SortBySorted | src/tree.plugin.js:83 | when every entry carries an order, the result ascends by order |
| StableSort.SortByStable | src/tree.plugin.js:69 | for each order value, the entries with that value keep their input order (ties keep enumeration order) |
| TreeNodes.AddChildLookup | src/tree.plugin.js:18-33 | `addChild` creates or reuses the node of each segment. The final node gets the document's fields and keeps its children. Nodes strictly above it keep their fields (a newly created one has none), and the next segment is appended at the end of their children's insertion order (`keys`) unless it was already there. Every path off the document's path is unchanged |
| TreeNodes.AddChildValid | src/tree.plugin.js:18-33 | `addChild` keeps every dictionary well formed. It appends a new key at the end of the insertion order (`keys`) and leaves that order alone when the key exists |
| TreeNodes.BuildValid | src/tree.plugin.js:35-46 | the tree built from any collection is well formed at every level |
| TreeNodes.InsertLookup | src/tree.plugin.js:36-46 | one document step of the constructor, as seen by a lookup at any path |
| TreeNodes.BuildLookup | src/tree.plugin.js:35-46 | after construction, a node exists at path `q` exactly when `q` starts some document's path. Its fields are those of the last document whose path is `q` (last write wins), or none if no document ends there |
| TreeNodes.BuildKeys | src/tree.plugin.js:18-46 | after construction, the insertion order of the top level and of the children of every node `q` is the list of segments that follow `q` on the documents' paths, each taken at its first arrival, in input order. `Enumeration` derives from it the order that breaks `order` ties |
| TreeNodes.BuildRootOnly | src/tree.plugin.js:39-44 | with `includeRoot`, the top level is the single `"/"` node, or empty for an empty collection |
| TreeNodes.InsertSkipsRootless | src/tree.plugin.js:43-45 | without `includeRoot`, a document without segments leaves the tree unchanged |
| TreeNodes.RootDocument | src/tree.plugin.js:39-44 | with `includeRoot`, a document without segments (url `/`) writes its fields on the `"/"` node |
| TreeNodes.EnumerationPermutation | src/tree.plugin.js:69 | the enumeration order that `_.sortBy` reads is a permutation of the keys of the dictionary |
| TreeNodes.EnumerationOrder | src/tree.plugin.js:83 | integer-like keys come first, ascending by value, then every other key in the order it was first added |
| TreeNodes.EnumerationExample | src/tree.plugin.js:83 | keys added as `blog`, `2020`, `10`, `010` enumerate as `10`, `2020`, `blog`, `010` (`010` is not canonical, so it is not an index) |
| TreeView.SerializeExactlyOnce | src/tree.plugin.js:55-87 | a successful `toJSON`, flattened in pre-order, holds every node that no hidden node hides exactly once (as a multiset of fields). A hidden node drops out with its whole subtree |
| TreeView.SerializeFails | src/tree.plugin.js:61-63 | `toJSON` fails exactly when a context is given and some node that no hidden node hides has no url |
| TreeView.SerializeAnnotations | src/tree.plugin.js:57-67 | no output node at any depth is hidden. Without a context no node has `active`/`current`. With one, `active` is canonical-url prefixing and `current` is canonical-url equality, so `current` implies `active` |
| TreeView.ViewChildren | src/tree.plugin.js:69-79 | `children` is deleted exactly when the node has no children. A node whose children are all hidden gets an empty list |
| TreeView.LevelOrdered | src/tree.plugin.js:69-83 | at a level where every node carries an order, the nodes come out in ascending order |
| TreeClass.AddDocument | src/tree.plugin.js:55-80 | the recursive `addDocument` with its `forEach` over sorted children returns `parent` extended by exactly what the functional `ViewNode` specifies, or its error |
| TreeClass.Tree.constructor | src/tree.plugin.js:11-47 | the loop over the collection leaves `documents` equal to the fold `Build` of the whole collection, and well formed |
| TreeClass.Tree.ToJSON | src/tree.plugin.js:50-90 | the top-level sort and loop return exactly `Serialize(documents, context)`, the function that the properties above describe |

## Left out

- `TreePlugin` (the DocPad `BasePlugin` subclass, `extendTemplateData`, `docpad.getCollection`, the `"documents"` default collection) is host plumbing around `Tree`. It is not part of this model.
- Orders are integers, not floats. `parseFloat` of a non-numeric string, fractional orders and `-0` are not modelled. A missing order on an intermediate node is the only NaN.
- `Doc.url` is a string by type. A document without a url, or with a non-string url, makes the source throw in the constructor; that case is not modelled.
- `context` is `Option<Doc>`. A truthy context whose `url` is not a string is not modelled.
- Nodes are values. The source mutates nodes in place: it adds `active`/`current` to them, turns `children` into an array and deletes it. So a second `toJSON` on the same `Tree` sees the rewritten nodes. The model builds fresh `NodeView`s and leaves the tree unchanged. Aliasing between the output and the tree is not modelled.
- Segments that name `Object.prototype` members, such as `constructor` or `__proto__`, are not modelled. For those, `parent[part] || {...}` in the source picks up the inherited value.
- StableSort.SortBySorted: states ascending order only when every entry carries an order. With intermediate nodes (NaN) in a level, the result of underscore's comparator depends on the engine's sort algorithm; the model fixes one admissible outcome, a stable insertion sort.
- TreeView.LevelOrdered: states ascending output order only for a level whose every key carries fields, for the same reason.
