/** Ingestion of extracted records into the graph store. The store is an
    in-memory graph: a set of File nodes keyed by path, entity nodes keyed by
    (label, fqn) with the attributes written when they were created, and
    DEFINED_IN edges from entity nodes to File nodes. Every Cypher MERGE is
    "insert if absent"; ON CREATE SET writes attributes only on insertion. */
module GraphIngest {
  import opened CodeParsing

  /** The uniqueness constraints the ingestor declares before writing. */
  datatype Constraint = FilePathUnique | FqnUnique(kind: Kind)

  /** Identity of an entity node: its label (Class or Function) and its fqn. */
  datatype NodeKey = NodeKey(kind: Kind, fqn: string)

  /** Attributes written by ON CREATE SET. */
  datatype Attrs = Attrs(name: string, line: nat)

  /** A DEFINED_IN relationship from an entity node to the File node with `path`. */
  datatype Edge = DefinedIn(entity: NodeKey, path: string)

  datatype Graph = Graph(
    constraints: set<Constraint>,
    files: set<string>,
    nodes: map<NodeKey, Attrs>,
    edges: set<Edge>)

  const EmptyGraph := Graph({}, {}, map[], {})

  const Schema: set<Constraint> := {FilePathUnique, FqnUnique(Class), FqnUnique(Function)}

  /** The fully qualified name `file::name`. It starts with the file; for a
      name without ':' (an identifier never holds one) it decodes again: the
      name is what follows the last ':', the file what precedes the "::". */
  function Fqn(file: string, name: string): (r: string)
    ensures |r| == |file| + 2 + |name| && r[..|file|] == file
    ensures ':' !in name ==>
      var c := LastColon(r);
      c == |file| + 1 && r[..c - 1] == file && r[c + 1..] == name
  {
    var r := file + "::" + name;
    if ':' in name then r
    else
      LastColonSkips(file + "::", name);
      r
  }

  /** The node a record merges into: its label and its fqn. */
  function KeyOf(item: CodeItem): NodeKey {
    NodeKey(item.kind, Fqn(item.file, item.name))
  }

  /** The key decodes back to the record it came from: its label is the
      record's kind, and for a name without ':' the fqn yields the record's
      file before the last "::" and its name after it. */
  lemma KeyOfDecodes(item: CodeItem)
    requires ':' !in item.name
    ensures KeyOf(item).kind == item.kind
    ensures var fqn, c := KeyOf(item).fqn, LastColon(KeyOf(item).fqn);
      1 <= c < |fqn| && fqn[c - 1..c + 1] == "::" && fqn[..c - 1] == item.file && fqn[c + 1..] == item.name
  {
  }

  /** The three CREATE CONSTRAINT IF NOT EXISTS statements. */
  function EnsureSchema(g: Graph): Graph {
    g.(constraints := g.constraints + Schema)
  }

  /** MERGE (f:File {path: $path}). */
  function MergeFileNode(g: Graph, path: string): Graph {
    g.(files := g.files + {path})
  }

  /** MATCH (f:File {path: $path}) MERGE (c:<label> {fqn: $fqn})
      ON CREATE SET c.name = $name, c.line = $line MERGE (f)<-[:DEFINED_IN]-(c).
      When the MATCH finds no File node the query writes nothing. */
  function MergeEntityNode(g: Graph, path: string, key: NodeKey, name: string, line: nat): Graph {
    if path !in g.files then g
    else g.(nodes := if key in g.nodes then g.nodes else g.nodes[key := Attrs(name, line)],
            edges := g.edges + {DefinedIn(key, path)})
  }

  /** The two queries the loop body runs for one item. */
  function MergeItem(g: Graph, item: CodeItem): Graph {
    MergeEntityNode(MergeFileNode(g, item.file), item.file, KeyOf(item), item.name, item.line)
  }

  function IngestItems(g: Graph, items: seq<CodeItem>): Graph {
    if items == [] then g else MergeItem(IngestItems(g, items[..|items| - 1]), items[|items| - 1])
  }

  /** `ingest_code_structure`: constraints first, then the items in order. */
  function Ingest(g: Graph, items: seq<CodeItem>): Graph {
    IngestItems(EnsureSchema(g), items)
  }

  // ---------------------------------------------------------------------
  // The store and the ingest loop
  // ---------------------------------------------------------------------

  /** The graph store the queries are run against. */
  class GraphStore {
    var constraints: set<Constraint>
    var files: set<string>
    var nodes: map<NodeKey, Attrs>
    var edges: set<Edge>

    function State(): Graph
      reads this
    {
      Graph(constraints, files, nodes, edges)
    }

    /** A handle on a connected database, holding whatever earlier runs
        merged into it. */
    constructor (g: Graph)
      ensures State() == g
    {
      constraints, files, nodes, edges := g.constraints, g.files, g.nodes, g.edges;
    }

    method EnsureConstraints()
      modifies this
      ensures State() == EnsureSchema(old(State()))
    {
      constraints := constraints + {FilePathUnique};
      constraints := constraints + {FqnUnique(Class)};
      constraints := constraints + {FqnUnique(Function)};
    }

    method MergeFile(path: string)
      modifies this
      ensures State() == MergeFileNode(old(State()), path)
    {
      files := files + {path};
    }

    method MergeEntity(path: string, key: NodeKey, name: string, line: nat)
      modifies this
      ensures State() == MergeEntityNode(old(State()), path, key, name, line)
    {
      if path in files {
        if key !in nodes {
          nodes := nodes[key := Attrs(name, line)];
        }
        edges := edges + {DefinedIn(key, path)};
      }
    }
  }

  method IngestCodeStructure(store: GraphStore, items: seq<CodeItem>)
    modifies store
    ensures store.State() == Ingest(old(store.State()), items)
  {
    store.EnsureConstraints();
    var i := 0;
    while i < |items|
      invariant 0 <= i <= |items|
      invariant store.State() == Ingest(old(store.State()), items[..i])
    {
      var item := items[i];
      var fqn := Fqn(item.file, item.name);
      store.MergeFile(item.file);
      store.MergeEntity(item.file, NodeKey(item.kind, fqn), item.name, item.line);
      assert items[..i + 1][..i] == items[..i];
      i := i + 1;
    }
    assert items[..i] == items;
  }

  // ---------------------------------------------------------------------
  // What ingestion guarantees
  // ---------------------------------------------------------------------

  function ItemFiles(items: seq<CodeItem>): set<string> {
    set item | item in items :: item.file
  }

  function ItemKeys(items: seq<CodeItem>): set<NodeKey> {
    set item | item in items :: KeyOf(item)
  }

  function ItemEdges(items: seq<CodeItem>): set<Edge> {
    set item | item in items :: DefinedIn(KeyOf(item), item.file)
  }

  /** After ingestion the graph holds exactly what it held before plus, for
      every item, its File node, its (label, fqn) node and the DEFINED_IN edge
      between them; attributes of nodes that existed before are untouched. */
  lemma {:induction false} IngestItemsEffect(g: Graph, items: seq<CodeItem>)
    ensures IngestItems(g, items).constraints == g.constraints
    ensures IngestItems(g, items).files == g.files + ItemFiles(items)
    ensures IngestItems(g, items).nodes.Keys == g.nodes.Keys + ItemKeys(items)
    ensures IngestItems(g, items).edges == g.edges + ItemEdges(items)
    ensures forall k :: k in g.nodes ==> IngestItems(g, items).nodes[k] == g.nodes[k]
    decreases |items|
  {
    IngestItemsKeepsAttrs(g, items);
    if items != [] {
      var init, last := items[..|items| - 1], items[|items| - 1];
      IngestItemsEffect(g, init);
      ItemSetsLast(items);
      var prev := IngestItems(g, init);
      MergeItemEffect(prev, last);
      var keys := prev.nodes.Keys + {KeyOf(last)};
      assert IngestItems(g, items).nodes.Keys == keys;
      assert keys == g.nodes.Keys + ItemKeys(items);
    }
  }

  /** Ingestion never rewrites the attributes of a node that already existed. */
  lemma {:induction false} IngestItemsKeepsAttrs(g: Graph, items: seq<CodeItem>)
    ensures g.nodes.Keys <= IngestItems(g, items).nodes.Keys
    ensures forall k :: k in g.nodes ==> IngestItems(g, items).nodes[k] == g.nodes[k]
    decreases |items|
  {
    if items != [] {
      var init, last := items[..|items| - 1], items[|items| - 1];
      IngestItemsKeepsAttrs(g, init);
      MergeItemEffect(IngestItems(g, init), last);
    }
  }

  lemma MergeItemEffect(g: Graph, item: CodeItem)
    ensures MergeItem(g, item).constraints == g.constraints
    ensures MergeItem(g, item).files == g.files + {item.file}
    ensures MergeItem(g, item).nodes.Keys == g.nodes.Keys + {KeyOf(item)}
    ensures MergeItem(g, item).edges == g.edges + {DefinedIn(KeyOf(item), item.file)}
    ensures forall k :: k in g.nodes ==> MergeItem(g, item).nodes[k] == g.nodes[k]
  {
  }

  lemma ItemSetsLast(items: seq<CodeItem>)
    requires items != []
    ensures var init, last := items[..|items| - 1], items[|items| - 1];
      && ItemFiles(items) == ItemFiles(init) + {last.file}
      && ItemKeys(items) == ItemKeys(init) + {KeyOf(last)}
      && ItemEdges(items) == ItemEdges(init) + {DefinedIn(KeyOf(last), last.file)}
  {
    var init, last := items[..|items| - 1], items[|items| - 1];
    assert items == init + [last];
    assert forall x :: x in items <==> x in init || x == last;
  }

  lemma IngestEffect(g: Graph, items: seq<CodeItem>)
    ensures Ingest(g, items).constraints == g.constraints + Schema
    ensures Ingest(g, items).files == g.files + ItemFiles(items)
    ensures Ingest(g, items).nodes.Keys == g.nodes.Keys + ItemKeys(items)
    ensures Ingest(g, items).edges == g.edges + ItemEdges(items)
    ensures forall k :: k in g.nodes ==> Ingest(g, items).nodes[k] == g.nodes[k]
  {
    IngestItemsEffect(EnsureSchema(g), items);
  }

  /** Every ingested item has its File node, its entity node and its edge. */
  lemma IngestedItemPresent(g: Graph, items: seq<CodeItem>, i: nat)
    requires i < |items|
    ensures items[i].file in Ingest(g, items).files
    ensures KeyOf(items[i]) in Ingest(g, items).nodes
    ensures DefinedIn(KeyOf(items[i]), items[i].file) in Ingest(g, items).edges
  {
    IngestEffect(g, items);
    assert items[i] in items;
  }

  /** ON CREATE SET: the first item with a given (label, fqn) decides the
      node's name and line; later items with that key leave them alone. */
  lemma {:induction false} FirstSeenWins(g: Graph, items: seq<CodeItem>, i: nat)
    requires i < |items| && KeyOf(items[i]) !in g.nodes
    requires forall j :: 0 <= j < i ==> KeyOf(items[j]) != KeyOf(items[i])
    ensures KeyOf(items[i]) in IngestItems(g, items).nodes
    ensures IngestItems(g, items).nodes[KeyOf(items[i])] == Attrs(items[i].name, items[i].line)
    decreases |items|
  {
    var init, last := items[..|items| - 1], items[|items| - 1];
    var key := KeyOf(items[i]);
    if i == |items| - 1 {
      IngestItemsEffect(g, init);
      assert key !in ItemKeys(init);
    } else {
      assert init[i] == items[i];
      FirstSeenWins(g, init, i);
    }
  }

  /** An item that adds nothing new leaves the graph exactly as it is. */
  lemma {:induction false} IngestCovered(h: Graph, items: seq<CodeItem>)
    requires ItemFiles(items) <= h.files && ItemKeys(items) <= h.nodes.Keys
    requires ItemEdges(items) <= h.edges
    ensures IngestItems(h, items) == h
    decreases |items|
  {
    if items != [] {
      var init, last := items[..|items| - 1], items[|items| - 1];
      assert items == init + [last];
      assert ItemFiles(init) <= ItemFiles(items);
      assert ItemKeys(init) <= ItemKeys(items);
      assert ItemEdges(init) <= ItemEdges(items);
      IngestCovered(h, init);
      assert last in items;
      assert MergeFileNode(h, last.file) == h;
    }
  }

  /** Re-ingesting the same list changes nothing: no duplicate nodes or
      edges, and no attribute rewritten. */
  lemma IngestIdempotent(g: Graph, items: seq<CodeItem>)
    ensures Ingest(Ingest(g, items), items) == Ingest(g, items)
  {
    var once := Ingest(g, items);
    IngestEffect(g, items);
    assert EnsureSchema(once) == once;
    IngestCovered(once, items);
  }

  /** Index of the last ':' in `s`, or -1 when there is none. */
  function LastColon(s: string): int {
    if s == [] then -1 else if s[|s| - 1] == ':' then |s| - 1 else LastColon(s[..|s| - 1])
  }

  lemma {:induction false} LastColonSkips(p: string, n: string)
    requires ':' !in n
    ensures LastColon(p + n) == LastColon(p)
    decreases |n|
  {
    if n == [] {
      assert p + n == p;
    } else {
      assert (p + n)[..|p + n| - 1] == p + n[..|n| - 1];
      assert n[|n| - 1] in n;
      LastColonSkips(p, n[..|n| - 1]);
    }
  }

  /** With names that hold no ':' (as identifiers never do), `file::name`
      determines both the file and the name. */
  lemma FqnInjective(f1: string, n1: string, f2: string, n2: string)
    requires ':' !in n1 && ':' !in n2
    requires Fqn(f1, n1) == Fqn(f2, n2)
    ensures f1 == f2 && n1 == n2
  {
    var s := Fqn(f1, n1);
    LastColonSkips(f1 + "::", n1);
    LastColonSkips(f2 + "::", n2);
    assert |f1| == |f2|;
    assert f1 == s[..|f1|] == f2;
    assert n1 == s[|f1| + 2..] == n2;
  }

  /** Two records resolve to the same node exactly when their label, file
      and name agree. */
  lemma KeyOfIdentifies(a: CodeItem, b: CodeItem)
    requires ':' !in a.name && ':' !in b.name
    ensures KeyOf(a) == KeyOf(b) <==> (a.kind == b.kind && a.file == b.file && a.name == b.name)
  {
    if KeyOf(a) == KeyOf(b) {
      FqnInjective(a.file, a.name, b.file, b.name);
    }
  }

  /** A class and a function with the same fqn become two distinct nodes,
      because the merge is per label. */
  lemma ClassAndFunctionAreDistinctNodes(g: Graph, file: string, name: string, l1: nat, l2: nat)
    requires NodeKey(Class, Fqn(file, name)) !in g.nodes
    requires NodeKey(Function, Fqn(file, name)) !in g.nodes
    ensures |Ingest(g, [CodeItem(Class, name, file, l1), CodeItem(Function, name, file, l2)]).nodes| == |g.nodes| + 2
  {
    var c, f := CodeItem(Class, name, file, l1), CodeItem(Function, name, file, l2);
    var g0 := EnsureSchema(g);
    var g1 := MergeItem(g0, c);
    assert IngestItems(g0, [c]) == g1 by {
      assert [c][..0] == [];
    }
    assert Ingest(g, [c, f]) == MergeItem(g1, f) by {
      assert [c, f][..1] == [c];
    }
    MergeItemEffect(g0, c);
    MergeItemEffect(g1, f);
    assert KeyOf(c) != KeyOf(f);
    assert |g1.nodes.Keys| == |g.nodes.Keys| + 1;
  }

  /** Ingesting the two records of one file "a.src" with class Foo at line
      3 and method bar at line 7 nested in it: one File node, two entity
      nodes, two DEFINED_IN edges, and a second ingestion changes nothing. */
  lemma NestedMethodIngest(foo: CodeItem, bar: CodeItem)
    requires foo == CodeItem(Class, "Foo", "a.src", 3) && bar == CodeItem(Function, "bar", "a.src", 7)
    ensures Ingest(EmptyGraph, [foo, bar]).files == {"a.src"}
    ensures Ingest(EmptyGraph, [foo, bar]).nodes.Keys == {NodeKey(Class, "a.src::Foo"), NodeKey(Function, "a.src::bar")}
    ensures |Ingest(EmptyGraph, [foo, bar]).edges| == 2
    ensures Ingest(Ingest(EmptyGraph, [foo, bar]), [foo, bar]) == Ingest(EmptyGraph, [foo, bar])
  {
    var items := [foo, bar];
    IngestEffect(EmptyGraph, items);
    ScenarioSets(foo, bar);
    IngestIdempotent(EmptyGraph, items);
  }

  lemma ScenarioSets(foo: CodeItem, bar: CodeItem)
    requires foo == CodeItem(Class, "Foo", "a.src", 3) && bar == CodeItem(Function, "bar", "a.src", 7)
    ensures ItemFiles([foo, bar]) == {"a.src"}
    ensures ItemKeys([foo, bar]) == {NodeKey(Class, "a.src::Foo"), NodeKey(Function, "a.src::bar")}
    ensures |ItemEdges([foo, bar])| == 2
  {
    assert KeyOf(foo) == NodeKey(Class, "a.src::Foo");
    assert KeyOf(bar) == NodeKey(Function, "a.src::bar");
    assert ItemEdges([foo, bar]) == {DefinedIn(KeyOf(foo), "a.src"), DefinedIn(KeyOf(bar), "a.src")};
  }
}
