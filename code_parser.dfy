/** Declaration extractor of the structure indexer: a syntax-tree visitor that
    records every class and (sync or async) function declaration, the
    failure-tolerant per-file wrapper, and the concatenation of the per-file
    results in file-enumeration order. */
module CodeParsing {

  /** The part of a syntax tree the extractor looks at. Every node kind other
      than the three declaration kinds is `Other`; its children are whatever
      the generic traversal would visit (statements, decorators, arguments). */
  datatype Node =
    | ClassDef(name: string, line: nat, children: seq<Node>)
    | FunctionDef(name: string, line: nat, children: seq<Node>)
    | AsyncFunctionDef(name: string, line: nat, children: seq<Node>)
    | Other(children: seq<Node>)

  datatype Kind = Class | Function

  /** One extracted record: `{"type", "name", "file", "line"}`. */
  datatype CodeItem = CodeItem(kind: Kind, name: string, file: string, line: nat)

  /** Outcome of reading and parsing one file; reading, decoding and parsing
      are done by the host language's parser and only their result is modelled. */
  /** What happened to one file inside the `try` of `parse_python_file`:
      the tree, or an exception from reading, parsing or visiting it. */
  datatype ParseOutcome = Parsed(tree: Node) | ParseFailed

  datatype SourceFile = SourceFile(path: string, outcome: ParseOutcome)

  predicate IsDecl(n: Node) {
    !n.Other?
  }

  function KindOf(n: Node): Kind
    requires IsDecl(n)
  {
    if n.ClassDef? then Class else Function
  }

  /** The record the visitor appends for a declaration node. */
  function RecordOf(file: string, n: Node): (r: CodeItem)
    requires IsDecl(n)
    ensures r.file == file && r.name == n.name && r.line == n.line
    ensures r.kind == Class <==> n.ClassDef?
  {
    CodeItem(KindOf(n), n.name, file, n.line)
  }

  /** Specification of the visitor: the records of a tree in pre-order. */
  function Extract(file: string, n: Node): seq<CodeItem>
    decreases n
  {
    (if IsDecl(n) then [RecordOf(file, n)] else []) + ExtractAll(file, n.children)
  }

  function ExtractAll(file: string, ns: seq<Node>): seq<CodeItem>
    decreases ns
  {
    if ns == [] then [] else Extract(file, ns[0]) + ExtractAll(file, ns[1..])
  }

  /** The per-file result of `parse_python_file`. */
  function FileItems(f: SourceFile): seq<CodeItem> {
    match f.outcome
    case Parsed(tree) => Extract(f.path, tree)
    case ParseFailed => []
  }

  /** The combined item list: per-file lists concatenated in enumeration order. */
  function AllItems(files: seq<SourceFile>): seq<CodeItem> {
    if files == [] then [] else FileItems(files[0]) + AllItems(files[1..])
  }

  // ---------------------------------------------------------------------
  // Independent counts and the subtree relation
  // ---------------------------------------------------------------------

  function ClassCount(n: Node): nat
    decreases n
  {
    (if n.ClassDef? then 1 else 0) + ClassCountAll(n.children)
  }

  function ClassCountAll(ns: seq<Node>): nat
    decreases ns
  {
    if ns == [] then 0 else ClassCount(ns[0]) + ClassCountAll(ns[1..])
  }

  function FunctionCount(n: Node): nat
    decreases n
  {
    (if n.FunctionDef? || n.AsyncFunctionDef? then 1 else 0) + FunctionCountAll(n.children)
  }

  function FunctionCountAll(ns: seq<Node>): nat
    decreases ns
  {
    if ns == [] then 0 else FunctionCount(ns[0]) + FunctionCountAll(ns[1..])
  }

  /** Number of records of the given kind in a list. */
  function CountKind(items: seq<CodeItem>, k: Kind): nat {
    if items == [] then 0 else (if items[0].kind == k then 1 else 0) + CountKind(items[1..], k)
  }

  /** `d` is `n` or lies somewhere below it. */
  ghost predicate SubtreeOf(d: Node, n: Node)
    decreases n
  {
    d == n || exists i :: 0 <= i < |n.children| && SubtreeOf(d, n.children[i])
  }

  /** `d` lies strictly below `n`. */
  ghost predicate NestedIn(d: Node, n: Node) {
    exists i :: 0 <= i < |n.children| && SubtreeOf(d, n.children[i])
  }

  /** `a` occurs in `b` as a contiguous block starting at index `i`. */
  ghost predicate InfixAt(a: seq<CodeItem>, b: seq<CodeItem>, i: nat) {
    i + |a| <= |b| && b[i..i + |a|] == a
  }

  ghost predicate IsInfix(a: seq<CodeItem>, b: seq<CodeItem>) {
    exists i :: InfixAt(a, b, i)
  }

  // ---------------------------------------------------------------------
  // Lemmas about the extractor
  // ---------------------------------------------------------------------

  lemma {:induction false} CountKindConcat(a: seq<CodeItem>, b: seq<CodeItem>, k: Kind)
    ensures CountKind(a + b, k) == CountKind(a, k) + CountKind(b, k)
  {
    if a == [] {
      assert a + b == b;
    } else {
      assert (a + b)[1..] == a[1..] + b;
      CountKindConcat(a[1..], b, k);
    }
  }

  lemma {:induction false} ExtractAllAppend(file: string, ns: seq<Node>, n: Node)
    ensures ExtractAll(file, ns + [n]) == ExtractAll(file, ns) + Extract(file, n)
  {
    if ns == [] {
      assert [n][1..] == [];
    } else {
      assert (ns + [n])[1..] == ns[1..] + [n];
      ExtractAllAppend(file, ns[1..], n);
    }
  }

  lemma ExtractAllPrefixStep(file: string, ns: seq<Node>, i: nat)
    requires i < |ns|
    ensures ExtractAll(file, ns[..i + 1]) == ExtractAll(file, ns[..i]) + Extract(file, ns[i])
  {
    assert ns[..i + 1] == ns[..i] + [ns[i]];
    ExtractAllAppend(file, ns[..i], ns[i]);
  }

  /** Each ClassDef yields one "Class" record, each FunctionDef and each
      AsyncFunctionDef one "Function" record, and nothing else yields one. */
  lemma {:induction false} ExtractCounts(file: string, n: Node)
    ensures CountKind(Extract(file, n), Class) == ClassCount(n)
    ensures CountKind(Extract(file, n), Function) == FunctionCount(n)
    ensures |Extract(file, n)| == ClassCount(n) + FunctionCount(n)
    decreases n
  {
    ExtractAllCounts(file, n.children);
    var head := if IsDecl(n) then [RecordOf(file, n)] else [];
    CountKindConcat(head, ExtractAll(file, n.children), Class);
    CountKindConcat(head, ExtractAll(file, n.children), Function);
  }

  lemma {:induction false} ExtractAllCounts(file: string, ns: seq<Node>)
    ensures CountKind(ExtractAll(file, ns), Class) == ClassCountAll(ns)
    ensures CountKind(ExtractAll(file, ns), Function) == FunctionCountAll(ns)
    ensures |ExtractAll(file, ns)| == ClassCountAll(ns) + FunctionCountAll(ns)
    decreases ns
  {
    if ns != [] {
      ExtractCounts(file, ns[0]);
      ExtractAllCounts(file, ns[1..]);
      CountKindConcat(Extract(file, ns[0]), ExtractAll(file, ns[1..]), Class);
      CountKindConcat(Extract(file, ns[0]), ExtractAll(file, ns[1..]), Function);
    }
  }

  /** Every record carries the parser's file path, and comes from some
      declaration in the tree: its kind, name and line are that node's. */
  lemma {:induction false} ExtractSound(file: string, n: Node, r: CodeItem)
    requires r in Extract(file, n)
    ensures r.file == file
    ensures exists d :: SubtreeOf(d, n) && IsDecl(d) && r == RecordOf(file, d)
    decreases n
  {
    if IsDecl(n) && r == RecordOf(file, n) {
      assert SubtreeOf(n, n);
    } else {
      assert r in ExtractAll(file, n.children);
      var i := ExtractAllSound(file, n.children, r);
      ExtractSound(file, n.children[i], r);
      var d :| SubtreeOf(d, n.children[i]) && IsDecl(d) && r == RecordOf(file, d);
      assert SubtreeOf(d, n);
    }
  }

  lemma {:induction false} ExtractAllSound(file: string, ns: seq<Node>, r: CodeItem) returns (i: nat)
    requires r in ExtractAll(file, ns)
    ensures i < |ns| && r in Extract(file, ns[i])
    decreases ns
  {
    if r in Extract(file, ns[0]) {
      i := 0;
    } else {
      var j := ExtractAllSound(file, ns[1..], r);
      i := j + 1;
    }
  }

  lemma InfixTrans(a: seq<CodeItem>, b: seq<CodeItem>, c: seq<CodeItem>)
    requires IsInfix(a, b) && IsInfix(b, c)
    ensures IsInfix(a, c)
  {
    var i: nat :| InfixAt(a, b, i);
    var j: nat :| InfixAt(b, c, j);
    forall k | 0 <= k < |a|
      ensures c[j + i + k] == a[k]
    {
      assert c[j + i + k] == c[j..j + |b|][i + k] == b[i..i + |a|][k];
    }
    assert c[j + i..j + i + |a|] == a;
    assert InfixAt(a, c, j + i);
  }

  /** The records of any subtree form one contiguous block of the tree's
      records: the traversal neither drops nor splits nested declarations. */
  lemma {:induction false} SubtreeRecordsInfix(file: string, n: Node, d: Node)
    requires SubtreeOf(d, n)
    ensures IsInfix(Extract(file, d), Extract(file, n))
    decreases n
  {
    var whole := Extract(file, n);
    if d == n {
      assert whole[0..|whole|] == whole;
      assert InfixAt(whole, whole, 0);
    } else {
      var i :| 0 <= i < |n.children| && SubtreeOf(d, n.children[i]);
      SubtreeRecordsInfix(file, n.children[i], d);
      ChildRecordsInfix(file, n, i);
      InfixTrans(Extract(file, d), Extract(file, n.children[i]), whole);
    }
  }

  /** A child's records lie after the parent's own record. */
  lemma ChildRecordsInfix(file: string, n: Node, i: nat)
    requires i < |n.children|
    ensures IsInfix(Extract(file, n.children[i]), ExtractAll(file, n.children))
    ensures IsInfix(Extract(file, n.children[i]), Extract(file, n))
  {
    var cs := n.children;
    var before, mid, after := ExtractAll(file, cs[..i]), Extract(file, cs[i]), ExtractAll(file, cs[i + 1..]);
    var all := ExtractAll(file, cs);
    ExtractAllSplit(file, cs, i);
    InfixMiddle(before, mid, after);
    assert InfixAt(mid, all, |before|);
    var head := if IsDecl(n) then [RecordOf(file, n)] else [];
    assert Extract(file, n) == head + all;
    InfixPrepend(head, mid, all, |before|);
  }

  lemma InfixPrepend(head: seq<CodeItem>, a: seq<CodeItem>, b: seq<CodeItem>, k: nat)
    requires InfixAt(a, b, k)
    ensures InfixAt(a, head + b, |head| + k)
  {
    assert (head + b)[|head| + k..|head| + k + |a|] == b[k..k + |a|];
  }

  lemma InfixMiddle(x: seq<CodeItem>, mid: seq<CodeItem>, y: seq<CodeItem>)
    ensures InfixAt(mid, x + mid + y, |x|)
  {
    assert (x + mid + y)[|x|..|x| + |mid|] == mid;
  }

  lemma {:induction false} ExtractAllSplit(file: string, ns: seq<Node>, i: nat)
    requires i < |ns|
    ensures ExtractAll(file, ns) == ExtractAll(file, ns[..i]) + Extract(file, ns[i]) + ExtractAll(file, ns[i + 1..])
  {
    assert ns == ns[..i] + ns[i..];
    ExtractAllConcat(file, ns[..i], ns[i..]);
    assert ns[i..][1..] == ns[i + 1..];
  }

  lemma {:induction false} ExtractAllConcat(file: string, a: seq<Node>, b: seq<Node>)
    ensures ExtractAll(file, a + b) == ExtractAll(file, a) + ExtractAll(file, b)
    decreases |a|
  {
    if a == [] {
      assert a + b == b;
    } else {
      assert (a + b)[1..] == a[1..] + b;
      ExtractAllConcat(file, a[1..], b);
    }
  }

  /** Pre-order: a declaration's own record comes first, and the record of
      every declaration nested inside it (at any depth) comes after it. */
  lemma DeclarationPrecedesNested(file: string, n: Node, d: Node)
    requires IsDecl(n) && IsDecl(d) && NestedIn(d, n)
    ensures Extract(file, n)[0] == RecordOf(file, n)
    ensures RecordOf(file, d) in Extract(file, n)[1..]
  {
    NestedInChildren(file, n, d);
    assert Extract(file, n) == [RecordOf(file, n)] + ExtractAll(file, n.children);
    assert Extract(file, n)[1..] == ExtractAll(file, n.children);
  }

  lemma NestedInChildren(file: string, n: Node, d: Node)
    requires IsDecl(d) && NestedIn(d, n)
    ensures RecordOf(file, d) in ExtractAll(file, n.children)
  {
    var i :| 0 <= i < |n.children| && SubtreeOf(d, n.children[i]);
    var all := ExtractAll(file, n.children);
    var sub := Extract(file, d);
    SubtreeRecordsInfix(file, n.children[i], d);
    ChildRecordsInfix(file, n, i);
    InfixTrans(sub, Extract(file, n.children[i]), all);
    InfixHead(sub, all);
  }

  lemma InfixHead(sub: seq<CodeItem>, all: seq<CodeItem>)
    requires IsInfix(sub, all) && sub != []
    ensures sub[0] in all
  {
    var j: nat :| InfixAt(sub, all, j);
    assert all[j] == all[j..j + |sub|][0];
  }

  /** Completeness: every declaration anywhere in the tree, nested or not,
      has its record in the output. */
  lemma DeclarationEmitted(file: string, n: Node, d: Node)
    requires SubtreeOf(d, n) && IsDecl(d)
    ensures RecordOf(file, d) in Extract(file, n)
  {
    SubtreeRecordsInfix(file, n, d);
    var sub := Extract(file, d);
    var whole := Extract(file, n);
    InfixHead(sub, whole);
  }

  // ---------------------------------------------------------------------
  // The visitor
  // ---------------------------------------------------------------------

  /** `CodeParser`: a visitor whose `items` list grows as it walks a tree. */
  class CodeParser {
    const filePath: string
    var items: seq<CodeItem>

    constructor (filePath: string)
      ensures this.filePath == filePath && items == []
    {
      this.filePath := filePath;
      items := [];
    }

    /** `visit`: dispatch on the node kind; other nodes get the generic walk. */
    method Visit(n: Node)
      modifies this
      ensures items == old(items) + Extract(filePath, n)
      decreases n, 2
    {
      match n
      case ClassDef(_, _, _) => VisitClassDef(n);
      case FunctionDef(_, _, _) => VisitFunctionDef(n);
      case AsyncFunctionDef(_, _, _) => VisitAsyncFunctionDef(n);
      case Other(_) => GenericVisit(n);
    }

    method VisitClassDef(n: Node)
      requires n.ClassDef?
      modifies this
      ensures items == old(items) + [CodeItem(Class, n.name, filePath, n.line)] + ExtractAll(filePath, n.children)
      decreases n, 1
    {
      items := items + [CodeItem(Class, n.name, filePath, n.line)];
      GenericVisit(n);
    }

    method VisitFunctionDef(n: Node)
      requires n.FunctionDef?
      modifies this
      ensures items == old(items) + [CodeItem(Function, n.name, filePath, n.line)] + ExtractAll(filePath, n.children)
      decreases n, 1
    {
      items := items + [CodeItem(Function, n.name, filePath, n.line)];
      GenericVisit(n);
    }

    method VisitAsyncFunctionDef(n: Node)
      requires n.AsyncFunctionDef?
      modifies this
      ensures items == old(items) + [CodeItem(Function, n.name, filePath, n.line)] + ExtractAll(filePath, n.children)
      decreases n, 1
    {
      items := items + [CodeItem(Function, n.name, filePath, n.line)];
      GenericVisit(n);
    }

    /** `generic_visit`: visit the children left to right. */
    method GenericVisit(n: Node)
      modifies this
      ensures items == old(items) + ExtractAll(filePath, n.children)
      decreases n, 0
    {
      var i := 0;
      while i < |n.children|
        invariant 0 <= i <= |n.children|
        invariant items == old(items) + ExtractAll(filePath, n.children[..i])
      {
        var child := n.children[i];
        assert child in n.children;
        Visit(child);
        ExtractAllPrefixStep(filePath, n.children, i);
        i := i + 1;
      }
      assert n.children[..i] == n.children;
    }
  }

  /** `parse_python_file`: a file whose reading, parsing or visiting raised
      contributes the empty list; otherwise the visitor's records of its
      tree. */
  method ParsePythonFile(path: string, outcome: ParseOutcome) returns (items: seq<CodeItem>)
    ensures outcome.ParseFailed? ==> items == []
    ensures outcome.Parsed? ==> items == Extract(path, outcome.tree)
  {
    match outcome
    case ParseFailed =>
      items := [];
    case Parsed(tree) =>
      var parser := new CodeParser(path);
      parser.Visit(tree);
      items := parser.items;
  }

  /** `main`, lines 149-151: extend the combined list file by file. */
  method CollectCodeItems(files: seq<SourceFile>) returns (all: seq<CodeItem>)
    ensures all == AllItems(files)
  {
    all := [];
    var i := 0;
    while i < |files|
      invariant 0 <= i <= |files|
      invariant all == AllItems(files[..i])
    {
      var fileItems := ParsePythonFile(files[i].path, files[i].outcome);
      AllItemsPrefixStep(files, i);
      all := all + fileItems;
      i := i + 1;
    }
    assert files[..i] == files;
  }

  /** The combined list of two batches of files is the concatenation of
      their lists. */
  lemma {:induction false} AllItemsConcat(a: seq<SourceFile>, b: seq<SourceFile>)
    ensures AllItems(a + b) == AllItems(a) + AllItems(b)
    decreases |a|
  {
    if a == [] {
      assert a + b == b;
    } else {
      assert (a + b)[1..] == a[1..] + b;
      AllItemsConcat(a[1..], b);
    }
  }

  lemma AllItemsPrefixStep(files: seq<SourceFile>, i: nat)
    requires i < |files|
    ensures AllItems(files[..i + 1]) == AllItems(files[..i]) + FileItems(files[i])
  {
    var f := files[i];
    assert files[..i + 1] == files[..i] + [f];
    AllItemsConcat(files[..i], [f]);
    assert AllItems([f]) == FileItems(f) + AllItems([]);
  }

  /** Failure tolerance: a file that cannot be parsed contributes nothing,
      and the other files' records are unaffected by it. */
  lemma FailedFileContributesNothing(before: seq<SourceFile>, path: string, after: seq<SourceFile>)
    ensures AllItems(before + [SourceFile(path, ParseFailed)] + after) == AllItems(before) + AllItems(after)
  {
    var failed := [SourceFile(path, ParseFailed)];
    assert failed[1..] == [];
    assert AllItems(failed) == FileItems(failed[0]) + AllItems([]) == [];
    AllItemsConcat(before + failed, after);
    AllItemsConcat(before, failed);
  }

  /** Every record in the combined list names the file it came from, and
      that file is one of the enumerated files. */
  lemma {:induction false} AllItemsFromFiles(files: seq<SourceFile>, r: CodeItem)
    requires r in AllItems(files)
    ensures exists i :: 0 <= i < |files| && files[i].path == r.file && r in FileItems(files[i])
    decreases |files|
  {
    var first, rest := files[0], files[1..];
    if r in FileItems(first) {
      match first.outcome
      case Parsed(tree) => ExtractSound(first.path, tree, r);
    } else {
      AllItemsFromFiles(rest, r);
      var i :| 0 <= i < |rest| && rest[i].path == r.file && r in FileItems(rest[i]);
      assert files[i + 1] == rest[i];
    }
  }

  /** A class Foo at line 3 with a method bar at line 7 inside it yields
      exactly two records, Foo's first. */
  lemma NestedMethodExtract()
    ensures Extract("a.src", ClassDef("Foo", 3, [FunctionDef("bar", 7, [])]))
         == [CodeItem(Class, "Foo", "a.src", 3), CodeItem(Function, "bar", "a.src", 7)]
  {
    var bar := FunctionDef("bar", 7, []);
    assert Extract("a.src", bar) == [CodeItem(Function, "bar", "a.src", 7)] by {
      assert ExtractAll("a.src", []) == [];
    }
    assert ExtractAll("a.src", [bar]) == Extract("a.src", bar) by {
      assert [bar][1..] == [];
    }
  }
}
