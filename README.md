# Code indexer and doc-sync checker, modelled in Dafny

This project models two maintenance scripts of the ISA SuperApp repository.

- **Structure indexer** (`scripts/poc_code_indexer.py`). It walks the syntax tree of every Python file and records one item per class and per (sync or async) function: kind, name, file and line. It concatenates the per-file lists. It then merges the items into a Neo4j graph as `File` nodes, `Class`/`Function` nodes keyed by `file::name`, and `DEFINED_IN` edges.
- **Doc-sync checker** (`scripts/check_docs_sync.py`). It checks that five fixed directories hold a `README.md`. It scans every ADR document left to right for non-overlapping backtick-quoted `` `scripts/….py` `` paths, collects the paths it finds, and checks that each of those scripts exists. It reports the errors and exits with 1 when there are any.

Files:

| file | module | what it holds |
|---|---|---|
| `code_parser.dfy` | `CodeParsing` | syntax-tree datatype; the `CodeParser` visitor class; `parse_python_file`; the per-file concatenation in `main` |
| `graph_ingest.dfy` | `GraphIngest` | the graph store as a class over an in-memory graph; the ingest loop; merge semantics |
| `script_scanner.dfy` | `ScriptScanner` | a hand-written scanner for the backtick pattern, with `findall` semantics |
| `string_order.dfy` | `StringOrder` | the order `sorted` puts strings in (code-point lexicographic), and a selection sort proved to produce it |
| `doc_sync.dfy` | `DocSync` | the README check, reference collection, the sorted existence check and `main` |

The stateful code keeps its imperative form:

- `CodeParser.items` is a field that the visit methods append to.
- The graph store is an object whose merge methods update its fields.
- The error lists and the reference set are built in loops.

Each method is proved against a specification function, and the properties are lemmas about those functions.

Abstract inputs:

- **Parser.** The syntax tree, or the fact that reading, parsing or visiting the file raised, is an input (`ParseOutcome`).
- **File enumeration.** The file list (the result of `rglob`) and the ADR texts (the result of `glob` plus `read_text`) are input sequences in enumeration order.
- **Filesystem existence.** `Path.is_file` and `Path.is_dir` become the predicates `isFile` and `isDir` on paths relative to the repository root. A README path is the directory string followed by `README.md`.
- **Database.** The Neo4j database is the value `Graph`:
  - a set of constraints;
  - a set of File paths;
  - a map from `(label, fqn)` to `(name, line)`;
  - a set of `DEFINED_IN` edges.

  `MERGE` is "insert if absent". `ON CREATE SET` writes attributes only when the node is inserted. When `MATCH (f:File …)` finds no File node, the second query writes nothing.

  Records that share a (label, fqn) therefore keep the first record's name and line, because the query uses `ON CREATE SET` (`GraphIngest.FirstSeenWins`).

## Model

| member | source | states |
|---|---|---|
| CodeParsing.RecordOf | scripts/poc_code_indexer.py:38-63 | the record of a declaration carries the parser's file path and the node's name and line; its kind is Class exactly for a ClassDef and Function for sync and async functions |
| CodeParsing.CodeParser.constructor | scripts/poc_code_indexer.py:34-36 | a new parser has the given file path and no items |
| CodeParsing.CodeParser.Visit | scripts/poc_code_indexer.py:30-63 | visiting a node appends exactly the pre-order records of its subtree to `items` |
| CodeParsing.CodeParser.VisitClassDef | scripts/poc_code_indexer.py:38-45 | appends one Class record for the node, then the records of everything nested in it |
| CodeParsing.CodeParser.VisitFunctionDef | scripts/poc_code_indexer.py:47-54 | appends one Function record for the node, then the records of everything nested in it |
| CodeParsing.CodeParser.VisitAsyncFunctionDef | scripts/poc_code_indexer.py:56-63 | an async function also yields a Function record, followed by its nested records |
| CodeParsing.CodeParser.GenericVisit | scripts/poc_code_indexer.py:45 | children are visited left to right; `items` grows by their records in order |
| CodeParsing.ParsePythonFile | scripts/poc_code_indexer.py:66-78 | a file whose reading, parsing or visiting raised yields the empty list; otherwise the visitor's records of its tree |
| CodeParsing.ExtractCounts | scripts/poc_code_indexer.py:38-63 | the number of Class records equals the number of ClassDef nodes; the number of Function records equals the number of FunctionDef and AsyncFunctionDef nodes; nothing else yields a record |
| CodeParsing.ExtractSound | scripts/poc_code_indexer.py:38-63 | every record has the parser's file and is the record of some declaration node in the tree |
| CodeParsing.SubtreeRecordsInfix | scripts/poc_code_indexer.py:45 | the records of any subtree form one contiguous block of the tree's records |
| CodeParsing.DeclarationPrecedesNested | scripts/poc_code_indexer.py:39-45 | pre-order: a declaration's own record comes first, and the record of every declaration nested in it (at any depth) comes after it |
| CodeParsing.DeclarationEmitted | scripts/poc_code_indexer.py:45 | every declaration anywhere in the tree, nested or not, has its record in the output |
| CodeParsing.NestedMethodExtract | scripts/poc_code_indexer.py:38-54 | class Foo (line 3) containing method bar (line 7) yields exactly the records Foo then bar |
| CodeParsing.CollectCodeItems | scripts/poc_code_indexer.py:149-151 | the combined list is the concatenation of the per-file lists in enumeration order |
| CodeParsing.AllItemsConcat | scripts/poc_code_indexer.py:149-151 | the combined list of two batches of files is the concatenation of their lists |
| CodeParsing.FailedFileContributesNothing | scripts/poc_code_indexer.py:76-78 | a file that fails to parse adds nothing to the combined list and leaves the other files' records unchanged |
| CodeParsing.AllItemsFromFiles | scripts/poc_code_indexer.py:149-151 | every combined record comes from one of the enumerated files and names that file |
| GraphIngest.Fqn | scripts/poc_code_indexer.py:99 | the fqn `file::name` starts with the file; for a name without ':' the name is what follows its last ':' and the file what precedes the "::" |
| GraphIngest.KeyOfDecodes | scripts/poc_code_indexer.py:99-110 | a record's node key carries the record's label, and its fqn reads back as the record's file and name |
| GraphIngest.GraphStore.constructor | scripts/poc_code_indexer.py:132 | the handle on the connected database shows whatever graph the database already holds |
| GraphIngest.GraphStore.EnsureConstraints | scripts/poc_code_indexer.py:86-88 | the three uniqueness constraints are added to whatever is there; nothing else changes |
| GraphIngest.GraphStore.MergeFile | scripts/poc_code_indexer.py:102-105 | the File node for the path is present afterwards; nothing else changes |
| GraphIngest.GraphStore.MergeEntity | scripts/poc_code_indexer.py:108-120 | if the File node exists: the entity node is inserted only if absent (attributes written only then) and the DEFINED_IN edge is present; otherwise nothing changes |
| GraphIngest.IngestCodeStructure | scripts/poc_code_indexer.py:81-122 | the store ends in the state of constraints first, then the two merges of every item in list order |
| GraphIngest.IngestEffect | scripts/poc_code_indexer.py:99-112 | afterwards the graph holds exactly what it held before plus, per item, its File node, its (label, `file::name`) node and the edge between them; attributes of earlier nodes are unchanged |
| GraphIngest.IngestedItemPresent | scripts/poc_code_indexer.py:102-112 | every ingested item has its File node, its entity node and its DEFINED_IN edge |
| GraphIngest.FirstSeenWins | scripts/poc_code_indexer.py:110-111 | the first item with a given (label, fqn) decides the node's name and line; later items with that key do not overwrite them |
| GraphIngest.IngestIdempotent | scripts/poc_code_indexer.py:86-112 | ingesting the same list twice gives the same graph as ingesting it once: no duplicate node, edge or rewritten attribute |
| GraphIngest.FqnInjective | scripts/poc_code_indexer.py:99 | for names without ':', the fqn `file::name` determines both the file and the name |
| GraphIngest.KeyOfIdentifies | scripts/poc_code_indexer.py:99-110 | two records map to the same node exactly when label, file and name agree (names without ':') |
| GraphIngest.ClassAndFunctionAreDistinctNodes | scripts/poc_code_indexer.py:110 | a Class and a Function with the same fqn become two distinct nodes |
| GraphIngest.NestedMethodIngest | scripts/poc_code_indexer.py:92-120 | ingesting the Foo/bar records creates one File node, two entity nodes `a.src::Foo` and `a.src::bar`, and two edges; re-ingesting changes nothing |
| StringOrder.LexLess | scripts/check_docs_sync.py:74 | the str order `sorted` uses never relates a string to itself and puts a proper prefix before its extensions |
| StringOrder.LexLessSpec | scripts/check_docs_sync.py:74 | that order is the lexicographic one: the first differing code point decides, and otherwise the proper prefix is smaller |
| StringOrder.LexLessTotal | scripts/check_docs_sync.py:74 | the order `sorted` uses is total on strings |
| StringOrder.LexLessTransitive | scripts/check_docs_sync.py:74 | that order is transitive |
| StringOrder.SortedPathsSpec | scripts/check_docs_sync.py:74 | the sorted list of a set holds each element once, in strictly ascending order |
| StringOrder.SortedUnique | scripts/check_docs_sync.py:74 | any strictly ascending arrangement of a set is that sorted list |
| StringOrder.Sorted | scripts/check_docs_sync.py:74 | `sorted(list(s))` returns the sorted list of the set |
| ScriptScanner.Scan | scripts/check_docs_sync.py:59 | matches from a position on take at least 14 characters each, so they fit in the rest of the text |
| ScriptScanner.FindAll | scripts/check_docs_sync.py:59 | `findall` returns one path per match, at most one per 14 characters of text |
| ScriptScanner.MatchAtIsPattern | scripts/check_docs_sync.py:49 | the scanner's test at a position succeeds, closing at k, exactly when the pattern matches there with its closing backtick at k |
| ScriptScanner.ScanMatchSound | scripts/check_docs_sync.py:49-59 | every reported match is a match of the pattern, and its captured path is the text between its backticks |
| ScriptScanner.ScanOrdered | scripts/check_docs_sync.py:59 | matches come in text order and do not overlap: each one closes before the next opens |
| ScriptScanner.ScanLeftmost | scripts/check_docs_sync.py:59 | every position where the pattern matches starts a reported match or lies inside one, its closing backtick included |
| ScriptScanner.FoundReferenceShape | scripts/check_docs_sync.py:49-59 | every found path starts with "scripts/", has at least one character before ".py", ends with ".py", holds only `[a-zA-Z0-9_./-]`, and stood between backticks in the text |
| ScriptScanner.QuotedPathFound | scripts/check_docs_sync.py:49-59 | conversely, a well-formed script path alone between backticks is found |
| ScriptScanner.ClosingBacktickNotReused | scripts/check_docs_sync.py:59 | when two paths share the backtick between them, only the first is found |
| DocSync.CheckReadmeExistence | scripts/check_docs_sync.py:33-44 | the loop returns the README error list over the five required directories in list order |
| DocSync.ReadmeErrorsExact | scripts/check_docs_sync.py:37-44 | an error names a directory exactly when the directory is listed and its README is missing; there are exactly as many errors as listed directories without a README, so no more than directories |
| DocSync.ReadmeErrorsInListOrder | scripts/check_docs_sync.py:37-44 | errors appear in the directories' list order |
| DocSync.AtMostFiveReadmeErrors | scripts/check_docs_sync.py:20-26 | the README check reports at most five errors |
| DocSync.FindScriptReferencesInAdrs | scripts/check_docs_sync.py:46-66 | a missing ADR directory yields the empty set; otherwise the set of every match in every ADR text |
| DocSync.ReferencesInExact | scripts/check_docs_sync.py:57-61 | a path is collected exactly when some ADR text contains it as a match, however often it occurs |
| DocSync.ReferencesWellFormed | scripts/check_docs_sync.py:49-61 | every collected reference is a well-formed script path that stood between backticks in some ADR text |
| DocSync.CheckScriptExistence | scripts/check_docs_sync.py:68-82 | an empty set yields no errors; otherwise the errors for the paths in sorted order |
| DocSync.ScriptErrorsExact | scripts/check_docs_sync.py:74-80 | an error names a path exactly when the path is listed and is not a file |
| DocSync.ScriptErrorsSorted | scripts/check_docs_sync.py:74 | errors for a sorted path list come out sorted |
| DocSync.ScriptCheckReport | scripts/check_docs_sync.py:68-82 | for a set of references: one error per missing path and none for an existing one, in ascending order, no more errors than paths |
| DocSync.CheckDocsSync | scripts/check_docs_sync.py:84-104 | the reported list is the README errors followed by the script errors; the exit code is 1 exactly when that list is non-empty, otherwise 0 |
| DocSync.DocsSyncPassesIff | scripts/check_docs_sync.py:84-104 | the check passes exactly when every required README exists and, when the ADR directory exists, every referenced script exists |

## Left out

- Python's parser (`ast.parse`), file reading and UTF-8 decoding of source files: the tree or the failure is an input. Every syntax node other than the three declaration kinds is one `Other` node whose children are the nodes `generic_visit` would reach.
- `Path.rglob` and `glob` enumeration: the file list and the ADR texts are input sequences. Their order is whatever the enumeration yields.
- Path normalisation by `pathlib` (for example `./README.md` versus `README.md`): paths are plain strings, and `isFile`/`isDir` are taken to answer for them as written.
- The Neo4j client: `get_gds_client`, `is_healthy`, `execute_query`, `close`, the connection failure exits in `main`, and the Cypher query text. Only the merge semantics are modelled, on the in-memory `Graph`.
- GraphIngest.GraphStore.EnsureConstraints: the constraints are only recorded in a set. The database enforcing them is not modelled.
- Batching with `UNWIND`, which the code does not do, and concurrency, of which there is none.
- `print` output, `sys.exit` and the `sys.path` and import-failure plumbing.
- Python's general regular-expression engine: only the one fixed pattern is modelled, by a dedicated scanner.
- GraphIngest.FqnInjective: proved only for names without ':'. Python identifiers never contain one. For arbitrary strings, `file::name` is not injective.
- CodeParsing.ParsePythonFile: `ParseFailed` also stands for a visit that raised inside the same `try`, for example a `RecursionError` on a tree deeper than Python's recursion limit (a long `elif` chain or a long chain of `+`). The records appended before the exception are then discarded and the file yields the empty list. The model does not derive this outcome from the tree: for `Parsed(tree)` it always returns the visitor's full record list.
- The abort of the doc-sync checker on an unreadable ADR file: `read_text(encoding="utf-8")` is not guarded, so an ADR file that is not valid UTF-8, or a directory whose name matches `*.md`, ends `main` with a traceback before any error is reported. The ADR texts are inputs that were read successfully.
- GraphIngest.GraphStore.constructor: the connection to the database and its health check are not modelled; the store starts from a given graph.
