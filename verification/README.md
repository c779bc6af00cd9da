# outline: a Dafny model of the test-scaffold analysis

The `outline` command of this Solidity tool reads every `src/**/*.sol` file and
parses it. It expands each syntax tree into one record per contract
definition and keeps the contracts, libraries and abstract contracts. It then
expands each kept contract into one record per function definition and keeps
the functions a test can call: every function of a library, and otherwise the
`default`, `external` and `public` ones. For every surviving
(file, contract, function) triple it computes a test directory
`test/concrete/<dir>/<stem>/<contract?>/<function>` and creates it.

This project models that analysis in Dafny 4.11 as pure functions over
immutable records, from the already-read files to the list of test paths. It
proves the following properties of the model:

- what each stage of the map/reduce/filter chain yields;
- that the whole chain equals an independent reference description;
- which records survive the filters, and that the output is ordered by file,
  then contract, then function;
- how many records there are;
- what shape a test path has, segment by segment.

Modules, one per file:

| file | module | contents |
|---|---|---|
| `wrappers.dfy` | `Wrappers` | `Option`, and `Result` with `:-` support |
| `seq_util.dfy` | `SeqUtil` | `Filter`, `FoldLeft` (`reduce`), `FlatMap` and their algebra |
| `js_string.dfy` | `JsString` | `indexOf`, first-occurrence `replace`, `split`, `join` |
| `posix_path.dfy` | `PosixPath` | Node's POSIX `dirname`, `basename`, `extname`, `join`, `sep`, `delimiter` |
| `solidity_ast.dfy` | `SolidityAst` | the part of the parser's syntax tree the command reads |
| `outline.dfy` | `Outline` | the records, `getAst`, the attach/filter stages, the name resolution, `getTestPath`, `attachTestPath`, the chain |
| `outline_spec.dfy` | `OutlineSpec` | the reference description, and the filtering, ordering and counting lemmas |
| `test_paths.dfy` | `TestPaths` | the relative directory, the stem and the segments of a test path |
| `outline_examples.dfy` | `OutlineExamples` | worked cases on concrete source paths |

Two library calls are parameters of the model:

- `parser.parse` is a `Parser`. It maps the file text to a syntax tree, or to
  the diagnostic it throws.
- `changeCase.kebabCase` is a `Kebab`, a plain `string -> string`.

The model's functions assume nothing of either. The lemmas that split a test
path into segments take hypotheses about `Kebab`'s output on the names they
look at: those names contain no `/`. `TestPaths.SpecialFunctionSegment`
also requires the kebab-cased role to be non-empty, and
`TestPaths.SiblingContractsGetDistinctPaths` requires both kebab-cased
contract names to be non-empty.

The model follows the program's text where a reader might expect otherwise:

- `testableContractsCount` (src/commands/outline.ts:97) counts every
  `ContractDefinition` of the file, interfaces included, before the kind
  filter is applied. So an interface next to a single contract adds the
  contract segment.
- The relative directory is re-joined with `path.delimiter` (`:`) and not
  with `/` (line 101). So `src/tokens/deep/X.sol` gives the single segment
  `tokens:deep`, not nested directories.
- The extension is removed with a first-occurrence `replace` (line 103).
  So `A.solidity.sol` has stem `Aidity.sol`, not `A.solidity`.
- Line 29 leaves parse errors unhandled (`// TODO handle parsing errors`),
  and `getFunctionName` throws through `invariant` (line 88) inside a `map`.
  So one unparsable file, or one function that survives both filters and has
  no usable name, aborts the whole run. `getFunctionName` runs only in
  `.map(attachTestPath)` (line 152), after the filters, so a nameless
  function of an interface, or a nameless `private` or `internal` function
  of a contract, never reaches line 88. A declared name that is the empty string also fails, because
  `invariant(functionNode.name)` rejects every falsy value.

## Model

| member | source | states |
|---|---|---|
| Outline.GetAst | src/commands/outline.ts:24-31 | The file parses exactly when the parser accepts its text. On success the record is the file's path and text with the parser's syntax tree attached. On failure the error is the parser's own diagnostic. |
| Outline.ParseAll | src/commands/outline.ts:139 | `map(getAst)` succeeds exactly when every file parses, with one parsed record per file in the same order. Otherwise the run fails with the error of the first file that does not parse, and every earlier file parsed. |
| Outline.ContractRecords | src/commands/outline.ts:43-46 | One record per contract definition, in declaration order. Each record is the file record with only its contract node added. |
| Outline.AttachContractNode | src/commands/outline.ts:33-48 | The accumulator is kept as a prefix. Exactly one record per contract of the file follows it, in order. The k-th new record is the file record plus the k-th contract. |
| Outline.FunctionRecords | src/commands/outline.ts:66-69 | One record per function definition of the contract, in declaration order. Each record is the contract record with only its function node added. |
| Outline.AttachFunctionNode | src/commands/outline.ts:56-71 | The accumulator is kept as a prefix. Exactly one record per function of the contract follows it, in order. The k-th new record is the contract record plus the k-th function. |
| Outline.FunctionName | src/commands/outline.ts:84-90 | The name resolves exactly when the function is a constructor, fallback or receive function, or has a non-empty declared name. The roles are tried in the order constructor, fallback, receive, and the declared name comes last. Failure is the invariant error, and a resolved name is never empty. |
| Outline.RelativeDir | src/commands/outline.ts:101 | The relative directory never contains `/`, so it is always at most one path segment. |
| Outline.GetTestPath | src/commands/outline.ts:92-108 | The test path exists exactly when the function's name resolves. Otherwise it is the invariant error. |
| Outline.TestPathShape | src/commands/outline.ts:98-107 | Every test path starts with `test/concrete`. It ends with `/` and the kebab-cased function name whenever that name is non-empty. |
| Outline.AttachTestPath | src/commands/outline.ts:110-114 | Succeeds exactly when the function's name resolves. The result is the input record, unchanged, with the test path of `getTestPath` added. |
| Outline.MapAttachTestPath | src/commands/outline.ts:152 | Succeeds exactly when every record's function name resolves. It then gives one record per input, in order, each being `attachTestPath` of the matching input. Otherwise it fails with the invariant error. |
| OutlineSpec.FunctionStage | src/commands/outline.ts:73-79 | Filtering a contract's function records keeps exactly the reference entries: library functions always, others only when not internal or private. |
| OutlineSpec.ContractStage | src/commands/outline.ts:50-54 | Expanding and filtering one file's contracts, then their functions, gives exactly the reference entries of that file: non-interface contracts, each with its testable functions. |
| OutlineSpec.FileStage | src/commands/outline.ts:140-151 | The flattened chain over all files gives exactly the reference records, file after file. |
| OutlineSpec.TestablesAreExpected | src/commands/outline.ts:138-151 | The reduce/filter chain of the command computes exactly the reference records, in reference order. |
| OutlineSpec.ExpectedMembership | src/commands/outline.ts:138-151 | A record is among the reference records if and only if all of the following hold: its file is an input, its contract is declared in that file and is not an interface, and its function is declared in that contract and is testable there. |
| OutlineSpec.NoInterfaceRecords | src/commands/outline.ts:50-54 | No output record belongs to an interface. |
| OutlineSpec.HiddenFunctionsDropped | src/commands/outline.ts:77-78 | Outside libraries, every output record's function is `default`, `external` or `public`. |
| OutlineSpec.LibraryFunctionsKept | src/commands/outline.ts:77 | Every function of every library of every input file gets an output record, whatever its visibility. |
| OutlineSpec.OrderedByFile | src/commands/outline.ts:140-143 | The output for two lists of files is the output for the first followed by the output for the second. |
| OutlineSpec.OrderedByContract | src/commands/outline.ts:41-47 | Within one file, the records of earlier contracts come before those of later ones. |
| OutlineSpec.EmptyFileContributesNothing | src/commands/outline.ts:138-151 | A file with no contract definitions adds nothing to the output wherever it appears. |
| OutlineSpec.TestablesCount | src/commands/outline.ts:138-151 | The number of output records equals the number of (contract, function) pairs that pass both filters. |
| OutlineSpec.OutlineCharacterization | src/commands/outline.ts:138-152 | The run fails with the first parse error when some file does not parse. Otherwise it is `map(attachTestPath)` over the reference records of the parsed files. |
| OutlineSpec.AttachedRecords | src/commands/outline.ts:152 | After a successful `map(attachTestPath)`, each output record is its input record unchanged, carrying that record's `getTestPath`. |
| TestPaths.RelativeDirOfSegments | src/commands/outline.ts:101 | For `top/d1/.../dn/file`, the relative directory is `d1:...:dn`: the first component is dropped and the others are glued with `:`. |
| TestPaths.RelativeDirOfBareName | src/commands/outline.ts:101 | A path without any `/` has an empty relative directory. |
| TestPaths.StemRestoresBasename | src/commands/outline.ts:103 | Putting the extension back where it first occurs in the base name restores the base name. |
| TestPaths.StemStripsSuffix | src/commands/outline.ts:103 | When the base name has no extension, the stem is the whole base name. When the extension occurs in the base name only as its suffix, the stem is the base name without that suffix. In both cases the stem followed by the extension is the base name. |
| TestPaths.DotFreeStem | src/commands/outline.ts:103 | For a file `stem.ext` at any depth with a dot-free stem, the base name is `stem.ext`, the extension `.ext` and the stem `stem`. |
| TestPaths.FirstOccurrenceStem | src/commands/outline.ts:103 | For a base name `x.ext` + `y.ext`, the stem is `x` + `y.ext`: the extension is removed where it first occurs, not at the end. |
| TestPaths.TestPathSegments | src/commands/outline.ts:95-107 | Provided the kebab-cased stem, the kebab-cased function name and (when it is used) the kebab-cased contract name contain no `/`: splitting a test path on `/` gives, in order, `test`, `concrete`, the relative directory, the kebab-cased stem, the kebab-cased contract name, and the kebab-cased function name. Each segment is present only when non-empty. The contract name appears only when the file holds more than one contract definition of any kind. |
| TestPaths.JoinUnderRootSegments | src/commands/outline.ts:98-107 | `path.join` of the root and four arguments that contain no `/` splits back into the root and the non-empty arguments. |
| TestPaths.SiblingContractsGetDistinctPaths | src/commands/outline.ts:105 | In a file with several contracts, provided the kebab-cased stem and function name contain no `/` and both kebab-cased contract names are non-empty and contain no `/`: functions of the same name in two contracts whose kebab-cased names differ get different test paths. |
| TestPaths.SpecialFunctionSegment | src/commands/outline.ts:84-106 | A constructor, fallback or receive function always gets a test path, whatever name it declares. Provided the kebab-cased stem and contract name contain no `/` and the kebab-cased role is a non-empty, slash-free segment, the last segment is the kebab-cased `constructor`, `fallback` or `receive`, in that precedence. |
| TestPaths.OverloadsShareAPath | src/commands/outline.ts:92-108 | Two functions of one contract whose names resolve alike get the same test path: overloads are not told apart. |
| TestPaths.SingleContractHasNoQualifier | src/commands/outline.ts:97 | Provided the kebab-cased stem and function name contain no `/`: a file with at most one contract definition never gets a contract segment, and the path splits into the root, the relative directory, the stem and the function name. |
| PosixPath.Extname | src/commands/outline.ts:103 | `path.extname` is empty exactly when the base name is `..` or has no dot after its first character. Otherwise it starts with its only dot. |
| PosixPath.JoinSplitsIntoNonEmpty | src/commands/outline.ts:98-107 | When no argument of `path.join` holds a `/`, splitting the result on `/` recovers exactly its non-empty arguments; when every argument is empty the result is `.`, which splits into `["."]`. |
| PosixPath.DirnameOfSegments | src/commands/outline.ts:101 | `path.dirname` of a join of two or more components is the join of all but the last. |
| PosixPath.BasenameOfSegments | src/commands/outline.ts:103 | `path.basename` of a join of components is the last component. |
| JsString.RemoveFirst | src/commands/outline.ts:103 | `replace(pat, "")` leaves the string unchanged when `pat` does not occur. Otherwise it removes exactly `pat`'s length. |
| JsString.RemoveFirstRestores | src/commands/outline.ts:103 | Inserting `pat` back at its first occurrence undoes `replace(pat, "")`. |
| JsString.SplitJoin | src/commands/outline.ts:101 | Joining one or more separator-free pieces with `c`, then splitting on `c`, gives the pieces back. Zero pieces join to `""`, which splits into `[""]`, so the round trip needs at least one piece. |
| JsString.JoinSplit | src/commands/outline.ts:101 | Splitting on `c`, then joining with `c`, gives the string back. |
| OutlineExamples.Erc20MintScenario | src/commands/outline.ts:138-152 | `src/tokens/Erc20.sol` declaring only `contract Erc20` with a public `mint` yields exactly one record, with test path `test/concrete/tokens/erc20/mint`. |
| OutlineExamples.SingleFileRun | src/commands/outline.ts:138-152 | A run over one file holding one kept contract with one kept function yields exactly that record with its test path. |
| OutlineExamples.Erc20Dir | src/commands/outline.ts:101 | `src/tokens/Erc20.sol` has relative directory `tokens`. |
| OutlineExamples.Erc20Stem | src/commands/outline.ts:103 | `src/tokens/Erc20.sol` has stem `Erc20`. |
| OutlineExamples.VaultPieces | src/commands/outline.ts:101-103 | `src/Vault.sol` has an empty relative directory and stem `Vault`. |
| OutlineExamples.NestedFoldersCollapse | src/commands/outline.ts:101 | `src/tokens/deep/Erc20.sol` has the single relative-directory segment `tokens:deep`. |
| OutlineExamples.ExtensionRemovedAtFirstOccurrence | src/commands/outline.ts:103 | `src/A.solidity.sol` has stem `Aidity.sol`. |
| OutlineExamples.InterfaceForcesQualifier | src/commands/outline.ts:97-105 | In `src/Vault.sol`, `contract Vault` next to `interface IVault` still gets the contract segment: `test/concrete/vault/vault/deposit`. |
| OutlineExamples.MissingNameAbortsRun | src/commands/outline.ts:88 | A plain unnamed function in a library makes the whole run fail with the invariant error. |

## Left out

- `parser.parse` and `parser.visit` (`@solidity-parser/parser`) are not
  modelled; they are foreign code. Parsing is the `Parser` parameter. A
  syntax tree is reduced to its contract definitions in visiting order, each
  with its function definitions in visiting order. Solidity does not nest
  contracts, so a full visit meets exactly these.
- `changeCase.kebabCase` is the uninterpreted `Kebab` parameter; its algorithm
  is foreign code. Facts about concrete names, such as `kebab("Erc20") ==
  "erc20"`, appear as preconditions of the examples.
- The path-shape lemmas (`TestPaths.TestPathSegments`,
  `TestPaths.SiblingContractsGetDistinctPaths`,
  `TestPaths.SpecialFunctionSegment`, `TestPaths.SingleContractHasNoQualifier`)
  take slash-free `Kebab` output for the names they split as a hypothesis.
  `TestPaths.SpecialFunctionSegment` also takes a non-empty kebab-cased role,
  and `TestPaths.SiblingContractsGetDistinctPaths` takes non-empty
  kebab-cased contract names. `kebabCase` is foreign code, so the model
  cannot prove that it never emits `/` or the empty string; when it emits
  `/`, the split has more segments than these lemmas state, and an empty
  name leaves its segment out. `Outline.TestPathShape` needs no such hypothesis.
- `path.join` normalisation is not modelled: `.`/`..` and repeated slashes
  inside one argument are left alone. The model joins the non-empty arguments
  with `/` and gives `.` when all are empty. `path.sep` and `path.delimiter`
  are fixed to their POSIX values `/` and `:`.
- The test path is a `string` of Unicode characters. Encodings and the
  platform's file-name rules are not modelled.
- `glob`, `fs.readFile`, `fs.ensureDir` and `Promise.all`
  (src/commands/outline.ts:124-136 and 154-156) are I/O and are left out. The
  model starts from the list of files as read, in glob order. It ends with
  the list of test paths that the program would create directories for.
  Directory creation, and its idempotence, are not modelled.
- The `test/concrete/**/*.outline` discovery and its `invariant`
  (src/commands/outline.ts:125, 130) are left out: the result is never used.
- `invariant(solPaths)` (src/commands/outline.ts:129) is left out: `glob`
  always resolves to an array.
- The Commander wiring (src/commands/outline.ts:116-123) and `src/index.ts` are
  left out. They register the command and contain no logic.
- `getContractName` (src/commands/outline.ts:81-83) is the field access
  `ContractName`. It has no contract of its own; `TestPathSegments` states its
  use.
- A `FunctionDefinition` name that is `null` in the parser's output is `None`.
  The other node fields the command never reads are not modelled.
