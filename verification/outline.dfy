/** The `outline` command's analysis: parsed Solidity files are expanded into
    one record per contract declaration, filtered to testable contract kinds,
    expanded into one record per function, filtered to testable functions, and
    given a test directory path each. Every record carries the fields of the
    record it was made from (`{...testable, field}` in the program), which is
    what the `Base()` projections below undo. */
module Outline {
  import opened Wrappers
  import opened SolidityAst
  import opened SeqUtil
  import JsString
  import PosixPath

  /** What a failed run throws: the parser's exception, or tiny-invariant's. */
  datatype Error = ParseError(diagnostic: string) | InvariantFailed

  /** `parser.parse`: a syntax tree, or the parser's diagnostic when it throws. */
  type Parser = string -> Result<SourceUnit, string>

  /** `changeCase.kebabCase`, left uninterpreted. */
  type Kebab = string -> string

  /** A source file as read: its path (as globbed) and its text. */
  datatype SolFile = SolFile(path: string, value: string)

  datatype Parsed = Parsed(path: string, value: string, ast: SourceUnit)

  datatype WithContract = WithContract(
    path: string, value: string, ast: SourceUnit, contractNode: ContractDefinition)
  {
    /** The record before `contractNode` was attached. */
    function Base(): Parsed {
      Parsed(path, value, ast)
    }
  }

  datatype WithFunction = WithFunction(
    path: string, value: string, ast: SourceUnit,
    contractNode: ContractDefinition, functionNode: FunctionDefinition)
  {
    /** The record before `functionNode` was attached. */
    function Base(): WithContract {
      WithContract(path, value, ast, contractNode)
    }
  }

  datatype Testable = Testable(
    path: string, value: string, ast: SourceUnit,
    contractNode: ContractDefinition, functionNode: FunctionDefinition, testPath: string)
  {
    /** The record before `testPath` was attached. */
    function Base(): WithFunction {
      WithFunction(path, value, ast, contractNode, functionNode)
    }
  }

  // ---------------------------------------------------------------- parsing

  /** `getAst`: the file with its syntax tree added, or the parser's exception. */
  function GetAst(parse: Parser, file: SolFile): (r: Result<Parsed, Error>)
    ensures r.Success? <==> parse(file.value).Success?
    ensures r.Success? ==> r.value == Parsed(file.path, file.value, parse(file.value).value)
    ensures r.Failure? ==> r.error == ParseError(parse(file.value).error)
  {
    match parse(file.value)
    case Success(ast) => Success(Parsed(file.path, file.value, ast))
    case Failure(diagnostic) => Failure(ParseError(diagnostic))
  }

  /** `solFiles.map(getAst)`: every file parsed in order, or the exception of
      the first file that fails to parse. */
  function ParseAll(parse: Parser, files: seq<SolFile>): (r: Result<seq<Parsed>, Error>)
    ensures r.Success? <==> forall i :: 0 <= i < |files| ==> GetAst(parse, files[i]).Success?
    ensures r.Success? ==>
              |r.value| == |files| &&
              forall i :: 0 <= i < |files| ==> GetAst(parse, files[i]) == Success(r.value[i])
    ensures r.Failure? ==>
              exists i :: 0 <= i < |files| && GetAst(parse, files[i]) == Failure(r.error) &&
                forall j :: 0 <= j < i ==> GetAst(parse, files[j]).Success?
  {
    if |files| == 0 then Success([])
    else
      var head :- GetAst(parse, files[0]);
      var tail :- ParseAll(parse, files[1..]);
      assert forall i :: 1 <= i < |files| ==> files[i] == files[1..][i - 1];
      Success([head] + tail)
  }

  // -------------------------------------------------------------- contracts

  /** `contractNodes.map(contractNode => ({...t, contractNode}))`. */
  function ContractRecords(t: Parsed, cs: seq<ContractDefinition>): (r: seq<WithContract>)
    ensures |r| == |cs|
    ensures forall k :: 0 <= k < |cs| ==> r[k].Base() == t && r[k].contractNode == cs[k]
  {
    if |cs| == 0 then []
    else [WithContract(t.path, t.value, t.ast, cs[0])] + ContractRecords(t, cs[1..])
  }

  /** One record per contract definition visited in `t.ast`. */
  function ContractsOf(t: Parsed): seq<WithContract> {
    ContractRecords(t, t.ast.contracts)
  }

  /** `attachContractNode`: `acc` followed by one record per contract definition
      of `t`, in declaration order, each being `t` with its contract node added. */
  function AttachContractNode(acc: seq<WithContract>, t: Parsed): (r: seq<WithContract>)
    ensures |r| == |acc| + |t.ast.contracts|
    ensures r[..|acc|] == acc
    ensures forall k :: 0 <= k < |t.ast.contracts| ==>
              r[|acc| + k].Base() == t && r[|acc| + k].contractNode == t.ast.contracts[k]
  {
    acc + ContractsOf(t)
  }

  /** `onlyTestableContracts`. */
  predicate OnlyTestableContracts(t: WithContract) {
    t.contractNode.kind in [Contract, Library, Abstract]
  }

  // -------------------------------------------------------------- functions

  /** `functionNodes.map(functionNode => ({...t, functionNode}))`. */
  function FunctionRecords(t: WithContract, fs: seq<FunctionDefinition>): (r: seq<WithFunction>)
    ensures |r| == |fs|
    ensures forall k :: 0 <= k < |fs| ==> r[k].Base() == t && r[k].functionNode == fs[k]
  {
    if |fs| == 0 then []
    else [WithFunction(t.path, t.value, t.ast, t.contractNode, fs[0])] + FunctionRecords(t, fs[1..])
  }

  /** One record per function definition visited in `t.contractNode`. */
  function FunctionsOf(t: WithContract): seq<WithFunction> {
    FunctionRecords(t, t.contractNode.functions)
  }

  /** `attachFunctionNode`: `acc` followed by one record per function definition
      of `t`'s contract, in declaration order, each being `t` with its function
      node added. */
  function AttachFunctionNode(acc: seq<WithFunction>, t: WithContract): (r: seq<WithFunction>)
    ensures |r| == |acc| + |t.contractNode.functions|
    ensures r[..|acc|] == acc
    ensures forall k :: 0 <= k < |t.contractNode.functions| ==>
              r[|acc| + k].Base() == t && r[|acc| + k].functionNode == t.contractNode.functions[k]
  {
    acc + FunctionsOf(t)
  }

  /** `onlyTestableFunctions`. */
  predicate OnlyTestableFunctions(t: WithFunction) {
    if t.contractNode.kind == Library then true
    else t.functionNode.visibility in [Default, External, Public]
  }

  // ------------------------------------------------------------------ names

  /** `getContractName`. */
  function ContractName(c: ContractDefinition): string {
    c.name
  }

  /** `getFunctionName`: the special roles first, in the order constructor,
      fallback, receive; otherwise the declared name, which must be present and
      non-empty (a falsy name fails the invariant). */
  function FunctionName(f: FunctionDefinition): (r: Result<string, Error>)
    ensures r.Success? <==>
              f.isConstructor || f.isFallback || f.isReceiveEther || (f.name.Some? && f.name.value != "")
    ensures r.Failure? ==> r.error == InvariantFailed
    ensures r.Success? ==> r.value != ""
    ensures r.Success? ==> r.value in ["constructor", "fallback", "receive"] || f.name == Some(r.value)
    ensures f.isConstructor ==> r == Success("constructor")
    ensures !f.isConstructor && f.isFallback ==> r == Success("fallback")
    ensures !f.isConstructor && !f.isFallback && f.isReceiveEther ==> r == Success("receive")
    ensures !f.isConstructor && !f.isFallback && !f.isReceiveEther && r.Success? ==> f.name == Some(r.value)
  {
    if f.isConstructor then Success("constructor")
    else if f.isFallback then Success("fallback")
    else if f.isReceiveEther then Success("receive")
    else if f.name.None? || f.name.value == "" then Failure(InvariantFailed)
    else Success(f.name.value)
  }

  // ------------------------------------------------------------------ paths

  /** `path.dirname(p).split(path.sep).slice(1).join(path.delimiter)`: the
      directory components after the first, glued with `:`. The result never
      contains a separator, so nested folders collapse into one segment. */
  function RelativeDir(p: string): (r: string)
    ensures PosixPath.Sep !in r
  {
    var parts := JsString.Split(PosixPath.Dirname(p), PosixPath.Sep)[1..];
    JoinAvoids(parts, [PosixPath.Delimiter], PosixPath.Sep);
    JsString.Join(parts, [PosixPath.Delimiter])
  }

  lemma {:induction false} JoinAvoids(xs: seq<string>, sep: string, c: char)
    requires forall i :: 0 <= i < |xs| ==> c !in xs[i]
    requires c !in sep
    ensures c !in JsString.Join(xs, sep)
  {
    if |xs| > 1 {
      JoinAvoids(xs[1..], sep, c);
    }
  }

  /** `path.basename(p).replace(path.extname(p), "")`: the base name with the
      first occurrence of its extension removed. */
  function BaseStem(p: string): string {
    JsString.RemoveFirst(PosixPath.Basename(p), PosixPath.Extname(p))
  }

  /** `getTestPath`: the test directory of one (file, contract, function)
      record: `path.join` of `test`, `concrete`, the relative directory, the
      kebab-cased file stem, the kebab-cased contract name when the file holds
      more than one contract definition of any kind (else nothing), and the
      kebab-cased function name. It fails exactly when the function's name
      cannot be resolved. */
  function GetTestPath(kebab: Kebab, t: WithFunction): (r: Result<string, Error>)
    ensures r.Success? <==> FunctionName(t.functionNode).Success?
    ensures r.Failure? ==> r.error == InvariantFailed
  {
    var contractName := ContractName(t.contractNode);
    var functionName :- FunctionName(t.functionNode);
    var testableContractsCount := |AttachContractNode([], t.Base().Base())|;
    var middle := [
      RelativeDir(t.path),
      kebab(BaseStem(t.path)),
      if testableContractsCount > 1 then kebab(contractName) else ""];
    Success(JoinUnderRoot(middle, kebab(functionName)))
  }

  /** `path.join("test", "concrete", ...middle, last)`. */
  function JoinUnderRoot(middle: seq<string>, last: string): string {
    PosixPath.Join(Root + middle + [last])
  }

  /** Every test path starts with `test/concrete`, and ends with the
      kebab-cased function name unless that is empty. */
  lemma TestPathShape(kebab: Kebab, t: WithFunction)
    ensures var r := GetTestPath(kebab, t);
            r.Success? ==>
              StartsWithRoot(r.value) &&
              var last := kebab(FunctionName(t.functionNode).value);
              last != "" ==> EndsWith(r.value, [PosixPath.Sep] + last)
  {
    var r := GetTestPath(kebab, t);
    if r.Success? {
      var last := kebab(FunctionName(t.functionNode).value);
      var middle := [
        RelativeDir(t.path),
        kebab(BaseStem(t.path)),
        if |AttachContractNode([], t.Base().Base())| > 1 then kebab(ContractName(t.contractNode)) else ""];
      assert r.value == JoinUnderRoot(middle, last);
      RootPrefix(middle + [last]);
      LastArgSuffix(Root + middle, last);
      assert Root + middle + [last] == Root + (middle + [last]);
    }
  }

  /** The two fixed leading arguments of every test path. */
  const Root: seq<string> := ["test", "concrete"]

  /** `s` begins with the root arguments joined: `test/concrete`. */
  predicate StartsWithRoot(s: string) {
    var prefix := PosixPath.Join(Root);
    |prefix| <= |s| && s[..|prefix|] == prefix
  }

  predicate EndsWith(s: string, suffix: string) {
    |suffix| <= |s| && s[|s| - |suffix|..] == suffix
  }

  /** A join whose first two arguments are `test` and `concrete` starts with
      `test/concrete`. */
  lemma RootPrefix(rest: seq<string>)
    ensures StartsWithRoot(PosixPath.Join(Root + rest))
  {
    NonEmptyConcat(Root, rest);
    var tail := PosixPath.NonEmpty(rest);
    assert PosixPath.NonEmpty(Root) == Root;
    assert JsString.Join(Root, [PosixPath.Sep]) == "test/concrete";
    if |tail| > 0 {
      JsString.JoinConcat(Root, tail, [PosixPath.Sep]);
    } else {
      assert PosixPath.NonEmpty(Root + rest) == Root;
    }
  }

  /** A join whose first argument and last argument are non-empty ends with
      `/` and the last argument. */
  lemma LastArgSuffix(init: seq<string>, last: string)
    requires |init| >= 1 && init[0] != ""
    ensures last != "" ==> EndsWith(PosixPath.Join(init + [last]), [PosixPath.Sep] + last)
  {
    if last != "" {
      NonEmptyConcat(init, [last]);
      assert PosixPath.NonEmpty([last]) == [last];
      assert init == [init[0]] + init[1..];
      NonEmptyConcat([init[0]], init[1..]);
      var front := PosixPath.NonEmpty(init);
      assert |front| >= 1;
      JsString.JoinSnoc(front, last, [PosixPath.Sep]);
    }
  }

  lemma {:induction false} NonEmptyConcat(xs: seq<string>, ys: seq<string>)
    ensures PosixPath.NonEmpty(xs + ys) == PosixPath.NonEmpty(xs) + PosixPath.NonEmpty(ys)
  {
    if |xs| == 0 {
      assert xs + ys == ys;
    } else {
      assert (xs + ys)[0] == xs[0];
      assert (xs + ys)[1..] == xs[1..] + ys;
      NonEmptyConcat(xs[1..], ys);
    }
  }

  /** `attachTestPath`: the record with its test path added, or the invariant
      failure of `getTestPath`. */
  function AttachTestPath(kebab: Kebab, t: WithFunction): (r: Result<Testable, Error>)
    ensures r.Success? <==> FunctionName(t.functionNode).Success?
    ensures r.Success? ==> r.value.Base() == t && GetTestPath(kebab, t) == Success(r.value.testPath)
    ensures r.Failure? ==> r.error == InvariantFailed
  {
    var testPath :- GetTestPath(kebab, t);
    Success(Testable(t.path, t.value, t.ast, t.contractNode, t.functionNode, testPath))
  }

  /** `.map(attachTestPath)`: every record with its test path, in order, or the
      invariant failure when any record's function name cannot be resolved. */
  function MapAttachTestPath(kebab: Kebab, ts: seq<WithFunction>): (r: Result<seq<Testable>, Error>)
    ensures r.Success? <==> forall i :: 0 <= i < |ts| ==> FunctionName(ts[i].functionNode).Success?
    ensures r.Success? ==>
              |r.value| == |ts| &&
              forall i :: 0 <= i < |ts| ==> AttachTestPath(kebab, ts[i]) == Success(r.value[i])
    ensures r.Failure? ==> r.error == InvariantFailed
  {
    if |ts| == 0 then Success([])
    else
      var head :- AttachTestPath(kebab, ts[0]);
      var tail :- MapAttachTestPath(kebab, ts[1..]);
      ConsPointwise((t, u) => AttachTestPath(kebab, t) == Success(u), ts, head, tail);
      Success([head] + tail)
  }

  // --------------------------------------------------------------- pipeline

  /** The reduce/filter chain of the command: contracts of every file, the
      testable ones, their functions, the testable ones. */
  function Testables(files: seq<Parsed>): seq<WithFunction> {
    var contracts := Filter(FoldLeft(AttachContractNode, [], files), OnlyTestableContracts);
    Filter(FoldLeft(AttachFunctionNode, [], contracts), OnlyTestableFunctions)
  }

  /** The whole analysis of the `outline` action: parse, expand, filter, and
      attach test paths. */
  function Analyze(parse: Parser, kebab: Kebab, files: seq<SolFile>): Result<seq<Testable>, Error> {
    var parsed :- ParseAll(parse, files);
    MapAttachTestPath(kebab, Testables(parsed))
  }
}
