/** An independent description of which records the `outline` pipeline keeps:
    for each file in order, for each contract definition in order that is not
    an interface, for each function in order that is externally callable or
    belongs to a library, one record. The lemmas prove the reduce/filter chain
    computes exactly this, and derive the filtering, ordering and counting
    facts from it. */
module OutlineSpec {
  import opened Wrappers
  import opened SolidityAst
  import opened SeqUtil
  import opened Outline

  /** Interfaces have no implementation to test. */
  predicate TestableKind(k: Kind) {
    k != Interface
  }

  /** Internal and private functions are only kept in libraries. */
  predicate TestableFunction(k: Kind, f: FunctionDefinition) {
    k == Library || (f.visibility != Internal && f.visibility != Private)
  }

  function FunctionEntries(c: WithContract, fs: seq<FunctionDefinition>): seq<WithFunction> {
    if |fs| == 0 then []
    else
      (if TestableFunction(c.contractNode.kind, fs[0])
       then [WithFunction(c.path, c.value, c.ast, c.contractNode, fs[0])] else [])
      + FunctionEntries(c, fs[1..])
  }

  function ContractEntries(f: Parsed, cs: seq<ContractDefinition>): seq<WithFunction> {
    if |cs| == 0 then []
    else
      (if TestableKind(cs[0].kind)
       then FunctionEntries(WithContract(f.path, f.value, f.ast, cs[0]), cs[0].functions) else [])
      + ContractEntries(f, cs[1..])
  }

  function Expected(files: seq<Parsed>): seq<WithFunction> {
    if |files| == 0 then [] else ContractEntries(files[0], files[0].ast.contracts) + Expected(files[1..])
  }

  // ------------------------------------------- the chain equals the reference

  lemma {:induction false} FunctionStage(c: WithContract, fs: seq<FunctionDefinition>)
    ensures Filter(FunctionRecords(c, fs), OnlyTestableFunctions) == FunctionEntries(c, fs)
  {
    if |fs| != 0 {
      var head := WithFunction(c.path, c.value, c.ast, c.contractNode, fs[0]);
      assert FunctionRecords(c, fs) == [head] + FunctionRecords(c, fs[1..]);
      FilterConcat([head], FunctionRecords(c, fs[1..]), OnlyTestableFunctions);
      FunctionStage(c, fs[1..]);
      assert OnlyTestableFunctions(head) == TestableFunction(c.contractNode.kind, fs[0]);
      assert Filter([head], OnlyTestableFunctions) ==
               if OnlyTestableFunctions(head) then [head] else [];
    }
  }

  lemma {:induction false} ContractStage(f: Parsed, cs: seq<ContractDefinition>)
    ensures Filter(FlatMap(FunctionsOf, Filter(ContractRecords(f, cs), OnlyTestableContracts)),
                   OnlyTestableFunctions)
            == ContractEntries(f, cs)
  {
    if |cs| != 0 {
      var head := WithContract(f.path, f.value, f.ast, cs[0]);
      var rest := ContractRecords(f, cs[1..]);
      assert ContractRecords(f, cs) == [head] + rest;
      FilterConcat([head], rest, OnlyTestableContracts);
      var kept := Filter([head], OnlyTestableContracts);
      assert kept == if TestableKind(cs[0].kind) then [head] else [];
      FlatMapConcat(FunctionsOf, kept, Filter(rest, OnlyTestableContracts));
      FilterConcat(FlatMap(FunctionsOf, kept), FlatMap(FunctionsOf, Filter(rest, OnlyTestableContracts)),
                   OnlyTestableFunctions);
      if TestableKind(cs[0].kind) {
        FlatMapSingleton(FunctionsOf, head);
        FunctionStage(head, cs[0].functions);
      } else {
        assert FlatMap(FunctionsOf, kept) == [];
      }
      ContractStage(f, cs[1..]);
    }
  }

  lemma {:induction false} FileStage(files: seq<Parsed>)
    ensures Filter(FlatMap(FunctionsOf, Filter(FlatMap(ContractsOf, files), OnlyTestableContracts)),
                   OnlyTestableFunctions)
            == Expected(files)
  {
    if |files| != 0 {
      var head := ContractsOf(files[0]);
      var rest := FlatMap(ContractsOf, files[1..]);
      assert FlatMap(ContractsOf, files) == head + rest;
      FilterConcat(head, rest, OnlyTestableContracts);
      FlatMapConcat(FunctionsOf, Filter(head, OnlyTestableContracts), Filter(rest, OnlyTestableContracts));
      FilterConcat(FlatMap(FunctionsOf, Filter(head, OnlyTestableContracts)),
                   FlatMap(FunctionsOf, Filter(rest, OnlyTestableContracts)),
                   OnlyTestableFunctions);
      ContractStage(files[0], files[0].ast.contracts);
      FileStage(files[1..]);
    }
  }

  /** The command's reduce/filter chain keeps exactly the reference records, in
      the reference order: by file, then contract, then function. */
  lemma TestablesAreExpected(files: seq<Parsed>)
    ensures Testables(files) == Expected(files)
  {
    assert forall a, t :: AttachContractNode(a, t) == a + ContractsOf(t);
    FoldAppend(AttachContractNode, ContractsOf, [], files);
    var expanded := FlatMap(ContractsOf, files);
    assert FoldLeft(AttachContractNode, [], files) == expanded;
    var contracts := Filter(expanded, OnlyTestableContracts);
    assert forall a, t :: AttachFunctionNode(a, t) == a + FunctionsOf(t);
    FoldAppend(AttachFunctionNode, FunctionsOf, [], contracts);
    assert FoldLeft(AttachFunctionNode, [], contracts) == FlatMap(FunctionsOf, contracts);
    assert Testables(files) == Filter(FlatMap(FunctionsOf, contracts), OnlyTestableFunctions);
    FileStage(files);
  }

  // ------------------------------------------------------------- membership

  lemma {:induction false} FunctionEntriesMembership(c: WithContract, fs: seq<FunctionDefinition>, x: WithFunction)
    ensures x in FunctionEntries(c, fs) <==>
              x.Base() == c && x.functionNode in fs && TestableFunction(c.contractNode.kind, x.functionNode)
  {
    if |fs| != 0 {
      FunctionEntriesMembership(c, fs[1..], x);
      assert fs == [fs[0]] + fs[1..];
    }
  }

  lemma {:induction false} ContractEntriesMembership(f: Parsed, cs: seq<ContractDefinition>, x: WithFunction)
    ensures x in ContractEntries(f, cs) <==>
              x.Base().Base() == f && x.contractNode in cs && TestableKind(x.contractNode.kind) &&
              x.functionNode in x.contractNode.functions &&
              TestableFunction(x.contractNode.kind, x.functionNode)
  {
    if |cs| != 0 {
      ContractEntriesMembership(f, cs[1..], x);
      FunctionEntriesMembership(WithContract(f.path, f.value, f.ast, cs[0]), cs[0].functions, x);
      assert cs == [cs[0]] + cs[1..];
    }
  }

  /** A record is in the reference output iff its file is one of the inputs,
      its contract is declared in that file and is not an interface, and its
      function is declared in that contract and is testable there. */
  lemma {:induction false} ExpectedMembership(files: seq<Parsed>, x: WithFunction)
    ensures x in Expected(files) <==>
              x.Base().Base() in files && x.contractNode in x.ast.contracts &&
              TestableKind(x.contractNode.kind) &&
              x.functionNode in x.contractNode.functions &&
              TestableFunction(x.contractNode.kind, x.functionNode)
  {
    if |files| != 0 {
      ExpectedMembership(files[1..], x);
      ContractEntriesMembership(files[0], files[0].ast.contracts, x);
      assert files == [files[0]] + files[1..];
    }
  }

  /** No record of an interface survives: an interface's functions never get
      a test path. */
  lemma NoInterfaceRecords(files: seq<Parsed>, x: WithFunction)
    requires x in Testables(files)
    ensures x.contractNode.kind != Interface
  {
    TestablesAreExpected(files);
    ExpectedMembership(files, x);
  }

  /** Internal and private functions of a contract or abstract contract never
      get a test path. */
  lemma HiddenFunctionsDropped(files: seq<Parsed>, x: WithFunction)
    requires x in Testables(files)
    requires x.contractNode.kind != Library
    ensures x.functionNode.visibility in [Default, External, Public]
  {
    TestablesAreExpected(files);
    ExpectedMembership(files, x);
  }

  /** Every function of every library in the input gets a record, whatever
      its visibility. */
  lemma LibraryFunctionsKept(files: seq<Parsed>, i: nat, c: ContractDefinition, fn: FunctionDefinition)
    requires i < |files|
    requires c in files[i].ast.contracts && c.kind == Library && fn in c.functions
    ensures WithFunction(files[i].path, files[i].value, files[i].ast, c, fn) in Testables(files)
  {
    TestablesAreExpected(files);
    ExpectedMembership(files, WithFunction(files[i].path, files[i].value, files[i].ast, c, fn));
  }

  // ------------------------------------------------------ ordering and count

  lemma {:induction false} ExpectedConcat(xs: seq<Parsed>, ys: seq<Parsed>)
    ensures Expected(xs + ys) == Expected(xs) + Expected(ys)
  {
    if |xs| == 0 {
      assert xs + ys == ys;
    } else {
      assert (xs + ys)[0] == xs[0];
      assert (xs + ys)[1..] == xs[1..] + ys;
      ExpectedConcat(xs[1..], ys);
    }
  }

  /** The output is grouped by file in input order: the records of a prefix of
      the files come first. */
  lemma OrderedByFile(xs: seq<Parsed>, ys: seq<Parsed>)
    ensures Testables(xs + ys) == Testables(xs) + Testables(ys)
  {
    TestablesAreExpected(xs + ys);
    TestablesAreExpected(xs);
    TestablesAreExpected(ys);
    ExpectedConcat(xs, ys);
  }

  lemma {:induction false} ContractEntriesConcat(f: Parsed, cs: seq<ContractDefinition>, ds: seq<ContractDefinition>)
    ensures ContractEntries(f, cs + ds) == ContractEntries(f, cs) + ContractEntries(f, ds)
  {
    if |cs| == 0 {
      assert cs + ds == ds;
    } else {
      assert (cs + ds)[0] == cs[0];
      assert (cs + ds)[1..] == cs[1..] + ds;
      ContractEntriesConcat(f, cs[1..], ds);
    }
  }

  /** Within one file the output is grouped by contract in declaration order. */
  lemma OrderedByContract(path: string, value: string, cs: seq<ContractDefinition>, ds: seq<ContractDefinition>)
    ensures var f := Parsed(path, value, SourceUnit(cs + ds));
            Testables([f]) == ContractEntries(f, cs) + ContractEntries(f, ds)
  {
    var f := Parsed(path, value, SourceUnit(cs + ds));
    TestablesAreExpected([f]);
    assert Expected([f]) == ContractEntries(f, cs + ds) + Expected([]);
    ContractEntriesConcat(f, cs, ds);
  }

  /** A file with no contract definitions contributes nothing. */
  lemma EmptyFileContributesNothing(xs: seq<Parsed>, f: Parsed, ys: seq<Parsed>)
    requires |f.ast.contracts| == 0
    ensures Testables(xs + [f] + ys) == Testables(xs + ys)
  {
    assert Expected([f]) == [] by {
      assert Expected([f]) == ContractEntries(f, f.ast.contracts) + Expected([]);
    }
    assert Expected(xs + [f] + ys) == Expected(xs + ys) by {
      ExpectedConcat(xs + [f], ys);
      ExpectedConcat(xs, [f]);
      ExpectedConcat(xs, ys);
    }
    TestablesAreExpected(xs + [f] + ys);
    TestablesAreExpected(xs + ys);
  }

  /** Number of testable functions in `fs` of a contract of kind `k`. */
  function CountFunctions(k: Kind, fs: seq<FunctionDefinition>): nat {
    if |fs| == 0 then 0
    else (if TestableFunction(k, fs[0]) then 1 else 0) + CountFunctions(k, fs[1..])
  }

  /** Number of (contract, function) pairs of `cs` that pass both filters. */
  function CountPairs(cs: seq<ContractDefinition>): nat {
    if |cs| == 0 then 0
    else (if TestableKind(cs[0].kind) then CountFunctions(cs[0].kind, cs[0].functions) else 0)
         + CountPairs(cs[1..])
  }

  function CountAll(files: seq<Parsed>): nat {
    if |files| == 0 then 0 else CountPairs(files[0].ast.contracts) + CountAll(files[1..])
  }

  lemma {:induction false} FunctionEntriesCount(c: WithContract, fs: seq<FunctionDefinition>)
    ensures |FunctionEntries(c, fs)| == CountFunctions(c.contractNode.kind, fs)
  {
    if |fs| != 0 {
      FunctionEntriesCount(c, fs[1..]);
    }
  }

  lemma {:induction false} ContractEntriesCount(f: Parsed, cs: seq<ContractDefinition>)
    ensures |ContractEntries(f, cs)| == CountPairs(cs)
  {
    if |cs| != 0 {
      FunctionEntriesCount(WithContract(f.path, f.value, f.ast, cs[0]), cs[0].functions);
      ContractEntriesCount(f, cs[1..]);
    }
  }

  /** The pipeline yields exactly one record per (contract, function) pair that
      passes both filters. */
  lemma {:induction false} TestablesCount(files: seq<Parsed>)
    ensures |Testables(files)| == CountAll(files)
  {
    TestablesAreExpected(files);
    ExpectedCount(files);
  }

  lemma {:induction false} ExpectedCount(files: seq<Parsed>)
    ensures |Expected(files)| == CountAll(files)
  {
    if |files| != 0 {
      ContractEntriesCount(files[0], files[0].ast.contracts);
      ExpectedCount(files[1..]);
    }
  }

  // ------------------------------------------------------------- end to end

  /** The whole analysis: it fails with the first parse error when a file does
      not parse; otherwise it is `.map(attachTestPath)` over the reference
      records of the parsed files. With `MapAttachTestPath`'s contract and
      `AttachedRecords` this means: it fails exactly when some kept function
      has no usable name, and else yields one test path per reference record,
      in reference order, each record carried through unchanged. */
  lemma OutlineCharacterization(parse: Parser, kebab: Kebab, files: seq<SolFile>)
    ensures ParseAll(parse, files).Failure? ==> Analyze(parse, kebab, files) == Failure(ParseAll(parse, files).error)
    ensures ParseAll(parse, files).Success? ==>
              Analyze(parse, kebab, files) == MapAttachTestPath(kebab, Expected(ParseAll(parse, files).value))
  {
    if ParseAll(parse, files).Success? {
      TestablesAreExpected(ParseAll(parse, files).value);
    }
  }

  /** What a successful `.map(attachTestPath)` holds, record by record. */
  lemma AttachedRecords(kebab: Kebab, ts: seq<WithFunction>)
    ensures var r := MapAttachTestPath(kebab, ts);
            r.Success? ==>
              forall i :: 0 <= i < |ts| ==>
                r.value[i].Base() == ts[i] && GetTestPath(kebab, ts[i]) == Success(r.value[i].testPath)
  {
    var r := MapAttachTestPath(kebab, ts);
    if r.Success? {
      forall i | 0 <= i < |ts|
        ensures r.value[i].Base() == ts[i] && GetTestPath(kebab, ts[i]) == Success(r.value[i].testPath)
      {
        assert AttachTestPath(kebab, ts[i]) == Success(r.value[i]);
      }
    }
  }
}
