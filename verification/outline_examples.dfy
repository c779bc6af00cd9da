/** Worked cases of the path synthesis on concrete source paths, including
    the three places where the program's behaviour departs from a plain
    "relative directory / stem / contract / function" layout. */
module OutlineExamples {
  import opened Wrappers
  import opened SolidityAst
  import opened Outline
  import opened TestPaths
  import JsString
  import PosixPath
  import OutlineSpec

  /** `src/tokens/Erc20.sol`, in components. */
  lemma Erc20Segments()
    ensures JsString.Join(["src"] + ["tokens"] + ["Erc20" + ".sol"], [PosixPath.Sep]) == "src/tokens/Erc20.sol"
  {
    assert "Erc20" + ".sol" == "Erc20.sol";
    assert ["src"] + ["tokens"] + ["Erc20.sol"] == ["src", "tokens", "Erc20.sol"];
    assert [PosixPath.Sep] == "/";
    assert JsString.Join(["tokens", "Erc20.sol"], "/") == "tokens/Erc20.sol";
  }

  /** `src/tokens/Erc20.sol` lies in directory `tokens` of the source folder. */
  lemma Erc20Dir()
    ensures RelativeDir("src/tokens/Erc20.sol") == "tokens"
  {
    Erc20Segments();
    RelativeDirOfSegments("src", ["tokens"], "Erc20" + ".sol");
    assert JsString.Join(["tokens"], [PosixPath.Delimiter]) == "tokens";
  }

  /** `src/tokens/Erc20.sol` has stem `Erc20`. */
  lemma Erc20Stem()
    ensures BaseStem("src/tokens/Erc20.sol") == "Erc20"
  {
    Erc20Segments();
    DotFreeStem("src", ["tokens"], "Erc20", ".sol");
  }

  /** `src/Vault.sol`: no directory, stem `Vault`. */
  lemma VaultPieces()
    ensures RelativeDir("src/Vault.sol") == ""
    ensures BaseStem("src/Vault.sol") == "Vault"
  {
    var segs := ["src"] + [] + ["Vault" + ".sol"];
    assert JsString.Join(segs, [PosixPath.Sep]) == "src/Vault.sol" by {
      assert "Vault" + ".sol" == "Vault.sol";
      assert segs == ["src", "Vault.sol"];
    }
    DotFreeStem("src", [], "Vault", ".sol");
    RelativeDirOfSegments("src", [], "Vault" + ".sol");
  }

  /** A file whose AST holds exactly one contract with exactly one function,
      both of which survive the filters, contributes exactly one record. */
  lemma {:induction false} SingleRecord(file: Parsed, c: ContractDefinition, f: FunctionDefinition)
    requires file.ast.contracts == [c] && c.functions == [f]
    requires OutlineSpec.TestableKind(c.kind) && OutlineSpec.TestableFunction(c.kind, f)
    ensures Testables([file]) == [WithFunction(file.path, file.value, file.ast, c, f)]
  {
    var wc := WithContract(file.path, file.value, file.ast, c);
    var t := WithFunction(file.path, file.value, file.ast, c, f);
    OutlineSpec.TestablesAreExpected([file]);
    assert OutlineSpec.FunctionEntries(wc, [f]) == [t] + OutlineSpec.FunctionEntries(wc, []);
    assert OutlineSpec.ContractEntries(file, [c]) == [t] + OutlineSpec.ContractEntries(file, []);
    assert OutlineSpec.Expected([file]) == [t] + OutlineSpec.Expected([]);
  }

  /** A single file that parses gives a single parsed record. */
  lemma ParsesAlone(parse: Parser, f: SolFile, p: Parsed)
    requires GetAst(parse, f) == Success(p)
    ensures ParseAll(parse, [f]) == Success([p])
  {
    var fs := [f];
    assert fs[0] == f;
    assert fs[1..] == [];
    assert ParseAll(parse, fs[1..]) == Success([]);
    assert [p] + [] == [p];
  }

  /** The test path of one record, assembled from its already-known pieces. */
  lemma {:induction false} PathFromPieces(kebab: Kebab, t: WithFunction, name: string, rel: string, stem: string, q: string)
    requires FunctionName(t.functionNode) == Success(name)
    requires RelativeDir(t.path) == rel && kebab(BaseStem(t.path)) == stem
    requires q == (if |t.ast.contracts| > 1 then kebab(t.contractNode.name) else "")
    requires PosixPath.Sep !in stem && PosixPath.Sep !in q && PosixPath.Sep !in kebab(name)
    ensures GetTestPath(kebab, t) ==
              Success(JsString.Join(["test", "concrete"] + Opt(rel) + Opt(stem) + Opt(q) + Opt(kebab(name)), [PosixPath.Sep]))
  {
    var path := GetTestPath(kebab, t).value;
    TestPathSegments(kebab, t, name);
    assert (if |t.ast.contracts| > 1 then Opt(kebab(t.contractNode.name)) else []) == Opt(q);
    JsString.JoinSplit(path, PosixPath.Sep);
  }

  /** Step of `TopLevelQualifiedPath` and `NestedSingleContractPath`: three
      present segments and one absent one under the root, in either of the
      two places the scenarios leave a segment out. */
  lemma OptSegments(a: string, b: string, c: string)
    requires a != "" && b != "" && c != ""
    ensures ["test", "concrete"] + Opt("") + Opt(a) + Opt(b) + Opt(c) == ["test", "concrete", a, b, c]
    ensures ["test", "concrete"] + Opt(a) + Opt(b) + Opt("") + Opt(c) == ["test", "concrete", a, b, c]
  {
    assert Opt("") == [] && Opt(a) == [a] && Opt(b) == [b] && Opt(c) == [c];
  }

  /** Step of `UnderRootFive`: five path segments joined with the separator. */
  lemma JoinFive(a: string, b: string, c: string, d: string, e: string)
    ensures var sep := [PosixPath.Sep];
            JsString.Join([a, b, c, d, e], sep) == a + sep + b + sep + c + sep + d + sep + e
  {
    var sep := [PosixPath.Sep];
    assert [a, b, c, d, e][1..] == [b, c, d, e];
    assert [b, c, d, e][1..] == [c, d, e];
    assert [c, d, e][1..] == [d, e];
    assert [d, e][1..] == [e];
    assert JsString.Join([d, e], sep) == d + sep + e;
    assert JsString.Join([c, d, e], sep) == c + sep + (d + sep + e);
    assert JsString.Join([b, c, d, e], sep) == b + sep + (c + sep + (d + sep + e));
  }

  /** A run over one file holding one contract with one function, both
      kept, yields the one record with that function's test path. */
  lemma {:induction false} SingleFileRun(parse: Parser, kebab: Kebab, f: SolFile, file: Parsed,
                                         c: ContractDefinition, fn: FunctionDefinition, path: string)
    requires GetAst(parse, f) == Success(file)
    requires file.ast.contracts == [c] && c.functions == [fn]
    requires OutlineSpec.TestableKind(c.kind) && OutlineSpec.TestableFunction(c.kind, fn)
    requires GetTestPath(kebab, WithFunction(file.path, file.value, file.ast, c, fn)) == Success(path)
    ensures Analyze(parse, kebab, [f]) == Success([Testable(file.path, file.value, file.ast, c, fn, path)])
  {
    var t := WithFunction(file.path, file.value, file.ast, c, fn);
    var tt := Testable(file.path, file.value, file.ast, c, fn, path);
    assert ParseAll(parse, [f]) == Success([file]) by {
      ParsesAlone(parse, f, file);
    }
    assert Testables([file]) == [t] by {
      SingleRecord(file, c, fn);
    }
    assert MapAttachTestPath(kebab, [t]) == Success([tt]) by {
      AttachesAlone(kebab, t, tt);
    }
  }

  /** A single record whose test path resolves gives a single testable record. */
  lemma AttachesAlone(kebab: Kebab, t: WithFunction, tt: Testable)
    requires AttachTestPath(kebab, t) == Success(tt)
    ensures MapAttachTestPath(kebab, [t]) == Success([tt])
  {
    var ts := [t];
    assert ts[0] == t;
    var r := MapAttachTestPath(kebab, ts);
    assert r.Success?;
    assert r.value[0] == tt;
    assert r.value == [tt];
  }

  /** The worked scenario: `src/tokens/Erc20.sol` declaring only `contract
      Erc20` with a public `mint` yields the one directory
      `test/concrete/tokens/erc20/mint`. */
  lemma Erc20MintScenario(parse: Parser, kebab: Kebab, text: string)
    requires kebab("Erc20") == "erc20" && kebab("mint") == "mint"
    requires parse(text) == Success(SourceUnit([
               ContractDefinition(Contract, "Erc20", [FunctionDefinition(Some("mint"), Public, false, false, false)])]))
    ensures var r := Analyze(parse, kebab, [SolFile("src/tokens/Erc20.sol", text)]);
            r.Success? && |r.value| == 1 && r.value[0].testPath == "test/concrete/tokens/erc20/mint"
  {
    var mint := FunctionDefinition(Some("mint"), Public, false, false, false);
    var erc20 := ContractDefinition(Contract, "Erc20", [mint]);
    var file := Parsed("src/tokens/Erc20.sol", text, SourceUnit([erc20]));
    Erc20MintPath(kebab, text);
    SingleFileRun(parse, kebab, SolFile(file.path, text), file, erc20, mint, "test/concrete/tokens/erc20/mint");
  }

  /** The test path of the worked scenario's one record. */
  lemma Erc20MintPath(kebab: Kebab, text: string)
    requires kebab("Erc20") == "erc20" && kebab("mint") == "mint"
    ensures var mint := FunctionDefinition(Some("mint"), Public, false, false, false);
            var erc20 := ContractDefinition(Contract, "Erc20", [mint]);
            var t := WithFunction("src/tokens/Erc20.sol", text, SourceUnit([erc20]), erc20, mint);
            GetTestPath(kebab, t) == Success("test/concrete/tokens/erc20/mint")
  {
    var mint := FunctionDefinition(Some("mint"), Public, false, false, false);
    var erc20 := ContractDefinition(Contract, "Erc20", [mint]);
    var t := WithFunction("src/tokens/Erc20.sol", text, SourceUnit([erc20]), erc20, mint);
    Erc20Dir();
    Erc20Stem();
    assert FunctionName(mint) == Success("mint");
    Erc20MintRecordPath(kebab, t);
  }

  /** `mint` in an `Erc20` file under `tokens` holding one contract definition. */
  lemma Erc20MintRecordPath(kebab: Kebab, t: WithFunction)
    requires kebab("Erc20") == "erc20" && kebab("mint") == "mint"
    requires RelativeDir(t.path) == "tokens" && BaseStem(t.path) == "Erc20"
    requires |t.ast.contracts| == 1
    requires FunctionName(t.functionNode) == Success("mint")
    ensures GetTestPath(kebab, t) == Success("test/concrete/tokens/erc20/mint")
  {
    SlashFreeNames();
    NestedSingleContractPath(kebab, t, "mint", "tokens", "erc20", "mint");
    SpelledPaths();
  }

  /** Nested folders are glued with `:` into a single directory segment. */
  lemma NestedFoldersCollapse()
    ensures RelativeDir("src/tokens/deep/Erc20.sol") == "tokens:deep"
  {
    NestedSegments();
    RelativeDirOfSegments("src", ["tokens", "deep"], "Erc20.sol");
  }

  /** `src/tokens/deep/Erc20.sol`, in components, and its two folders glued. */
  lemma NestedSegments()
    ensures JsString.Join(["src"] + ["tokens", "deep"] + ["Erc20.sol"], [PosixPath.Sep]) == "src/tokens/deep/Erc20.sol"
    ensures JsString.Join(["tokens", "deep"], [PosixPath.Delimiter]) == "tokens:deep"
  {
    assert ["src"] + ["tokens", "deep"] + ["Erc20.sol"] == ["src", "tokens", "deep", "Erc20.sol"];
    NestedJoin();
  }

  /** Step of `NestedFoldersCollapse`: `src/tokens/deep/Erc20.sol`, joined. */
  lemma NestedJoin()
    ensures JsString.Join(["src", "tokens", "deep", "Erc20.sol"], [PosixPath.Sep]) == "src/tokens/deep/Erc20.sol"
  {
    assert JsString.Join(["deep", "Erc20.sol"], [PosixPath.Sep]) == "deep/Erc20.sol";
    assert JsString.Join(["tokens", "deep", "Erc20.sol"], [PosixPath.Sep]) == "tokens/deep/Erc20.sol";
  }

  /** Step of `ExtensionRemovedAtFirstOccurrence`: `src/A.solidity.sol`, in
      components. */
  lemma DottedSegments()
    ensures JsString.Join(["src"] + [] + ["A" + ".sol" + "idity" + ".sol"], [PosixPath.Sep]) == "src/A.solidity.sol"
    ensures "A" + "idity" + ".sol" == "Aidity.sol"
  {
    assert "A" + ".sol" + "idity" + ".sol" == "A.solidity.sol";
    assert ["src"] + [] + ["A.solidity.sol"] == ["src", "A.solidity.sol"];
  }

  /** The extension is removed where it FIRST occurs, not at the end:
      `A.solidity.sol` has stem `Aidity.sol`. */
  lemma ExtensionRemovedAtFirstOccurrence()
    ensures BaseStem("src/A.solidity.sol") == "Aidity.sol"
  {
    DottedSegments();
    FirstOccurrenceStem("src", [], "A", "idity", ".sol");
  }

  /** An interface in the same file counts towards the "more than one contract"
      test even though it is itself filtered out: the kept contract's
      functions still get the contract's name as an extra segment, so
      `src/Vault.sol` holding `contract Vault` and `interface IVault` gives
      `test/concrete/vault/vault/deposit`. */
  lemma InterfaceForcesQualifier(kebab: Kebab, text: string)
    requires kebab("Vault") == "vault" && kebab("deposit") == "deposit"
    ensures var deposit := FunctionDefinition(Some("deposit"), External, false, false, false);
            var vault := ContractDefinition(Contract, "Vault", [deposit]);
            var iface := ContractDefinition(Interface, "IVault", [deposit]);
            var t := WithFunction("src/Vault.sol", text, SourceUnit([vault, iface]), vault, deposit);
            GetTestPath(kebab, t) == Success("test/concrete/vault/vault/deposit")
  {
    var deposit := FunctionDefinition(Some("deposit"), External, false, false, false);
    var vault := ContractDefinition(Contract, "Vault", [deposit]);
    var iface := ContractDefinition(Interface, "IVault", [deposit]);
    var t := WithFunction("src/Vault.sol", text, SourceUnit([vault, iface]), vault, deposit);
    VaultPieces();
    assert FunctionName(deposit) == Success("deposit");
    VaultDepositPath(kebab, t);
  }

  /** `deposit` of contract `Vault` in a top-level `Vault` file holding two
      contract definitions. */
  lemma VaultDepositPath(kebab: Kebab, t: WithFunction)
    requires kebab("Vault") == "vault" && kebab("deposit") == "deposit"
    requires RelativeDir(t.path) == "" && BaseStem(t.path) == "Vault"
    requires t.contractNode.name == "Vault" && |t.ast.contracts| == 2
    requires FunctionName(t.functionNode) == Success("deposit")
    ensures GetTestPath(kebab, t) == Success("test/concrete/vault/vault/deposit")
  {
    SlashFreeNames();
    TopLevelQualifiedPath(kebab, t, "deposit", "vault", "vault", "deposit");
    SpelledPaths();
  }

  /** Step of `Erc20MintRecordPath` and `VaultDepositPath`: the kebab-cased
      names of the scenarios are single path segments. */
  lemma SlashFreeNames()
    ensures PosixPath.Sep !in "vault" && PosixPath.Sep !in "deposit"
    ensures PosixPath.Sep !in "erc20" && PosixPath.Sep !in "mint"
  {
  }

  /** Step of `Erc20MintRecordPath` and `VaultDepositPath`: the two expected
      test paths, spelled out segment by segment. */
  lemma SpelledPaths()
    ensures "test/concrete/" + "vault" + "/" + "vault" + "/" + "deposit" == "test/concrete/vault/vault/deposit"
    ensures "test/concrete/" + "tokens" + "/" + "erc20" + "/" + "mint" == "test/concrete/tokens/erc20/mint"
  {
    assert "test/concrete/" + "vault" + "/" + "vault" + "/" + "deposit" == "test/concrete/vault/vault/deposit";
  }

  /** A file at the top of the source folder holding several contracts: the
      path is the root, the stem, the contract and the function. */
  lemma TopLevelQualifiedPath(kebab: Kebab, t: WithFunction, name: string, stem: string, q: string, last: string)
    requires FunctionName(t.functionNode) == Success(name)
    requires RelativeDir(t.path) == "" && |t.ast.contracts| > 1
    requires kebab(BaseStem(t.path)) == stem && kebab(t.contractNode.name) == q && kebab(name) == last
    requires stem != "" && PosixPath.Sep !in stem
    requires q != "" && PosixPath.Sep !in q
    requires last != "" && PosixPath.Sep !in last
    ensures GetTestPath(kebab, t) == Success("test/concrete/" + stem + "/" + q + "/" + last)
  {
    PathFromPieces(kebab, t, name, "", stem, q);
    OptSegments(stem, q, last);
    UnderRootFive(stem, q, last);
  }

  /** Five segments under the root, joined with `/`. */
  lemma UnderRootFive(a: string, b: string, c: string)
    ensures JsString.Join(["test", "concrete", a, b, c], [PosixPath.Sep]) == "test/concrete/" + a + "/" + b + "/" + c
  {
    JoinFive("test", "concrete", a, b, c);
    assert [PosixPath.Sep] == "/";
    assert "test" + "/" + "concrete" + "/" == "test/concrete/";
  }

  /** A file below the top of the source folder holding one contract: the
      path is the root, the directory, the stem and the function. */
  lemma NestedSingleContractPath(kebab: Kebab, t: WithFunction, name: string, rel: string, stem: string, last: string)
    requires FunctionName(t.functionNode) == Success(name)
    requires RelativeDir(t.path) == rel && |t.ast.contracts| == 1
    requires kebab(BaseStem(t.path)) == stem && kebab(name) == last
    requires rel != "" && stem != "" && PosixPath.Sep !in stem
    requires last != "" && PosixPath.Sep !in last
    ensures GetTestPath(kebab, t) == Success("test/concrete/" + rel + "/" + stem + "/" + last)
  {
    PathFromPieces(kebab, t, name, rel, stem, "");
    OptSegments(rel, stem, last);
    UnderRootFive(rel, stem, last);
  }

  /** A plain function without a name in a kept contract makes the whole run
      fail with the invariant error. */
  lemma MissingNameAbortsRun(parse: Parser, kebab: Kebab, text: string)
    requires parse(text) == Success(SourceUnit([
               ContractDefinition(Library, "Math", [FunctionDefinition(None, Internal, false, false, false)])]))
    ensures Analyze(parse, kebab, [SolFile("src/Math.sol", text)]) == Failure(InvariantFailed)
  {
    var anon := FunctionDefinition(None, Internal, false, false, false);
    var math := ContractDefinition(Library, "Math", [anon]);
    var file := Parsed("src/Math.sol", text, SourceUnit([math]));
    assert GetAst(parse, SolFile(file.path, text)) == Success(file);
    ParsesAlone(parse, SolFile(file.path, text), file);
    SingleRecord(file, math, anon);
  }
}
