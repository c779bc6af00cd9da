/** The part of a Solidity syntax tree the outline reads. A `SourceUnit` is
    reduced to the `ContractDefinition` nodes a full visit meets, in visiting
    (declaration) order; a `ContractDefinition` to the `FunctionDefinition`
    nodes inside it, in declaration order. Contracts do not nest in Solidity, so
    nothing else of the tree affects the result. */
module SolidityAst {
  import opened Wrappers

  /** `ContractDefinition.kind`. */
  datatype Kind = Contract | Interface | Library | Abstract

  /** `FunctionDefinition.visibility`. */
  datatype Visibility = Default | External | Public | Internal | Private

  datatype FunctionDefinition = FunctionDefinition(
    name: Option<string>,
    visibility: Visibility,
    isConstructor: bool,
    isFallback: bool,
    isReceiveEther: bool)

  datatype ContractDefinition = ContractDefinition(
    kind: Kind,
    name: string,
    functions: seq<FunctionDefinition>)

  datatype SourceUnit = SourceUnit(contracts: seq<ContractDefinition>)
}
