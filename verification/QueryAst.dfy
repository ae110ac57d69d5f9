/** The query document the GraphQL cost parser produces and the analyzer and
    executor consume. */
module QueryAst {
  import opened Common

  datatype OperationKind = OpQuery | OpMutation

  datatype ArgValue = ArgValue(intValue: Option<int>, raw: string)

  datatype Field = Field(
    name: string, alias: string, args: map<string, ArgValue>, directives: seq<string>, sels: seq<Selection>)

  datatype Selection =
    | FieldSel(field: Field)
    | Spread(name: string)
    | Inline(onType: string, sels: seq<Selection>)

  datatype Operation = Operation(kind: OperationKind, name: string, sels: seq<Selection>)

  datatype Fragment = Fragment(name: string, onType: string, sels: seq<Selection>)

  datatype Document = Document(operations: seq<Operation>, fragments: map<string, Fragment>)
}
