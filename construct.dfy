/** The kinds of node the parser builds and the resolvers rewrite. */
module Constructs {
  import opened Tokens

  datatype Primitive = I8 | I16 | I32 | I64 | U8 | U16 | U32 | U64 | F32 | F64 | C8

  datatype DatatypeKind = Terminal | Pointer

  datatype Qualifier = Mut

  datatype UnaryOp = Negate | LogicalNot | Deref | Ref

  datatype BinaryOp =
    | Add | Subtract | Multiply | Divide
    | LogicalAnd | LogicalOr | LogicalEquals
    | BitwiseAnd | BitwiseOr
    | Access

  datatype StatementKind = Assign | Return

  datatype ExpressionKind =
    | Function
    | UnaryOp(unary: UnaryOp)
    | BinaryOp(binary: BinaryOp)
    | Constant(constant: Constant)
    | Identifier

  /** What a node of the tree stands for. `Structure` carries its byte size and
      `Member` its byte offset, both 0 until the layout pass fills them in;
      `Reference` is what a resolved type name becomes: the index of the node
      it names. */
  datatype Construct =
    | Program
    | Function(name: string)
    | Structure(name: string, size: nat)
    | Variable(name: string)
    | Argument(name: string)
    | Returned
    | Member(name: string, offset: nat)
    | Block
    | Statement(statement: StatementKind)
    | Datatype(kind: DatatypeKind)
    | Qualifier(qualifier: Qualifier)
    | Expression(expression: ExpressionKind)
    | Primitive(primitive: Primitive)
    | Identifier(name: string)
    | Reference(index: nat)
}
