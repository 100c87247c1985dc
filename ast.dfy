/** The fragment of Go's syntax tree (package go/ast) that the stub generator
    reads from a parsed source file and the declarations it builds. Identifiers
    are plain names; object bindings are replaced by lookup in a table. */
module Ast {

  datatype Option<T> = None | Some(value: T)

  /** Type expressions. Only the shapes the generator tells apart are spelled
      out; every other shape (slices, maps, function types, ...) is OtherExpr. */
  datatype Expr =
    | Ident(name: string)              // a plain identifier: `int`, `Reader`
    | Star(x: Expr)                    // a pointer type `*X`
    | Selector(x: Expr, sel: string)   // a qualified identifier `io.Reader`
    | StructType(fields: seq<Field>)   // `struct { ... }`
    | OtherExpr(kind: string)

  /** A field of a parameter, result, receiver or struct field list: zero or
      more names sharing one type, as in `a, b int`. */
  datatype Field = Field(names: seq<string>, typ: Expr)

  /** A method of an interface: its name, parameter list and result list. */
  datatype Signature = Signature(name: string, params: seq<Field>, results: seq<Field>)

  /** A member of an interface's method list. */
  datatype Member =
    | MethodMember(sig: Signature)    // `Name(params) results`
    | EmbeddedMember(name: string)    // an embedded interface named by an identifier
    | OtherMember(typ: Expr)          // any other shape, such as `io.Reader`

  /** What a type declaration `type Name T` declares. */
  datatype TypeDecl =
    | InterfaceDecl(members: seq<Member>)
    | OtherTypeDecl(typ: Expr)

  /** The type declarations of one parsed file, by name. */
  type Table = map<string, TypeDecl>

  /** What the parser hands over: an error or the file's declarations. */
  datatype Source = ParseFailure(message: string) | Parsed(decls: Table)

  datatype Token = TYPE | VAR

  datatype Spec =
    | TypeSpec(name: string, typ: Expr)
    | ValueSpec(names: seq<string>, typ: Expr)   // no initial values

  datatype GenDecl = GenDecl(tok: Token, specs: seq<Spec>)

  datatype Stmt =
    | DeclStmt(decl: GenDecl)
    | ReturnStmt(results: seq<Expr>)

  /** A method declaration. An absent parameter or result list is None. */
  datatype FuncDecl = FuncDecl(
    recv: seq<Field>,
    name: string,
    params: Option<seq<Field>>,
    results: Option<seq<Field>>,
    body: seq<Stmt>)

  /** Every way generation can fail; the source returns the first three as
      error values and panics for the others. */
  datatype Error =
    | InvalidArgument                 // the interface name is empty
    | ParseError(message: string)     // the parser's error, passed through
    | NotFound                        // no type declaration has the requested name
    | EmptyStructName                 // no first character to name the receiver
    | NotAnInterface(name: string)    // a declaration reached by name is not an interface
    | UnresolvedEmbed(name: string)   // an embedded identifier with no type declaration
    | UnsupportedResultType(typ: Expr) // a result type that is not a plain identifier

  datatype Result<T> = Success(value: T) | Failure(error: Error) {
    predicate IsFailure() { Failure? }

    function PropagateFailure<U>(): Result<U>
      requires Failure?
    {
      Failure(error)
    }

    function Extract(): T
      requires Success?
    {
      value
    }
  }
}
