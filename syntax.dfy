/**
 * An abstract syntax for the part of the C# syntax tree that the on-build
 * mapping generator reads and builds. Roslyn's node classes become
 * constructors; the parts the generator never looks into (parameters,
 * return types, constraint clauses, the statements the mapping engine
 * produces) are opaque texts.
 */
module Syntax {
  import opened Wrappers

  /** Whitespace and comments attached before and after a node. */
  datatype Trivia = Trivia(leading: string, trailing: string)

  const NO_TRIVIA := Trivia("", "")

  /**
   * A token or a leaf node with its trivia: an identifier, a modifier
   * keyword, a qualified name, an extern-alias or using directive.
   */
  datatype Token = Token(text: string, trivia: Trivia)

  /** A using directive; its text is the imported name. */
  type UsingDirective = Token

  /** An extern-alias directive; its text is the alias. */
  type ExternAlias = Token

  /** Roslyn's `WithoutTrivia`: the same text with no surrounding trivia. */
  function WithoutTrivia(t: Token): Token
  {
    Token(t.text, NO_TRIVIA)
  }

  /** `WithoutTrivia` applied to every element of a syntax list, in order. */
  function AllWithoutTrivia(ts: seq<Token>): (r: seq<Token>)
    ensures |r| == |ts|
    ensures forall i :: 0 <= i < |ts| ==> r[i].text == ts[i].text && r[i].trivia == NO_TRIVIA
  {
    seq(|ts|, i requires 0 <= i < |ts| => WithoutTrivia(ts[i]))
  }

  /** A token created from its text by the syntax factory: it has no trivia. */
  function NewToken(text: string): Token
  {
    Token(text, NO_TRIVIA)
  }

  function Texts(ts: seq<Token>): (r: seq<string>)
    ensures |r| == |ts|
    ensures forall i :: 0 <= i < |ts| ==> r[i] == ts[i].text
  {
    seq(|ts|, i requires 0 <= i < |ts| => ts[i].text)
  }

  /** Annotations that ask the host to format or simplify a node. */
  datatype Annotation = FormatterAnnotation | SimplifierAnnotation

  /** A type symbol resolved by the semantic model, known by its metadata name. */
  datatype TypeSymbol = TypeSymbol(metadataName: string)

  datatype TypeSyntax =
    | NamedType(text: string)          // a type as written in the source
    | SymbolType(symbol: TypeSymbol)   // `SyntaxGenerator.TypeExpression(symbol)`

  datatype Expression =
    | StringLiteral(value: string)
    | NullLiteral
    | ObjectCreation(createdType: TypeSyntax, arguments: seq<Expression>)
    | OtherExpression(text: string)

  datatype Statement =
    | ThrowStatement(thrown: Expression)
    | OtherStatement(text: string)

  datatype Attribute = Attribute(name: string, arguments: seq<Expression>)

  datatype Parameter = Parameter(text: string, trivia: Trivia)

  datatype TypeParameter = TypeParameter(attributes: seq<Attribute>, variance: Option<Token>, identifier: Token)

  datatype TypeParameterList = TypeParameterList(parameters: seq<TypeParameter>, trivia: Trivia)

  datatype TypeKind = ClassKind | StructKind | InterfaceKind

  /** The member declarations (Roslyn's `MemberDeclarationSyntax`) the generator distinguishes. */
  datatype Member =
    | Namespace(
        name: Token, externs: seq<ExternAlias>, usings: seq<UsingDirective>,
        members: seq<Member>, trivia: Trivia, annotations: set<Annotation>)
    | TypeDeclaration(
        kind: TypeKind, attributes: seq<Attribute>, modifiers: seq<Token>, identifier: Token,
        typeParameters: Option<TypeParameterList>, baseTypes: seq<TypeSyntax>, constraints: seq<string>,
        members: seq<Member>, trivia: Trivia, annotations: set<Annotation>)
    | Method(
        attributes: seq<Attribute>, modifiers: seq<Token>, returnType: TypeSyntax, identifier: Token,
        typeParameters: Option<TypeParameterList>, parameters: seq<Parameter>, constraints: seq<string>,
        body: Option<seq<Statement>>, trivia: Trivia, annotations: set<Annotation>)
    | OtherMember(text: string, trivia: Trivia)   // a property, an event, an indexer, ...

  /** A node of the tree that can be an ancestor of a declaration. */
  datatype SyntaxNode =
    | MemberNode(member: Member)
    | CompilationUnit(externs: seq<ExternAlias>, usings: seq<UsingDirective>, members: seq<Member>)
    | OtherNode(kind: string)

  /** The identifiers of a type-parameter list; a missing list has none. */
  function TypeParameterNames(list: Option<TypeParameterList>): (r: seq<string>)
    ensures list.None? ==> r == []
    ensures list.Some? ==> |r| == |list.value.parameters|
    ensures list.Some? ==> forall i :: 0 <= i < |r| ==> r[i] == list.value.parameters[i].identifier.text
  {
    match list
    case None => []
    case Some(l) => seq(|l.parameters|, i requires 0 <= i < |l.parameters| => l.parameters[i].identifier.text)
  }
}
