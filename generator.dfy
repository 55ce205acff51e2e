/**
 * The on-build mapping generator: from an interface marked as a mapping
 * interface it builds a public partial class that implements it, gives
 * every interface method a body (mapping statements from the mapping
 * engine, or a throw of NotSupportedException), marks the class with a
 * GeneratedCode attribute and nests it in copies of the interface's
 * namespaces, classes and structs.
 */
module OnBuildMappingGenerator {
  import opened Wrappers
  import opened Syntax
  import opened AncestorWrapping

  const GENERATOR_NAME := "MappingGenerator.OnBuildMappingGenerator"
  const GENERATED_CODE_ATTRIBUTE := "System.CodeDom.Compiler.GeneratedCodeAttribute"
  const NOT_SUPPORTED_EXCEPTION := "System.NotSupportedException"
  const MESSAGE_SUFFIX := "' method signature is not supported by " + GENERATOR_NAME

  /** The exceptions that generation raises on inputs of the wrong shape. */
  datatype GenerationError =
    | InvalidCast          // the processing node is not an interface declaration
    | ArgumentOutOfRange   // `Substring(1)` on an empty identifier

  /**
   * The mapping engine, whose algorithm is not part of this model: whether
   * it can implement a method, and the statements it generates for it.
   */
  datatype MappingEngine = MappingEngine(canProvide: Member -> bool, statements: Member -> seq<Statement>)

  /** What the host hands the generator: the annotated node, its ancestors innermost first, and the interface's symbol. */
  datatype TransformationContext = TransformationContext(
    processingNode: SyntaxNode, ancestors: seq<SyntaxNode>, interfaceSymbol: TypeSymbol)

  datatype RichGenerationResult = RichGenerationResult(members: seq<Member>, usings: seq<UsingDirective>)

  /** The using directive every generation result carries. */
  const SYSTEM_LINQ: UsingDirective := NewToken("System.Linq")

  // ---------------------------------------------------------------- names

  /** `Identifier.Text.Substring(1)`: the class is named after the interface without its first character. */
  function ImplementationName(identifier: string): (r: Result<string, GenerationError>)
    ensures r.Failure? <==> identifier == []
    ensures r.Failure? ==> r.error == ArgumentOutOfRange
    ensures r.Success? ==> [identifier[0]] + r.value == identifier
  {
    if |identifier| < 1 then Failure(ArgumentOutOfRange) else Success(identifier[1..])
  }

  /** Any one-character marker in front of a name is what the derivation removes. */
  lemma ImplementationNameOfMarked(marker: char, name: string)
    ensures ImplementationName([marker] + name) == Success(name)
  {
  }

  // ------------------------------------------------- the fallback statement

  /** The message of the NotSupportedException thrown by a method the engine cannot implement. */
  function UnsupportedMessage(methodName: string): (r: string)
    ensures |r| == 1 + |methodName| + |MESSAGE_SUFFIX|
    ensures r[0] == '\'' && r[1..1 + |methodName|] == methodName
    ensures r[1 + |methodName|..] == MESSAGE_SUFFIX
  {
    "'" + methodName + MESSAGE_SUFFIX
  }

  /** The method name an unsupported-method message names, if it has that form. */
  function MethodNameOfMessage(message: string): Option<string>
  {
    if |message| >= 1 + |MESSAGE_SUFFIX| && message[0] == '\''
       && message[|message| - |MESSAGE_SUFFIX|..] == MESSAGE_SUFFIX
    then Some(message[1..|message| - |MESSAGE_SUFFIX|])
    else None
  }

  /** The message names the method, and only a message built that way names one. */
  lemma UnsupportedMessageRoundTrip(methodName: string, message: string)
    ensures MethodNameOfMessage(UnsupportedMessage(methodName)) == Some(methodName)
    ensures MethodNameOfMessage(message) == Some(methodName) ==> UnsupportedMessage(methodName) == message
  {
  }

  /** A statement that throws a new NotSupportedException whose message names the method. */
  predicate IsNotSupportedThrow(s: Statement, methodName: string)
  {
    && s.ThrowStatement?
    && s.thrown.ObjectCreation?
    && s.thrown.createdType == SymbolType(TypeSymbol(NOT_SUPPORTED_EXCEPTION))
    && |s.thrown.arguments| == 1
    && s.thrown.arguments[0].StringLiteral?
    && MethodNameOfMessage(s.thrown.arguments[0].value) == Some(methodName)
  }

  /** `GenerateThrowNotSupportedException`. */
  function GenerateThrowNotSupportedException(methodName: string): (r: Statement)
    ensures IsNotSupportedThrow(r, methodName)
  {
    UnsupportedMessageRoundTrip(methodName, "");
    ThrowStatement(ObjectCreation(SymbolType(TypeSymbol(NOT_SUPPORTED_EXCEPTION)),
                                  [StringLiteral(UnsupportedMessage(methodName))]))
  }

  // ------------------------------------------------------------ methods

  /** What the generated method keeps of an interface method. */
  datatype MethodSignature = MethodSignature(
    name: string, parameters: seq<Parameter>, typeParameters: seq<string>, returnType: TypeSyntax)

  function Signature(m: Member): MethodSignature
    requires m.Method?
  {
    MethodSignature(m.identifier.text, m.parameters, TypeParameterNames(m.typeParameters), m.returnType)
  }

  predicate IsPublic(m: Member)
    requires m.Method? || m.TypeDeclaration?
  {
    Texts(m.modifiers) == ["public"]
  }

  /**
   * The type-parameter list that `SyntaxGenerator.MethodDeclaration` builds
   * from the identifiers alone: fresh parameters without attributes,
   * variance or trivia, and no list at all when there are no identifiers.
   */
  function GeneratedTypeParameters(list: Option<TypeParameterList>): (r: Option<TypeParameterList>)
    ensures TypeParameterNames(r) == TypeParameterNames(list)
    ensures r.None? <==> TypeParameterNames(list) == []
    ensures r.Some? ==> r.value.trivia == NO_TRIVIA
    ensures r.Some? ==> forall p <- r.value.parameters :: p.attributes == [] && p.variance.None? && p.identifier.trivia == NO_TRIVIA
  {
    var names := TypeParameterNames(list);
    if names == [] then None
    else Some(TypeParameterList(seq(|names|, i requires 0 <= i < |names| => TypeParameter([], None, NewToken(names[i]))),
                                NO_TRIVIA))
  }

  /** The statements of a generated method: the engine's when it can provide them, else one throw. */
  function MethodBody(m: Member, engine: MappingEngine): (r: seq<Statement>)
    requires m.Method?
    ensures engine.canProvide(m) ==> r == engine.statements(m)
    ensures !engine.canProvide(m) ==> |r| == 1 && IsNotSupportedThrow(r[0], m.identifier.text)
  {
    if engine.canProvide(m) then engine.statements(m)
    else [GenerateThrowNotSupportedException(m.identifier.text)]
  }

  /**
   * The method generated for an interface method: public, with the same
   * identifier, parameters, type-parameter identifiers and return type, and
   * a block body; attributes and constraint clauses are not carried over.
   */
  function ImplementMethod(m: Member, engine: MappingEngine): (r: Member)
    requires m.Method?
    ensures r.Method? && Signature(r) == Signature(m) && IsPublic(r)
    ensures r.body == Some(MethodBody(m, engine))
    ensures r.attributes == [] && r.constraints == []
  {
    Method([], [NewToken("public")], m.returnType, NewToken(m.identifier.text),
           GeneratedTypeParameters(m.typeParameters), m.parameters, [],
           Some(MethodBody(m, engine)), NO_TRIVIA, {})
  }

  /** How a generated member relates to the interface member it comes from. */
  predicate Implements(generated: Member, source: Member, engine: MappingEngine)
  {
    if source.Method? then
      && generated.Method? && Signature(generated) == Signature(source) && IsPublic(generated)
      && generated.body == Some(MethodBody(source, engine))
    else generated == source
  }

  /** The `Select` over the interface members: methods are implemented, anything else passes through. */
  function ImplementMember(m: Member, engine: MappingEngine): (r: Member)
    ensures Implements(r, m, engine)
    ensures r.Method? <==> m.Method?
  {
    if m.Method? then ImplementMethod(m, engine) else m
  }

  /** One generated member per interface member, in the same order. */
  function ImplementMembers(members: seq<Member>, engine: MappingEngine): (r: seq<Member>)
    ensures |r| == |members|
    ensures forall i :: 0 <= i < |members| ==> Implements(r[i], members[i], engine) && (r[i].Method? <==> members[i].Method?)
  {
    if members == [] then []
    else [ImplementMember(members[0], engine)] + ImplementMembers(members[1..], engine)
  }

  /** The signatures of the method members of a list, in order. */
  function MethodSignatures(members: seq<Member>): seq<MethodSignature>
  {
    if members == [] then []
    else if members[0].Method? then [Signature(members[0])] + MethodSignatures(members[1..])
    else MethodSignatures(members[1..])
  }

  /** The generated class declares the interface's method signatures, in the interface's order. */
  lemma {:induction false} ImplementMembersKeepsSignatures(members: seq<Member>, engine: MappingEngine)
    ensures MethodSignatures(ImplementMembers(members, engine)) == MethodSignatures(members)
  {
    if members != [] {
      var r := ImplementMembers(members, engine);
      assert r[1..] == ImplementMembers(members[1..], engine);
      ImplementMembersKeepsSignatures(members[1..], engine);
    }
  }

  // ------------------------------------------------- the GeneratedCode attribute

  /** The tool name and version of the first GeneratedCode attribute with two string arguments. */
  function GeneratorIdentity(attributes: seq<Attribute>): Option<(string, string)>
  {
    if attributes == [] then None
    else
      var a := attributes[0];
      if a.name == GENERATED_CODE_ATTRIBUTE && |a.arguments| == 2
         && a.arguments[0].StringLiteral? && a.arguments[1].StringLiteral?
      then Some((a.arguments[0].value, a.arguments[1].value))
      else GeneratorIdentity(attributes[1..])
  }

  lemma {:induction false} GeneratorIdentityAppend(attributes: seq<Attribute>, a: Attribute)
    ensures GeneratorIdentity(attributes) == None ==> GeneratorIdentity(attributes + [a]) == GeneratorIdentity([a])
  {
    if attributes != [] && GeneratorIdentity(attributes) == None {
      assert (attributes + [a])[1..] == attributes[1..] + [a];
      GeneratorIdentityAppend(attributes[1..], a);
    }
  }

  /** The class declaration with its attribute list replaced. */
  function WithAttributes(t: Member, attributes: seq<Attribute>): (r: Member)
    requires t.TypeDeclaration?
    ensures r.TypeDeclaration?
  {
    TypeDeclaration(t.kind, attributes, t.modifiers, t.identifier, t.typeParameters, t.baseTypes,
                    t.constraints, t.members, t.trivia, t.annotations)
  }

  function GeneratedCodeAttribute(version: string): Attribute
  {
    Attribute(GENERATED_CODE_ATTRIBUTE, [StringLiteral(GENERATOR_NAME), StringLiteral(version)])
  }

  /**
   * `DecorateWithGeneratedCodeAttribute`, passing the version string: one
   * GeneratedCode attribute naming the generator and its version is
   * appended and nothing else changes.
   */
  function DecorateWithGeneratedCodeAttribute(cls: Member, version: string): (r: Member)
    requires cls.TypeDeclaration?
    ensures r.TypeDeclaration? && r.attributes == cls.attributes + [GeneratedCodeAttribute(version)]
    ensures WithAttributes(r, cls.attributes) == cls
    ensures GeneratorIdentity(cls.attributes) == None ==> GeneratorIdentity(r.attributes) == Some((GENERATOR_NAME, version))
  {
    GeneratorIdentityAppend(cls.attributes, GeneratedCodeAttribute(version));
    WithAttributes(cls, cls.attributes + [GeneratedCodeAttribute(version)])
  }

  /**
   * The value handed to `SyntaxGenerator.LiteralExpression(object)`: a
   * string, or an object of a type that has no literal form (such as the
   * `Lazy<string>` cell that holds the generator version).
   */
  datatype LiteralValue = StringValue(s: string) | ObjectValue

  /** A literal for a string; the null literal for an object with no literal form. */
  function LiteralExpression(v: LiteralValue): (r: Expression)
    ensures r.StringLiteral? <==> v.StringValue?
    ensures v.StringValue? ==> r.value == v.s
    ensures v.ObjectValue? ==> r == NullLiteral
  {
    match v
    case StringValue(s) => StringLiteral(s)
    case ObjectValue => NullLiteral
  }

  /** `DecorateWithGeneratedCodeAttribute` as written: the version argument is the lazy cell, not its value. */
  function DecorateAsWritten(cls: Member): (r: Member)
    requires cls.TypeDeclaration?
    ensures r.TypeDeclaration?
    ensures r.attributes == cls.attributes + [Attribute(GENERATED_CODE_ATTRIBUTE, [StringLiteral(GENERATOR_NAME), NullLiteral])]
    ensures WithAttributes(r, cls.attributes) == cls
  {
    var attribute := Attribute(GENERATED_CODE_ATTRIBUTE,
                               [LiteralExpression(StringValue(GENERATOR_NAME)), LiteralExpression(ObjectValue)]);
    WithAttributes(cls, cls.attributes + [attribute])
  }

  /** As written, the attribute carries no version string, whatever the version is. */
  lemma AsWrittenOmitsVersion(cls: Member, version: string)
    requires cls.TypeDeclaration? && GeneratorIdentity(cls.attributes) == None
    ensures var added := DecorateAsWritten(cls).attributes[|cls.attributes|];
            added.name == GENERATED_CODE_ATTRIBUTE && added.arguments[1] != StringLiteral(version)
    ensures GeneratorIdentity(DecorateAsWritten(cls).attributes) == None
  {
    var r := DecorateAsWritten(cls);
    GeneratorIdentityAppend(cls.attributes, r.attributes[|cls.attributes|]);
    assert r.attributes == cls.attributes + [r.attributes[|cls.attributes|]];
  }

  // ------------------------------------------------------------ the class

  predicate IsInterface(node: SyntaxNode)
  {
    node.MemberNode? && node.member.TypeDeclaration? && node.member.kind == InterfaceKind
  }

  /** What the promise about the generated class says, for a given interface. */
  predicate ImplementsInterface(cls: Member, iface: Member, symbol: TypeSymbol, engine: MappingEngine, version: string)
    requires iface.TypeDeclaration?
  {
    && cls.TypeDeclaration? && cls.kind == ClassKind
    && iface.identifier.text != [] && [iface.identifier.text[0]] + cls.identifier.text == iface.identifier.text
    && Texts(cls.modifiers) == ["public", "partial"]
    && cls.typeParameters.None?
    && cls.baseTypes == [SymbolType(symbol)]
    && GeneratorIdentity(cls.attributes) == Some((GENERATOR_NAME, version))
    && cls.attributes == [GeneratedCodeAttribute(version)]
    && cls.constraints == []
    && cls.annotations == {SimplifierAnnotation, FormatterAnnotation}
    && |cls.members| == |iface.members|
    && forall i :: 0 <= i < |iface.members| ==> Implements(cls.members[i], iface.members[i], engine)
  }

  /** The class built at lines 68-104: public partial, implementing the interface, decorated and annotated. */
  function MappingClass(iface: Member, name: string, symbol: TypeSymbol, engine: MappingEngine, version: string): (r: Member)
    requires iface.TypeDeclaration? && ImplementationName(iface.identifier.text) == Success(name)
    ensures ImplementsInterface(r, iface, symbol, engine, version)
  {
    var plain := TypeDeclaration(ClassKind, [], [NewToken("public"), NewToken("partial")], NewToken(name),
                                 None, [SymbolType(symbol)], [], ImplementMembers(iface.members, engine),
                                 NO_TRIVIA, {});
    var decorated := DecorateWithGeneratedCodeAttribute(plain, version);
    var d := decorated;
    TypeDeclaration(d.kind, d.attributes, d.modifiers, d.identifier, d.typeParameters, d.baseTypes,
                    d.constraints, d.members, d.trivia, d.annotations + {SimplifierAnnotation} + {FormatterAnnotation})
  }

  /**
   * `GenerateRichAsync`: the generated class inside copies of the
   * interface's supported ancestors, and the one using directive
   * `System.Linq`.
   */
  function GenerateRich(context: TransformationContext, engine: MappingEngine, version: string)
    : (r: Result<RichGenerationResult, GenerationError>)
    ensures !IsInterface(context.processingNode) ==> r == Failure(InvalidCast)
    ensures IsInterface(context.processingNode) && context.processingNode.member.identifier.text == [] ==>
              r == Failure(ArgumentOutOfRange)
    ensures IsInterface(context.processingNode) && context.processingNode.member.identifier.text != [] ==>
              && r.Success?
              && r.value.usings == [SYSTEM_LINQ]
              && var depth := |SupportedAncestors(context.ancestors)|;
                 var inner := Peel(r.value.members, depth);
                 && inner.Some? && |inner.value| == 1
                 && ImplementsInterface(inner.value[0], context.processingNode.member, context.interfaceSymbol, engine, version)
  {
    if !IsInterface(context.processingNode) then Failure(InvalidCast)
    else
      var iface := context.processingNode.member;
      match ImplementationName(iface.identifier.text)
      case Failure(e) => Failure(e)
      case Success(name) =>
        var cls := MappingClass(iface, name, context.interfaceSymbol, engine, version);
        WrapDepth([cls], context.ancestors);
        Success(RichGenerationResult(WrapInAncestors([cls], context.ancestors), [SYSTEM_LINQ]))
  }

  /** The outermost generated member is the copy of the outermost namespace, class or struct ancestor. */
  lemma GenerateRichOutermost(context: TransformationContext, engine: MappingEngine, version: string)
    requires GenerateRich(context, engine, version).Success?
    requires SupportedAncestors(context.ancestors) != []
    ensures var members := GenerateRich(context, engine, version).value.members;
            var s := SupportedAncestors(context.ancestors);
            |members| == 1 && HasMembers(members[0]) && Header(members[0]) == CopyAsAncestor(s[|s| - 1])
  {
    var iface := context.processingNode.member;
    var name := ImplementationName(iface.identifier.text).value;
    WrapOutermost([MappingClass(iface, name, context.interfaceSymbol, engine, version)], context.ancestors);
  }

  /**
   * The whole result: the generated class nested in one shell per
   * namespace, class and struct ancestor, outermost ancestor outermost.
   */
  lemma GenerateRichNest(context: TransformationContext, engine: MappingEngine, version: string)
    requires GenerateRich(context, engine, version).Success?
    ensures IsInterface(context.processingNode)
    ensures ImplementationName(context.processingNode.member.identifier.text).Success?
    ensures AllContainers(Reversed(SupportedAncestors(context.ancestors)))
    ensures var iface := context.processingNode.member;
            var name := ImplementationName(iface.identifier.text).value;
            GenerateRich(context, engine, version).value.members ==
              Nest(Reversed(SupportedAncestors(context.ancestors)),
                   [MappingClass(iface, name, context.interfaceSymbol, engine, version)])
  {
    var iface := context.processingNode.member;
    var name := ImplementationName(iface.identifier.text).value;
    WrapMatchesNest([MappingClass(iface, name, context.interfaceSymbol, engine, version)], context.ancestors);
  }
}
