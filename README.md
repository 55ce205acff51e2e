# OnBuildMappingGenerator in Dafny

A model of the on-build code generator of MappingGenerator
(`MappingGenerator/OnBuildGenerator/OnBuildMappingGenerator.cs`). When it is given an interface
marked `[MappingInterface]`, `GenerateRichAsync` does the following:

- it builds a `public partial` class named after the interface without the interface's first character;
- the class implements the interface and has one member per interface member, in order;
- every method becomes a public method with the same signature. Its body holds the mapping engine's
  statements, or one `throw new System.NotSupportedException(...)` that names the method;
- the class gets a `GeneratedCode` attribute;
- the class is nested in trivia-free, member-less copies of every enclosing namespace, class and struct;
- one `using System.Linq` directive is returned with the result.

Roslyn syntax is modelled as a small abstract syntax (`syntax.dfy`). Each Roslyn node class becomes a constructor.
The parts the generator never looks into are opaque texts: parameters, return types, constraint clauses,
and the mapping engine's statements. The generator is pure, so every operation is a function. The
`Aggregate` over the ancestors is a recursive left fold, `AncestorWrapping.WrapInAncestors`.

Files:
- `wrappers.dfy`: `Option` and `Result`.
- `syntax.dfy`: tokens, trivia, annotations, member declarations and the nodes that can be ancestors.
- `ancestors.dfy`: `WrapInAncestor`, the three `CopyAsAncestor` overloads, the fold, and the fold's
  reference definition (`Nest`, outermost container first) with the lemmas that connect them.
- `generator.dfy`: name derivation, the fallback throw, method implementation, the `GeneratedCode`
  attribute and `GenerateRich`.

The model takes these things as parameters:
- The mapping engine is a `MappingEngine` value holding two arbitrary total functions. One says
  whether the engine can implement a method (`CanProvideMappingImplementationFor`). The other gives
  the method's statements (`GenerateMappingStatements`).
- The interface's symbol is a field of the `TransformationContext`.
- The generator version is a string parameter.

The exceptions the code can raise on malformed input are `Failure` results:
- the cast of the processing node to `InterfaceDeclarationSyntax` gives `InvalidCast`;
- `Substring(1)` on an empty identifier gives `ArgumentOutOfRange`.

Every operation is a function, so running generation twice on the same inputs gives the same output.
No lemma is needed for that.

Two behaviours of the code to note:
- A class or struct copy keeps the ancestor's type-parameter list as it is, trivia included (line 171).
  Only the identifier and the modifiers lose their trivia.
- The rebuilt chain does not have the ancestor chain's length. Every node that is not a namespace,
  class or struct is skipped. That includes the compilation unit, which is always an ancestor.

## Model

| member | source | states |
|---|---|---|
| `OnBuildMappingGenerator.ImplementationName` | MappingGenerator/OnBuildGenerator/OnBuildMappingGenerator.cs:68-69 | fails with ArgumentOutOfRange exactly when the identifier is empty; otherwise the identifier is its first character followed by the derived name |
| `OnBuildMappingGenerator.ImplementationNameOfMarked` | MappingGenerator/OnBuildGenerator/OnBuildMappingGenerator.cs:69 | a name with any one-character marker in front derives back to the name itself (so `IOrderMapper` gives `OrderMapper`) |
| `OnBuildMappingGenerator.UnsupportedMessage` | MappingGenerator/OnBuildGenerator/OnBuildMappingGenerator.cs:116-122 | the message is a quote, the method name, then `' method signature is not supported by MappingGenerator.OnBuildMappingGenerator` |
| `OnBuildMappingGenerator.UnsupportedMessageRoundTrip` | MappingGenerator/OnBuildGenerator/OnBuildMappingGenerator.cs:121 | the method name can be read back from the message; only the message built for a name gives that name back |
| `OnBuildMappingGenerator.GenerateThrowNotSupportedException` | MappingGenerator/OnBuildGenerator/OnBuildMappingGenerator.cs:116-122 | a throw of a new `System.NotSupportedException` with one string argument, and that argument names the method |
| `OnBuildMappingGenerator.GeneratedTypeParameters` | MappingGenerator/OnBuildGenerator/OnBuildMappingGenerator.cs:91 | the generated list has the source's type-parameter identifiers in order; it is absent when the source has none; it has no attributes, variance or trivia |
| `OnBuildMappingGenerator.MethodBody` | MappingGenerator/OnBuildGenerator/OnBuildMappingGenerator.cs:81-85 | when the engine can provide an implementation, the body is exactly the engine's statements; otherwise it is exactly one NotSupportedException throw naming the method |
| `OnBuildMappingGenerator.ImplementMethod` | MappingGenerator/OnBuildGenerator/OnBuildMappingGenerator.cs:87-93 | the generated method is public and has the same identifier, parameters, type-parameter identifiers and return type; its block body is `MethodBody`; no attributes or constraint clauses are carried over |
| `OnBuildMappingGenerator.ImplementMember` | MappingGenerator/OnBuildGenerator/OnBuildMappingGenerator.cs:76-98 | a method is implemented as above; any other member is returned unchanged; the result is a method exactly when the input is |
| `OnBuildMappingGenerator.ImplementMembers` | MappingGenerator/OnBuildGenerator/OnBuildMappingGenerator.cs:76-98 | as many members as the interface, each one the implementation of the interface member at the same position |
| `OnBuildMappingGenerator.ImplementMembersKeepsSignatures` | MappingGenerator/OnBuildGenerator/OnBuildMappingGenerator.cs:76-98 | the generated members declare the interface's method signatures, in the interface's order |
| `OnBuildMappingGenerator.DecorateWithGeneratedCodeAttribute` | MappingGenerator/OnBuildGenerator/OnBuildMappingGenerator.cs:125-134 | (corrected) appends one GeneratedCode attribute; nothing else in the class changes; on a class without one, the attribute gives back the generator name and the version |
| `OnBuildMappingGenerator.LiteralExpression` | MappingGenerator/OnBuildGenerator/OnBuildMappingGenerator.cs:129-130 | a string becomes a string literal of that string; an object with no literal form, such as the `Lazy<string>` cell, becomes the null literal. The null literal for such objects is an assumed behaviour of Roslyn's `SyntaxGenerator`, not visible in this repository |
| `OnBuildMappingGenerator.DecorateAsWritten` | MappingGenerator/OnBuildGenerator/OnBuildMappingGenerator.cs:125-134 | (as written) appends exactly one GeneratedCode attribute whose arguments are the generator name and the null literal; nothing else in the class changes |
| `OnBuildMappingGenerator.AsWrittenOmitsVersion` | MappingGenerator/OnBuildGenerator/OnBuildMappingGenerator.cs:130 | as written, the attribute's second argument is not the version string literal, whatever the version; no generator identity can be read from the class |
| `OnBuildMappingGenerator.MappingClass` | MappingGenerator/OnBuildGenerator/OnBuildMappingGenerator.cs:68-104 | a class with the derived name and the modifiers `public partial`, no type parameters, and the interface as its only base type; it carries exactly one attribute, the GeneratedCode attribute with the generator name and version, and no constraint clauses; the Simplifier and Formatter annotations, and one implemented member per interface member, in order |
| `OnBuildMappingGenerator.GenerateRich` | MappingGenerator/OnBuildGenerator/OnBuildMappingGenerator.cs:50-114 | a processing node that is not an interface gives InvalidCast; an empty identifier gives ArgumentOutOfRange; otherwise the usings are exactly `[System.Linq]` and the generated class sits exactly as many levels down as there are namespace, class and struct ancestors |
| `OnBuildMappingGenerator.GenerateRichNest` | MappingGenerator/OnBuildGenerator/OnBuildMappingGenerator.cs:99-112 | the result's members are exactly the generated class nested in one shell per namespace, class and struct ancestor, outermost ancestor outermost (so `[Namespace A, Class B]` gives A holding B holding the class) |
| `OnBuildMappingGenerator.GenerateRichOutermost` | MappingGenerator/OnBuildGenerator/OnBuildMappingGenerator.cs:105 | with at least one supported ancestor, the result is one member, a copy of the outermost namespace, class or struct ancestor |
| `Syntax.AllWithoutTrivia` | MappingGenerator/OnBuildGenerator/OnBuildMappingGenerator.cs:162-163 | each element keeps its text, in order, and loses its trivia |
| `AncestorWrapping.CopyNamespaceAsAncestor` | MappingGenerator/OnBuildGenerator/OnBuildMappingGenerator.cs:159-165 | the copy keeps the name and the extern and using directives, all trivia-stripped; it has no members and only the Formatter annotation |
| `AncestorWrapping.CopyTypeAsAncestor` | MappingGenerator/OnBuildGenerator/OnBuildMappingGenerator.cs:167-181 | the copy of a class or struct keeps its kind, and its identifier and modifiers trivia-stripped; it keeps the type-parameter list as it is; it has no attributes, base types, constraints or members and only the Formatter annotation |
| `AncestorWrapping.CopyAsAncestor` | MappingGenerator/OnBuildGenerator/OnBuildMappingGenerator.cs:140-153 | a namespace ancestor gives its namespace copy, a class or struct ancestor its type copy of the same kind; either has no members |
| `AncestorWrapping.WrapInAncestor` | MappingGenerator/OnBuildGenerator/OnBuildMappingGenerator.cs:136-157 | a namespace, class or struct ancestor gives a singleton list whose one element has exactly the incoming members and is otherwise the ancestor's copy; any other node gives back the list unchanged |
| `AncestorWrapping.SupportedAncestors` | MappingGenerator/OnBuildGenerator/OnBuildMappingGenerator.cs:138-155 | the kept ancestors are exactly the namespaces, classes and structs of the chain: every kept node is one taken from the chain, and every one in the chain is kept |
| `AncestorWrapping.SupportedAncestorsAppend` | MappingGenerator/OnBuildGenerator/OnBuildMappingGenerator.cs:138-155 | the filter keeps the chain's order: filtering a concatenation is the concatenation of the filtered parts |
| `AncestorWrapping.SupportedAncestorsSingleton` | MappingGenerator/OnBuildGenerator/OnBuildMappingGenerator.cs:138-155 | a single node is kept exactly when it is a namespace, class or struct; with the append lemma this fixes the filter's count and order |
| `AncestorWrapping.WrapInAncestors` | MappingGenerator/OnBuildGenerator/OnBuildMappingGenerator.cs:105 | the `Aggregate` fold: with no supported ancestor it returns the generated list itself, otherwise a single container. Its full shape is stated by `WrapMatchesNest` (one shell per supported ancestor, outermost outermost) and `WrapDepth` (exactly one level per supported ancestor) |
| `AncestorWrapping.WrapSkipsUnsupported` | MappingGenerator/OnBuildGenerator/OnBuildMappingGenerator.cs:105 | folding over all ancestors gives the same result as folding over only the namespace, class and struct ancestors |
| `AncestorWrapping.WrapIsNest` | MappingGenerator/OnBuildGenerator/OnBuildMappingGenerator.cs:105 | on a chain of containers, the innermost-first fold equals nesting the reversed chain, outermost container first |
| `AncestorWrapping.WrapMatchesNest` | MappingGenerator/OnBuildGenerator/OnBuildMappingGenerator.cs:105 | the fold gives one shell per supported ancestor, the outermost ancestor outermost |
| `AncestorWrapping.WrapDepth` | MappingGenerator/OnBuildGenerator/OnBuildMappingGenerator.cs:105 | descending once per supported ancestor reaches exactly the generated members; with no supported ancestor the result is the generated list itself |
| `AncestorWrapping.WrapOutermost` | MappingGenerator/OnBuildGenerator/OnBuildMappingGenerator.cs:105 | with at least one supported ancestor, the result is one member, a copy of the outermost supported ancestor |

## Findings

| source | as written | input that shows it | evidently intended | confidence | as-written member | corrected member |
|---|---|---|---|---|---|---|
| MappingGenerator/OnBuildGenerator/OnBuildMappingGenerator.cs:130 | `LiteralExpression(GeneratorVersion)` passes the `Lazy<string>` cell itself, not its `Value`. `SyntaxGenerator.LiteralExpression(object)` has no literal form for it, so the attribute does not carry the version string | any interface, e.g. `IUserMapper`, with version `1.0.0.0` | `LiteralExpression(GeneratorVersion.Value)`, giving `[GeneratedCode("MappingGenerator.OnBuildMappingGenerator", "1.0.0.0")]` | medium, not executed; it rests on Roslyn's fallback for objects with no literal form, which is modelled as the null literal | `OnBuildMappingGenerator.AsWrittenOmitsVersion` | `OnBuildMappingGenerator.DecorateWithGeneratedCodeAttribute` |

## Left out

- The `References` class (lines 19-34) is not modelled. It loads the core, LINQ and mscorlib assemblies by path.
  The `AdhocWorkspace`, project and document set up at lines 52-60 are not modelled either; they only supply a `SyntaxGenerator`.
- Semantic-model lookups are reduced to identities:
  - `GetDeclaredSymbol` of the interface is the context's `interfaceSymbol`.
  - A method's symbol is its declaration, so the engine's functions take the declaration.
  - The symbol's `Name` is taken to be the identifier text. Explicit interface implementations, whose
    symbol names differ from their identifiers, are not distinguished.
- `GetTypeByMetadataName("System.NotSupportedException")` is assumed to resolve. When it returns null, the
  exception type is missing; that case is not modelled.
- `MappingImplementorEngine` is not part of this model. It is an arbitrary pair of total functions, so any
  errors it throws are not modelled.
- The generator version comes from assembly reflection (line 40). Here it is a string parameter.
- The internals of `SyntaxGenerator` and `SyntaxFactory` are modelled only as the constructors they build.
  `SyntaxGenerator.ClassDeclaration`'s own handling of constructors is not modelled: it renames a
  constructor to the class name. Since C# 8 an interface can declare a static constructor; the model
  passes it through unchanged.
- The Formatter and Simplifier annotations are recorded as a set on each node; what the host does with them is not modelled.
- Trivia is modelled only as the leading and trailing trivia of a token or node. Trivia inside a qualified
  name or directive is not modelled.
- `ImplementationName`: `Substring(1)` removes one UTF-16 code unit. The model removes one character,
  so the two differ when the identifier starts with a surrogate pair.
- MappingClass: builds the class with the corrected `DecorateWithGeneratedCodeAttribute`, so its promise that the
  class carries the generator version holds of the corrected code only. As written, the version argument is the
  null literal (see Findings and `AsWrittenOmitsVersion`).
- GenerateRich: uses `MappingClass`, so the same holds: the generator version in its result is that of the
  corrected code; as written, the attribute's version argument is the null literal.
- The `Task` wrapper, the `IProgress<Diagnostic>` and the `CancellationToken` are not modelled. The code never uses the last two.
- `ICodeGenerator.GenerateAsync` (lines 45-48) only throws `NotImplementedException` and is not modelled.
- `MappingGenerator/OnBuildGenerator/MappingInterface.cs` declares an attribute class with no logic and is not modelled.
