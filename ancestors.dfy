/**
 * Reconstruction of the lexical context of the generated class: every
 * namespace, class and struct that encloses the annotated interface is
 * copied as an empty, trivia-free shell and the generated members are
 * nested inside, innermost ancestor first.
 */
module AncestorWrapping {
  import opened Wrappers
  import opened Syntax

  /** The ancestor kinds that contribute a shell: namespaces, classes and structs. */
  predicate IsContainer(node: SyntaxNode)
  {
    && node.MemberNode?
    && (node.member.Namespace? || (node.member.TypeDeclaration? && node.member.kind != InterfaceKind))
  }

  /** A member that has a member list of its own. */
  predicate HasMembers(m: Member)
  {
    m.Namespace? || m.TypeDeclaration?
  }

  /** The declaration with its member list emptied: what it says about itself. */
  function Header(m: Member): Member
    requires HasMembers(m)
  {
    m.(members := [])
  }

  /** Copy of a namespace as an ancestor: its name, externs and usings, without trivia, and nothing else. */
  function CopyNamespaceAsAncestor(ns: Member): (r: Member)
    requires ns.Namespace?
    ensures r.Namespace? && r.members == []
    ensures r.name.text == ns.name.text && r.name.trivia == NO_TRIVIA
    ensures Texts(r.externs) == Texts(ns.externs) && forall e <- r.externs :: e.trivia == NO_TRIVIA
    ensures Texts(r.usings) == Texts(ns.usings) && forall u <- r.usings :: u.trivia == NO_TRIVIA
    ensures r.trivia == NO_TRIVIA && r.annotations == {FormatterAnnotation}
  {
    Namespace(WithoutTrivia(ns.name), AllWithoutTrivia(ns.externs), AllWithoutTrivia(ns.usings),
              [], NO_TRIVIA, {FormatterAnnotation})
  }

  /**
   * Copy of a class or struct as an ancestor: its kind, identifier and
   * modifiers without trivia, its type-parameter list as it is, and no
   * attributes, base types, constraint clauses or members.
   */
  function CopyTypeAsAncestor(t: Member): (r: Member)
    requires t.TypeDeclaration? && t.kind != InterfaceKind
    ensures r.TypeDeclaration? && r.kind == t.kind && r.members == []
    ensures r.identifier.text == t.identifier.text && r.identifier.trivia == NO_TRIVIA
    ensures Texts(r.modifiers) == Texts(t.modifiers) && forall k <- r.modifiers :: k.trivia == NO_TRIVIA
    ensures r.typeParameters == t.typeParameters
    ensures r.attributes == [] && r.baseTypes == [] && r.constraints == []
    ensures r.trivia == NO_TRIVIA && r.annotations == {FormatterAnnotation}
  {
    TypeDeclaration(t.kind, [], AllWithoutTrivia(t.modifiers), WithoutTrivia(t.identifier),
                    t.typeParameters, [], [], [], NO_TRIVIA, {FormatterAnnotation})
  }

  /** The overload of `CopyAsAncestor` that the ancestor's kind selects. */
  function CopyAsAncestor(ancestor: SyntaxNode): (r: Member)
    requires IsContainer(ancestor)
    ensures (r.Namespace? || r.TypeDeclaration?) && r.members == []
    ensures ancestor.member.Namespace? ==> r == CopyNamespaceAsAncestor(ancestor.member)
    ensures ancestor.member.TypeDeclaration? ==> r == CopyTypeAsAncestor(ancestor.member)
  {
    if ancestor.member.Namespace? then CopyNamespaceAsAncestor(ancestor.member)
    else CopyTypeAsAncestor(ancestor.member)
  }

  /** Copy of the ancestor holding exactly the given members. */
  function Shell(ancestor: SyntaxNode, members: seq<Member>): Member
    requires IsContainer(ancestor)
  {
    var copy := CopyAsAncestor(ancestor);
    copy.(members := members)
  }

  /**
   * One step of the fold: a namespace, class or struct ancestor wraps the
   * members in a copy of itself; any other node leaves them as they are.
   */
  function WrapInAncestor(generated: seq<Member>, ancestor: SyntaxNode): (r: seq<Member>)
    ensures IsContainer(ancestor) ==>
              |r| == 1 && HasMembers(r[0]) && r[0].members == generated && Header(r[0]) == CopyAsAncestor(ancestor)
    ensures !IsContainer(ancestor) ==> r == generated
  {
    match ancestor
    case MemberNode(Namespace(_, _, _, _, _, _)) => [Shell(ancestor, generated)]
    case MemberNode(TypeDeclaration(kind, _, _, _, _, _, _, _, _, _)) =>
      if kind == ClassKind || kind == StructKind then [Shell(ancestor, generated)] else generated
    case _ => generated
  }

  /** `Ancestors().Aggregate(generated, WrapInAncestor)`: a left fold over the ancestors, innermost first. */
  function WrapInAncestors(generated: seq<Member>, ancestors: seq<SyntaxNode>): (r: seq<Member>)
    ensures SupportedAncestors(ancestors) == [] ==> r == generated
    ensures SupportedAncestors(ancestors) != [] ==> |r| == 1 && HasMembers(r[0])
    decreases |ancestors|
  {
    if ancestors == [] then generated
    else WrapInAncestors(WrapInAncestor(generated, ancestors[0]), ancestors[1..])
  }

  /** The ancestors that contribute a shell, in their original order. */
  function SupportedAncestors(ancestors: seq<SyntaxNode>): (r: seq<SyntaxNode>)
    ensures |r| <= |ancestors|
    ensures forall a <- r :: IsContainer(a) && a in ancestors
    ensures forall a <- ancestors :: IsContainer(a) ==> a in r
  {
    if ancestors == [] then []
    else if IsContainer(ancestors[0]) then [ancestors[0]] + SupportedAncestors(ancestors[1..])
    else SupportedAncestors(ancestors[1..])
  }

  /** The filter keeps the order of the chain: filtering a concatenation concatenates the filtered parts. */
  lemma {:induction false} SupportedAncestorsAppend(xs: seq<SyntaxNode>, ys: seq<SyntaxNode>)
    ensures SupportedAncestors(xs + ys) == SupportedAncestors(xs) + SupportedAncestors(ys)
  {
    if xs == [] {
      assert xs + ys == ys;
    } else {
      assert (xs + ys)[0] == xs[0] && (xs + ys)[1..] == xs[1..] + ys;
      SupportedAncestorsAppend(xs[1..], ys);
    }
  }

  /** A single node is kept exactly when it is a namespace, class or struct. */
  lemma SupportedAncestorsSingleton(a: SyntaxNode)
    ensures SupportedAncestors([a]) == if IsContainer(a) then [a] else []
  {
    assert [a][1..] == [];
  }

  predicate AllContainers(chain: seq<SyntaxNode>)
  {
    forall a <- chain :: IsContainer(a)
  }

  /**
   * Reference nesting, outermost container first: the first container
   * holds exactly one member, the nesting of the rest.
   */
  function Nest(outerFirst: seq<SyntaxNode>, inner: seq<Member>): seq<Member>
    requires AllContainers(outerFirst)
  {
    if outerFirst == [] then inner
    else [Shell(outerFirst[0], Nest(outerFirst[1..], inner))]
  }

  function Reversed<T>(s: seq<T>): (r: seq<T>)
    ensures |r| == |s|
  {
    if s == [] then [] else Reversed(s[1..]) + [s[0]]
  }

  /**
   * Descends `depth` times into the single member of a one-member list
   * that has members of its own; None when the list does not have that shape.
   */
  function Peel(members: seq<Member>, depth: nat): Option<seq<Member>>
  {
    if depth == 0 then Some(members)
    else if |members| == 1 && HasMembers(members[0]) then Peel(members[0].members, depth - 1)
    else None
  }

  lemma {:induction false} ReversedElements<T>(s: seq<T>)
    ensures forall i :: 0 <= i < |s| ==> Reversed(s)[i] == s[|s| - 1 - i]
  {
    if s != [] {
      ReversedElements(s[1..]);
    }
  }

  lemma {:induction false} ReversedAllContainers(chain: seq<SyntaxNode>)
    requires AllContainers(chain)
    ensures AllContainers(Reversed(chain))
  {
    ReversedElements(chain);
    forall a <- Reversed(chain) ensures IsContainer(a) {
      var i :| 0 <= i < |chain| && Reversed(chain)[i] == a;
      assert a == chain[|chain| - 1 - i];
    }
  }

  /** Nodes of any other kind are passed over by the fold, as if they were not there. */
  lemma {:induction false} WrapSkipsUnsupported(generated: seq<Member>, ancestors: seq<SyntaxNode>)
    ensures WrapInAncestors(generated, ancestors) == WrapInAncestors(generated, SupportedAncestors(ancestors))
    decreases |ancestors|
  {
    if ancestors != [] {
      var rest := ancestors[1..];
      WrapSkipsUnsupported(WrapInAncestor(generated, ancestors[0]), rest);
      if IsContainer(ancestors[0]) {
        var s := SupportedAncestors(ancestors);
        assert s[0] == ancestors[0] && s[1..] == SupportedAncestors(rest);
      }
    }
  }

  /** Adding an innermost container to a nesting is the same as nesting its shell. */
  lemma {:induction false} NestSnoc(outerFirst: seq<SyntaxNode>, a: SyntaxNode, inner: seq<Member>)
    requires AllContainers(outerFirst) && IsContainer(a)
    ensures AllContainers(outerFirst + [a])
    ensures Nest(outerFirst + [a], inner) == Nest(outerFirst, [Shell(a, inner)])
  {
    if outerFirst != [] {
      assert (outerFirst + [a])[1..] == outerFirst[1..] + [a];
      NestSnoc(outerFirst[1..], a, inner);
    } else {
      assert [a][1..] == [];
    }
  }

  /** On a chain of containers, the innermost-first fold equals the outermost-first nesting. */
  lemma {:induction false} WrapIsNest(generated: seq<Member>, chain: seq<SyntaxNode>)
    requires AllContainers(chain)
    ensures AllContainers(Reversed(chain))
    ensures WrapInAncestors(generated, chain) == Nest(Reversed(chain), generated)
    decreases |chain|
  {
    ReversedAllContainers(chain);
    if chain != [] {
      var a, rest := chain[0], chain[1..];
      assert forall x <- rest :: x in chain;
      WrapIsNest([Shell(a, generated)], rest);
      NestSnoc(Reversed(rest), a, generated);
    }
  }

  /**
   * The fold nests the generated members in one shell per namespace, class
   * and struct ancestor, the outermost ancestor outermost.
   */
  lemma WrapMatchesNest(generated: seq<Member>, ancestors: seq<SyntaxNode>)
    ensures AllContainers(Reversed(SupportedAncestors(ancestors)))
    ensures WrapInAncestors(generated, ancestors) == Nest(Reversed(SupportedAncestors(ancestors)), generated)
  {
    WrapSkipsUnsupported(generated, ancestors);
    WrapIsNest(generated, SupportedAncestors(ancestors));
  }

  lemma {:induction false} PeelNest(outerFirst: seq<SyntaxNode>, inner: seq<Member>)
    requires AllContainers(outerFirst)
    ensures Peel(Nest(outerFirst, inner), |outerFirst|) == Some(inner)
  {
    if outerFirst != [] {
      assert forall x <- outerFirst[1..] :: x in outerFirst;
      PeelNest(outerFirst[1..], inner);
    }
  }

  /**
   * Fold depth: the result is the generated list nested exactly once per
   * supported ancestor; with none it is the generated list itself.
   */
  lemma WrapDepth(generated: seq<Member>, ancestors: seq<SyntaxNode>)
    ensures Peel(WrapInAncestors(generated, ancestors), |SupportedAncestors(ancestors)|) == Some(generated)
    ensures SupportedAncestors(ancestors) == [] ==> WrapInAncestors(generated, ancestors) == generated
  {
    WrapMatchesNest(generated, ancestors);
    PeelNest(Reversed(SupportedAncestors(ancestors)), generated);
  }

  /**
   * With at least one supported ancestor the result is a single member: the
   * copy of the outermost supported ancestor.
   */
  lemma WrapOutermost(generated: seq<Member>, ancestors: seq<SyntaxNode>)
    requires SupportedAncestors(ancestors) != []
    ensures var r := WrapInAncestors(generated, ancestors);
            var s := SupportedAncestors(ancestors);
            |r| == 1 && HasMembers(r[0]) && Header(r[0]) == CopyAsAncestor(s[|s| - 1])
  {
    var s := SupportedAncestors(ancestors);
    WrapMatchesNest(generated, ancestors);
    ReversedElements(s);
  }
}
