/**
  The syntax tree that the raw-SQL checker walks. A node is a kind together with
  its children in source order, so `forEachChild` is the field `kids`.
 */
module RawSqlSyntax {

  datatype Primitive = NumberLit(n: int) | BigIntLit(n: int) | TrueLit | FalseLit | NullLit

  /** `=`, or any compound assignment such as `+=` and `??=`. */
  datatype AssignOp = Plain | Compound

  datatype BinaryOp = Plus | Assigning(how: AssignOp) | OtherBinary

  datatype UnaryOp = PlusPlus | MinusMinus | OtherUnary

  /** `var` is hoisted to the function; `let` and `const` belong to their block. */
  datatype DeclKind = Var | LetOrConst

  /** `import { exported as local }`. */
  datatype ImportSpecifier = ImportSpecifier(exported: string, local: string)

  datatype Kind =
    | StringLit(text: string)               // also a template without substitutions
    | PrimitiveLit(primitive: Primitive)
    | Identifier(name: string)
    | Binary(op: BinaryOp)                  // left, right
    | Unary(uop: UnaryOp)                   // operand; prefix or postfix
    | PropertyAccess(member: string)        // receiver
    | Call(line: nat)                       // callee, then the arguments
    | ObjectLit                             // properties
    | PropertyAssignment(key: string)       // initializer
    | ShorthandProperty(name: string)
    | Spread                                // operand
    | FunctionExpr                          // parameters, then the body's statements
    | Parameter(name: string)
    | VarDecl(how: DeclKind, name: string)  // initializer, when there is one
    | Return                                // the result
    | If                                    // condition, then-branch, else-branch
    | Block                                 // statements
    | Import(source: string, named: seq<ImportSpecifier>)
    | Other                                 // loops, `switch`, `try`, `&&`, templates, computed keys, ...
    | SourceFile                            // statements

  datatype Node = Node(kind: Kind, kids: seq<Node>)

  /** All nodes of a tree in the order `visit` meets them. */
  function Preorder(n: Node): seq<Node>
    decreases n, 1
  {
    [n] + PreorderAll(n.kids)
  }

  function PreorderAll(ns: seq<Node>): seq<Node>
    decreases ns, 0
  {
    if ns == [] then [] else Preorder(ns[0]) + PreorderAll(ns[1..])
  }

  lemma {:induction false} PreorderAllAppend(ms: seq<Node>, ns: seq<Node>)
    ensures PreorderAll(ms + ns) == PreorderAll(ms) + PreorderAll(ns)
  {
    if ms == [] {
      assert ms + ns == ns;
    } else {
      assert (ms + ns)[1..] == ms[1..] + ns;
      PreorderAllAppend(ms[1..], ns);
    }
  }

  /** What a walk has met once it has entered a node and finished its first `i` children. */
  function VisitedUpTo(n: Node, i: nat): seq<Node>
    requires i <= |n.kids|
  {
    [n] + PreorderAll(n.kids[..i])
  }

  lemma {:induction false} VisitedStep(n: Node)
    ensures VisitedUpTo(n, 0) == [n] && VisitedUpTo(n, |n.kids|) == Preorder(n)
    ensures forall i :: 0 <= i < |n.kids| ==> VisitedUpTo(n, i + 1) == VisitedUpTo(n, i) + Preorder(n.kids[i])
  {
    assert n.kids[..|n.kids|] == n.kids;
    forall i | 0 <= i < |n.kids|
      ensures VisitedUpTo(n, i + 1) == VisitedUpTo(n, i) + Preorder(n.kids[i])
    {
      assert n.kids[..i + 1] == n.kids[..i] + [n.kids[i]];
      PreorderAllAppend(n.kids[..i], [n.kids[i]]);
      assert PreorderAll([n.kids[i]]) == Preorder(n.kids[i]) + PreorderAll([]);
    }
  }

  /** A tree contains every node of each of its children's trees. */
  lemma {:induction false} PreorderAllContains(ns: seq<Node>, i: nat, a: Node)
    requires i < |ns| && a in Preorder(ns[i])
    ensures a in PreorderAll(ns)
  {
    if i > 0 {
      PreorderAllContains(ns[1..], i - 1, a);
    }
  }

  lemma {:induction false} PreorderAllFinds(ns: seq<Node>, a: Node) returns (i: nat)
    requires a in PreorderAll(ns)
    ensures i < |ns| && a in Preorder(ns[i])
  {
    if a in Preorder(ns[0]) {
      i := 0;
    } else {
      i := PreorderAllFinds(ns[1..], a);
      i := i + 1;
    }
  }

  /** The node reached by taking the given child at each step. */
  ghost predicate ReachedBy(n: Node, path: seq<int>, a: Node)
    decreases |path|
  {
    if path == [] then n == a else 0 <= path[0] < |n.kids| && ReachedBy(n.kids[path[0]], path[1..], a)
  }

  lemma {:induction false} PathTo(n: Node, a: Node) returns (path: seq<int>)
    requires a in Preorder(n)
    ensures ReachedBy(n, path, a)
    decreases n
  {
    if n == a {
      path := [];
    } else {
      var i := PreorderAllFinds(n.kids, a);
      path := PathTo(n.kids[i], a);
      assert ([i] + path)[1..] == path;
      path := [i] + path;
    }
  }

  lemma {:induction false} PathStaysInside(n: Node, path: seq<int>, a: Node)
    requires ReachedBy(n, path, a)
    ensures a in Preorder(n)
    decreases |path|
  {
    if path != [] {
      PathStaysInside(n.kids[path[0]], path[1..], a);
      PreorderAllContains(n.kids, path[0], a);
    }
  }

  /** Preorder lists exactly the nodes at some path from the root, whatever the depth. */
  lemma {:induction false} PreorderIsReachability(n: Node, a: Node)
    ensures a in Preorder(n) ==> exists path: seq<int> :: ReachedBy(n, path, a)
    ensures (exists path: seq<int> :: ReachedBy(n, path, a)) ==> a in Preorder(n)
  {
    if a in Preorder(n) {
      var path := PathTo(n, a);
    }
    if path: seq<int> :| ReachedBy(n, path, a) {
      PathStaysInside(n, path, a);
    }
  }
}
