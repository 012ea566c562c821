/**
  Environment substitution (`FuncNode::simplify_to_f32`, `translate_nodes`' first step):
  variable references become float literals, everything else keeps its shape.
 */
module Substitution {
  import opened Results
  import Tokens

  /** A token tree with every variable reference resolved. */
  datatype FuncNodeCleaned =
    | Int(i: Tokens.I64)
    | Float(x: Tokens.F32)
    | BuiltinFunction(func: Tokens.FunctionType, args: seq<FuncNodeCleaned>)
    | BinaryOperationSymbol(op: Tokens.Operator)
    | Parentheses(nodes: seq<FuncNodeCleaned>)

  /** A reference to the time or to a coordinate of the point. */
  predicate IsVariable(n: Tokens.FuncNode)
  {
    n.Time? || n.PointX? || n.PointY? || n.PointZ?
  }

  /**
    The substitution within the token type itself: every variable reference becomes
    the float the time or the point gives it, every call and group is filled child by
    child, and every other node stays as it is.
   */
  function Fill(n: Tokens.FuncNode, time: Tokens.F32, p: Tokens.Point): Tokens.FuncNode
  {
    match n
    case Time => Tokens.FuncNode.Float(time)
    case PointX => Tokens.FuncNode.Float(p.x)
    case PointY => Tokens.FuncNode.Float(p.y)
    case PointZ => Tokens.FuncNode.Float(p.z)
    case BuiltinFunction(f, args) =>
      Tokens.FuncNode.BuiltinFunction(f, seq(|args|, k requires 0 <= k < |args| => Fill(args[k], time, p)))
    case Parentheses(nodes) =>
      Tokens.FuncNode.Parentheses(seq(|nodes|, k requires 0 <= k < |nodes| => Fill(nodes[k], time, p)))
    case _ => n
  }

  /**
    `simplify_to_f32` on one node. The time and the three coordinates become the floats
    the environment gives them; read back as a token tree, the result is the tree with
    every variable reference filled in (`Fill`), so calls and groups keep their function
    and their number of children. On a tree without variable references the
    substitution changes only the type.
   */
  function Simplify(n: Tokens.FuncNode, time: Tokens.F32, p: Tokens.Point): (r: FuncNodeCleaned)
    ensures n.Time? ==> r == Float(time)
    ensures n.PointX? ==> r == Float(p.x)
    ensures n.PointY? ==> r == Float(p.y)
    ensures n.PointZ? ==> r == Float(p.z)
    ensures r.Float? <==> n.Float? || IsVariable(n)
    ensures Embed(r) == Fill(n, time, p)
    ensures VariableFree(n) ==> Embed(r) == n
  {
    match n
    case Time => Float(time)
    case PointX => Float(p.x)
    case PointY => Float(p.y)
    case PointZ => Float(p.z)
    case Int(i) => Int(i)
    case Float(x) => Float(x)
    case BuiltinFunction(f, args) =>
      var r := SimplifyAll(args, time, p);
      assert EmbedAll(r) == seq(|args|, k requires 0 <= k < |args| => Fill(args[k], time, p));
      assert VariableFree(n) ==> EmbedAll(r) == args;
      BuiltinFunction(f, r)
    case Parentheses(nodes) =>
      var r := SimplifyAll(nodes, time, p);
      assert EmbedAll(r) == seq(|nodes|, k requires 0 <= k < |nodes| => Fill(nodes[k], time, p));
      assert VariableFree(n) ==> EmbedAll(r) == nodes;
      Parentheses(r)
    case BinaryOperationSymbol(op) => BinaryOperationSymbol(op)
  }

  /** The element-wise map the source writes as `iter().map(..).collect()`. */
  function SimplifyAll(ns: seq<Tokens.FuncNode>, time: Tokens.F32, p: Tokens.Point): (r: seq<FuncNodeCleaned>)
    ensures |r| == |ns|
    ensures forall k :: 0 <= k < |ns| ==> r[k] == Simplify(ns[k], time, p)
  {
    if ns == [] then [] else [Simplify(ns[0], time, p)] + SimplifyAll(ns[1..], time, p)
  }

  /** No variable reference occurs anywhere in the tree. */
  predicate VariableFree(n: Tokens.FuncNode)
  {
    match n
    case Time => false
    case PointX => false
    case PointY => false
    case PointZ => false
    case BuiltinFunction(_, args) => forall k :: 0 <= k < |args| ==> VariableFree(args[k])
    case Parentheses(nodes) => forall k :: 0 <= k < |nodes| ==> VariableFree(nodes[k])
    case _ => true
  }

  /** A resolved tree read back as a token tree (the inclusion of the smaller language). */
  function Embed(c: FuncNodeCleaned): (n: Tokens.FuncNode)
    ensures VariableFree(n)
  {
    match c
    case Int(i) => Tokens.FuncNode.Int(i)
    case Float(x) => Tokens.FuncNode.Float(x)
    case BuiltinFunction(f, args) => Tokens.FuncNode.BuiltinFunction(f, EmbedAll(args))
    case Parentheses(nodes) => Tokens.FuncNode.Parentheses(EmbedAll(nodes))
    case BinaryOperationSymbol(op) => Tokens.FuncNode.BinaryOperationSymbol(op)
  }

  function EmbedAll(cs: seq<FuncNodeCleaned>): (r: seq<Tokens.FuncNode>)
    ensures |r| == |cs|
    ensures forall k :: 0 <= k < |cs| ==> r[k] == Embed(cs[k])
  {
    if cs == [] then [] else [Embed(cs[0])] + EmbedAll(cs[1..])
  }

  /** Substituting into a tree that is already resolved changes nothing, whatever the environment. */
  lemma {:induction false} SimplifyEmbed(c: FuncNodeCleaned, time: Tokens.F32, p: Tokens.Point)
    ensures Simplify(Embed(c), time, p) == c
  {
    match c
    case BuiltinFunction(f, args) =>
      SimplifyEmbedAll(args, time, p);
    case Parentheses(nodes) =>
      SimplifyEmbedAll(nodes, time, p);
    case _ =>
  }

  lemma {:induction false} SimplifyEmbedAll(cs: seq<FuncNodeCleaned>, time: Tokens.F32, p: Tokens.Point)
    ensures SimplifyAll(EmbedAll(cs), time, p) == cs
  {
    var r := SimplifyAll(EmbedAll(cs), time, p);
    forall k | 0 <= k < |cs| ensures r[k] == cs[k] {
      SimplifyEmbed(cs[k], time, p);
    }
  }

  /** Only variable references read the environment. */
  lemma SimplifyIndependentOfEnvironment(n: Tokens.FuncNode, t1: Tokens.F32, p1: Tokens.Point, t2: Tokens.F32, p2: Tokens.Point)
    requires VariableFree(n)
    ensures Simplify(n, t1, p1) == Simplify(n, t2, p2)
  {
    assert Embed(Simplify(n, t1, p1)) == Embed(Simplify(n, t2, p2));
    EmbedInjective(Simplify(n, t1, p1), Simplify(n, t2, p2));
  }

  /** The same for lists: a list without variable references resolves the same in every environment. */
  lemma SimplifyAllIndependentOfEnvironment(ns: seq<Tokens.FuncNode>, t1: Tokens.F32, p1: Tokens.Point, t2: Tokens.F32, p2: Tokens.Point)
    ensures (forall k :: 0 <= k < |ns| ==> VariableFree(ns[k])) ==> SimplifyAll(ns, t1, p1) == SimplifyAll(ns, t2, p2)
  {
    if forall k :: 0 <= k < |ns| ==> VariableFree(ns[k]) {
      forall k | 0 <= k < |ns| ensures SimplifyAll(ns, t1, p1)[k] == SimplifyAll(ns, t2, p2)[k] {
        SimplifyIndependentOfEnvironment(ns[k], t1, p1, t2, p2);
      }
    }
  }

  lemma EmbedInjective(c1: FuncNodeCleaned, c2: FuncNodeCleaned)
    requires Embed(c1) == Embed(c2)
    ensures c1 == c2
  {
    SimplifyEmbed(c1, 0.0, Tokens.Point(0.0, 0.0, 0.0));
    SimplifyEmbed(c2, 0.0, Tokens.Point(0.0, 0.0, 0.0));
  }
}
