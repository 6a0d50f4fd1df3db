/** The simplifier as the program runs it (core/planner/graph_opt.c): trees of nodes
    rewritten in place, against the function on expressions. */
module ExprTree {
  import opened CInt
  import opened Exprs

  datatype Kind = ConstKind | VarKind | OpKind(op: Op)

  class Node {
    var kind: Kind
    var constant: word
    var name: string
    var left: Node?
    var right: Node?
    ghost var repr: set<Node>
    ghost var tree: Expr

    /** The nodes of `repr` below this one are the tree, none of them shared. */
    ghost predicate Valid()
      reads this, repr
      decreases repr
    {
      && this in repr
      && match tree
         case Const(c) => kind.ConstKind? && constant == c && left == null && right == null
         case Var(x) => kind.VarKind? && name == x && left == null && right == null
         case Bin(op, l, r) =>
           && kind == OpKind(op) && left != null && right != null
           && left in repr && right in repr && left.repr <= repr && right.repr <= repr
           && this !in left.repr && this !in right.repr && left.repr !! right.repr
           && left.Valid() && right.Valid() && left.tree == l && right.tree == r
    }

    /** `rx_new_const`. */
    constructor Constant(value: word)
      ensures Valid() && fresh(repr) && tree == Const(value)
    {
      kind, constant, name, left, right := ConstKind, value, "", null, null;
      repr, tree := {this}, Const(value);
    }

    /** `rx_new_var`. */
    constructor Variable(name: string)
      ensures Valid() && fresh(repr) && tree == Var(name)
    {
      this.kind, constant, this.name, left, right := VarKind, 0, name, null, null;
      repr, tree := {this}, Var(name);
    }

    /** `rx_new_expr`, taking over both operands. */
    constructor Binary(op: Op, l: Node, r: Node)
      requires l.Valid() && r.Valid() && l.repr !! r.repr
      ensures Valid() && fresh(repr - l.repr - r.repr) && tree == Bin(op, l.tree, r.tree)
    {
      kind, constant, name, left, right := OpKind(op), 0, "", l, r;
      repr, tree := {this} + l.repr + r.repr, Bin(op, l.tree, r.tree);
    }

    /** `rx_clone_expr`: the same tree on nodes of its own. */
    method Clone() returns (copy: Node)
      requires Valid()
      ensures copy.Valid() && fresh(copy.repr) && copy.tree == tree
      decreases repr
    {
      if kind.ConstKind? {
        copy := new Node.Constant(constant);
      } else if kind.VarKind? {
        copy := new Node.Variable(name);
      } else {
        var l := left.Clone();
        var r := right.Clone();
        copy := new Node.Binary(kind.op, l, r);
      }
    }

    /** A node and its operands, as kinds and as trees. */
    lemma Shape()
      requires Valid()
      ensures kind.ConstKind? == tree.Const? && kind.OpKind? == tree.Bin?
      ensures kind.ConstKind? ==> tree == Const(constant)
      ensures kind.OpKind? ==>
                && left != null && right != null && left.Valid() && right.Valid() && left.repr !! right.repr
                && this !in left.repr && this !in right.repr && left.repr <= repr && right.repr <= repr
                && tree == Bin(kind.op, left.tree, right.tree)
    {
    }

    /** `expr->left = l; expr->right = r`. */
    method Attach(l: Node, r: Node)
      requires kind.OpKind? && l.Valid() && r.Valid() && l.repr !! r.repr && this !in l.repr && this !in r.repr
      modifies this
      ensures Valid() && tree == Bin(old(kind).op, l.tree, r.tree) && repr == {this} + l.repr + r.repr
    {
      left, right := l, r;
      tree, repr := Bin(kind.op, l.tree, r.tree), {this} + l.repr + r.repr;
    }

    /** The constant merge, with the inner constant as it stands. */
    method Merge() returns (result: Node)
      requires Valid() && tree.Bin? && Mergeable(tree.op, tree.left, tree.right)
      modifies this
      ensures result.Valid() && fresh(result.repr - old(repr))
      ensures old(tree).Bin? && Mergeable(old(tree).op, old(tree).left, old(tree).right)
      ensures result.tree ==
              WithOffset(old(tree).left.left, Offset(false, old(tree).op, old(tree).left, old(tree).right))
    {
      Shape();
      left.Shape();
      right.Shape();
      left.right.Shape();
      var offset := left.right.constant;
      offset := Plus(offset, if kind.op.Add? then right.constant else Negate(right.constant));
      var base := left.left;
      if offset == 0 {
        return base;
      }
      var constantNode := new Node.Constant(if offset >= 0 then offset else Negate(offset));
      kind := OpKind(if offset >= 0 then Add else Sub);
      Attach(base, constantNode);
      return this;
    }

    /** One node, its operands already simplified. */
    method Rewrite() returns (result: Node)
      requires Valid() && tree.Bin?
      modifies this
      ensures result.Valid() && fresh(result.repr - old(repr)) && old(tree).Bin?
      ensures result.tree == Exprs.Node(false, old(tree).op, old(tree).left, old(tree).right)
    {
      Shape();
      left.Shape();
      right.Shape();
      var op := kind.op;
      if left.kind.ConstKind? && right.kind.ConstKind? {
        var value := Apply(op, left.constant, right.constant);
        left, right := null, null;
        kind, constant := ConstKind, value;
        tree, repr := Const(value), {this};
        return this;
      }
      if op.Add? || op.Sub? {
        if right.kind.ConstKind? && right.constant == 0 {
          return left;
        }
        if left.kind == OpKind(Add) || left.kind == OpKind(Sub) {
          left.right.Shape();
          if left.right.kind.ConstKind? && right.kind.ConstKind? {
            result := Merge();
            return;
          }
        }
      }
      if op.Mul? && right.kind.ConstKind? && right.constant == 1 {
        return left;
      }
      if op.Div? && right.kind.ConstKind? && right.constant == 1 {
        return left;
      }
      return this;
    }

    method SimplifyOperands()
      requires Valid() && tree.Bin?
      modifies repr
      ensures Valid() && fresh(repr - old(repr)) && old(tree).Bin?
      ensures tree == Bin(old(tree).op, Simplify(false, old(tree).left), Simplify(false, old(tree).right))
      decreases repr, 0
    {
      Shape();
      ghost var op, lefts, rights := kind.op, left.repr, right.repr;
      assert this !in lefts && right in rights && right !in lefts;
      var l := left.SimplifyInPlace();
      assert right.Valid() && right.repr == rights && l.repr !! rights && this !in l.repr;
      var r := right.SimplifyInPlace();
      assert l.Valid() && l.repr !! r.repr && this !in r.repr && kind == OpKind(op);
      Attach(l, r);
    }

    /** `rx_simplify_expr`: rewrites the node in place and returns the node that now
        stands for it. */
    method SimplifyInPlace() returns (result: Node)
      requires Valid()
      modifies repr
      ensures result.Valid() && fresh(result.repr - old(repr))
      ensures result.tree == Simplify(false, old(tree))
      decreases repr, 1
    {
      if !kind.OpKind? {
        return this;
      }
      SimplifyOperands();
      result := Rewrite();
    }
  }
}
