// The checker as the original runs it: nodes on the heap whose inferred types are set in
// place and whose operand pointers are redirected to new conversion nodes.
module NodeTree {
  import opened Words
  import opened Grammar
  import opened Types
  import opened TypeChecker

  datatype Label =
    | IsConstant(ty: Type) | IsReference(name: string) | IsOperation(op: Operator)
    | IsInvocation | IsArgument | IsConversion

  /** A node. Operators have their operands in `first` and `second`, conversions what they
      convert in `first`. A call has its callee in `first` and in `second` the chain of its
      arguments: cells with an argument in `first` and the next cell, if any, in `second`. */
  class TreeNode {
    var tag: Label
    var first: TreeNode?
    var second: TreeNode?
    var inferredType: Option<Type>
    ghost var Repr: set<TreeNode>

    /** A tree without sharing: the operands own disjoint parts of the heap. */
    ghost predicate Valid()
      reads this, Repr
      decreases Repr
    {
      && this in Repr
      && (first != null ==> first in Repr && first.Repr < Repr && this !in first.Repr && first.Valid())
      && (second != null ==> second in Repr && second.Repr < Repr && this !in second.Repr && second.Valid())
      && (first != null && second != null ==> first.Repr !! second.Repr)
      && (!tag.IsConstant? && !tag.IsReference? ==> first != null && !first.tag.IsArgument?)
      && (tag.IsOperation? ==> second != null && !second.tag.IsArgument?)
      && (tag.IsInvocation? || tag.IsArgument? ==> second == null || second.tag.IsArgument?)
    }

    ghost predicate IsTree()
      reads this, Repr
    {
      Valid() && !tag.IsArgument?
    }

    /** The tree this node is the root of. */
    ghost function Tree(): (t: Node)
      requires IsTree()
      ensures t.inferred == inferredType
      reads this, Repr
      decreases Repr
    {
      match tag
      case IsConstant(ty) => Node(Form.Constant(ty), inferredType)
      case IsReference(x) => Node(Reference(x), inferredType)
      case IsOperation(op) => Node(Operation(op, first.Tree(), second.Tree()), inferredType)
      case IsInvocation => Node(Invocation(first.Tree(), if second == null then [] else second.Trees()), inferredType)
      case IsConversion => Node(Conversion(first.Tree()), inferredType)
    }

    /** The trees of the arguments from this cell on. */
    ghost function Trees(): (ts: seq<Node>)
      requires Valid() && tag.IsArgument?
      ensures ts != []
      reads this, Repr
      decreases Repr
    {
      [first.Tree()] + if second == null then [] else second.Trees()
    }

    constructor Cast(expression: TreeNode, ty: Type)
      requires expression.IsTree()
      ensures IsTree() && fresh(this) && Repr == {this} + expression.Repr
      ensures Tree() == Node(Conversion(expression.Tree()), Some(ty))
    {
      tag, first, second, inferredType := IsConversion, expression, null, Some(ty);
      Repr := {this} + expression.Repr;
    }
  }

  class Checker {
    var errors: nat

    constructor ()
      ensures errors == 0
    {
      errors := 0;
    }

    /** The node to use instead: itself, or a new conversion of it. */
    method DoImplicitCastIfNecessary(node: TreeNode, ty: Type) returns (result: TreeNode, ok: bool)
      requires node.IsTree() && node.Tree().inferred.Some?
      modifies this
      ensures node.IsTree() && node.Tree() == old(node.Tree()) && node.Repr == old(node.Repr)
      ensures ok == ImplicitCast(node.Tree(), ty).Some?
      ensures ok ==>
                && errors == old(errors) && Stands(result, node)
                && result.Tree() == ImplicitCast(node.Tree(), ty).value
      ensures !ok ==> errors == old(errors) + 1
      ensures fresh(result.Repr - old(node.Repr))
    {
      var have := node.inferredType.value;
      result, ok := node, have == ty;
      if !ok {
        if Numerical(have) && Numerical(ty) {
          result := new TreeNode.Cast(node, ty);
          ok := true;
        } else {
          errors := errors + 1;
        }
      }
    }

    /** Redirecting both operand pointers and setting the inferred type. */
    method Settle(bin: TreeNode, op: Operator, l: TreeNode, r: TreeNode, ty: Type)
      requires bin.tag == IsOperation(op) && l.IsTree() && r.IsTree() && l.Repr !! r.Repr && bin !in l.Repr &&
               bin !in r.Repr
      modifies bin
      ensures bin.IsTree() && bin.Tree() == Typed(op, l.Tree(), r.Tree(), ty)
      ensures bin.Repr == {bin} + l.Repr + r.Repr && bin.tag == old(bin.tag)
      ensures l.Tree() == old(l.Tree()) && r.Tree() == old(r.Tree())
    {
      bin.first, bin.second, bin.inferredType := l, r, Some(ty);
      bin.Repr := {bin} + l.Repr + r.Repr;
    }

    /** Both operands brought to one type, or one error. */
    method CastBoth(l: TreeNode, r: TreeNode, ty: Type) returns (l': TreeNode, r': TreeNode, ok: bool)
      requires l.IsTree() && r.IsTree() && l.Repr !! r.Repr && l.Tree().inferred.Some? && r.Tree().inferred.Some?
      modifies this
      ensures l'.IsTree() && r'.IsTree() && l'.Repr !! r'.Repr && fresh(l'.Repr + r'.Repr - old(l.Repr) - old(r.Repr))
      ensures ok == (ImplicitCast(old(l.Tree()), ty).Some? && ImplicitCast(old(r.Tree()), ty).Some?)
      ensures ok ==> l'.Tree() == ImplicitCast(old(l.Tree()), ty).value
      ensures ok ==> r'.Tree() == ImplicitCast(old(r.Tree()), ty).value
      ensures !ok ==> r'.Tree() == old(r.Tree())
      ensures !ok && ImplicitCast(old(l.Tree()), ty).Some? ==> l'.Tree() == ImplicitCast(old(l.Tree()), ty).value
      ensures !ok && ImplicitCast(old(l.Tree()), ty).None? ==> l'.Tree() == old(l.Tree())
      ensures errors == old(errors) + (if ok then 0 else 1)
    {
      hide TreeNode.Tree, TreeNode.Valid, ImplicitCast;
      l', ok := DoImplicitCastIfNecessary(l, ty);
      if !ok {
        return l, r, false;
      }
      r', ok := DoImplicitCastIfNecessary(r, ty);
      if !ok {
        r' := r;
      }
    }

    /** The checked form of a binary operator whose operands are checked and not poisoned.
        Where the original would use a null type it gives up. */
    method CheckCoercedOperator(bin: TreeNode, op: Operator, onError: Type, onSuccess: Option<Type>)
      returns (crashed: bool)
      requires OperandsTyped(bin, op)
      modifies this, bin
      ensures Settled(bin, crashed, errors, old(errors),
                      CheckCoerced(op, old(bin.first.Tree()), old(bin.second.Tree()), onError, onSuccess))
      ensures !crashed ==> fresh(bin.Repr - old(bin.Repr))
    {
      hide TreeNode.Tree, ImplicitCast, Builtin, OppositeSigns, Larger;
      var l, r := bin.first, bin.second;
      var a, b := l.inferredType.value, r.inferredType.value;
      if !Coercible(a) || !Coercible(b) || OppositeSigns(a, b) {
        errors := errors + 1;
        Settle(bin, op, l, r, onError);
        return false;
      }
      var ty := Basic(if a.kind == Floating || b.kind == Floating then Floating else a.kind, Larger(a.size, b.size));
      if !Builtin(ty) {
        return true;
      }
      var l', r', ok := CastBoth(l, r, ty);
      Settle(bin, op, l', r', if !ok then onError else if onSuccess.Some? then onSuccess.value else ty);
      crashed := false;
    }

    method CheckBitwise(bin: TreeNode, op: Operator)
      requires OperandsTyped(bin, op) && CategoryOf(op) == Bitwise
      modifies this, bin
      ensures Settled(bin, false, errors, old(errors), CheckOperator(op, old(bin.first.Tree()), old(bin.second.Tree())))
      ensures fresh(bin.Repr - old(bin.Repr))
    {
      hide TreeNode.Tree;
      var l, r := bin.first, bin.second;
      var a, b := l.inferredType.value, r.inferredType.value;
      if !Unsigneds(a, b) {
        errors := errors + 1;
        Settle(bin, op, l, r, POISON);
        return;
      }
      var ty := Basic(UnsignedInteger, Larger(a.size, b.size));
      var l', _ := DoImplicitCastIfNecessary(l, ty);
      var r', _ := DoImplicitCastIfNecessary(r, ty);
      Settle(bin, op, l', r', ty);
    }

    method CheckAssignment(bin: TreeNode, op: Operator)
      requires OperandsTyped(bin, op) && CategoryOf(op) == Assignment
      modifies this, bin
      ensures Settled(bin, false, errors, old(errors), CheckOperator(op, old(bin.first.Tree()), old(bin.second.Tree())))
      ensures fresh(bin.Repr - old(bin.Repr))
    {
      hide TreeNode.Tree, ImplicitCast;
      var l, r := bin.first, bin.second;
      var r', ok := DoImplicitCastIfNecessary(r, l.inferredType.value);
      if !ok {
        errors := errors + 1;
        r' := r;
      }
      Settle(bin, op, l, r', VOID);
    }

    method CheckShortCircuit(bin: TreeNode, op: Operator)
      requires OperandsTyped(bin, op) && CategoryOf(op) == ShortCircuit
      modifies this, bin
      ensures Settled(bin, false, errors, old(errors), CheckOperator(op, old(bin.first.Tree()), old(bin.second.Tree())))
      ensures fresh(bin.Repr - old(bin.Repr))
    {
      hide TreeNode.Tree;
      var l, r := bin.first, bin.second;
      var a, b := l.inferredType.value, r.inferredType.value;
      if !(a.Basic? && b.Basic? && a.kind == Boolean && b.kind == Boolean) {
        errors := errors + 1;
      }
      Settle(bin, op, l, r, BOOLEAN);
    }

    method CheckBinary(bin: TreeNode, op: Operator) returns (crashed: bool)
      requires OperandsTyped(bin, op)
      modifies this, bin
      ensures Settled(bin, crashed, errors, old(errors),
                      CheckOperator(op, old(bin.first.Tree()), old(bin.second.Tree())))
      ensures !crashed ==> fresh(bin.Repr - old(bin.Repr))
    {
      hide TreeNode.Tree, TreeNode.Valid, CheckCoerced;
      match CategoryOf(op)
      case Arithmetic =>
        crashed := CheckCoercedOperator(bin, op, POISON, None);
      case Comparison =>
        crashed := CheckCoercedOperator(bin, op, BOOLEAN, Some(BOOLEAN));
      case Bitwise =>
        CheckBitwise(bin, op);
        crashed := false;
      case ShortCircuit =>
        CheckShortCircuit(bin, op);
        crashed := false;
      case Assignment =>
        CheckAssignment(bin, op);
        crashed := false;
    }

    /** After the operands are checked, and may have grown, the node owns both again. */
    method CheckOperands(n: TreeNode, op: Operator, scope: Scope) returns (crashed: bool)
      requires n.IsTree() && n.tag == IsOperation(op)
      modifies this, n.Repr
      ensures match Check(old(n.first.Tree()), scope)
              case Crashed => crashed
              case Checked(l, more) =>
                match Check(old(n.second.Tree()), scope)
                case Crashed => crashed
                case Checked(r, evenMore) =>
                  && !crashed && OperandsTyped(n, op) && fresh(n.Repr - old(n.Repr))
                  && n.first.Tree() == l && n.second.Tree() == r && errors == old(errors) + more + evenMore
      decreases n.Repr, 0
    {
      hide TreeNode.Tree, Check;
      var l, r := n.first, n.second;
      assert r.IsTree() && l.Repr !! r.Repr && r.Repr < n.Repr && n !in l.Repr + r.Repr;
      crashed := Typecheck(l, scope);
      if crashed {
        return;
      }
      crashed := Typecheck(r, scope);
      if crashed {
        return;
      }
      n.Repr := {n} + l.Repr + r.Repr;
    }

    /** Checking in place gives the node the tree, and the checker the errors, that the
        functional checker computes. */
    method Typecheck(n: TreeNode, scope: Scope) returns (crashed: bool)
      requires n.IsTree()
      modifies this, n.Repr
      ensures Settled(n, crashed, errors, old(errors), Check(old(n.Tree()), scope))
      ensures !crashed ==> fresh(n.Repr - old(n.Repr))
      decreases n.Repr, 1
    {
      hide CheckOperator;
      match n.tag
      case IsConstant(ty) =>
        n.inferredType := Some(ty);
        crashed := false;
      case IsReference(x) =>
        if x in scope {
          n.inferredType := Some(scope[x]);
        } else {
          errors := errors + 1;
          n.inferredType := Some(POISON);
        }
        crashed := false;
      case IsOperation(op) =>
        crashed := CheckOperands(n, op, scope);
        if !crashed {
          if n.first.inferredType == Some(POISON) || n.second.inferredType == Some(POISON) {
            Settle(n, op, n.first, n.second, POISON);
          } else {
            crashed := CheckBinary(n, op);
          }
        }
      case IsInvocation =>
        crashed := CheckCall(n, scope);
      case IsConversion =>
        crashed := true;
    }

    /** A call: the callee, and the arguments if the callee takes that many. */
    method CheckCall(n: TreeNode, scope: Scope) returns (crashed: bool)
      requires n.IsTree() && n.tag.IsInvocation?
      modifies this, n.Repr
      ensures Settled(n, crashed, errors, old(errors), Check(old(n.Tree()), scope))
      ensures !crashed ==> fresh(n.Repr - old(n.Repr))
      decreases n.Repr, 0
    {
      hide TreeNode.Valid, TreeNode.Tree, TreeNode.Trees, CheckInvocation, Check;
      CallParts(n);
      var callee, cells := n.first, n.second;
      ghost var whole, before := n.Tree(), errors;
      CheckOfCall(whole, scope);
      crashed := Typecheck(callee, scope);
      if crashed {
        return;
      }
      InItself(callee);
      assert cells != null ==> cells.Valid() && cells.Trees() == old(cells.Trees()) && callee.Repr !! cells.Repr;
      crashed := CheckApplication(n, callee, cells, scope, whole, before, errors - before);
    }

    /** A call whose callee is checked, with `more` errors since there were `before`. */
    method CheckApplication(n: TreeNode, callee: TreeNode, cells: TreeNode?, scope: Scope,
                            ghost whole: Node, ghost before: nat, ghost more: nat) returns (crashed: bool)
      requires n.tag.IsInvocation? && n.first == callee && n.second == cells
      requires callee.IsTree() && n !in callee.Repr && callee.Tree().inferred.Some?
      requires cells != null ==> IsChain(cells) && n !in cells.Repr && callee.Repr !! cells.Repr
      requires whole.form.Invocation? && whole.form.arguments == ChainTrees(cells) && errors == before + more
      modifies this, n`Repr, n`inferredType, if cells == null then {} else cells.Repr
      ensures Settled(n, crashed, errors, before,
                      CheckInvocation(old(callee.Tree()), more, whole.form.arguments, scope, whole))
      ensures !crashed ==> fresh(n.Repr - {n} - old(callee.Repr) - old(if cells == null then {} else cells.Repr))
      decreases if cells == null then {} else cells.Repr, 1
    {
      hide TreeNode.Valid, TreeNode.Tree, TreeNode.Trees, CheckArguments, CheckInvocation;
      InItself(callee);
      if cells != null {
        InItself(cells);
      }
      InvocationCases(callee.Tree(), more, whole.form.arguments, scope, whole);
      var s := callee.inferredType.value;
      var count := CountCells(cells);
      if s == POISON || !s.Signature? {
        if s != POISON {
          errors := errors + 1;
        }
        SettleCall(n, callee, cells, POISON);
        crashed := false;
      } else if !RightCount(s, count) {
        errors := errors + 1;
        SettleCall(n, callee, cells, s.result);
        crashed := false;
      } else if cells == null {
        SettleCall(n, callee, cells, s.result);
        crashed := false;
      } else {
        crashed := CheckArgumentCells(cells, s.parameters, scope);
        if crashed {
          return;
        }
        assert callee.Repr == old(callee.Repr) && callee.Tree() == old(callee.Tree());
        assert n !in cells.Repr && callee.Repr !! cells.Repr;
        InItself(cells);
        SettleCall(n, callee, cells, s.result);
      }
    }

    method CountCells(cells: TreeNode?) returns (count: nat)
      requires cells != null ==> IsChain(cells)
      ensures count == |ChainTrees(cells)|
      decreases if cells == null then {} else cells.Repr
    {
      count := 0;
      var at := cells;
      while at != null
        invariant at != null ==> at.Valid() && at.tag.IsArgument?
        invariant count + |ChainTrees(at)| == |ChainTrees(cells)|
        decreases if at == null then {} else at.Repr
      {
        count := count + 1;
        at := at.second;
      }
    }

    /** The call owns its callee and its arguments again, and has a type. */
    method SettleCall(n: TreeNode, callee: TreeNode, cells: TreeNode?, ty: Type)
      requires n.tag.IsInvocation? && n.first == callee && n.second == cells && callee.IsTree() && n !in callee.Repr
      requires cells != null ==> cells.Valid() && cells.tag.IsArgument? && n !in cells.Repr && callee.Repr !! cells.Repr
      modifies n`Repr, n`inferredType
      ensures n.IsTree()
      ensures n.Tree() == Node(Invocation(old(callee.Tree()), old(ChainTrees(cells))), Some(ty))
      ensures n.Repr == {n} + callee.Repr + if cells == null then {} else cells.Repr
    {
      n.inferredType := Some(ty);
      n.Repr := {n} + callee.Repr + if cells == null then {} else cells.Repr;
      assert callee.IsTree() && callee.Tree() == old(callee.Tree());
      assert cells != null ==> cells.Valid() && cells.Trees() == old(cells.Trees());
    }

    /** The arguments from a cell on, one after the other. */
    method CheckArgumentCells(cell: TreeNode, parameters: seq<Type>, scope: Scope) returns (crashed: bool)
      requires cell.Valid() && cell.tag.IsArgument?
      modifies this, cell.Repr
      ensures ArgumentsSettled(cell, crashed, errors, old(errors), CheckArguments(old(cell.Trees()), parameters, scope))
      ensures !crashed ==> fresh(cell.Repr - old(cell.Repr))
      decreases cell.Repr, 0
    {
      hide TreeNode.Valid, TreeNode.Tree, TreeNode.Trees, Check, CheckArguments;
      CellParts(cell);
      var argument, next := cell.first, cell.second;
      ArgumentsStep(argument.Tree(), if next == null then [] else next.Trees(), parameters, scope);
      crashed := CheckOneArgument(argument, parameters, scope);
      if crashed {
        return;
      }
      if next != null {
        assert argument.Repr !! next.Repr && next.Repr == old(next.Repr) && cell !in argument.Repr + next.Repr;
        InItself(argument);
        label Argument:
        crashed := CheckArgumentCells(next, if parameters == [] then [] else parameters[1..], scope);
        if crashed {
          return;
        }
        assert argument.Repr == old@Argument(argument.Repr) && argument.IsTree() && cell !in next.Repr;
      }
      Regroup(cell, argument, next);
    }

    /** The cell owns its argument and the rest of the chain again. */
    method Regroup(cell: TreeNode, argument: TreeNode, next: TreeNode?)
      requires cell.tag.IsArgument? && cell.first == argument && cell.second == next
      requires argument.IsTree() && cell !in argument.Repr
      requires next != null ==> next.Valid() && next.tag.IsArgument? && cell !in next.Repr && argument.Repr !! next.Repr
      modifies cell`Repr
      ensures cell.Valid() && cell.Trees() == [argument.Tree()] + if next == null then [] else next.Trees()
      ensures cell.Repr == {cell} + argument.Repr + if next == null then {} else next.Repr
      ensures argument.IsTree() && argument.Tree() == old(argument.Tree())
      ensures next != null ==> next.Valid() && next.Trees() == old(next.Trees())
    {
      cell.Repr := {cell} + argument.Repr + if next == null then {} else next.Repr;
    }

    method CheckOneArgument(argument: TreeNode, parameters: seq<Type>, scope: Scope) returns (crashed: bool)
      requires argument.IsTree()
      modifies this, argument.Repr
      ensures match Check(old(argument.Tree()), scope)
              case Crashed => crashed
              case Checked(t, more) =>
                && !crashed && argument.IsTree() && argument.Tree() == t && fresh(argument.Repr - old(argument.Repr))
                && errors == old(errors) + more + (if Mismatch(t, parameters) then 1 else 0)
      decreases argument.Repr, 2
    {
      hide TreeNode.Tree, TreeNode.Valid, Check;
      crashed := Typecheck(argument, scope);
      if !crashed && argument.inferredType != Some(POISON) && parameters != [] &&
        argument.inferredType != Some(parameters[0]) {
        errors := errors + 1;
      }
    }
  }

  ghost predicate OperandsTyped(bin: TreeNode, op: Operator)
    reads bin, bin.Repr
  {
    && bin.IsTree() && bin.tag == IsOperation(op)
    && bin.first.Tree().inferred.Some? && bin.second.Tree().inferred.Some?
  }

  /** The node and the error count are what the functional checker says. */
  ghost predicate Settled(bin: TreeNode, crashed: bool, after: nat, before: nat, spec: Checked)
    reads bin, bin.Repr
  {
    match spec
    case Crashed => crashed
    case Checked(t, more) => !crashed && bin.IsTree() && bin.Tree() == t && after == before + more
  }

  /** A node that may replace another as an operand. */
  ghost predicate Stands(result: TreeNode, node: TreeNode)
    reads result, result.Repr, node
  {
    result.IsTree() && node.Repr <= result.Repr
  }

  /** The cells and the error count are what the functional checker says. */
  ghost predicate ArgumentsSettled(cell: TreeNode, crashed: bool, after: nat, before: nat, spec: CheckedArguments)
    reads cell, cell.Repr
  {
    match spec
    case CrashedArguments => crashed
    case CheckedArguments(ts, more) =>
      !crashed && cell.Valid() && cell.tag.IsArgument? && cell.Trees() == ts && after == before + more
  }

  predicate Mismatch(t: Node, parameters: seq<Type>)
  {
    !Poisoned(t) && parameters != [] && t.inferred != Some(parameters[0])
  }

  lemma ArgumentsStep(first: Node, rest: seq<Node>, parameters: seq<Type>, scope: Scope)
    ensures var parameters' := if parameters == [] then [] else parameters[1..];
            CheckArguments([first] + rest, parameters, scope) ==
            match Check(first, scope)
            case Crashed => CrashedArguments
            case Checked(t, errors) =>
              match CheckArguments(rest, parameters', scope)
              case CrashedArguments => CrashedArguments
              case CheckedArguments(ts, more) =>
                CheckedArguments([t] + ts, errors + (if Mismatch(t, parameters) then 1 else 0) + more)
    ensures rest == [] ==>
              CheckArguments(rest, if parameters == [] then [] else parameters[1..], scope) == CheckedArguments([], 0)
  {
    hide Check;
    assert ([first] + rest)[1..] == rest;
  }

  lemma CellParts(cell: TreeNode)
    requires cell.Valid() && cell.tag.IsArgument?
    ensures cell.first != null && cell.first.IsTree() && cell.first.Repr < cell.Repr && cell !in cell.first.Repr &&
            cell in cell.Repr
    ensures cell.second != null ==>
              && cell.second.Valid() && cell.second.tag.IsArgument? && cell.first.Repr !! cell.second.Repr
              && cell.second.Repr < cell.Repr && cell !in cell.second.Repr
    ensures cell.Trees() == [cell.first.Tree()] + if cell.second == null then [] else cell.second.Trees()
  {}

  ghost predicate IsChain(cells: TreeNode)
    reads cells, cells.Repr
  {
    cells.Valid() && cells.tag.IsArgument?
  }

  lemma InItself(n: TreeNode)
    requires n.Valid()
    ensures n in n.Repr
  {}

  ghost function ChainTrees(cells: TreeNode?): (ts: seq<Node>)
    requires cells != null ==> cells.Valid() && cells.tag.IsArgument?
    reads cells, if cells == null then {} else cells.Repr
  {
    if cells == null then [] else cells.Trees()
  }

  ghost function ArgumentsOf(n: TreeNode): seq<Node>
    requires n.IsTree() && n.tag.IsInvocation?
    reads n, n.Repr
  {
    ChainTrees(n.second)
  }

  lemma CallParts(n: TreeNode)
    requires n.IsTree() && n.tag.IsInvocation?
    ensures n.first != null && n.first.IsTree() && n.first.Repr < n.Repr && n !in n.first.Repr && n in n.Repr
    ensures n.second != null ==>
              && n.second.Valid() && n.second.tag.IsArgument? && n.first.Repr !! n.second.Repr
              && n.second.Repr < n.Repr && n !in n.second.Repr
    ensures n.Tree() == Node(Invocation(n.first.Tree(), ArgumentsOf(n)), n.inferredType)
  {}

  lemma CheckOfCall(n: Node, scope: Scope)
    requires n.form.Invocation?
    ensures Check(n, scope) == match Check(n.form.procedure, scope)
                               case Crashed => Crashed
                               case Checked(p, errors) => CheckInvocation(p, errors, n.form.arguments, scope, n)
  {}

  lemma InvocationCases(p: Node, errors: nat, args: seq<Node>, scope: Scope, n: Node)
    requires p.inferred.Some? && n.form.Invocation? && n.form.arguments == args
    ensures args == [] ==> forall ps :: CheckArguments(args, ps, scope) == CheckedArguments([], 0)
    ensures var s := p.inferred.value;
            CheckInvocation(p, errors, args, scope, n) ==
              if s == POISON then Checked(Node(Invocation(p, args), Some(POISON)), errors)
              else if !s.Signature? then Checked(Node(Invocation(p, args), Some(POISON)), errors + 1)
              else if !RightCount(s, |args|) then Checked(Node(Invocation(p, args), Some(s.result)), errors + 1)
              else match CheckArguments(args, s.parameters, scope)
                case CrashedArguments => Crashed
                case CheckedArguments(args', more) => Checked(Node(Invocation(p, args'), Some(s.result)), errors + more)
  {}
}
