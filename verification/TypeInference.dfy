// The type of an arithmetic tree follows from its leaves alone, and mixing signs is
// reported once per innermost culprit.
module TypeInference {
  import opened Words
  import opened Grammar
  import opened Types
  import opened TypeChecker

  /** Arithmetic operators over leaves of numerical types. */
  predicate NumericTree(n: Node, scope: Scope)
  {
    match n.form
    case Constant(ty) => Numerical(ty) && Builtin(ty)
    case Reference(x) => x in scope && Numerical(scope[x]) && Builtin(scope[x])
    case Operation(op, l, r) =>
      op in {Asterisk, Slash, Percent, Plus, Minus} && NumericTree(l, scope) && NumericTree(r, scope)
    case _ => false
  }

  /** The types of the leaves, from left to right. */
  function Leaves(n: Node, scope: Scope): (r: seq<Type>)
    requires NumericTree(n, scope)
    ensures r != []
  {
    match n.form
    case Constant(ty) => [ty]
    case Reference(x) => [scope[x]]
    case Operation(_, l, r) => Leaves(l, scope) + Leaves(r, scope)
  }

  predicate SomeOfKind(leaves: seq<Type>, k: Kind) { exists t :: t in leaves && t.Basic? && t.kind == k }

  /** An operator that joins a signed and an unsigned integer tree. */
  predicate Clash(l: Node, r: Node, scope: Scope)
    requires NumericTree(l, scope) && NumericTree(r, scope)
  {
    var a, b := Leaves(l, scope), Leaves(r, scope);
    && !SomeOfKind(a, Floating) && !SomeOfKind(b, Floating)
    && ((SomeOfKind(a, SignedInteger) && SomeOfKind(b, UnsignedInteger))
        || (SomeOfKind(a, UnsignedInteger) && SomeOfKind(b, SignedInteger)))
  }

  predicate HasClash(n: Node, scope: Scope)
    requires NumericTree(n, scope)
  {
    n.form.Operation? && (HasClash(n.form.lhs, scope) || HasClash(n.form.rhs, scope) ||
                          Clash(n.form.lhs, n.form.rhs, scope))
  }

  /** The clashing operators with no clash below them. */
  function InnermostClashes(n: Node, scope: Scope): nat
    requires NumericTree(n, scope)
  {
    if !n.form.Operation? then 0
    else if HasClash(n.form.lhs, scope) || HasClash(n.form.rhs, scope) then
      InnermostClashes(n.form.lhs, scope) + InnermostClashes(n.form.rhs, scope)
    else if Clash(n.form.lhs, n.form.rhs, scope) then 1
    else 0
  }

  /** Floating point if any leaf is, otherwise the kind of all leaves; as large as the
      largest leaf. */
  predicate TypeOfLeaves(ty: Type, leaves: seq<Type>)
  {
    && ty.Basic? && Builtin(ty) && Numerical(ty)
    && (forall t :: t in leaves ==> t.Basic? && t.size <= ty.size)
    && (exists t :: t in leaves && t.Basic? && t.size == ty.size)
    && SomeOfKind(leaves, ty.kind)
    && (if SomeOfKind(leaves, Floating) then ty.kind == Floating
        else forall t :: t in leaves ==> t.Basic? && t.kind == ty.kind)
  }

  lemma {:induction false} LeavesOfOperation(a: seq<Type>, b: seq<Type>, k: Kind)
    ensures SomeOfKind(a + b, k) <==> SomeOfKind(a, k) || SomeOfKind(b, k)
  {
    if SomeOfKind(a, k) {
      var t :| t in a && t.Basic? && t.kind == k;
      assert t in a + b;
    }
    if SomeOfKind(b, k) {
      var t :| t in b && t.Basic? && t.kind == k;
      assert t in a + b;
    }
  }

  /** The common type of two trees of types x and y. */
  function Common(x: Type, y: Type): Type
    requires x.Basic? && y.Basic?
  {
    Basic(if x.kind == Floating || y.kind == Floating then Floating else x.kind, Larger(x.size, y.size))
  }

  lemma {:induction false} CommonIsOfLeaves(x: Type, y: Type, a: seq<Type>, b: seq<Type>)
    requires TypeOfLeaves(x, a) && TypeOfLeaves(y, b) && (x.kind == y.kind || x.kind == Floating || y.kind == Floating)
    ensures TypeOfLeaves(Common(x, y), a + b)
  {
    LeavesOfOperation(a, b, Floating);
    LeavesOfOperation(a, b, Common(x, y).kind);
    var big := if x.size >= y.size then a else b;
    var t :| t in big && t.Basic? && t.size == Larger(x.size, y.size);
    assert t in a + b;
  }

  /** Kinds decide a clash of trees whose types follow from their leaves. */
  lemma {:induction false} ClashByKind(x: Type, y: Type, l: Node, r: Node, scope: Scope)
    requires NumericTree(l, scope) && NumericTree(r, scope)
    requires TypeOfLeaves(x, Leaves(l, scope)) && TypeOfLeaves(y, Leaves(r, scope))
    ensures Clash(l, r, scope) <==> OppositeSigns(x, y)
  {}

  lemma {:induction false} LeafType(ty: Type)
    requires Numerical(ty) && Builtin(ty)
    ensures TypeOfLeaves(ty, [ty])
  {
    assert ty in [ty];
  }

  lemma {:induction false} CoercionOfNumbers(op: Operator, l: Node, r: Node)
    requires CategoryOf(op) == Arithmetic && l.inferred.Some? && r.inferred.Some?
    requires Numerical(l.inferred.value) && Builtin(l.inferred.value) && Numerical(r.inferred.value) &&
             Builtin(r.inferred.value)
    ensures var c, x, y := CheckOperator(op, l, r), l.inferred.value, r.inferred.value;
            && c.Checked?
            && (OppositeSigns(x, y) ==> c.errors == 1 && Poisoned(c.node))
            && (!OppositeSigns(x, y) ==> c.errors == 0 && c.node.inferred == Some(Common(x, y)))
  {}

  /** One error per innermost clash; a tree with a clash is poisoned, any other has the type
      of its leaves. Since this holds of every subtree, exactly the clashing operators and
      everything above them are poisoned. */
  lemma {:induction false} ArithmeticTypesFollowLeaves(n: Node, scope: Scope)
    requires NumericTree(n, scope)
    ensures var c := Check(n, scope);
            && c.Checked?
            && c.errors == InnermostClashes(n, scope)
            && (HasClash(n, scope) ==> Poisoned(c.node))
            && (!HasClash(n, scope) ==> TypeOfLeaves(c.node.inferred.value, Leaves(n, scope)))
    decreases n
  {
    hide CheckOperator, TypeOfLeaves, Clash, Builtin;
    match n.form
    case Constant(ty) => LeafType(ty);
    case Reference(x) => LeafType(scope[x]);
    case Operation(op, l, r) =>
      ArithmeticTypesFollowLeaves(l, scope);
      ArithmeticTypesFollowLeaves(r, scope);
      if !HasClash(l, scope) && !HasClash(r, scope) {
        var l', r' := Check(l, scope).node, Check(r, scope).node;
        OperationTypesFollowLeaves(op, l, r, l', r', scope);
      }
  }

  lemma {:induction false} OperationTypesFollowLeaves(op: Operator, l: Node, r: Node, l': Node, r': Node, scope: Scope)
    requires CategoryOf(op) == Arithmetic && NumericTree(l, scope) && NumericTree(r, scope)
    requires l'.inferred.Some? && r'.inferred.Some?
    requires TypeOfLeaves(l'.inferred.value, Leaves(l, scope)) && TypeOfLeaves(r'.inferred.value, Leaves(r, scope))
    ensures !Poisoned(l') && !Poisoned(r')
    ensures var c := CheckOperator(op, l', r');
            && c.Checked?
            && (Clash(l, r, scope) ==> c.errors == 1 && Poisoned(c.node))
            && (!Clash(l, r, scope) ==>
                  && c.errors == 0 && c.node.inferred.Some?
                  && TypeOfLeaves(c.node.inferred.value, Leaves(l, scope) + Leaves(r, scope)))
  {
    hide CheckOperator, Clash;
    var x, y := l'.inferred.value, r'.inferred.value;
    ClashByKind(x, y, l, r, scope);
    CoercionOfNumbers(op, l', r');
    if !OppositeSigns(x, y) {
      CommonIsOfLeaves(x, y, Leaves(l, scope), Leaves(r, scope));
    }
  }

  /** The same leaves in any order and any number give the same type. */
  lemma {:induction false} LeavesDetermineType(x: Type, y: Type, a: seq<Type>, b: seq<Type>)
    requires TypeOfLeaves(x, a) && TypeOfLeaves(y, b) && (forall t :: t in a <==> t in b)
    ensures x == y
  {
    var s :| s in a && s.Basic? && s.size == x.size;
    var t :| t in b && t.Basic? && t.size == y.size;
    assert s in b && t in a;
    var k :| k in a && k.Basic? && k.kind == x.kind;
    assert k in b;
    var m :| m in b && m.Basic? && m.kind == y.kind;
    assert m in a;
  }

  lemma {:induction false} ShapeDoesNotMatter(n: Node, m: Node, scope: Scope)
    requires NumericTree(n, scope) && NumericTree(m, scope) && !HasClash(n, scope) && !HasClash(m, scope)
    requires forall t :: t in Leaves(n, scope) <==> t in Leaves(m, scope)
    ensures Check(n, scope).Checked? && Check(m, scope).Checked?
    ensures Check(n, scope).node.inferred == Check(m, scope).node.inferred
  {
    hide TypeOfLeaves, Check, Leaves, HasClash;
    ArithmeticTypesFollowLeaves(n, scope);
    ArithmeticTypesFollowLeaves(m, scope);
    LeavesDetermineType(Check(n, scope).node.inferred.value, Check(m, scope).node.inferred.value,
                        Leaves(n, scope), Leaves(m, scope));
  }

  /** So an arithmetic tree is rejected exactly if it has a clash. */
  lemma {:induction false} ClashesAreCounted(n: Node, scope: Scope)
    requires NumericTree(n, scope)
    ensures HasClash(n, scope) <==> InnermostClashes(n, scope) > 0
  {
    if n.form.Operation? {
      ClashesAreCounted(n.form.lhs, scope);
      ClashesAreCounted(n.form.rhs, scope);
    }
  }
}
