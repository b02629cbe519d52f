// Global procedures are checked, and compiled, when first needed: a depth-first search over
// the call graph that starts again at every declaration of the module.
module OnDemand {
  import opened Words

  /** For every procedure the procedures its body mentions, in order. */
  type Calls = seq<seq<nat>>

  predicate Valid(calls: Calls)
  {
    forall i, k :: 0 <= i < |calls| && 0 <= k < |calls[i]| ==> calls[i][k] < |calls|
  }

  predicate Known(calls: Calls, todo: seq<nat>)
  {
    forall k :: 0 <= k < |todo| ==> todo[k] < |calls|
  }

  /** Procedures that have no type yet. */
  function Untouched(calls: Calls, log: seq<nat>): set<nat>
  {
    set i | 0 <= i < |calls| && i !in log
  }

  predicate Extends(log: seq<nat>, r: seq<nat>)
  {
    |log| <= |r| && r[..|log|] == log
  }

  /** The order in which bodies are entered: `log` so far, then procedure i if it is new,
      then whatever its body needs. */
  function Visit(calls: Calls, i: nat, log: seq<nat>): (r: seq<nat>)
    requires Valid(calls) && i < |calls|
    ensures Extends(log, r) && i in r
    decreases |Untouched(calls, log)|, 0
  {
    if i in log then log else
    assert |Untouched(calls, log + [i])| < |Untouched(calls, log)| by { Shrinks(calls, i, log); }
    var r := VisitAll(calls, calls[i], log + [i]);
    assert Extends(log, r) && i in r by { Chains(log, log + [i], r); }
    r
  }

  function VisitAll(calls: Calls, todo: seq<nat>, log: seq<nat>): (r: seq<nat>)
    requires Valid(calls) && Known(calls, todo)
    ensures Extends(log, r)
    ensures forall c :: c in todo ==> c in r
    decreases |Untouched(calls, log)|, 1, |todo|
  {
    if todo == [] then log else
    var next := Visit(calls, todo[0], log);
    assert |Untouched(calls, next)| <= |Untouched(calls, log)| by { Grows(calls, log, next); }
    var r := VisitAll(calls, todo[1..], next);
    assert Extends(log, r) && (forall x :: x in next ==> x in r) by { Chains(log, next, r); }
    r
  }

  lemma Shrinks(calls: Calls, i: nat, log: seq<nat>)
    requires i < |calls| && i !in log
    ensures Untouched(calls, log + [i]) < Untouched(calls, log)
    ensures |Untouched(calls, log + [i])| < |Untouched(calls, log)|
  {
    assert i in Untouched(calls, log) && i !in Untouched(calls, log + [i]);
    Smaller(Untouched(calls, log + [i]), Untouched(calls, log));
  }

  lemma {:induction false} Smaller(a: set<nat>, b: set<nat>)
    requires a <= b
    ensures |a| <= |b| && (a < b ==> |a| < |b|)
  {
    assert b == a + (b - a);
    assert |b| == |a| + |b - a|;
  }

  lemma Grows(calls: Calls, log: seq<nat>, r: seq<nat>)
    requires Extends(log, r)
    ensures |Untouched(calls, r)| <= |Untouched(calls, log)|
  {
    forall x | x in log ensures x in r {
      assert x in r[..|log|];
    }
    Smaller(Untouched(calls, r), Untouched(calls, log));
  }

  lemma Chains(a: seq<nat>, b: seq<nat>, c: seq<nat>)
    requires Extends(a, b) && Extends(b, c)
    ensures Extends(a, c) && (forall x :: x in b ==> x in c)
  {
    assert c[..|a|] == c[..|b|][..|a|];
    forall x | x in b ensures x in c {
      assert x in c[..|b|];
    }
  }

  // ----- once and completely -----

  predicate Distinct(log: seq<nat>) { forall i, j :: 0 <= i < j < |log| ==> log[i] != log[j] }

  /** No body is ever entered twice, whatever cycles there are. */
  lemma {:induction false} VisitsOnce(calls: Calls, i: nat, log: seq<nat>)
    requires Valid(calls) && i < |calls| && Distinct(log)
    ensures Distinct(Visit(calls, i, log))
    decreases |Untouched(calls, log)|, 0
  {
    if i !in log {
      Shrinks(calls, i, log);
      VisitsAllOnce(calls, calls[i], log + [i]);
    }
  }

  lemma {:induction false} VisitsAllOnce(calls: Calls, todo: seq<nat>, log: seq<nat>)
    requires Valid(calls) && Known(calls, todo) && Distinct(log)
    ensures Distinct(VisitAll(calls, todo, log))
    decreases |Untouched(calls, log)|, 1, |todo|
  {
    if todo != [] {
      VisitsOnce(calls, todo[0], log);
      Grows(calls, log, Visit(calls, todo[0], log));
      VisitsAllOnce(calls, todo[1..], Visit(calls, todo[0], log));
    }
  }

  /** i's body mentions only procedures that have a type. */
  predicate Served(calls: Calls, i: nat, log: seq<nat>)
  {
    i < |calls| ==> forall c :: c in calls[i] ==> c in log
  }

  /** Whatever a visit enters, it finishes: all that the new bodies mention is visited too. */
  lemma {:induction false} VisitServes(calls: Calls, i: nat, log: seq<nat>)
    requires Valid(calls) && i < |calls|
    ensures forall x :: x in Visit(calls, i, log) && x !in log ==> Served(calls, x, Visit(calls, i, log))
    decreases |Untouched(calls, log)|, 0
  {
    if i !in log {
      Shrinks(calls, i, log);
      VisitAllServes(calls, calls[i], log + [i]);
    }
  }

  lemma {:induction false} VisitAllServes(calls: Calls, todo: seq<nat>, log: seq<nat>)
    requires Valid(calls) && Known(calls, todo)
    ensures forall x :: x in VisitAll(calls, todo, log) && x !in log ==> Served(calls, x, VisitAll(calls, todo, log))
    decreases |Untouched(calls, log)|, 1, |todo|
  {
    if todo != [] {
      var next := Visit(calls, todo[0], log);
      VisitServes(calls, todo[0], log);
      Grows(calls, log, next);
      VisitAllServes(calls, todo[1..], next);
      Chains(log, next, VisitAll(calls, todo, log));
    }
  }

  /** x can be reached from i by following mentions. */
  predicate Path(calls: Calls, i: nat, path: seq<nat>, x: nat)
    decreases path
  {
    if path == [] then i == x
    else i < |calls| && path[0] in calls[i] && Path(calls, path[0], path[1..], x)
  }

  lemma {:induction false} ClosedUnderPaths(calls: Calls, i: nat, path: seq<nat>, x: nat, log: seq<nat>)
    requires Path(calls, i, path, x) && i in log && (forall y :: y in log ==> Served(calls, y, log))
    ensures x in log
    decreases path
  {
    if path != [] {
      ClosedUnderPaths(calls, path[0], path[1..], x, log);
    }
  }

  lemma {:induction false} VisitedAreReachable(calls: Calls, i: nat, log: seq<nat>, x: nat) returns (path: seq<nat>)
    requires Valid(calls) && i < |calls| && x in Visit(calls, i, log) && x !in log
    ensures Path(calls, i, path, x)
    decreases |Untouched(calls, log)|, 0
  {
    if x == i {
      return [];
    }
    Shrinks(calls, i, log);
    var c;
    c, path := ReachableFromOne(calls, calls[i], log + [i], x);
    path := [c] + path;
  }

  lemma {:induction false} ReachableFromOne(calls: Calls, todo: seq<nat>, log: seq<nat>, x: nat)
    returns (c: nat, path: seq<nat>)
    requires Valid(calls) && Known(calls, todo) && x in VisitAll(calls, todo, log) && x !in log
    ensures c in todo && Path(calls, c, path, x)
    decreases |Untouched(calls, log)|, 1, |todo|
  {
    var next := Visit(calls, todo[0], log);
    if x in next {
      c := todo[0];
      path := VisitedAreReachable(calls, c, log, x);
    } else {
      Grows(calls, log, next);
      c, path := ReachableFromOne(calls, todo[1..], next, x);
    }
  }

  /** On a fresh module, asking for one procedure visits exactly what it can reach. */
  lemma {:induction false} DemandVisitsReachable(calls: Calls, i: nat, x: nat)
    requires Valid(calls) && i < |calls|
    ensures x in Visit(calls, i, []) <==> exists path :: Path(calls, i, path, x)
  {
    if x in Visit(calls, i, []) {
      var path := VisitedAreReachable(calls, i, [], x);
    }
    if path :| Path(calls, i, path, x) {
      VisitServes(calls, i, []);
      ClosedUnderPaths(calls, i, path, x, Visit(calls, i, []));
      assert exists path :: Path(calls, i, path, x);
    }
  }

  // ----- the module -----

  function Upto(n: nat): (r: seq<nat>)
    ensures |r| == n && forall k :: 0 <= k < n ==> r[k] == k
  {
    if n == 0 then [] else Upto(n - 1) + [n - 1]
  }

  function WholeModule(calls: Calls): seq<nat>
    requires Valid(calls)
  {
    VisitAll(calls, Upto(|calls|), [])
  }

  /** Every procedure of the module is entered exactly once. */
  lemma {:induction false} EveryProcedureOnce(calls: Calls, i: nat)
    requires Valid(calls) && i < |calls|
    ensures i in WholeModule(calls) && Distinct(WholeModule(calls))
  {
    VisitsAllOnce(calls, Upto(|calls|), []);
    assert Upto(|calls|)[i] == i;
  }

  predicate Procedures(calls: Calls, log: seq<nat>)
  {
    forall x :: x in log ==> x < |calls|
  }

  lemma {:induction false} OnlyProcedure(calls: Calls, i: nat, log: seq<nat>)
    requires Valid(calls) && i < |calls| && Procedures(calls, log)
    ensures Procedures(calls, Visit(calls, i, log))
    decreases |Untouched(calls, log)|, 0
  {
    if i !in log {
      Shrinks(calls, i, log);
      OnlyProcedures(calls, calls[i], log + [i]);
    }
  }

  lemma {:induction false} OnlyProcedures(calls: Calls, todo: seq<nat>, log: seq<nat>)
    requires Valid(calls) && Known(calls, todo) && Procedures(calls, log)
    ensures Procedures(calls, VisitAll(calls, todo, log))
    decreases |Untouched(calls, log)|, 1, |todo|
  {
    if todo != [] {
      OnlyProcedure(calls, todo[0], log);
      Grows(calls, log, Visit(calls, todo[0], log));
      OnlyProcedures(calls, todo[1..], Visit(calls, todo[0], log));
    }
  }

  // ----- the checker -----

  /** The state of the type checker that the search touches: which procedures have a type,
      whose body it is in, and in which block it looks names up. Block i is the body of
      procedure i, block |calls| the module's. */
  class DemandChecker {
    const calls: Calls
    var typed: set<nat>
    var entered: seq<nat>
    var currentProcedure: nat
    var currentBlock: nat

    predicate Consistent()
      reads this
    {
      Valid(calls) && typed == set i | i in entered
    }

    constructor (calls: Calls)
      requires Valid(calls)
      ensures Consistent() && this.calls == calls && entered == []
      ensures currentProcedure == currentBlock == |calls|
    {
      this.calls := calls;
      typed, entered, currentProcedure, currentBlock := {}, [], |calls|, |calls|;
    }

    /** The type is set before the body is entered; the caller's procedure and block are
        current again afterwards. */
    method TypecheckDeclaration(i: nat)
      requires Consistent() && i < |calls|
      modifies this
      ensures Consistent() && entered == Visit(calls, i, old(entered))
      ensures currentProcedure == old(currentProcedure) && currentBlock == old(currentBlock)
      decreases |Untouched(calls, entered)|, 0
    {
      if i in typed {
        return;
      }
      var savedProcedure, savedBlock := currentProcedure, currentBlock;
      Shrinks(calls, i, entered);
      typed := typed + {i};
      entered := entered + [i];
      currentProcedure, currentBlock := i, i;
      TypecheckBody(calls[i]);
      currentProcedure, currentBlock := savedProcedure, savedBlock;
    }

    /** A mentioned procedure without a type is checked in the block that declares it. */
    method TypecheckBody(mentions: seq<nat>)
      requires Consistent() && Known(calls, mentions)
      modifies this
      ensures Consistent() && entered == VisitAll(calls, mentions, old(entered))
      ensures currentProcedure == old(currentProcedure) && currentBlock == old(currentBlock)
      decreases |Untouched(calls, entered)|, 1, |mentions|
    {
      ghost var start := entered;
      var k := 0;
      while k < |mentions|
        invariant 0 <= k <= |mentions| && Consistent()
        invariant currentProcedure == old(currentProcedure) && currentBlock == old(currentBlock)
        invariant Extends(start, entered)
        invariant VisitAll(calls, mentions, start) == VisitAll(calls, mentions[k..], entered)
      {
        Grows(calls, start, entered);
        ghost var before := entered;
        if mentions[k] !in typed {
          var saved := currentBlock;
          currentBlock := |calls|;
          TypecheckDeclaration(mentions[k]);
          currentBlock := saved;
        }
        Chains(start, before, entered);
        assert mentions[k..][1..] == mentions[k + 1..];
        k := k + 1;
      }
    }

    method TypecheckModule()
      requires Consistent() && entered == []
      modifies this
      ensures Consistent() && entered == WholeModule(calls)
      ensures forall i :: i in typed <==> 0 <= i < |calls|
    {
      TypecheckBody(Upto(|calls|));
      forall i | 0 <= i < |calls| ensures i in entered {
        EveryProcedureOnce(calls, i);
      }
      OnlyProcedures(calls, Upto(|calls|), []);
    }
  }

  // ----- the code generator -----

  /** The LLVM module that all code generators share. */
  class Functions {
    var defined: set<nat>
    var created: seq<nat>

    constructor ()
      ensures defined == {} && created == []
    {
      defined, created := {}, [];
    }
  }

  /** Where a code generator is: the function it builds, and what the loops around its insert
      point have set. */
  datatype Walk = Walk(insertPoint: nat, breakTarget: Option<nat>, continueTarget: Option<nat>, prologues: seq<nat>)

  /** A code generator, as far as it compiles procedures on demand. */
  class DemandCompiler {
    const calls: Calls
    const functions: Functions
    var walk: Walk

    predicate Consistent()
      reads this, functions
    {
      Valid(calls) && functions.defined == set i | i in functions.created
    }

    constructor (calls: Calls, functions: Functions)
      requires Valid(calls) && functions.defined == set i | i in functions.created
      ensures Consistent() && this.calls == calls && this.functions == functions
      ensures walk == Walk(|calls|, None, None, [])
    {
      this.calls, this.functions := calls, functions;
      walk := Walk(|calls|, None, None, []);
    }

    /** The function exists before its body is generated. The insert point moves into it;
        targets and prologues are not touched. */
    method GenerateDeclaration(i: nat)
      requires Consistent() && i < |calls|
      modifies this, functions
      ensures Consistent() && functions.created == Visit(calls, i, old(functions.created))
      ensures walk == if i in old(functions.defined) then old(walk) else old(walk).(insertPoint := i)
      decreases |Untouched(calls, functions.created)|, 0
    {
      if i in functions.defined {
        return;
      }
      Shrinks(calls, i, functions.created);
      functions.defined := functions.defined + {i};
      functions.created := functions.created + [i];
      walk := walk.(insertPoint := i);
      GenerateCalls(calls[i]);
    }

    /** A callee that does not exist yet is compiled by a generator of its own, so this one
        keeps its insert point, its break and continue targets and its prologues. */
    method GenerateCalls(mentions: seq<nat>)
      requires Consistent() && Known(calls, mentions)
      modifies functions
      ensures Consistent() && functions.created == VisitAll(calls, mentions, old(functions.created))
      ensures walk == old(walk)
      decreases |Untouched(calls, functions.created)|, 1, |mentions|
    {
      ghost var start := functions.created;
      var k := 0;
      while k < |mentions|
        invariant 0 <= k <= |mentions| && Consistent() && walk == old(walk)
        invariant Extends(start, functions.created)
        invariant VisitAll(calls, mentions, start) == VisitAll(calls, mentions[k..], functions.created)
      {
        Grows(calls, start, functions.created);
        ghost var before := functions.created;
        if mentions[k] !in functions.defined {
          var other := new DemandCompiler(calls, functions);
          other.GenerateDeclaration(mentions[k]);
        }
        Chains(start, before, functions.created);
        assert mentions[k..][1..] == mentions[k + 1..];
        k := k + 1;
      }
    }

    /** One generator walks all declarations of the module: afterwards every procedure has
        been compiled exactly once, in the order of the search. */
    method GenerateModule()
      requires Consistent() && functions.created == []
      modifies this, functions
      ensures Consistent() && functions.created == WholeModule(calls)
      ensures Distinct(functions.created) && forall i :: i in functions.created <==> 0 <= i < |calls|
      ensures walk == old(walk).(insertPoint := walk.insertPoint)
    {
      var declarations := Upto(|calls|);
      var k := 0;
      assert declarations[0..] == declarations;
      while k < |declarations|
        invariant 0 <= k <= |declarations| && Consistent() && walk == old(walk).(insertPoint := walk.insertPoint)
        invariant VisitAll(calls, declarations[k..], functions.created) == WholeModule(calls)
      {
        assert declarations[k..][1..] == declarations[k + 1..];
        GenerateDeclaration(declarations[k]);
        k := k + 1;
      }
      assert declarations[k..] == [];
      VisitsAllOnce(calls, declarations, []);
      OnlyProcedures(calls, declarations, []);
      forall i | 0 <= i < |calls| ensures i in functions.created {
        EveryProcedureOnce(calls, i);
      }
    }
  }
}
