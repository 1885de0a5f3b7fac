/** src/planner/optimizer/optimizer.cpp: predicate pushdown, column pruning and the loop that applies them. */
module Optimizer {
  import opened Wrappers
  import opened Values
  import opened Expressions
  import opened StoragePredicates

  /** Column references below the first projection or aggregate are indices of table columns. */
  datatype Plan =
    | Scan(required: seq<nat>, pushed: seq<Condition>)
    | Filter(condition: Expr, child: Plan)
    | Project(outputs: seq<Expr>, child: Plan)
    | Aggregate(groupBy: seq<Expr>, outputs: seq<Expr>, child: Plan)
    | Command

  // ---------- Pushdown ----------

  /** A comparison of a numeric column with a numeric literal, column first; only these operators. */
  function ExtractSimple(e: Expr): Option<Condition> {
    if e.Binary? && e.left.ColumnRef? && e.right.Literal? && (e.op.Eq? || e.op.Gt? || e.op.Lt?)
       && IsNumericType(e.left.returnType) && (e.right.value.I32? || e.right.value.F64?)
    then Some(Condition(e.left.slot, ToCmpOp(e.op), e.right.value))
    else None
  }

  function Conjuncts(e: Expr): (es: seq<Expr>)
    ensures es != [] && forall i | 0 <= i < |es| :: !(es[i].Binary? && es[i].op.And?)
  {
    if e.Binary? && e.op.And? then Conjuncts(e.left) + Conjuncts(e.right) else [e]
  }

  function Conjunction(es: seq<Expr>): Expr
    requires es != []
  {
    if |es| == 1 then es[0]
    else Binary(And, Conjunction(es[..|es| - 1]), es[|es| - 1], Int32)
  }

  function Pushable(es: seq<Expr>): seq<Condition> {
    if es == [] then []
    else
      var n := |es| - 1;
      Pushable(es[..n]) + (match ExtractSimple(es[n]) case Some(c) => [c] case None => [])
  }

  function Staying(es: seq<Expr>): (r: seq<Expr>)
    ensures forall i | 0 <= i < |r| :: r[i] in es && ExtractSimple(r[i]).None?
  {
    if es == [] then []
    else
      var n := |es| - 1;
      assert es == es[..n] + [es[n]];
      Staying(es[..n]) + (if ExtractSimple(es[n]).Some? then [] else [es[n]])
  }

  /** The plan after PushPredicate, and whether anything moved. */
  function Push(plan: Plan): (Plan, bool) {
    match plan
    case Filter(p, child) =>
      var (below, changed) := Push(child);
      var pushed, residual := Pushable(Conjuncts(p)), Staying(Conjuncts(p));
      if !below.Scan? || pushed == [] then (Filter(p, below), changed)
      else
        var scan := below.(pushed := below.pushed + pushed);
        (if residual == [] then scan else Filter(Conjunction(residual), scan), true)
    case Project(outputs, child) => (Project(outputs, Push(child).0), Push(child).1)
    case Aggregate(g, outputs, child) => (Aggregate(g, outputs, Push(child).0), Push(child).1)
    case _ => (plan, false)
  }

  method SplitConjuncts(conjuncts: seq<Expr>) returns (pushed: seq<Condition>, residual: seq<Expr>)
    ensures pushed == Pushable(conjuncts) && residual == Staying(conjuncts)
  {
    pushed, residual := [], [];
    var i := 0;
    while i < |conjuncts|
      invariant 0 <= i <= |conjuncts|
      invariant pushed == Pushable(conjuncts[..i]) && residual == Staying(conjuncts[..i])
    {
      assert conjuncts[..i + 1][..i] == conjuncts[..i];
      match ExtractSimple(conjuncts[i]) {
        case Some(c) => pushed := pushed + [c];
        case None => residual := residual + [conjuncts[i]];
      }
      i := i + 1;
    }
    assert conjuncts[..i] == conjuncts;
  }

  method BuildConjunction(es: seq<Expr>) returns (e: Expr)
    requires es != []
    ensures e == Conjunction(es)
  {
    e := es[0];
    var i := 1;
    while i < |es|
      invariant 1 <= i <= |es| && e == Conjunction(es[..i])
    {
      assert es[..i + 1][..i] == es[..i];
      e := Binary(And, e, es[i], Int32);
      i := i + 1;
    }
    assert es[..i] == es;
  }

  method PushPredicate(plan: Plan) returns (r: Plan, changed: bool)
    ensures (r, changed) == Push(plan)
    decreases plan
  {
    match plan {
      case Filter(p, child) =>
        var below;
        below, changed := PushPredicate(child);
        if !below.Scan? {
          return Filter(p, below), changed;
        }
        var pushed, residual := SplitConjuncts(Conjuncts(p));
        if pushed == [] {
          return Filter(p, below), changed;
        }
        var scan := below.(pushed := below.pushed + pushed);
        if residual == [] {
          return scan, true;
        }
        var kept := BuildConjunction(residual);
        return Filter(kept, scan), true;
      case Project(outputs, child) =>
        var below;
        below, changed := PushPredicate(child);
        return Project(outputs, below), changed;
      case Aggregate(g, outputs, child) =>
        var below;
        below, changed := PushPredicate(child);
        return Aggregate(g, outputs, below), changed;
      case _ =>
        return plan, false;
    }
  }

  // ---------- Pruning ----------

  function ExprColumns(e: Expr): seq<nat> {
    match e
    case ColumnRef(slot, _) => [slot]
    case Literal(_, _) => []
    case Binary(_, l, r, _) => ExprColumns(l) + ExprColumns(r)
  }

  function ListColumns(es: seq<Expr>): seq<nat> {
    if es == [] then [] else ExprColumns(es[0]) + ListColumns(es[1..])
  }

  function PushedColumns(pushed: seq<Condition>): (r: seq<nat>)
    ensures |r| == |pushed| && forall i | 0 <= i < |r| :: r[i] == pushed[i].column
  {
    seq(|pushed|, i requires 0 <= i < |pushed| => pushed[i].column)
  }

  function RequiredColumns(plan: Plan): seq<nat> {
    match plan
    case Scan(_, pushed) => PushedColumns(pushed)
    case Filter(p, child) => ExprColumns(p) + RequiredColumns(child)
    case Project(outputs, child) => ListColumns(outputs) + RequiredColumns(child)
    case Aggregate(g, outputs, child) => ListColumns(g) + (ListColumns(outputs) + RequiredColumns(child))
    case Command => []
  }

  function FindScan(plan: Plan): (scan: Option<Plan>)
    ensures scan.Some? ==> scan.value.Scan?
  {
    match plan
    case Scan(_, _) => Some(plan)
    case Command => None
    case _ => FindScan(plan.child)
  }

  function WithRequired(plan: Plan, required: seq<nat>): Plan {
    match plan
    case Scan(_, pushed) => Scan(required, pushed)
    case Filter(p, child) => Filter(p, WithRequired(child, required))
    case Project(outputs, child) => Project(outputs, WithRequired(child, required))
    case Aggregate(g, outputs, child) => Aggregate(g, outputs, WithRequired(child, required))
    case Command => plan
  }

  predicate Ascending(s: seq<nat>) {
    forall i, j | 0 <= i < j < |s| :: s[i] < s[j]
  }

  /** The sorted, duplicate-free list of some columns. */
  ghost predicate SortedUnique(columns: seq<nat>, r: seq<nat>) {
    Ascending(r) && forall c :: c in r <==> c in columns
  }

  method SortUnique(columns: seq<nat>) returns (r: seq<nat>)
    ensures SortedUnique(columns, r)
  {
    r := [];
    var i := 0;
    while i < |columns|
      invariant 0 <= i <= |columns| && SortedUnique(columns[..i], r)
    {
      assert columns[..i + 1] == columns[..i] + [columns[i]];
      r := InsertUnique(r, columns[i]);
      i := i + 1;
    }
    assert columns[..i] == columns;
  }

  method InsertUnique(s: seq<nat>, c: nat) returns (r: seq<nat>)
    requires Ascending(s)
    ensures Ascending(r) && forall x :: x in r <==> x in s || x == c
  {
    var at := 0;
    while at < |s| && s[at] < c
      invariant 0 <= at <= |s| && forall j | 0 <= j < at :: s[j] < c
    {
      at := at + 1;
    }
    if at < |s| && s[at] == c {
      return s;
    }
    assert s == s[..at] + s[at..];
    r := s[..at] + [c] + s[at..];
  }

  /** ColumnPruningRule::Apply. */
  method PruneColumns(plan: Plan) returns (r: Plan, changed: bool)
    ensures FindScan(plan).None? ==> r == plan && !changed
    ensures FindScan(plan).Some? ==>
              exists required :: SortedUnique(RequiredColumns(plan), required) && r == WithRequired(plan, required)
                                 && (changed <==> required != FindScan(plan).value.required)
  {
    var columns := SortUnique(RequiredColumns(plan));
    var scan := FindScan(plan);
    if scan.None? {
      return plan, false;
    }
    if scan.value.required == columns {
      SameRequired(plan);
      return plan, false;
    }
    return WithRequired(plan, columns), true;
  }

  lemma {:induction false} SameRequired(plan: Plan)
    requires FindScan(plan).Some?
    ensures WithRequired(plan, FindScan(plan).value.required) == plan
    decreases plan
  {
    if !plan.Scan? {
      SameRequired(plan.child);
    }
  }
}
