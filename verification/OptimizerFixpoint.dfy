/** Pruning keeps what execution needs, and the optimiser's loop reaches its fixed point. */
module OptimizerFixpoint {
  import opened Wrappers
  import opened Sequences
  import opened Values
  import opened Expressions
  import opened StoragePredicates
  import opened Optimizer
  import opened OptimizerProofs

  // ---------- Fixed point ----------

  lemma {:induction false} ConjunctsOfConjunction(es: seq<Expr>)
    requires es != [] && forall i | 0 <= i < |es| :: !(es[i].Binary? && es[i].op.And?)
    ensures Conjuncts(Conjunction(es)) == es
  {
    var n := |es| - 1;
    if n == 0 {
      assert es == [es[0]];
    } else {
      ConjunctsOfConjunction(es[..n]);
      assert es == es[..n] + [es[n]];
    }
  }

  lemma {:induction false} NothingPushable(es: seq<Expr>)
    requires forall i | 0 <= i < |es| :: ExtractSimple(es[i]).None?
    ensures Pushable(es) == []
  {
    if es != [] {
      NothingPushable(es[..|es| - 1]);
    }
  }

  /** A second push finds nothing to move. */
  /** No filter stands on the scan with a comparison that the scan could take. */
  predicate NothingLeftToPush(plan: Plan) {
    match plan
    case Filter(p, child) =>
      && NothingLeftToPush(child)
      && (child.Scan? ==> forall e | e in Conjuncts(p) :: ExtractSimple(e).None?)
    case Project(_, child) => NothingLeftToPush(child)
    case Aggregate(_, _, child) => NothingLeftToPush(child)
    case _ => true
  }

  lemma {:induction false} NonePushable(es: seq<Expr>)
    requires Pushable(es) == []
    ensures forall e | e in es :: ExtractSimple(e).None?
  {
    if es != [] {
      var n := |es| - 1;
      assert es == es[..n] + [es[n]];
      assert |Pushable(es)| == |Pushable(es[..n])| + (if ExtractSimple(es[n]).Some? then 1 else 0);
      NonePushable(es[..n]);
    }
  }

  /** Pushdown leaves nothing on the scan that it could have moved. */
  lemma {:induction false} PushMovesAll(plan: Plan)
    ensures NothingLeftToPush(Push(plan).0)
    decreases plan
  {
    match plan
    case Filter(p, child) =>
      PushMovesAll(child);
      var es := Conjuncts(p);
      if Push(child).0.Scan? {
        if Pushable(es) == [] {
          NonePushable(es);
        } else if Staying(es) != [] {
          forall i | 0 <= i < |Staying(es)| ensures !(Staying(es)[i].Binary? && Staying(es)[i].op.And?) {
            assert Staying(es)[i] in es;
          }
          ConjunctsOfConjunction(Staying(es));
        }
      }
    case Project(_, child) => PushMovesAll(child);
    case Aggregate(_, _, child) => PushMovesAll(child);
    case _ =>
  }

  lemma {:induction false} PushTwice(plan: Plan)
    ensures Push(Push(plan).0) == (Push(plan).0, false)
    decreases plan
  {
    match plan
    case Filter(p, child) =>
      PushTwice(child);
      var below, residual := Push(child).0, Staying(Conjuncts(p));
      if below.Scan? && residual != [] && Pushable(Conjuncts(p)) != [] {
        forall i | 0 <= i < |residual| ensures !(residual[i].Binary? && residual[i].op.And?) {
          assert residual[i] in Conjuncts(p);
        }
        ConjunctsOfConjunction(residual);
        NothingPushable(residual);
      }
    case Project(_, child) => PushTwice(child);
    case Aggregate(_, _, child) => PushTwice(child);
    case _ =>
  }

  lemma {:induction false} PushUnderRequired(plan: Plan, required: seq<nat>)
    ensures Push(WithRequired(plan, required)) == (WithRequired(Push(plan).0, required), Push(plan).1)
    decreases plan
  {
    if plan.Filter? || plan.Project? || plan.Aggregate? {
      PushUnderRequired(plan.child, required);
    }
  }

  lemma {:induction false} RequiredUnderRequired(plan: Plan, required: seq<nat>)
    ensures RequiredColumns(WithRequired(plan, required)) == RequiredColumns(plan)
    ensures FindScan(WithRequired(plan, required)).Some? <==> FindScan(plan).Some?
    ensures FindScan(plan).Some? ==> FindScan(WithRequired(plan, required)).value.required == required
    decreases plan
  {
    if plan.Filter? || plan.Project? || plan.Aggregate? {
      RequiredUnderRequired(plan.child, required);
    }
  }

  lemma {:induction false} SortedUniqueIsUnique(a: seq<nat>, b: seq<nat>)
    requires Ascending(a) && Ascending(b) && Members(a) == Members(b)
    ensures a == b
  {
    if a == [] {
      if b != [] {
        SameMembers(b, a, b[0]);
      }
    } else {
      SameMembers(a, b, a[0]);
      SameMembers(b, a, b[0]);
      var a', b' := a[1..], b[1..];
      forall c ensures c in a' <==> c in b' {
        assert c in a <==> c in b by {
          if c in a { SameMembers(a, b, c); }
          if c in b { SameMembers(b, a, c); }
        }
        assert c in a <==> c in a' || c == a[0] by { assert a == [a[0]] + a'; }
        assert c in b <==> c in b' || c == b[0] by { assert b == [b[0]] + b'; }
        assert c in a' ==> c > a[0];
        assert c in b' ==> c > b[0];
      }
      assert Members(a') == Members(b');
      SortedUniqueIsUnique(a', b');
    }
  }

  /** What one pass of both rules leaves. */
  ghost predicate Optimised(root: Plan, r: Plan) {
    var pushed := Push(root).0;
    if FindScan(pushed).None? then r == pushed
    else exists required :: SortedUnique(RequiredColumns(pushed), required) && r == WithRequired(pushed, required)
  }

  lemma {:induction false} WithRequiredTwice(plan: Plan, a: seq<nat>, b: seq<nat>)
    ensures WithRequired(WithRequired(plan, a), b) == WithRequired(plan, b)
    decreases plan
  {
    if plan.Filter? || plan.Project? || plan.Aggregate? {
      WithRequiredTwice(plan.child, a, b);
    }
  }

  /** Another pass over an optimised plan changes nothing. */
  lemma OptimisedIsFixed(root: Plan, r: Plan)
    requires Optimised(root, r)
    ensures Push(r) == (r, false)
    ensures FindScan(r).Some? ==>
              forall required :: SortedUnique(RequiredColumns(r), required) ==> required == FindScan(r).value.required
  {
    var pushed := Push(root).0;
    PushTwice(root);
    if FindScan(pushed).Some? {
      var required: seq<nat> :| SortedUnique(RequiredColumns(pushed), required) && r == WithRequired(pushed, required);
      PushUnderRequired(pushed, required);
      RequiredUnderRequired(pushed, required);
      forall other: seq<nat> | SortedUnique(RequiredColumns(r), other) ensures other == required {
        assert Members(other) == Members(required);
        SortedUniqueIsUnique(other, required);
      }
    }
  }

  /**
   * Optimizer::Optimize. The cap of eight passes never cuts the fixed point short: the second pass already
   * changes nothing.
   */
  method Optimize(root: Plan) returns (r: Plan, ghost passes: nat)
    ensures Optimised(root, r) && passes <= 2
  {
    r, passes := root, 0;
    var pass := 0;
    while pass < 8
      invariant 0 <= pass == passes <= 1
      invariant if pass == 0 then r == root else Optimised(root, r)
    {
      ghost var before := r;
      if pass == 1 {
        OptimisedIsFixed(root, r);
        if FindScan(r).Some? {
          SameRequired(r);
        }
      }
      var pushed, moved := PushPredicate(r);
      var pruned, narrowed := PruneColumns(pushed);
      r, pass, passes := pruned, pass + 1, passes + 1;
      if pass == 1 {
        assert Optimised(root, r);
      } else {
        assert !moved && !narrowed && r == before;
      }
      if !moved && !narrowed {
        break;
      }
    }
  }

  // ---------- Pruned plans can be executed ----------

  /** Every column mentioned is scanned, and only those. */
  predicate Covered(plan: Plan, required: seq<nat>) {
    forall c | c in RequiredColumns(plan) :: c in required
  }

  lemma OptimisedIsCovered(root: Plan, r: Plan)
    requires Optimised(root, r) && FindScan(r).Some?
    ensures Covered(r, FindScan(r).value.required)
    ensures forall c | c in FindScan(r).value.required :: c in RequiredColumns(r)
    ensures Ascending(FindScan(r).value.required)
  {
    var pushed := Push(root).0;
    var required: seq<nat> :| SortedUnique(RequiredColumns(pushed), required) && r == WithRequired(pushed, required);
    RequiredUnderRequired(pushed, required);
  }

  lemma {:induction false} MeaningIgnoresRequired(plan: Plan, required: seq<nat>, rows: seq<Row>, agg: Aggregator)
    ensures Meaning(WithRequired(plan, required), rows, agg) == Meaning(plan, rows, agg)
    decreases plan
  {
    if plan.Filter? || plan.Project? || plan.Aggregate? {
      MeaningIgnoresRequired(plan.child, required, rows, agg);
    }
  }

  /** The optimised plan returns what the original returns. */
  lemma OptimisedMeansTheSame(root: Plan, r: Plan, rows: seq<Row>, schema: seq<DataType>, agg: Aggregator)
    requires Optimised(root, r) && TypedPlan(root, schema) && TypedRows(rows, schema)
    ensures Meaning(root, rows, agg).Ok? ==> Meaning(r, rows, agg) == Meaning(root, rows, agg)
  {
    PushPreserves(root, rows, schema, agg);
    var pushed := Push(root).0;
    if FindScan(pushed).Some? {
      var required: seq<nat> :| SortedUnique(RequiredColumns(pushed), required) && r == WithRequired(pushed, required);
      MeaningIgnoresRequired(pushed, required, rows, agg);
    }
  }
}
