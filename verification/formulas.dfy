/** Boolean formulas over named atoms, standing in for the external solver package's
    formula type, with their truth value under a valuation. */
module Formulas {

  /** Truth values of named atoms; an atom missing from the map counts as false. */
  type Valuation = map<string, bool>

  datatype Formula =
    | True
    | Var(name: string)
    | Not(f: Formula)
    | And(fs: seq<Formula>)
    | Or(fs: seq<Formula>)

  function Holds(v: Valuation, n: string): bool
  {
    n in v && v[n]
  }

  /** The truth value of `f` under `v`. A conjunction holds when every member holds; a
      disjunction when some member holds, so an empty disjunction is false. The solver
      package's own value for an empty disjunction is not part of this model; false is
      the assumption made here. */
  function Eval(f: Formula, v: Valuation): bool
  {
    match f
    case True => true
    case Var(n) => Holds(v, n)
    case Not(g) => !Eval(g, v)
    case And(fs) => forall i | 0 <= i < |fs| :: Eval(fs[i], v)
    case Or(fs) => exists i | 0 <= i < |fs| :: Eval(fs[i], v)
  }

  /** Repeated binary conjunction, `f = And(f, g)` for each `g` in turn. */
  function ConjoinAll(f: Formula, gs: seq<Formula>): Formula
    decreases |gs|
  {
    if |gs| == 0 then f else ConjoinAll(And([f, gs[0]]), gs[1..])
  }

  /** The conjuncts of a left-nested chain of binary conjunctions, oldest first; `True`
      contributes none and any other formula is a single conjunct. */
  function Spine(f: Formula): seq<Formula>
  {
    match f
    case True => []
    case And(fs) => if |fs| == 2 then Spine(fs[0]) + [fs[1]] else [f]
    case _ => [f]
  }

  /** `Spine` takes a chain built by `ConjoinAll` apart again. */
  lemma {:induction false} SpineConjoinAll(f: Formula, gs: seq<Formula>)
    ensures Spine(ConjoinAll(f, gs)) == Spine(f) + gs
    decreases |gs|
  {
    if |gs| > 0 {
      SpineConjoinAll(And([f, gs[0]]), gs[1..]);
      assert [f, gs[0]][0] == f && [f, gs[0]][1] == gs[0];
      assert Spine(f) + [gs[0]] + gs[1..] == Spine(f) + gs;
    }
  }

  /** A chain of conjunctions holds exactly when its start and every appended conjunct hold. */
  lemma {:induction false} EvalConjoinAll(f: Formula, gs: seq<Formula>, v: Valuation)
    ensures Eval(ConjoinAll(f, gs), v) <==> Eval(f, v) && forall i :: 0 <= i < |gs| ==> Eval(gs[i], v)
    decreases |gs|
  {
    if |gs| > 0 {
      EvalConjoinAll(And([f, gs[0]]), gs[1..], v);
      assert Eval(And([f, gs[0]]), v) <==> Eval(f, v) && Eval(gs[0], v) by {
        assert [f, gs[0]][0] == f && [f, gs[0]][1] == gs[0];
      }
      assert (forall i :: 0 <= i < |gs| ==> Eval(gs[i], v))
         <==> Eval(gs[0], v) && (forall i :: 0 <= i < |gs[1..]| ==> Eval(gs[1..][i], v)) by {
        if forall i :: 0 <= i < |gs[1..]| ==> Eval(gs[1..][i], v) {
          forall i | 1 <= i < |gs| ensures Eval(gs[i], v) {
            assert gs[i] == gs[1..][i - 1];
          }
        }
      }
    }
  }

  /** The atom names occurring in `f`. */
  function Atoms(f: Formula): set<string>
  {
    match f
    case True => {}
    case Var(n) => {n}
    case Not(g) => Atoms(g)
    case And(fs) => set i, a | 0 <= i < |fs| && a in Atoms(fs[i]) :: a
    case Or(fs) => set i, a | 0 <= i < |fs| && a in Atoms(fs[i]) :: a
  }

  /** The atoms of a chain of conjunctions are those of its start and its conjuncts. */
  lemma {:induction false} AtomsConjoinAll(f: Formula, gs: seq<Formula>, a: string)
    ensures a in Atoms(ConjoinAll(f, gs)) <==> a in Atoms(f) || exists i :: 0 <= i < |gs| && a in Atoms(gs[i])
    decreases |gs|
  {
    if |gs| > 0 {
      AtomsConjoinAll(And([f, gs[0]]), gs[1..], a);
      assert a in Atoms(And([f, gs[0]])) <==> a in Atoms(f) || a in Atoms(gs[0]) by {
        assert [f, gs[0]][0] == f && [f, gs[0]][1] == gs[0];
      }
      if exists i :: 0 <= i < |gs| && a in Atoms(gs[i]) {
        var i :| 0 <= i < |gs| && a in Atoms(gs[i]);
        if i > 0 { assert gs[i] == gs[1..][i - 1]; }
      }
      if exists i :: 0 <= i < |gs[1..]| && a in Atoms(gs[1..][i]) {
        var i :| 0 <= i < |gs[1..]| && a in Atoms(gs[1..][i]);
        assert gs[1..][i] == gs[i + 1];
      }
    }
  }
}
