/** The scheduler: assignment and task-state atoms, the formula compiled from the worker
    and test collections, and solving against an external solver's answer. */
module Scheduler {
  import opened Wrappers
  import opened Strings
  import opened Constants
  import opened Formulas
  import ET = EncoderTest
  import EW = EncoderWorker
  import Decoder

  /** The two collections a scheduler compiles into one formula. */
  datatype Scheduler = Scheduler(workerCollection: EW.WorkerColl, testCollection: ET.TestColl)

  /** `Assign`: the test atom, `@`, the worker atom; this atom has no state field. */
  function Assign(w: EW.Worker, t: ET.Test): string
  {
    ET.Encode(t) + [AssignSep] + EW.Encode(w)
  }

  /** `TaskState`: the test atom, `!`, the state label. */
  function TaskState(t: ET.Test, state: string): string
  {
    StateFmt(ET.Encode(t), state)
  }

  /** For `@`-free entities an `Assign` atom holds exactly one `@` and splits into the test
      atom and the worker atom. */
  lemma {:induction false} AssignFields(w: EW.Worker, t: ET.Test)
    requires EW.FreeOf(w, AssignSep) && ET.FreeOf(t, AssignSep)
    ensures Split(Assign(w, t), AssignSep) == [ET.Encode(t), EW.Encode(w)]
    ensures Count(Assign(w, t), AssignSep) == 1
  {
    ET.EncodeFree(t, AssignSep);
    EW.EncodeFree(w, AssignSep);
    assert Assign(w, t) == Join([ET.Encode(t), EW.Encode(w)], AssignSep);
    SplitJoin([ET.Encode(t), EW.Encode(w)], AssignSep);
    SplitCount(Assign(w, t), AssignSep);
  }

  /** For a `!`-free test and label a task-state atom splits into the test atom and the
      label. */
  lemma {:induction false} TaskStateFields(t: ET.Test, state: string)
    requires ET.FreeOf(t, StateSep) && StateSep !in state
    ensures Split(TaskState(t, state), StateSep) == [ET.Encode(t), state]
  {
    ET.EncodeFree(t, StateSep);
    StateFmtFields(ET.Encode(t), state);
  }

  /** Inputs on which the two-field `DecodeAssignment` does not panic inside the field
      decoders. */
  predicate PairInDomain(s: string)
  {
    var dataRow := Split(s, AssignSep);
    |dataRow| != 2 || (Decoder.TestInDomain(dataRow[0]) && EW.InDomain(dataRow[1]))
  }

  /** The scheduler's own `DecodeAssignment`: fails unless the text holds exactly one `@`,
      or when the worker field does not decode; the test field is decoded by
      `Decoder.DecodeTest`, standing in for the test decoder the scheduler calls. */
  function DecodeAssignment(s: string): (r: Result<(EW.Worker, ET.Test), string>)
    requires PairInDomain(s)
    ensures AssignSep !in s ==> r.Failure?
    ensures r.Failure? <==> |Split(s, AssignSep)| != 2 || EW.DecodeWorker(Split(s, AssignSep)[1]).Failure?
    ensures r.Success? ==> Count(s, AssignSep) == 1
  {
    SplitCount(s, AssignSep);
    if AssignSep !in s then Failure(Decoder.Malformed)
    else
      var dataRow := Split(s, AssignSep);
      if |dataRow| != 2 then Failure(Decoder.Malformed)
      else
        var t := Decoder.DecodeTest(dataRow[0]);
        match EW.DecodeWorker(dataRow[1])
        case Failure(e) => Failure(e)
        case Success(w) => Success((w, t))
  }

  /** Separator-free entities, as the `Assign` round trip needs them. */
  predicate PairWellFormed(w: EW.Worker, t: ET.Test)
  {
    && EW.FreeOf(w, AssignSep) && EW.FreeOf(w, WorkerSep) && WorkerInstSep !in w.name
    && ET.FreeOf(t, AssignSep) && ET.FreeOf(t, TestSep)
  }

  /** The scheduler's decoder inverts `Assign` on well-formed entities: test name, worker
      name and instance come back, and both atoms re-encode to the same text. */
  lemma {:induction false} DecodeAssignmentAssign(w: EW.Worker, t: ET.Test)
    requires PairWellFormed(w, t)
    ensures PairInDomain(Assign(w, t))
    ensures DecodeAssignment(Assign(w, t)).Success?
    ensures DecodeAssignment(Assign(w, t)).value.0.name == w.name
    ensures DecodeAssignment(Assign(w, t)).value.0.instance == w.instance
    ensures DecodeAssignment(Assign(w, t)).value.1.name == t.name
    ensures Assign(DecodeAssignment(Assign(w, t)).value.0, DecodeAssignment(Assign(w, t)).value.1) == Assign(w, t)
  {
    AssignFields(w, t);
    Decoder.DecodeTestEncode(t);
    EW.DecodeEncode(w);
    DecodePairFields(ET.Encode(t), EW.Encode(w));
  }

  /** Decoding a two-field atom whose fields decode on their own. */
  lemma {:induction false} DecodePairFields(te: string, we: string)
    requires Split(te + [AssignSep] + we, AssignSep) == [te, we]
    requires Decoder.TestInDomain(te) && EW.InDomain(we) && EW.DecodeWorker(we).Success?
    ensures PairInDomain(te + [AssignSep] + we)
    ensures DecodeAssignment(te + [AssignSep] + we) == Success((EW.DecodeWorker(we).value, Decoder.DecodeTest(te)))
  {
    assert AssignSep in te + [AssignSep] + we;
  }

  /** The assignment decoder rejects every `Assign` atom over `@`-free entities: it has
      two `@`-fields where three are required. */
  lemma {:induction false} DecoderRejectsAssign(w: EW.Worker, t: ET.Test)
    requires EW.FreeOf(w, AssignSep) && ET.FreeOf(t, AssignSep)
    ensures Decoder.AssignmentInDomain(Assign(w, t))
    ensures Decoder.DecodeAssignment(Assign(w, t)).Failure?
  {
    AssignFields(w, t);
  }

  /** The tests of `ts` whose name differs from `t`'s, in collection order. */
  function Others(t: ET.Test, ts: seq<ET.Test>): (r: seq<ET.Test>)
    ensures |r| <= |ts|
  {
    if |ts| == 0 then []
    else
      var rest := Others(t, ts[1..]);
      if ts[0].name != t.name then [ts[0]] + rest else rest
  }

  /** `Others` keeps exactly the differently-named tests. */
  lemma {:induction false} OthersMembers(t: ET.Test, ts: seq<ET.Test>)
    ensures forall t2 :: t2 in Others(t, ts) <==> t2 in ts && t2.name != t.name
    decreases |ts|
  {
    if |ts| > 0 {
      OthersMembers(t, ts[1..]);
      assert ts == [ts[0]] + ts[1..];
    }
  }

  /** The negated assignment atoms of `w` for the differently-named tests: accepting `t`,
      `w` accepts none of them. */
  function Rejections(w: EW.Worker, t: ET.Test, ts: seq<ET.Test>): seq<Formula>
  {
    var others := Others(t, ts);
    seq(|others|, i requires 0 <= i < |others| => Not(Var(Assign(w, others[i]))))
  }

  /** "`w` and `t` go together and `t` is accepted": the worker, test, running-state and
      assignment atoms in one conjunction. */
  function Accepted(w: EW.Worker, t: ET.Test): Formula
  {
    And([Var(EW.Encode(w)), Var(ET.Encode(t)), Var(TaskState(t, StateRunning)), Var(Assign(w, t))])
  }

  /** The term "`t` runs on `w`": the accepted block, then one negated assignment atom per
      differently-named test, conjoined pairwise. */
  function Term(w: EW.Worker, t: ET.Test, ts: seq<ET.Test>): Formula
  {
    ConjoinAll(Accepted(w, t), Rejections(w, t, ts))
  }

  /** The workers that satisfy `t`, in collection order. */
  function Qualifying(ws: seq<EW.Worker>, t: ET.Test): (r: seq<EW.Worker>)
    ensures |r| <= |ws|
  {
    if |ws| == 0 then []
    else
      var rest := Qualifying(ws[1..], t);
      if EW.Satisfies(ws[0], t) then [ws[0]] + rest else rest
  }

  /** `Qualifying` keeps exactly the workers that satisfy `t`. */
  lemma {:induction false} QualifyingMembers(ws: seq<EW.Worker>, t: ET.Test)
    ensures forall w :: w in Qualifying(ws, t) <==> w in ws && EW.Satisfies(w, t)
    decreases |ws|
  {
    if |ws| > 0 {
      QualifyingMembers(ws[1..], t);
      assert ws == [ws[0]] + ws[1..];
    }
  }

  /** The disjunction for `t`: one term per qualifying worker, in worker order. */
  function Disjunction(ws: seq<EW.Worker>, t: ET.Test, ts: seq<ET.Test>): Formula
  {
    var q := Qualifying(ws, t);
    Or(seq(|q|, j requires 0 <= j < |q| => Term(q[j], t, ts)))
  }

  /** `BuildFormula`: starting from `True`, one disjunction per test conjoined in
      collection order. */
  function BuildFormula(s: Scheduler): Formula
  {
    var ws := s.workerCollection.workers;
    var ts := s.testCollection.tests;
    ConjoinAll(True, seq(|ts|, i requires 0 <= i < |ts| => Disjunction(ws, ts[i], ts)))
  }

  /** `Qualifying` keeps the worker order: filtering a concatenation concatenates the
      filtered parts. */
  lemma {:induction false} QualifyingAppend(ws1: seq<EW.Worker>, ws2: seq<EW.Worker>, t: ET.Test)
    ensures Qualifying(ws1 + ws2, t) == Qualifying(ws1, t) + Qualifying(ws2, t)
    decreases |ws1|
  {
    if |ws1| == 0 {
      assert ws1 + ws2 == ws2;
    } else {
      QualifyingAppend(ws1[1..], ws2, t);
      var ws := ws1 + ws2;
      assert ws[0] == ws1[0];
      assert ws[1..] == ws1[1..] + ws2;
      var head := if EW.Satisfies(ws1[0], t) then [ws1[0]] else [];
      assert Qualifying(ws, t) == head + Qualifying(ws[1..], t);
      assert Qualifying(ws1, t) == head + Qualifying(ws1[1..], t);
    }
  }

  /** `Others` keeps the test order. */
  lemma {:induction false} OthersAppend(t: ET.Test, ts1: seq<ET.Test>, ts2: seq<ET.Test>)
    ensures Others(t, ts1 + ts2) == Others(t, ts1) + Others(t, ts2)
    decreases |ts1|
  {
    if |ts1| == 0 {
      assert ts1 + ts2 == ts2;
    } else {
      OthersAppend(t, ts1[1..], ts2);
      var ts := ts1 + ts2;
      assert ts[0] == ts1[0];
      assert ts[1..] == ts1[1..] + ts2;
      var head := if ts1[0].name != t.name then [ts1[0]] else [];
      assert Others(t, ts) == head + Others(t, ts[1..]);
      assert Others(t, ts1) == head + Others(t, ts1[1..]);
    }
  }

  /** The conjuncts of a term: the four positive atoms as one block, then one negated
      assignment atom per differently-named test. */
  lemma {:induction false} TermShape(w: EW.Worker, t: ET.Test, ts: seq<ET.Test>)
    ensures Spine(Term(w, t, ts)) == [Accepted(w, t)] + Rejections(w, t, ts)
    ensures |Spine(Term(w, t, ts))| == 1 + |Others(t, ts)|
    ensures forall t2 :: t2 in ts && t2.name != t.name ==> Not(Var(Assign(w, t2))) in Spine(Term(w, t, ts))
  {
    var rs := Rejections(w, t, ts);
    assert Spine(Accepted(w, t)) == [Accepted(w, t)];
    SpineConjoinAll(Accepted(w, t), rs);
    var spine := Spine(Term(w, t, ts));
    var others := Others(t, ts);
    OthersMembers(t, ts);
    forall t2 | t2 in ts && t2.name != t.name
      ensures Not(Var(Assign(w, t2))) in spine
    {
      var i :| 0 <= i < |others| && others[i] == t2;
      assert rs[i] == Not(Var(Assign(w, t2)));
      assert spine[i + 1] == rs[i];
    }
  }

  /** The conjuncts of the whole formula: exactly one disjunction per test, in order. */
  lemma {:induction false} BuildFormulaShape(s: Scheduler)
    ensures |Spine(BuildFormula(s))| == |s.testCollection.tests|
    ensures forall i :: 0 <= i < |s.testCollection.tests| ==>
      Spine(BuildFormula(s))[i]
        == Disjunction(s.workerCollection.workers, s.testCollection.tests[i], s.testCollection.tests)
    ensures forall i :: 0 <= i < |s.testCollection.tests| ==>
      |Spine(BuildFormula(s))[i].fs| == |Qualifying(s.workerCollection.workers, s.testCollection.tests[i])|
  {
    var ws := s.workerCollection.workers;
    var ts := s.testCollection.tests;
    SpineConjoinAll(True, seq(|ts|, i requires 0 <= i < |ts| => Disjunction(ws, ts[i], ts)));
  }

  /** A term holds exactly when its worker, test, running-state and assignment atoms are
      true and the worker's assignment atom for every differently-named test is false. */
  lemma {:induction false} EvalTerm(w: EW.Worker, t: ET.Test, ts: seq<ET.Test>, v: Valuation)
    ensures Eval(Term(w, t, ts), v) <==>
      && Holds(v, EW.Encode(w)) && Holds(v, ET.Encode(t))
      && Holds(v, TaskState(t, StateRunning)) && Holds(v, Assign(w, t))
      && forall t2 :: t2 in ts && t2.name != t.name ==> !Holds(v, Assign(w, t2))
  {
    EvalConjoinAll(Accepted(w, t), Rejections(w, t, ts), v);
    EvalAccepted(w, t, v);
    EvalRejections(w, t, ts, v);
  }

  lemma {:induction false} EvalAccepted(w: EW.Worker, t: ET.Test, v: Valuation)
    ensures Eval(Accepted(w, t), v) <==>
      Holds(v, EW.Encode(w)) && Holds(v, ET.Encode(t)) && Holds(v, TaskState(t, StateRunning)) && Holds(v, Assign(w, t))
  {
    var atoms := Accepted(w, t).fs;
    assert Eval(atoms[0], v) == Holds(v, EW.Encode(w));
    assert Eval(atoms[1], v) == Holds(v, ET.Encode(t));
    assert Eval(atoms[2], v) == Holds(v, TaskState(t, StateRunning));
    assert Eval(atoms[3], v) == Holds(v, Assign(w, t));
  }

  lemma {:induction false} EvalRejections(w: EW.Worker, t: ET.Test, ts: seq<ET.Test>, v: Valuation)
    ensures (forall i :: 0 <= i < |Rejections(w, t, ts)| ==> Eval(Rejections(w, t, ts)[i], v))
        <==> (forall t2 :: t2 in ts && t2.name != t.name ==> !Holds(v, Assign(w, t2)))
  {
    var rs := Rejections(w, t, ts);
    var others := Others(t, ts);
    OthersMembers(t, ts);
    if forall i :: 0 <= i < |rs| ==> Eval(rs[i], v) {
      forall t2 | t2 in ts && t2.name != t.name ensures !Holds(v, Assign(w, t2)) {
        var i :| 0 <= i < |others| && others[i] == t2;
        assert Eval(rs[i], v);
      }
    }
    if forall t2 :: t2 in ts && t2.name != t.name ==> !Holds(v, Assign(w, t2)) {
      forall i | 0 <= i < |rs| ensures Eval(rs[i], v) {
        assert others[i] in others;
      }
    }
  }

  /** The disjunction for `t` holds exactly when the term of some qualifying worker does. */
  lemma {:induction false} EvalDisjunction(ws: seq<EW.Worker>, t: ET.Test, ts: seq<ET.Test>, v: Valuation)
    ensures Eval(Disjunction(ws, t, ts), v) <==>
      exists j :: 0 <= j < |Qualifying(ws, t)| && Eval(Term(Qualifying(ws, t)[j], t, ts), v)
  {
    var terms := Disjunction(ws, t, ts).fs;
    assert forall j :: 0 <= j < |terms| ==> terms[j] == Term(Qualifying(ws, t)[j], t, ts);
  }

  /** The formula holds exactly when every test's disjunction holds. */
  lemma {:induction false} EvalBuildFormula(s: Scheduler, v: Valuation)
    ensures Eval(BuildFormula(s), v) <==>
      forall t :: t in s.testCollection.tests ==>
        Eval(Disjunction(s.workerCollection.workers, t, s.testCollection.tests), v)
  {
    var ws := s.workerCollection.workers;
    var ts := s.testCollection.tests;
    var ds := seq(|ts|, i requires 0 <= i < |ts| => Disjunction(ws, ts[i], ts));
    EvalConjoinAll(True, ds, v);
    if forall i :: 0 <= i < |ds| ==> Eval(ds[i], v) {
      forall t | t in ts ensures Eval(Disjunction(ws, t, ts), v) {
        var i :| 0 <= i < |ts| && ts[i] == t;
        assert Eval(ds[i], v);
      }
    }
  }

  /** Worker `w` is bound to `t` under `v`: it satisfies `t`, its assignment atom for `t`
      is true, and its assignment atom for every differently-named test is false. */
  predicate IsWitness(v: Valuation, w: EW.Worker, t: ET.Test, ts: seq<ET.Test>)
  {
    && EW.Satisfies(w, t)
    && Holds(v, Assign(w, t))
    && forall t2 :: t2 in ts && t2.name != t.name ==> !Holds(v, Assign(w, t2))
  }

  /** Exclusivity: in any valuation making the formula true, every test has a witness
      worker from the collection. */
  lemma {:induction false} Exclusivity(s: Scheduler, v: Valuation)
    requires Eval(BuildFormula(s), v)
    ensures forall t :: t in s.testCollection.tests ==>
      exists w :: w in s.workerCollection.workers && IsWitness(v, w, t, s.testCollection.tests)
  {
    var ws := s.workerCollection.workers;
    var ts := s.testCollection.tests;
    EvalBuildFormula(s, v);
    forall t | t in ts ensures exists w :: w in ws && IsWitness(v, w, t, ts) {
      EvalDisjunction(ws, t, ts, v);
      var q := Qualifying(ws, t);
      var j :| 0 <= j < |q| && Eval(Term(q[j], t, ts), v);
      var w := q[j];
      QualifyingMembers(ws, t);
      assert w in q;
      EvalTerm(w, t, ts, v);
      assert w in ws && IsWitness(v, w, t, ts);
    }
  }

  /** A worker whose term for `t1` holds cannot also have a true term for a
      differently-named test of the collection: two such tests never share a witness. */
  lemma {:induction false} NoSharedWitness(w: EW.Worker, t1: ET.Test, t2: ET.Test, ts: seq<ET.Test>, v: Valuation)
    requires t2 in ts && t1.name != t2.name
    requires Eval(Term(w, t1, ts), v)
    ensures !Eval(Term(w, t2, ts), v)
  {
    EvalTerm(w, t1, ts, v);
    EvalTerm(w, t2, ts, v);
  }

  /** The formula bounds how many tests a worker takes, not how many workers a test
      takes: with one test and two workers that both satisfy it, the valuation making
      all six of their atoms true satisfies the formula and binds both workers to it. */
  lemma {:induction false} TwoWitnessesOneTest(w1: EW.Worker, w2: EW.Worker, t: ET.Test, v: Valuation)
    requires EW.Satisfies(w1, t) && EW.Satisfies(w2, t)
    requires Holds(v, EW.Encode(w1)) && Holds(v, EW.Encode(w2))
    requires Holds(v, ET.Encode(t)) && Holds(v, TaskState(t, StateRunning))
    requires Holds(v, Assign(w1, t)) && Holds(v, Assign(w2, t))
    ensures Eval(BuildFormula(Scheduler(EW.WorkerColl([w1, w2]), ET.TestColl([t]))), v)
    ensures IsWitness(v, w1, t, [t]) && IsWitness(v, w2, t, [t])
  {
    var s := Scheduler(EW.WorkerColl([w1, w2]), ET.TestColl([t]));
    var ws := [w1, w2];
    EvalTerm(w1, t, [t], v);
    EvalTerm(w2, t, [t], v);
    QualifyingMembers(ws, t);
    var q := Qualifying(ws, t);
    assert w1 in q;
    var j :| 0 <= j < |q| && q[j] == w1;
    assert Eval(Term(q[j], t, [t]), v);
    EvalDisjunction(ws, t, [t], v);
    assert forall t2 :: t2 in [t] ==> t2 == t;
    EvalBuildFormula(s, v);
  }

  /** Two differently-named workers of class `c` and one test requiring `c`: some
      valuation satisfies the formula while binding both workers to the test. The records
      are parameters fixed by the precondition rather than literals in the postcondition,
      which keeps the verifier from unfolding the codec on literal text. */
  lemma {:induction false} TwoWitnessesExample(w1: EW.Worker, w2: EW.Worker, t: ET.Test)
    requires w1 == EW.Worker("a", 0, ["c"]) && w2 == EW.Worker("b", 0, ["c"])
    requires t == ET.Test(["c"], "t", "", [])
    ensures w1 != w2
    ensures exists v :: && Eval(BuildFormula(Scheduler(EW.WorkerColl([w1, w2]), ET.TestColl([t]))), v)
                        && IsWitness(v, w1, t, [t]) && IsWitness(v, w2, t, [t])
  {
    assert w1.name != w2.name;
    assert "c" in w1.workerClass && "c" in w2.workerClass && "c" in t.workerClass;
    var atoms := {EW.Encode(w1), EW.Encode(w2), ET.Encode(t), TaskState(t, StateRunning),
                  Assign(w1, t), Assign(w2, t)};
    var v := map a | a in atoms :: true;
    TwoWitnessesOneTest(w1, w2, t, v);
  }

  /** A test no worker satisfies has an empty disjunction, so no valuation makes the
      formula true. */
  lemma {:induction false} UnmatchedTestUnsat(s: Scheduler, t: ET.Test, v: Valuation)
    requires t in s.testCollection.tests
    requires forall w :: w in s.workerCollection.workers ==> !EW.Satisfies(w, t)
    ensures !Eval(BuildFormula(s), v)
  {
    EvalBuildFormula(s, v);
    EvalDisjunction(s.workerCollection.workers, t, s.testCollection.tests, v);
    QualifyingMembers(s.workerCollection.workers, t);
    var q := Qualifying(s.workerCollection.workers, t);
    assert forall j :: 0 <= j < |q| ==> q[j] in q;
  }

  /** The atoms of a term: the worker, test, running-state and assignment atoms of the
      pair, and the worker's assignment atom for each differently-named test. */
  lemma {:induction false} AtomsOfTerm(w: EW.Worker, t: ET.Test, ts: seq<ET.Test>, a: string)
    ensures a in Atoms(Term(w, t, ts)) <==>
      || a == EW.Encode(w) || a == ET.Encode(t) || a == TaskState(t, StateRunning) || a == Assign(w, t)
      || exists t2 :: t2 in ts && t2.name != t.name && a == Assign(w, t2)
  {
    AtomsConjoinAll(Accepted(w, t), Rejections(w, t, ts), a);
    AtomsOfAccepted(w, t, a);
    AtomsOfRejections(w, t, ts, a);
  }

  lemma {:induction false} AtomsOfAccepted(w: EW.Worker, t: ET.Test, a: string)
    ensures a in Atoms(Accepted(w, t)) <==>
      a == EW.Encode(w) || a == ET.Encode(t) || a == TaskState(t, StateRunning) || a == Assign(w, t)
  {
    var fs := Accepted(w, t).fs;
    assert a in Atoms(Accepted(w, t)) <==> exists i :: 0 <= i < 4 && a in Atoms(fs[i]);
    assert Atoms(fs[0]) == {EW.Encode(w)} && Atoms(fs[1]) == {ET.Encode(t)};
    assert Atoms(fs[2]) == {TaskState(t, StateRunning)} && Atoms(fs[3]) == {Assign(w, t)};
  }

  lemma {:induction false} AtomsOfRejections(w: EW.Worker, t: ET.Test, ts: seq<ET.Test>, a: string)
    ensures (exists i :: 0 <= i < |Rejections(w, t, ts)| && a in Atoms(Rejections(w, t, ts)[i])) <==>
      exists t2 :: t2 in ts && t2.name != t.name && a == Assign(w, t2)
  {
    var rs := Rejections(w, t, ts);
    var others := Others(t, ts);
    OthersMembers(t, ts);
    assert forall i :: 0 <= i < |rs| ==> Atoms(rs[i]) == {Assign(w, others[i])};
    if exists t2 :: t2 in ts && t2.name != t.name && a == Assign(w, t2) {
      var t2 :| t2 in ts && t2.name != t.name && a == Assign(w, t2);
      var i :| 0 <= i < |others| && others[i] == t2;
      assert a in Atoms(rs[i]);
    }
    if exists i :: 0 <= i < |rs| && a in Atoms(rs[i]) {
      var i :| 0 <= i < |rs| && a in Atoms(rs[i]);
      assert others[i] in others;
    }
  }

  /** An atom the formula can mention: the encoding of a worker or a test of the
      collections, a test's running-state atom, or an assignment atom of a worker and a
      test of the collections. */
  predicate BuiltAtom(a: string, ws: seq<EW.Worker>, ts: seq<ET.Test>)
  {
    exists w, t :: w in ws && t in ts &&
      (a == EW.Encode(w) || a == ET.Encode(t) || a == TaskState(t, StateRunning) || a == Assign(w, t))
  }

  /** Every atom of the disjunction for `t` is an atom of the term of a qualifying
      worker. */
  lemma {:induction false} AtomsOfDisjunction(ws: seq<EW.Worker>, t: ET.Test, ts: seq<ET.Test>, a: string)
    requires a in Atoms(Disjunction(ws, t, ts))
    ensures exists w :: w in ws && EW.Satisfies(w, t) && a in Atoms(Term(w, t, ts))
  {
    var q := Qualifying(ws, t);
    var terms := Disjunction(ws, t, ts).fs;
    var j :| 0 <= j < |terms| && a in Atoms(terms[j]);
    assert terms[j] == Term(q[j], t, ts);
    QualifyingMembers(ws, t);
    assert q[j] in q;
  }

  /** Every atom of the formula is one built from the collections. */
  lemma {:induction false} AtomsOfBuildFormula(s: Scheduler, a: string)
    requires a in Atoms(BuildFormula(s))
    ensures BuiltAtom(a, s.workerCollection.workers, s.testCollection.tests)
  {
    var ws := s.workerCollection.workers;
    var ts := s.testCollection.tests;
    var ds := seq(|ts|, i requires 0 <= i < |ts| => Disjunction(ws, ts[i], ts));
    AtomsConjoinAll(True, ds, a);
    var i :| 0 <= i < |ds| && a in Atoms(ds[i]);
    var t := ts[i];
    AtomsOfDisjunction(ws, t, ts, a);
    var w :| w in ws && EW.Satisfies(w, t) && a in Atoms(Term(w, t, ts));
    AtomsOfTerm(w, t, ts, a);
    if a == EW.Encode(w) || a == ET.Encode(t) || a == TaskState(t, StateRunning) || a == Assign(w, t) {
      assert t in ts;
    } else {
      var t2 :| t2 in ts && t2.name != t.name && a == Assign(w, t2);
      assert a == Assign(w, t2);
    }
  }

  /** Every qualifying pair of the collections has its assignment atom in the formula. */
  lemma {:induction false} AssignAtomPresent(s: Scheduler, w: EW.Worker, t: ET.Test)
    requires w in s.workerCollection.workers && t in s.testCollection.tests
    requires EW.Satisfies(w, t)
    ensures Assign(w, t) in Atoms(BuildFormula(s))
  {
    var ws := s.workerCollection.workers;
    var ts := s.testCollection.tests;
    var ds := seq(|ts|, i requires 0 <= i < |ts| => Disjunction(ws, ts[i], ts));
    var i :| 0 <= i < |ts| && ts[i] == t;
    AssignAtomInDisjunction(ws, w, t, ts);
    assert Assign(w, t) in Atoms(ds[i]);
    AtomsConjoinAll(True, ds, Assign(w, t));
  }

  /** The assignment atom of a qualifying worker occurs in the test's disjunction. */
  lemma {:induction false} AssignAtomInDisjunction(ws: seq<EW.Worker>, w: EW.Worker, t: ET.Test, ts: seq<ET.Test>)
    requires w in ws && EW.Satisfies(w, t)
    ensures Assign(w, t) in Atoms(Disjunction(ws, t, ts))
  {
    QualifyingMembers(ws, t);
    var q := Qualifying(ws, t);
    var j :| 0 <= j < |q| && q[j] == w;
    AtomsOfTerm(w, t, ts, Assign(w, t));
    assert Assign(w, t) in Atoms(Disjunction(ws, t, ts).fs[j]);
  }

  /** Over `@`-free entities no atom of the formula splits into three `@`-fields. */
  lemma {:induction false} BuiltAtomFields(a: string, ws: seq<EW.Worker>, ts: seq<ET.Test>)
    requires forall w :: w in ws ==> EW.FreeOf(w, AssignSep)
    requires forall t :: t in ts ==> ET.FreeOf(t, AssignSep)
    requires BuiltAtom(a, ws, ts)
    ensures |Split(a, AssignSep)| <= 2
  {
    var w, t :| w in ws && t in ts &&
      (a == EW.Encode(w) || a == ET.Encode(t) || a == TaskState(t, StateRunning) || a == Assign(w, t));
    EW.EncodeFree(w, AssignSep);
    ET.EncodeFree(t, AssignSep);
    if a == Assign(w, t) {
      AssignFields(w, t);
    } else {
      assert AssignSep !in TaskState(t, StateRunning);
      SplitFree(a, AssignSep);
    }
  }

  /** The arity mismatch in full: when names and classes hold no `@`, a solved model
      whose keys are all atoms of the formula decodes to no assignment at all. */
  lemma {:induction false} ModelOfFormulaDecodesEmpty(s: Scheduler, model: seq<(string, bool)>)
    requires forall w :: w in s.workerCollection.workers ==> EW.FreeOf(w, AssignSep)
    requires forall t :: t in s.testCollection.tests ==> ET.FreeOf(t, AssignSep)
    requires forall j :: 0 <= j < |model| ==> model[j].0 in Atoms(BuildFormula(s))
    ensures forall j :: 0 <= j < |model| ==> Decoder.AssignmentInDomain(model[j].0)
    ensures Decoder.DecodeModel(model) == []
  {
    forall j | 0 <= j < |model| ensures |Split(model[j].0, AssignSep)| != 3 {
      AtomsOfBuildFormula(s, model[j].0);
      BuiltAtomFields(model[j].0, s.workerCollection.workers, s.testCollection.tests);
    }
    Decoder.DecodeModelSkipsOtherAtoms(model);
  }

  /** The contract assumed of the external solver: an answer it gives is a valuation
      making the formula true. */
  predicate SolverAnswers(f: Formula, answer: Option<Valuation>)
  {
    answer.Some? ==> Eval(f, answer.value)
  }

  const NoSchedule: string := "Error: cannot assign tests to workers"

  /** What `Solve` returns: the model, if any, the formula it was given, and the error. */
  datatype Solution = Solution(model: Option<Valuation>, formula: Formula, error: Option<string>)

  /** `Solve`, given the external solver's answer for `f`: the model is the solver's
      answer, the error is set exactly when the solver gives none, a returned model makes
      `f` true, and `f` is handed back. */
  function Solve(f: Formula, answer: Option<Valuation>): (r: Solution)
    requires SolverAnswers(f, answer)
    ensures r.model == answer
    ensures r.formula == f
    ensures r.error.Some? <==> answer.None?
    ensures r.error.Some? ==> r.error.value == NoSchedule
    ensures r.model.Some? ==> Eval(f, r.model.value)
  {
    if answer.None? then Solution(None, f, Some(NoSchedule)) else Solution(answer, f, None)
  }

  /** `Schedule` solves the built formula: the model is the solver's answer for it, the
      error is set exactly when there is none, and on success every test of the
      collection has a witness worker under the model. */
  function Schedule(s: Scheduler, answer: Option<Valuation>): (r: Solution)
    requires SolverAnswers(BuildFormula(s), answer)
    ensures r == Solve(BuildFormula(s), answer)
    ensures r.model == answer
    ensures r.formula == BuildFormula(s)
    ensures r.error.Some? <==> answer.None?
    ensures r.model.Some? ==> forall t :: t in s.testCollection.tests ==>
      exists w :: w in s.workerCollection.workers && IsWitness(r.model.value, w, t, s.testCollection.tests)
  {
    var r := Solve(BuildFormula(s), answer);
    if r.model.Some? then Exclusivity(s, r.model.value); r else r
  }

  /** A collection holding a test no worker satisfies cannot be scheduled: whatever a
      sound solver answers, `Schedule` reports the error. */
  lemma {:induction false} ScheduleUnmatchedFails(s: Scheduler, t: ET.Test, answer: Option<Valuation>)
    requires t in s.testCollection.tests
    requires forall w :: w in s.workerCollection.workers ==> !EW.Satisfies(w, t)
    requires SolverAnswers(BuildFormula(s), answer)
    ensures Schedule(s, answer).error == Some(NoSchedule)
  {
    if answer.Some? {
      UnmatchedTestUnsat(s, t, answer.value);
    }
  }

  /** The instance of scheduler/schedule_test.go: `mudler` provides `developer`,
      `mudler_away` provides nothing; `lunch` requires `developer`, `hiking` requires
      nothing. With an empty disjunction false, `hiking` has no qualifying worker and the
      instance cannot be scheduled, although that test expects a schedule. */
  lemma {:induction false} ScheduleTestInstanceUnsat(answer: Option<Valuation>)
    requires SolverAnswers(BuildFormula(TestInstance()), answer)
    ensures Schedule(TestInstance(), answer).error == Some(NoSchedule)
  {
    var s := TestInstance();
    var hiking := s.testCollection.tests[1];
    assert hiking in s.testCollection.tests;
    forall w | w in s.workerCollection.workers ensures !EW.Satisfies(w, hiking) {
      assert hiking.workerClass == [];
    }
    ScheduleUnmatchedFails(s, hiking, answer);
  }

  /** The two workers and two tests set up in scheduler/schedule_test.go. */
  function TestInstance(): Scheduler
  {
    Scheduler(
      EW.WorkerColl([EW.Worker("mudler", 0, ["developer"]), EW.Worker("mudler_away", 0, [])]),
      ET.TestColl([ET.Test(["developer"], "lunch", "", []), ET.Test([], "hiking", "", [])]))
  }
}
