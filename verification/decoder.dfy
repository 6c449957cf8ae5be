/** Assignments, the test and assignment decoders, and decoding of a solved model. */
module Decoder {
  import opened Wrappers
  import opened Strings
  import opened Constants
  import ET = EncoderTest
  import EW = EncoderWorker

  /** A (test, worker, schedule state) relation and whether it holds. */
  datatype Assignment = Assignment(worker: EW.Worker, test: ET.Test, state: string, value: bool)

  const Malformed: string := "Decode error: malformed string"

  /** `Assignment.Encode`: test atom `@` worker atom `@` state. */
  function Encode(a: Assignment): string
  {
    AssignFmt(ET.Encode(a.test), EW.Encode(a.worker), a.state)
  }

  /** Inputs on which `DecodeTest` does not index past the end of its split: any number
      of `#` except exactly two (three fields pass the length guard but field 3 is read). */
  predicate TestInDomain(s: string)
  {
    |Split(s, TestSep)| != 3
  }

  /** `DecodeTest` (it never returns an error): the name is the text before the first
      `#`. With at most one `#` nothing else is set; with three or more, fields 1 to 3
      give the comma-split classes, the parent and the comma-split parallel names, each
      list non-empty and made of pieces free of `,` and `#`. */
  function DecodeTest(s: string): (t: ET.Test)
    requires TestInDomain(s)
    ensures t.name <= s && TestSep !in t.name
    ensures |t.name| < |s| ==> s[|t.name|] == TestSep
    ensures |Split(s, TestSep)| <= 2 ==> t.workerClass == [] && t.parent == "" && t.parallel == []
    ensures |Split(s, TestSep)| >= 4 ==>
      && Join(t.workerClass, WorkerClassSep) == Split(s, TestSep)[1]
      && t.parent == Split(s, TestSep)[2]
      && Join(t.parallel, TestParallelSep) == Split(s, TestSep)[3]
    ensures |Split(s, TestSep)| >= 4 ==>
      && |t.workerClass| >= 1 && |t.parallel| >= 1
      && (forall i :: 0 <= i < |t.workerClass| ==>
            WorkerClassSep !in t.workerClass[i] && TestSep !in t.workerClass[i])
      && (forall i :: 0 <= i < |t.parallel| ==>
            TestParallelSep !in t.parallel[i] && TestSep !in t.parallel[i])
  {
    var testAtt := Split(s, TestSep);
    if |testAtt| > 2 then
      JoinSplit(testAtt[1], WorkerClassSep);
      JoinSplit(testAtt[3], TestParallelSep);
      SplitPiecesFree(testAtt[1], WorkerClassSep, TestSep);
      SplitPiecesFree(testAtt[3], TestParallelSep, TestSep);
      ET.Test(Split(testAtt[1], WorkerClassSep), testAtt[0], testAtt[2], Split(testAtt[3], TestParallelSep))
    else
      ET.Test([], testAtt[0], "", [])
  }

  /** If no field of `t` contains `#`, decoding its encoding keeps the name and the parent
      and re-encodes to the same text; each list comes back unchanged when it is non-empty
      and comma-free. */
  lemma {:induction false} DecodeTestEncode(t: ET.Test)
    requires ET.FreeOf(t, TestSep)
    ensures TestInDomain(ET.Encode(t))
    ensures DecodeTest(ET.Encode(t)).name == t.name
    ensures DecodeTest(ET.Encode(t)).parent == t.parent
    ensures ET.Encode(DecodeTest(ET.Encode(t))) == ET.Encode(t)
    ensures |t.workerClass| >= 1 && (forall i :: 0 <= i < |t.workerClass| ==> WorkerClassSep !in t.workerClass[i])
      ==> DecodeTest(ET.Encode(t)).workerClass == t.workerClass
    ensures |t.parallel| >= 1 && (forall i :: 0 <= i < |t.parallel| ==> TestParallelSep !in t.parallel[i])
      ==> DecodeTest(ET.Encode(t)).parallel == t.parallel
  {
    ET.EncodeFields(t);
    var classes := Join(t.workerClass, WorkerClassSep);
    var parallel := Join(t.parallel, TestParallelSep);
    JoinSplit(classes, WorkerClassSep);
    JoinSplit(parallel, TestParallelSep);
    if |t.workerClass| >= 1 && (forall i :: 0 <= i < |t.workerClass| ==> WorkerClassSep !in t.workerClass[i]) {
      SplitJoin(t.workerClass, WorkerClassSep);
    }
    if |t.parallel| >= 1 && (forall i :: 0 <= i < |t.parallel| ==> TestParallelSep !in t.parallel[i]) {
      SplitJoin(t.parallel, TestParallelSep);
    }
  }

  /** Worker and test atoms share the `#` separator; for separator-free entities the
      number of `#`-fields (two against four) is what tells them apart. */
  lemma {:induction false} ShapesByFieldCount(w: EW.Worker, t: ET.Test)
    requires WorkerInstSep !in w.name && EW.FreeOf(w, WorkerSep)
    requires ET.FreeOf(t, TestSep)
    ensures |Split(EW.Encode(w), WorkerSep)| == 2
    ensures |Split(ET.Encode(t), TestSep)| == 4
    ensures EW.Encode(w) != ET.Encode(t)
  {
    EW.DecodeEncode(w);
    ET.EncodeFields(t);
    JoinFree(w.workerClass, WorkerClassSep, WorkerSep);
    WorkerFormatFields(w.name, w.instance, Join(w.workerClass, WorkerClassSep));
  }

  /** Inputs on which `DecodeAssignment` does not panic inside the field decoders. */
  predicate AssignmentInDomain(s: string)
  {
    var dataRow := Split(s, AssignSep);
    |dataRow| != 3 || (TestInDomain(dataRow[0]) && EW.InDomain(dataRow[1]))
  }

  /** `DecodeAssignment`: fails unless the text holds exactly two `@`, or when the worker
      field does not decode; otherwise the relation is taken to hold and the state is the
      text after the second `@`. */
  function DecodeAssignment(s: string): (r: Result<Assignment, string>)
    requires AssignmentInDomain(s)
    ensures AssignSep !in s ==> r.Failure?
    ensures r.Failure? <==> |Split(s, AssignSep)| != 3 || EW.DecodeWorker(Split(s, AssignSep)[1]).Failure?
    ensures r.Success? ==>
      && Count(s, AssignSep) == 2
      && r.value.value
      && r.value.state == Split(s, AssignSep)[2]
      && AssignSep !in r.value.state
  {
    SplitCount(s, AssignSep);
    if AssignSep !in s then Failure(Malformed)
    else
      var dataRow := Split(s, AssignSep);
      if |dataRow| != 3 then Failure(Malformed)
      else
        var t := DecodeTest(dataRow[0]);
        match EW.DecodeWorker(dataRow[1])
        case Failure(e) => Failure(e)
        case Success(w) => Success(Assignment(w, t, dataRow[2], true))
  }

  /** The caller-respected rule that names hold no separator, as the assignment round
      trip needs it. */
  predicate WellFormed(a: Assignment)
  {
    && ET.FreeOf(a.test, TestSep) && ET.FreeOf(a.test, AssignSep)
    && EW.FreeOf(a.worker, WorkerSep) && EW.FreeOf(a.worker, AssignSep)
    && WorkerInstSep !in a.worker.name
    && AssignSep !in a.state
  }

  /** Decoding the encoding of a well-formed assignment succeeds, reproduces the test
      name, the worker name and instance and the state, marks the relation as holding,
      and re-encodes to the same text. */
  lemma {:induction false} DecodeAssignmentEncode(a: Assignment)
    requires WellFormed(a)
    ensures AssignmentInDomain(Encode(a))
    ensures DecodeAssignment(Encode(a)).Success?
    ensures DecodeAssignment(Encode(a)).value.test.name == a.test.name
    ensures DecodeAssignment(Encode(a)).value.worker.name == a.worker.name
    ensures DecodeAssignment(Encode(a)).value.worker.instance == a.worker.instance
    ensures DecodeAssignment(Encode(a)).value.state == a.state
    ensures DecodeAssignment(Encode(a)).value.value
    ensures Encode(DecodeAssignment(Encode(a)).value) == Encode(a)
  {
    var te := ET.Encode(a.test);
    var we := EW.Encode(a.worker);
    ET.EncodeFree(a.test, AssignSep);
    EW.EncodeFree(a.worker, AssignSep);
    AssignFmtFields(te, we, a.state);
    DecodeTestEncode(a.test);
    EW.DecodeEncode(a.worker);
    DecodeFields(te, we, a.state);
  }

  /** Decoding an assignment atom whose three `@`-fields decode on their own. */
  lemma {:induction false} DecodeFields(te: string, we: string, state: string)
    requires Split(AssignFmt(te, we, state), AssignSep) == [te, we, state]
    requires TestInDomain(te) && EW.InDomain(we) && EW.DecodeWorker(we).Success?
    ensures AssignmentInDomain(AssignFmt(te, we, state))
    ensures DecodeAssignment(AssignFmt(te, we, state))
         == Success(Assignment(EW.DecodeWorker(we).value, DecodeTest(te), state, true))
  {
    assert AssignSep in AssignFmt(te, we, state);
  }

  /** What one key/value pair of the solved model yields when its key decodes: the
      decoded assignment carrying the model's value. */
  function Decoded(p: (string, bool)): (r: Option<Assignment>)
    requires AssignmentInDomain(p.0)
  {
    match DecodeAssignment(p.0)
    case Success(a) => Some(a.(value := p.1))
    case Failure(_) => None
  }

  /** `DecodeModel` over the solved map, taken as its key/value pairs in iteration order:
      keys that do not decode are skipped, decoded `old`-state assignments are dropped,
      and every `current`-state one is kept with the value the model gives its key. */
  function DecodeModel(model: seq<(string, bool)>): (r: seq<Assignment>)
    requires forall j :: 0 <= j < |model| ==> AssignmentInDomain(model[j].0)
    ensures |r| <= |model|
    ensures forall i :: 0 <= i < |r| ==> r[i].state == StateCurrent
    ensures forall i :: 0 <= i < |r| ==> exists j :: 0 <= j < |model| && Decoded(model[j]) == Some(r[i])
    ensures forall j :: 0 <= j < |model| && Decoded(model[j]).Some? && Decoded(model[j]).value.state == StateCurrent
              ==> Decoded(model[j]).value in r
  {
    if |model| == 0 then []
    else
      var rest := DecodeModel(model[1..]);
      assert forall j :: 1 <= j < |model| ==> model[j] == model[1..][j - 1];
      assert forall i :: 0 <= i < |rest| ==> exists j :: 0 <= j < |model| && Decoded(model[j]) == Some(rest[i]) by {
        forall i | 0 <= i < |rest| ensures exists j :: 0 <= j < |model| && Decoded(model[j]) == Some(rest[i]) {
          var j :| 0 <= j < |model[1..]| && Decoded(model[1..][j]) == Some(rest[i]);
          assert model[1..][j] == model[j + 1];
        }
      }
      match Decoded(model[0])
      case None => rest
      case Some(a) => if a.state == StateCurrent then [a] + rest else rest
  }

  /** A model decodes key by key: decoding two consecutive stretches of key/value pairs
      gives the decode of the first followed by the decode of the second, so each key
      contributes its own decode once, in order. */
  lemma {:induction false} DecodeModelAppend(m1: seq<(string, bool)>, m2: seq<(string, bool)>)
    requires InModelDomain(m1) && InModelDomain(m2)
    ensures InModelDomain(m1 + m2)
    ensures DecodeModel(m1 + m2) == DecodeModel(m1) + DecodeModel(m2)
    decreases |m1|
  {
    AppendInDomain(m1, m2);
    if |m1| == 0 {
      assert m1 + m2 == m2;
    } else {
      var m := m1 + m2;
      assert m[..1] == m1[..1];
      assert m[1..] == m1[1..] + m2;
      TailInDomain(m1);
      DecodeModelAppend(m1[1..], m2);
      DecodeModelUnfold(m);
      DecodeModelUnfold(m1);
      SeqAssoc(DecodeModel(m1[..1]), DecodeModel(m1[1..]), DecodeModel(m2));
    }
  }

  /** Every key of the model lies in the decoder's domain. */
  predicate InModelDomain(m: seq<(string, bool)>)
  {
    forall j :: 0 <= j < |m| ==> AssignmentInDomain(m[j].0)
  }

  /** Two models in the domain concatenate to one in the domain. */
  lemma {:induction false} AppendInDomain(m1: seq<(string, bool)>, m2: seq<(string, bool)>)
    requires InModelDomain(m1) && InModelDomain(m2)
    ensures InModelDomain(m1 + m2)
  {
    forall j | 0 <= j < |m1 + m2| ensures AssignmentInDomain((m1 + m2)[j].0) {
      if j >= |m1| { assert (m1 + m2)[j] == m2[j - |m1|]; }
    }
  }

  /** Dropping the first key keeps a model in the domain. */
  lemma {:induction false} TailInDomain(m: seq<(string, bool)>)
    requires |m| > 0 && InModelDomain(m)
    ensures InModelDomain(m[1..])
  {
    forall j | 0 <= j < |m| - 1 ensures AssignmentInDomain(m[1..][j].0) {
      assert m[1..][j] == m[j + 1];
    }
  }

  /** Concatenation is associative. */
  lemma {:induction false} SeqAssoc<T>(a: seq<T>, b: seq<T>, c: seq<T>)
    ensures a + (b + c) == (a + b) + c
  {
  }

  /** One step of `DecodeModel`: the first key's decode, then the rest's. */
  lemma {:induction false} DecodeModelUnfold(m: seq<(string, bool)>)
    requires |m| > 0 && InModelDomain(m)
    ensures DecodeModel(m) == DecodeModel(m[..1]) + DecodeModel(m[1..])
  {
    assert m[..1] == [(m[0].0, m[0].1)];
    TailInDomain(m);
    DecodeModelOne(m[0].0, m[0].1);
  }

  /** Keys that do not split into three `@`-fields contribute nothing. */
  lemma {:induction false} DecodeModelSkipsOtherAtoms(model: seq<(string, bool)>)
    requires forall j :: 0 <= j < |model| ==> |Split(model[j].0, AssignSep)| != 3
    ensures forall j :: 0 <= j < |model| ==> AssignmentInDomain(model[j].0)
    ensures DecodeModel(model) == []
  {
    var r := DecodeModel(model);
    if |r| > 0 {
      var j :| 0 <= j < |model| && Decoded(model[j]) == Some(r[0]);
      assert false;
    }
  }

  /** A one-key model holding a well-formed assignment: a `current` key comes back as one
      assignment with the key's text and the model's value, whether true or false; an
      `old` key yields nothing. */
  lemma {:induction false} DecodeModelSingle(a: Assignment, v: bool)
    requires WellFormed(a)
    ensures AssignmentInDomain(Encode(a))
    ensures a.state == StateCurrent ==>
      && |DecodeModel([(Encode(a), v)])| == 1
      && Encode(DecodeModel([(Encode(a), v)])[0]) == Encode(a)
      && DecodeModel([(Encode(a), v)])[0].value == v
    ensures a.state == StateOld ==> DecodeModel([(Encode(a), v)]) == []
  {
    DecodeAssignmentEncode(a);
    var k := Encode(a);
    DecodeModelOne(k, v);
    var d := DecodeAssignment(k).value;
    assert Decoded((k, v)) == Some(d.(value := v));
    assert Encode(d.(value := v)) == Encode(d);
  }

  /** `DecodeModel` on a model with a single key. */
  lemma {:induction false} DecodeModelOne(k: string, v: bool)
    requires AssignmentInDomain(k)
    ensures Decoded((k, v)).Some? && Decoded((k, v)).value.state == StateCurrent
      ==> DecodeModel([(k, v)]) == [Decoded((k, v)).value]
    ensures Decoded((k, v)).None? || Decoded((k, v)).value.state != StateCurrent
      ==> DecodeModel([(k, v)]) == []
  {
    assert [(k, v)][1..] == [];
  }

  /** The assignment encoding checked in decoder/decoder_test.go. */
  lemma {:induction false} EncodeExample()
    ensures Encode(Assignment(EW.Worker("mudler", 0, ["developer"]), ET.Test(["developer"], "lunch", "", []), StateCurrent, true))
         == "lunch#developer##@mudler:0#developer@current"
  {
    EncodeOneClass("mudler", "lunch", "developer", StateCurrent);
  }

  /** A fresh worker and a test sharing one class, and nothing else, encode field by field. */
  lemma {:induction false} EncodeOneClass(worker: string, test: string, wc: string, state: string)
    ensures Encode(Assignment(EW.Worker(worker, 0, [wc]), ET.Test([wc], test, "", []), state, true))
         == test + "#" + wc + "##@" + worker + ":0#" + wc + "@" + state
  {
    ET.EncodeNameAndClass(test, wc);
    EW.EncodeFreshWithClass(worker, wc);
  }

  /** The malformed inputs rejected in decoder/decoder_test.go: no `@`, and one `@`. */
  lemma {:induction false} RejectsExamples()
    ensures AssignmentInDomain("fail") && DecodeAssignment("fail").Failure?
    ensures AssignmentInDomain("fail@") && DecodeAssignment("fail@").Failure?
  {
    SplitCount("fail", AssignSep);
    SplitCount("fail@", AssignSep);
    assert "fail@" == "fail" + [AssignSep];
    assert multiset("fail@")[AssignSep] == 1;
  }

  /** The test decode check of encoder/test_test.go: decoding the encoding of `t1` keeps
      its name and class list, so it still requires `qemu32`. The record is a parameter fixed by the precondition rather than a literal in the
      postcondition, which keeps the verifier from unfolding the codec on literal text. */
  lemma {:induction false} DecodeTestExample(t: ET.Test)
    requires t == ET.Test(["qemu32", "qemu64"], "t1", "t2", ["t2"])
    ensures TestInDomain(ET.Encode(t))
    ensures DecodeTest(ET.Encode(t)).name == "t1"
    ensures ET.RequiresWorkerClass(DecodeTest(ET.Encode(t)), "qemu32")
  {
    assert forall i :: 0 <= i < |t.workerClass| ==> t.workerClass[i] == "qemu32" || t.workerClass[i] == "qemu64";
    DecodeTestKeepsClasses(t);
  }

  /** Decoding the encoding of a `#`-free test with a non-empty, comma-free class list
      keeps every class it requires. */
  lemma {:induction false} DecodeTestKeepsClasses(t: ET.Test)
    requires ET.FreeOf(t, TestSep)
    requires |t.workerClass| >= 1 && forall i :: 0 <= i < |t.workerClass| ==> WorkerClassSep !in t.workerClass[i]
    ensures TestInDomain(ET.Encode(t))
    ensures DecodeTest(ET.Encode(t)).name == t.name
    ensures forall c :: ET.RequiresWorkerClass(DecodeTest(ET.Encode(t)), c) <==> ET.RequiresWorkerClass(t, c)
  {
    DecodeTestEncode(t);
  }
}
