/** Workers: the record, its collection, capability matching, and its atom codec. */
module EncoderWorker {
  import opened Wrappers
  import opened Strings
  import Strconv
  import opened Constants
  import opened EncoderTest

  /** A worker machine: a name, an instance number telling same-named workers apart, and
      the worker classes it provides. */
  datatype Worker = Worker(name: string, instance: int, workerClass: seq<string>)

  /** An ordered collection of workers, owned by the caller. */
  datatype WorkerColl = WorkerColl(workers: seq<Worker>)

  function NewWorkerColl(): (c: WorkerColl)
    ensures |c.workers| == 0
  {
    WorkerColl([])
  }

  /** `AddWorker`: appends `w` and keeps every earlier entry in place. */
  function AddWorker(coll: WorkerColl, w: Worker): (r: WorkerColl)
    ensures |r.workers| == |coll.workers| + 1
    ensures r.workers[..|coll.workers|] == coll.workers
    ensures r.workers[|coll.workers|] == w
  {
    WorkerColl(coll.workers + [w])
  }

  /** `NewWorker`: appends a worker with only a name (instance 0, no classes) and returns
      it with the new collection. */
  function NewWorker(coll: WorkerColl, name: string): (r: (WorkerColl, Worker))
    ensures r.1.name == name && r.1.instance == 0 && r.1.workerClass == []
    ensures |r.0.workers| == |coll.workers| + 1
    ensures r.0.workers[..|coll.workers|] == coll.workers
    ensures r.0.workers[|coll.workers|] == r.1
  {
    var w := Worker(name, 0, []);
    (AddWorker(coll, w), w)
  }

  /** `ProvidesWorkerClass`: the worker offers class `s`. */
  function ProvidesWorkerClass(w: Worker, s: string): (r: bool)
    ensures r <==> s in w.workerClass
  {
    Includes(w.workerClass, s)
  }

  /** The loop of `Satisfies`: some class in `cs` is accepted by `t`. */
  function AnyRequired(cs: seq<string>, t: Test): (r: bool)
    ensures r <==> exists i :: 0 <= i < |cs| && cs[i] in t.workerClass
  {
    if |cs| == 0 then false
    else if RequiresWorkerClass(t, cs[0]) then true
    else
      var r := AnyRequired(cs[1..], t);
      assert r ==> exists i :: 0 <= i < |cs| && cs[i] in t.workerClass by {
        if r {
          var j :| 0 <= j < |cs| - 1 && cs[1..][j] in t.workerClass;
          assert cs[j + 1] in t.workerClass;
        }
      }
      r
  }

  /** `Satisfies`: the worker and the test share at least one class. A worker without
      classes satisfies no test. */
  function Satisfies(w: Worker, t: Test): (r: bool)
    ensures r <==> exists c :: c in w.workerClass && c in t.workerClass
    ensures w.workerClass == [] ==> !r
  {
    var r := AnyRequired(w.workerClass, t);
    assert r <==> exists c :: c in w.workerClass && c in t.workerClass by {
      if r {
        var i :| 0 <= i < |w.workerClass| && w.workerClass[i] in t.workerClass;
        assert w.workerClass[i] in w.workerClass;
      }
    }
    r
  }

  /** `AddWorkerClass`: one more class; name and instance unchanged; the new class is
      provided and every test satisfied before is still satisfied. */
  function AddWorkerClass(w: Worker, wc: string): (r: Worker)
    ensures r.workerClass == w.workerClass + [wc]
    ensures r.name == w.name && r.instance == w.instance
    ensures ProvidesWorkerClass(r, wc)
    ensures forall s :: ProvidesWorkerClass(r, s) <==> ProvidesWorkerClass(w, s) || s == wc
    ensures forall t :: Satisfies(w, t) ==> Satisfies(r, t)
  {
    var r := w.(workerClass := w.workerClass + [wc]);
    assert forall c :: c in w.workerClass ==> c in r.workerClass;
    r
  }

  /** `Encode`: `name:instance#classes`, the classes comma-joined. */
  function Encode(w: Worker): string
  {
    WorkerEncodeFormat(w.name, w.instance, Join(w.workerClass, WorkerClassSep))
  }

  /** No field of `w` contains `c`. */
  predicate FreeOf(w: Worker, c: char)
  {
    && c !in w.name
    && forall i :: 0 <= i < |w.workerClass| ==> c !in w.workerClass[i]
  }

  /** Inputs on which `DecodeWorker` does not index past the end of a split: a `#`, and
      a `:` before it. */
  predicate InDomain(s: string)
  {
    && |Split(s, WorkerSep)| >= 2
    && |Split(Split(s, WorkerSep)[0], WorkerInstSep)| >= 2
  }

  /** The text `DecodeWorker` parses as the instance number. */
  function InstanceField(s: string): string
    requires InDomain(s)
  {
    Split(Split(s, WorkerSep)[0], WorkerInstSep)[1]
  }

  /** `DecodeWorker`: the name is the text before the first `:`, the instance the text
      after it up to the next `:` or `#`, the classes the comma-separated pieces of the
      text between the first and second `#`. It fails exactly when the instance text is
      not a decimal; the decoded fields hold no separator of their level. */
  function DecodeWorker(s: string): (r: Result<Worker, string>)
    requires InDomain(s)
    ensures r.Failure? <==> !Strconv.IsDecimal(InstanceField(s))
    ensures r.Success? ==>
      && r.value.name <= s
      && WorkerSep !in r.value.name && WorkerInstSep !in r.value.name
      && |r.value.workerClass| >= 1
      && forall i :: 0 <= i < |r.value.workerClass| ==>
           WorkerSep !in r.value.workerClass[i] && WorkerClassSep !in r.value.workerClass[i]
    ensures r.Success? ==>
      && Strconv.Atoi(InstanceField(s)) == Success(r.value.instance)
      && |r.value.name| < |s| && s[|r.value.name|] == WorkerInstSep
      && Join(r.value.workerClass, WorkerClassSep) == Split(s, WorkerSep)[1]
  {
    var workerAtt := Split(s, WorkerSep);
    var nameInstance := workerAtt[0];
    var workerClasses := workerAtt[1];
    var nameI := Split(nameInstance, WorkerInstSep);
    var wc := Split(workerClasses, WorkerClassSep);
    match Strconv.Atoi(nameI[1])
    case Failure(e) => Failure(e)
    case Success(instance) =>
      SplitPiecesFree(workerClasses, WorkerClassSep, WorkerSep);
      SplitFirstEnds(nameInstance, WorkerInstSep);
      JoinSplit(workerClasses, WorkerClassSep);
      Success(Worker(nameI[0], instance, wc))
  }

  /** Decoding the encoding of a worker whose name holds no `:` or `#` and whose classes
      hold no `#` restores the name and the instance, and re-encoding the result gives the
      same text. The classes come back as the comma-split of their join: the list itself
      when it is non-empty and comma-free, `[""]` when it is empty. */
  lemma {:induction false} DecodeEncode(w: Worker)
    requires WorkerInstSep !in w.name && FreeOf(w, WorkerSep)
    ensures InDomain(Encode(w))
    ensures DecodeWorker(Encode(w)).Success?
    ensures DecodeWorker(Encode(w)).value.name == w.name
    ensures DecodeWorker(Encode(w)).value.instance == w.instance
    ensures Encode(DecodeWorker(Encode(w)).value) == Encode(w)
    ensures w.workerClass == [] ==> DecodeWorker(Encode(w)).value.workerClass == [""]
    ensures |w.workerClass| >= 1 && (forall i :: 0 <= i < |w.workerClass| ==> WorkerClassSep !in w.workerClass[i])
      ==> DecodeWorker(Encode(w)).value.workerClass == w.workerClass
  {
    var classes := Join(w.workerClass, WorkerClassSep);
    JoinFree(w.workerClass, WorkerClassSep, WorkerSep);
    WorkerFormatFields(w.name, w.instance, classes);
    Strconv.AtoiItoa(w.instance);
    JoinSplit(classes, WorkerClassSep);
    if |w.workerClass| >= 1 && (forall i :: 0 <= i < |w.workerClass| ==> WorkerClassSep !in w.workerClass[i]) {
      SplitJoin(w.workerClass, WorkerClassSep);
    }
  }

  /** A character that is not a separator of the worker grammar, not a digit and not a
      minus sign, and occurs in no field, does not occur in the encoding. */
  lemma {:induction false} EncodeFree(w: Worker, c: char)
    requires c != WorkerSep && c != WorkerInstSep && c != WorkerClassSep && c != '-'
    requires !Strconv.IsDigit(c)
    requires FreeOf(w, c)
    ensures c !in Encode(w)
  {
    JoinFree(w.workerClass, WorkerClassSep, c);
    var digits := Strconv.Itoa(w.instance);
    assert forall i :: 0 <= i < |digits| ==> digits[i] != c;
  }

  /** The worker built in encoder/worker_test.go: created as `w1` in an empty
      collection, its instance set to 20, then given classes `qemu32` and `qemu64`. The
      collection's first entry is named `w1`, and the worker encodes as name `:`
      instance `#` classes. */
  lemma {:induction false} EncodeExample()
    ensures var r := NewWorker(NewWorkerColl(), "w1");
      && r.0.workers[0].name == "w1"
      && Encode(AddWorkerClass(AddWorkerClass(r.1.(instance := 20), "qemu32"), "qemu64"))
         == "w1:20#qemu32,qemu64"
  {
    var r := NewWorker(NewWorkerColl(), "w1");
    assert AddWorkerClass(AddWorkerClass(r.1.(instance := 20), "qemu32"), "qemu64")
      == Worker("w1", 20, ["qemu32", "qemu64"]);
    assert Strconv.Digits(2) == "2";
    assert Strconv.Digits(20) == "20";
    assert Join(["qemu32", "qemu64"], WorkerClassSep) == "qemu32,qemu64";
  }

  /** A fresh worker given one class encodes as its name, `:0#`, then the class. */
  lemma {:induction false} EncodeFreshWithClass(name: string, wc: string)
    ensures AddWorkerClass(Worker(name, 0, []), wc) == Worker(name, 0, [wc])
    ensures Encode(Worker(name, 0, [wc])) == name + ":0#" + wc
  {
    assert Strconv.Itoa(0) == "0";
  }

  /** The collection scenario of encoder/worker_test.go: `w1` is created in an empty
      collection, its instance set to 2 and given class `wc`; a fresh test `name` is given
      the same class. The collection's first entry is named `w1`, and the worker
      satisfies the test. */
  lemma {:induction false} SatisfiesExample()
    ensures var r := NewWorker(NewWorkerColl(), "w1");
      && r.0.workers[0].name == "w1"
      && Satisfies(AddWorkerClass(r.1.(instance := 2), "wc"),
                   EncoderTest.AddWorkerClass(NewTest(NewTestColl(), "name").1, "wc"))
  {
    var r := NewWorker(NewWorkerColl(), "w1");
    assert "wc" in AddWorkerClass(r.1.(instance := 2), "wc").workerClass;
    assert "wc" in EncoderTest.AddWorkerClass(NewTest(NewTestColl(), "name").1, "wc").workerClass;
  }

  /** Text built from a separator-free name, a decimal instance text and one class decodes
      to those parts, the instance read by `Atoi`, whatever the instance text looks like. */
  lemma {:induction false} DecodeParts(name: string, inst: string, wc: string)
    requires WorkerSep !in name && WorkerInstSep !in name
    requires WorkerSep !in inst && WorkerInstSep !in inst && Strconv.IsDecimal(inst)
    requires WorkerSep !in wc && WorkerClassSep !in wc
    ensures InDomain(name + [WorkerInstSep] + inst + [WorkerSep] + wc)
    ensures DecodeWorker(name + [WorkerInstSep] + inst + [WorkerSep] + wc)
         == Success(Worker(name, Strconv.Atoi(inst).value, [wc]))
  {
    var ni := name + [WorkerInstSep] + inst;
    assert WorkerSep !in ni;
    SplitAround(ni, wc, WorkerSep);
    SplitFree(ni, WorkerSep);
    SplitFree(wc, WorkerSep);
    SplitAround(name, inst, WorkerInstSep);
    SplitFree(name, WorkerInstSep);
    SplitFree(inst, WorkerInstSep);
    SplitFree(wc, WorkerClassSep);
  }

  /** An instance field with leading zeros decodes as `strconv.Atoi` reads it: `w:007#a`
      is worker `w`, instance 7, class `a`. */
  lemma {:induction false} DecodeLeadingZerosExample()
    ensures InDomain("w:007#a")
    ensures DecodeWorker("w:007#a") == Success(Worker("w", 7, ["a"]))
  {
    Strconv.AtoiLeadingZerosExample();
    DecodeParts("w", "007", "a");
    assert "w" + [WorkerInstSep] + "007" + [WorkerSep] + "a" == "w:007#a";
  }

  /** The worker decode check of decoder/decoder_test.go: decoding the encoding of `w1`
      succeeds, keeps the name and still provides `qemu32`. The record is a parameter fixed by the precondition rather than a literal in the
      postcondition, which keeps the verifier from unfolding the codec on literal text. */
  lemma {:induction false} DecodeExample(w: Worker)
    requires w == Worker("w1", 20, ["qemu32", "qemu64"])
    ensures InDomain(Encode(w))
    ensures DecodeWorker(Encode(w)).Success?
    ensures DecodeWorker(Encode(w)).value.name == "w1"
    ensures ProvidesWorkerClass(DecodeWorker(Encode(w)).value, "qemu32")
  {
    assert forall i :: 0 <= i < |w.workerClass| ==> w.workerClass[i] == "qemu32" || w.workerClass[i] == "qemu64";
    DecodeEncode(w);
  }
}
