/** Tests (jobs): the record, its collection, its mutators and its atom encoding. */
module EncoderTest {
  import opened Strings
  import opened Constants

  /** A job: the worker classes it accepts, its name, an informational parent name and
      informational names of tests to run in parallel. */
  datatype Test = Test(workerClass: seq<string>, name: string, parent: string, parallel: seq<string>)

  /** An ordered collection of tests, owned by the caller. */
  datatype TestColl = TestColl(tests: seq<Test>)

  function NewTestColl(): (c: TestColl)
    ensures |c.tests| == 0
  {
    TestColl([])
  }

  /** `AddTest`: appends `t` and keeps every earlier entry in place. */
  function AddTest(coll: TestColl, t: Test): (r: TestColl)
    ensures |r.tests| == |coll.tests| + 1
    ensures r.tests[..|coll.tests|] == coll.tests
    ensures r.tests[|coll.tests|] == t
  {
    TestColl(coll.tests + [t])
  }

  /** `NewTest`: appends a test with only a name and returns it with the new collection. */
  function NewTest(coll: TestColl, name: string): (r: (TestColl, Test))
    ensures r.1.name == name && r.1.workerClass == [] && r.1.parent == "" && r.1.parallel == []
    ensures |r.0.tests| == |coll.tests| + 1
    ensures r.0.tests[..|coll.tests|] == coll.tests
    ensures r.0.tests[|coll.tests|] == r.1
  {
    var t := Test([], name, "", []);
    (AddTest(coll, t), t)
  }

  /** The linear search both `RequiresWorkerClass` and `ProvidesWorkerClass` perform. */
  function Includes(xs: seq<string>, s: string): (r: bool)
    ensures r <==> s in xs
  {
    if |xs| == 0 then false
    else if xs[0] == s then true
    else
      assert s in xs <==> s in xs[1..] by { assert xs == [xs[0]] + xs[1..]; }
      Includes(xs[1..], s)
  }

  /** `RequiresWorkerClass`: the test accepts workers of class `s`. */
  function RequiresWorkerClass(t: Test, s: string): (r: bool)
    ensures r <==> s in t.workerClass
  {
    Includes(t.workerClass, s)
  }

  /** `AddWorkerClass`: one more accepted class; nothing else changes, and every class
      accepted before is still accepted. */
  function AddWorkerClass(t: Test, wc: string): (r: Test)
    ensures r.workerClass == t.workerClass + [wc]
    ensures r.name == t.name && r.parent == t.parent && r.parallel == t.parallel
    ensures RequiresWorkerClass(r, wc)
    ensures forall s :: RequiresWorkerClass(r, s) <==> RequiresWorkerClass(t, s) || s == wc
  {
    t.(workerClass := t.workerClass + [wc])
  }

  /** `SetParent`: overwrites the parent and nothing else. */
  function SetParent(t: Test, p: string): (r: Test)
    ensures r.parent == p
    ensures r.name == t.name && r.workerClass == t.workerClass && r.parallel == t.parallel
  {
    t.(parent := p)
  }

  /** `AddParallel`: one more parallel name; nothing else changes. */
  function AddParallel(t: Test, p: string): (r: Test)
    ensures r.parallel == t.parallel + [p]
    ensures r.name == t.name && r.workerClass == t.workerClass && r.parent == t.parent
  {
    t.(parallel := t.parallel + [p])
  }

  /** No field of `t` contains `c`. */
  predicate FreeOf(t: Test, c: char)
  {
    && c !in t.name
    && c !in t.parent
    && (forall i :: 0 <= i < |t.workerClass| ==> c !in t.workerClass[i])
    && (forall i :: 0 <= i < |t.parallel| ==> c !in t.parallel[i])
  }

  /** `Encode`: `name#classes#parent#parallel`, both lists comma-joined. */
  function Encode(t: Test): string
  {
    TestEncodeFormat(t.name, Join(t.workerClass, WorkerClassSep), t.parent, Join(t.parallel, TestParallelSep))
  }

  /** When no field contains `#`, the encoding holds exactly three `#` and splits back
      into name, joined classes, parent and joined parallel names. */
  lemma {:induction false} EncodeFields(t: Test)
    requires FreeOf(t, TestSep)
    ensures Split(Encode(t), TestSep)
         == [t.name, Join(t.workerClass, WorkerClassSep), t.parent, Join(t.parallel, TestParallelSep)]
    ensures Count(Encode(t), TestSep) == 3
  {
    JoinFree(t.workerClass, WorkerClassSep, TestSep);
    JoinFree(t.parallel, TestParallelSep, TestSep);
    TestFormatFields(t.name, Join(t.workerClass, WorkerClassSep), t.parent, Join(t.parallel, TestParallelSep));
  }

  /** A character that is not a separator of the test grammar and occurs in no field
      does not occur in the encoding. */
  lemma {:induction false} EncodeFree(t: Test, c: char)
    requires c != TestSep && c != TestParallelSep
    requires FreeOf(t, c)
    ensures c !in Encode(t)
  {
    JoinFree(t.workerClass, WorkerClassSep, c);
    JoinFree(t.parallel, TestParallelSep, c);
  }

  /** The test built in encoder/test_test.go: created as `t1` in an empty collection,
      given classes `qemu32` and `qemu64`, parallel name `t2` and parent `t2`. The
      collection's first entry is named `t1`, and the test encodes with its fields in
      name, classes, parent, parallel order. */
  lemma {:induction false} EncodeExample()
    ensures var r := NewTest(NewTestColl(), "t1");
      && r.0.tests[0].name == "t1"
      && Encode(SetParent(AddParallel(AddWorkerClass(AddWorkerClass(r.1, "qemu32"), "qemu64"), "t2"), "t2"))
         == "t1#qemu32,qemu64#t2#t2"
  {
    var r := NewTest(NewTestColl(), "t1");
    assert SetParent(AddParallel(AddWorkerClass(AddWorkerClass(r.1, "qemu32"), "qemu64"), "t2"), "t2")
      == Test(["qemu32", "qemu64"], "t1", "t2", ["t2"]);
    var classes := Join(["qemu32", "qemu64"], WorkerClassSep);
    var parallel := Join(["t2"], TestParallelSep);
    assert Encode(Test(["qemu32", "qemu64"], "t1", "t2", ["t2"])) == TestEncodeFormat("t1", classes, "t2", parallel);
    assert classes == "qemu32,qemu64";
    assert parallel == "t2";
    assert TestEncodeFormat("t1", "qemu32,qemu64", "t2", "t2") == "t1#qemu32,qemu64#t2#t2";
  }

  /** A test holding only a name and one class encodes with empty parent and parallel
      fields. */
  lemma {:induction false} EncodeNameAndClass(name: string, wc: string)
    ensures Encode(Test([wc], name, "", [])) == name + "#" + wc + "##"
  {
  }
}
