/** Separators, atom formats and schedule-state labels of the wire grammar. */
module Constants {
  import opened Strings
  import Strconv

  const StateRunning: string := "running"

  const AssignSep: char := '@'
  const StateSep: char := '!'

  const WorkerSep: char := '#'
  const WorkerInstSep: char := ':'
  const WorkerClassSep: char := ','

  const TestSep: char := '#'
  const TestParallelSep: char := ','

  /** Schedule epochs: a committed earlier assignment, and a freshly solved one. */
  const StateOld: string := "old"
  const StateCurrent: string := "current"

  /** `AssignFmt`: test, worker and state text separated by `@`. */
  function AssignFmt(test: string, worker: string, state: string): string
  {
    test + [AssignSep] + worker + [AssignSep] + state
  }

  /** `StateFmt`: test text, `!`, state label. */
  function StateFmt(test: string, state: string): string
  {
    test + [StateSep] + state
  }

  /** `WorkerEncodeFormat`: name `:` decimal instance `#` class list. */
  function WorkerEncodeFormat(name: string, instance: int, classes: string): string
  {
    name + [WorkerInstSep] + Strconv.Itoa(instance) + [WorkerSep] + classes
  }

  /** `TestEncodeFormat`: four texts separated by `#`. */
  function TestEncodeFormat(name: string, classes: string, parent: string, parallel: string): string
  {
    name + [TestSep] + classes + [TestSep] + parent + [TestSep] + parallel
  }

  /** An assignment atom over `@`-free fields holds exactly two `@` and splits back into
      its three fields. */
  lemma {:induction false} AssignFmtFields(test: string, worker: string, state: string)
    requires AssignSep !in test && AssignSep !in worker && AssignSep !in state
    ensures Split(AssignFmt(test, worker, state), AssignSep) == [test, worker, state]
    ensures Count(AssignFmt(test, worker, state), AssignSep) == 2
  {
    var s := AssignFmt(test, worker, state);
    assert [test, worker, state][1..] == [worker, state];
    assert [worker, state][1..] == [state];
    assert Join([worker, state], AssignSep) == worker + [AssignSep] + state;
    assert Join([test, worker, state], AssignSep) == test + [AssignSep] + (worker + [AssignSep] + state);
    assert s == Join([test, worker, state], AssignSep);
    SplitJoin([test, worker, state], AssignSep);
    SplitCount(s, AssignSep);
  }

  /** A task-state atom over `!`-free fields is the test text, one `!`, then the label. */
  lemma {:induction false} StateFmtFields(test: string, state: string)
    requires StateSep !in test && StateSep !in state
    ensures Split(StateFmt(test, state), StateSep) == [test, state]
    ensures Count(StateFmt(test, state), StateSep) == 1
  {
    var s := StateFmt(test, state);
    assert s == Join([test, state], StateSep);
    SplitJoin([test, state], StateSep);
    SplitCount(s, StateSep);
  }

  /** A worker atom whose name holds no `:` or `#` and whose class text holds no `#`
      splits on `#` into name-and-instance and classes, and the first of those splits on
      `:` into the name and the decimal instance. */
  lemma {:induction false} WorkerFormatFields(name: string, instance: int, classes: string)
    requires WorkerSep !in name && WorkerInstSep !in name && WorkerSep !in classes
    ensures Split(WorkerEncodeFormat(name, instance, classes), WorkerSep)
         == [name + [WorkerInstSep] + Strconv.Itoa(instance), classes]
    ensures Split(name + [WorkerInstSep] + Strconv.Itoa(instance), WorkerInstSep)
         == [name, Strconv.Itoa(instance)]
  {
    var digits := Strconv.Itoa(instance);
    var head := name + [WorkerInstSep] + digits;
    assert WorkerSep !in digits && WorkerInstSep !in digits;
    assert WorkerSep !in head;
    assert WorkerEncodeFormat(name, instance, classes) == Join([head, classes], WorkerSep);
    SplitJoin([head, classes], WorkerSep);
    assert head == Join([name, digits], WorkerInstSep);
    SplitJoin([name, digits], WorkerInstSep);
  }

  /** A test atom over `#`-free fields holds exactly three `#` and splits back into its
      four fields. */
  lemma {:induction false} TestFormatFields(name: string, classes: string, parent: string, parallel: string)
    requires TestSep !in name && TestSep !in classes && TestSep !in parent && TestSep !in parallel
    ensures Split(TestEncodeFormat(name, classes, parent, parallel), TestSep)
         == [name, classes, parent, parallel]
    ensures Count(TestEncodeFormat(name, classes, parent, parallel), TestSep) == 3
  {
    var s := TestEncodeFormat(name, classes, parent, parallel);
    assert [name, classes, parent, parallel][1..] == [classes, parent, parallel];
    assert [classes, parent, parallel][1..] == [parent, parallel];
    assert [parent, parallel][1..] == [parallel];
    assert Join([parent, parallel], TestSep) == parent + [TestSep] + parallel;
    assert Join([classes, parent, parallel], TestSep) == classes + [TestSep] + (parent + [TestSep] + parallel);
    assert Join([name, classes, parent, parallel], TestSep)
        == name + [TestSep] + (classes + [TestSep] + (parent + [TestSep] + parallel));
    assert s == Join([name, classes, parent, parallel], TestSep);
    SplitJoin([name, classes, parent, parallel], TestSep);
    SplitCount(s, TestSep);
  }

  /** The worker-level and test-level separators coincide, and the state labels differ. */
  lemma {:induction false} SeparatorsAndLabels()
    ensures WorkerSep == TestSep
    ensures WorkerClassSep == TestParallelSep
    ensures StateOld != StateCurrent && StateOld != StateRunning && StateCurrent != StateRunning
  {
  }
}
