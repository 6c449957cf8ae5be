# openqa-scheduler-go: atom codec and formula builder, in Dafny

The scheduler assigns test jobs to worker machines by posing the problem as a Boolean
satisfiability instance. Every worker, test, task state and worker/test assignment is
given a flat string name, and that name is used as a SAT atom. The scheduler compiles
the worker and test collections into a formula, hands it to an external SAT engine, and
decodes the engine's model back into assignment records.

This project models that layer:

- **The wire grammar and entity codec.** It covers the separators and format strings in
  `common/constants.go`, `Worker.Encode` / `DecodeWorker`, `Test.Encode`, and
  `decoder.DecodeTest` / `DecodeAssignment` / `Assignment.Encode`. Go's `strings.Split`,
  `strings.Join`, `%d` and `strconv.Atoi` are modelled on `seq<char>`, with their
  round-trip lemmas.
- **Capability matching.** It covers `ProvidesWorkerClass`, `RequiresWorkerClass`,
  `Satisfies`, and the append-only mutators of workers, tests and their collections.
- **The formula builder.** It covers `Assign`, `TaskState`, `BuildFormula`, and `Solve` /
  `Schedule`. The formula is a `Formula` datatype with an `Eval` over a valuation. The
  SAT engine becomes a parameter: the answer it gives, assumed to satisfy the formula
  when present.
- **Model decoding.** `DecodeModel` filters a solved valuation down to the `current`-state
  assignments.

The data are immutable datatypes. Go's methods that mutate their receiver in place (`AddWorkerClass`,
`SetParent`, `NewWorker`, …) are functions that return the updated value.

Behaviour of the code that the model keeps as written:

- **Two assignment grammars.**
  - `Scheduler.Assign` builds `test@worker`: two `@`-fields and no state.
  - `decoder.DecodeAssignment` demands exactly three `@`-fields: `test@worker@state`.
  - So, when no worker or test field contains `@`, `DecodeModel` yields nothing for a
    model whose keys are the atoms `BuildFormula` emits
    (`Scheduler.ModelOfFormulaDecodesEmpty`).
  - The scheduler's own two-field decoder does invert `Assign`
    (`Scheduler.DecodeAssignmentAssign`).
- **No state field in the formula.**
  - The assignment atoms of `BuildFormula` carry no state.
  - Negation of `old`-state assignments appears nowhere in the code.
  - `scheduler/schedule_test.go:44,86` calls `ScheduleDecode` and sets `InitialState`.
    Neither is defined in `scheduler/schedule.go`. The model follows the code.
- **Stand-in test decoder.** The scheduler's `DecodeAssignment` and
  `encoder/test_test.go:36` call a `DecodeTest` of the encoder package, which
  `encoder/test.go` does not define. `Decoder.DecodeTest` stands in for it, and
  `Decoder.DecodeTestExample` models the call of `encoder/test_test.go:36`.
- **One worker decoder.** The encoder and decoder packages contain the same worker
  decoder, so it is defined once, as `EncoderWorker.DecodeWorker`.
- **Several workers per test.** The formula keeps a worker from being assigned to two
  differently-named tests. Nothing keeps two workers off the same test: with one test and
  two workers that both satisfy it, a valuation making all their atoms true satisfies the
  formula and binds both (`Scheduler.TwoWitnessesOneTest`, `Scheduler.TwoWitnessesExample`).
- **Panics become preconditions.** Go indexes split results without a bounds check and
  panics on short input. Each such case is a precondition:
  - `EncoderWorker.InDomain` needs a `#` and a `:` before it.
  - `Decoder.TestInDomain` excludes exactly three `#`-fields, where field 3 is read after
    a `len > 2` guard.
  - `Decoder.AssignmentInDomain` and `Scheduler.PairInDomain` need the same of their
    fields.
- **Empty disjunction.** The value of an empty `bf.Or()` is an assumption here: false.
  Under that assumption, a test that no worker satisfies makes the formula unsatisfiable.
  This includes the instance of `scheduler/schedule_test.go`, where `hiking` requires no
  class; that test expects a schedule (`Scheduler.ScheduleTestInstanceUnsat`).

Automatic induction is switched off on every lemma, and each inductive step is written
out.

## Model

| member | source | states |
|---|---|---|
| Strings.Split | encoder/worker.go:83-88 | `strings.Split` on one separator: at least one piece, no piece holds the separator, the first piece is a prefix ended by the separator or the end of the text |
| Strings.Join | encoder/worker.go:102 | `strings.Join` on one separator; its properties are stated by `Strings.JoinSplit`, `Strings.SplitJoin` and `Strings.JoinFree` |
| Strings.JoinSplit | encoder/worker.go:102 | joining the pieces of a split with the same separator gives back the text |
| Strings.SplitJoin | decoder/decoder.go:60-61 | splitting the join of a non-empty list of separator-free pieces gives back the list |
| Strings.SplitFree | decoder/decoder.go:85-88 | a text splits into itself alone exactly when it holds no separator |
| Strings.SplitAround | decoder/decoder.go:88 | splitting `a + sep + b` is splitting `a` followed by splitting `b` |
| Strings.SplitFirstEnds | encoder/worker.go:88 | when a text splits into two or more pieces, the first piece ends at the text's first separator |
| Strings.SplitCount | decoder/decoder.go:88-89 | the number of pieces is one more than the number of separators |
| Strings.SplitPiecesFree | encoder/worker.go:88 | a character absent from the text is absent from every piece |
| Strings.JoinFree | encoder/worker.go:102 | a character absent from every piece and unlike the separator is absent from the join |
| Strconv.Digits | encoder/worker.go:104 | the decimal digits of a natural number: non-empty, all digits, no leading zero |
| Strconv.ValueOfDigits | encoder/worker.go:89 | reading back the digits of `n` gives `n` |
| Strconv.Itoa | common/constants.go:29 | `%d` of an integer is a decimal, unsigned or with `-` exactly when negative, whose digits have no leading zero and denote the magnitude |
| Strconv.Atoi | encoder/worker.go:89-92 | `Atoi` succeeds exactly on an optionally signed run of digits; a negative result comes from a leading `-` |
| Strconv.AtoiItoa | encoder/worker.go:89 | `Atoi` of `%d` of `n` is `n` |
| Strconv.ValueOfLeadingZeros | encoder/worker.go:89 | leading zeros do not change the value of a digit run |
| Strconv.AtoiOfDigits | encoder/worker.go:89-92 | `Atoi` of a digit run, bare or after `+` or `-`, is the run's value, negated after `-`; these are all the texts it accepts |
| Strconv.AtoiPadded | encoder/worker.go:89-92 | `%d` text of a natural number after any number of zeros, unsigned, after `+` or after `-`, parses to the number, negated after `-` |
| Strconv.AtoiLeadingZerosExample | encoder/worker.go:89 | `Atoi("007")` is 7 |
| Constants.AssignFmt | common/constants.go:20-21 | test, worker and state joined by `@`; stated by `Constants.AssignFmtFields` |
| Constants.StateFmt | common/constants.go:23-24 | test and state joined by `!`; stated by `Constants.StateFmtFields` |
| Constants.WorkerEncodeFormat | common/constants.go:26-29 | name, `:`, `%d` of the instance, `#`, classes; stated by `Constants.WorkerFormatFields` |
| Constants.TestEncodeFormat | common/constants.go:31-33 | four texts joined by `#`; stated by `Constants.TestFormatFields` |
| Constants.AssignFmtFields | common/constants.go:20-21 | an assignment string of `@`-free parts holds exactly two `@` and splits back into test, worker and state |
| Constants.StateFmtFields | common/constants.go:23-24 | a task-state string of `!`-free parts holds one `!` and splits into test and state |
| Constants.WorkerFormatFields | common/constants.go:26-29 | a worker string splits on `#` into `name:instance` and the classes, and that on `:` into name and digits |
| Constants.TestFormatFields | common/constants.go:31-33 | a test string of `#`-free parts holds exactly three `#` and splits into its four fields |
| Constants.SeparatorsAndLabels | common/constants.go:18-37 | worker and test levels share `#`, class and parallel lists share `,`; `old`, `current`, `running` are distinct |
| EncoderTest.NewTestColl | encoder/test.go:31-33 | a new collection is empty |
| EncoderTest.AddTest | encoder/test.go:40-42 | the test is appended at the end, earlier entries untouched |
| EncoderTest.NewTest | encoder/test.go:34-38 | a test with the name and empty attributes is appended at the end and returned |
| EncoderTest.Includes | encoder/test.go:65-73 | the linear search finds `s` exactly when it occurs in the list |
| EncoderTest.RequiresWorkerClass | encoder/test.go:65-73 | holds exactly when `s` occurs among the test's classes |
| EncoderTest.AddWorkerClass | encoder/test.go:61-63 | appends exactly the class, changes no other field; the required classes grow by exactly that class |
| EncoderTest.SetParent | encoder/test.go:75-77 | overwrites the parent only |
| EncoderTest.AddParallel | encoder/test.go:79-81 | appends exactly one parallel name, changes no other field |
| EncoderTest.Encode | encoder/test.go:83-87 | the name, joined classes, parent and joined parallel names in the test format; stated by `EncoderTest.EncodeFields`, `EncoderTest.EncodeFree` and `Decoder.DecodeTestEncode` |
| EncoderTest.EncodeFields | encoder/test.go:83-87 | a `#`-free test encodes to exactly three `#` and splits into name, joined classes, parent, joined parallel names |
| EncoderTest.EncodeFree | encoder/test.go:83-87 | a non-separator character absent from every field is absent from the encoding |
| EncoderTest.EncodeExample | encoder/test_test.go:20-34 | `t1` created in an empty collection, then given classes `qemu32`, `qemu64`, parallel name `t2` and parent `t2`, is the collection's first entry and encodes as `t1#qemu32,qemu64#t2#t2` |
| EncoderTest.EncodeNameAndClass | decoder/decoder_test.go:31-39 | a test with only a name and one class encodes with empty parent and parallel fields |
| EncoderWorker.NewWorkerColl | encoder/worker.go:30-32 | a new collection is empty |
| EncoderWorker.AddWorker | encoder/worker.go:40-42 | the worker is appended at the end, earlier entries untouched |
| EncoderWorker.NewWorker | encoder/worker.go:34-38 | a worker with the name, instance 0 and no classes is appended at the end and returned |
| EncoderWorker.ProvidesWorkerClass | encoder/worker.go:62-70 | holds exactly when `s` occurs among the worker's classes |
| EncoderWorker.AnyRequired | encoder/worker.go:73-79 | the loop finds a class exactly when one of the listed classes is required by the test |
| EncoderWorker.Satisfies | encoder/worker.go:72-80 | holds exactly when the worker and the test share a class; a worker with no class satisfies nothing |
| EncoderWorker.AddWorkerClass | encoder/worker.go:97-99 | appends exactly the class, keeps name and instance; the provided classes grow by that class and every satisfied test stays satisfied |
| EncoderWorker.Encode | encoder/worker.go:101-105 | the name, the decimal instance and the joined classes in the worker format; stated by `EncoderWorker.DecodeEncode` and `EncoderWorker.EncodeFree` |
| EncoderWorker.DecodeWorker | encoder/worker.go:82-95 | fails exactly when the instance text is not a decimal; on success the instance is `Atoi` of that text, the name is the `#`/`:`-free prefix ended by the first `:`, and the classes are `#`/`,`-free pieces, at least one, whose join is the text between the first and second `#` |
| EncoderWorker.DecodeEncode | encoder/worker.go:82-105 | decoding the encoding of a separator-free worker restores name and instance and re-encodes identically; `[]` comes back as `[""]`, a non-empty comma-free list unchanged |
| EncoderWorker.EncodeFree | encoder/worker.go:101-105 | a character that is no separator, digit or `-` and is absent from every field is absent from the encoding |
| EncoderWorker.EncodeExample | encoder/worker_test.go:20-33 | `w1` created in an empty collection, its instance set to 20 and given classes `qemu32`, `qemu64`, is the collection's first entry and encodes as `w1:20#qemu32,qemu64` |
| EncoderWorker.EncodeFreshWithClass | decoder/decoder_test.go:29-34 | a fresh worker given one class is `name:0#class` |
| EncoderWorker.SatisfiesExample | encoder/worker_test.go:36-53 | `w1` created in an empty collection with instance 2 and class `wc` is the collection's first entry and satisfies a fresh test `name` given class `wc` |
| EncoderWorker.DecodeParts | encoder/worker.go:82-95 | text of a separator-free name, `:`, any decimal instance text, `#` and one class decodes to that name, `Atoi` of the instance text and that class |
| EncoderWorker.DecodeLeadingZerosExample | encoder/worker.go:82-95 | `w:007#a` decodes to worker `w`, instance 7, class `a` |
| EncoderWorker.DecodeExample | decoder/decoder_test.go:68-91 | decoding that worker's encoding succeeds, keeps the name and still provides `qemu32` |
| Decoder.DecodeTest | decoder/decoder.go:48-67 | the name is the `#`-free text before the first `#`; with at most two fields the rest is empty; with four or more, fields 1 to 3 give the classes, parent and parallel names, each list non-empty with `,`- and `#`-free pieces |
| Decoder.DecodeTestEncode | decoder/decoder.go:48-67 | decoding the encoding of a `#`-free test keeps name and parent and re-encodes identically; non-empty comma-free lists come back unchanged |
| Decoder.DecodeTestKeepsClasses | decoder/decoder.go:54-64 | such a decode requires exactly the classes the original required |
| Decoder.DecodeTestExample | encoder/test_test.go:36-47 | decoding the encoding of `t1` keeps its name and still requires `qemu32` |
| Decoder.ShapesByFieldCount | common/constants.go:26-33 | a worker encoding has two `#`-fields and a test encoding four, so they never coincide |
| Decoder.DecodeAssignment | decoder/decoder.go:84-103 | fails without `@`, and exactly when there are not three `@`-fields or the worker field fails; success means two `@`, value true, state the third field; the decoded test and worker are stated by `Decoder.DecodeFields` |
| Decoder.DecodeFields | decoder/decoder.go:92-102 | a three-field atom whose worker field decodes yields the decoded worker, `DecodeTest` of the test field, the state field and value true |
| Decoder.Encode | decoder/decoder.go:37-39 | the test atom, the worker atom and the state in the assignment format; stated by `Decoder.DecodeAssignmentEncode` |
| Decoder.DecodeAssignmentEncode | decoder/decoder.go:37-39 | decoding the encoding of a well-formed assignment succeeds, restores test name, worker name and instance and state, and re-encodes identically |
| Decoder.Decoded | decoder/decoder.go:113-117 | the decode of one model entry; stated by `Decoder.DecodeModel`, `Decoder.DecodeModelSkipsOtherAtoms` and `Decoder.DecodeModelSingle` |
| Decoder.DecodeModel | decoder/decoder.go:109-124 | never longer than the model; every result is `current` and comes from some key with that key's value; every `current` key that decodes is kept; order and multiplicity are stated by `Decoder.DecodeModelAppend` and `Decoder.DecodeModelOne` |
| Decoder.DecodeModelOne | decoder/decoder.go:112-121 | a one-key model yields the key's decode, with the model's value, when it is `current`, and nothing otherwise |
| Decoder.DecodeModelAppend | decoder/decoder.go:111-122 | decoding two consecutive stretches of the model gives the decode of the first followed by that of the second: each key contributes its own decode once, in iteration order |
| Decoder.DecodeModelUnfold | decoder/decoder.go:112-121 | one loop step: the decode of the first key followed by the decode of the rest |
| Decoder.DecodeModelSkipsOtherAtoms | decoder/decoder.go:113 | keys that do not split into three `@`-fields contribute nothing |
| Decoder.DecodeModelSingle | decoder/decoder_test.go:126-150 | a one-key model keeps a `current` assignment with the model's value, true or false, and drops an `old` one |
| Decoder.EncodeExample | decoder/decoder_test.go:37-41 | the assignment built there encodes as `lunch#developer##@mudler:0#developer@current` |
| Decoder.EncodeOneClass | decoder/decoder.go:37-39 | the encoding of a fresh one-class worker and a one-class test, field by field |
| Decoder.RejectsExamples | decoder/decoder_test.go:57-65 | `fail` and `fail@` are rejected |
| Formulas.Eval | scheduler/schedule.go:70-105 | the truth value of a formula under a valuation, a missing atom false; stated by `Formulas.EvalConjoinAll` and the `Scheduler.Eval…` lemmas |
| Formulas.ConjoinAll | scheduler/schedule.go:94-102 | the left-nested chain of binary conjunctions the builder grows; stated by `Formulas.SpineConjoinAll`, `Formulas.EvalConjoinAll` and `Formulas.AtomsConjoinAll` |
| Formulas.SpineConjoinAll | scheduler/schedule.go:94-97 | the conjuncts of a chain of binary conjunctions are the start's followed by the added ones |
| Formulas.EvalConjoinAll | scheduler/schedule.go:102 | a chain of conjunctions holds exactly when its start and every added conjunct hold |
| Formulas.AtomsConjoinAll | scheduler/schedule.go:96 | the atoms of such a chain are those of its start and its conjuncts |
| Scheduler.Assign | scheduler/schedule.go:43-45 | the test atom, `@`, the worker atom; stated by `Scheduler.AssignFields` and `Scheduler.DecodeAssignmentAssign` |
| Scheduler.TaskState | scheduler/schedule.go:66-68 | the test atom, `!`, the state; stated by `Scheduler.TaskStateFields` |
| Scheduler.AssignFields | scheduler/schedule.go:43-45 | over `@`-free entities an assignment atom holds one `@` and splits into test and worker atoms |
| Scheduler.TaskStateFields | scheduler/schedule.go:66-68 | a task-state atom splits on `!` into the test atom and the label |
| Scheduler.DecodeAssignment | scheduler/schedule.go:47-64 | fails without `@`, and exactly when there are not two `@`-fields or the worker field fails; the decoded pair is stated by `Scheduler.DecodePairFields` |
| Scheduler.DecodePairFields | scheduler/schedule.go:47-64 | a two-field atom whose worker field decodes yields the decoded worker and `DecodeTest` of the test field |
| Scheduler.DecodeAssignmentAssign | scheduler/schedule.go:43-64 | decoding `Assign(w, t)` of well-formed entities restores test name, worker name and instance, and re-assigns identically |
| Scheduler.DecoderRejectsAssign | decoder/decoder.go:88-91 | the assignment decoder rejects every atom `Assign` builds over `@`-free entities |
| Scheduler.Others | scheduler/schedule.go:85-89 | the tests negated in a term are no more than the collection; which ones is stated by `Scheduler.OthersMembers` |
| Scheduler.OthersMembers | scheduler/schedule.go:85-89 | the negated tests are exactly those with a different name |
| Scheduler.OthersAppend | scheduler/schedule.go:85 | the negations keep the collection order |
| Scheduler.Qualifying | scheduler/schedule.go:79-81 | a test's terms are no more than the workers; which workers is stated by `Scheduler.QualifyingMembers` |
| Scheduler.QualifyingMembers | scheduler/schedule.go:79-81 | the workers given a term for `t` are exactly those satisfying `t` |
| Scheduler.QualifyingAppend | scheduler/schedule.go:79 | the terms keep the worker order |
| Scheduler.TermShape | scheduler/schedule.go:84-97 | a term's conjuncts are the four-atom block then one negation per differently-named test, and each of those negations occurs |
| Scheduler.BuildFormula | scheduler/schedule.go:70-105 | one disjunction per test conjoined onto `True`; stated by `Scheduler.BuildFormulaShape`, `Scheduler.EvalBuildFormula`, `Scheduler.Exclusivity` and `Scheduler.AtomsOfBuildFormula` |
| Scheduler.BuildFormulaShape | scheduler/schedule.go:70-105 | the formula's conjuncts are exactly one disjunction per test, in order, each with one term per qualifying worker |
| Scheduler.EvalTerm | scheduler/schedule.go:84-97 | a term holds exactly when its four atoms are true and the worker's atoms for differently-named tests are false |
| Scheduler.EvalAccepted | scheduler/schedule.go:92 | the four-atom block holds exactly when its four atoms are true |
| Scheduler.EvalRejections | scheduler/schedule.go:84-89 | all negations hold exactly when the worker's atoms for differently-named tests are false |
| Scheduler.EvalDisjunction | scheduler/schedule.go:77-102 | a test's disjunction holds exactly when some qualifying worker's term does |
| Scheduler.EvalBuildFormula | scheduler/schedule.go:70-105 | the formula holds exactly when every test's disjunction holds |
| Scheduler.Exclusivity | scheduler/schedule.go:75-102 | in a valuation making the formula true, every test has a witness worker: it satisfies the test, is assigned to it, and to no differently-named test |
| Scheduler.NoSharedWitness | scheduler/schedule.go:84-97 | a worker whose term holds for one test has no true term for a differently-named test |
| Scheduler.TwoWitnessesOneTest | scheduler/schedule.go:77-102 | two workers satisfying the only test, with all their atoms true, satisfy the formula and are both witnesses for that test |
| Scheduler.TwoWitnessesExample | scheduler/schedule.go:77-102 | workers `a` and `b` of class `c` and a test requiring `c`: some valuation satisfies the formula and binds both workers to the test |
| Scheduler.UnmatchedTestUnsat | scheduler/schedule.go:77-102 | a test that no worker satisfies makes the formula false everywhere |
| Scheduler.AtomsOfTerm | scheduler/schedule.go:84-97 | a term's atoms are exactly the four atoms of the pair and the worker's atoms for differently-named tests |
| Scheduler.AtomsOfAccepted | scheduler/schedule.go:92 | the block's atoms are exactly its four atoms |
| Scheduler.AtomsOfRejections | scheduler/schedule.go:84-89 | the negations' atoms are exactly the worker's atoms for differently-named tests |
| Scheduler.AtomsOfDisjunction | scheduler/schedule.go:79-100 | every atom of a disjunction is in the term of a qualifying worker |
| Scheduler.AtomsOfBuildFormula | scheduler/schedule.go:70-105 | every atom of the formula is a worker, test, running-state or assignment atom of the collections |
| Scheduler.AssignAtomPresent | scheduler/schedule.go:79-98 | every qualifying pair of the collections has its assignment atom in the formula |
| Scheduler.AssignAtomInDisjunction | scheduler/schedule.go:79-92 | a qualifying worker's assignment atom occurs in the test's disjunction |
| Scheduler.BuiltAtomFields | scheduler/schedule.go:43-45 | over `@`-free entities no atom of the formula has three `@`-fields |
| Scheduler.ModelOfFormulaDecodesEmpty | decoder/decoder.go:109-124 | over `@`-free entities a model whose keys are atoms of the formula decodes to no assignment |
| Scheduler.Solve | scheduler/schedule.go:107-113 | the model returned is the solver's answer; the error is set, to the no-schedule error, exactly when there is no model; a model makes the formula true; the formula is handed back |
| Scheduler.Schedule | scheduler/schedule.go:115-117 | solves the built formula and returns the solver's answer as the model, the error exactly when there is none; on success every test has a witness worker under the model |
| Scheduler.ScheduleUnmatchedFails | scheduler/schedule.go:115-117 | with a test no worker satisfies, scheduling reports the error whatever a sound solver answers |
| Scheduler.ScheduleTestInstanceUnsat | scheduler/schedule_test.go:25-43 | the two-worker, two-test instance there cannot be scheduled |

## Left out

- The SAT engine (`bf.Solve`, and `vendor/github.com/crillab/gophersat/solver/clause.go`) is not part of this model. Its answer is a parameter of `Solve` and `Schedule`, assumed to satisfy the formula when present.
- Formulas.Eval: an empty disjunction is taken as false. The solver package's own value for `bf.Or()` with no arguments is not part of this model.
- Scheduler.Solve: the formula it hands back is the one it was given; any simplification the solver package applies to its formulas is not modelled.
- `main.go` (demo seeding and printing) and the `fmt.Println` calls in the tests are not modelled.
- The package-level registries `workers` and `tests` (`encoder/worker.go:24,52-60`, `encoder/test.go:25,51-59`) are process-wide mutable state. Only the explicit collections are modelled.
- Collections hold values, not shared references, so a change to a worker after it was added does not show through the collection.
- `ScheduleDecode`, `InitialState` and the old/current re-solve that `scheduler/schedule_test.go` exercises have no implementation in `scheduler/schedule.go`, and are not modelled.
- Go map iteration order is nondeterministic. `DecodeModel` takes the model as a sequence of key/value pairs in one iteration order, which the model does not fix; `Decoder.DecodeModelAppend` states the result for whichever order is given.
- Strconv.Atoi: models an optional sign followed by decimal digits. The 64-bit overflow error is not modelled, and `Itoa` works on unbounded integers.
- Decoder.DecodeTest: returns the test alone. The Go function also returns an error, but that error is always nil.
- Out-of-range indexing panics in the decoders are preconditions, not results.
- Go strings are byte sequences, and the model uses `seq<char>`. Every separator is an ASCII character, so splitting and joining on it give the same pieces either way. Multi-byte text is not modelled byte by byte.
