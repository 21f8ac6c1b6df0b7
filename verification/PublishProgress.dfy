/** What publishing gets done: every put can succeed from every state, and a put fails for a named reason only. */
module PublishProgress {
  import opened Wrappers
  import opened BlockBasics
  import opened TableKeys
  import opened TableRows
  import opened PublishProtocol

  /** `run` starts in `s` and takes the steps one after the other. */
  ghost predicate Executes(layout: Layout, s: State, steps: seq<Step>, run: seq<State>) {
    && |run| == |steps| + 1 && run[0] == s
    && forall i :: 0 <= i < |steps| ==> NextStep(layout, run[i], run[i + 1], steps[i])
  }

  lemma ExecutesIsRun(layout: Layout, steps: seq<Step>, run: seq<State>)
    requires Executes(layout, INITIAL, steps, run)
    ensures Run(layout, run)
  {
    forall i | 0 < i < |run|
      ensures Next(layout, run[i - 1], run[i])
    {
      var j := i - 1;
      assert NextStep(layout, run[j], run[j + 1], steps[j]);
    }
  }

  lemma ExecutesNothing(layout: Layout, s: State)
    ensures Executes(layout, s, [], [s])
  {}

  lemma ExecutesOne(layout: Layout, s: State, t: State, step: Step)
    requires NextStep(layout, s, t, step)
    ensures Executes(layout, s, [step], [s, t])
  {}

  lemma ExecutesBoth(layout: Layout, s: State, a: seq<Step>, first: seq<State>, b: seq<Step>, second: seq<State>)
    requires Executes(layout, s, a, first) && Executes(layout, first[|first| - 1], b, second)
    ensures Executes(layout, s, a + b, first + second[1..])
    ensures (first + second[1..])[|first + second[1..]| - 1] == second[|second| - 1]
  {
    var run := first + second[1..];
    forall i | 0 <= i < |a + b|
      ensures NextStep(layout, run[i], run[i + 1], (a + b)[i])
    {
      if i < |a| {
        assert NextStep(layout, first[i], first[i + 1], a[i]);
      } else {
        var j := i - |a|;
        assert NextStep(layout, second[j], second[j + 1], b[j]);
      }
    }
  }

  // A put without faults.

  predicate Absent(table: map<Key, Row>, block: BlockHash, n: nat) {
    forall k :: 0 <= k < n ==> !Has(table, block, k)
  }

  lemma {:induction false} InsertAbsent(table: map<Key, Row>, layout: Layout, block: BlockHash, first: nat, end: nat,
                                        other: nat)
    requires first <= end <= |layout(block)| && !Has(table, block, other) && !(first <= other < end)
    ensures !Has(Insert(table, layout, block, first, end), block, other)
    decreases end - first
  {
    if first < end {
      var next := table[KeyAt(block, first) := layout(block)[first]];
      if KeyAt(block, other) == KeyAt(block, first) {
        KeysAreDistinct(block, other, block, first);
      }
      InsertAbsent(next, layout, block, first + 1, end, other);
    }
  }

  /** The states of a put of a block of one row. */
  lemma OneRowPut(layout: Layout, block: BlockHash) returns (run: seq<State>)
    requires |layout(block)| == 1
    ensures Executes(layout, INITIAL, [Start(block), Process(0, Stored), RootReply(0, Answer)], run)
    ensures run[3].writers == [Writer(block, Succeeded)]
  {
    var s1 := State(map[], [Request(block, 0, 1, None)], [Writer(block, Root(0, 1))]);
    var s2 := State(Insert(map[], layout, block, 0, 1), [Request(block, 0, 1, Some(Stored))], s1.writers);
    var s3 := SetPhase(s2, 0, Succeeded);
    assert StartStep(layout, INITIAL, s1, block);
    assert ProcessStep(layout, s1, s2, 0, Stored);
    assert RootStep(s2, s3, 0, Answer);
    run := [INITIAL, s1, s2, s3];
  }

  /** The states of a put of a block of several rows whose transaction is committed. */
  lemma TransactionPut(layout: Layout, block: BlockHash) returns (run: seq<State>)
    requires |layout(block)| > 1
    ensures Executes(layout, INITIAL,
                     [Start(block), Process(0, Stored), TransactionReply(0, Answer), Process(1, Stored),
                      RootReply(0, Answer)], run)
    ensures run[5].writers == [Writer(block, Succeeded)]
  {
    var n := |layout(block)|;
    var s1 := State(map[], [Request(block, 1, n, None)], [Writer(block, Transaction(0, 1))]);
    var table := Insert(map[], layout, block, 1, n);
    var s2 := State(table, [Request(block, 1, n, Some(Stored))], s1.writers);
    var s3 := SetPhase(Send(s2, block, 0, 1), 0, Root(1, 1));
    var s4 := s3.(requests := s3.requests[1 := Request(block, 0, 1, Some(Stored))],
                  table := Insert(table, layout, block, 0, 1));
    var s5 := SetPhase(s4, 0, Succeeded);
    assert StartStep(layout, INITIAL, s1, block);
    assert ProcessStep(layout, s1, s2, 0, Stored);
    assert TransactionStep(layout, s2, s3, 0, Answer);
    InsertAbsent(map[], layout, block, 1, n, 0);
    assert !AnyPresent(table, block, 0, 1);
    assert ProcessStep(layout, s3, s4, 1, Stored);
    assert RootStep(s4, s5, 0, Answer);
    run := [INITIAL, s1, s2, s3, s4, s5];
  }

  /** Without faults, with every request processed as stored and every reply an answer, a first put succeeds. */
  lemma FirstPutSucceeds(layout: Layout, block: BlockHash) returns (steps: seq<Step>, run: seq<State>)
    requires |layout(block)| > 0
    ensures Executes(layout, INITIAL, steps, run) && Run(layout, run)
    ensures forall i :: 0 <= i < |steps| ==> Faultless(steps[i])
    ensures run[|run| - 1].writers == [Writer(block, Succeeded)]
  {
    if |layout(block)| == 1 {
      run := OneRowPut(layout, block);
      steps := [Start(block), Process(0, Stored), RootReply(0, Answer)];
    } else {
      run := TransactionPut(layout, block);
      steps := [Start(block), Process(0, Stored), TransactionReply(0, Answer), Process(1, Stored),
                RootReply(0, Answer)];
    }
    ExecutesIsRun(layout, steps, run);
  }

  /** Nothing fails in this step, and nothing was there before. */
  predicate Faultless(step: Step) {
    match step
    case Process(_, outcome) => outcome == Stored
    case TransactionReply(_, reply) => reply == Answer
    case RowReply(_, _, reply) => reply == Answer
    case RootReply(_, reply) => reply == Answer
    case Crash(_) => false
    case _ => true
  }

  // The fallback: rows one by one, from any state.

  /** The writer gets this far without an error; a row may have been there before. */
  predicate Answering(step: Step) {
    match step
    case Process(_, outcome) => outcome != TooLarge
    case TransactionReply(_, reply) => reply == Answer
    case RowReply(_, _, reply) => reply == Answer
    case RootReply(_, reply) => reply == Answer
    case Crash(_) => false
    case _ => true
  }

  predicate Goes(steps: seq<Step>, faultless: bool) {
    forall i :: 0 <= i < |steps| ==> Answering(steps[i]) && (faultless ==> Faultless(steps[i]))
  }

  lemma GoesOn(a: seq<Step>, b: seq<Step>, faultless: bool)
    requires Goes(a, faultless) && Goes(b, faultless)
    ensures Goes(a + b, faultless)
  {
    forall i | 0 <= i < |a + b|
      ensures Answering((a + b)[i]) && (faultless ==> Faultless((a + b)[i]))
    {
      if i < |a| {
        assert (a + b)[i] == a[i];
      } else {
        assert (a + b)[i] == b[i - |a|];
      }
    }
  }

  predicate RowWaits(requests: seq<Request>, block: BlockHash, base: nat, j: nat) {
    base + j < |requests| && requests[base + j] == Request(block, j + 1, j + 2, None)
  }

  /** Continuation rows before `k` are present, the others wait for their first request to be processed. */
  ghost predicate RowsLeft(s: State, writers: seq<Writer>, block: BlockHash, base: nat, count: nat, k: nat) {
    && k <= count && base + count == |s.requests|
    && |s.writers| == |writers| + 1 && s.writers[..|writers|] == writers
    && s.writers[|writers|].block == block && s.writers[|writers|].phase.Individually?
    && |s.writers[|writers|].phase.rows| == count
    && (forall j :: 0 <= j < k ==> s.writers[|writers|].phase.rows[j] == Present)
    && (forall j :: k <= j < count ==> s.writers[|writers|].phase.rows[j] == Sending(base + j, 1))
    && (forall j :: k <= j < count ==> RowWaits(s.requests, block, base, j))
  }

  /** Neither the root row nor a continuation row from `k + 1` on is there. */
  predicate Untouched(table: map<Key, Row>, block: BlockHash, count: nat, k: nat) {
    !Has(table, block, 0) && forall j: nat :: k < j <= count ==> !Has(table, block, j)
  }

  /** What the service answers to the insertion of a single row. */
  function OutcomeOf(table: map<Key, Row>, block: BlockHash, row: nat): Outcome {
    if Has(table, block, row) then AlreadyExists else Stored
  }

  function Processed(layout: Layout, table: map<Key, Row>, block: BlockHash, row: nat): map<Key, Row>
    requires row < |layout(block)|
  {
    if Has(table, block, row) then table else Insert(table, layout, block, row, row + 1)
  }

  /** The service processes the request for a single row. */
  lemma ProcessSingle(layout: Layout, s: State, r: nat, block: BlockHash, row: nat)
    requires row < |layout(block)| && r < |s.requests| && s.requests[r] == Request(block, row, row + 1, None)
    ensures ProcessStep(layout, s,
      s.(requests := s.requests[r := Request(block, row, row + 1, Some(OutcomeOf(s.table, block, row)))],
         table := Processed(layout, s.table, block, row)), r, OutcomeOf(s.table, block, row))
  {
    assert AnyPresent(s.table, block, row, row + 1) <==> Has(s.table, block, row);
  }

  lemma ProcessedUntouched(layout: Layout, table: map<Key, Row>, block: BlockHash, count: nat, k: nat)
    requires k < count && |layout(block)| == count + 1 && Untouched(table, block, count, k)
    ensures Untouched(Processed(layout, table, block, k + 1), block, count, k + 1)
  {
    InsertAbsent(table, layout, block, k + 1, k + 2, 0);
    var after := Processed(layout, table, block, k + 1);
    forall j: nat | k + 1 < j <= count
      ensures !Has(after, block, j)
    {
      InsertAbsent(table, layout, block, k + 1, k + 2, j);
    }
  }

  /** Entry `k` takes its turn. */
  lemma OneRow(layout: Layout, s: State, writers: seq<Writer>, block: BlockHash, base: nat, count: nat, k: nat)
    returns (steps: seq<Step>, run: seq<State>)
    requires RowsLeft(s, writers, block, base, count, k) && k < count && |layout(block)| == count + 1
    ensures Executes(layout, s, steps, run)
    ensures RowsLeft(run[|run| - 1], writers, block, base, count, k + 1)
    ensures Goes(steps, !Has(s.table, block, k + 1))
    ensures run[|run| - 1].table == Processed(layout, s.table, block, k + 1)
  {
    var outcome, w := OutcomeOf(s.table, block, k + 1), |writers|;
    assert RowWaits(s.requests, block, base, k);
    ProcessSingle(layout, s, base + k, block, k + 1);
    var t := s.(requests := s.requests[base + k := Request(block, k + 1, k + 2, Some(outcome))],
                table := Processed(layout, s.table, block, k + 1));
    var rows := s.writers[w].phase.rows;
    var u := SetPhase(t, w, Individually(rows[k := Present]));
    assert rows[k] == Sending(base + k, 1);
    assert RowStep(t, u, w, k, Answer);
    steps := [Process(base + k, outcome), RowReply(w, k, Answer)];
    run := [s, t, u];
    assert u.writers[..w] == s.writers[..w];
    forall j | k < j < count
      ensures RowWaits(u.requests, block, base, j)
    {
      assert RowWaits(s.requests, block, base, j);
    }
  }

  /** All the remaining entries take their turns. */
  lemma {:induction false} AllRows(layout: Layout, s: State, writers: seq<Writer>, block: BlockHash, base: nat,
                                   count: nat, k: nat) returns (steps: seq<Step>, run: seq<State>)
    requires RowsLeft(s, writers, block, base, count, k) && |layout(block)| == count + 1
    ensures Executes(layout, s, steps, run)
    ensures RowsLeft(run[|run| - 1], writers, block, base, count, count)
    ensures Goes(steps, Untouched(s.table, block, count, k))
    ensures Untouched(s.table, block, count, k) ==> !Has(run[|run| - 1].table, block, 0)
    decreases count - k
  {
    if k == count {
      ExecutesNothing(layout, s);
      return [], [s];
    }
    var untouched := Untouched(s.table, block, count, k);
    var steps1, run1 := OneRow(layout, s, writers, block, base, count, k);
    var steps2, run2 := AllRows(layout, run1[|run1| - 1], writers, block, base, count, k + 1);
    if untouched {
      assert !Has(s.table, block, k + 1);
      ProcessedUntouched(layout, s.table, block, count, k);
    }
    assert Goes(steps1, untouched) && Goes(steps2, untouched);
    GoesOn(steps1, steps2, untouched);
    ExecutesBoth(layout, s, steps1, run1, steps2, run2);
    steps, run := steps1 + steps2, run1 + run2[1..];
  }

  lemma {:induction false} SendEachWaits(s: State, block: BlockHash, base: nat, first: nat, end: nat)
    requires 0 < first <= end && base + first - 1 == |s.requests|
    ensures var requests := SendEach(s, block, first, end).requests;
      && |requests| == base + end - 1 && requests[..|s.requests|] == s.requests
      && forall j: nat :: first - 1 <= j < end - 1 ==> RowWaits(requests, block, base, j)
    decreases end - first
  {
    if first < end {
      var sent := Send(s, block, first, first + 1);
      SendEachWaits(sent, block, base, first + 1, end);
      var requests := SendEach(sent, block, first + 1, end).requests;
      assert requests[..|sent.requests|][..|s.requests|] == s.requests;
      assert requests[base + first - 1] == requests[..|sent.requests|][base + first - 1];
      assert RowWaits(requests, block, base, first - 1);
    }
  }

  /** The transaction is refused, and the rows are sent one by one. */
  lemma FallBack(layout: Layout, s: State, block: BlockHash, refusal: Outcome) returns (run: seq<State>)
    requires |layout(block)| > 1
    requires refusal == TooLarge || (refusal == AlreadyExists && AnyPresent(s.table, block, 1, |layout(block)|))
    ensures Executes(layout, s, [Start(block), Process(|s.requests|, refusal), TransactionReply(|s.writers|, Answer)],
                     run)
    ensures RowsLeft(run[3], s.writers, block, |s.requests| + 1, |layout(block)| - 1, 0)
    ensures run[3].table == s.table
  {
    var n, r, w := |layout(block)|, |s.requests|, |s.writers|;
    var s1 := Send(s, block, 1, n).(writers := s.writers + [Writer(block, Transaction(r, 1))]);
    var s2 := s1.(requests := s1.requests[r := Request(block, 1, n, Some(refusal))]);
    var s3 := SetPhase(SendEach(s2, block, 1, n), w, Individually(FirstAttempts(r + 1, n - 1)));
    assert StartStep(layout, s, s1, block);
    assert ProcessStep(layout, s1, s2, r, refusal);
    assert TransactionStep(layout, s2, s3, w, Answer);
    run := [s, s1, s2, s3];
    SendEachWaits(s2, block, r + 1, 1, n);
    assert s3.writers[..w] == s.writers;
  }

  /** The root row goes last. */
  lemma FinishWithRoot(layout: Layout, s: State, writers: seq<Writer>, block: BlockHash, base: nat, count: nat)
    returns (run: seq<State>)
    requires RowsLeft(s, writers, block, base, count, count) && |layout(block)| == count + 1
    ensures Executes(layout, s,
                     [AllRowsPresent(|writers|), Process(|s.requests|, OutcomeOf(s.table, block, 0)),
                      RootReply(|writers|, Answer)], run)
    ensures run[3].writers == writers + [Writer(block, Succeeded)]
  {
    var r, w := |s.requests|, |writers|;
    var s1 := SetPhase(Send(s, block, 0, 1), w, Root(r, 1));
    var s2 := s1.(requests := s1.requests[r := Request(block, 0, 1, Some(OutcomeOf(s.table, block, 0)))],
                  table := Processed(layout, s.table, block, 0));
    var s3 := SetPhase(s2, w, Succeeded);
    assert AllRowsStep(s, s1, w);
    ProcessSingle(layout, s1, r, block, 0);
    assert RootStep(s2, s3, w, Answer);
    run := [s, s1, s2, s3];
    assert s3.writers[..w] == s.writers[..w];
    assert s3.writers == s3.writers[..w] + [s3.writers[w]];
  }

  /**
   From any state, a put whose transaction is refused succeeds through single rows, whether or not rows are
   there already; when none of them is, every request is processed as stored.
   */
  lemma FallbackPutSucceeds(layout: Layout, s: State, block: BlockHash, refusal: Outcome)
    returns (middle: seq<Step>, last: seq<Step>, run: seq<State>)
    requires |layout(block)| > 1
    requires refusal == TooLarge || (refusal == AlreadyExists && AnyPresent(s.table, block, 1, |layout(block)|))
    ensures Executes(layout, s, [Start(block), Process(|s.requests|, refusal), TransactionReply(|s.writers|, Answer)]
                                + middle + last, run)
    ensures s == INITIAL ==> Run(layout, run)
    ensures Goes(middle + last, Absent(s.table, block, |layout(block)|))
    ensures run[|run| - 1].writers == s.writers + [Writer(block, Succeeded)]
  {
    var base, count, w := |s.requests| + 1, |layout(block)| - 1, |s.writers|;
    var absent := Absent(s.table, block, |layout(block)|);
    var start := [Start(block), Process(|s.requests|, refusal), TransactionReply(w, Answer)];
    var run1 := FallBack(layout, s, block, refusal);
    var run2;
    middle, run2 := AllRows(layout, run1[3], s.writers, block, base, count, 0);
    var before := run2[|run2| - 1];
    var run3 := FinishWithRoot(layout, before, s.writers, block, base, count);
    last := [AllRowsPresent(w), Process(|before.requests|, OutcomeOf(before.table, block, 0)), RootReply(w, Answer)];
    assert absent ==> Untouched(run1[3].table, block, count, 0);
    assert Goes(last, absent);
    GoesOn(middle, last, absent);
    ExecutesBoth(layout, s, start, run1, middle, run2);
    ExecutesBoth(layout, s, start + middle, run1 + run2[1..], last, run3);
    run := run1 + run2[1..] + run3[1..];
    if s == INITIAL {
      ExecutesIsRun(layout, start + middle + last, run);
    }
  }

  // Failure.

  /** The service or the connection refuses the writer for good. */
  predicate Refused(s: State, w: nat, step: Step)
    requires w < |s.writers|
  {
    match step
    case TransactionReply(v, reply) =>
      v == w && s.writers[w].phase.Transaction?
      && (reply == ResponseError || (reply == TransportError && s.writers[w].phase.attempts >= 6))
    case RowReply(v, row, reply) =>
      v == w && s.writers[w].phase.Individually? && row < |s.writers[w].phase.rows|
      && s.writers[w].phase.rows[row].Sending?
      && var sending := s.writers[w].phase.rows[row];
         reply == ResponseError || (reply == TransportError && sending.attempts >= 6)
         || Answered(s, sending.request, reply, TooLarge)
    case RootReply(v, reply) =>
      v == w && s.writers[w].phase.Root?
      && (reply == ResponseError || (reply == TransportError && s.writers[w].phase.attempts >= 6)
          || Answered(s, s.writers[w].phase.request, reply, TooLarge))
    case _ => false
  }

  /** The root row is confirmed: it is there, by this writer or another. */
  predicate Confirmed(s: State, w: nat, step: Step)
    requires w < |s.writers|
  {
    && step == RootReply(w, Answer) && s.writers[w].phase.Root?
    && var r := s.writers[w].phase.request;
       r < |s.requests| && (s.requests[r].outcome == Some(Stored) || s.requests[r].outcome == Some(AlreadyExists))
  }

  /** A writer comes to its end in these ways only, and in these ways it does. */
  lemma StepsThatEnd(layout: Layout, s: State, t: State, step: Step, w: nat)
    requires NextStep(layout, s, t, step) && w < |s.writers|
    ensures w < |t.writers| && t.writers[w].block == s.writers[w].block
    ensures t.writers[w].phase == Failed <==>
      Refused(s, w, step) || (s.writers[w].phase == Failed && step != Crash(w))
    ensures t.writers[w].phase == Succeeded <==>
      Confirmed(s, w, step) || (s.writers[w].phase == Succeeded && step != Crash(w))
    ensures t.writers[w].phase == Crashed <==> step == Crash(w) || s.writers[w].phase == Crashed
  {}

  /** Along any run, a writer that has failed was refused at some step before. */
  lemma {:induction false} FailedOnlyWhenRefused(layout: Layout, run: seq<State>, i: nat, w: nat)
    returns (j: nat, step: Step)
    requires Run(layout, run) && i < |run| && w < |run[i].writers| && run[i].writers[w].phase == Failed
    ensures j < i && w < |run[j].writers| && NextStep(layout, run[j], run[j + 1], step) && Refused(run[j], w, step)
    ensures run[j].writers[w].block == run[i].writers[w].block
  {
    assert i > 0;
    var k: nat := i - 1;
    assert Next(layout, run[k], run[i]);
    step :| NextStep(layout, run[k], run[i], step);
    if w < |run[k].writers| {
      StepsThatEnd(layout, run[k], run[i], step, w);
      if Refused(run[k], w, step) {
        j := k;
      } else {
        j, step := FailedOnlyWhenRefused(layout, run, k, w);
      }
    } else {
      assert false;
    }
  }

  // Retries.

  /** The writer's current reply gets lost. */
  function LostReply(s: State, w: nat): Step
    requires w < |s.writers|
  {
    if s.writers[w].phase.Root? then RootReply(w, TransportError) else TransactionReply(w, TransportError)
  }

  /** The writer waits for the answer to its attempt `attempts`, a request which nobody has processed. */
  ghost predicate Retrying(layout: Layout, s: State, w: nat, block: BlockHash, root: bool, attempts: nat) {
    && w < |s.writers| && |s.requests| > 0 && s.writers[w].block == block
    && s.writers[w].phase
         == (if root then Root(|s.requests| - 1, attempts) else Transaction(|s.requests| - 1, attempts))
    && s.requests[|s.requests| - 1]
         == Request(block, if root then 0 else 1, if root then 1 else |layout(block)|, None)
  }

  /** As many lost replies are survived as there are attempts left; after six attempts none is. */
  lemma {:induction false} RetriesSurvive(layout: Layout, s: State, w: nat, block: BlockHash, root: bool,
                                          attempts: nat, lost: nat) returns (run: seq<State>)
    requires Retrying(layout, s, w, block, root, attempts) && |layout(block)| > 0 && attempts + lost <= 6
    ensures Executes(layout, s, seq(lost, _ => LostReply(s, w)), run)
    ensures Retrying(layout, run[lost], w, block, root, attempts + lost)
    ensures run[lost].table == s.table
    decreases lost
  {
    if lost == 0 {
      ExecutesNothing(layout, s);
      return [s];
    }
    var step := LostReply(s, w);
    var again := if root then Send(s, block, 0, 1) else Send(s, block, 1, |layout(block)|);
    var t := SetPhase(again, w, if root then Root(|s.requests|, attempts + 1)
                                else Transaction(|s.requests|, attempts + 1));
    assert NextStep(layout, s, t, step);
    var rest := RetriesSurvive(layout, t, w, block, root, attempts + 1, lost - 1);
    ExecutesOne(layout, s, t, step);
    ExecutesBoth(layout, s, [step], [s, t], seq(lost - 1, _ => LostReply(t, w)), rest);
    assert [step] + seq(lost - 1, _ => LostReply(t, w)) == seq(lost, _ => LostReply(s, w));
    run := [s, t] + rest[1..];
  }
}
