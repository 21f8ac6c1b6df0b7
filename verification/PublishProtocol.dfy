/** Publishing blocks row by row under concurrency, lost and late requests, and crashes. */
module PublishProtocol {
  // Continuation rows go first, in one transaction or one by one, and the root row goes last.

  import opened Wrappers
  import opened BlockBasics
  import opened TableKeys
  import opened TableRows

  const RETRY_MAX_ATTEMPTS := 6

  datatype Key = Key(partition: string, row: string)

  function KeyAt(id: BlockHash, rowIndex: nat): Key {
    Key(PartitionKey(id), RowKey(id, rowIndex))
  }

  lemma KeysAreDistinct(a: BlockHash, i: nat, b: BlockHash, j: nat)
    requires KeyAt(a, i) == KeyAt(b, j)
    ensures a == b && i == j
  {
    RowKeysAreDistinct(a, i, b, j);
  }

  /** The rows that every writer of a block publishes for it; a block that cannot be encoded has none. */
  type Layout = BlockHash -> seq<Row>

  datatype Outcome = Stored | AlreadyExists | TooLarge

  /** Insert rows `first` to `to` of a block, all or nothing; `outcome` is set once the service has acted. */
  datatype Request = Request(block: BlockHash, first: nat, end: nat, outcome: Option<Outcome>)

  datatype RowState = Sending(request: nat, attempts: nat) | Present

  datatype Phase =
    | Transaction(request: nat, attempts: nat)
    | Individually(rows: seq<RowState>)
    | Root(request: nat, attempts: nat)
    | Succeeded
    | Failed
    | Crashed

  datatype Writer = Writer(block: BlockHash, phase: Phase)

  datatype State = State(table: map<Key, Row>, requests: seq<Request>, writers: seq<Writer>)

  /** What a writer sees of a request: its answer, or an error that says nothing about what was applied. */
  datatype Reply = Answer | TransportError | ResponseError

  datatype Step =
    | Start(block: BlockHash)
    | Process(request: nat, outcome: Outcome)
    | TransactionReply(writer: nat, reply: Reply)
    | RowReply(writer: nat, row: nat, reply: Reply)
    | AllRowsPresent(writer: nat)
    | RootReply(writer: nat, reply: Reply)
    | Crash(writer: nat)

  // Steps.

  function Send(s: State, block: BlockHash, first: nat, end: nat): State {
    s.(requests := s.requests + [Request(block, first, end, None)])
  }

  function SetPhase(s: State, writer: nat, phase: Phase): State
    requires writer < |s.writers|
  {
    s.(writers := s.writers[writer := Writer(s.writers[writer].block, phase)])
  }

  /** One request for each of the rows `first` to `to`. */
  function SendEach(s: State, block: BlockHash, first: nat, end: nat): (t: State)
    requires first <= end
    ensures t.table == s.table && t.writers == s.writers
    decreases end as int - first
  {
    if first == end then s else SendEach(Send(s, block, first, first + 1), block, first + 1, end)
  }

  function Insert(table: map<Key, Row>, layout: Layout, block: BlockHash, first: nat, end: nat): map<Key, Row>
    requires first <= end <= |layout(block)|
    decreases end as int - first
  {
    if first == end then table
    else Insert(table[KeyAt(block, first) := layout(block)[first]], layout, block, first + 1, end)
  }

  predicate AnyPresent(table: map<Key, Row>, block: BlockHash, first: nat, end: nat) {
    exists k :: first <= k < end && KeyAt(block, k) in table
  }

  /** The service acts on one request, atomically. */
  ghost predicate ProcessStep(layout: Layout, s: State, t: State, r: nat, outcome: Outcome) {
    && r < |s.requests|
    && s.requests[r].outcome.None?
    && var q := s.requests[r];
    && q.first <= q.end <= |layout(q.block)|
    && (outcome == Stored ==> !AnyPresent(s.table, q.block, q.first, q.end))
    && (outcome == AlreadyExists ==> AnyPresent(s.table, q.block, q.first, q.end))
    && t == s.(requests := s.requests[r := q.(outcome := Some(outcome))],
               table := if outcome == Stored then Insert(s.table, layout, q.block, q.first, q.end) else s.table)
  }

  /** The reply to `request` tells the writer this outcome. */
  predicate Answered(s: State, request: nat, reply: Reply, outcome: Outcome) {
    reply == Answer && request < |s.requests| && s.requests[request].outcome == Some(outcome)
  }

  ghost predicate StartStep(layout: Layout, s: State, t: State, block: BlockHash) {
    var n := |layout(block)|;
    && n > 0
    && t == if n == 1 then Send(s, block, 0, 1).(writers := s.writers + [Writer(block, Root(|s.requests|, 1))])
            else Send(s, block, 1, n).(writers := s.writers + [Writer(block, Transaction(|s.requests|, 1))])
  }

  ghost predicate TransactionStep(layout: Layout, s: State, t: State, w: nat, reply: Reply) {
    && w < |s.writers|
    && s.writers[w].phase.Transaction?
    && var block, phase := s.writers[w].block, s.writers[w].phase;
    && var n := |layout(block)|;
    && n > 0
    && (|| (Answered(s, phase.request, reply, Stored)
            && t == SetPhase(Send(s, block, 0, 1), w, Root(|s.requests|, 1)))
        || ((Answered(s, phase.request, reply, AlreadyExists) || Answered(s, phase.request, reply, TooLarge))
            && t == SetPhase(SendEach(s, block, 1, n), w, Individually(FirstAttempts(|s.requests|, n - 1))))
        || (reply == TransportError && phase.attempts < RETRY_MAX_ATTEMPTS
            && t == SetPhase(Send(s, block, 1, n), w, Transaction(|s.requests|, phase.attempts + 1)))
        || (reply == TransportError && phase.attempts >= RETRY_MAX_ATTEMPTS && t == SetPhase(s, w, Failed))
        || (reply == ResponseError && t == SetPhase(s, w, Failed)))
  }

  function FirstAttempts(request: nat, count: nat): (rows: seq<RowState>)
    ensures |rows| == count
    ensures forall k :: 0 <= k < count ==> rows[k] == Sending(request + k, 1)
  {
    seq(count, k requires 0 <= k < count => Sending(request + k, 1))
  }

  /** Concurrent single-row inserts: entry `row` stands for continuation row `row + 1`. */
  ghost predicate RowStep(s: State, t: State, w: nat, row: nat, reply: Reply) {
    && w < |s.writers|
    && s.writers[w].phase.Individually?
    && var block, rows := s.writers[w].block, s.writers[w].phase.rows;
    && row < |rows|
    && rows[row].Sending?
    && (|| ((Answered(s, rows[row].request, reply, Stored) || Answered(s, rows[row].request, reply, AlreadyExists))
            && t == SetPhase(s, w, Individually(rows[row := Present])))
        || (Answered(s, rows[row].request, reply, TooLarge) && t == SetPhase(s, w, Failed))
        || (reply == TransportError && rows[row].attempts < RETRY_MAX_ATTEMPTS
            && t == SetPhase(Send(s, block, row + 1, row + 2), w,
                             Individually(rows[row := Sending(|s.requests|, rows[row].attempts + 1)])))
        || (reply == TransportError && rows[row].attempts >= RETRY_MAX_ATTEMPTS && t == SetPhase(s, w, Failed))
        || (reply == ResponseError && t == SetPhase(s, w, Failed)))
  }

  ghost predicate AllRowsStep(s: State, t: State, w: nat) {
    && w < |s.writers|
    && s.writers[w].phase.Individually?
    && (forall k :: 0 <= k < |s.writers[w].phase.rows| ==> s.writers[w].phase.rows[k] == Present)
    && t == SetPhase(Send(s, s.writers[w].block, 0, 1), w, Root(|s.requests|, 1))
  }

  ghost predicate RootStep(s: State, t: State, w: nat, reply: Reply) {
    && w < |s.writers|
    && s.writers[w].phase.Root?
    && var block, phase := s.writers[w].block, s.writers[w].phase;
    && (|| ((Answered(s, phase.request, reply, Stored) || Answered(s, phase.request, reply, AlreadyExists))
            && t == SetPhase(s, w, Succeeded))
        || (Answered(s, phase.request, reply, TooLarge) && t == SetPhase(s, w, Failed))
        || (reply == TransportError && phase.attempts < RETRY_MAX_ATTEMPTS
            && t == SetPhase(Send(s, block, 0, 1), w, Root(|s.requests|, phase.attempts + 1)))
        || (reply == TransportError && phase.attempts >= RETRY_MAX_ATTEMPTS && t == SetPhase(s, w, Failed))
        || (reply == ResponseError && t == SetPhase(s, w, Failed)))
  }

  ghost predicate NextStep(layout: Layout, s: State, t: State, step: Step) {
    match step
    case Start(block) => StartStep(layout, s, t, block)
    case Process(r, outcome) => ProcessStep(layout, s, t, r, outcome)
    case TransactionReply(w, reply) => TransactionStep(layout, s, t, w, reply)
    case RowReply(w, row, reply) => RowStep(s, t, w, row, reply)
    case AllRowsPresent(w) => AllRowsStep(s, t, w)
    case RootReply(w, reply) => RootStep(s, t, w, reply)
    case Crash(w) => w < |s.writers| && t == SetPhase(s, w, Crashed)
  }

  ghost predicate Next(layout: Layout, s: State, t: State) {
    exists step :: NextStep(layout, s, t, step)
  }

  const INITIAL := State(map[], [], [])

  ghost predicate Run(layout: Layout, run: seq<State>) {
    && |run| > 0 && run[0] == INITIAL
    && forall i :: 0 < i < |run| ==> Next(layout, run[i - 1], run[i])
  }

  // What every reachable state satisfies.

  predicate Has(table: map<Key, Row>, id: BlockHash, rowIndex: nat) {
    KeyAt(id, rowIndex) in table
  }

  predicate HasAll(table: map<Key, Row>, id: BlockHash, first: nat, end: nat) {
    forall k :: first <= k < end ==> Has(table, id, k)
  }

  /** Whatever is stored under a block's key is the row its writers publish there. */
  ghost predicate TableIsFaithful(layout: Layout, table: map<Key, Row>) {
    forall id: BlockHash, k: nat :: Has(table, id, k) ==>
      k < |layout(id)| && table[KeyAt(id, k)] == layout(id)[k]
  }

  /** A stored root row has all its continuation rows. */
  ghost predicate RootsAreComplete(layout: Layout, table: map<Key, Row>) {
    forall id: BlockHash :: Has(table, id, 0) ==> HasAll(table, id, 1, |layout(id)|)
  }

  ghost predicate RequestOk(layout: Layout, table: map<Key, Row>, q: Request) {
    && q.first < q.end <= |layout(q.block)|
    && (q.first == 0 ==> q.end == 1 && HasAll(table, q.block, 1, |layout(q.block)|))
    && (q.outcome == Some(Stored) ==> HasAll(table, q.block, q.first, q.end))
    && (q.outcome == Some(AlreadyExists) && q.end == q.first + 1 ==> Has(table, q.block, q.first))
  }

  ghost predicate RequestsOk(layout: Layout, table: map<Key, Row>, requests: seq<Request>) {
    forall r :: 0 <= r < |requests| ==> RequestOk(layout, table, requests[r])
  }

  predicate IsRequestFor(requests: seq<Request>, r: nat, block: BlockHash, first: nat, end: nat) {
    r < |requests| && requests[r].block == block && requests[r].first == first && requests[r].end == end
  }

  ghost predicate RowStateOk(table: map<Key, Row>, requests: seq<Request>, block: BlockHash, row: nat, r: RowState) {
    match r
    case Sending(request, _) => IsRequestFor(requests, request, block, row + 1, row + 2)
    case Present => Has(table, block, row + 1)
  }

  ghost predicate PhaseOk(layout: Layout, table: map<Key, Row>, requests: seq<Request>, block: BlockHash,
                          phase: Phase) {
    match phase
    case Transaction(request, _) => IsRequestFor(requests, request, block, 1, |layout(block)|)
    case Individually(rows) =>
      && |rows| == |layout(block)| - 1
      && forall k :: 0 <= k < |rows| ==> RowStateOk(table, requests, block, k, rows[k])
    case Root(request, _) => IsRequestFor(requests, request, block, 0, 1)
    case Succeeded => Has(table, block, 0)
    case _ => true
  }

  ghost predicate WritersOk(layout: Layout, s: State) {
    forall w :: 0 <= w < |s.writers| ==>
      PhaseOk(layout, s.table, s.requests, s.writers[w].block, s.writers[w].phase)
  }

  ghost predicate Invariant(layout: Layout, s: State) {
    && TableIsFaithful(layout, s.table)
    && RootsAreComplete(layout, s.table)
    && RequestsOk(layout, s.table, s.requests)
    && WritersOk(layout, s)
  }

  // Growth: rows stay, requests keep their rows.

  ghost predicate TableGrows(a: map<Key, Row>, b: map<Key, Row>) {
    forall id: BlockHash, k: nat :: Has(a, id, k) ==> Has(b, id, k) && b[KeyAt(id, k)] == a[KeyAt(id, k)]
  }

  ghost predicate RequestsGrow(a: seq<Request>, b: seq<Request>) {
    |a| <= |b| && forall r :: 0 <= r < |a| ==> IsRequestFor(b, r, a[r].block, a[r].first, a[r].end)
  }

  lemma HasAllStays(a: map<Key, Row>, b: map<Key, Row>, id: BlockHash, first: nat, end: nat)
    requires HasAll(a, id, first, end) && TableGrows(a, b)
    ensures HasAll(b, id, first, end)
  {
    forall k | first <= k < end
      ensures Has(b, id, k)
    {
      assert Has(a, id, k);
    }
  }

  lemma RequestStays(layout: Layout, a: map<Key, Row>, b: map<Key, Row>, q: Request)
    requires RequestOk(layout, a, q) && TableGrows(a, b)
    ensures RequestOk(layout, b, q)
  {
    if HasAll(a, q.block, 1, |layout(q.block)|) {
      HasAllStays(a, b, q.block, 1, |layout(q.block)|);
    }
    if HasAll(a, q.block, q.first, q.end) {
      HasAllStays(a, b, q.block, q.first, q.end);
    }
  }

  lemma PhaseStays(layout: Layout, a: State, b: State, block: BlockHash, phase: Phase)
    requires PhaseOk(layout, a.table, a.requests, block, phase)
    requires TableGrows(a.table, b.table) && RequestsGrow(a.requests, b.requests)
    ensures PhaseOk(layout, b.table, b.requests, block, phase)
  {
    if phase.Individually? {
      forall k | 0 <= k < |phase.rows|
        ensures RowStateOk(b.table, b.requests, block, k, phase.rows[k])
      {
        assert RowStateOk(a.table, a.requests, block, k, phase.rows[k]);
      }
    }
  }

  /** A writer's step keeps the invariant when its new phase and the requests it sent are in order. */
  lemma WriterStepKeeps(layout: Layout, s: State, sent: State, w: nat, phase: Phase)
    requires Invariant(layout, s) && w < |s.writers|
    requires sent.table == s.table && sent.writers == s.writers && RequestsGrow(s.requests, sent.requests)
    requires RequestsOk(layout, s.table, sent.requests)
    requires PhaseOk(layout, sent.table, sent.requests, s.writers[w].block, phase)
    ensures Invariant(layout, SetPhase(sent, w, phase))
  {
    forall v | 0 <= v < |s.writers|
      ensures PhaseOk(layout, sent.table, sent.requests, s.writers[v].block, s.writers[v].phase)
    {
      PhaseStays(layout, s, sent, s.writers[v].block, s.writers[v].phase);
    }
  }

  lemma SendKeeps(layout: Layout, s: State, block: BlockHash, first: nat, end: nat)
    requires RequestsOk(layout, s.table, s.requests) && first < end <= |layout(block)|
    requires first == 0 ==> end == 1 && HasAll(s.table, block, 1, |layout(block)|)
    ensures RequestsOk(layout, s.table, Send(s, block, first, end).requests)
    ensures RequestsGrow(s.requests, Send(s, block, first, end).requests)
    ensures IsRequestFor(Send(s, block, first, end).requests, |s.requests|, block, first, end)
  {}

  /** Entry `k` of the requests sent one by one is the one for row `first + k`. */
  predicate RowRequested(requests: seq<Request>, base: nat, block: BlockHash, first: nat, k: nat) {
    IsRequestFor(requests, base + k, block, first + k, first + k + 1)
  }

  lemma {:induction false} SendEachKeeps(layout: Layout, s: State, block: BlockHash, first: nat, end: nat)
    requires RequestsOk(layout, s.table, s.requests) && 0 < first <= end <= |layout(block)|
    ensures var t := SendEach(s, block, first, end);
      && t.table == s.table && t.writers == s.writers
      && RequestsOk(layout, s.table, t.requests) && RequestsGrow(s.requests, t.requests)
    ensures forall k: nat :: first + k < end ==>
      RowRequested(SendEach(s, block, first, end).requests, |s.requests|, block, first, k)
    decreases end as int - first
  {
    if first < end {
      var next := Send(s, block, first, first + 1);
      SendKeeps(layout, s, block, first, first + 1);
      SendEachKeeps(layout, next, block, first + 1, end);
      var t := SendEach(s, block, first, end);
      forall k: nat | first + k < end
        ensures RowRequested(t.requests, |s.requests|, block, first, k)
      {
        if k > 0 {
          var j: nat := k - 1;
          assert RowRequested(t.requests, |next.requests|, block, first + 1, j);
        }
      }
    }
  }

  // The steps, one by one.

  lemma {:induction false} InsertIs(table: map<Key, Row>, layout: Layout, block: BlockHash, first: nat, end: nat)
    requires first <= end <= |layout(block)|
    ensures var grown := Insert(table, layout, block, first, end);
      forall id: BlockHash, k: nat ::
        && (Has(grown, id, k) <==> Has(table, id, k) || (id == block && first <= k < end))
        && (Has(grown, id, k) ==>
              grown[KeyAt(id, k)] == if id == block && first <= k < end then layout(block)[k] else table[KeyAt(id, k)])
    decreases end as int - first
  {
    if first < end {
      var next := table[KeyAt(block, first) := layout(block)[first]];
      InsertIs(next, layout, block, first + 1, end);
      forall id: BlockHash, k: nat
        ensures Has(next, id, k) <==> Has(table, id, k) || (id == block && k == first)
        ensures Has(next, id, k) ==>
          next[KeyAt(id, k)] == if id == block && k == first then layout(block)[k] else table[KeyAt(id, k)]
      {
        if KeyAt(id, k) == KeyAt(block, first) {
          KeysAreDistinct(id, k, block, first);
        }
      }
    }
  }

  /** Inserting rows none of which is there only adds rows, and only the right ones. */
  lemma InsertKeeps(layout: Layout, table: map<Key, Row>, q: Request)
    requires TableIsFaithful(layout, table) && RootsAreComplete(layout, table) && RequestOk(layout, table, q)
    requires !AnyPresent(table, q.block, q.first, q.end)
    ensures var grown := Insert(table, layout, q.block, q.first, q.end);
      && TableGrows(table, grown) && HasAll(grown, q.block, q.first, q.end)
      && TableIsFaithful(layout, grown) && RootsAreComplete(layout, grown)
  {
    var grown := Insert(table, layout, q.block, q.first, q.end);
    InsertIs(table, layout, q.block, q.first, q.end);
    forall id: BlockHash | Has(grown, id, 0)
      ensures HasAll(grown, id, 1, |layout(id)|)
    {
      assert Has(table, id, 0) || (id == q.block && q.first == 0);
      HasAllStays(table, grown, id, 1, |layout(id)|);
    }
  }

  lemma ProcessKeeps(layout: Layout, s: State, t: State, r: nat, outcome: Outcome)
    requires Invariant(layout, s) && ProcessStep(layout, s, t, r, outcome)
    ensures Invariant(layout, t) && TableGrows(s.table, t.table)
  {
    var q := s.requests[r];
    assert RequestOk(layout, s.table, q);
    if outcome == Stored {
      InsertKeeps(layout, s.table, q);
    }
    RequestStays(layout, s.table, t.table, q);
    forall i | 0 <= i < |t.requests|
      ensures RequestOk(layout, t.table, t.requests[i])
    {
      if i != r {
        RequestStays(layout, s.table, t.table, s.requests[i]);
      }
    }
    WritersStay(layout, s, t);
  }

  lemma WritersStay(layout: Layout, s: State, t: State)
    requires WritersOk(layout, s) && t.writers == s.writers
    requires TableGrows(s.table, t.table) && RequestsGrow(s.requests, t.requests)
    ensures WritersOk(layout, t)
  {
    forall w | 0 <= w < |t.writers|
      ensures PhaseOk(layout, t.table, t.requests, t.writers[w].block, t.writers[w].phase)
    {
      PhaseStays(layout, s, t, s.writers[w].block, s.writers[w].phase);
    }
  }

  lemma StartKeeps(layout: Layout, s: State, t: State, block: BlockHash)
    requires Invariant(layout, s) && StartStep(layout, s, t, block)
    ensures Invariant(layout, t)
  {
    var n := |layout(block)|;
    var first, end := if n == 1 then 0 else 1, n;
    SendKeeps(layout, s, block, first, end);
    forall w | 0 <= w < |t.writers|
      ensures PhaseOk(layout, t.table, t.requests, t.writers[w].block, t.writers[w].phase)
    {
      if w < |s.writers| {
        PhaseStays(layout, s, t, s.writers[w].block, s.writers[w].phase);
      }
    }
  }

  /** A processed request keeps its promise in the table. */
  lemma AnswerHolds(layout: Layout, s: State, r: nat, block: BlockHash, first: nat, end: nat)
    requires Invariant(layout, s) && IsRequestFor(s.requests, r, block, first, end)
    ensures s.requests[r].outcome == Some(Stored) ==> HasAll(s.table, block, first, end)
    ensures s.requests[r].outcome == Some(AlreadyExists) && end == first + 1 ==> Has(s.table, block, first)
  {
    assert RequestOk(layout, s.table, s.requests[r]);
  }

  lemma TransactionKeeps(layout: Layout, s: State, t: State, w: nat, reply: Reply)
    requires Invariant(layout, s) && TransactionStep(layout, s, t, w, reply)
    ensures Invariant(layout, t)
  {
    var block, phase := s.writers[w].block, s.writers[w].phase;
    var n := |layout(block)|;
    assert PhaseOk(layout, s.table, s.requests, block, phase);
    AnswerHolds(layout, s, phase.request, block, 1, n);
    if Answered(s, phase.request, reply, Stored) {
      SendKeeps(layout, s, block, 0, 1);
      WriterStepKeeps(layout, s, Send(s, block, 0, 1), w, Root(|s.requests|, 1));
    } else if reply == Answer {
      SendEachKeeps(layout, s, block, 1, n);
      IndividualPhaseOk(layout, s, block);
      WriterStepKeeps(layout, s, SendEach(s, block, 1, n), w, Individually(FirstAttempts(|s.requests|, n - 1)));
    } else if reply == TransportError && phase.attempts < RETRY_MAX_ATTEMPTS {
      assert RequestOk(layout, s.table, s.requests[phase.request]);
      SendKeeps(layout, s, block, 1, n);
      WriterStepKeeps(layout, s, Send(s, block, 1, n), w, Transaction(|s.requests|, phase.attempts + 1));
    } else {
      WriterStepKeeps(layout, s, s, w, Failed);
    }
  }

  lemma IndividualPhaseOk(layout: Layout, s: State, block: BlockHash)
    requires RequestsOk(layout, s.table, s.requests) && |layout(block)| > 0
    ensures var n := |layout(block)|;
      PhaseOk(layout, s.table, SendEach(s, block, 1, n).requests, block,
              Individually(FirstAttempts(|s.requests|, n - 1)))
  {
    var n := |layout(block)|;
    SendEachKeeps(layout, s, block, 1, n);
    FirstAttemptsOk(s.table, SendEach(s, block, 1, n).requests, |s.requests|, block, n - 1);
  }

  lemma FirstAttemptsOk(table: map<Key, Row>, requests: seq<Request>, base: nat, block: BlockHash, count: nat)
    requires forall k: nat :: 1 + k < 1 + count ==> RowRequested(requests, base, block, 1, k)
    ensures forall k :: 0 <= k < count ==> RowStateOk(table, requests, block, k, FirstAttempts(base, count)[k])
  {
    forall k: nat | k < count
      ensures RowStateOk(table, requests, block, k, FirstAttempts(base, count)[k])
    {
      assert RowRequested(requests, base, block, 1, k);
    }
  }

  lemma RowKeeps(layout: Layout, s: State, t: State, w: nat, row: nat, reply: Reply)
    requires Invariant(layout, s) && RowStep(s, t, w, row, reply)
    ensures Invariant(layout, t)
  {
    var block, rows := s.writers[w].block, s.writers[w].phase.rows;
    assert PhaseOk(layout, s.table, s.requests, block, s.writers[w].phase);
    assert RowStateOk(s.table, s.requests, block, row, rows[row]);
    AnswerHolds(layout, s, rows[row].request, block, row + 1, row + 2);
    if Answered(s, rows[row].request, reply, Stored) || Answered(s, rows[row].request, reply, AlreadyExists) {
      assert HasAll(s.table, block, row + 1, row + 2) ==> Has(s.table, block, row + 1);
      UpdatedRowOk(layout, s, s, block, rows, row, Present);
      WriterStepKeeps(layout, s, s, w, Individually(rows[row := Present]));
    } else if reply == TransportError && rows[row].attempts < RETRY_MAX_ATTEMPTS {
      var sent := Send(s, block, row + 1, row + 2);
      var again := Sending(|s.requests|, rows[row].attempts + 1);
      SendKeeps(layout, s, block, row + 1, row + 2);
      UpdatedRowOk(layout, s, sent, block, rows, row, again);
      WriterStepKeeps(layout, s, sent, w, Individually(rows[row := again]));
    } else {
      WriterStepKeeps(layout, s, s, w, Failed);
    }
  }

  lemma UpdatedRowOk(layout: Layout, s: State, sent: State, block: BlockHash, rows: seq<RowState>, row: nat,
                     r: RowState)
    requires row < |rows| && PhaseOk(layout, s.table, s.requests, block, Individually(rows))
    requires sent.table == s.table && RequestsGrow(s.requests, sent.requests)
    requires RowStateOk(sent.table, sent.requests, block, row, r)
    ensures PhaseOk(layout, sent.table, sent.requests, block, Individually(rows[row := r]))
  {
    PhaseStays(layout, s, sent, block, Individually(rows));
    var updated := rows[row := r];
    forall k: nat | k < |updated|
      ensures RowStateOk(sent.table, sent.requests, block, k, updated[k])
    {
      assert RowStateOk(sent.table, sent.requests, block, k, rows[k]);
    }
  }

  lemma AllRowsKeep(layout: Layout, s: State, t: State, w: nat)
    requires Invariant(layout, s) && AllRowsStep(s, t, w)
    ensures Invariant(layout, t)
  {
    var block, rows := s.writers[w].block, s.writers[w].phase.rows;
    assert PhaseOk(layout, s.table, s.requests, block, s.writers[w].phase);
    forall k | 1 <= k < |layout(block)|
      ensures Has(s.table, block, k)
    {
      var row := k - 1;
      assert RowStateOk(s.table, s.requests, block, row, rows[row]);
    }
    SendKeeps(layout, s, block, 0, 1);
    WriterStepKeeps(layout, s, Send(s, block, 0, 1), w, Root(|s.requests|, 1));
  }

  lemma RootKeeps(layout: Layout, s: State, t: State, w: nat, reply: Reply)
    requires Invariant(layout, s) && RootStep(s, t, w, reply)
    ensures Invariant(layout, t)
  {
    var block, phase := s.writers[w].block, s.writers[w].phase;
    assert PhaseOk(layout, s.table, s.requests, block, phase);
    AnswerHolds(layout, s, phase.request, block, 0, 1);
    if Answered(s, phase.request, reply, Stored) || Answered(s, phase.request, reply, AlreadyExists) {
      assert HasAll(s.table, block, 0, 1) ==> Has(s.table, block, 0);
      WriterStepKeeps(layout, s, s, w, Succeeded);
    } else if reply == TransportError && phase.attempts < RETRY_MAX_ATTEMPTS {
      assert RequestOk(layout, s.table, s.requests[phase.request]);
      SendKeeps(layout, s, block, 0, 1);
      WriterStepKeeps(layout, s, Send(s, block, 0, 1), w, Root(|s.requests|, phase.attempts + 1));
    } else {
      WriterStepKeeps(layout, s, s, w, Failed);
    }
  }

  /** Every step keeps the invariant. */
  lemma NextKeeps(layout: Layout, s: State, t: State, step: Step)
    requires Invariant(layout, s) && NextStep(layout, s, t, step)
    ensures Invariant(layout, t)
  {
    match step
    case Start(block) => StartKeeps(layout, s, t, block);
    case Process(r, outcome) => ProcessKeeps(layout, s, t, r, outcome);
    case TransactionReply(w, reply) => TransactionKeeps(layout, s, t, w, reply);
    case RowReply(w, row, reply) => RowKeeps(layout, s, t, w, row, reply);
    case AllRowsPresent(w) => AllRowsKeep(layout, s, t, w);
    case RootReply(w, reply) => RootKeeps(layout, s, t, w, reply);
    case Crash(w) => WriterStepKeeps(layout, s, s, w, Crashed);
  }

  /** No step loses or changes a stored row; only the service touches the table. */
  lemma NextKeepsRows(layout: Layout, s: State, t: State, step: Step)
    requires Invariant(layout, s) && NextStep(layout, s, t, step)
    ensures TableGrows(s.table, t.table)
  {
    if step.Process? {
      ProcessKeeps(layout, s, t, step.request, step.outcome);
    } else {
      OnlyServiceWrites(layout, s, t, step);
    }
  }

  lemma OnlyServiceWrites(layout: Layout, s: State, t: State, step: Step)
    requires NextStep(layout, s, t, step) && !step.Process?
    ensures t.table == s.table
  {}

  lemma {:induction false} RunKeepsInvariant(layout: Layout, run: seq<State>, i: nat)
    requires Run(layout, run) && i < |run|
    ensures Invariant(layout, run[i])
  {
    if i > 0 {
      RunKeepsInvariant(layout, run, i - 1);
      assert Next(layout, run[i - 1], run[i]);
      var step :| NextStep(layout, run[i - 1], run[i], step);
      NextKeeps(layout, run[i - 1], run[i], step);
    }
  }

  lemma GrowsTransitively(a: map<Key, Row>, b: map<Key, Row>, c: map<Key, Row>)
    requires TableGrows(a, b) && TableGrows(b, c)
    ensures TableGrows(a, c)
  {}

  lemma {:induction false} RunTableGrows(layout: Layout, run: seq<State>, i: nat, j: nat)
    requires Run(layout, run) && i <= j < |run|
    ensures TableGrows(run[i].table, run[j].table)
  {
    if i < j {
      var k: nat := j - 1;
      RunTableGrows(layout, run, i, k);
      RunKeepsInvariant(layout, run, k);
      assert Next(layout, run[k], run[j]);
      var step :| NextStep(layout, run[k], run[j], step);
      NextKeepsRows(layout, run[k], run[j], step);
      GrowsTransitively(run[i].table, run[k].table, run[j].table);
    }
  }

  /** Root last: at any moment, a block whose root row is stored has every row stored, exactly as published. */
  lemma RootImpliesAllRows(layout: Layout, run: seq<State>, i: nat, id: BlockHash, k: nat)
    requires Run(layout, run) && i < |run|
    requires Has(run[i].table, id, 0) && k < |layout(id)|
    ensures Has(run[i].table, id, k) && run[i].table[KeyAt(id, k)] == layout(id)[k]
  {
    RunKeepsInvariant(layout, run, i);
    if k > 0 {
      assert HasAll(run[i].table, id, 1, |layout(id)|);
    }
  }

  /** A put that reported success has stored the whole block, and it stays stored. */
  lemma SuccessIsDurable(layout: Layout, run: seq<State>, i: nat, j: nat, w: nat)
    requires Run(layout, run) && i <= j < |run| && w < |run[i].writers|
    requires run[i].writers[w].phase == Succeeded
    ensures Has(run[j].table, run[i].writers[w].block, 0)
  {
    RunKeepsInvariant(layout, run, i);
    assert PhaseOk(layout, run[i].table, run[i].requests, run[i].writers[w].block, run[i].writers[w].phase);
    RunTableGrows(layout, run, i, j);
  }
}
