/** Reading a block while it is being published: the root row, then all continuation rows in any order. */
module BlockReads {
  import opened Wrappers
  import opened Machine
  import opened BlockBasics
  import opened TableRows
  import opened RowEncoding
  import opened RowDecoding
  import opened RowRoundTrip
  import opened PublishProtocol

  /** One row read, retries included: the row, nothing under its key, or no answer. */
  datatype Fetch = Found(row: Row) | Missing | Unavailable

  datatype GetError = BackendUnavailable | MissingContinuation | Undecodable(error: DecodeError)

  /** The continuation rows in index order; the failure of the lowest index wins. */
  function RowsInOrder(fetch: nat -> Fetch, from: nat, count: nat): Result<seq<Row>, GetError>
    decreases if from < count then count - from else 0
  {
    if from >= count then Ok([])
    else
      match fetch(from)
      case Unavailable => Err(BackendUnavailable)
      case Missing => Err(MissingContinuation)
      case Found(row) =>
        match RowsInOrder(fetch, from + 1, count)
        case Err(error) => Err(error)
        case Ok(rows) => Ok([row] + rows)
  }

  /** Prefixing rows already collected. */
  function After(rows: seq<Row>, rest: Result<seq<Row>, GetError>): Result<seq<Row>, GetError> {
    match rest case Err(error) => Err(error) case Ok(more) => Ok(rows + more)
  }

  /** What the collecting loop knows: rows below `next` are taken, of the others those not in flight are kept. */
  ghost predicate Collecting(fetch: nat -> Fetch, count: nat, inFlight: set<nat>, resolved: seq<Option<Fetch>>,
                             next: nat, rows: seq<Row>)
  {
    && |resolved| == count && 1 <= next <= count
    && (forall k :: k in inFlight ==> next <= k < count)
    && (forall k :: next <= k < count ==>
          resolved[k] == if k in inFlight then None else Some(fetch(k)))
    && RowsInOrder(fetch, 1, count) == After(rows, RowsInOrder(fetch, next, count))
  }

  function AllContinuations(count: nat): (inFlight: set<nat>)
    ensures forall k: nat :: k in inFlight <==> 1 <= k < count
  {
    if count <= 1 then {} else AllContinuations(count - 1) + {count - 1}
  }

  lemma CollectingStarts(fetch: nat -> Fetch, count: nat, inFlight: set<nat>, resolved: seq<Option<Fetch>>)
    requires count > 0 && forall k: nat :: k in inFlight <==> 1 <= k < count
    requires |resolved| == count && forall k :: 0 <= k < count ==> resolved[k] == None
    ensures Collecting(fetch, count, inFlight, resolved, 1, [])
  {
    var rest := RowsInOrder(fetch, 1, count);
    assert rest.Ok? ==> [] + rest.value == rest.value;
  }

  lemma CollectingTakes(fetch: nat -> Fetch, count: nat, inFlight: set<nat>, resolved: seq<Option<Fetch>>,
                        next: nat, rows: seq<Row>)
    requires Collecting(fetch, count, inFlight, resolved, next, rows)
    requires next < count && resolved[next].Some?
    ensures resolved[next].value == fetch(next)
    ensures fetch(next).Found? ==>
      Collecting(fetch, count, inFlight, resolved, next + 1, rows + [fetch(next).row])
    ensures fetch(next).Unavailable? ==> RowsInOrder(fetch, 1, count) == Err(BackendUnavailable)
    ensures fetch(next).Missing? ==> RowsInOrder(fetch, 1, count) == Err(MissingContinuation)
  {
    var rest := RowsInOrder(fetch, next + 1, count);
    if fetch(next).Found? && rest.Ok? {
      assert rows + ([fetch(next).row] + rest.value) == (rows + [fetch(next).row]) + rest.value;
    }
  }

  lemma CollectingResolves(fetch: nat -> Fetch, count: nat, inFlight: set<nat>, resolved: seq<Option<Fetch>>,
                           next: nat, rows: seq<Row>, rowIndex: nat)
    requires Collecting(fetch, count, inFlight, resolved, next, rows) && rowIndex in inFlight
    ensures rowIndex < count
    ensures Collecting(fetch, count, inFlight - {rowIndex}, resolved[rowIndex := Some(fetch(rowIndex))], next, rows)
  {}

  /** Takes the rows that are next in order as far as their reads have completed. */
  method TakeResolved(fetch: nat -> Fetch, count: nat, ghost inFlight: set<nat>, resolved: seq<Option<Fetch>>,
                      start: nat, taken: seq<Row>) returns (next: nat, rows: seq<Row>, failure: Option<GetError>)
    requires Collecting(fetch, count, inFlight, resolved, start, taken)
    ensures failure.Some? ==> RowsInOrder(fetch, 1, count) == Err(failure.value)
    ensures failure.None? ==> Collecting(fetch, count, inFlight, resolved, next, rows)
    ensures failure.None? && next < count ==> resolved[next].None?
  {
    next, rows := start, taken;
    while next < count && resolved[next].Some?
      invariant Collecting(fetch, count, inFlight, resolved, next, rows)
      decreases count - next
    {
      CollectingTakes(fetch, count, inFlight, resolved, next, rows);
      var fetched := resolved[next].value;
      if fetched.Unavailable? {
        return next, rows, Some(BackendUnavailable);
      }
      if fetched.Missing? {
        return next, rows, Some(MissingContinuation);
      }
      rows := rows + [fetched.row];
      next := next + 1;
    }
    failure := None;
  }

  lemma CollectingEnds(fetch: nat -> Fetch, count: nat, resolved: seq<Option<Fetch>>, next: nat, rows: seq<Row>)
    requires Collecting(fetch, count, {}, resolved, next, rows) && (next < count ==> resolved[next].None?)
    ensures RowsInOrder(fetch, 1, count) == Ok(rows)
  {
    assert rows + [] == rows;
  }

  /**
   The loop over completed reads. Reads complete in any order; the result is that of reading the rows
   one after the other.
   */
  method CollectContinuationRows(fetch: nat -> Fetch, count: nat) returns (result: Result<seq<Row>, GetError>)
    requires count > 0
    ensures result == RowsInOrder(fetch, 1, count)
  {
    var inFlight := AllContinuations(count);
    var resolved: seq<Option<Fetch>> := seq(count, _ => None);
    var next: nat := 1;
    var rows: seq<Row> := [];
    CollectingStarts(fetch, count, inFlight, resolved);
    while inFlight != {}
      invariant Collecting(fetch, count, inFlight, resolved, next, rows)
      invariant next < count ==> resolved[next].None?
      decreases |inFlight|
    {
      var rowIndex: nat :| rowIndex in inFlight;
      CollectingResolves(fetch, count, inFlight, resolved, next, rows, rowIndex);
      inFlight := inFlight - {rowIndex};
      resolved := resolved[rowIndex := Some(fetch(rowIndex))];
      var failure;
      next, rows, failure := TakeResolved(fetch, count, inFlight, resolved, next, rows);
      if failure.Some? {
        return Err(failure.value);
      }
    }
    CollectingEnds(fetch, count, resolved, next, rows);
    return Ok(rows);
  }

  ghost function ReadResult(id: BlockHash, fetch: nat -> Fetch): Result<Option<seq<Byte>>, GetError> {
    match fetch(0)
    case Unavailable => Err(BackendUnavailable)
    case Missing => Ok(None)
    case Found(root) => ReadBehindRoot(id, fetch, root)
  }

  ghost function ReadBehindRoot(id: BlockHash, fetch: nat -> Fetch, root: Row): Result<Option<seq<Byte>>, GetError> {
    match RootMetadata(id, root)
    case Err(error) => Err(Undecodable(error))
    case Ok(metadata) =>
      match RowsInOrder(fetch, 1, metadata.rowCount)
      case Err(error) => Err(error)
      case Ok(rows) => ReadOfRows(id, [root] + rows)
  }

  ghost function ReadOfRows(id: BlockHash, rows: seq<Row>): Result<Option<seq<Byte>>, GetError> {
    match DecodedBlock(id, rows)
    case Err(error) => Err(Undecodable(error))
    case Ok(bytes) => Ok(Some(bytes))
  }

  method GetBehindRoot(id: BlockHash, fetch: nat -> Fetch, root: Row)
    returns (result: Result<Option<seq<Byte>>, GetError>)
    ensures result == ReadBehindRoot(id, fetch, root)
  {
    var metadata := DecodeRootMetadata(id, root);
    if metadata.Err? {
      return Err(Undecodable(metadata.error));
    }
    var rows := CollectContinuationRows(fetch, metadata.value.rowCount);
    if rows.Err? {
      return Err(rows.error);
    }
    result := DecodeCollected(id, [root] + rows.value);
  }

  method DecodeCollected(id: BlockHash, rows: seq<Row>) returns (result: Result<Option<seq<Byte>>, GetError>)
    requires rows != []
    ensures result == ReadOfRows(id, rows)
  {
    var bytes := DecodeBlockBytes(id, rows);
    if bytes.Err? {
      return Err(Undecodable(bytes.error));
    }
    return Ok(Some(bytes.value));
  }

  method GetBlockBytes(id: BlockHash, fetch: nat -> Fetch) returns (result: Result<Option<seq<Byte>>, GetError>)
    ensures result == ReadResult(id, fetch)
  {
    var root := fetch(0);
    if root.Unavailable? {
      return Err(BackendUnavailable);
    }
    if root.Missing? {
      return Ok(None);
    }
    result := GetBehindRoot(id, fetch, root.row);
  }

  /** Content addressing: an id determines the bytes that are ever put under it. */
  type Content = BlockHash -> seq<Byte>

  ghost function LayoutOf(content: Content): Layout {
    (id: BlockHash) =>
      if EncodeRows(id, content(id)).Ok? then EncodeRows(id, content(id)).value else []
  }

  /** Row `k` was read at moment `when(k)` of the run, not before the root row, unless its read failed. */
  ghost predicate ReadDuring(run: seq<State>, id: BlockHash, fetch: nat -> Fetch, when: nat -> nat) {
    forall k: nat ::
      && when(0) <= when(k) < |run|
      && (fetch(k).Found? ==> Has(run[when(k)].table, id, k) && fetch(k).row == run[when(k)].table[KeyAt(id, k)])
      && (fetch(k).Missing? ==> !Has(run[when(k)].table, id, k))
  }

  /** Once the root row was seen, no continuation row can be missing. */
  lemma ContinuationIsThere(content: Content, run: seq<State>, id: BlockHash, fetch: nat -> Fetch, when: nat -> nat,
                            k: nat)
    requires Run(LayoutOf(content), run) && ReadDuring(run, id, fetch, when)
    requires fetch(0).Found? && k < |LayoutOf(content)(id)|
    ensures fetch(k).Unavailable? || fetch(k) == Found(LayoutOf(content)(id)[k])
  {
    assert when(0) <= when(k) < |run|;
    assert Has(run[when(0)].table, id, 0);
    RunTableGrows(LayoutOf(content), run, when(0), when(k));
    RootImpliesAllRows(LayoutOf(content), run, when(k), id, k);
  }

  ghost predicate SomeUnavailable(fetch: nat -> Fetch, from: nat, count: nat) {
    exists k: nat :: from <= k < count && fetch(k).Unavailable?
  }

  lemma {:induction false} AvailableRows(fetch: nat -> Fetch, all: seq<Row>, from: nat)
    requires from <= |all|
    requires forall k: nat :: from <= k < |all| ==> fetch(k).Unavailable? || fetch(k) == Found(all[k])
    ensures RowsInOrder(fetch, from, |all|)
         == if SomeUnavailable(fetch, from, |all|) then Err(BackendUnavailable) else Ok(all[from..])
    decreases |all| - from
  {
    if from < |all| {
      AvailableRows(fetch, all, from + 1);
      if fetch(from).Found? {
        assert SomeUnavailable(fetch, from, |all|) <==> SomeUnavailable(fetch, from + 1, |all|);
        assert all[from..] == [all[from]] + all[from + 1..];
      }
    }
  }

  /** A root row that was read belongs to an encoded block, and every other row read is one of its rows. */
  lemma FoundRootIsEncoded(content: Content, run: seq<State>, id: BlockHash, fetch: nat -> Fetch, when: nat -> nat)
    requires Run(LayoutOf(content), run) && ReadDuring(run, id, fetch, when) && fetch(0).Found?
    ensures var all := LayoutOf(content)(id);
      && EncodeRows(id, content(id)) == Ok(all) && all != [] && fetch(0) == Found(all[0])
      && forall k: nat :: 1 <= k < |all| ==> fetch(k).Unavailable? || fetch(k) == Found(all[k])
  {
    var all := LayoutOf(content)(id);
    assert Has(run[when(0)].table, id, 0);
    RunKeepsInvariant(LayoutOf(content), run, when(0));
    forall k: nat | 1 <= k < |all|
      ensures fetch(k).Unavailable? || fetch(k) == Found(all[k])
    {
      ContinuationIsThere(content, run, id, fetch, when, k);
    }
  }

  /** What reading the rows of an encoded block gives. */
  lemma ReadOfEncoded(id: BlockHash, bytes: seq<Byte>, all: seq<Row>, fetch: nat -> Fetch)
    requires |bytes| <= I64_MAX && EncodeRows(id, bytes) == Ok(all) && all != [] && fetch(0) == Found(all[0])
    requires forall k: nat :: 1 <= k < |all| ==> fetch(k).Unavailable? || fetch(k) == Found(all[k])
    ensures ReadResult(id, fetch)
         == if SomeUnavailable(fetch, 1, |all|) then Err(BackendUnavailable) else Ok(Some(bytes))
  {
    EncodedRootIsAccepted(id, bytes);
    AvailableRows(fetch, all, 1);
    BlockRoundTrip(id, bytes);
    assert [all[0]] + all[1..] == all;
  }

  /**
   Whatever writers and readers do meanwhile, a read gives nothing when the root row is not there yet,
   a backend error when some row could not be read, and otherwise exactly the bytes of the block; it
   never gives other bytes and never finds a block incomplete.
   */
  lemma ReadsAreExact(content: Content, run: seq<State>, id: BlockHash, fetch: nat -> Fetch, when: nat -> nat)
    requires Run(LayoutOf(content), run) && ReadDuring(run, id, fetch, when)
    requires |content(id)| <= I64_MAX
    ensures ReadResult(id, fetch)
         == match fetch(0)
            case Missing => Ok(None)
            case Unavailable => Err(BackendUnavailable)
            case Found(_) =>
              if SomeUnavailable(fetch, 1, |LayoutOf(content)(id)|) then Err(BackendUnavailable)
              else Ok(Some(content(id)))
  {
    if fetch(0).Found? {
      FoundRootIsEncoded(content, run, id, fetch, when);
      ReadOfEncoded(id, content(id), LayoutOf(content)(id), fetch);
    }
  }

  /** After a successful put, a read that gets answers returns the block. */
  lemma PutThenGet(content: Content, run: seq<State>, w: nat, i: nat, fetch: nat -> Fetch, when: nat -> nat)
    requires Run(LayoutOf(content), run) && i < |run| && w < |run[i].writers|
    requires run[i].writers[w].phase == Succeeded
    requires var id := run[i].writers[w].block;
      ReadDuring(run, id, fetch, when) && i <= when(0) && |content(id)| <= I64_MAX
    requires forall k: nat :: !fetch(k).Unavailable?
    ensures var id := run[i].writers[w].block; ReadResult(id, fetch) == Ok(Some(content(id)))
  {
    var id := run[i].writers[w].block;
    SuccessIsDurable(LayoutOf(content), run, i, when(0), w);
    ReadsAreExact(content, run, id, fetch, when);
  }
}
