/** Storing the parsed records of one GTFS file into its table: the records are cut into
    batch-writes of at most 25 put requests, and the batch-writes are sent in rounds of at most
    40, each round awaited before the next is started. A batch-write whose response reports
    unprocessed requests is logged and not sent again. */
module Ingestion {
  import opened Wrappers
  import opened Seqs
  import opened Chunking

  /** The most put requests the store accepts in one batch-write. */
  const ItemsPerWrite: nat := 25

  /** The most batch-writes sent together in one round. */
  const WritesPerRound: nat := 40

  /** A parsed CSV record, kept opaque: column name to value. */
  type Item = map<string, string>

  datatype PutRequest = PutRequest(item: Item)

  /** One batch-write call: put requests for a single table. */
  datatype BatchWrite = BatchWrite(tableName: string, requests: seq<PutRequest>)

  /** The store's answer to a batch-write: the entry of `UnprocessedItems` for the table, when
      the response has one. */
  datatype WriteResponse = WriteResponse(unprocessed: Option<seq<PutRequest>>)

  /** The error logged for a response with unprocessed requests, with their number. */
  datatype Warning = UnprocessedRequests(count: nat)

  /** The batch-write for one chunk: every item wrapped, unchanged, in a put request. */
  function WriteCall(tableName: string, chunk: seq<Item>): BatchWrite
  {
    BatchWrite(tableName, seq(|chunk|, j requires 0 <= j < |chunk| => PutRequest(chunk[j])))
  }

  /** The batch-writes for a list of chunks, one per chunk, in order. */
  function WriteCalls(tableName: string, chunks: seq<seq<Item>>): seq<BatchWrite>
  {
    seq(|chunks|, k requires 0 <= k < |chunks| => WriteCall(tableName, chunks[k]))
  }

  /** The batch-writes of every round, round by round. */
  function RoundsOf(tableName: string, groups: seq<seq<seq<Item>>>): seq<seq<BatchWrite>>
  {
    seq(|groups|, g requires 0 <= g < |groups| => WriteCalls(tableName, groups[g]))
  }

  /** What storing `contents` sends: the records cut into chunks of 25, the chunks into rounds
      of 40. */
  function WriteRounds(tableName: string, contents: seq<Item>): seq<seq<BatchWrite>>
  {
    RoundsOf(tableName, Chunks(Chunks(contents, ItemsPerWrite), WritesPerRound))
  }

  /** The warning logged for one response, if any: `UnprocessedItems` has a key. */
  function WarningFor(response: WriteResponse): seq<Warning>
  {
    match response.unprocessed
    case Some(requests) => [UnprocessedRequests(|requests|)]
    case None => []
  }

  /** The warnings for a list of calls, the call at position `k` being the `start + k`-th
      batch-write and receiving the response `respond(start + k, call)`. */
  function WarningsFrom(calls: seq<BatchWrite>, respond: (nat, BatchWrite) -> WriteResponse, start: nat): seq<Warning>
    decreases |calls|
  {
    if calls == [] then []
    else WarningFor(respond(start, calls[0])) + WarningsFrom(calls[1..], respond, start + 1)
  }

  /** The put-request items of a list of calls, call by call. */
  function ItemsOf(calls: seq<BatchWrite>): seq<Item>
    decreases |calls|
  {
    if calls == [] then []
    else seq(|calls[0].requests|, j requires 0 <= j < |calls[0].requests| => calls[0].requests[j].item)
         + ItemsOf(calls[1..])
  }

  // ---------------------------------------------------------------------------------------
  // The method

  lemma {:induction false} WriteCallsAppend(tableName: string, a: seq<seq<Item>>, b: seq<seq<Item>>)
    ensures WriteCalls(tableName, a + b) == WriteCalls(tableName, a) + WriteCalls(tableName, b)
  {
  }

  lemma {:induction false} WarningsAppend(a: seq<BatchWrite>, b: seq<BatchWrite>,
                                          respond: (nat, BatchWrite) -> WriteResponse, start: nat)
    ensures WarningsFrom(a + b, respond, start) == WarningsFrom(a, respond, start) + WarningsFrom(b, respond, start + |a|)
    decreases |a|
  {
    if a == [] {
      assert a + b == b;
    } else {
      assert (a + b)[0] == a[0];
      assert (a + b)[1..] == a[1..] + b;
      WarningsAppend(a[1..], b, respond, start + 1);
    }
  }

  /** One round of the loop over the chunks: the next (at most) 40 chunks. */
  lemma RoundStep(tableName: string, chunks: seq<seq<Item>>, i: nat)
    requires i < |chunks|
    ensures var end := Min(|chunks|, i + WritesPerRound);
      RoundsOf(tableName, Chunks(Drop(chunks, i), WritesPerRound))
        == [WriteCalls(tableName, chunks[i..end])] + RoundsOf(tableName, Chunks(Drop(chunks, i + WritesPerRound), WritesPerRound))
  {
    var rest := chunks[i..];
    ChunksUnfold(rest, WritesPerRound);
    assert rest[..Min(WritesPerRound, |rest|)] == chunks[i..Min(|chunks|, i + WritesPerRound)];
    assert Drop(rest, WritesPerRound) == Drop(chunks, i + WritesPerRound);
  }

  /** `storeData`: the loop that cuts the records into chunks, then the loop over rounds of 40
      chunks. In each round every chunk's batch-write is issued, in chunk order, and the round
      is awaited; a response with unprocessed requests only adds a warning. `respond` stands for
      the store's answers. */
  method StoreData(tableName: string, contents: seq<Item>, respond: (nat, BatchWrite) -> WriteResponse)
    returns (rounds: seq<seq<BatchWrite>>, warnings: seq<Warning>)
    ensures rounds == WriteRounds(tableName, contents)
    ensures warnings == WarningsFrom(Flatten(rounds), respond, 0)
  {
    var chunks := Chunk(contents, ItemsPerWrite);
    rounds, warnings := [], [];
    var i := 0;
    assert Drop(chunks, 0) == chunks;
    while i < |chunks|
      invariant LoopInvariant(tableName, chunks, respond, rounds, warnings, i)
      decreases |chunks| - i
    {
      var end := Min(|chunks|, i + WritesPerRound);
      var targetChunks := chunks[i..end];
      var calls := WriteCalls(tableName, targetChunks);
      var roundWarnings := WarningsFrom(calls, respond, i);
      RoundAdvances(tableName, chunks, respond, rounds, warnings, i);
      rounds := rounds + [calls];
      warnings := warnings + roundWarnings;
      i := i + WritesPerRound;
    }
    assert Chunks(Drop(chunks, i), WritesPerRound) == [];
  }

  /** What `StoreData` has sent and logged once the rounds before chunk `i` are done. */
  ghost predicate LoopInvariant(tableName: string, chunks: seq<seq<Item>>, respond: (nat, BatchWrite) -> WriteResponse,
                                rounds: seq<seq<BatchWrite>>, warnings: seq<Warning>, i: nat)
  {
    && rounds + RoundsOf(tableName, Chunks(Drop(chunks, i), WritesPerRound))
       == RoundsOf(tableName, Chunks(chunks, WritesPerRound))
    && Flatten(rounds) == WriteCalls(tableName, chunks[..Min(i, |chunks|)])
    && warnings == WarningsFrom(Flatten(rounds), respond, 0)
  }

  /** One round of `StoreData` keeps its loop invariant. */
  lemma RoundAdvances(tableName: string, chunks: seq<seq<Item>>, respond: (nat, BatchWrite) -> WriteResponse,
                      rounds: seq<seq<BatchWrite>>, warnings: seq<Warning>, i: nat)
    requires i < |chunks|
    requires LoopInvariant(tableName, chunks, respond, rounds, warnings, i)
    ensures var calls := WriteCalls(tableName, chunks[i..Min(|chunks|, i + WritesPerRound)]);
      LoopInvariant(tableName, chunks, respond, rounds + [calls], warnings + WarningsFrom(calls, respond, i), i + WritesPerRound)
  {
    var end := Min(|chunks|, i + WritesPerRound);
    var targetChunks := chunks[i..end];
    var calls := WriteCalls(tableName, targetChunks);
    RoundStep(tableName, chunks, i);
    var later := RoundsOf(tableName, Chunks(Drop(chunks, i + WritesPerRound), WritesPerRound));
    assert (rounds + [calls]) + later == rounds + ([calls] + later);
    FlattenAppend(rounds, [calls]);
    FlattenSingleton(calls);
    assert chunks[..i] + targetChunks == chunks[..end];
    WriteCallsAppend(tableName, chunks[..i], targetChunks);
    WarningsAppend(Flatten(rounds), calls, respond, 0);
  }

  // ---------------------------------------------------------------------------------------
  // Properties of what is sent

  /** The items carried by the batch-writes of a list of chunks are the chunks concatenated. */
  lemma {:induction false} ItemsOfWriteCalls(tableName: string, chunks: seq<seq<Item>>)
    ensures ItemsOf(WriteCalls(tableName, chunks)) == Flatten(chunks)
    decreases |chunks|
  {
    if chunks != [] {
      assert WriteCalls(tableName, chunks)[1..] == WriteCalls(tableName, chunks[1..]);
      ItemsOfWriteCalls(tableName, chunks[1..]);
      var first := WriteCalls(tableName, chunks)[0];
      assert seq(|first.requests|, j requires 0 <= j < |first.requests| => first.requests[j].item) == chunks[0];
    }
  }

  /** The rounds are the chunks' batch-writes cut into rounds: each round holds 1 to 40 calls,
      there are ceil(#chunks / 40) rounds, and in order they are every chunk's batch-write
      exactly once. */
  lemma RoundsPartitionCalls(tableName: string, contents: seq<Item>)
    ensures var chunks := Chunks(contents, ItemsPerWrite);
      var rounds := WriteRounds(tableName, contents);
      && Flatten(rounds) == WriteCalls(tableName, chunks)
      && |rounds| == (|chunks| + WritesPerRound - 1) / WritesPerRound
      && (forall g :: 0 <= g < |rounds| ==> 1 <= |rounds[g]| <= WritesPerRound)
  {
    var chunks := Chunks(contents, ItemsPerWrite);
    var groups := Chunks(chunks, WritesPerRound);
    ChunksPartition(chunks, WritesPerRound);
    CeilDivIsCeiling(|chunks|, WritesPerRound);
    FlattenWriteRounds(tableName, groups);
  }

  lemma {:induction false} FlattenWriteRounds(tableName: string, groups: seq<seq<seq<Item>>>)
    ensures Flatten(RoundsOf(tableName, groups)) == WriteCalls(tableName, Flatten(groups))
    decreases |groups|
  {
    if groups != [] {
      assert RoundsOf(tableName, groups)[1..] == RoundsOf(tableName, groups[1..]);
      FlattenWriteRounds(tableName, groups[1..]);
      WriteCallsAppend(tableName, groups[0], Flatten(groups[1..]));
    }
  }

  /** Every batch-write targets the given table and carries 1 to 25 put requests; there are
      ceil(#records / 25) of them; and their items, in order, are the records exactly: none
      dropped, repeated or altered. */
  lemma CallsCarryContents(tableName: string, contents: seq<Item>)
    ensures var calls := Flatten(WriteRounds(tableName, contents));
      && |calls| == (|contents| + ItemsPerWrite - 1) / ItemsPerWrite
      && (forall k :: 0 <= k < |calls| ==>
            calls[k].tableName == tableName && 1 <= |calls[k].requests| <= ItemsPerWrite)
      && ItemsOf(calls) == contents
  {
    var chunks := Chunks(contents, ItemsPerWrite);
    RoundsPartitionCalls(tableName, contents);
    ChunksPartition(contents, ItemsPerWrite);
    CeilDivIsCeiling(|contents|, ItemsPerWrite);
    ItemsOfWriteCalls(tableName, chunks);
  }

  /** Round `g` sends the batch-writes of chunks `40g` up to `40g + 40` (or the last chunk). */
  lemma RoundAt(tableName: string, contents: seq<Item>, g: nat)
    requires g < |WriteRounds(tableName, contents)|
    ensures var chunks := Chunks(contents, ItemsPerWrite);
      && g * WritesPerRound < |chunks|
      && WriteRounds(tableName, contents)[g]
         == WriteCalls(tableName, chunks[g * WritesPerRound .. Min(g * WritesPerRound + WritesPerRound, |chunks|)])
  {
    ChunkAt(Chunks(contents, ItemsPerWrite), WritesPerRound, g);
  }

  /** There are at most as many warnings as calls. */
  lemma {:induction false} WarningsAtMostCalls(calls: seq<BatchWrite>, respond: (nat, BatchWrite) -> WriteResponse, start: nat)
    ensures |WarningsFrom(calls, respond, start)| <= |calls|
    decreases |calls|
  {
    if calls != [] {
      WarningsAtMostCalls(calls[1..], respond, start + 1);
    }
  }

  /** Each warning reports the number of unprocessed requests in one call's response. */
  lemma {:induction false} WarningsReportResponses(calls: seq<BatchWrite>, respond: (nat, BatchWrite) -> WriteResponse, start: nat,
                                                   w: Warning)
    requires w in WarningsFrom(calls, respond, start)
    ensures exists k :: 0 <= k < |calls| && respond(start + k, calls[k]).unprocessed.Some?
                        && w.count == |respond(start + k, calls[k]).unprocessed.value|
    decreases |calls|
  {
    var rest := WarningsFrom(calls[1..], respond, start + 1);
    if w in rest {
      WarningsReportResponses(calls[1..], respond, start + 1, w);
      var k :| 0 <= k < |calls[1..]| && respond(start + 1 + k, calls[1..][k]).unprocessed.Some?
               && w.count == |respond(start + 1 + k, calls[1..][k]).unprocessed.value|;
      assert calls[1..][k] == calls[k + 1];
    } else {
      assert respond(start + 0, calls[0]).unprocessed.Some?;
    }
  }

  /** A call whose response has an `UnprocessedItems` entry gives a warning. */
  lemma {:induction false} UnprocessedResponseWarns(calls: seq<BatchWrite>, respond: (nat, BatchWrite) -> WriteResponse, start: nat,
                                                    k: nat)
    requires k < |calls| && respond(start + k, calls[k]).unprocessed.Some?
    ensures WarningsFrom(calls, respond, start) != []
    decreases k
  {
    if k > 0 {
      assert calls[1..][k - 1] == calls[k];
      UnprocessedResponseWarns(calls[1..], respond, start + 1, k - 1);
    }
  }

  /** Calls whose responses have no `UnprocessedItems` entry give no warning. */
  lemma {:induction false} ProcessedResponsesAreSilent(calls: seq<BatchWrite>, respond: (nat, BatchWrite) -> WriteResponse, start: nat)
    requires forall k :: 0 <= k < |calls| ==> respond(start + k, calls[k]).unprocessed.None?
    ensures WarningsFrom(calls, respond, start) == []
    decreases |calls|
  {
    if calls != [] {
      assert respond(start + 0, calls[0]).unprocessed.None?;
      forall k | 0 <= k < |calls[1..]|
        ensures respond(start + 1 + k, calls[1..][k]).unprocessed.None?
      {
        assert calls[1..][k] == calls[k + 1];
      }
      ProcessedResponsesAreSilent(calls[1..], respond, start + 1);
    }
  }

  /** There is no warning exactly when no response has an `UnprocessedItems` entry. */
  lemma NoWarningsWhenAllProcessed(calls: seq<BatchWrite>, respond: (nat, BatchWrite) -> WriteResponse, start: nat)
    ensures WarningsFrom(calls, respond, start) == [] <==>
      forall k :: 0 <= k < |calls| ==> respond(start + k, calls[k]).unprocessed.None?
  {
    if forall k :: 0 <= k < |calls| ==> respond(start + k, calls[k]).unprocessed.None? {
      ProcessedResponsesAreSilent(calls, respond, start);
    } else {
      var k :| 0 <= k < |calls| && respond(start + k, calls[k]).unprocessed.Some?;
      UnprocessedResponseWarns(calls, respond, start, k);
    }
  }
}
