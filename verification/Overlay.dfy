/** The overlay store. Caches never show: with or without them every read gives the same. */
module Overlay {
  // Reads go from the highest layer down and refill the caches above the hit; writes go to the writable layers.

  import opened Wrappers
  import opened Machine
  import opened BlockBasics
  import opened Recency

  datatype Role = Cache | Writable | ReadOnly

  type Blocks = map<BlockHash, seq<Byte>>

  datatype Layer = Layer(role: Role, blocks: Blocks)

  /** Content addressing: an id determines the bytes put under it. */
  type Content = BlockHash -> seq<Byte>

  datatype StoreError = BackendFailure

  // What layers hold.

  function AllIds(layers: seq<Layer>): set<BlockHash> {
    if layers == [] then {} else layers[0].blocks.Keys + AllIds(layers[1..])
  }

  /** The layers that are no caches, in order: the overlay without its caches. */
  function WithoutCaches(layers: seq<Layer>): seq<Layer> {
    if layers == [] then []
    else (if layers[0].role == Cache then [] else [layers[0]]) + WithoutCaches(layers[1..])
  }

  function DurableIds(layers: seq<Layer>): set<BlockHash> {
    AllIds(WithoutCaches(layers))
  }

  ghost predicate Faithful(layers: seq<Layer>, content: Content) {
    forall i, id :: 0 <= i < |layers| && id in layers[i].blocks ==> layers[i].blocks[id] == content(id)
  }

  /** Every block anywhere, caches included, is also in a layer that is no cache. */
  ghost predicate CachesAreBacked(layers: seq<Layer>) {
    AllIds(layers) == DurableIds(layers)
  }

  /** The first layer that has the block decides. */
  function FirstHit(layers: seq<Layer>, id: BlockHash): Option<seq<Byte>> {
    if layers == [] then None
    else if id in layers[0].blocks then Some(layers[0].blocks[id])
    else FirstHit(layers[1..], id)
  }

  lemma {:induction false} FirstHitIsContent(layers: seq<Layer>, content: Content, id: BlockHash)
    requires Faithful(layers, content)
    ensures FirstHit(layers, id) == if id in AllIds(layers) then Some(content(id)) else None
  {
    if layers != [] {
      assert Faithful(layers[1..], content) by {
        forall i, x | 0 <= i < |layers[1..]| && x in layers[1..][i].blocks
          ensures layers[1..][i].blocks[x] == content(x)
        {
          assert layers[1..][i] == layers[i + 1];
        }
      }
      FirstHitIsContent(layers[1..], content, id);
    }
  }

  lemma {:induction false} WithoutCachesFaithful(layers: seq<Layer>, content: Content)
    requires Faithful(layers, content)
    ensures Faithful(WithoutCaches(layers), content)
  {
    WithoutCachesMembers(layers);
    var durable := WithoutCaches(layers);
    forall i, id | 0 <= i < |durable| && id in durable[i].blocks
      ensures durable[i].blocks[id] == content(id)
    {
      assert durable[i] in durable;
      var j :| 0 <= j < |layers| && layers[j] == durable[i];
    }
  }

  lemma {:induction false} WithoutCachesMembers(layers: seq<Layer>)
    ensures forall layer :: layer in WithoutCaches(layers) <==> layer in layers && layer.role != Cache
  {
    if layers != [] {
      WithoutCachesMembers(layers[1..]);
      assert layers == [layers[0]] + layers[1..];
    }
  }

  /** The overlay answers a read exactly as it would without its caches. */
  lemma CachesDoNotShow(layers: seq<Layer>, content: Content, id: BlockHash)
    requires Faithful(layers, content) && CachesAreBacked(layers)
    ensures FirstHit(layers, id) == FirstHit(WithoutCaches(layers), id)
    ensures FirstHit(layers, id) == if id in DurableIds(layers) then Some(content(id)) else None
  {
    WithoutCachesFaithful(layers, content);
    FirstHitIsContent(layers, content, id);
    FirstHitIsContent(WithoutCaches(layers), content, id);
  }

  // Single layer changes.

  lemma {:induction false} IdsAt(layers: seq<Layer>, i: nat)
    requires i < |layers|
    ensures layers[i].blocks.Keys <= AllIds(layers)
    ensures layers[i].role != Cache ==> layers[i].blocks.Keys <= DurableIds(layers)
  {
    if i > 0 {
      IdsAt(layers[1..], i - 1);
      WithoutCachesStep(layers);
    } else {
      WithoutCachesStep(layers);
    }
  }

  lemma WithoutCachesStep(layers: seq<Layer>)
    requires layers != []
    ensures DurableIds(layers)
         == (if layers[0].role == Cache then {} else layers[0].blocks.Keys) + DurableIds(layers[1..])
  {
    if layers[0].role != Cache {
      assert WithoutCaches(layers)[1..] == WithoutCaches(layers[1..]);
    } else {
      assert WithoutCaches(layers) == WithoutCaches(layers[1..]);
    }
  }

  lemma {:induction false} DurableAreAll(layers: seq<Layer>)
    ensures DurableIds(layers) <= AllIds(layers)
  {
    if layers != [] {
      WithoutCachesStep(layers);
      DurableAreAll(layers[1..]);
    }
  }

  /** What a layer may turn into when `id` is put: durable layers keep their blocks, caches may drop any. */
  ghost predicate PutResult(before: Layer, after: Layer, id: BlockHash, bytes: seq<Byte>) {
    && after.role == before.role
    && (forall x :: x in after.blocks ==> (x == id && after.blocks[x] == bytes)
                                          || (x in before.blocks && after.blocks[x] == before.blocks[x]))
    && (before.role != Cache ==> before.blocks.Keys <= after.blocks.Keys)
  }

  /** How a layer answers a put: a failed one may have stored the block, and a cache keeps what it likes. */
  datatype PutOutcome = PutOutcome(ok: bool, applied: bool, kept: set<BlockHash>)

  function AfterPut(layer: Layer, id: BlockHash, bytes: seq<Byte>, outcome: PutOutcome): Layer {
    var stored := if (outcome.ok || outcome.applied) && id !in layer.blocks then layer.blocks[id := bytes]
                  else layer.blocks;
    Layer(layer.role, if layer.role == Cache then map x | x in stored && x in outcome.kept :: stored[x] else stored)
  }

  lemma AfterPutIsResult(layer: Layer, id: BlockHash, bytes: seq<Byte>, outcome: PutOutcome)
    ensures PutResult(layer, AfterPut(layer, id, bytes, outcome), id, bytes)
    ensures outcome.ok && layer.role != Cache ==> id in AfterPut(layer, id, bytes, outcome).blocks
  {}

  /** The layers with one role below `limit` have been asked to store the block, each with its own outcome. */
  ghost predicate PutInto(before: seq<Layer>, after: seq<Layer>, role: Role, limit: nat, id: BlockHash,
                          bytes: seq<Byte>, puts: nat -> PutOutcome) {
    |after| == |before|
    && forall i: nat :: i < |before| ==>
         after[i] == if i < limit && before[i].role == role then AfterPut(before[i], id, bytes, puts(i)) else before[i]
  }

  lemma {:induction false} IdsAfterPut(layers: seq<Layer>, i: nat, after: Layer, id: BlockHash, bytes: seq<Byte>)
    requires i < |layers| && PutResult(layers[i], after, id, bytes)
    ensures var updated := layers[i := after];
      && AllIds(updated) <= AllIds(layers) + {id}
      && DurableIds(layers) <= DurableIds(updated) <= DurableIds(layers) + {id}
      && (layers[i].role == Cache ==> DurableIds(updated) == DurableIds(layers))
      && (layers[i].role != Cache && id in after.blocks ==> id in DurableIds(updated))
  {
    var updated := layers[i := after];
    WithoutCachesStep(layers);
    WithoutCachesStep(updated);
    if i > 0 {
      assert updated[1..] == layers[1..][i - 1 := after];
      IdsAfterPut(layers[1..], i - 1, after, id, bytes);
    } else {
      assert updated[1..] == layers[1..];
    }
  }

  lemma FaithfulAfterPut(layers: seq<Layer>, content: Content, i: nat, after: Layer, id: BlockHash)
    requires Faithful(layers, content) && i < |layers| && PutResult(layers[i], after, id, content(id))
    ensures Faithful(layers[i := after], content)
  {}

  /** A put into a durable layer, or of a durable block into a cache, keeps the caches backed. */
  lemma BackedAfterPut(layers: seq<Layer>, i: nat, after: Layer, id: BlockHash, bytes: seq<Byte>)
    requires CachesAreBacked(layers) && i < |layers| && PutResult(layers[i], after, id, bytes)
    requires layers[i].role == Cache ==> id in DurableIds(layers)
    ensures CachesAreBacked(layers[i := after])
  {
    var updated := layers[i := after];
    IdsAfterPut(layers, i, after, id, bytes);
    DurableAreAll(updated);
    IdsAt(updated, i);
    if layers[i].role != Cache {
      NewIdIsDurable(layers, i, after, id, bytes);
    }
  }

  lemma {:induction false} NewIdIsDurable(layers: seq<Layer>, i: nat, after: Layer, id: BlockHash, bytes: seq<Byte>)
    requires i < |layers| && layers[i].role != Cache && PutResult(layers[i], after, id, bytes)
    ensures id in AllIds(layers[i := after]) ==> id in AllIds(layers) || id in DurableIds(layers[i := after])
  {
    var updated := layers[i := after];
    WithoutCachesStep(updated);
    if i > 0 {
      assert updated[1..] == layers[1..][i - 1 := after];
      NewIdIsDurable(layers[1..], i - 1, after, id, bytes);
    } else {
      assert updated[1..] == layers[1..];
    }
  }

  datatype Counters = Counters(hits: nat, misses: nat, errors: nat) {
    function Total(): nat {
      hits + misses + errors
    }
  }

  /** None of the first `n` layers gives the block: each fails or does not have it. */
  ghost predicate Silent(layers: seq<Layer>, id: BlockHash, fails: nat -> bool, n: nat) {
    n <= |layers| && forall j: nat :: j < n ==> fails(j) || id !in layers[j].blocks
  }

  /** The counters of a layer after it has been asked for a block. */
  function Noted(counters: Counters, failed: bool, hit: bool): Counters {
    if failed then counters.(errors := counters.errors + 1)
    else if hit then counters.(hits := counters.hits + 1)
    else counters.(misses := counters.misses + 1)
  }

  ghost predicate AllNoted(before: seq<Counters>, after: seq<Counters>, layers: seq<Layer>, id: BlockHash,
                           fails: nat -> bool, asked: nat) {
    && |after| == |before| == |layers|
    && forall i: nat :: i < |before| ==>
         after[i] == if i < asked then Noted(before[i], fails(i), id in layers[i].blocks) else before[i]
  }

  lemma NotedNext(before: seq<Counters>, now: seq<Counters>, layers: seq<Layer>, id: BlockHash, fails: nat -> bool,
                  i: nat)
    requires AllNoted(before, now, layers, id, fails, i) && i < |layers|
    ensures AllNoted(before, now[i := Noted(now[i], fails(i), id in layers[i].blocks)], layers, id, fails, i + 1)
  {}

  lemma ShowOne(ids: seq<BlockHash>, seen: set<BlockHash>, id: BlockHash)
    requires Distinct(ids) && Ids(ids) == seen && id !in seen
    ensures Distinct(ids + [id]) && Ids(ids + [id]) == seen + {id}
  {
    IdsAre(ids, id);
    IdsOfAppend(ids, id);
  }

  /** The stream of one layer: ids already shown are skipped. */
  method AppendUnseen(shown: seq<BlockHash>, shownSet: set<BlockHash>, stream: set<BlockHash>)
    returns (ids: seq<BlockHash>, seen: set<BlockHash>)
    requires Distinct(shown) && Ids(shown) == shownSet
    ensures Distinct(ids) && Ids(ids) == seen && seen == shownSet + stream && shown <= ids
  {
    ids, seen := shown, shownSet;
    var remaining := stream;
    while remaining != {}
      invariant Distinct(ids) && Ids(ids) == seen && remaining <= stream && shown <= ids
      invariant seen == shownSet + (stream - remaining)
      decreases |remaining|
    {
      var id :| id in remaining;
      remaining := remaining - {id};
      if id !in seen {
        ShowOne(ids, seen, id);
        ids := ids + [id];
        seen := seen + {id};
      }
    }
  }

  class OverlayBlockStore {
    var layers: seq<Layer>
    var counters: seq<Counters>
    ghost const content: Content

    ghost predicate Valid()
      reads this
    {
      |layers| >= 2 && |counters| == |layers| && Faithful(layers, content) && CachesAreBacked(layers)
    }

    /** An overlay of at least two layers whose caches start empty. */
    constructor (layers: seq<Layer>, ghost content: Content)
      requires |layers| >= 2 && Faithful(layers, content) && CachesAreBacked(layers)
      ensures Valid() && this.layers == layers && this.content == content
      ensures forall i :: 0 <= i < |counters| ==> counters[i].Total() == 0
    {
      this.layers, this.content := layers, content;
      counters := seq(|layers|, _ => Counters(0, 0, 0));
    }

    /** One layer is asked to store a block. */
    method LayerPut(i: nat, id: BlockHash, bytes: seq<Byte>, outcome: PutOutcome) returns (ok: bool)
      requires Valid() && i < |layers| && bytes == content(id)
      requires layers[i].role == Cache ==> id in DurableIds(layers)
      modifies `layers
      ensures Valid() && ok == outcome.ok
      ensures layers == old(layers)[i := AfterPut(old(layers)[i], id, bytes, outcome)]
      ensures DurableIds(old(layers)) <= DurableIds(layers) <= DurableIds(old(layers)) + {id}
    {
      ok := outcome.ok;
      var after := AfterPut(layers[i], id, bytes, outcome);
      AfterPutIsResult(layers[i], id, bytes, outcome);
      FaithfulAfterPut(layers, content, i, after, id);
      BackedAfterPut(layers, i, after, id, bytes);
      IdsAfterPut(layers, i, after, id, bytes);
      layers := layers[i := after];
    }

    /** Direct writes go to every writable layer; the last failure is reported. */
    method PutBlockBytes(id: BlockHash, bytes: seq<Byte>, puts: nat -> PutOutcome)
      returns (result: Result<(), StoreError>)
      requires Valid() && bytes == content(id)
      modifies `layers
      ensures Valid() && PutInto(old(layers), layers, Writable, |layers|, id, bytes, puts)
      ensures DurableIds(old(layers)) <= DurableIds(layers) <= DurableIds(old(layers)) + {id}
      ensures result.Ok? <==>
        && (exists i: nat :: i < |layers| && layers[i].role == Writable)
        && forall i: nat :: i < |layers| && layers[i].role == Writable ==> puts(i).ok
      ensures result.Ok? ==> forall i: nat :: i < |layers| && layers[i].role == Writable ==> id in layers[i].blocks
    {
      var attemptedWrite := false;
      var lastError := false;
      for i := 0 to |layers|
        invariant Valid() && PutInto(old(layers), layers, Writable, i, id, bytes, puts)
        invariant DurableIds(old(layers)) <= DurableIds(layers) <= DurableIds(old(layers)) + {id}
        invariant attemptedWrite <==> exists j: nat :: j < i && layers[j].role == Writable
        invariant !lastError <==> forall j: nat :: j < i && layers[j].role == Writable ==> puts(j).ok
      {
        if layers[i].role == Writable {
          attemptedWrite := true;
          var ok := LayerPut(i, id, bytes, puts(i));
          if !ok {
            lastError := true;
          }
        }
      }
      if !attemptedWrite || lastError {
        return Err(BackendFailure);
      }
      return Ok(());
    }

    /** The caches above a hit are asked to store the block; failures do not matter. */
    method RefillCacheLayers(hitIndex: nat, id: BlockHash, bytes: seq<Byte>, puts: nat -> PutOutcome)
      requires Valid() && hitIndex < |layers| && bytes == content(id) && id in DurableIds(layers)
      modifies `layers
      ensures Valid() && PutInto(old(layers), layers, Cache, hitIndex, id, bytes, puts)
      ensures DurableIds(layers) == DurableIds(old(layers))
      ensures forall i: nat :: i < hitIndex && layers[i].role == Cache && puts(i).ok && id in puts(i).kept ==>
        id in layers[i].blocks
    {
      for i := 0 to hitIndex
        invariant Valid() && PutInto(old(layers), layers, Cache, i, id, bytes, puts)
        invariant DurableIds(layers) == DurableIds(old(layers))
      {
        if layers[i].role == Cache {
          var _ := LayerPut(i, id, bytes, puts(i));
        }
      }
    }

    /** A layer read may fail; otherwise it tells what the layer holds. The layer's counters note which it was. */
    method LayerGet(i: nat, id: BlockHash, fails: bool) returns (result: Result<Option<seq<Byte>>, StoreError>)
      requires Valid() && i < |layers|
      modifies `counters
      ensures Valid() && counters == old(counters)[i := Noted(old(counters)[i], fails, id in layers[i].blocks)]
      ensures result.Err? <==> fails
      ensures result.Ok? ==>
        result.value == if id in layers[i].blocks then Some(layers[i].blocks[id]) else None
    {
      if fails {
        counters := counters[i := counters[i].(errors := counters[i].errors + 1)];
        return Err(BackendFailure);
      }
      if id in layers[i].blocks {
        counters := counters[i := counters[i].(hits := counters[i].hits + 1)];
        return Ok(Some(layers[i].blocks[id]));
      }
      counters := counters[i := counters[i].(misses := counters[i].misses + 1)];
      return Ok(None);
    }

    /**
     Walks the layers from the top to the first that has the block, and refills the caches above it. A block that
     no layer gives is an error when a read failed, and absent otherwise. Without failures the answer is the one
     the layers that are no caches give; a failing read never turns into a wrong answer.
     */
    method GetBlockBytes(id: BlockHash, fails: nat -> bool, puts: nat -> PutOutcome)
      returns (result: Result<Option<seq<Byte>>, StoreError>, ghost asked: nat)
      requires Valid()
      modifies `layers, `counters
      ensures Valid() && DurableIds(layers) == DurableIds(old(layers))
      ensures AllNoted(old(counters), counters, old(layers), id, fails, asked)
      ensures result.Ok? && result.value.Some? ==>
        && 0 < asked <= |layers| && Silent(old(layers), id, fails, asked - 1)
        && !fails(asked - 1) && id in old(layers)[asked - 1].blocks
        && PutInto(old(layers), layers, Cache, asked - 1, id, content(id), puts)
        && id in DurableIds(layers) && result.value.value == content(id)
      ensures result.Err? || result.value.None? ==>
        && asked == |layers| && Silent(old(layers), id, fails, asked) && layers == old(layers)
        && (result.Err? <==> exists i: nat :: i < |layers| && fails(i))
      ensures result.Ok? && result.value.None? ==> id !in DurableIds(layers)
      ensures (forall i: nat :: i < |layers| ==> !fails(i)) ==>
        result == Ok(FirstHit(WithoutCaches(old(layers)), id))
    {
      var lastError := false;
      asked := 0;
      for index := 0 to |layers|
        invariant Valid() && layers == old(layers) && asked == index
        invariant lastError <==> exists i: nat :: i < index && fails(i)
        invariant Silent(layers, id, fails, index)
        invariant AllNoted(old(counters), counters, layers, id, fails, index)
      {
        NotedNext(old(counters), counters, layers, id, fails, index);
        var read := LayerGet(index, id, fails(index));
        asked := index + 1;
        if read.Err? {
          lastError := true;
        } else if read.value.Some? {
          var bytes := read.value.value;
          Answered(layers, content, id, fails, index);
          RefillCacheLayers(index, id, bytes, puts);
          return Ok(Some(bytes)), asked;
        }
      }
      if lastError {
        return Err(BackendFailure), asked;
      }
      Unanswered(layers, content, id, fails);
      return Ok(None), asked;
    }

    /** Between operations a cache may drop any of its blocks. */
    method CacheEvicts(i: nat, kept: set<BlockHash>)
      requires Valid() && i < |layers| && layers[i].role == Cache
      modifies `layers
      ensures Valid() && DurableIds(layers) == DurableIds(old(layers))
      ensures var blocks := old(layers)[i].blocks;
        layers == old(layers)[i := Layer(Cache, map x | x in blocks && x in kept :: blocks[x])]
    {
      var blocks := layers[i].blocks;
      var after := Layer(Cache, map x | x in blocks && x in kept :: blocks[x]);
      DropKeepsBacked(layers, content, i, after);
      layers := layers[i := after];
    }

    /** Each id once, from whatever layer shows it first; a layer that fails to list its ids ends the stream. */
    method EnumerateBlockIds(fails: nat -> bool) returns (result: Result<seq<BlockHash>, StoreError>)
      requires Valid()
      ensures result.Err? <==> exists i: nat :: i < |layers| && fails(i)
      ensures result.Ok? ==> Distinct(result.value) && Ids(result.value) == DurableIds(layers)
    {
      var ids: seq<BlockHash> := [];
      var seen: set<BlockHash> := {};
      for i := 0 to |layers|
        invariant Distinct(ids) && Ids(ids) == seen && seen == AllIds(layers[..i])
        invariant forall j: nat :: j < i ==> !fails(j)
      {
        if fails(i) {
          return Err(BackendFailure);
        }
        ids, seen := AppendUnseen(ids, seen, layers[i].blocks.Keys);
        AllIdsNext(layers, i);
      }
      assert layers[..|layers|] == layers;
      return Ok(ids);
    }
  }

  /** A layer that gives the block gives its content, and without failures above it that is the durable answer. */
  lemma Answered(layers: seq<Layer>, content: Content, id: BlockHash, fails: nat -> bool, i: nat)
    requires Faithful(layers, content) && CachesAreBacked(layers) && i < |layers| && id in layers[i].blocks
    requires Silent(layers, id, fails, i)
    ensures layers[i].blocks[id] == content(id) && id in DurableIds(layers)
    ensures (forall j: nat :: j < |layers| ==> !fails(j)) ==> FirstHit(WithoutCaches(layers), id) == Some(content(id))
  {
    IdsAt(layers, i);
    CachesDoNotShow(layers, content, id);
  }

  /** A block that no layer gives, without failures, is in no layer. */
  lemma Unanswered(layers: seq<Layer>, content: Content, id: BlockHash, fails: nat -> bool)
    requires Faithful(layers, content) && CachesAreBacked(layers) && Silent(layers, id, fails, |layers|)
    requires forall j: nat :: j < |layers| ==> !fails(j)
    ensures id !in DurableIds(layers) && FirstHit(WithoutCaches(layers), id) == None
  {
    MissEverywhere(layers, id);
    CachesDoNotShow(layers, content, id);
  }

  lemma {:induction false} MissEverywhere(layers: seq<Layer>, id: BlockHash)
    requires forall j :: 0 <= j < |layers| ==> id !in layers[j].blocks
    ensures FirstHit(layers, id) == None
  {
    if layers != [] {
      MissEverywhere(layers[1..], id);
    }
  }

  lemma {:induction false} AllIdsAppend(layers: seq<Layer>, layer: Layer)
    ensures AllIds(layers + [layer]) == AllIds(layers) + layer.blocks.Keys
  {
    if layers != [] {
      AllIdsAppend(layers[1..], layer);
      assert (layers + [layer])[1..] == layers[1..] + [layer];
    }
  }

  lemma AllIdsNext(layers: seq<Layer>, i: nat)
    requires i < |layers|
    ensures AllIds(layers[..i + 1]) == AllIds(layers[..i]) + layers[i].blocks.Keys
  {
    AllIdsAppend(layers[..i], layers[i]);
    assert layers[..i + 1] == layers[..i] + [layers[i]];
  }

  /** Dropping blocks from a cache takes nothing from the durable layers. */
  lemma DropKeepsBacked(layers: seq<Layer>, content: Content, i: nat, after: Layer)
    requires Faithful(layers, content) && CachesAreBacked(layers) && i < |layers| && layers[i].role == Cache
    requires after.role == Cache && forall x :: x in after.blocks ==>
      x in layers[i].blocks && after.blocks[x] == layers[i].blocks[x]
    ensures Faithful(layers[i := after], content) && CachesAreBacked(layers[i := after])
    ensures DurableIds(layers[i := after]) == DurableIds(layers)
  {
    DropShrinks(layers, i, after);
    DurableAreAll(layers[i := after]);
  }

  lemma {:induction false} DropShrinks(layers: seq<Layer>, i: nat, after: Layer)
    requires i < |layers| && layers[i].role == Cache && after.role == Cache
    requires after.blocks.Keys <= layers[i].blocks.Keys
    ensures AllIds(layers[i := after]) <= AllIds(layers)
    ensures DurableIds(layers[i := after]) == DurableIds(layers)
  {
    var updated := layers[i := after];
    WithoutCachesStep(layers);
    WithoutCachesStep(updated);
    if i > 0 {
      assert updated[1..] == layers[1..][i - 1 := after];
      DropShrinks(layers[1..], i - 1, after);
    } else {
      assert updated[1..] == layers[1..];
    }
  }
}
