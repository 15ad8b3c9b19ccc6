/**
 * The bulk backfill entry point (src/backfill.ts): every fid up to the hub's highest is
 * queued in batches of ten, and a batch job writes each fid's hub messages in turn.
 */
module BulkBackfill {
  import opened Wrappers
  import opened Protocol
  import opened Seqs
  import opened Store
  import opened BackfillJobs
  import Utils
  import LibBackfill

  /** How many fids one batch job carries. */
  const BatchSize: nat := 10

  /** The tables the message writers may touch. */
  const MessageTableSet: set<TableName> := {CastsTable, LinksTable, ReactionsTable, UserDataTable, VerificationsTable}

  /* ---------- queuing ---------- */

  /**
   * The end index `Array.prototype.slice(0, end)` stops at: an absent end is the length,
   * a negative one counts back from the length, and either is clamped to the array.
   */
  function JsSliceEnd(len: nat, end: Option<int>): (r: nat)
    ensures r <= len
  {
    match end
    case None => len
    case Some(e) =>
      if e >= 0 then (if e < len then e else len)
      else if len + e > 0 then len + e else 0
  }

  /** The job `backfillQueue.add` enqueues for one batch: no job id, no priority. */
  function BatchJob(batch: seq<Fid>): JobRequest {
    JobRequest(FidBatchQueue, None, None, FidBatchData(batch))
  }

  /** Batches that are non-empty, at most ten long, and exactly ten long except possibly the last. */
  predicate WellSized(batches: seq<seq<Fid>>) {
    (forall k :: 0 <= k < |batches| ==> 0 < |batches[k]| <= BatchSize)
    && (forall k :: 0 <= k < |batches| - 1 ==> |batches[k]| == BatchSize)
  }

  /** Splitting into batches of ten gives the ceiling of a tenth of the list's length. */
  lemma {:induction false} ChunksCount(fids: seq<Fid>)
    ensures |Utils.Chunks(fids, BatchSize)| == (|fids| + BatchSize - 1) / BatchSize
    decreases |fids|
  {
    if |fids| > BatchSize {
      ChunksCount(fids[BatchSize..]);
    }
  }

  /** Well-sized batches that concatenate to a list are exactly the split `breakIntoChunks` makes of it. */
  lemma {:induction false} WellSizedIsChunks(batches: seq<seq<Fid>>, fids: seq<Fid>)
    requires WellSized(batches) && Flatten(batches) == fids
    ensures batches == Utils.Chunks(fids, BatchSize)
    decreases |batches|
  {
    if |batches| > 0 {
      var tail := batches[1..];
      assert batches == [batches[0]] + tail;
      FlattenAppend([batches[0]], tail);
      FlattenSingle(batches[0]);
      assert fids == batches[0] + Flatten(tail);
      assert WellSized(tail) by {
        forall k | 0 <= k < |tail| ensures 0 < |tail[k]| <= BatchSize { assert tail[k] == batches[k + 1]; }
        forall k | 0 <= k < |tail| - 1 ensures |tail[k]| == BatchSize { assert tail[k] == batches[k + 1]; }
      }
      if |tail| == 0 {
        assert Flatten(tail) == [];
        assert fids == batches[0];
      } else {
        assert |batches[0]| == BatchSize;
        assert |Flatten(tail)| > 0 by { FlattenAppend(tail[..|tail| - 1], [tail[|tail| - 1]]); }
        assert fids[..BatchSize] == batches[0];
        assert fids[BatchSize..] == Flatten(tail);
        WellSizedIsChunks(tail, fids[BatchSize..]);
      }
    } else {
      assert Flatten(batches) == [];
    }
  }

  /** The loop state of the queuing: the batches so far are well sized, cover the first `i` fids, and are all full while fids remain. */
  ghost predicate Queued(fids: seq<Fid>, i: nat, batches: seq<seq<Fid>>) {
    && i <= |fids|
    && Flatten(batches) == fids[..i]
    && WellSized(batches)
    && (i < |fids| ==> forall k :: 0 <= k < |batches| ==> |batches[k]| == BatchSize)
  }

  /** One more batch of up to ten fids keeps the loop state. */
  lemma QueueStep(fids: seq<Fid>, i: nat, j: nat, batches: seq<seq<Fid>>)
    requires Queued(fids, i, batches) && i < |fids|
    requires j == if i + BatchSize <= |fids| then i + BatchSize else |fids|
    ensures Queued(fids, j, batches + [fids[i..j]])
  {
    var batch := fids[i..j];
    var b := batches + [batch];
    FlattenAppend(batches, [batch]);
    FlattenSingle(batch);
    assert fids[..i] + batch == fids[..j];
    forall k | 0 <= k < |b| ensures 0 < |b[k]| <= BatchSize && (k < |b| - 1 ==> |b[k]| == BatchSize) {
      if k < |batches| { assert b[k] == batches[k]; }
    }
    if j < |fids| {
      forall k | 0 <= k < |b| ensures |b[k]| == BatchSize {
        if k < |batches| { assert b[k] == batches[k]; }
      }
    }
  }

  /**
   * `addFidsToBackfillQueue`: the fids `getAllFids` gives, cut by `slice(0, maxFid)`, are
   * queued in consecutive batches of ten; a hub error throws before anything is queued.
   */
  method AddFidsToBackfillQueue(w: World, latest: Result<seq<Fid>, Error>, maxFid: Option<int>)
    returns (r: Effect, batches: seq<seq<Fid>>)
    ensures latest.Err? ==> r == Effect(w, Some(HubFailure)) && batches == []
    ensures latest.Ok? ==> r.error.None? && r.world == w.(jobs := w.jobs + Map(batches, BatchJob))
    ensures latest.Ok? ==>
      var all := LibBackfill.GetAllFids(latest).value;
      Flatten(batches) == all[..JsSliceEnd(|all|, maxFid)]
    ensures WellSized(batches)
    ensures latest.Ok? ==> batches == Utils.Chunks(Flatten(batches), BatchSize)
  {
    var all := LibBackfill.GetAllFids(latest);
    if all.Err? {
      return Effect(w, Some(all.error)), [];
    }
    var fids := all.value[..JsSliceEnd(|all.value|, maxFid)];
    var world := w;
    var i := 0;
    batches := [];
    while i < |fids|
      invariant 0 <= i <= |fids|
      invariant Queued(fids, i, batches)
      invariant world == w.(jobs := w.jobs + Map(batches, BatchJob))
      decreases |fids| - i
    {
      var j := if i + BatchSize <= |fids| then i + BatchSize else |fids|;
      var batch := fids[i..j];
      QueueStep(fids, i, j, batches);
      assert Map(batches + [batch], BatchJob) == Map(batches, BatchJob) + [BatchJob(batch)];
      world := world.(jobs := world.jobs + [BatchJob(batch)]);
      batches := batches + [batch];
      i := j;
    }
    assert fids[..i] == fids;
    WellSizedIsChunks(batches, fids);
    r := Effect(world, None);
  }

  /**
   * `backfill({ maxFid })`: the current event id is saved first, then the fids are queued;
   * the save runs even when the fid count cannot be read. How the id is saved is a parameter.
   */
  method Backfill(w: World, saveCurrentEventId: World -> Effect, latest: Result<seq<Fid>, Error>, maxFid: Option<int>)
    returns (r: Effect)
    ensures saveCurrentEventId(w).error.Some? ==> r == saveCurrentEventId(w)
    ensures saveCurrentEventId(w).error.None? && latest.Err? ==> r == Effect(saveCurrentEventId(w).world, Some(HubFailure))
    ensures saveCurrentEventId(w).error.None? ==>
      r.world == saveCurrentEventId(w).world.(jobs := r.world.jobs) && saveCurrentEventId(w).world.jobs <= r.world.jobs
  {
    var saved := saveCurrentEventId(w);
    if saved.error.Some? {
      return saved;
    }
    var batches;
    r, batches := AddFidsToBackfillQueue(saved.world, latest, maxFid);
  }

  /* ---------- batch jobs ---------- */

  /**
   * One fid of `handleJob`: a profile that cannot be fetched is skipped; otherwise the five
   * message writers run in order and the first that throws fails the job.
   */
  function HandleFid(env: Env, hub: LibBackfill.Hub, w: World, fid: Fid): (r: Effect)
    ensures LibBackfill.Framed(w, r.world)
    ensures LibBackfill.Within(w.tables, r.world.tables, MessageTableSet)
    ensures LibBackfill.KeepsMessageRows(w.tables, r.world.tables)
    ensures hub.profile(fid).None? ==> r == Effect(w, None)
  {
    match hub.profile(fid)
    case None => Effect(w, None)
    case Some(p) =>
      LibBackfill.MessageTables(p);
      assert LibBackfill.NoDeletes(LibBackfill.MessageStages(p));
      LibBackfill.RunStages(env, w, LibBackfill.MessageStages(p))
  }

  /** `handleJob`: the fids of the batch in order, each after the previous one finished. */
  function HandleJob(env: Env, hub: LibBackfill.Hub, w: World, fids: seq<Fid>): (r: Effect)
    ensures LibBackfill.Framed(w, r.world)
    ensures LibBackfill.Within(w.tables, r.world.tables, MessageTableSet)
    ensures LibBackfill.KeepsMessageRows(w.tables, r.world.tables)
    ensures |fids| == 0 ==> r == Effect(w, None)
    decreases |fids|
  {
    if |fids| == 0 then Effect(w, None)
    else
      var prev := HandleJob(env, hub, w, fids[..|fids| - 1]);
      var r := Then(prev, (w': World) => HandleFid(env, hub, w', fids[|fids| - 1]));
      assert LibBackfill.Within(w.tables, r.world.tables, MessageTableSet) by {
        if prev.error.None? {
          LibBackfill.WithinThrough(w.tables, prev.world.tables, r.world.tables, MessageTableSet, MessageTableSet);
          assert MessageTableSet + MessageTableSet == MessageTableSet;
        }
      }
      r
  }

  /** Handling two runs of fids is handling the first, then, if it did not throw, the second. */
  lemma {:induction false} HandleJobAppend(env: Env, hub: LibBackfill.Hub, w: World, a: seq<Fid>, b: seq<Fid>)
    ensures HandleJob(env, hub, w, a + b) == Then(HandleJob(env, hub, w, a), (w': World) => HandleJob(env, hub, w', b))
    decreases |b|
  {
    if |b| == 0 {
      assert a + b == a;
    } else {
      var b' := b[..|b| - 1];
      assert (a + b)[..|a + b| - 1] == a + b';
      assert (a + b)[|a + b| - 1] == b[|b| - 1];
      HandleJobAppend(env, hub, w, a, b');
    }
  }

  lemma HandleJobOne(env: Env, hub: LibBackfill.Hub, w: World, fid: Fid)
    ensures HandleJob(env, hub, w, [fid]) == HandleFid(env, hub, w, fid)
  {
    assert [fid][..0] == [];
  }

  /** A fid whose profile cannot be fetched is skipped, and the job carries on with the rest. */
  lemma SkippedFid(env: Env, hub: LibBackfill.Hub, w: World, a: seq<Fid>, fid: Fid, b: seq<Fid>)
    requires hub.profile(fid).None?
    ensures HandleJob(env, hub, w, a + [fid] + b) == HandleJob(env, hub, w, a + b)
  {
    var prev := HandleJob(env, hub, w, a);
    HandleJobAppend(env, hub, w, a, [fid]);
    if prev.error.None? {
      HandleJobOne(env, hub, prev.world, fid);
    }
    assert HandleJob(env, hub, w, a + [fid]) == prev;
    HandleJobAppend(env, hub, w, a + [fid], b);
    HandleJobAppend(env, hub, w, a, b);
  }

  /** A writer that throws fails the whole job: the fids after it are never handled. */
  lemma FailedFidEndsJob(env: Env, hub: LibBackfill.Hub, w: World, a: seq<Fid>, fid: Fid, b: seq<Fid>)
    requires HandleJob(env, hub, w, a).error.None?
    requires HandleFid(env, hub, HandleJob(env, hub, w, a).world, fid).error.Some?
    ensures HandleJob(env, hub, w, a + [fid] + b) == HandleFid(env, hub, HandleJob(env, hub, w, a).world, fid)
  {
    var prev := HandleJob(env, hub, w, a);
    HandleJobAppend(env, hub, w, a, [fid]);
    HandleJobOne(env, hub, prev.world, fid);
    HandleJobAppend(env, hub, w, a + [fid], b);
  }

  /**
   * The batch handler does for a fid exactly what the first half of a full `backfillFid`
   * does: a full backfill without deletes is this, then the three on-chain writers.
   */
  lemma HandleFidIsMessagePrefix(env: Env, hub: LibBackfill.Hub, w: World, fid: Fid)
    requires hub.profile(fid).Some?
    ensures LibBackfill.BackfillFid(env, hub, w, fid, None, None)
      == Then(HandleFid(env, hub, w, fid), (w': World) => LibBackfill.RunStages(env, w', LibBackfill.OnChainStages(hub.profile(fid).value)))
  {
    var p := hub.profile(fid).value;
    assert LibBackfill.Stages(p, false) == LibBackfill.MessageStages(p) + LibBackfill.OnChainStages(p);
    LibBackfill.RunStagesAppend(env, w, LibBackfill.MessageStages(p), LibBackfill.OnChainStages(p));
  }
}
