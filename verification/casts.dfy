/**
 * The two cast writers. The API variant (src/api/cast.ts) formats every message it is given
 * and prunes by the parent's hash; the stream variant (src/processors/cast.ts) keeps only the
 * matching message type, prunes by (fid, text) and queues partial backfills for mentions.
 */
module ApiCast {
  import opened Wrappers
  import opened Protocol
  import opened Utils
  import opened Store

  function SetCasts(w: World, t: map<Bytes, Stored<CastRow>>): World {
    w.(tables := w.tables.(casts := t))
  }

  /**
   * `insertCasts`: every message is formatted (no type filter), then inserted in chunks of
   * 1000 with a hash conflict skipped.
   */
  function InsertCasts(env: Env, w: World, msgs: seq<Message>): (r: Effect)
    ensures r.world == SetCasts(w, r.world.tables.casts)
    ensures forall h :: h in w.tables.casts ==> h in r.world.tables.casts && r.world.tables.casts[h] == w.tables.casts[h]
    ensures FormatCasts(env.toDate, msgs).Err? ==> r == Effect(w, Some(FormatCasts(env.toDate, msgs).error))
    ensures |msgs| == 0 ==> r == Effect(w, None)
    ensures r.error.None? ==> forall i :: 0 <= i < |msgs| ==> msgs[i].hash in r.world.tables.casts
    ensures r.error.None? ==> r.world.tables.casts == InsertSkip(w.tables.casts, FormatCasts(env.toDate, msgs).value, CastKey)
    ensures FormatCasts(env.toDate, msgs).Ok? && (forall i :: !env.refuses(InsertChunk(CastsTable, msgs, i)))
            ==> r.error.None?
    ensures r.error == Some(DatabaseRefused) ==> exists i :: env.refuses(InsertChunk(CastsTable, msgs, i))
  {
    match FormatCasts(env.toDate, msgs)
    case Err(e) => Effect(w, Some(e))
    case Ok(rows) =>
      if |rows| == 0 then Effect(w, None)
      else
        var res := ChunkedInsert(w.tables.casts, rows, (i: nat) => env.refuses(InsertChunk(CastsTable, msgs, i)), CastKey);
        assert forall i :: 0 <= i < |rows| ==> CastKey(rows[i]) in RowKeys(rows, CastKey);
        Effect(SetCasts(w, res.0), res.1)
  }

  /** A remove message hits the cast its body names. */
  predicate RemovesCast(m: Message, row: CastRow) {
    m.data.body.CastRemoveBody? && m.data.body.targetHash == row.hash
  }

  /**
   * The update one message issues in `deleteCasts`: the date first, then the hash the remove
   * body names; a message without a remove body compares the hash with null and matches nothing.
   */
  function DeleteStep(env: Env, m: Message): (r: Result<Option<Stamp<CastRow>>, Error>)
    ensures r.Ok? <==> env.toDate(m.data.timestamp).Some?
  {
    match ToDate(env.toDate, m.data.timestamp)
    case Err(e) => Err(e)
    case Ok(d) =>
      if m.data.body.CastRemoveBody? then Ok(Some(Stamp((c: CastRow) => c.hash == m.data.body.targetHash, d)))
      else Ok(None)
  }

  /**
   * `deleteCasts`: one transaction over all messages, no type filter; each cast a message
   * removes gets `deletedAt`, nothing else changes, and any failure rolls everything back.
   */
  function DeleteCasts(env: Env, w: World, msgs: seq<Message>): (r: Effect)
    ensures r.world == SetCasts(w, r.world.tables.casts)
    ensures r.error.None? <==> (forall i :: 0 <= i < |msgs| ==> env.toDate(msgs[i].data.timestamp).Some?)
                               && !env.refuses(UpdateBatch(CastsTable, DeletedAt, msgs))
    ensures r.error.Some? ==> r.world == w
    ensures r.error.None? ==> StampedAsLastHit(env.toDate, w.tables.casts, r.world.tables.casts, DeletedAt, msgs, RemovesCast)
  {
    var step := m => DeleteStep(env, m);
    var res := Transact(w.tables.casts, DeletedAt, FormatAll(msgs, step), env.refuses(UpdateBatch(CastsTable, DeletedAt, msgs)));
    assert res.1.None? ==> StampedAsLastHit(env.toDate, w.tables.casts, res.0, DeletedAt, msgs, RemovesCast) by {
      if res.1.None? {
        assert forall i :: 0 <= i < |msgs| ==> StepFaithful(env.toDate, step, RemovesCast, msgs[i]);
        TransactStampsLastHit(env.toDate, w.tables.casts, DeletedAt, msgs, step, RemovesCast);
      }
    }
    Effect(SetCasts(w, res.0), res.1)
  }

  /** As written, a prune message hits the cast's parent. */
  predicate PrunesParent(m: Message, row: CastRow) {
    m.data.body.CastAddBody? && m.data.body.parentCastId.Some? && m.data.body.parentCastId.value.hash == row.hash
  }

  /**
   * The update one message issues in `pruneCasts` as written: the date, then
   * `castAddBody.parentCastId.hash`, which throws for a message that is not a reply.
   */
  function PruneStepAsWritten(env: Env, m: Message): (r: Result<Option<Stamp<CastRow>>, Error>)
    ensures r.Ok? <==> env.toDate(m.data.timestamp).Some? && m.data.body.CastAddBody? && m.data.body.parentCastId.Some?
  {
    match ToDate(env.toDate, m.data.timestamp)
    case Err(e) => Err(e)
    case Ok(d) =>
      if !m.data.body.CastAddBody? || m.data.body.parentCastId.None? then Err(MissingField)
      else Ok(Some(Stamp((c: CastRow) => c.hash == m.data.body.parentCastId.value.hash, d)))
  }

  /**
   * `pruneCasts` as written: each message stamps `prunedAt` on its parent cast, and a
   * top-level cast makes the whole transaction throw.
   */
  function PruneCastsAsWritten(env: Env, w: World, msgs: seq<Message>): (r: Effect)
    ensures r.world == SetCasts(w, r.world.tables.casts)
    ensures r.error.None? <==> (forall i :: 0 <= i < |msgs| ==>
                                  env.toDate(msgs[i].data.timestamp).Some? && msgs[i].data.body.CastAddBody?
                                  && msgs[i].data.body.parentCastId.Some?)
                               && !env.refuses(UpdateBatch(CastsTable, PrunedAt, msgs))
    ensures r.error.Some? ==> r.world == w
    ensures r.error.None? ==> StampedAsLastHit(env.toDate, w.tables.casts, r.world.tables.casts, PrunedAt, msgs, PrunesParent)
  {
    var step := m => PruneStepAsWritten(env, m);
    var res := Transact(w.tables.casts, PrunedAt, FormatAll(msgs, step), env.refuses(UpdateBatch(CastsTable, PrunedAt, msgs)));
    assert res.1.None? ==> StampedAsLastHit(env.toDate, w.tables.casts, res.0, PrunedAt, msgs, PrunesParent) by {
      if res.1.None? {
        assert forall i :: 0 <= i < |msgs| ==> StepFaithful(env.toDate, step, PrunesParent, msgs[i]);
        TransactStampsLastHit(env.toDate, w.tables.casts, PrunedAt, msgs, step, PrunesParent);
      }
    }
    Effect(SetCasts(w, res.0), res.1)
  }

  /** As intended, a prune message hits the cast it is. */
  predicate PrunesItself(m: Message, row: CastRow) {
    m.hash == row.hash
  }

  function PruneStep(env: Env, m: Message): (r: Result<Option<Stamp<CastRow>>, Error>)
    ensures r.Ok? <==> env.toDate(m.data.timestamp).Some?
  {
    match ToDate(env.toDate, m.data.timestamp)
    case Err(e) => Err(e)
    case Ok(d) => Ok(Some(Stamp((c: CastRow) => c.hash == m.hash, d)))
  }

  /** `pruneCasts` corrected: each pruned cast message stamps `prunedAt` on its own row. */
  function PruneCasts(env: Env, w: World, msgs: seq<Message>): (r: Effect)
    ensures r.world == SetCasts(w, r.world.tables.casts)
    ensures r.error.None? <==> (forall i :: 0 <= i < |msgs| ==> env.toDate(msgs[i].data.timestamp).Some?)
                               && !env.refuses(UpdateBatch(CastsTable, PrunedAt, msgs))
    ensures r.error.Some? ==> r.world == w
    ensures r.error.None? ==> StampedAsLastHit(env.toDate, w.tables.casts, r.world.tables.casts, PrunedAt, msgs, PrunesItself)
  {
    var step := m => PruneStep(env, m);
    var res := Transact(w.tables.casts, PrunedAt, FormatAll(msgs, step), env.refuses(UpdateBatch(CastsTable, PrunedAt, msgs)));
    assert res.1.None? ==> StampedAsLastHit(env.toDate, w.tables.casts, res.0, PrunedAt, msgs, PrunesItself) by {
      if res.1.None? {
        assert forall i :: 0 <= i < |msgs| ==> StepFaithful(env.toDate, step, PrunesItself, msgs[i]);
        TransactStampsLastHit(env.toDate, w.tables.casts, PrunedAt, msgs, step, PrunesItself);
      }
    }
    Effect(SetCasts(w, res.0), res.1)
  }

  /* A top-level cast `[1]` and a reply `[2]` to it, both by fid 7, both at Farcaster time 5. */
  const TopLevelCast: Message := Message([1], MessageData(CastAdd, 7, 5, CastAddBody("gm", [], [], [], None, None)))
  const ReplyCast: Message := Message([2], MessageData(CastAdd, 7, 5, CastAddBody("re", [], [], [], Some(CastId(7, [1])), None)))
  const TopLevelRow: CastRow := CastRow(0, 7, None, [1], None, None, "gm", [], [], [])
  const ReplyRow: CastRow := CastRow(0, 7, Some(7), [2], Some([1]), None, "re", [], [], [])

  /**
   * Pruning the reply stamps the top-level cast and leaves the reply unpruned, and pruning
   * the top-level cast throws; the corrected writer stamps the pruned cast itself.
   */
  lemma PruneCastsAsWrittenCounterexample(env: Env, w: World)
    requires env.toDate(5) == Some(5000)
    requires !env.refuses(UpdateBatch(CastsTable, PrunedAt, [ReplyCast]))
    requires w.tables.casts == map[[1] := Fresh(TopLevelRow), [2] := Fresh(ReplyRow)]
    ensures PruneCastsAsWritten(env, w, [ReplyCast]).world.tables.casts[[1]].prunedAt == Some(5000)
    ensures PruneCastsAsWritten(env, w, [ReplyCast]).world.tables.casts[[2]].prunedAt == None
    ensures PruneCastsAsWritten(env, w, [TopLevelCast]).error == Some(MissingField)
    ensures PruneCasts(env, w, [ReplyCast]).world.tables.casts[[1]].prunedAt == None
    ensures PruneCasts(env, w, [ReplyCast]).world.tables.casts[[2]].prunedAt == Some(5000)
  {
    var t := w.tables.casts;
    assert [ReplyCast][..0] == [];
    assert LastHitDate(env.toDate, [ReplyCast], t[[1]].row, PrunesParent) == Some(5000);
    assert LastHitDate(env.toDate, [ReplyCast], t[[2]].row, PrunesParent) == None;
    assert LastHitDate(env.toDate, [ReplyCast], t[[1]].row, PrunesItself) == None;
    assert LastHitDate(env.toDate, [ReplyCast], t[[2]].row, PrunesItself) == Some(5000);
    assert FormatAll([TopLevelCast], m => PruneStepAsWritten(env, m)) == Err(MissingField);
  }
}

module ProcessorsCast {
  import opened Wrappers
  import opened Protocol
  import opened Seqs
  import opened Utils
  import opened Store
  import opened BackfillJobs
  import ApiCast

  /** Seven days in milliseconds: only casts newer than this trigger mention backfills. */
  const MentionWindowMs: int := 1000 * 60 * 60 * 24 * 7

  /** The partial backfill queued for one mentioned fid. */
  function MentionJob(fid: Fid): JobRequest {
    JobRequest(BackfillQueue, Some(PartialBackfillId(fid)), Some(FollowUpPriority), BackfillData(fid, Some(true), None))
  }

  /** The mentioned fids, cast by cast and in order, of the casts newer than `cutoff`; duplicates stay. */
  function MentionedFids(rows: seq<CastRow>, cutoff: int): seq<Fid> {
    Flatten(Map(Filter(rows, (c: CastRow) => c.timestamp > cutoff), (c: CastRow) => c.mentions))
  }

  /** Appending a cast appends its mentions when it is recent, and nothing otherwise. */
  lemma MentionedFidsSnoc(rows: seq<CastRow>, c: CastRow, cutoff: int)
    ensures MentionedFids(rows + [c], cutoff) == MentionedFids(rows, cutoff) + (if c.timestamp > cutoff then c.mentions else [])
  {
    var recent := (x: CastRow) => x.timestamp > cutoff;
    var mentions := (x: CastRow) => x.mentions;
    FilterAppend(rows, [c], recent);
    var a, b := Filter(rows, recent), Filter([c], recent);
    assert [c][..0] == [];
    assert Map(a + b, mentions) == Map(a, mentions) + Map(b, mentions);
    FlattenAppend(Map(a, mentions), Map(b, mentions));
    if c.timestamp > cutoff {
      assert Map(b, mentions) == [c.mentions];
      FlattenSingle(c.mentions);
    } else {
      assert Map(b, mentions) == [];
    }
  }

  /** A fid is mentioned exactly when some recent cast mentions it. */
  lemma MentionedFidsMember(rows: seq<CastRow>, cutoff: int, f: Fid)
    ensures f in MentionedFids(rows, cutoff) <==> exists i :: 0 <= i < |rows| && rows[i].timestamp > cutoff && f in rows[i].mentions
  {
    var recent := (x: CastRow) => x.timestamp > cutoff;
    var rs := Filter(rows, recent);
    var ms := Map(rs, (c: CastRow) => c.mentions);
    FlattenMember(ms, f);
    if f in MentionedFids(rows, cutoff) {
      var j :| 0 <= j < |ms| && f in ms[j];
      assert rs[j] in rs;
      var i :| 0 <= i < |rows| && rows[i] == rs[j];
    }
    if exists i :: 0 <= i < |rows| && rows[i].timestamp > cutoff && f in rows[i].mentions {
      var i :| 0 <= i < |rows| && rows[i].timestamp > cutoff && f in rows[i].mentions;
      FilterKeeps(rows, recent, rows[i]);
      var j :| 0 <= j < |rs| && rs[j] == rows[i];
      assert f in ms[j];
    }
  }

  /** `fids.forEach(fid => queueBackfillJob(fid, queue, {partial: true, priority: 110}))`. */
  function QueueMentionJobs(jobs: seq<JobRequest>, fids: seq<Fid>): (r: seq<JobRequest>)
    ensures r == jobs + Map(fids, MentionJob)
    decreases |fids|
  {
    if |fids| == 0 then jobs
    else
      var f := fids[|fids| - 1];
      var prev := QueueMentionJobs(jobs, fids[..|fids| - 1]);
      var r := QueueBackfillJob(prev, f, Some(FollowUpPriority), Some(true), None);
      assert r[|prev|] == MentionJob(f);
      assert r == prev + [MentionJob(f)];
      r
  }

  /**
   * `insertCasts`: only cast-add messages are kept and inserted as the API writer does; once
   * every chunk is in, each mention of a cast newer than seven days queues a partial backfill.
   */
  function InsertCasts(env: Env, w: World, msgs: seq<Message>): (r: Effect)
    ensures var adds := Filter(msgs, IsCastAdd);
            r.world.tables == ApiCast.InsertCasts(env, w, adds).world.tables
            && r.error == ApiCast.InsertCasts(env, w, adds).error
    ensures r.world.targets == w.targets && r.world.flows == w.flows && r.world.cursor == w.cursor
    ensures r.error.Some? || |Filter(msgs, IsCastAdd)| == 0 ==> r.world.jobs == w.jobs
    ensures r.error.None? ==> forall i :: 0 <= i < |msgs| && IsCastAdd(msgs[i]) ==> msgs[i].hash in r.world.tables.casts
    ensures r.error.None? && |Filter(msgs, IsCastAdd)| > 0 ==>
              var rows := FormatCasts(env.toDate, Filter(msgs, IsCastAdd)).value;
              r.world.jobs == w.jobs + Map(MentionedFids(rows, env.now - MentionWindowMs), MentionJob)
  {
    var adds := Filter(msgs, IsCastAdd);
    forall i | 0 <= i < |msgs| && IsCastAdd(msgs[i]) ensures msgs[i] in adds {
      FilterKeeps(msgs, IsCastAdd, msgs[i]);
    }
    var e := ApiCast.InsertCasts(env, w, adds);
    if e.error.Some? || |adds| == 0 then e
    else
      var rows := FormatCasts(env.toDate, adds).value;
      Effect(e.world.(jobs := QueueMentionJobs(e.world.jobs, MentionedFids(rows, env.now - MentionWindowMs))), None)
  }

  /** `deleteCasts`: only cast-remove messages are kept, then deleted as the API writer does. */
  function DeleteCasts(env: Env, w: World, msgs: seq<Message>): (r: Effect)
    ensures var removes := Filter(msgs, IsCastRemove);
            && r.world == ApiCast.SetCasts(w, r.world.tables.casts)
            && (r.error.None? <==> (forall i :: 0 <= i < |removes| ==> env.toDate(removes[i].data.timestamp).Some?)
                                   && !env.refuses(UpdateBatch(CastsTable, DeletedAt, removes)))
            && (r.error.Some? ==> r.world == w)
            && (r.error.None? ==> StampedAsLastHit(env.toDate, w.tables.casts, r.world.tables.casts, DeletedAt, removes,
                                                   ApiCast.RemovesCast))
  {
    ApiCast.DeleteCasts(env, w, Filter(msgs, IsCastRemove))
  }

  /** A prune message hits every cast with its author and its text. */
  predicate SameAuthorAndText(m: Message, row: CastRow) {
    m.data.body.CastAddBody? && row.fid == m.data.fid && row.text == m.data.body.text
  }

  /** The date first, then `castAddBody.text`, which throws for a message without a cast-add body. */
  function PruneStep(env: Env, m: Message): (r: Result<Option<Stamp<CastRow>>, Error>)
    ensures r.Ok? <==> env.toDate(m.data.timestamp).Some? && m.data.body.CastAddBody?
  {
    match ToDate(env.toDate, m.data.timestamp)
    case Err(e) => Err(e)
    case Ok(d) =>
      if !m.data.body.CastAddBody? then Err(MissingField)
      else Ok(Some(Stamp((c: CastRow) => c.fid == m.data.fid && c.text == m.data.body.text, d)))
  }

  /**
   * `pruneCasts`: one transaction over all messages, no type filter; every cast with the
   * message's author and text gets `prunedAt`, which may be several rows.
   */
  function PruneCasts(env: Env, w: World, msgs: seq<Message>): (r: Effect)
    ensures r.world == ApiCast.SetCasts(w, r.world.tables.casts)
    ensures r.error.None? <==> (forall i :: 0 <= i < |msgs| ==>
                                  env.toDate(msgs[i].data.timestamp).Some? && msgs[i].data.body.CastAddBody?)
                               && !env.refuses(UpdateBatch(CastsTable, PrunedAt, msgs))
    ensures r.error.Some? ==> r.world == w
    ensures r.error.None? ==> StampedAsLastHit(env.toDate, w.tables.casts, r.world.tables.casts, PrunedAt, msgs, SameAuthorAndText)
  {
    var step := m => PruneStep(env, m);
    var res := Transact(w.tables.casts, PrunedAt, FormatAll(msgs, step), env.refuses(UpdateBatch(CastsTable, PrunedAt, msgs)));
    assert res.1.None? ==> StampedAsLastHit(env.toDate, w.tables.casts, res.0, PrunedAt, msgs, SameAuthorAndText) by {
      if res.1.None? {
        assert forall i :: 0 <= i < |msgs| ==> StepFaithful(env.toDate, step, SameAuthorAndText, msgs[i]);
        TransactStampsLastHit(env.toDate, w.tables.casts, PrunedAt, msgs, step, SameAuthorAndText);
      }
    }
    Effect(ApiCast.SetCasts(w, res.0), res.1)
  }
}
