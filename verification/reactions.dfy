/**
 * The two reaction writers. They insert, delete and prune alike (src/processors/reaction.ts);
 * the API variant (src/api/reaction.ts) additionally queues an index job for the target cast
 * of each recent reaction to an account that is not indexed.
 */
module ProcessorsReaction {
  import opened Wrappers
  import opened Protocol
  import opened Seqs
  import opened Utils
  import opened Store

  function SetReactions(w: World, t: map<Bytes, Stored<ReactionRow>>): World {
    w.(tables := w.tables.(reactions := t))
  }

  /**
   * `insertReactions`: only reaction-add messages are kept, formatted, and inserted in chunks
   * of 1000 with a hash conflict skipped.
   */
  function InsertReactions(env: Env, w: World, msgs: seq<Message>): (r: Effect)
    ensures r.world == SetReactions(w, r.world.tables.reactions)
    ensures forall h :: h in w.tables.reactions ==> h in r.world.tables.reactions && r.world.tables.reactions[h] == w.tables.reactions[h]
    ensures var adds := Filter(msgs, IsReactionAdd);
            && (FormatReactions(env.toDate, adds).Err? ==> r == Effect(w, Some(FormatReactions(env.toDate, adds).error)))
            && (|adds| == 0 ==> r == Effect(w, None))
            && (r.error.None? ==> r.world.tables.reactions == InsertSkip(w.tables.reactions, FormatReactions(env.toDate, adds).value, ReactionKey))
            && (FormatReactions(env.toDate, adds).Ok? && (forall i :: !env.refuses(InsertChunk(ReactionsTable, adds, i)))
                ==> r.error.None?)
    ensures r.error.None? ==> forall i :: 0 <= i < |msgs| && IsReactionAdd(msgs[i]) ==> msgs[i].hash in r.world.tables.reactions
  {
    var adds := Filter(msgs, IsReactionAdd);
    forall i | 0 <= i < |msgs| && IsReactionAdd(msgs[i]) ensures msgs[i] in adds {
      FilterKeeps(msgs, IsReactionAdd, msgs[i]);
    }
    match FormatReactions(env.toDate, adds)
    case Err(e) => Effect(w, Some(e))
    case Ok(rows) =>
      if |rows| == 0 then Effect(w, None)
      else
        var res := ChunkedInsert(w.tables.reactions, rows, (i: nat) => env.refuses(InsertChunk(ReactionsTable, adds, i)), ReactionKey);
        assert forall i :: 0 <= i < |rows| ==> ReactionKey(rows[i]) in RowKeys(rows, ReactionKey);
        Effect(SetReactions(w, res.0), res.1)
  }

  /** Whether a message names a target: a cast id, or else a non-empty URL. */
  predicate HasTarget(b: Body)
    requires b.ReactionBody?
  {
    b.targetCastId.Some? || TruthyString(b.targetUrl)
  }

  /**
   * The rows a delete or prune message reaches: same author and reaction type, and the same
   * target cast hash when the message names a cast, or else the same non-empty target URL.
   */
  predicate ReactionHits(m: Message, row: ReactionRow) {
    var b := m.data.body;
    b.ReactionBody? && row.fid == m.data.fid && row.reactionType == b.reactionType
    && if b.targetCastId.Some? then row.targetCastHash == Some(b.targetCastId.value.hash)
       else TruthyString(b.targetUrl) && row.targetUrl == b.targetUrl
  }

  /**
   * The update one message issues: reading the reaction body throws when it is missing; a
   * message with neither target issues nothing and converts no date.
   */
  function ReactionStep(env: Env, m: Message): (r: Result<Option<Stamp<ReactionRow>>, Error>)
    ensures r.Ok? <==> m.data.body.ReactionBody? && (HasTarget(m.data.body) ==> env.toDate(m.data.timestamp).Some?)
  {
    var b := m.data.body;
    if !b.ReactionBody? then Err(MissingField)
    else if !HasTarget(b) then Ok(None)
    else
      match ToDate(env.toDate, m.data.timestamp)
      case Err(e) => Err(e)
      case Ok(d) =>
        if b.targetCastId.Some? then
          Ok(Some(Stamp((x: ReactionRow) => x.fid == m.data.fid && x.reactionType == b.reactionType
                                            && x.targetCastHash == Some(b.targetCastId.value.hash), d)))
        else
          Ok(Some(Stamp((x: ReactionRow) => x.fid == m.data.fid && x.reactionType == b.reactionType
                                            && x.targetUrl == b.targetUrl, d)))
  }

  /** One transaction stamping `f` over `msgs` with the reaction matching rule. */
  function StampReactions(env: Env, w: World, msgs: seq<Message>, f: StampField): (r: Effect)
    ensures r.world == SetReactions(w, r.world.tables.reactions)
    ensures r.error.None? <==> (forall i :: 0 <= i < |msgs| ==>
                                  msgs[i].data.body.ReactionBody?
                                  && (HasTarget(msgs[i].data.body) ==> env.toDate(msgs[i].data.timestamp).Some?))
                               && !env.refuses(UpdateBatch(ReactionsTable, f, msgs))
    ensures r.error.Some? ==> r.world == w
    ensures r.error.None? ==> StampedAsLastHit(env.toDate, w.tables.reactions, r.world.tables.reactions, f, msgs, ReactionHits)
  {
    var step := m => ReactionStep(env, m);
    var res := Transact(w.tables.reactions, f, FormatAll(msgs, step), env.refuses(UpdateBatch(ReactionsTable, f, msgs)));
    assert res.1.None? ==> StampedAsLastHit(env.toDate, w.tables.reactions, res.0, f, msgs, ReactionHits) by {
      if res.1.None? {
        assert forall i :: 0 <= i < |msgs| ==> StepFaithful(env.toDate, step, ReactionHits, msgs[i]);
        TransactStampsLastHit(env.toDate, w.tables.reactions, f, msgs, step, ReactionHits);
      }
    }
    Effect(SetReactions(w, res.0), res.1)
  }

  /** `deleteReactions`: only reaction-remove messages are kept; the rows they reach get `deletedAt`. */
  function DeleteReactions(env: Env, w: World, msgs: seq<Message>): (r: Effect)
    ensures var removes := Filter(msgs, IsReactionRemove);
            && r.world == SetReactions(w, r.world.tables.reactions)
            && (r.error.None? <==> (forall i :: 0 <= i < |removes| ==>
                                      removes[i].data.body.ReactionBody?
                                      && (HasTarget(removes[i].data.body) ==> env.toDate(removes[i].data.timestamp).Some?))
                                   && !env.refuses(UpdateBatch(ReactionsTable, DeletedAt, removes)))
            && (r.error.Some? ==> r.world == w)
            && (r.error.None? ==> StampedAsLastHit(env.toDate, w.tables.reactions, r.world.tables.reactions, DeletedAt,
                                                   removes, ReactionHits))
  {
    StampReactions(env, w, Filter(msgs, IsReactionRemove), DeletedAt)
  }

  /** `pruneReactions`: no type filter; the rows each message reaches get `prunedAt`. */
  function PruneReactions(env: Env, w: World, msgs: seq<Message>): (r: Effect)
    ensures r.world == SetReactions(w, r.world.tables.reactions)
    ensures r.error.None? <==> (forall i :: 0 <= i < |msgs| ==>
                                  msgs[i].data.body.ReactionBody?
                                  && (HasTarget(msgs[i].data.body) ==> env.toDate(msgs[i].data.timestamp).Some?))
                               && !env.refuses(UpdateBatch(ReactionsTable, PrunedAt, msgs))
    ensures r.error.Some? ==> r.world == w
    ensures r.error.None? ==> StampedAsLastHit(env.toDate, w.tables.reactions, r.world.tables.reactions, PrunedAt, msgs, ReactionHits)
  {
    StampReactions(env, w, msgs, PrunedAt)
  }

  /** A remove or prune naming neither a cast nor a URL leaves every row as it was. */
  lemma TargetlessReactionChangesNothing(env: Env, w: World, m: Message, f: StampField)
    requires m.data.body.ReactionBody? && !HasTarget(m.data.body)
    requires !env.refuses(UpdateBatch(ReactionsTable, f, [m]))
    ensures StampReactions(env, w, [m], f) == Effect(w, None)
  {
    var r := StampReactions(env, w, [m], f).world.tables.reactions;
    assert [m][..0] == [];
    forall k | k in w.tables.reactions ensures r[k] == w.tables.reactions[k] {
      assert !ReactionHits(m, w.tables.reactions[k].row);
      assert LastHitDate(env.toDate, [m], w.tables.reactions[k].row, ReactionHits) == None;
    }
    assert r == w.tables.reactions;
  }
}

module ApiReaction {
  import opened Wrappers
  import opened Protocol
  import opened Seqs
  import opened Utils
  import opened Store
  import opened BackfillJobs
  import ProcessorsReaction

  /** One day in milliseconds: only reactions newer than this trigger index jobs. */
  const IndexWindowMs: int := 1000 * 60 * 60 * 24

  /** A reaction whose target cast should be fetched: it names a cast by a non-zero fid outside `targets:all`. */
  predicate NeedsIndex(row: ReactionRow, all: set<Fid>) {
    row.targetCastHash.Some? && TruthyNat(row.targetCastFid) && row.targetCastFid.value !in all
  }

  /** The `queueIndexMessageJob(hash, fid, CAST_ADD, {priority: 110})` request for a reaction's target. */
  function IndexJob(row: ReactionRow): JobRequest {
    var hash := if row.targetCastHash.Some? then row.targetCastHash.value else [];
    var fid := if row.targetCastFid.Some? then row.targetCastFid.value else 0;
    JobRequest(IndexMessageQueue, None, Some(FollowUpPriority), IndexMessageData(hash, fid, CastAdd))
  }

  /** The `forEach` over the recent reactions, each one checked against `targets:all` as it goes. */
  function QueueIndexJobs(jobs: seq<JobRequest>, rows: seq<ReactionRow>, all: set<Fid>): (r: seq<JobRequest>)
    ensures r == jobs + Map(Filter(rows, (x: ReactionRow) => NeedsIndex(x, all)), IndexJob)
    decreases |rows|
  {
    if |rows| == 0 then jobs
    else
      var x := rows[|rows| - 1];
      var prev := QueueIndexJobs(jobs, rows[..|rows| - 1], all);
      if NeedsIndex(x, all) then prev + [IndexJob(x)] else prev
  }

  /** The reactions newer than the cutoff; the code applies this filter twice. */
  function Recent(rows: seq<ReactionRow>, cutoff: int): seq<ReactionRow> {
    Filter(Filter(rows, (x: ReactionRow) => x.timestamp > cutoff), (x: ReactionRow) => x.timestamp > cutoff)
  }

  /**
   * `insertReactions`: the stream writer's insert, then, once every chunk is in, one index job
   * for each reaction newer than a day whose target cast belongs to an account not indexed.
   */
  function InsertReactions(env: Env, w: World, msgs: seq<Message>): (r: Effect)
    ensures r.world.tables == ProcessorsReaction.InsertReactions(env, w, msgs).world.tables
    ensures r.error == ProcessorsReaction.InsertReactions(env, w, msgs).error
    ensures r.world.targets == w.targets && r.world.flows == w.flows && r.world.cursor == w.cursor
    ensures r.error.Some? || |Filter(msgs, IsReactionAdd)| == 0 ==> r.world.jobs == w.jobs
    ensures r.error.None? && |Filter(msgs, IsReactionAdd)| > 0 ==>
              var rows := FormatReactions(env.toDate, Filter(msgs, IsReactionAdd)).value;
              r.world.jobs == w.jobs + Map(Filter(rows, (x: ReactionRow) => x.timestamp > env.now - IndexWindowMs
                                                                            && NeedsIndex(x, w.targets.all)), IndexJob)
  {
    var e := ProcessorsReaction.InsertReactions(env, w, msgs);
    var adds := Filter(msgs, IsReactionAdd);
    if e.error.Some? || |adds| == 0 then e
    else
      var rows := FormatReactions(env.toDate, adds).value;
      var cutoff := env.now - IndexWindowMs;
      var recent := (x: ReactionRow) => x.timestamp > cutoff;
      FilterIdempotent(rows, recent);
      RecentThenNeeds(rows, cutoff, w.targets.all);
      Effect(e.world.(jobs := QueueIndexJobs(e.world.jobs, Recent(rows, cutoff), e.world.targets.all)), None)
  }

  /** Filtering by age and then by need is filtering by both at once. */
  lemma {:induction false} RecentThenNeeds(rows: seq<ReactionRow>, cutoff: int, all: set<Fid>)
    ensures Filter(Filter(rows, (x: ReactionRow) => x.timestamp > cutoff), (x: ReactionRow) => NeedsIndex(x, all))
            == Filter(rows, (x: ReactionRow) => x.timestamp > cutoff && NeedsIndex(x, all))
    decreases |rows|
  {
    if |rows| > 0 {
      var p := rows[..|rows| - 1];
      var x := rows[|rows| - 1];
      var recent := (x: ReactionRow) => x.timestamp > cutoff;
      RecentThenNeeds(p, cutoff, all);
      FilterAppend(p, [x], recent);
      assert p + [x] == rows;
      assert [x][..0] == [];
      FilterAppend(Filter(p, recent), Filter([x], recent), (x: ReactionRow) => NeedsIndex(x, all));
    }
  }

  /** `deleteReactions`, identical to the stream writer's. */
  function DeleteReactions(env: Env, w: World, msgs: seq<Message>): (r: Effect)
    ensures var removes := Filter(msgs, IsReactionRemove);
            && r.world == ProcessorsReaction.SetReactions(w, r.world.tables.reactions)
            && (r.error.None? <==> (forall i :: 0 <= i < |removes| ==>
                                      removes[i].data.body.ReactionBody?
                                      && (ProcessorsReaction.HasTarget(removes[i].data.body) ==> env.toDate(removes[i].data.timestamp).Some?))
                                   && !env.refuses(UpdateBatch(ReactionsTable, DeletedAt, removes)))
            && (r.error.Some? ==> r.world == w)
            && (r.error.None? ==> StampedAsLastHit(env.toDate, w.tables.reactions, r.world.tables.reactions, DeletedAt,
                                                   removes, ProcessorsReaction.ReactionHits))
  {
    ProcessorsReaction.DeleteReactions(env, w, msgs)
  }

  /** `pruneReactions`, identical to the stream writer's. */
  function PruneReactions(env: Env, w: World, msgs: seq<Message>): (r: Effect)
    ensures r.world == ProcessorsReaction.SetReactions(w, r.world.tables.reactions)
    ensures r.error.None? <==> (forall i :: 0 <= i < |msgs| ==>
                                  msgs[i].data.body.ReactionBody?
                                  && (ProcessorsReaction.HasTarget(msgs[i].data.body) ==> env.toDate(msgs[i].data.timestamp).Some?))
                               && !env.refuses(UpdateBatch(ReactionsTable, PrunedAt, msgs))
    ensures r.error.Some? ==> r.world == w
    ensures r.error.None? ==> StampedAsLastHit(env.toDate, w.tables.reactions, r.world.tables.reactions, PrunedAt,
                                               msgs, ProcessorsReaction.ReactionHits)
  {
    ProcessorsReaction.PruneReactions(env, w, msgs)
  }
}
