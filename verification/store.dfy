/**
 * The indexer's persistent state as in-memory tables: each Postgres table is a map keyed by
 * its unique constraint, next to the Redis target sets, the job queue (the list of job
 * requests appended to it) and the event cursor. The generic write shapes of the write layer
 * live here: insert-or-skip in chunks, and soft-delete/prune transactions that stamp one
 * timestamp column on the rows a where-clause matches.
 */
module Store {
  import opened Wrappers
  import opened Protocol
  import opened Seqs
  import opened Utils
  import Targets
  import BackfillJobs

  /** A row of a soft-deletable table: its content and the two stamps the write layer sets. */
  datatype Stored<D> = Stored(row: D, deletedAt: Option<int>, prunedAt: Option<int>)

  /** The decoded signed-key-request metadata of a signer ADD event. */
  datatype SignedKeyRequest = SignedKeyRequest(requestFid: nat, requestSigner: Bytes, signature: Bytes, deadline: nat)

  /** A `fids` row; `updatedAt` is `None` until an upsert or update touches the row. */
  datatype FidRow = FidRow(fid: Fid, registeredAt: int, custodyAddress: Bytes, recoveryAddress: Bytes,
                           updatedAt: Option<int>)

  datatype SignerRow = SignerRow(
    fid: Fid, key: Bytes, addedAt: int, requesterFid: nat, keyType: int, metadata: SignedKeyRequest,
    metadataType: int, removedAt: Option<int>, updatedAt: Option<int>)

  datatype StorageRow = StorageRow(fid: Fid, units: nat, payer: Bytes, rentedAt: int, expiresAt: int,
                                   updatedAt: Option<int>)

  /** The tables the write layer touches, each keyed by its unique constraint. */
  datatype Tables = Tables(
    casts: map<Bytes, Stored<CastRow>>,
    reactions: map<Bytes, Stored<ReactionRow>>,
    links: map<Bytes, Stored<LinkRow>>,
    verifications: map<(Fid, Bytes), Stored<VerificationRow>>,
    userData: map<(Fid, int), UserDataRow>,
    fids: map<Fid, FidRow>,
    signers: map<(Fid, Bytes), SignerRow>,
    storage: map<(Fid, int), StorageRow>)

  /** Everything a handler can change: tables, target sets, queued jobs and flows, and the event cursor. */
  datatype World = World(
    tables: Tables,
    targets: Targets.Targets,
    jobs: seq<BackfillJobs.JobRequest>,
    flows: seq<BackfillJobs.JobFlow>,
    cursor: Option<string>)

  datatype TableName =
    | CastsTable | ReactionsTable | LinksTable | VerificationsTable | UserDataTable
    | FidsTable | SignersTable | StorageTable

  datatype StampField = DeletedAt | PrunedAt

  /** A database statement, as the database's verdict on it is looked up. */
  datatype Statement =
    | InsertChunk(table: TableName, msgs: seq<Message>, index: nat)   // the index-th chunk of an insert over msgs
    | UpdateBatch(table: TableName, field: StampField, msgs: seq<Message>) // one soft-delete/prune transaction
    | OnChainWrite(table: TableName, event: OnChainEvent)              // the statement one on-chain event issues

  /**
   * What a handler cannot compute itself: the Farcaster-time conversion, which statements the
   * database refuses, the wall clock, and the ABI decoder of signer metadata.
   */
  datatype Env = Env(
    toDate: DateFn,
    refuses: Statement -> bool,
    now: int,
    decode: Bytes -> Option<SignedKeyRequest>)

  /** The world after a handler, and the error it threw, if any. */
  datatype Effect = Effect(world: World, error: Option<Error>)

  /** `await a; await b`: the second step runs only when the first did not throw. */
  function Then(e: Effect, next: World -> Effect): (r: Effect)
    ensures e.error.Some? ==> r == e
    ensures e.error.None? ==> r == next(e.world)
  {
    if e.error.Some? then e else next(e.world)
  }

  /* The unique constraints of the message tables. */
  function CastKey(c: CastRow): Bytes { c.hash }
  function ReactionKey(r: ReactionRow): Bytes { r.hash }
  function LinkKey(l: LinkRow): Bytes { l.hash }
  function VerificationKey(v: VerificationRow): (Fid, Bytes) { (v.fid, v.signerAddress) }

  /** The number of items per insert statement of the chunked writers. */
  const InsertChunkSize: nat := 1000

  /* ---------- insert-or-skip ---------- */

  function Fresh<D>(row: D): Stored<D> {
    Stored(row, None, None)
  }

  /** The keys of a batch of rows. */
  function RowKeys<K, D>(rows: seq<D>, key: D -> K): set<K> {
    set i | 0 <= i < |rows| :: key(rows[i])
  }

  /** The keys of a batch are the keys of all but its last row, and the last row's key. */
  lemma RowKeysSnoc<K, D>(rows: seq<D>, key: D -> K)
    requires |rows| > 0
    ensures RowKeys(rows, key) == RowKeys(rows[..|rows| - 1], key) + {key(rows[|rows| - 1])}
  {
    var p := rows[..|rows| - 1];
    forall x | x in RowKeys(rows, key) ensures x in RowKeys(p, key) + {key(rows[|rows| - 1])} {
      var i :| 0 <= i < |rows| && key(rows[i]) == x;
      if i < |p| { assert p[i] == rows[i]; }
    }
    forall x | x in RowKeys(p, key) ensures x in RowKeys(rows, key) {
      var i :| 0 <= i < |p| && key(p[i]) == x;
      assert p[i] == rows[i];
    }
  }

  /**
   * `INSERT … ON CONFLICT DO NOTHING`: rows are added in order and a row whose key is already
   * present, in the table or earlier in the batch, is skipped.
   */
  function InsertSkip<K, D>(t: map<K, Stored<D>>, rows: seq<D>, key: D -> K): (r: map<K, Stored<D>>)
    ensures r.Keys == t.Keys + RowKeys(rows, key)
    ensures forall k :: k in t ==> r[k] == t[k]
    decreases |rows|
  {
    if |rows| == 0 then t
    else
      var prev := InsertSkip(t, rows[..|rows| - 1], key);
      var x := rows[|rows| - 1];
      assert RowKeys(rows, key) == RowKeys(rows[..|rows| - 1], key) + {key(x)} by {
        forall k | k in RowKeys(rows, key) ensures k in RowKeys(rows[..|rows| - 1], key) + {key(x)} {
          var i :| 0 <= i < |rows| && key(rows[i]) == k;
          if i < |rows| - 1 { assert rows[..|rows| - 1][i] == rows[i]; }
        }
      }
      if key(x) in prev then prev else prev[key(x) := Fresh(x)]
  }

  /** The first row of a batch with a given key is the one that lands in the table. */
  lemma {:induction false} InsertSkipFirstWins<K, D>(t: map<K, Stored<D>>, rows: seq<D>, key: D -> K, i: nat)
    requires i < |rows| && key(rows[i]) !in t
    requires forall j :: 0 <= j < i ==> key(rows[j]) != key(rows[i])
    ensures InsertSkip(t, rows, key)[key(rows[i])] == Fresh(rows[i])
    decreases |rows|
  {
    var p := rows[..|rows| - 1];
    if i < |rows| - 1 {
      assert p[i] == rows[i];
      InsertSkipFirstWins(t, p, key, i);
    } else {
      forall j | 0 <= j < |p| ensures key(p[j]) != key(rows[i]) {
        assert p[j] == rows[j];
      }
      assert key(rows[i]) !in RowKeys(p, key);
    }
  }

  /** Inserting two batches one after the other is inserting their concatenation. */
  lemma {:induction false} InsertSkipAppend<K, D>(t: map<K, Stored<D>>, a: seq<D>, b: seq<D>, key: D -> K)
    ensures InsertSkip(InsertSkip(t, a, key), b, key) == InsertSkip(t, a + b, key)
    decreases |b|
  {
    if |b| == 0 {
      assert a + b == a;
    } else {
      var b' := b[..|b| - 1];
      assert (a + b)[..|a + b| - 1] == a + b';
      assert (a + b)[|a + b| - 1] == b[|b| - 1];
      InsertSkipAppend(t, a, b', key);
    }
  }

  /**
   * The chunk loop of the writers from chunk `i` on: each chunk is one statement, and the
   * first refused statement ends the loop with the earlier chunks committed. Returns the
   * table and the number of chunks committed in total.
   */
  function InsertChunksFrom<K, D>(t: map<K, Stored<D>>, chunks: seq<seq<D>>, i: nat,
                                  refused: nat -> bool, key: D -> K): (r: (map<K, Stored<D>>, nat))
    requires i <= |chunks|
    ensures i <= r.1 <= |chunks|
    ensures r.1 < |chunks| ==> refused(r.1)
    ensures forall j :: i <= j < r.1 ==> !refused(j)
    ensures r.0 == InsertSkip(t, Flatten(chunks[i..r.1]), key)
    decreases |chunks| - i
  {
    if i == |chunks| || refused(i) then
      assert chunks[i..i] == [];
      (t, i)
    else
      var r := InsertChunksFrom(InsertSkip(t, chunks[i], key), chunks, i + 1, refused, key);
      InsertChunkStep(t, chunks, i, r.1, key);
      assert forall j :: i <= j < r.1 ==> !refused(j) by {
        forall j | i <= j < r.1 ensures !refused(j) { if j == i { assert !refused(i); } }
      }
      r
  }

  /** Inserting chunk `i` and then chunks `i+1 .. j` is inserting chunks `i .. j` in one go. */
  lemma InsertChunkStep<K, D>(t: map<K, Stored<D>>, chunks: seq<seq<D>>, i: nat, j: nat, key: D -> K)
    requires i < j <= |chunks|
    ensures InsertSkip(InsertSkip(t, chunks[i], key), Flatten(chunks[i + 1..j]), key)
         == InsertSkip(t, Flatten(chunks[i..j]), key)
  {
    var rest := chunks[i + 1..j];
    assert chunks[i..j] == [chunks[i]] + rest by {
      assert |chunks[i..j]| == 1 + |rest|;
      forall k | 0 <= k < |chunks[i..j]| ensures chunks[i..j][k] == ([chunks[i]] + rest)[k] {
        if k > 0 { assert chunks[i..j][k] == rest[k - 1]; }
      }
    }
    FlattenAppend([chunks[i]], rest);
    FlattenSingle(chunks[i]);
    InsertSkipAppend(t, chunks[i], Flatten(rest), key);
  }

  /**
   * A chunked insert-or-skip of `rows`, statement `i` refused when `refused(i)`: without a
   * refusal it is the insert of all rows; with one, exactly the chunks before the first
   * refused chunk are committed and the error is rethrown. Rows already present are never
   * overwritten either way.
   */
  function ChunkedInsert<K, D>(t: map<K, Stored<D>>, rows: seq<D>, refused: nat -> bool, key: D -> K)
    : (r: (map<K, Stored<D>>, Option<Error>))
    ensures forall k :: k in t ==> k in r.0 && r.0[k] == t[k]
    ensures r.1.None? <==> forall i :: 0 <= i < |Chunks(rows, InsertChunkSize)| ==> !refused(i)
    ensures r.1.None? ==> r.0 == InsertSkip(t, rows, key)
    ensures r.1.Some? ==> r.1 == Some(DatabaseRefused)
  {
    var chunks := Chunks(rows, InsertChunkSize);
    var res := InsertChunksFrom(t, chunks, 0, refused, key);
    if res.1 < |chunks| then
      assert refused(res.1);
      (res.0, Some(DatabaseRefused))
    else
      AllChunksCommitted(t, chunks, refused, key);
      ChunksFlatten(rows, InsertChunkSize);
      (res.0, None)
  }

  /** When no chunk is refused, every chunk is committed. */
  lemma AllChunksCommitted<K, D>(t: map<K, Stored<D>>, chunks: seq<seq<D>>, refused: nat -> bool, key: D -> K)
    requires InsertChunksFrom(t, chunks, 0, refused, key).1 == |chunks|
    ensures InsertChunksFrom(t, chunks, 0, refused, key).0 == InsertSkip(t, Flatten(chunks), key)
  {
    assert chunks[0..|chunks|] == chunks;
  }

  /**
   * A refused chunked insert leaves exactly the rows of the chunks before the first refused
   * one committed.
   */
  lemma ChunkedInsertCommitsPrefix<K, D>(t: map<K, Stored<D>>, rows: seq<D>, refused: nat -> bool, key: D -> K)
    requires ChunkedInsert(t, rows, refused, key).1.Some?
    ensures exists n :: 0 <= n < |Chunks(rows, InsertChunkSize)| && refused(n)
                        && (forall j :: 0 <= j < n ==> !refused(j))
                        && n * InsertChunkSize <= |rows|
                        && ChunkedInsert(t, rows, refused, key).0 == InsertSkip(t, rows[..n * InsertChunkSize], key)
  {
    var chunks := Chunks(rows, InsertChunkSize);
    var res := InsertChunksFrom(t, chunks, 0, refused, key);
    var n := res.1;
    assert n < |chunks|;
    assert chunks[0..n] == chunks[..n];
    ChunksPrefix(rows, InsertChunkSize, n);
  }

  /** The first `n` chunks hold exactly the first `n * size` items. */
  lemma {:induction false} ChunksPrefix<T>(xs: seq<T>, size: nat, n: nat)
    requires size > 0 && n < |Chunks(xs, size)|
    ensures n * size <= |xs|
    ensures Flatten(Chunks(xs, size)[..n]) == xs[..n * size]
    decreases n
  {
    var cs := Chunks(xs, size);
    if n == 0 {
      assert cs[..0] == [];
    } else {
      var rest := xs[size..];
      var tail := Chunks(rest, size);
      assert cs == [xs[..size]] + tail;
      ChunksPrefix(rest, size, n - 1);
      var k := (n - 1) * size;
      assert n * size == size + k;
      assert Flatten(cs[..n]) == xs[..size] + Flatten(tail[..n - 1]) by {
        assert cs[..n] == [xs[..size]] + tail[..n - 1];
        FlattenAppend([xs[..size]], tail[..n - 1]);
        FlattenSingle(xs[..size]);
      }
      assert xs[..size] + rest[..k] == xs[..size + k];
    }
  }

  /* ---------- soft delete and prune ---------- */

  /** The update one message issues: the rows its where-clause matches, and the date it sets. */
  datatype Stamp<-D> = Stamp(matches: D -> bool, date: int)

  function StampOf<D>(s: Stored<D>, f: StampField): Option<int> {
    match f
    case DeletedAt => s.deletedAt
    case PrunedAt => s.prunedAt
  }

  function SetStamp<D>(s: Stored<D>, f: StampField, date: int): (r: Stored<D>)
    ensures r.row == s.row && StampOf(r, f) == Some(date)
    ensures f.DeletedAt? ==> r.prunedAt == s.prunedAt
    ensures f.PrunedAt? ==> r.deletedAt == s.deletedAt
  {
    match f
    case DeletedAt => s.(deletedAt := Some(date))
    case PrunedAt => s.(prunedAt := Some(date))
  }

  /** Reference: the date of the last update whose where-clause matches `row`. */
  function LastMatch<D>(updates: seq<Option<Stamp<D>>>, row: D): Option<int>
    decreases |updates|
  {
    if |updates| == 0 then None
    else
      var u := updates[|updates| - 1];
      if u.Some? && u.value.matches(row) then Some(u.value.date)
      else LastMatch(updates[..|updates| - 1], row)
  }

  /** The field a transaction ends with on one row: the last matching update's date, or as it was. */
  function Stamped<D>(s: Stored<D>, f: StampField, updates: seq<Option<Stamp<D>>>): Option<int> {
    match LastMatch(updates, s.row)
    case Some(d) => Some(d)
    case None => StampOf(s, f)
  }

  /** The other stamp column, which an update of `f` never writes. */
  function Other(f: StampField): StampField {
    match f
    case DeletedAt => PrunedAt
    case PrunedAt => DeletedAt
  }

  /**
   * The updates of one transaction executed in order (`None` is a message that issues no
   * update). Every row keeps its content and its other stamp; the stamped field ends as the
   * date of the last update matching it.
   */
  function ApplyStamps<K, D>(t: map<K, Stored<D>>, f: StampField, updates: seq<Option<Stamp<D>>>)
    : (r: map<K, Stored<D>>)
    ensures r.Keys == t.Keys
    ensures forall k :: k in t ==> r[k].row == t[k].row
    ensures forall k :: k in t ==> StampOf(r[k], Other(f)) == StampOf(t[k], Other(f))
    ensures forall k :: k in t ==> StampOf(r[k], f) == Stamped(t[k], f, updates)
    decreases |updates|
  {
    if |updates| == 0 then t
    else
      var prev := ApplyStamps(t, f, updates[..|updates| - 1]);
      var u := updates[|updates| - 1];
      if u.None? then prev
      else map k | k in prev :: if u.value.matches(prev[k].row) then SetStamp(prev[k], f, u.value.date) else prev[k]
  }

  /**
   * One soft-delete or prune transaction: the updates are built message by message; a message
   * that throws, or a refused transaction, rolls everything back and the error is rethrown.
   */
  function Transact<K, D>(t: map<K, Stored<D>>, f: StampField, updates: Result<seq<Option<Stamp<D>>>, Error>,
                          refused: bool): (r: (map<K, Stored<D>>, Option<Error>))
    ensures updates.Err? ==> r == (t, Some(updates.error))
    ensures updates.Ok? && refused ==> r == (t, Some(DatabaseRefused))
    ensures updates.Ok? && !refused ==> r.1.None? && r.0 == ApplyStamps(t, f, updates.value)
  {
    match updates
    case Err(e) => (t, Some(e))
    case Ok(us) => if refused then (t, Some(DatabaseRefused)) else (ApplyStamps(t, f, us), None)
  }

  /** A row no update matches is left exactly as it was. */
  lemma UnmatchedRowUnchanged<K, D>(t: map<K, Stored<D>>, f: StampField, updates: seq<Option<Stamp<D>>>, k: K)
    requires k in t
    requires forall i :: 0 <= i < |updates| && updates[i].Some? ==> !updates[i].value.matches(t[k].row)
    ensures ApplyStamps(t, f, updates)[k] == t[k]
  {
    LastMatchNone(updates, t[k].row);
    var r := ApplyStamps(t, f, updates);
    match f
    case DeletedAt => assert r[k] == Stored(t[k].row, t[k].deletedAt, t[k].prunedAt);
    case PrunedAt => assert r[k] == Stored(t[k].row, t[k].deletedAt, t[k].prunedAt);
  }

  /** No matching update, no date. */
  lemma {:induction false} LastMatchNone<D>(updates: seq<Option<Stamp<D>>>, row: D)
    ensures LastMatch(updates, row).None? <==>
            forall i :: 0 <= i < |updates| && updates[i].Some? ==> !updates[i].value.matches(row)
    decreases |updates|
  {
    if |updates| > 0 {
      var p := updates[..|updates| - 1];
      LastMatchNone(p, row);
      assert forall i :: 0 <= i < |p| ==> p[i] == updates[i];
    }
  }

  /** The date found is that of a matching update, and no later update matches. */
  lemma {:induction false} LastMatchIsLast<D>(updates: seq<Option<Stamp<D>>>, row: D)
    requires LastMatch(updates, row).Some?
    ensures exists i :: 0 <= i < |updates| && updates[i].Some? && updates[i].value.matches(row)
                        && updates[i].value.date == LastMatch(updates, row).value
                        && forall j :: i < j < |updates| && updates[j].Some? ==> !updates[j].value.matches(row)
    decreases |updates|
  {
    var n := |updates| - 1;
    var u := updates[n];
    if !(u.Some? && u.value.matches(row)) {
      var p := updates[..n];
      LastMatchIsLast(p, row);
      var i :| 0 <= i < |p| && p[i].Some? && p[i].value.matches(row) && p[i].value.date == LastMatch(p, row).value
               && forall j :: i < j < |p| && p[j].Some? ==> !p[j].value.matches(row);
      assert updates[i] == p[i];
      assert forall j :: i < j < |updates| && updates[j].Some? ==> !updates[j].value.matches(row) by {
        forall j | i < j < |updates| && updates[j].Some? ensures !updates[j].value.matches(row) {
          if j < n { assert updates[j] == p[j]; }
        }
      }
    }
  }

  /* ---------- what a soft-delete or prune transaction leaves behind ---------- */

  /** Reference: the converted date of the last message that `hits` the row, if any. */
  function LastHitDate<D>(toDate: DateFn, msgs: seq<Message>, row: D, hits: (Message, D) -> bool): Option<int>
    decreases |msgs|
  {
    if |msgs| == 0 then None
    else if hits(msgs[|msgs| - 1], row) then toDate(msgs[|msgs| - 1].data.timestamp)
    else LastHitDate(toDate, msgs[..|msgs| - 1], row, hits)
  }

  /**
   * The update a message issues matches exactly the rows it `hits`, with the message's own
   * converted timestamp as the date.
   */
  ghost predicate StepFaithful<D(!new)>(toDate: DateFn, step: Message -> Result<Option<Stamp<D>>, Error>,
                            hits: (Message, D) -> bool, m: Message)
  {
    step(m).Ok? ==>
      forall row :: (step(m).value.Some? && step(m).value.value.matches(row)) == hits(m, row)
                    && (hits(m, row) ==> toDate(m.data.timestamp) == Some(step(m).value.value.date))
  }

  /**
   * The table after a transaction over `msgs`: same keys, and each row stamped with the date
   * of the last message that hits it, or left exactly as it was when none does.
   */
  ghost predicate StampedAsLastHit<K, D>(toDate: DateFn, before: map<K, Stored<D>>, after: map<K, Stored<D>>,
                                         f: StampField, msgs: seq<Message>, hits: (Message, D) -> bool)
  {
    after.Keys == before.Keys
    && forall k :: k in before ==>
         var d := LastHitDate(toDate, msgs, before[k].row, hits);
         after[k] == (if d.Some? then SetStamp(before[k], f, d.value) else before[k])
  }

  lemma {:induction false} LastMatchIsLastHit<D(!new)>(toDate: DateFn, msgs: seq<Message>, us: seq<Option<Stamp<D>>>,
                                                 step: Message -> Result<Option<Stamp<D>>, Error>,
                                                 hits: (Message, D) -> bool, row: D)
    requires |us| == |msgs|
    requires forall i :: 0 <= i < |msgs| ==> step(msgs[i]) == Ok(us[i])
    requires forall i :: 0 <= i < |msgs| ==> StepFaithful(toDate, step, hits, msgs[i])
    ensures LastMatch(us, row) == LastHitDate(toDate, msgs, row, hits)
    decreases |msgs|
  {
    if |msgs| > 0 {
      var n := |msgs| - 1;
      assert StepFaithful(toDate, step, hits, msgs[n]);
      var p, q := msgs[..n], us[..n];
      assert forall i :: 0 <= i < n ==> p[i] == msgs[i] && q[i] == us[i];
      LastMatchIsLastHit(toDate, p, q, step, hits, row);
    }
  }

  /** A transaction whose every message issues a faithful update leaves the last hit's date on each row. */
  lemma TransactStampsLastHit<K, D(!new)>(toDate: DateFn, t: map<K, Stored<D>>, f: StampField, msgs: seq<Message>,
                                    step: Message -> Result<Option<Stamp<D>>, Error>, hits: (Message, D) -> bool)
    requires forall i :: 0 <= i < |msgs| ==> StepFaithful(toDate, step, hits, msgs[i])
    requires FormatAll(msgs, step).Ok?
    ensures StampedAsLastHit(toDate, t, ApplyStamps(t, f, FormatAll(msgs, step).value), f, msgs, hits)
  {
    var us := FormatAll(msgs, step).value;
    var r := ApplyStamps(t, f, us);
    forall k | k in t
      ensures var d := LastHitDate(toDate, msgs, t[k].row, hits);
              r[k] == (if d.Some? then SetStamp(t[k], f, d.value) else t[k])
    {
      LastMatchIsLastHit(toDate, msgs, us, step, hits, t[k].row);
      match f
      case DeletedAt => assert r[k] == Stored(t[k].row, StampOf(r[k], f), t[k].prunedAt);
      case PrunedAt => assert r[k] == Stored(t[k].row, t[k].deletedAt, StampOf(r[k], f));
    }
  }
}
