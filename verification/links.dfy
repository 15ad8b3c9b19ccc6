/**
 * The link writer (src/api/link.ts): insert-or-skip of follow links, with a full backfill
 * queued for each account a root target follows when the links come from the live stream,
 * and the soft delete and prune that match on (fid, targetFid).
 */
module ApiLink {
  import opened Wrappers
  import opened Protocol
  import opened Seqs
  import opened Utils
  import opened Store
  import opened BackfillJobs

  /** `CallSource`: who is calling the writer. */
  datatype CallSource = FromBackfill | FromStream

  function SetLinks(w: World, t: map<Bytes, Stored<LinkRow>>): World {
    w.(tables := w.tables.(links := t))
  }

  /** A message whose author is a root target and whose link body names a non-zero target. */
  predicate FollowedByRoot(m: Message, root: set<Fid>) {
    m.data.body.LinkBody? && TruthyNat(m.data.body.targetFid) && m.data.fid in root
  }

  /** The full backfill `queueBackfillJob(targetFid, queue)` requests, with no options. */
  function FollowJob(m: Message): JobRequest {
    var t := if m.data.body.LinkBody? && m.data.body.targetFid.Some? then m.data.body.targetFid.value else 0;
    JobRequest(BackfillQueue, Some(FullBackfillId(t)), Some(DefaultPriority), BackfillData(t, None, None))
  }

  /** The stream-only loop over every input message, each author checked against `targets:root`. */
  function QueueFollowJobs(jobs: seq<JobRequest>, msgs: seq<Message>, root: set<Fid>): (r: seq<JobRequest>)
    ensures r == jobs + Map(Filter(msgs, (m: Message) => FollowedByRoot(m, root)), FollowJob)
    decreases |msgs|
  {
    if |msgs| == 0 then jobs
    else
      var m := msgs[|msgs| - 1];
      var prev := QueueFollowJobs(jobs, msgs[..|msgs| - 1], root);
      if FollowedByRoot(m, root) then
        var r := QueueBackfillJob(prev, m.data.body.targetFid.value, None, None, None);
        assert r == prev + [FollowJob(m)];
        r
      else prev
  }

  /**
   * `insertLinks(msgs, source)`: only link-add messages are inserted; with no link-add the
   * writer returns at once. From the stream, every input message (not only the link-adds)
   * whose author is a root target queues a full backfill of its non-zero target.
   */
  function InsertLinks(env: Env, w: World, msgs: seq<Message>, source: CallSource): (r: Effect)
    ensures r.world.tables == w.tables.(links := r.world.tables.links)
    ensures r.world.targets == w.targets && r.world.flows == w.flows && r.world.cursor == w.cursor
    ensures forall h :: h in w.tables.links ==> h in r.world.tables.links && r.world.tables.links[h] == w.tables.links[h]
    ensures var adds := Filter(msgs, IsLinkAdd);
            && (FormatLinks(env.toDate, adds).Err? ==> r == Effect(w, Some(FormatLinks(env.toDate, adds).error)))
            && (|adds| == 0 ==> r == Effect(w, None))
            && (r.error.None? ==> r.world.tables.links == InsertSkip(w.tables.links, FormatLinks(env.toDate, adds).value, LinkKey))
            && (FormatLinks(env.toDate, adds).Ok? && (forall i :: !env.refuses(InsertChunk(LinksTable, adds, i)))
                ==> r.error.None?)
    ensures source == FromBackfill || r.error.Some? ==> r.world.jobs == w.jobs
    ensures source == FromStream && r.error.None? && |Filter(msgs, IsLinkAdd)| > 0 ==>
              r.world.jobs == w.jobs + Map(Filter(msgs, (m: Message) => FollowedByRoot(m, w.targets.root)), FollowJob)
  {
    var adds := Filter(msgs, IsLinkAdd);
    match FormatLinks(env.toDate, adds)
    case Err(e) => Effect(w, Some(e))
    case Ok(rows) =>
      if |rows| == 0 then Effect(w, None)
      else
        var res := ChunkedInsert(w.tables.links, rows, (i: nat) => env.refuses(InsertChunk(LinksTable, adds, i)), LinkKey);
        var w' := SetLinks(w, res.0);
        if res.1.Some? || source == FromBackfill then Effect(w', res.1)
        else Effect(w'.(jobs := QueueFollowJobs(w.jobs, msgs, w.targets.root)), None)
  }

  /** A remove or prune message reaches every link from its author to the target it names, whatever the hash or type. */
  predicate LinkHits(m: Message, row: LinkRow) {
    m.data.body.LinkBody? && m.data.body.targetFid.Some? && row.fid == m.data.fid && row.targetFid == m.data.body.targetFid
  }

  /**
   * The update one message issues: the date first, then `linkBody.targetFid`, which throws
   * without a link body; an absent target compares with null and matches no row.
   */
  function LinkStep(env: Env, m: Message): (r: Result<Option<Stamp<LinkRow>>, Error>)
    ensures r.Ok? <==> env.toDate(m.data.timestamp).Some? && m.data.body.LinkBody?
  {
    match ToDate(env.toDate, m.data.timestamp)
    case Err(e) => Err(e)
    case Ok(d) =>
      if !m.data.body.LinkBody? then Err(MissingField)
      else if m.data.body.targetFid.None? then Ok(None)
      else Ok(Some(Stamp((x: LinkRow) => x.fid == m.data.fid && x.targetFid == m.data.body.targetFid, d)))
  }

  function StampLinks(env: Env, w: World, msgs: seq<Message>, f: StampField): (r: Effect)
    ensures r.world == SetLinks(w, r.world.tables.links)
    ensures r.error.None? <==> (forall i :: 0 <= i < |msgs| ==>
                                  env.toDate(msgs[i].data.timestamp).Some? && msgs[i].data.body.LinkBody?)
                               && !env.refuses(UpdateBatch(LinksTable, f, msgs))
    ensures r.error.Some? ==> r.world == w
    ensures r.error.None? ==> StampedAsLastHit(env.toDate, w.tables.links, r.world.tables.links, f, msgs, LinkHits)
  {
    var step := m => LinkStep(env, m);
    var res := Transact(w.tables.links, f, FormatAll(msgs, step), env.refuses(UpdateBatch(LinksTable, f, msgs)));
    assert res.1.None? ==> StampedAsLastHit(env.toDate, w.tables.links, res.0, f, msgs, LinkHits) by {
      if res.1.None? {
        assert forall i :: 0 <= i < |msgs| ==> StepFaithful(env.toDate, step, LinkHits, msgs[i]);
        TransactStampsLastHit(env.toDate, w.tables.links, f, msgs, step, LinkHits);
      }
    }
    Effect(SetLinks(w, res.0), res.1)
  }

  /** `deleteLinks`: only link-remove messages are kept; the links they reach get `deletedAt`. */
  function DeleteLinks(env: Env, w: World, msgs: seq<Message>): (r: Effect)
    ensures var removes := Filter(msgs, IsLinkRemove);
            && r.world == SetLinks(w, r.world.tables.links)
            && (r.error.None? <==> (forall i :: 0 <= i < |removes| ==> env.toDate(removes[i].data.timestamp).Some?)
                                   && !env.refuses(UpdateBatch(LinksTable, DeletedAt, removes)))
            && (r.error.Some? ==> r.world == w)
            && (r.error.None? ==> StampedAsLastHit(env.toDate, w.tables.links, r.world.tables.links, DeletedAt, removes, LinkHits))
  {
    var removes := Filter(msgs, IsLinkRemove);
    assert forall i :: 0 <= i < |removes| ==> removes[i] in removes;
    StampLinks(env, w, removes, DeletedAt)
  }

  /** `pruneLinks`: no type filter; the links each message reaches get `prunedAt`. */
  function PruneLinks(env: Env, w: World, msgs: seq<Message>): (r: Effect)
    ensures r.world == SetLinks(w, r.world.tables.links)
    ensures r.error.None? <==> (forall i :: 0 <= i < |msgs| ==>
                                  env.toDate(msgs[i].data.timestamp).Some? && msgs[i].data.body.LinkBody?)
                               && !env.refuses(UpdateBatch(LinksTable, PrunedAt, msgs))
    ensures r.error.Some? ==> r.world == w
    ensures r.error.None? ==> StampedAsLastHit(env.toDate, w.tables.links, r.world.tables.links, PrunedAt, msgs, LinkHits)
  {
    StampLinks(env, w, msgs, PrunedAt)
  }
}

/**
 * The verification writer (src/processors/verification.ts), which also serves the backfill
 * and event paths: one unchunked insert keyed by (fid, signerAddress), and a soft delete.
 */
module ProcessorsVerification {
  import opened Wrappers
  import opened Protocol
  import opened Seqs
  import opened Utils
  import opened Store

  function SetVerifications(w: World, t: map<(Fid, Bytes), Stored<VerificationRow>>): World {
    w.(tables := w.tables.(verifications := t))
  }

  /**
   * `insertVerifications`: the verification-add messages in one statement; a conflict on
   * (fid, signerAddress) changes nothing.
   */
  function InsertVerifications(env: Env, w: World, msgs: seq<Message>): (r: Effect)
    ensures r.world == SetVerifications(w, r.world.tables.verifications)
    ensures var adds := Filter(msgs, IsVerificationAdd);
            && (FormatVerifications(env.toDate, adds).Err? ==> r == Effect(w, Some(FormatVerifications(env.toDate, adds).error)))
            && (|adds| == 0 ==> r == Effect(w, None))
            && (r.error.None? <==> FormatVerifications(env.toDate, adds).Ok?
                                   && (|adds| > 0 ==> !env.refuses(InsertChunk(VerificationsTable, adds, 0))))
            && (r.error.Some? ==> r.world == w)
            && (r.error.None? ==> r.world.tables.verifications
                                  == InsertSkip(w.tables.verifications, FormatVerifications(env.toDate, adds).value, VerificationKey))
    ensures r.error.None? ==> forall i :: 0 <= i < |msgs| && IsVerificationAdd(msgs[i]) ==>
                                (msgs[i].data.fid, msgs[i].data.body.address) in r.world.tables.verifications
  {
    var adds := Filter(msgs, IsVerificationAdd);
    forall i | 0 <= i < |msgs| && IsVerificationAdd(msgs[i]) ensures msgs[i] in adds {
      FilterKeeps(msgs, IsVerificationAdd, msgs[i]);
    }
    match FormatVerifications(env.toDate, adds)
    case Err(e) => Effect(w, Some(e))
    case Ok(rows) =>
      if |rows| == 0 then Effect(w, None)
      else if env.refuses(InsertChunk(VerificationsTable, adds, 0)) then Effect(w, Some(DatabaseRefused))
      else
        assert forall i :: 0 <= i < |rows| ==> VerificationKey(rows[i]) in RowKeys(rows, VerificationKey);
        Effect(SetVerifications(w, InsertSkip(w.tables.verifications, rows, VerificationKey)), None)
  }

  /** Adding a verification that was soft-deleted leaves it deleted: the conflict changes nothing. */
  lemma ReAddKeepsDeletion(env: Env, w: World, msgs: seq<Message>, k: (Fid, Bytes))
    requires k in w.tables.verifications && w.tables.verifications[k].deletedAt.Some?
    requires InsertVerifications(env, w, msgs).error.None?
    ensures InsertVerifications(env, w, msgs).world.tables.verifications[k] == w.tables.verifications[k]
  {
  }

  /** A remove message reaches the verification of its author for the address it names. */
  predicate VerificationHits(m: Message, row: VerificationRow) {
    m.data.body.VerificationRemoveBody? && row.signerAddress == m.data.body.address && row.fid == m.data.fid
  }

  /** The address is read first, then the date converted. */
  function DeleteStep(env: Env, m: Message): (r: Result<Option<Stamp<VerificationRow>>, Error>)
    ensures r.Ok? <==> m.data.body.VerificationRemoveBody? && env.toDate(m.data.timestamp).Some?
  {
    if !m.data.body.VerificationRemoveBody? then Err(MissingField)
    else
      match ToDate(env.toDate, m.data.timestamp)
      case Err(e) => Err(e)
      case Ok(d) => Ok(Some(Stamp((x: VerificationRow) => x.signerAddress == m.data.body.address && x.fid == m.data.fid, d)))
  }

  /** `deleteVerifications`: only verification-remove messages, in one transaction setting `deletedAt`. */
  function DeleteVerifications(env: Env, w: World, msgs: seq<Message>): (r: Effect)
    ensures var removes := Filter(msgs, IsVerificationRemove);
            && r.world == SetVerifications(w, r.world.tables.verifications)
            && (r.error.None? <==> (forall i :: 0 <= i < |removes| ==> env.toDate(removes[i].data.timestamp).Some?)
                                   && !env.refuses(UpdateBatch(VerificationsTable, DeletedAt, removes)))
            && (r.error.Some? ==> r.world == w)
            && (r.error.None? ==> StampedAsLastHit(env.toDate, w.tables.verifications, r.world.tables.verifications,
                                                   DeletedAt, removes, VerificationHits))
  {
    var removes := Filter(msgs, IsVerificationRemove);
    assert forall i :: 0 <= i < |removes| ==> removes[i] in removes;
    StampRemoves(env, w, removes)
  }

  /** The transaction of `deleteVerifications` over messages that are all verification removes. */
  function StampRemoves(env: Env, w: World, removes: seq<Message>): (r: Effect)
    requires forall i :: 0 <= i < |removes| ==> IsVerificationRemove(removes[i])
    ensures r.world == SetVerifications(w, r.world.tables.verifications)
    ensures r.error.None? <==> (forall i :: 0 <= i < |removes| ==> env.toDate(removes[i].data.timestamp).Some?)
                               && !env.refuses(UpdateBatch(VerificationsTable, DeletedAt, removes))
    ensures r.error.Some? ==> r.world == w
    ensures r.error.None? ==> StampedAsLastHit(env.toDate, w.tables.verifications, r.world.tables.verifications,
                                               DeletedAt, removes, VerificationHits)
  {
    var step := m => DeleteStep(env, m);
    forall i | 0 <= i < |removes| ensures step(removes[i]).Ok? <==> env.toDate(removes[i].data.timestamp).Some? {
      var m := removes[i];
      assert IsVerificationRemove(m);
      assert step(m) == DeleteStep(env, m);
    }
    var res := Transact(w.tables.verifications, DeletedAt, FormatAll(removes, step),
                        env.refuses(UpdateBatch(VerificationsTable, DeletedAt, removes)));
    assert res.1.None? ==> StampedAsLastHit(env.toDate, w.tables.verifications, res.0, DeletedAt, removes, VerificationHits) by {
      if res.1.None? {
        assert forall i :: 0 <= i < |removes| ==> StepFaithful(env.toDate, step, VerificationHits, removes[i]);
        TransactStampsLastHit(env.toDate, w.tables.verifications, DeletedAt, removes, step, VerificationHits);
      }
    }
    Effect(SetVerifications(w, res.0), res.1)
  }
}

/**
 * The user-data writer (src/api/user-data.ts): the last-wins dedupe of the batch, then an
 * upsert on (fid, type) that overwrites only the hash and the value.
 */
module ApiUserData {
  import opened Wrappers
  import opened Protocol
  import opened Seqs
  import opened Utils
  import opened Store

  function SetUserData(w: World, t: map<(Fid, int), UserDataRow>): World {
    w.(tables := w.tables.(userData := t))
  }

  function UserDataRowKey(row: UserDataRow): (Fid, int) {
    (row.fid, row.userDataType)
  }

  /** The upsert of one row: a new key takes the row, an existing one only its hash and value. */
  function UpsertOne(t: map<(Fid, int), UserDataRow>, row: UserDataRow): map<(Fid, int), UserDataRow> {
    var k := UserDataRowKey(row);
    if k in t then t[k := t[k].(hash := row.hash, value := row.value)] else t[k := row]
  }

  /**
   * `INSERT … ON CONFLICT (fid, type) DO UPDATE SET hash, value` over rows with distinct keys:
   * rows of other keys are untouched; an existing row keeps its timestamp.
   */
  function Upsert(t: map<(Fid, int), UserDataRow>, rows: seq<UserDataRow>): map<(Fid, int), UserDataRow>
    decreases |rows|
  {
    if |rows| == 0 then t else UpsertOne(Upsert(t, rows[..|rows| - 1]), rows[|rows| - 1])
  }

  /** Rows with distinct keys: each key takes its row's hash and value, and nothing else changes. */
  lemma {:induction false} UpsertSpec(t: map<(Fid, int), UserDataRow>, rows: seq<UserDataRow>)
    requires forall i, j :: 0 <= i < j < |rows| ==> UserDataRowKey(rows[i]) != UserDataRowKey(rows[j])
    ensures Upsert(t, rows).Keys == t.Keys + RowKeys(rows, UserDataRowKey)
    ensures forall k :: k in t && k !in RowKeys(rows, UserDataRowKey) ==> Upsert(t, rows)[k] == t[k]
    ensures forall i :: 0 <= i < |rows| ==>
              var k := UserDataRowKey(rows[i]);
              Upsert(t, rows)[k] == if k in t then t[k].(hash := rows[i].hash, value := rows[i].value) else rows[i]
    decreases |rows|
  {
    if |rows| > 0 {
      var p, row := rows[..|rows| - 1], rows[|rows| - 1];
      UpsertSpec(t, p);
      var prev := Upsert(t, p);
      var k := UserDataRowKey(row);
      RowKeysSnoc(rows, UserDataRowKey);
      forall i | 0 <= i < |p| ensures UserDataRowKey(p[i]) != k && p[i] == rows[i] {
        assert p[i] == rows[i];
      }
      assert k !in RowKeys(p, UserDataRowKey);
      var u := Upsert(t, rows);
      assert u == UpsertOne(prev, row);
      forall i | 0 <= i < |rows|
        ensures var k' := UserDataRowKey(rows[i]);
                u[k'] == if k' in t then t[k'].(hash := rows[i].hash, value := rows[i].value) else rows[i]
      {
        if i < |p| {
          assert rows[i] == p[i];
        }
      }
    }
  }

  /**
   * `insertUserDatas`: each (fid, type) of the batch ends with the hash and value of its last
   * message; a new key also takes that message's timestamp, an existing key keeps its own.
   */
  function InsertUserDatas(env: Env, w: World, msgs: seq<Message>): (r: Effect)
    ensures r.world == SetUserData(w, r.world.tables.userData)
    ensures FormatUserDatas(env.toDate, msgs).Err? ==> r == Effect(w, Some(FormatUserDatas(env.toDate, msgs).error))
    ensures |msgs| == 0 ==> r == Effect(w, None)
    ensures r.error.Some? ==> r.world == w
    ensures r.error.None? <==> (FormatUserDatas(env.toDate, msgs).Ok?
                               && (|msgs| > 0 ==> !env.refuses(InsertChunk(UserDataTable, msgs, 0))))
    ensures r.error.None? ==> AllUserData(msgs) && forall k :: k in w.tables.userData && k !in Keys(msgs) ==>
              k in r.world.tables.userData && r.world.tables.userData[k] == w.tables.userData[k]
    ensures r.error.None? ==> AllUserData(msgs) && forall k :: k in Keys(msgs) ==>
              var last := LastWith(msgs, k).value;
              && k in r.world.tables.userData
              && r.world.tables.userData[k].hash == last.hash
              && r.world.tables.userData[k].value == last.data.body.value
              && (k in w.tables.userData ==> r.world.tables.userData[k].timestamp == w.tables.userData[k].timestamp)
              && (k !in w.tables.userData ==> Some(r.world.tables.userData[k].timestamp) == env.toDate(last.data.timestamp))
  {
    match FormatUserDatas(env.toDate, msgs)
    case Err(e) => Effect(w, Some(e))
    case Ok(rows) =>
      if |rows| == 0 then Effect(w, None)
      else if env.refuses(InsertChunk(UserDataTable, msgs, 0)) then Effect(w, Some(DatabaseRefused))
      else
        UpsertMessages(env.toDate, w.tables.userData, msgs, rows);
        Effect(SetUserData(w, Upsert(w.tables.userData, rows)), None)
  }

  /** The upsert of the formatted rows, read per key of the messages. */
  lemma UpsertMessages(toDate: DateFn, t: map<(Fid, int), UserDataRow>, msgs: seq<Message>, rows: seq<UserDataRow>)
    requires FormatUserDatas(toDate, msgs) == Ok(rows)
    ensures AllUserData(msgs)
    ensures forall k :: k in t && k !in Keys(msgs) ==> k in Upsert(t, rows) && Upsert(t, rows)[k] == t[k]
    ensures forall k :: k in Keys(msgs) ==>
              var last := LastWith(msgs, k).value;
              && k in Upsert(t, rows)
              && Upsert(t, rows)[k].hash == last.hash
              && Upsert(t, rows)[k].value == last.data.body.value
              && (k in t ==> Upsert(t, rows)[k].timestamp == t[k].timestamp)
              && (k !in t ==> Some(Upsert(t, rows)[k].timestamp) == toDate(last.data.timestamp))
  {
    FormatUserDatasDistinct(toDate, msgs);
    UpsertSpec(t, rows);
    KeysSpec(msgs);
    var u := Upsert(t, rows);
    forall k | k in t && k !in Keys(msgs) ensures k !in RowKeys(rows, UserDataRowKey) {
      forall i | 0 <= i < |rows| ensures UserDataRowKey(rows[i]) != k {
        assert UserDataRowKey(rows[i]) == Keys(msgs)[i];
      }
    }
    forall k | k in Keys(msgs)
      ensures var last := LastWith(msgs, k).value;
              && k in u && u[k].hash == last.hash && u[k].value == last.data.body.value
              && (k in t ==> u[k].timestamp == t[k].timestamp)
              && (k !in t ==> Some(u[k].timestamp) == toDate(last.data.timestamp))
    {
      var i :| 0 <= i < |Keys(msgs)| && Keys(msgs)[i] == k;
      assert UserDataRowKey(rows[i]) == k;
      assert k in RowKeys(rows, UserDataRowKey);
    }
  }

  /**
   * No timestamp comparison: an older message arriving after a newer one overwrites the
   * stored value, and the stored timestamp stays that of the newer row.
   */
  lemma OlderMessageOverwrites(env: Env, w: World, m: Message, stored: UserDataRow)
    requires m.data.body.UserDataBody? && env.toDate(m.data.timestamp).Some?
    requires env.toDate(m.data.timestamp).value < stored.timestamp
    requires UserDataKey(m) == (stored.fid, stored.userDataType)
    requires w.tables.userData == map[(stored.fid, stored.userDataType) := stored]
    requires !env.refuses(InsertChunk(UserDataTable, [m], 0))
    ensures var after := InsertUserDatas(env, w, [m]).world.tables.userData[(stored.fid, stored.userDataType)];
            after.value == m.data.body.value && after.timestamp == stored.timestamp
            && after.timestamp > env.toDate(m.data.timestamp).value
  {
    assert [m][..0] == [];
    assert DedupeLast([m]) == [m];
    assert FormatUserData(env.toDate, m).Ok?;
    assert Keys([m]) == [UserDataKey(m)];
    assert LastWith([m], UserDataKey(m)) == Some(m);
  }
}
