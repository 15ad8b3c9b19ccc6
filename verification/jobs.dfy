/**
 * The backfill job protocol shared by the writers and the schedulers (the job half of
 * src/lib/backfill.ts): deterministic job ids, the job payloads and the queue itself, which
 * the model keeps as the list of job requests appended to it.
 */
module BackfillJobs {
  import opened Wrappers
  import opened Protocol
  import Numerals

  /**
   * The queues jobs are added to: `backfill` and `rootBackfill` of src/lib/backfill.ts, the
   * index-message queue behind `queueIndexMessageJob`, and the batch queue of src/backfill.ts.
   */
  datatype QueueName = BackfillQueue | RootBackfillQueue | IndexMessageQueue | FidBatchQueue

  datatype JobData =
    | BackfillData(fid: Fid, partial: Option<bool>, removeMessages: Option<bool>)
    | RootBackfillData(rootFid: Fid, backfillCount: nat)
    | IndexMessageData(hash: Bytes, targetFid: Fid, messageType: MessageType)
    | FidBatchData(fids: seq<Fid>)

  /** The three job-id families of src/lib/backfill.ts; `IdString` gives the id BullMQ sees. */
  datatype JobId = FullBackfillId(fid: Fid) | PartialBackfillId(fid: Fid) | RootBackfillId(fid: Fid)

  /** One `queue.add`: the queue, the job id and priority options, and the payload. */
  datatype JobRequest = JobRequest(queue: QueueName, jobId: Option<JobId>, priority: Option<nat>, data: JobData)

  /** One `flowProducer.add`: a parent job whose children run first. */
  datatype JobFlow = JobFlow(parent: JobRequest, children: seq<JobRequest>)

  /** The priority `queueBackfillJob` uses when none is given. */
  const DefaultPriority: nat := 100

  /** The priority of the follow-up jobs the writers queue. */
  const FollowUpPriority: nat := 110

  function BackfillJobId(fid: Fid): string {
    "backfill:" + Numerals.Decimal(fid)
  }

  function BackfillPartialJobId(fid: Fid): string {
    "backfill:partial:" + Numerals.Decimal(fid)
  }

  function RootBackfillJobId(fid: Fid): string {
    "backfill:root:" + Numerals.Decimal(fid)
  }

  /** A fixed prefix followed by a decimal numeral names the number uniquely. */
  lemma PrefixedDecimalInjective(p: string, a: nat, b: nat)
    requires p + Numerals.Decimal(a) == p + Numerals.Decimal(b)
    ensures a == b
  {
    assert Numerals.Decimal(a) == (p + Numerals.Decimal(a))[|p|..];
    assert Numerals.Decimal(b) == (p + Numerals.Decimal(b))[|p|..];
    Numerals.DecimalInjective(a, b);
  }

  /** A decimal numeral cannot begin where a prefix continues with a letter. */
  lemma PrefixedDecimalNotLetter(p: string, q: string, a: nat, rest: string)
    requires |q| > 0 && !('0' <= q[0] <= '9')
    ensures p + Numerals.Decimal(a) != p + q + rest
  {
    Numerals.DecimalChars(a, 0);
    assert (p + Numerals.Decimal(a))[|p|] == Numerals.Decimal(a)[0];
    assert (p + q + rest)[|p|] == q[0];
  }

  /** Each id family names one fid, and the three families never share an id. */
  lemma JobIdsDistinct(a: Fid, b: Fid)
    ensures BackfillJobId(a) == BackfillJobId(b) ==> a == b
    ensures BackfillPartialJobId(a) == BackfillPartialJobId(b) ==> a == b
    ensures RootBackfillJobId(a) == RootBackfillJobId(b) ==> a == b
    ensures BackfillJobId(a) != BackfillPartialJobId(b)
    ensures BackfillJobId(a) != RootBackfillJobId(b)
    ensures BackfillPartialJobId(a) != RootBackfillJobId(b)
  {
    if BackfillJobId(a) == BackfillJobId(b) { PrefixedDecimalInjective("backfill:", a, b); }
    if BackfillPartialJobId(a) == BackfillPartialJobId(b) { PrefixedDecimalInjective("backfill:partial:", a, b); }
    if RootBackfillJobId(a) == RootBackfillJobId(b) { PrefixedDecimalInjective("backfill:root:", a, b); }
    PrefixedDecimalNotLetter("backfill:", "partial:", a, Numerals.Decimal(b));
    assert BackfillPartialJobId(b) == "backfill:" + "partial:" + Numerals.Decimal(b);
    PrefixedDecimalNotLetter("backfill:", "root:", a, Numerals.Decimal(b));
    assert RootBackfillJobId(b) == "backfill:" + "root:" + Numerals.Decimal(b);
    assert BackfillPartialJobId(a)[9] == 'p' && RootBackfillJobId(b)[9] == 'r';
  }

  function IdString(id: JobId): string {
    match id
    case FullBackfillId(fid) => BackfillJobId(fid)
    case PartialBackfillId(fid) => BackfillPartialJobId(fid)
    case RootBackfillId(fid) => RootBackfillJobId(fid)
  }

  /** Two job ids are the same string exactly when they name the same family and fid. */
  lemma IdStringInjective(a: JobId, b: JobId)
    ensures IdString(a) == IdString(b) <==> a == b
  {
    JobIdsDistinct(a.fid, b.fid);
    JobIdsDistinct(b.fid, a.fid);
  }

  /**
   * `queueBackfillJob(fid, queue, {priority, partial, removeMessages})`: one job on the
   * backfill queue, under the partial id exactly when `partial` is truthy.
   */
  function QueueBackfillJob(jobs: seq<JobRequest>, fid: Fid, priority: Option<nat>,
                            partial: Option<bool>, removeMessages: Option<bool>): (r: seq<JobRequest>)
    ensures |r| == |jobs| + 1 && r[..|jobs|] == jobs
    ensures r[|jobs|].queue == BackfillQueue
    ensures r[|jobs|].data == BackfillData(fid, partial, removeMessages)
    ensures r[|jobs|].jobId == Some(if partial == Some(true) then PartialBackfillId(fid) else FullBackfillId(fid))
    ensures priority.None? ==> r[|jobs|].priority == Some(DefaultPriority)
    ensures priority.Some? ==> r[|jobs|].priority == priority
  {
    var id := if partial == Some(true) then PartialBackfillId(fid) else FullBackfillId(fid);
    var p := if priority.Some? then priority.value else DefaultPriority;
    jobs + [JobRequest(BackfillQueue, Some(id), Some(p), BackfillData(fid, partial, removeMessages))]
  }
}
