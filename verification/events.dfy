/**
 * The stream handler (src/lib/event.ts): a batch of hub events is sorted into nine buckets
 * by message type, and the buckets are written one after the other. Also the event-id
 * arithmetic both event files share.
 */
module LibEvent {
  import opened Wrappers
  import opened Numerals
  import opened Protocol
  import opened Seqs
  import opened Store
  import ApiCast
  import ProcessorsVerification
  import ApiUserData
  import ApiReaction
  import ApiLink

  /** The nine arrays `handleEvents` fills. */
  datatype Bucket =
    | CastAdds | CastRemoves
    | VerificationAdds | VerificationRemoves
    | UserDataAdds
    | ReactionAdds | ReactionRemoves
    | LinkAdds | LinkRemoves

  /** The bucket a merged message of this type is pushed onto; `None` for the types the switch only logs. */
  function BucketOf(t: MessageType): (b: Option<Bucket>)
    ensures b.Some? <==> !t.OtherType? && t != LinkCompactState
  {
    match t
    case CastAdd => Some(CastAdds)
    case CastRemove => Some(CastRemoves)
    case VerificationAddAddress => Some(VerificationAdds)
    case VerificationRemove => Some(VerificationRemoves)
    case UserDataAdd => Some(UserDataAdds)
    case ReactionAdd => Some(ReactionAdds)
    case ReactionRemove => Some(ReactionRemoves)
    case LinkAdd => Some(LinkAdds)
    case LinkRemove => Some(LinkRemoves)
    case _ => None
  }

  /** The messages of the MERGE_MESSAGE events, in event order; every other event carries none. */
  function Merged(events: seq<HubEvent>): seq<Message>
    decreases |events|
  {
    if |events| == 0 then []
    else
      var e := events[|events| - 1];
      Merged(events[..|events| - 1]) + (if e.body.MergeMessage? then [e.body.message] else [])
  }

  predicate Sorts(b: Bucket, m: Message) {
    BucketOf(m.data.mtype) == Some(b)
  }

  /** Reference definition of a bucket: the merged messages of its type, in event order. */
  function InBucket(events: seq<HubEvent>, b: Bucket): seq<Message> {
    Filter(Merged(events), m => Sorts(b, m))
  }

  /** An event adds its message to a bucket exactly when it is a merge of that bucket's type. */
  function Contributes(e: HubEvent, b: Bucket): seq<Message> {
    if e.body.MergeMessage? && Sorts(b, e.body.message) then [e.body.message] else []
  }

  /** Handling one more event appends its message to its own bucket and leaves the other eight alone. */
  lemma InBucketSnoc(events: seq<HubEvent>, e: HubEvent, b: Bucket)
    ensures InBucket(events + [e], b) == InBucket(events, b) + Contributes(e, b)
  {
    var s := events + [e];
    assert s[..|s| - 1] == events;
    var tail := if e.body.MergeMessage? then [e.body.message] else [];
    FilterAppend(Merged(events), tail, m => Sorts(b, m));
    if e.body.MergeMessage? {
      assert tail == [] + [e.body.message];
      assert [e.body.message][..0] == [];
    }
  }

  /** One pass of the loop body: a merged message of a known type goes onto the end of its bucket. */
  function Push(buckets: map<Bucket, seq<Message>>, e: HubEvent): map<Bucket, seq<Message>>
    requires forall b: Bucket :: b in buckets
  {
    if e.body.MergeMessage? && BucketOf(e.body.message.data.mtype).Some? then
      var target := BucketOf(e.body.message.data.mtype).value;
      buckets[target := buckets[target] + [e.body.message]]
    else buckets
  }

  /** The loop body adds to each bucket exactly what the event contributes to it. */
  lemma PushContributes(buckets: map<Bucket, seq<Message>>, e: HubEvent)
    requires forall b: Bucket :: b in buckets
    ensures forall b: Bucket :: b in Push(buckets, e) && Push(buckets, e)[b] == buckets[b] + Contributes(e, b)
  {
    forall b: Bucket ensures b in Push(buckets, e) && Push(buckets, e)[b] == buckets[b] + Contributes(e, b) {
      if !(e.body.MergeMessage? && Sorts(b, e.body.message)) {
        assert Contributes(e, b) == [];
        assert buckets[b] + [] == buckets[b];
      }
    }
  }

  /**
   * The loop of `handleEvents` (lines 38-107): each merged message is pushed onto the bucket of
   * its type; other merge types and other event types push nothing and never throw.
   */
  method Classify(events: seq<HubEvent>) returns (buckets: map<Bucket, seq<Message>>)
    ensures forall b: Bucket :: b in buckets && buckets[b] == InBucket(events, b)
  {
    buckets := map[CastAdds := [], CastRemoves := [], VerificationAdds := [], VerificationRemoves := [],
                   UserDataAdds := [], ReactionAdds := [], ReactionRemoves := [], LinkAdds := [], LinkRemoves := []];
    var i := 0;
    forall b: Bucket ensures b in buckets && InBucket(events[..0], b) == [] {
      InWriteOrder(b);
      assert events[..0] == [];
    }
    while i < |events|
      invariant 0 <= i <= |events|
      invariant forall b: Bucket :: b in buckets && buckets[b] == InBucket(events[..i], b)
    {
      var e := events[i];
      forall b: Bucket ensures InBucket(events[..i + 1], b) == InBucket(events[..i], b) + Contributes(e, b) {
        assert events[..i + 1] == events[..i] + [e];
        InBucketSnoc(events[..i], e, b);
      }
      PushContributes(buckets, e);
      buckets := Push(buckets, e);
      i := i + 1;
    }
    assert events[..i] == events;
  }

  /** A message is in a bucket exactly when it was merged and has that bucket's type: one bucket at most. */
  lemma BucketMembership(events: seq<HubEvent>, b: Bucket, m: Message)
    ensures m in InBucket(events, b) <==> m in Merged(events) && Sorts(b, m)
  {
    if m in Merged(events) && Sorts(b, m) {
      FilterKeeps(Merged(events), m => Sorts(b, m), m);
    }
  }

  /** The order of the writes after the loop (lines 109-117). */
  const WriteOrder: seq<Bucket> :=
    [CastAdds, CastRemoves, VerificationAdds, VerificationRemoves, UserDataAdds,
     ReactionAdds, ReactionRemoves, LinkAdds, LinkRemoves]

  lemma InWriteOrder(b: Bucket)
    ensures b in WriteOrder
  {
    match b
    case CastAdds =>
    case CastRemoves =>
    case VerificationAdds =>
    case VerificationRemoves =>
    case UserDataAdds =>
    case ReactionAdds =>
    case ReactionRemoves =>
    case LinkAdds =>
    case LinkRemoves =>
  }

  /** The position of each bucket's write in `WriteOrder`. */
  function WritePosition(b: Bucket): nat {
    match b
    case CastAdds => 0
    case CastRemoves => 1
    case VerificationAdds => 2
    case VerificationRemoves => 3
    case UserDataAdds => 4
    case ReactionAdds => 5
    case ReactionRemoves => 6
    case LinkAdds => 7
    case LinkRemoves => 8
  }

  /** Every bucket is written, and written once. */
  lemma WriteOrderCoversEachOnce(b: Bucket)
    ensures b in WriteOrder
    ensures NoDuplicates(WriteOrder)
  {
    assert WriteOrder[WritePosition(b)] == b;
    forall i | 0 <= i < |WriteOrder| ensures WritePosition(WriteOrder[i]) == i { }
  }

  /**
   * The writer each bucket goes to. The links are inserted with the default source, so no
   * follow-up backfill is queued from here; verifications use the stream writers.
   */
  function Write(env: Env, w: World, b: Bucket, msgs: seq<Message>): (r: Effect)
    ensures r.world.targets == w.targets && r.world.flows == w.flows && r.world.cursor == w.cursor
    ensures w.jobs <= r.world.jobs
    ensures b != ReactionAdds ==> r.world.jobs == w.jobs
  {
    match b
    case CastAdds => ApiCast.InsertCasts(env, w, msgs)
    case CastRemoves => ApiCast.DeleteCasts(env, w, msgs)
    case VerificationAdds => ProcessorsVerification.InsertVerifications(env, w, msgs)
    case VerificationRemoves => ProcessorsVerification.DeleteVerifications(env, w, msgs)
    case UserDataAdds => ApiUserData.InsertUserDatas(env, w, msgs)
    case ReactionAdds => ApiReaction.InsertReactions(env, w, msgs)
    case ReactionRemoves => ApiReaction.DeleteReactions(env, w, msgs)
    case LinkAdds => ApiLink.InsertLinks(env, w, msgs, ApiLink.FromBackfill)
    case LinkRemoves => ApiLink.DeleteLinks(env, w, msgs)
  }

  /** The awaited writes in order; a throw skips every later write but keeps the earlier ones. */
  function WriteAll(env: Env, w: World, order: seq<Bucket>, buckets: map<Bucket, seq<Message>>): (r: Effect)
    requires forall i :: 0 <= i < |order| ==> order[i] in buckets
    ensures r.world.targets == w.targets && r.world.flows == w.flows && r.world.cursor == w.cursor
    ensures w.jobs <= r.world.jobs
    ensures |order| == 0 ==> r == Effect(w, None)
    decreases |order|
  {
    if |order| == 0 then Effect(w, None)
    else
      var first := Write(env, w, order[0], buckets[order[0]]);
      Then(first, (w': World) => WriteAll(env, w', order[1..], buckets))
  }

  lemma {:induction false} WriteAllAppend(env: Env, w: World, a: seq<Bucket>, b: seq<Bucket>,
                                          buckets: map<Bucket, seq<Message>>)
    requires forall i :: 0 <= i < |a| ==> a[i] in buckets
    requires forall i :: 0 <= i < |b| ==> b[i] in buckets
    ensures forall i :: 0 <= i < |a + b| ==> (a + b)[i] in buckets
    ensures WriteAll(env, w, a + b, buckets) == Then(WriteAll(env, w, a, buckets), (w': World) => WriteAll(env, w', b, buckets))
    decreases |a|
  {
    assert forall i :: 0 <= i < |a + b| ==> (a + b)[i] in buckets by {
      forall i | 0 <= i < |a + b| ensures (a + b)[i] in buckets {
        if i < |a| { assert (a + b)[i] == a[i]; } else { assert (a + b)[i] == b[i - |a|]; }
      }
    }
    if |a| == 0 {
      assert a + b == b;
    } else {
      assert (a + b)[0] == a[0] && (a + b)[1..] == a[1..] + b;
      var first := Write(env, w, a[0], buckets[a[0]]);
      if first.error.None? {
        WriteAllAppend(env, first.world, a[1..], b, buckets);
      }
    }
  }

  function Buckets(events: seq<HubEvent>): (r: map<Bucket, seq<Message>>)
    ensures forall i :: 0 <= i < |WriteOrder| ==> WriteOrder[i] in r
  {
    map b: Bucket | b in WriteOrder :: InBucket(events, b)
  }

  /**
   * `handleEvents`: sort the batch, then write the nine buckets in order. Nothing but the
   * tables and the job queue can change: no target, flow or cursor is touched.
   */
  function HandleEvents(env: Env, w: World, events: seq<HubEvent>): (r: Effect)
    ensures r.world.targets == w.targets && r.world.flows == w.flows && r.world.cursor == w.cursor
    ensures w.jobs <= r.world.jobs
  {
    WriteAll(env, w, WriteOrder, Buckets(events))
  }

  /** Prunes, revokes, on-chain merges, unknown events and unhandled message types change nothing. */
  lemma IgnoredEventChangesNothing(env: Env, w: World, events: seq<HubEvent>, e: HubEvent)
    requires !e.body.MergeMessage? || BucketOf(e.body.message.data.mtype).None?
    ensures HandleEvents(env, w, events + [e]) == HandleEvents(env, w, events)
  {
    forall b: Bucket ensures InBucket(events + [e], b) == InBucket(events, b) {
      InBucketSnoc(events, e, b);
    }
    assert Buckets(events + [e]) == Buckets(events);
  }

  /** The writes are sequential: when inserting the casts throws, no later bucket is written. */
  lemma FirstFailureStopsTheRest(env: Env, w: World, events: seq<HubEvent>)
    requires ApiCast.InsertCasts(env, w, InBucket(events, CastAdds)).error.Some?
    ensures HandleEvents(env, w, events) == ApiCast.InsertCasts(env, w, InBucket(events, CastAdds))
  {
    var bs := Buckets(events);
    assert WriteOrder == [CastAdds] + WriteOrder[1..];
    WriteAllAppend(env, w, [CastAdds], WriteOrder[1..], bs);
    assert [CastAdds][1..] == [];
  }

  /** The bit count of the sequence number appended to the timestamp. */
  const SequenceBits: nat := 12

  /** `Number.prototype.toString(2)` for any integer: the magnitude's digits after a minus sign when negative. */
  function Binary(n: int): string {
    if n < 0 then "-" + Numeral(-n, 2) else Numeral(n, 2)
  }

  function Zeros(n: nat): (z: string)
    ensures |z| == n && AllDigitsIn(z, 2)
  {
    if n == 0 then "" else Zeros(n - 1) + "0"
  }

  /** The padding loop of `makeLatestEventId`: zeros in front until the string is `width` long. */
  function PadStart(s: string, width: nat): (r: string)
    ensures |s| < width ==> r == Zeros(width - |s|) + s
    ensures |s| >= width ==> r == s
    decreases width - |s|
  {
    if |s| < width then
      var r := PadStart("0" + s, width);
      assert Zeros(width - |s| - 1) + ("0" + s) == Zeros(width - |s|) + s;
      r
    else s
  }

  lemma {:induction false} ZerosValue(n: nat)
    ensures ValueIn(Zeros(n), 2) == 0
  {
    if n > 0 {
      ZerosValue(n - 1);
      ValueInSnoc(Zeros(n - 1), '0', 2);
    }
  }

  /** `makeLatestEventId`: the binary timestamp since the Farcaster epoch, then the zero sequence number padded to 12 bits, read back in base 2. */
  function MakeLatestEventId(now: int): JsNumber {
    var timestamp := now - FarcasterEpoch;
    var binarySeq := Numeral(0, 2);
    var padded := if |binarySeq| > 0 then PadStart(binarySeq, SequenceBits) else binarySeq;
    ParseInt(Binary(timestamp) + padded, 2)
  }

  lemma TwelveBits()
    ensures Pow(2, SequenceBits) == 4096
  {
    assert Pow(2, 4) == 16;
    assert Pow(2, 8) == 256;
  }

  /** The digits of a non-negative timestamp followed by zeros parse as the timestamp shifted left. */
  lemma ShiftedValue(n: nat, z: string)
    requires z == Zeros(SequenceBits)
    ensures AllDigitsIn(Numeral(n, 2) + z, 2)
    ensures DigitPrefix(Numeral(n, 2) + z, 2) == |Numeral(n, 2) + z|
    ensures ValueIn(Numeral(n, 2) + z, 2) == n * 4096
  {
    var a := Numeral(n, 2);
    ValueInAppend(a, z, 2);
    DigitPrefixAll(a + z, 2);
    NumeralValue(n, 2);
    ZerosValue(SequenceBits);
    TwelveBits();
  }

  /** A non-negative timestamp: no sign, so every character is a base-2 digit. */
  lemma ParseShifted(n: nat)
    ensures ParseInt(Numeral(n, 2) + Zeros(SequenceBits), 2) == Num(n * 4096)
  {
    ShiftedValue(n, Zeros(SequenceBits));
    ParseDigitRun(Numeral(n, 2) + Zeros(SequenceBits), 2, 2);
  }

  /** A negative timestamp: the sign is dropped, the magnitude read, and the result negated. */
  lemma ParseShiftedNegative(n: nat)
    ensures ParseInt("-" + Numeral(n, 2) + Zeros(SequenceBits), 2) == Num(-(n * 4096))
  {
    var body := Numeral(n, 2) + Zeros(SequenceBits);
    assert "-" + Numeral(n, 2) + Zeros(SequenceBits) == "-" + body;
    assert ParseInt("-" + body, 2) == Num(-(n * 4096)) by {
      ShiftedValue(n, Zeros(SequenceBits));
      ParseNegativeDigitRun(body, 2, 2);
    }
  }

  /** The id is the timestamp since the Farcaster epoch times 2^12, for a clock before the epoch too. */
  lemma MakeLatestEventIdValue(now: int)
    ensures MakeLatestEventId(now) == Num((now - FarcasterEpoch) * 4096)
  {
    var ts := now - FarcasterEpoch;
    assert Numeral(0, 2) == "0";
    assert PadStart("0", SequenceBits) == Zeros(SequenceBits) by {
      assert Zeros(SequenceBits - 1) + "0" == Zeros(SequenceBits);
    }
    if ts >= 0 {
      ParseShifted(ts);
    } else {
      ParseShiftedNegative(-ts);
    }
  }

  /** The sequence bits of the id are all zero. */
  lemma MakeLatestEventIdLowBits(now: int)
    ensures MakeLatestEventId(now).Num? && MakeLatestEventId(now).n % 4096 == 0
  {
    MakeLatestEventIdValue(now);
    ShiftedIsMultiple(now - FarcasterEpoch);
  }

  lemma ShiftedIsMultiple(k: int)
    ensures (k * 4096) % 4096 == 0
  {
  }

  /** A later clock never gives a smaller id. */
  lemma MakeLatestEventIdMonotone(now1: int, now2: int)
    requires now1 <= now2
    ensures MakeLatestEventId(now1).Num? && MakeLatestEventId(now2).Num?
    ensures MakeLatestEventId(now1).n <= MakeLatestEventId(now2).n
  {
    MakeLatestEventIdValue(now1);
    MakeLatestEventIdValue(now2);
  }
}

/** The event cursor (src/processors/event.ts): one Redis cell holding the last event id as text. */
module ProcessorsEvent {
  import opened Wrappers
  import opened Numerals
  import opened Store

  /** `saveLatestEventId`: `SET` stores `String(eventId)`, overwriting whatever was there. */
  function SaveLatestEventId(w: World, eventId: int): (r: World)
    ensures r.cursor.Some? && r == w.(cursor := r.cursor)
  {
    w.(cursor := Some(IntString(eventId)))
  }

  /** `getLatestEvent`: a missing or empty cell is `undefined`; anything else goes through `parseInt`. */
  function GetLatestEvent(w: World): (r: Option<JsNumber>)
    ensures r.None? <==> w.cursor.None? || w.cursor.value == ""
    ensures r.Some? ==> r.value == ParseInt(w.cursor.value, 0)
  {
    match w.cursor
    case None => None
    case Some(s) => if s == "" then None else Some(ParseInt(s, 0))
  }

  /** Reading the cursor back after saving an integer gives that integer. */
  lemma SaveThenGet(w: World, eventId: int)
    ensures GetLatestEvent(SaveLatestEventId(w, eventId)) == Some(Num(eventId))
  {
    IntStringRoundTrip(eventId);
  }

  /** Nothing keeps the cursor from going backwards: the last save wins, whatever its value. */
  lemma LastSaveWins(w: World, a: int, b: int)
    ensures SaveLatestEventId(SaveLatestEventId(w, a), b) == SaveLatestEventId(w, b)
    ensures GetLatestEvent(SaveLatestEventId(SaveLatestEventId(w, a), b)) == Some(Num(b))
  {
    SaveThenGet(w, b);
  }
}
