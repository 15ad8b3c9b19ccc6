/**
 * The pure helpers of the indexer (src/lib/utils.ts): the row mappers from hub messages to
 * table rows, the last-wins dedupe of user data, array chunking and the two checks that turn
 * hub error results into empty values.
 */
module Utils {
  import opened Wrappers
  import opened Protocol
  import opened Seqs
  import Numerals

  /** `MAX_PAGE_SIZE` of the RPC page walks. */
  const MaxPageSize: nat := 10000

  /** `NULL_ETH_ADDRESS`: twenty zero bytes. */
  const NullEthAddress: Bytes := [0, 0, 0, 0, 0, 0, 0, 0, 0, 0, 0, 0, 0, 0, 0, 0, 0, 0, 0, 0]

  datatype CastRow = CastRow(
    timestamp: int, fid: Fid, parentFid: Option<Fid>, hash: Bytes, parentHash: Option<Bytes>,
    parentUrl: Option<string>, text: string, embeds: seq<string>, mentions: seq<Fid>,
    mentionsPositions: seq<nat>)

  datatype ReactionRow = ReactionRow(
    timestamp: int, fid: Fid, targetCastFid: Option<Fid>, reactionType: int, hash: Bytes,
    targetCastHash: Option<Bytes>, targetUrl: Option<string>)

  datatype LinkRow = LinkRow(
    timestamp: int, fid: Fid, targetFid: Option<Fid>, displayTimestamp: Option<int>,
    linkType: string, hash: Bytes)

  datatype VerificationRow = VerificationRow(
    timestamp: int, fid: Fid, hash: Bytes, signerAddress: Bytes, blockHash: Bytes, signature: Bytes)

  datatype UserDataRow = UserDataRow(timestamp: int, fid: Fid, userDataType: int, hash: Bytes, value: string)

  /**
   * `msgs.map(f)` where `f` may throw: every row in input order, or the error of the first
   * message that fails.
   */
  function FormatAll<R>(msgs: seq<Message>, f: Message -> Result<R, Error>): (r: Result<seq<R>, Error>)
    ensures r.Ok? <==> forall i :: 0 <= i < |msgs| ==> f(msgs[i]).Ok?
    ensures r.Ok? ==> |r.value| == |msgs| && forall i :: 0 <= i < |msgs| ==> f(msgs[i]) == Ok(r.value[i])
    ensures r.Err? ==> exists i :: 0 <= i < |msgs| && f(msgs[i]) == Err(r.error)
                                  && forall j :: 0 <= j < i ==> f(msgs[j]).Ok?
    decreases |msgs|
  {
    if |msgs| == 0 then Ok([])
    else
      var prefix := msgs[..|msgs| - 1];
      assert forall j :: 0 <= j < |prefix| ==> prefix[j] == msgs[j];
      match FormatAll(prefix, f)
      case Err(e) => Err(e)
      case Ok(rows) =>
        match f(msgs[|msgs| - 1])
        case Err(e) => Err(e)
        case Ok(row) => Ok(rows + [row])
  }

  function MapOption<A, B>(o: Option<A>, f: A -> B): Option<B> {
    match o
    case None => None
    case Some(a) => Some(f(a))
  }

  /** One cast row; the timestamp is converted first, then the cast-add body is read. */
  function FormatCast(toDate: DateFn, m: Message): Result<CastRow, Error> {
    match ToDate(toDate, m.data.timestamp)
    case Err(e) => Err(e)
    case Ok(ts) =>
      if !m.data.body.CastAddBody? then Err(MissingField)
      else
        var b := m.data.body;
        Ok(CastRow(ts, m.data.fid, MapOption(b.parentCastId, (c: CastId) => c.fid), m.hash,
                   MapOption(b.parentCastId, (c: CastId) => c.hash), b.parentUrl, b.text, b.embeds,
                   b.mentions, b.mentionsPositions))
  }

  /** `formatCasts`: one row per message, in input order, copying hash, author and text. */
  function FormatCasts(toDate: DateFn, msgs: seq<Message>): (r: Result<seq<CastRow>, Error>)
    ensures r.Ok? <==> forall i :: 0 <= i < |msgs| ==>
                         msgs[i].data.body.CastAddBody? && toDate(msgs[i].data.timestamp).Some?
    ensures r.Ok? ==> |r.value| == |msgs|
    ensures r.Ok? ==> forall i :: 0 <= i < |msgs| ==>
                        r.value[i].hash == msgs[i].hash && r.value[i].fid == msgs[i].data.fid
                        && r.value[i].timestamp == toDate(msgs[i].data.timestamp).value
                        && r.value[i].text == msgs[i].data.body.text
                        && r.value[i].mentions == msgs[i].data.body.mentions
                        && r.value[i].parentHash == MapOption(msgs[i].data.body.parentCastId, (c: CastId) => c.hash)
  {
    FormatAll(msgs, m => FormatCast(toDate, m))
  }

  function FormatReaction(toDate: DateFn, m: Message): Result<ReactionRow, Error> {
    match ToDate(toDate, m.data.timestamp)
    case Err(e) => Err(e)
    case Ok(ts) =>
      if !m.data.body.ReactionBody? then Err(MissingField)
      else
        var b := m.data.body;
        Ok(ReactionRow(ts, m.data.fid, MapOption(b.targetCastId, (c: CastId) => c.fid), b.reactionType,
                       m.hash, MapOption(b.targetCastId, (c: CastId) => c.hash), b.targetUrl))
  }

  /** `formatReactions`: one row per message, in input order, copying hash, author and target. */
  function FormatReactions(toDate: DateFn, msgs: seq<Message>): (r: Result<seq<ReactionRow>, Error>)
    ensures r.Ok? <==> forall i :: 0 <= i < |msgs| ==>
                         msgs[i].data.body.ReactionBody? && toDate(msgs[i].data.timestamp).Some?
    ensures r.Ok? ==> |r.value| == |msgs|
    ensures r.Ok? ==> forall i :: 0 <= i < |msgs| ==>
                        r.value[i].hash == msgs[i].hash && r.value[i].fid == msgs[i].data.fid
                        && r.value[i].timestamp == toDate(msgs[i].data.timestamp).value
                        && r.value[i].reactionType == msgs[i].data.body.reactionType
                        && r.value[i].targetCastHash == MapOption(msgs[i].data.body.targetCastId, (c: CastId) => c.hash)
                        && r.value[i].targetCastFid == MapOption(msgs[i].data.body.targetCastId, (c: CastId) => c.fid)
                        && r.value[i].targetUrl == msgs[i].data.body.targetUrl
  {
    FormatAll(msgs, m => FormatReaction(toDate, m))
  }

  /**
   * One link row: the timestamp, then the link body, then the display timestamp, which is
   * converted only when it is truthy (present and not zero) and is null otherwise.
   */
  function FormatLink(toDate: DateFn, m: Message): Result<LinkRow, Error> {
    match ToDate(toDate, m.data.timestamp)
    case Err(e) => Err(e)
    case Ok(ts) =>
      if !m.data.body.LinkBody? then Err(MissingField)
      else
        var b := m.data.body;
        if TruthyNat(b.displayTimestamp) then
          match ToDate(toDate, b.displayTimestamp.value)
          case Err(e) => Err(e)
          case Ok(d) => Ok(LinkRow(ts, m.data.fid, b.targetFid, Some(d), b.linkType, m.hash))
        else Ok(LinkRow(ts, m.data.fid, b.targetFid, None, b.linkType, m.hash))
  }

  /** `formatLinks`: one row per message; the display timestamp is null exactly when it is 0 or absent. */
  function FormatLinks(toDate: DateFn, msgs: seq<Message>): (r: Result<seq<LinkRow>, Error>)
    ensures r.Ok? ==> forall i :: 0 <= i < |msgs| ==> msgs[i].data.body.LinkBody?
    ensures r.Ok? ==> |r.value| == |msgs|
    ensures r.Ok? ==> forall i :: 0 <= i < |msgs| ==>
                        r.value[i].hash == msgs[i].hash && r.value[i].fid == msgs[i].data.fid
                        && r.value[i].targetFid == msgs[i].data.body.targetFid
                        && r.value[i].linkType == msgs[i].data.body.linkType
                        && (r.value[i].displayTimestamp.None? <==> !TruthyNat(msgs[i].data.body.displayTimestamp))
    ensures (forall i :: 0 <= i < |msgs| ==>
               (msgs[i].data.body.LinkBody? && toDate(msgs[i].data.timestamp).Some?
                && (TruthyNat(msgs[i].data.body.displayTimestamp) ==>
                      toDate(msgs[i].data.body.displayTimestamp.value).Some?))) ==> r.Ok?
  {
    FormatAll(msgs, m => FormatLink(toDate, m))
  }

  function FormatVerification(toDate: DateFn, m: Message): Result<VerificationRow, Error> {
    match ToDate(toDate, m.data.timestamp)
    case Err(e) => Err(e)
    case Ok(ts) =>
      if !m.data.body.VerificationAddAddressBody? then Err(MissingField)
      else
        var b := m.data.body;
        Ok(VerificationRow(ts, m.data.fid, m.hash, b.address, b.blockHash, b.claimSignature))
  }

  /** `formatVerifications`: one row per message, in input order, copying hash, author and address. */
  function FormatVerifications(toDate: DateFn, msgs: seq<Message>): (r: Result<seq<VerificationRow>, Error>)
    ensures r.Ok? <==> forall i :: 0 <= i < |msgs| ==>
                         msgs[i].data.body.VerificationAddAddressBody? && toDate(msgs[i].data.timestamp).Some?
    ensures r.Ok? ==> |r.value| == |msgs|
    ensures r.Ok? ==> forall i :: 0 <= i < |msgs| ==>
                        r.value[i].hash == msgs[i].hash && r.value[i].fid == msgs[i].data.fid
                        && r.value[i].signerAddress == msgs[i].data.body.address
  {
    FormatAll(msgs, m => FormatVerification(toDate, m))
  }

  /* ---------- user data: one row per (fid, type), the last message winning ---------- */

  predicate AllUserData(msgs: seq<Message>) {
    forall i :: 0 <= i < |msgs| ==> msgs[i].data.body.UserDataBody?
  }

  /** The (fid, type) a user-data message is about. */
  function UserDataKey(m: Message): (Fid, int)
    requires m.data.body.UserDataBody?
  {
    (m.data.fid, m.data.body.userDataType)
  }

  /** The map key the code builds, `fid:${fid}-type:${type}`. */
  function KeyString(fid: Fid, t: int): string {
    "fid:" + Numerals.Decimal(fid) + "-type:" + Numerals.IntString(t)
  }

  /** Position of the entry with key `k`, if any. */
  function IndexOfKey(acc: seq<Message>, k: (Fid, int)): (r: Option<nat>)
    requires AllUserData(acc)
    ensures r.Some? ==> r.value < |acc| && UserDataKey(acc[r.value]) == k
    ensures r.None? ==> forall i :: 0 <= i < |acc| ==> UserDataKey(acc[i]) != k
    decreases |acc|
  {
    if |acc| == 0 then None
    else if UserDataKey(acc[|acc| - 1]) == k then Some(|acc| - 1)
    else IndexOfKey(acc[..|acc| - 1], k)
  }

  /** `Map.set`: an existing key keeps its position and takes the new value; a new key goes last. */
  function Put(acc: seq<Message>, m: Message): (r: seq<Message>)
    requires AllUserData(acc) && m.data.body.UserDataBody?
    ensures AllUserData(r)
  {
    match IndexOfKey(acc, UserDataKey(m))
    case Some(i) => acc[i := m]
    case None => acc + [m]
  }

  /** The values of the code's `userDataMap` after its loop, in the map's iteration order. */
  function DedupeLast(msgs: seq<Message>): (r: seq<Message>)
    requires AllUserData(msgs)
    ensures AllUserData(r)
    decreases |msgs|
  {
    if |msgs| == 0 then [] else Put(DedupeLast(msgs[..|msgs| - 1]), msgs[|msgs| - 1])
  }

  /** Reference: the distinct keys of the messages, in order of first appearance. */
  function Keys(msgs: seq<Message>): seq<(Fid, int)>
    requires AllUserData(msgs)
    decreases |msgs|
  {
    if |msgs| == 0 then []
    else
      var ks := Keys(msgs[..|msgs| - 1]);
      var k := UserDataKey(msgs[|msgs| - 1]);
      if k in ks then ks else ks + [k]
  }

  /** Reference: the last message with key `k`. */
  function LastWith(msgs: seq<Message>, k: (Fid, int)): (r: Option<Message>)
    requires AllUserData(msgs)
    ensures r.Some? ==> r.value in msgs && r.value.data.body.UserDataBody? && UserDataKey(r.value) == k
    decreases |msgs|
  {
    if |msgs| == 0 then None
    else if UserDataKey(msgs[|msgs| - 1]) == k then Some(msgs[|msgs| - 1])
    else LastWith(msgs[..|msgs| - 1], k)
  }

  /** A key is listed exactly when some message carries it, and never twice. */
  lemma {:induction false} KeysSpec(msgs: seq<Message>)
    requires AllUserData(msgs)
    ensures NoDuplicates(Keys(msgs))
    ensures forall k :: k in Keys(msgs) <==> LastWith(msgs, k).Some?
    decreases |msgs|
  {
    if |msgs| > 0 {
      KeysSpec(msgs[..|msgs| - 1]);
    }
  }

  /**
   * The dedupe keeps one message per key, in first-appearance order of the keys, and the
   * message kept is the last one with that key.
   */
  lemma {:induction false} DedupeLastSpec(msgs: seq<Message>)
    requires AllUserData(msgs)
    ensures |DedupeLast(msgs)| == |Keys(msgs)|
    ensures forall i :: 0 <= i < |Keys(msgs)| ==>
              UserDataKey(DedupeLast(msgs)[i]) == Keys(msgs)[i]
              && LastWith(msgs, Keys(msgs)[i]) == Some(DedupeLast(msgs)[i])
    decreases |msgs|
  {
    if |msgs| > 0 {
      var p := msgs[..|msgs| - 1];
      var m := msgs[|msgs| - 1];
      var k := UserDataKey(m);
      DedupeLastSpec(p);
      KeysSpec(p);
      var d, ks := DedupeLast(p), Keys(p);
      match IndexOfKey(d, k)
      case Some(j) =>
        assert ks[j] == k;
        assert DedupeLast(msgs) == d[j := m];
        assert Keys(msgs) == ks;
        forall i | 0 <= i < |ks|
          ensures UserDataKey(DedupeLast(msgs)[i]) == ks[i] && LastWith(msgs, ks[i]) == Some(DedupeLast(msgs)[i])
        {
          if i != j {
            assert ks[i] != k;
          }
        }
      case None =>
        forall i | 0 <= i < |ks| ensures ks[i] != k {
          assert UserDataKey(d[i]) == ks[i];
        }
        assert k !in ks;
        assert DedupeLast(msgs) == d + [m];
        assert Keys(msgs) == ks + [k];
        forall i | 0 <= i < |ks|
          ensures LastWith(msgs, ks[i]) == LastWith(p, ks[i])
        {
          assert ks[i] != k;
        }
    }
  }

  function FormatUserData(toDate: DateFn, m: Message): Result<UserDataRow, Error> {
    match ToDate(toDate, m.data.timestamp)
    case Err(e) => Err(e)
    case Ok(ts) =>
      if !m.data.body.UserDataBody? then Err(MissingField)
      else Ok(UserDataRow(ts, m.data.fid, m.data.body.userDataType, m.hash, m.data.body.value))
  }

  /**
   * `formatUserDatas`: the keying loop reads every message's user-data body (a message without
   * one throws), then only the surviving messages are converted to rows.
   */
  function FormatUserDatas(toDate: DateFn, msgs: seq<Message>): (r: Result<seq<UserDataRow>, Error>)
    ensures !AllUserData(msgs) ==> r == Err(MissingField)
    ensures r.Ok? <==> AllUserData(msgs) && forall i :: 0 <= i < |Keys(msgs)| ==>
              LastWith(msgs, Keys(msgs)[i]).Some? && toDate(LastWith(msgs, Keys(msgs)[i]).value.data.timestamp).Some?
    ensures r.Ok? ==> AllUserData(msgs) && |r.value| == |Keys(msgs)|
    ensures r.Ok? ==> forall i :: 0 <= i < |r.value| ==>
              var last := LastWith(msgs, Keys(msgs)[i]);
              last.Some?
              && (r.value[i].fid, r.value[i].userDataType) == Keys(msgs)[i]
              && r.value[i].hash == last.value.hash
              && last.value.data.body == UserDataBody(r.value[i].userDataType, r.value[i].value)
              && toDate(last.value.data.timestamp) == Some(r.value[i].timestamp)
  {
    if !AllUserData(msgs) then Err(MissingField)
    else
      DedupeLastSpec(msgs);
      var d := DedupeLast(msgs);
      assert forall i :: 0 <= i < |d| ==> (FormatUserData(toDate, d[i]).Ok? <==> toDate(d[i].data.timestamp).Some?);
      FormatAll(d, m => FormatUserData(toDate, m))
  }

  /** No two output rows share a (fid, type) key. */
  lemma FormatUserDatasDistinct(toDate: DateFn, msgs: seq<Message>)
    requires FormatUserDatas(toDate, msgs).Ok?
    ensures var rows := FormatUserDatas(toDate, msgs).value;
            forall i, j :: 0 <= i < j < |rows| ==>
              (rows[i].fid, rows[i].userDataType) != (rows[j].fid, rows[j].userDataType)
  {
    KeysSpec(msgs);
  }

  /** Position of the first `c` in `s`, or `|s|` when there is none. */
  function IndexOf(s: string, c: char): nat
    decreases |s|
  {
    if |s| == 0 || s[0] == c then 0 else 1 + IndexOf(s[1..], c)
  }

  lemma {:induction false} IndexOfSeparator(a: string, b: string, sep: char)
    requires sep !in a
    ensures IndexOf(a + [sep] + b, sep) == |a|
    decreases |a|
  {
    if |a| > 0 {
      assert (a + [sep] + b)[1..] == a[1..] + [sep] + b;
      IndexOfSeparator(a[1..], b, sep);
    }
  }

  /** Text on both sides of the first occurrence of a separator is recovered uniquely. */
  lemma SplitAtSeparator(a: string, b: string, c: string, d: string, sep: char)
    requires sep !in a && sep !in c
    requires a + [sep] + b == c + [sep] + d
    ensures a == c && b == d
  {
    var s := a + [sep] + b;
    IndexOfSeparator(a, b, sep);
    IndexOfSeparator(c, d, sep);
    assert a == s[..|a|] && c == s[..|c|];
    assert b == s[|a| + 1..] && d == s[|c| + 1..];
  }

  /** A decimal numeral has no minus sign in it. */
  lemma DecimalHasNoDash(n: nat)
    ensures '-' !in Numerals.Decimal(n)
  {
    var d := Numerals.Decimal(n);
    if '-' in d {
      var i :| 0 <= i < |d| && d[i] == '-';
      Numerals.DecimalChars(n, i);
    }
  }

  /** The code's string key is faithful to the (fid, type) pair: different pairs, different keys. */
  lemma KeyStringInjective(f1: Fid, t1: int, f2: Fid, t2: int)
    requires KeyString(f1, t1) == KeyString(f2, t2)
    ensures f1 == f2 && t1 == t2
  {
    var d1, d2 := Numerals.Decimal(f1), Numerals.Decimal(f2);
    var i1, i2 := Numerals.IntString(t1), Numerals.IntString(t2);
    var r1, r2 := "type:" + i1, "type:" + i2;
    var s1, s2 := d1 + ['-'] + r1, d2 + ['-'] + r2;
    assert KeyString(f1, t1) == "fid:" + s1;
    assert KeyString(f2, t2) == "fid:" + s2;
    assert s1 == ("fid:" + s1)[4..];
    assert s2 == ("fid:" + s2)[4..];
    DecimalHasNoDash(f1);
    DecimalHasNoDash(f2);
    SplitAtSeparator(d1, r1, d2, r2, '-');
    Numerals.DecimalInjective(f1, f2);
    assert i1 == r1[5..] && i2 == r2[5..];
    Numerals.IntStringRoundTrip(t1);
    Numerals.IntStringRoundTrip(t2);
  }

  /* ---------- chunking ---------- */

  /** Reference for `breakIntoChunks`: consecutive slices of `size` items, the last one possibly shorter. */
  function Chunks<T>(xs: seq<T>, size: nat): seq<seq<T>>
    requires size > 0
    decreases |xs|
  {
    if |xs| == 0 then []
    else if |xs| <= size then [xs]
    else [xs[..size]] + Chunks(xs[size..], size)
  }

  /**
   * The chunks flatten back to the input; each is non-empty and at most `size` long, all but
   * the last exactly `size`; there are none exactly when the input is empty.
   */
  lemma {:induction false} ChunksShape<T>(xs: seq<T>, size: nat)
    requires size > 0
    ensures var r := Chunks(xs, size);
            && Flatten(r) == xs
            && (forall i :: 0 <= i < |r| ==> 0 < |r[i]| <= size)
            && (forall i :: 0 <= i < |r| - 1 ==> |r[i]| == size)
            && (|r| == 0 <==> |xs| == 0)
    decreases |xs|
  {
    if |xs| == 0 {
    } else if |xs| <= size {
      FlattenSingle(xs);
    } else {
      var rest := Chunks(xs[size..], size);
      var r := [xs[..size]] + rest;
      ChunksShape(xs[size..], size);
      FlattenAppend([xs[..size]], rest);
      FlattenSingle(xs[..size]);
      assert xs[..size] + xs[size..] == xs;
      forall i | 1 <= i < |r| ensures r[i] == rest[i - 1] { }
    }
  }

  /** The chunks, put back together, are the input. */
  lemma {:induction false} ChunksFlatten<T>(xs: seq<T>, size: nat)
    requires size > 0
    ensures Flatten(Chunks(xs, size)) == xs
    decreases |xs|
  {
    if |xs| == 0 {
    } else if |xs| <= size {
      FlattenSingle(xs);
    } else {
      var rest := Chunks(xs[size..], size);
      assert Chunks(xs, size) == [xs[..size]] + rest;
      ChunksFlatten(xs[size..], size);
      FlattenAppend([xs[..size]], rest);
      FlattenSingle(xs[..size]);
      assert xs[..size] + xs[size..] == xs;
    }
  }

  /** One step of the chunking loop: the next slice is `xs[i .. i + size]`, clamped at the end. */
  lemma ChunksStep<T>(xs: seq<T>, i: nat, size: nat)
    requires size > 0 && i < |xs|
    ensures i + size >= |xs| ==> Chunks(xs[i..], size) == [xs[i..]]
    ensures i + size < |xs| ==> Chunks(xs[i..], size) == [xs[i..i + size]] + Chunks(xs[i + size..], size)
  {
    var rest := xs[i..];
    if i + size < |xs| {
      assert rest[..size] == xs[i..i + size];
      assert rest[size..] == xs[i + size..];
    }
  }

  /**
   * `breakIntoChunks(array, size)`: slices `array[i .. i + size]` for `i = 0, size, 2*size, …`.
   * The source loops forever when `size` is not positive; the model requires it.
   */
  method BreakIntoChunks<T>(xs: seq<T>, size: nat) returns (chunks: seq<seq<T>>)
    requires size > 0
    ensures chunks == Chunks(xs, size)
    ensures Flatten(chunks) == xs
  {
    chunks := [];
    var i := 0;
    assert xs[0..] == xs;
    while i < |xs|
      invariant 0 <= i
      invariant i < |xs| ==> chunks + Chunks(xs[i..], size) == Chunks(xs, size)
      invariant i >= |xs| ==> chunks == Chunks(xs, size)
      decreases |xs| - i
    {
      ChunksStep(xs, i, size);
      if i + size >= |xs| {
        chunks := chunks + [xs[i..]];
      } else {
        ghost var before := chunks;
        chunks := chunks + [xs[i..i + size]];
        assert chunks + Chunks(xs[i + size..], size) == before + Chunks(xs[i..], size);
      }
      i := i + size;
    }
    ChunksShape(xs, size);
  }

  /** `checkMessages`: the messages of an Ok result; an error result becomes no messages, never a throw. */
  function CheckMessages(res: Result<seq<Message>, Error>): (r: seq<Message>)
    ensures res.Ok? ==> r == res.value
    ensures res.Err? ==> r == []
  {
    if res.Ok? then res.value else []
  }

  /** `checkOnchainEvent`: the value of an Ok result, null for an error result. */
  function CheckOnchainEvent<T>(res: Result<T, Error>): (r: Option<T>)
    ensures res.Ok? <==> r.Some?
    ensures res.Ok? ==> r.value == res.value
  {
    if res.Ok? then Some(res.value) else None
  }
}
