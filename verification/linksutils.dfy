/**
 * The hub helpers of src/lib/links-utils.ts: the REST page walk, the out-links of an
 * account, the user-data profile fold, the cache and job keys, and a job's queue position.
 */
module LinksUtils {
  import opened Wrappers
  import opened Protocol
  import opened Seqs
  import Numerals
  import Utils
  import BackfillJobs

  /* ---------- keys ---------- */

  function PopulateNetworkJobId(fid: Fid): string { "refreshNetwork-" + Numerals.Decimal(fid) }
  function PopulateFollowersJobId(fid: Fid): string { "populateFollowers-" + Numerals.Decimal(fid) }
  function AllLinksByFidKey(fid: Fid): string { "linksByFid:" + Numerals.Decimal(fid) }
  function AllLinksByTargetKey(fid: Fid): string { "linksByTarget:" + Numerals.Decimal(fid) }
  function NetworkByFidKey(fid: Fid): string { "network:" + Numerals.Decimal(fid) }

  function FollowersEndpointCacheKey(fid: Fid, viewerFid: Fid): string {
    "followersEndpoint:" + Numerals.Decimal(fid) + ":" + Numerals.Decimal(viewerFid)
  }

  function CastEndpointCacheKey(castFid: Fid, castHash: string, viewerFid: Fid): string {
    "castEndpoint:" + Numerals.Decimal(castFid) + ":" + castHash + ":" + Numerals.Decimal(viewerFid)
  }

  /** Each single-fid key family names one fid. */
  lemma FidKeysInjective(a: Fid, b: Fid)
    ensures PopulateNetworkJobId(a) == PopulateNetworkJobId(b) ==> a == b
    ensures PopulateFollowersJobId(a) == PopulateFollowersJobId(b) ==> a == b
    ensures AllLinksByFidKey(a) == AllLinksByFidKey(b) ==> a == b
    ensures AllLinksByTargetKey(a) == AllLinksByTargetKey(b) ==> a == b
    ensures NetworkByFidKey(a) == NetworkByFidKey(b) ==> a == b
  {
    if PopulateNetworkJobId(a) == PopulateNetworkJobId(b) { BackfillJobs.PrefixedDecimalInjective("refreshNetwork-", a, b); }
    if PopulateFollowersJobId(a) == PopulateFollowersJobId(b) { BackfillJobs.PrefixedDecimalInjective("populateFollowers-", a, b); }
    if AllLinksByFidKey(a) == AllLinksByFidKey(b) { BackfillJobs.PrefixedDecimalInjective("linksByFid:", a, b); }
    if AllLinksByTargetKey(a) == AllLinksByTargetKey(b) { BackfillJobs.PrefixedDecimalInjective("linksByTarget:", a, b); }
    if NetworkByFidKey(a) == NetworkByFidKey(b) { BackfillJobs.PrefixedDecimalInjective("network:", a, b); }
  }

  lemma DecimalHasNoColon(n: nat)
    ensures ':' !in Numerals.Decimal(n)
  {
    var d := Numerals.Decimal(n);
    if ':' in d {
      var i :| 0 <= i < |d| && d[i] == ':';
      Numerals.DecimalChars(n, i);
    }
  }

  /** The followers cache key names the (fid, viewer) pair uniquely. */
  lemma FollowersKeyInjective(f1: Fid, v1: Fid, f2: Fid, v2: Fid)
    requires FollowersEndpointCacheKey(f1, v1) == FollowersEndpointCacheKey(f2, v2)
    ensures f1 == f2 && v1 == v2
  {
    var p := "followersEndpoint:";
    var d1, d2 := Numerals.Decimal(f1), Numerals.Decimal(f2);
    var e1, e2 := Numerals.Decimal(v1), Numerals.Decimal(v2);
    assert FollowersEndpointCacheKey(f1, v1) == p + (d1 + [':'] + e1);
    assert FollowersEndpointCacheKey(f2, v2) == p + (d2 + [':'] + e2);
    assert d1 + [':'] + e1 == (p + (d1 + [':'] + e1))[|p|..];
    assert d2 + [':'] + e2 == (p + (d2 + [':'] + e2))[|p|..];
    DecimalHasNoColon(f1);
    DecimalHasNoColon(f2);
    Utils.SplitAtSeparator(d1, e1, d2, e2, ':');
    Numerals.DecimalInjective(f1, f2);
    Numerals.DecimalInjective(v1, v2);
  }

  /** `findJobPosition`: the index of the first waiting job with that id, `null` when none has it. */
  function FindJobPosition(jobId: string, waiting: seq<string>): (r: Option<nat>)
    ensures r.None? <==> jobId !in waiting
    ensures r.Some? ==> r.value < |waiting| && waiting[r.value] == jobId
                        && forall j :: 0 <= j < r.value ==> waiting[j] != jobId
  {
    if |waiting| == 0 then None
    else if waiting[0] == jobId then Some(0)
    else
      match FindJobPosition(jobId, waiting[1..])
      case None => None
      case Some(i) => Some(i + 1)
  }

  /* ---------- the REST page walk ---------- */

  /** `MAX_PAGE_SIZE` of this file: the page size every REST request asks for. */
  const EndpointPageSize: nat := 1000

  datatype Endpoint = LinksByFidEndpoint | UserDataByFidEndpoint

  /** One GET: the endpoint, the fid parameter, the page size, and the page token when it is truthy. */
  datatype EndpointRequest = EndpointRequest(endpoint: Endpoint, fid: Fid, pageSize: nat, pageToken: Option<string>)

  datatype EndpointPage = EndpointPage(messages: seq<Message>, nextPageToken: Option<string>)

  /** The hub's REST answer to a request; `None` is a response that is not ok. */
  type RestHub = EndpointRequest -> Option<EndpointPage>

  /** The request a walk sends with the token it holds: a falsy token is not appended. */
  function Request(endpoint: Endpoint, fid: Fid, token: Option<string>): (r: EndpointRequest)
    ensures r.pageSize == EndpointPageSize
    ensures r.pageToken.Some? <==> TruthyString(token)
  {
    EndpointRequest(endpoint, fid, EndpointPageSize, if TruthyString(token) then token else None)
  }

  /** Reference: the token held before the i-th request, when every earlier answer was ok. */
  function TokenAt(hub: RestHub, endpoint: Endpoint, fid: Fid, i: nat): Option<string> {
    if i == 0 then None
    else
      var prev := hub(Request(endpoint, fid, TokenAt(hub, endpoint, fid, i - 1)));
      if prev.Some? then prev.value.nextPageToken else None
  }

  function AnswerAt(hub: RestHub, endpoint: Endpoint, fid: Fid, i: nat): Option<EndpointPage> {
    hub(Request(endpoint, fid, TokenAt(hub, endpoint, fid, i)))
  }

  function MessagesAt(hub: RestHub, endpoint: Endpoint, fid: Fid, i: nat): seq<Message> {
    var a := AnswerAt(hub, endpoint, fid, i);
    if a.Some? then a.value.messages else []
  }

  /** Reference: the messages of the first n answers, concatenated in request order. */
  function GatheredUpTo(hub: RestHub, endpoint: Endpoint, fid: Fid, n: nat): seq<Message> {
    if n == 0 then [] else GatheredUpTo(hub, endpoint, fid, n - 1) + MessagesAt(hub, endpoint, fid, n - 1)
  }

  /** The loop stops after answer i: a short page, or a truthy limit reached. */
  predicate StopsAfter(hub: RestHub, endpoint: Endpoint, fid: Fid, limit: Option<nat>, i: nat) {
    |MessagesAt(hub, endpoint, fid, i)| < EndpointPageSize
    || (TruthyNat(limit) && |GatheredUpTo(hub, endpoint, fid, i + 1)| >= limit.value)
  }

  /** Answer i was ok and the loop went on to request the next page. */
  predicate GoesOnAfter(hub: RestHub, endpoint: Endpoint, fid: Fid, limit: Option<nat>, i: nat) {
    AnswerAt(hub, endpoint, fid, i).Some? && !StopsAfter(hub, endpoint, fid, limit, i)
  }

  /** The walk completes on answer k: every earlier answer went on and answer k was ok and stopped it. */
  predicate CompletesAt(hub: RestHub, endpoint: Endpoint, fid: Fid, limit: Option<nat>, k: nat) {
    (forall j :: 0 <= j < k ==> GoesOnAfter(hub, endpoint, fid, limit, j))
    && AnswerAt(hub, endpoint, fid, k).Some? && StopsAfter(hub, endpoint, fid, limit, k)
  }

  /** The walk throws on answer k: every earlier answer went on and answer k was not ok. */
  predicate FailsAt(hub: RestHub, endpoint: Endpoint, fid: Fid, limit: Option<nat>, k: nat) {
    (forall j :: 0 <= j < k ==> GoesOnAfter(hub, endpoint, fid, limit, j))
    && AnswerAt(hub, endpoint, fid, k).None?
  }

  /**
   * `getAllMessagesFromHubEndpoint`: pages are requested until a short page or a reached
   * limit and returned concatenated in fetch order; a response that is not ok throws.
   * `maxPages` bounds the walk, which the source does not.
   */
  method GetAllMessagesFromHubEndpoint(hub: RestHub, endpoint: Endpoint, fid: Fid, limit: Option<nat>, maxPages: nat)
    returns (r: Result<seq<Message>, Error>)
    ensures r.Ok? ==> exists k :: 0 <= k < maxPages && CompletesAt(hub, endpoint, fid, limit, k)
                                  && r.value == GatheredUpTo(hub, endpoint, fid, k + 1)
    ensures r.Err? && r.error == HttpFailure ==> exists k :: 0 <= k < maxPages && FailsAt(hub, endpoint, fid, limit, k)
    ensures r.Err? ==> r.error == HttpFailure
                       || (r.error == PageLimit && forall j :: 0 <= j < maxPages ==> GoesOnAfter(hub, endpoint, fid, limit, j))
  {
    var messages: seq<Message> := [];
    var token: Option<string> := None;
    var i: nat := 0;
    while i < maxPages
      invariant i <= maxPages
      invariant token == TokenAt(hub, endpoint, fid, i)
      invariant messages == GatheredUpTo(hub, endpoint, fid, i)
      invariant forall j :: 0 <= j < i ==> GoesOnAfter(hub, endpoint, fid, limit, j)
    {
      var res := hub(Request(endpoint, fid, token));
      assert res == AnswerAt(hub, endpoint, fid, i);
      if res.None? {
        assert FailsAt(hub, endpoint, fid, limit, i);
        return Err(HttpFailure);
      }
      token := res.value.nextPageToken;
      messages := messages + res.value.messages;
      assert messages == GatheredUpTo(hub, endpoint, fid, i + 1);
      if |res.value.messages| < EndpointPageSize || (TruthyNat(limit) && |messages| >= limit.value) {
        assert CompletesAt(hub, endpoint, fid, limit, i);
        return Ok(messages);
      }
      i := i + 1;
    }
    return Err(PageLimit);
  }

  /**
   * The walk ends on a short page, not on the token: a full page without a truthy token is
   * followed by a request for the first page again.
   */
  lemma FullPageWithoutTokenRestarts(hub: RestHub, endpoint: Endpoint, fid: Fid, i: nat)
    requires AnswerAt(hub, endpoint, fid, i).Some?
    requires !TruthyString(AnswerAt(hub, endpoint, fid, i).value.nextPageToken)
    ensures AnswerAt(hub, endpoint, fid, i + 1) == AnswerAt(hub, endpoint, fid, 0)
  {
    assert Request(endpoint, fid, TokenAt(hub, endpoint, fid, i + 1)) == Request(endpoint, fid, None);
  }

  /* ---------- out-links ---------- */

  /** The targets one link message contributes: a truthy target of a link-add, or every target of a compact state. */
  function LinkTargets(m: Message): seq<Fid> {
    if IsLinkAdd(m) && TruthyNat(m.data.body.targetFid) then [m.data.body.targetFid.value]
    else if IsLinkCompactState(m) then m.data.body.targetFids
    else []
  }

  /** `Set.add` of each element in turn, the set kept as its insertion order. */
  function AddAll(acc: seq<Fid>, xs: seq<Fid>): (r: seq<Fid>)
    ensures NoDuplicates(acc) ==> NoDuplicates(r)
    ensures forall x :: x in r <==> x in acc || x in xs
    ensures acc <= r
    decreases |xs|
  {
    if |xs| == 0 then acc
    else
      var p := AddAll(acc, xs[..|xs| - 1]);
      var x := xs[|xs| - 1];
      assert forall y :: y in xs <==> y in xs[..|xs| - 1] || y == x by {
        assert xs == xs[..|xs| - 1] + [x];
      }
      if x in p then p else p + [x]
  }

  /**
   * `_getAllLinksByFid` after the fetch: the targets of the link messages without repeats,
   * in first-seen order; every other message is ignored.
   */
  function OutLinks(msgs: seq<Message>): (r: seq<Fid>)
    ensures NoDuplicates(r)
    ensures forall t :: t in r <==> exists i :: 0 <= i < |msgs| && t in LinkTargets(msgs[i])
    decreases |msgs|
  {
    if |msgs| == 0 then []
    else
      var prev := OutLinks(msgs[..|msgs| - 1]);
      var r := AddAll(prev, LinkTargets(msgs[|msgs| - 1]));
      forall t | t in r ensures exists i :: 0 <= i < |msgs| && t in LinkTargets(msgs[i]) {
        if t in prev {
          var i :| 0 <= i < |msgs| - 1 && t in LinkTargets(msgs[..|msgs| - 1][i]);
          assert msgs[..|msgs| - 1][i] == msgs[i];
        } else {
          assert t in LinkTargets(msgs[|msgs| - 1]);
        }
      }
      forall t, i | 0 <= i < |msgs| && t in LinkTargets(msgs[i]) ensures t in r {
        if i < |msgs| - 1 {
          assert msgs[..|msgs| - 1][i] == msgs[i];
        }
      }
      r
  }

  /** `_getAllLinksByFid` with a hub URL: the `/v1/linksByFid` walk, then the out-links of what it returned. */
  method GetAllLinksByFid(hub: RestHub, fid: Fid, maxPages: nat) returns (r: Result<seq<Fid>, Error>)
    ensures r.Ok? ==> NoDuplicates(r.value)
    ensures r.Ok? ==> exists k :: 0 <= k < maxPages && CompletesAt(hub, LinksByFidEndpoint, fid, None, k)
                                  && r.value == OutLinks(GatheredUpTo(hub, LinksByFidEndpoint, fid, k + 1))
  {
    var msgs := GetAllMessagesFromHubEndpoint(hub, LinksByFidEndpoint, fid, None, maxPages);
    if msgs.Err? {
      return Err(msgs.error);
    }
    return Ok(OutLinks(msgs.value));
  }

  /* ---------- user data ---------- */

  predicate SetsType(m: Message, t: int) {
    IsUserDataAdd(m) && m.data.body.userDataType == t
  }

  /** The fold of `getUserDataByFid`: each user-data add sets its type's value; other messages pass. */
  function UserDataOf(msgs: seq<Message>): (r: map<int, string>)
    ensures forall t :: t in r <==> exists i :: 0 <= i < |msgs| && SetsType(msgs[i], t)
    ensures forall i :: 0 <= i < |msgs| && IsUserDataAdd(msgs[i]) && SetsType(msgs[i], msgs[i].data.body.userDataType)
                        && (forall j :: i < j < |msgs| ==> !SetsType(msgs[j], msgs[i].data.body.userDataType)) ==>
              r[msgs[i].data.body.userDataType] == msgs[i].data.body.value
    decreases |msgs|
  {
    if |msgs| == 0 then map[]
    else
      var p := msgs[..|msgs| - 1];
      var m := msgs[|msgs| - 1];
      var prev := UserDataOf(p);
      assert forall i :: 0 <= i < |p| ==> p[i] == msgs[i];
      if IsUserDataAdd(m) then prev[m.data.body.userDataType := m.data.body.value] else prev
  }

  /** `getUserDataByFid`: the `/v1/userDataByFid` walk folded into a type-to-value record; the last add of a type wins. */
  method GetUserDataByFid(hub: RestHub, fid: Fid, maxPages: nat) returns (r: Result<map<int, string>, Error>)
    ensures r.Ok? ==> exists k :: 0 <= k < maxPages && CompletesAt(hub, UserDataByFidEndpoint, fid, None, k)
                                  && r.value == UserDataOf(GatheredUpTo(hub, UserDataByFidEndpoint, fid, k + 1))
  {
    var msgs := GetAllMessagesFromHubEndpoint(hub, UserDataByFidEndpoint, fid, None, maxPages);
    if msgs.Err? {
      return Err(msgs.error);
    }
    return Ok(UserDataOf(msgs.value));
  }
}
