/**
 * The per-account backfill of src/lib/backfill.ts: the job handler that makes an account a
 * target and rolls that back when the backfill throws, the ordered writes of one account's
 * profile, the root backfill flow over a root's follows, and the cursor saved at start-up.
 */
module LibBackfill {
  import opened Wrappers
  import opened Protocol
  import opened Seqs
  import opened Utils
  import opened Store
  import opened BackfillJobs
  import Targets
  import Network
  import LibEvent
  import ProcessorsEvent
  import ApiCast
  import ApiLink
  import ApiReaction
  import ProcessorsReaction
  import ApiUserData
  import ProcessorsVerification
  import ApiFid
  import ApiSigner
  import ApiStorage

  /**
   * What `getFullProfileFromHub` returns: the five message lists, and the three on-chain
   * reads that are still pending and only awaited when their turn comes.
   */
  datatype Profile = Profile(
    casts: seq<Message>,
    reactions: seq<Message>,
    links: seq<Message>,
    userData: seq<Message>,
    verifications: seq<Message>,
    registrations: Result<seq<OnChainEvent>, Error>,
    signers: Result<seq<OnChainEvent>, Error>,
    storage: Result<seq<OnChainEvent>, Error>)

  /** The hub as the backfill reads it. */
  datatype Hub = Hub(
    userDataByFid: Fid -> Result<seq<Message>, Error>,   // `hubClient.getUserDataByFid`
    profile: Fid -> Option<Profile>,                    // `getFullProfileFromHub`; `None` when it throws
    links: Network.LinkSource,                          // `_getAllLinksByFid` over the REST walk
    latestFids: Result<seq<Fid>, Error>)                // `hubClient.getFids({pageSize: 1, reverse: true})`

  /* ---------- the writes of one account ---------- */

  /** One awaited writer call of `backfillFid`. */
  datatype Stage =
    | CastsInsert(msgs: seq<Message>)
    | LinksInsert(msgs: seq<Message>)
    | ReactionsInsert(msgs: seq<Message>)
    | UserDataInsert(msgs: seq<Message>)
    | VerificationsInsert(msgs: seq<Message>)
    | RegistrationsInsert(events: Result<seq<OnChainEvent>, Error>)
    | SignersInsert(events: Result<seq<OnChainEvent>, Error>)
    | StorageInsert(events: Result<seq<OnChainEvent>, Error>)
    | CastsDelete(msgs: seq<Message>)
    | LinksDelete(msgs: seq<Message>)
    | VerificationsDelete(msgs: seq<Message>)

  /** The one table a stage writes. */
  function TableOf(s: Stage): TableName {
    match s
    case CastsInsert(_) => CastsTable
    case LinksInsert(_) => LinksTable
    case ReactionsInsert(_) => ReactionsTable
    case UserDataInsert(_) => UserDataTable
    case VerificationsInsert(_) => VerificationsTable
    case RegistrationsInsert(_) => FidsTable
    case SignersInsert(_) => SignersTable
    case StorageInsert(_) => StorageTable
    case CastsDelete(_) => CastsTable
    case LinksDelete(_) => LinksTable
    case VerificationsDelete(_) => VerificationsTable
  }

  predicate IsDelete(s: Stage) {
    s.CastsDelete? || s.LinksDelete? || s.VerificationsDelete?
  }

  /** Only the tables named in `s` may differ between a and b. */
  predicate Within(a: Tables, b: Tables, s: set<TableName>) {
    (CastsTable !in s ==> b.casts == a.casts)
    && (ReactionsTable !in s ==> b.reactions == a.reactions)
    && (LinksTable !in s ==> b.links == a.links)
    && (VerificationsTable !in s ==> b.verifications == a.verifications)
    && (UserDataTable !in s ==> b.userData == a.userData)
    && (FidsTable !in s ==> b.fids == a.fids)
    && (SignersTable !in s ==> b.signers == a.signers)
    && (StorageTable !in s ==> b.storage == a.storage)
  }

  lemma WithinThrough(a: Tables, b: Tables, c: Tables, s: set<TableName>, t: set<TableName>)
    requires Within(a, b, s) && Within(b, c, t)
    ensures Within(a, c, s + t)
  {
  }

  /** Every cast, link and verification row of a is still in b, unchanged: nothing was soft-deleted. */
  predicate KeepsMessageRows(a: Tables, b: Tables) {
    (forall h :: h in a.casts ==> h in b.casts && b.casts[h] == a.casts[h])
    && (forall h :: h in a.links ==> h in b.links && b.links[h] == a.links[h])
    && (forall k :: k in a.verifications ==> k in b.verifications && b.verifications[k] == a.verifications[k])
  }

  /** Only the tables change; the registry, the queues and the cursor keep theirs, and jobs are only appended. */
  predicate Framed(w: World, r: World) {
    r.targets == w.targets && r.flows == w.flows && r.cursor == w.cursor && w.jobs <= r.jobs
  }

  /*
   * `await p.registrations` (and signers, storage) then the writer: a pending read that
   * rejects throws before the writer runs.
   */

  function AwaitRegistrations(env: Env, w: World, events: Result<seq<OnChainEvent>, Error>): (r: Effect)
    ensures events.Err? ==> r == Effect(w, Some(events.error))
  {
    if events.Err? then Effect(w, Some(events.error)) else ApiFid.InsertRegistrations(env, w, events.value)
  }

  function AwaitSigners(env: Env, w: World, events: Result<seq<OnChainEvent>, Error>): (r: Effect)
    ensures events.Err? ==> r == Effect(w, Some(events.error))
  {
    if events.Err? then Effect(w, Some(events.error)) else ApiSigner.InsertSigners(env, w, events.value)
  }

  function AwaitStorage(env: Env, w: World, events: Result<seq<OnChainEvent>, Error>): (r: Effect)
    ensures events.Err? ==> r == Effect(w, Some(events.error))
  {
    if events.Err? then Effect(w, Some(events.error)) else ApiStorage.InsertStorage(env, w, events.value)
  }

  /** What every writer promises: it keeps the registry, queues and cursor and writes only its own table. */
  predicate WriterFrame(w: World, r: Effect, t: TableName, keeps: bool) {
    Framed(w, r.world) && Within(w.tables, r.world.tables, {t}) && (keeps ==> KeepsMessageRows(w.tables, r.world.tables))
  }

  lemma ReactionsInsertFrame(env: Env, w: World, msgs: seq<Message>)
    ensures WriterFrame(w, ApiReaction.InsertReactions(env, w, msgs), ReactionsTable, true)
  {
    var r := ApiReaction.InsertReactions(env, w, msgs);
    assert r.world.tables == ProcessorsReaction.InsertReactions(env, w, msgs).world.tables;
  }

  lemma UserDataInsertFrame(env: Env, w: World, msgs: seq<Message>)
    ensures WriterFrame(w, ApiUserData.InsertUserDatas(env, w, msgs), UserDataTable, true)
  {
  }

  lemma VerificationsInsertFrame(env: Env, w: World, msgs: seq<Message>)
    ensures WriterFrame(w, ProcessorsVerification.InsertVerifications(env, w, msgs), VerificationsTable, true)
  {
    var r := ProcessorsVerification.InsertVerifications(env, w, msgs);
    assert r.error.None? ==> r.world.tables.verifications
                             == InsertSkip(w.tables.verifications,
                                           FormatVerifications(env.toDate, Filter(msgs, IsVerificationAdd)).value,
                                           VerificationKey);
  }

  /** One writer call of the backfill. */
  function RunStage(env: Env, w: World, s: Stage): Effect {
    match s
    case CastsInsert(msgs) => ApiCast.InsertCasts(env, w, msgs)
    case LinksInsert(msgs) => ApiLink.InsertLinks(env, w, msgs, ApiLink.FromBackfill)
    case ReactionsInsert(msgs) => ApiReaction.InsertReactions(env, w, msgs)
    case UserDataInsert(msgs) => ApiUserData.InsertUserDatas(env, w, msgs)
    case VerificationsInsert(msgs) => ProcessorsVerification.InsertVerifications(env, w, msgs)
    case RegistrationsInsert(events) => AwaitRegistrations(env, w, events)
    case SignersInsert(events) => AwaitSigners(env, w, events)
    case StorageInsert(events) => AwaitStorage(env, w, events)
    case CastsDelete(msgs) => ApiCast.DeleteCasts(env, w, msgs)
    case LinksDelete(msgs) => ApiLink.DeleteLinks(env, w, msgs)
    case VerificationsDelete(msgs) => ProcessorsVerification.DeleteVerifications(env, w, msgs)
  }

  /** An on-chain stage whose events could not be fetched leaves the world as it was and reports the failure. */
  lemma FailedEventsStage(env: Env, w: World, s: Stage)
    requires s.RegistrationsInsert? || s.SignersInsert? || s.StorageInsert?
    requires s.events.Err?
    ensures RunStage(env, w, s) == Effect(w, Some(s.events.error))
  {
    match s
    case RegistrationsInsert(events) =>
    case SignersInsert(events) =>
    case StorageInsert(events) =>
  }

  predicate IsMessageInsert(s: Stage) {
    s.CastsInsert? || s.LinksInsert? || s.ReactionsInsert? || s.UserDataInsert? || s.VerificationsInsert?
  }

  /** Each stage writes only its own table, and only a delete stage may stamp existing rows. */
  lemma StageFrame(env: Env, w: World, s: Stage)
    ensures WriterFrame(w, RunStage(env, w, s), TableOf(s), !IsDelete(s))
  {
    if IsMessageInsert(s) {
      MessageStageFrame(env, w, s);
    } else if IsDelete(s) {
      DeleteStageFrame(env, w, s);
    } else {
      OnChainStageFrame(env, w, s);
    }
  }

  lemma MessageStageFrame(env: Env, w: World, s: Stage)
    requires IsMessageInsert(s)
    ensures WriterFrame(w, RunStage(env, w, s), TableOf(s), true)
  {
    if s.ReactionsInsert? {
      ReactionsInsertFrame(env, w, s.msgs);
    } else if s.VerificationsInsert? {
      VerificationsInsertFrame(env, w, s.msgs);
    }
  }

  lemma OnChainStageFrame(env: Env, w: World, s: Stage)
    requires s.RegistrationsInsert? || s.SignersInsert? || s.StorageInsert?
    ensures WriterFrame(w, RunStage(env, w, s), TableOf(s), true)
  {
    if s.RegistrationsInsert? {
      assert RunStage(env, w, s) == AwaitRegistrations(env, w, s.events);
    } else if s.SignersInsert? {
      assert RunStage(env, w, s) == AwaitSigners(env, w, s.events);
    } else {
      assert RunStage(env, w, s) == AwaitStorage(env, w, s.events);
    }
  }

  lemma DeleteStageFrame(env: Env, w: World, s: Stage)
    requires IsDelete(s)
    ensures WriterFrame(w, RunStage(env, w, s), TableOf(s), false)
  {
    if s.CastsDelete? {
      assert RunStage(env, w, s) == ApiCast.DeleteCasts(env, w, s.msgs);
    } else if s.LinksDelete? {
      assert RunStage(env, w, s) == ApiLink.DeleteLinks(env, w, s.msgs);
    } else {
      assert RunStage(env, w, s) == ProcessorsVerification.DeleteVerifications(env, w, s.msgs);
    }
  }

  /** The tables some stage of the list writes. */
  function WrittenBy(stages: seq<Stage>): set<TableName> {
    set i | 0 <= i < |stages| :: TableOf(stages[i])
  }

  predicate NoDeletes(stages: seq<Stage>) {
    forall i :: 0 <= i < |stages| ==> !IsDelete(stages[i])
  }

  /** Awaited one after the other: the first throw ends the backfill and is its error. */
  function RunStages(env: Env, w: World, stages: seq<Stage>): (r: Effect)
    ensures Framed(w, r.world)
    ensures Within(w.tables, r.world.tables, WrittenBy(stages))
    ensures NoDeletes(stages) ==> KeepsMessageRows(w.tables, r.world.tables)
    ensures |stages| == 0 ==> r == Effect(w, None)
    decreases |stages|
  {
    if |stages| == 0 then Effect(w, None)
    else
      var init := stages[..|stages| - 1];
      var last := stages[|stages| - 1];
      var prev := RunStages(env, w, init);
      StagesSnoc(stages);
      StageFrame(env, prev.world, last);
      var next := RunStage(env, prev.world, last);
      ComposeFrames(w, prev, next, WrittenBy(init), TableOf(last), NoDeletes(init), !IsDelete(last));
      Then(prev, (w': World) => RunStage(env, w', last))
  }

  /** The last stage of a list adds its table to what the others write, and is a delete or not. */
  lemma StagesSnoc(stages: seq<Stage>)
    requires |stages| > 0
    ensures WrittenBy(stages) == WrittenBy(stages[..|stages| - 1]) + {TableOf(stages[|stages| - 1])}
    ensures NoDeletes(stages) <==> NoDeletes(stages[..|stages| - 1]) && !IsDelete(stages[|stages| - 1])
  {
    var init := stages[..|stages| - 1];
    forall t | t in WrittenBy(stages) ensures t in WrittenBy(init) + {TableOf(stages[|stages| - 1])} {
      var i :| 0 <= i < |stages| && TableOf(stages[i]) == t;
      if i < |init| { assert init[i] == stages[i]; }
    }
    forall t | t in WrittenBy(init) ensures t in WrittenBy(stages) {
      var i :| 0 <= i < |init| && TableOf(init[i]) == t;
      assert stages[i] == init[i];
    }
    if NoDeletes(init) && !IsDelete(stages[|stages| - 1]) {
      forall i | 0 <= i < |stages| ensures !IsDelete(stages[i]) {
        if i < |init| { assert stages[i] == init[i]; }
      }
    }
  }

  /** A step that writes table `t` after steps that wrote the tables `s`: together they wrote `s` and `t`. */
  lemma ComposeFrames(w: World, prev: Effect, next: Effect, s: set<TableName>, t: TableName, keepsPrev: bool, keepsNext: bool)
    requires Framed(w, prev.world) && Within(w.tables, prev.world.tables, s)
    requires keepsPrev ==> KeepsMessageRows(w.tables, prev.world.tables)
    requires WriterFrame(prev.world, next, t, keepsNext)
    ensures var r := if prev.error.Some? then prev else next;
            && Framed(w, r.world) && Within(w.tables, r.world.tables, s + {t})
            && (keepsPrev && keepsNext ==> KeepsMessageRows(w.tables, r.world.tables))
  {
    if prev.error.None? {
      WithinThrough(w.tables, prev.world.tables, next.world.tables, s, {t});
    }
  }

  /** Running two lists of stages is running the first, then, if it did not throw, the second. */
  lemma {:induction false} RunStagesAppend(env: Env, w: World, a: seq<Stage>, b: seq<Stage>)
    ensures RunStages(env, w, a + b) == Then(RunStages(env, w, a), (w': World) => RunStages(env, w', b))
    decreases |b|
  {
    if |b| == 0 {
      assert a + b == a;
    } else {
      var b' := b[..|b| - 1];
      assert (a + b)[..|a + b| - 1] == a + b';
      assert (a + b)[|a + b| - 1] == b[|b| - 1];
      RunStagesAppend(env, w, a, b');
    }
  }

  /** The five message writers, in the order `backfillFid` awaits them. */
  function MessageStages(p: Profile): seq<Stage> {
    [CastsInsert(p.casts), LinksInsert(p.links), ReactionsInsert(p.reactions),
     UserDataInsert(p.userData), VerificationsInsert(p.verifications)]
  }

  /** The three on-chain writers, each after awaiting its pending read. */
  function OnChainStages(p: Profile): seq<Stage> {
    [RegistrationsInsert(p.registrations), SignersInsert(p.signers), StorageInsert(p.storage)]
  }

  /** The delete pass; reactions are left out of it. */
  function DeleteStages(p: Profile): seq<Stage> {
    [CastsDelete(p.casts), LinksDelete(p.links), VerificationsDelete(p.verifications)]
  }

  /** Everything `backfillFid` awaits for a full profile. */
  function Stages(p: Profile, includeRemoveMessages: bool): (r: seq<Stage>)
    ensures !includeRemoveMessages ==> NoDeletes(r)
  {
    MessageStages(p) + OnChainStages(p) + (if includeRemoveMessages then DeleteStages(p) else [])
  }

  /**
   * `backfillFid`: a partial backfill writes only the user data the hub returns (an error
   * result is no messages); a full one writes the profile's messages and on-chain events and,
   * when remove messages are asked for, runs the delete pass. A profile that cannot be read
   * ends the backfill quietly.
   */
  function BackfillFid(env: Env, hub: Hub, w: World, fid: Fid, partial: Option<bool>, includeRemoveMessages: Option<bool>)
    : (r: Effect)
    ensures Framed(w, r.world)
    ensures partial == Some(true) ==> Within(w.tables, r.world.tables, {UserDataTable})
    ensures partial == Some(true) ==> r == ApiUserData.InsertUserDatas(env, w, CheckMessages(hub.userDataByFid(fid)))
    ensures partial != Some(true) && hub.profile(fid).None? ==> r == Effect(w, None)
    ensures includeRemoveMessages != Some(true) ==> KeepsMessageRows(w.tables, r.world.tables)
  {
    if partial == Some(true) then
      var r := ApiUserData.InsertUserDatas(env, w, CheckMessages(hub.userDataByFid(fid)));
      UserDataInsertFrame(env, w, CheckMessages(hub.userDataByFid(fid)));
      r
    else
      match hub.profile(fid)
      case None => Effect(w, None)
      case Some(p) => RunStages(env, w, Stages(p, includeRemoveMessages == Some(true)))
  }

  lemma MessageTables(p: Profile)
    ensures WrittenBy(MessageStages(p)) == {CastsTable, LinksTable, ReactionsTable, UserDataTable, VerificationsTable}
  {
    var m := MessageStages(p);
    assert TableOf(m[0]) == CastsTable && TableOf(m[1]) == LinksTable && TableOf(m[2]) == ReactionsTable;
    assert TableOf(m[3]) == UserDataTable && TableOf(m[4]) == VerificationsTable;
  }

  /** A message writer that throws ends the backfill before any on-chain table is written. */
  lemma MessageFailureStopsOnChain(env: Env, hub: Hub, w: World, fid: Fid, partial: Option<bool>, remove: Option<bool>)
    requires partial != Some(true) && hub.profile(fid).Some?
    requires RunStages(env, w, MessageStages(hub.profile(fid).value)).error.Some?
    ensures BackfillFid(env, hub, w, fid, partial, remove) == RunStages(env, w, MessageStages(hub.profile(fid).value))
    ensures BackfillFid(env, hub, w, fid, partial, remove).world.tables.fids == w.tables.fids
    ensures BackfillFid(env, hub, w, fid, partial, remove).world.tables.signers == w.tables.signers
    ensures BackfillFid(env, hub, w, fid, partial, remove).world.tables.storage == w.tables.storage
  {
    var p := hub.profile(fid).value;
    var rest := OnChainStages(p) + (if remove == Some(true) then DeleteStages(p) else []);
    assert Stages(p, remove == Some(true)) == MessageStages(p) + rest;
    RunStagesAppend(env, w, MessageStages(p), rest);
    MessageStagesKeepOnChain(env, w, p);
  }

  /**
   * A pending registrations read that rejects ends the backfill with its error once the
   * message writers are through; signers and storage are then never written.
   */
  lemma RejectedRegistrationsStopBackfill(env: Env, hub: Hub, w: World, fid: Fid, partial: Option<bool>, remove: Option<bool>)
    requires partial != Some(true) && hub.profile(fid).Some? && hub.profile(fid).value.registrations.Err?
    requires RunStages(env, w, MessageStages(hub.profile(fid).value)).error.None?
    ensures BackfillFid(env, hub, w, fid, partial, remove).error == Some(hub.profile(fid).value.registrations.error)
    ensures BackfillFid(env, hub, w, fid, partial, remove).world.tables.signers == w.tables.signers
    ensures BackfillFid(env, hub, w, fid, partial, remove).world.tables.storage == w.tables.storage
  {
    var p := hub.profile(fid).value;
    RejectedRegistrationsStopStages(env, w, p, remove == Some(true));
    MessageStagesKeepOnChain(env, w, p);
    assert BackfillFid(env, hub, w, fid, partial, remove) == RunStages(env, w, Stages(p, remove == Some(true)));
  }

  /** The stage list of a full backfill ends at a rejected registrations call, after the message writers. */
  lemma RejectedRegistrationsStopStages(env: Env, w: World, p: Profile, removes: bool)
    requires p.registrations.Err? && RunStages(env, w, MessageStages(p)).error.None?
    ensures RunStages(env, w, Stages(p, removes)) == Effect(RunStages(env, w, MessageStages(p)).world, Some(p.registrations.error))
  {
    var m := MessageStages(p);
    var rest := [SignersInsert(p.signers), StorageInsert(p.storage)] + (if removes then DeleteStages(p) else []);
    assert Stages(p, removes) == (m + [RegistrationsInsert(p.registrations)]) + rest;
    FailedStageStops(env, w, m, RegistrationsInsert(p.registrations), rest);
  }

  /** The message writers leave the fids, signers and storage tables alone. */
  lemma MessageStagesKeepOnChain(env: Env, w: World, p: Profile)
    ensures RunStages(env, w, MessageStages(p)).world.tables.fids == w.tables.fids
    ensures RunStages(env, w, MessageStages(p)).world.tables.signers == w.tables.signers
    ensures RunStages(env, w, MessageStages(p)).world.tables.storage == w.tables.storage
  {
    MessageTables(p);
    OffChainStagesKeepOnChain(env, w, MessageStages(p));
  }

  /** Stages that write no on-chain table leave the fids, signers and storage tables alone. */
  lemma OffChainStagesKeepOnChain(env: Env, w: World, stages: seq<Stage>)
    requires FidsTable !in WrittenBy(stages) && SignersTable !in WrittenBy(stages) && StorageTable !in WrittenBy(stages)
    ensures RunStages(env, w, stages).world.tables.fids == w.tables.fids
    ensures RunStages(env, w, stages).world.tables.signers == w.tables.signers
    ensures RunStages(env, w, stages).world.tables.storage == w.tables.storage
  {
    var r := RunStages(env, w, stages);
    assert Within(w.tables, r.world.tables, WrittenBy(stages));
  }

  /** Once a stage fails, the stages after it never run: the result is that of the prefix through it. */
  lemma FailedStageStops(env: Env, w: World, m: seq<Stage>, s: Stage, rest: seq<Stage>)
    requires s.RegistrationsInsert? || s.SignersInsert? || s.StorageInsert?
    requires s.events.Err? && RunStages(env, w, m).error.None?
    ensures RunStages(env, w, (m + [s]) + rest) == Effect(RunStages(env, w, m).world, Some(s.events.error))
  {
    var mid := RunStages(env, w, m);
    var failed := Effect(mid.world, Some(s.events.error));
    RunStagesOne(env, mid.world, s);
    FailedEventsStage(env, mid.world, s);
    RunStagesAppend(env, w, m, [s]);
    assert RunStages(env, w, m + [s]) == failed;
    RunStagesAppend(env, w, m + [s], rest);
  }

  lemma RunStagesOne(env: Env, w: World, s: Stage)
    ensures RunStages(env, w, [s]) == RunStage(env, w, s)
  {
    assert [s][..0] == [];
  }

  /**
   * `handleBackfillJob`: a full backfill first makes the account a target; if the backfill
   * throws and the account was not a target before, the target is removed again, and the
   * error is rethrown.
   */
  function HandleBackfillJob(env: Env, hub: Hub, w: World, fid: Fid, partial: Option<bool>, removeMessages: Option<bool>)
    : (r: Effect)
    ensures r.error.Some? ==> r.world.targets == w.targets
    ensures r.error.None? && partial != Some(true) ==> r.world.targets == Targets.AddTarget(w.targets, fid)
    ensures partial == Some(true) ==> r.world.targets == w.targets
    ensures r.world.flows == w.flows && r.world.cursor == w.cursor && w.jobs <= r.world.jobs
    ensures var w1 := if partial != Some(true) then w.(targets := Targets.AddTarget(w.targets, fid)) else w;
            var e := BackfillFid(env, hub, w1, fid, partial, removeMessages);
            r.error == e.error && r.world.tables == e.world.tables && r.world.jobs == e.world.jobs
  {
    var already := Targets.IsTarget(w.targets, fid, None);
    var w1 := if partial != Some(true) then w.(targets := Targets.AddTarget(w.targets, fid)) else w;
    var e := BackfillFid(env, hub, w1, fid, partial, removeMessages);
    if e.error.Some? && !already then
      Targets.AddThenRemoveRestores(w.targets, fid);
      Effect(e.world.(targets := Targets.RemoveTarget(e.world.targets, fid)), e.error)
    else
      Targets.TargetOpsIdempotent(w.targets, fid);
      e
  }

  /** A failed backfill of an account that was already a target keeps it a target. */
  lemma FailureKeepsExistingTarget(env: Env, hub: Hub, w: World, fid: Fid, partial: Option<bool>, removeMessages: Option<bool>)
    requires fid in w.targets.all
    ensures fid in HandleBackfillJob(env, hub, w, fid, partial, removeMessages).world.targets.all
  {
  }

  /* ---------- the root backfill flow ---------- */

  /** A child of the root flow: a full backfill of one account under its plain job id, priority 100. */
  function BackfillChild(fid: Fid, partial: Option<bool>, removeMessages: Option<bool>): JobRequest {
    JobRequest(BackfillQueue, Some(FullBackfillId(fid)), Some(DefaultPriority), BackfillData(fid, partial, removeMessages))
  }

  /** The flow `createRootBackfillJob` adds: the root's job waits on the root and each of its follows. */
  function RootFlow(rootFid: Fid, follows: seq<Fid>, partial: Option<bool>, removeMessages: Option<bool>): (f: JobFlow)
    ensures f.parent == JobRequest(RootBackfillQueue, Some(RootBackfillId(rootFid)), None, RootBackfillData(rootFid, |f.children|))
    ensures |f.children| == |follows| + 1
    ensures f.children[0] == BackfillChild(rootFid, partial, removeMessages)
    ensures forall i :: 1 <= i < |f.children| ==> f.children[i] == BackfillChild(follows[i - 1], partial, removeMessages)
  {
    var fids := [rootFid] + follows;
    var children := Map(fids, (fid: Fid) => BackfillChild(fid, partial, removeMessages));
    assert forall i :: 1 <= i < |fids| ==> fids[i] == follows[i - 1];
    JobFlow(JobRequest(RootBackfillQueue, Some(RootBackfillId(rootFid)), None, RootBackfillData(rootFid, |fids|)), children)
  }

  /** The children's job ids are pairwise distinct when the follows repeat no account and leave out the root. */
  lemma RootFlowJobIdsDistinct(rootFid: Fid, follows: seq<Fid>, partial: Option<bool>, removeMessages: Option<bool>)
    requires NoDuplicates(follows) && rootFid !in follows
    ensures var f := RootFlow(rootFid, follows, partial, removeMessages);
            forall i, j :: 0 <= i < j < |f.children| ==> f.children[i].jobId != f.children[j].jobId
  {
    var f := RootFlow(rootFid, follows, partial, removeMessages);
    forall i, j | 0 <= i < j < |f.children| ensures f.children[i].jobId != f.children[j].jobId {
      assert f.children[j].jobId == Some(FullBackfillId(follows[j - 1]));
      if i > 0 {
        assert f.children[i].jobId == Some(FullBackfillId(follows[i - 1]));
      } else {
        assert follows[j - 1] in follows;
      }
    }
  }

  /** `Array.from(set)`: the members of a set, each once, in some order. */
  method Enumerate(s: set<Fid>) returns (xs: seq<Fid>)
    ensures NoDuplicates(xs) && Elems(xs) == s
  {
    xs := [];
    var rest := s;
    while rest != {}
      invariant NoDuplicates(xs) && Elems(xs) + rest == s && Elems(xs) !! rest
      decreases |rest|
    {
      var x :| x in rest;
      xs := xs + [x];
      rest := rest - {x};
    }
  }

  /** The depth-1 level of a two-level walk, read as the network result holds it. */
  lemma DepthOneOfWalk(src: Network.LinkSource, rootFid: Fid, net: Network.Network)
    requires Network.Indexed(src, rootFid, Network.Iterations(src, rootFid, 2), net.allLinks, net.linksByDepth)
    ensures 1 in net.linksByDepth <==> |Network.Adj(src, rootFid)| > 0
    ensures 1 in net.linksByDepth ==> net.linksByDepth[1] == Elems(Network.Adj(src, rootFid)) - {rootFid}
  {
    Network.DepthTwo(src, rootFid);
  }

  /**
   * `createRootBackfillJob` as written: it reads depth 1 of a two-level walk from the root
   * and, when the root follows nobody, that depth was never recorded and reading its size
   * throws, before the root is made a target or any job is queued.
   */
  method CreateRootBackfillJobAsWritten(hub: Hub, w: World, rootFid: Fid, partial: Option<bool>, removeMessages: Option<bool>)
    returns (r: Effect)
    ensures |Network.Adj(hub.links, rootFid)| == 0 ==> r == Effect(w, Some(MissingField))
    ensures |Network.Adj(hub.links, rootFid)| > 0 ==>
              r.error.None? && exists follows: seq<Fid> :: NoDuplicates(follows)
                                 && Elems(follows) == Elems(Network.Adj(hub.links, rootFid)) - {rootFid}
                                 && r.world == w.(targets := Targets.AddRootTarget(w.targets, rootFid),
                                                  flows := w.flows + [RootFlow(rootFid, follows, partial, removeMessages)])
  {
    var net := Network.GetNetworkByFid(hub.links, rootFid, 2);
    DepthOneOfWalk(hub.links, rootFid, net);
    if 1 !in net.linksByDepth {
      return Effect(w, Some(MissingField));
    }
    var follows := Enumerate(net.linksByDepth[1]);
    r := Effect(w.(targets := Targets.AddRootTarget(w.targets, rootFid),
                   flows := w.flows + [RootFlow(rootFid, follows, partial, removeMessages)]), None);
  }

  /**
   * `createRootBackfillJob` with a missing depth 1 read as no follows: the root is always
   * made a root target and always backfilled, together with every account it follows.
   */
  method CreateRootBackfillJob(hub: Hub, w: World, rootFid: Fid, partial: Option<bool>, removeMessages: Option<bool>)
    returns (r: Effect)
    ensures r.error.None?
    ensures exists follows: seq<Fid> :: NoDuplicates(follows) && rootFid !in follows
              && Elems(follows) == Elems(Network.Adj(hub.links, rootFid)) - {rootFid}
              && r.world == w.(targets := Targets.AddRootTarget(w.targets, rootFid),
                               flows := w.flows + [RootFlow(rootFid, follows, partial, removeMessages)])
  {
    var net := Network.GetNetworkByFid(hub.links, rootFid, 2);
    DepthOneOfWalk(hub.links, rootFid, net);
    var level := if 1 in net.linksByDepth then net.linksByDepth[1] else {};
    var follows := Enumerate(level);
    assert rootFid !in Elems(follows);
    r := Effect(w.(targets := Targets.AddRootTarget(w.targets, rootFid),
                   flows := w.flows + [RootFlow(rootFid, follows, partial, removeMessages)]), None);
  }

  /* ---------- start-up ---------- */

  /**
   * `backfill()`: after starting the workers, the event id of the current time is saved as
   * the cursor the subscriber resumes from.
   */
  function Backfill(w: World, now: int): (r: World)
    ensures r == w.(cursor := r.cursor)
    ensures ProcessorsEvent.GetLatestEvent(r) == Some(Numerals.Num((now - FarcasterEpoch) * 4096))
  {
    LibEvent.MakeLatestEventIdValue(now);
    var id := LibEvent.MakeLatestEventId(now);
    ProcessorsEvent.SaveThenGet(w, id.n);
    ProcessorsEvent.SaveLatestEventId(w, id.n)
  }

  /**
   * `getAllFids`: the hub's highest fid, read as the first fid of a one-item reversed page,
   * gives every fid from 1 up to it; an error result throws, and an empty page gives none.
   */
  function GetAllFids(latest: Result<seq<Fid>, Error>): (r: Result<seq<Fid>, Error>)
    ensures latest.Err? <==> r.Err?
    ensures r.Err? ==> r.error == HubFailure
    ensures r.Ok? ==> |r.value| == (if |latest.value| > 0 then latest.value[0] else 0)
    ensures r.Ok? ==> forall i :: 0 <= i < |r.value| ==> r.value[i] == i + 1
  {
    if latest.Err? then Err(HubFailure)
    else
      var n := if |latest.value| > 0 then latest.value[0] else 0;
      Ok(seq(n, (i: int) => i + 1))
  }
}
