/**
 * The order on-chain events are applied in: the stable sort by (blockNumber, logIndex) that
 * `getAllRegistrationsByFid`, `getAllSignersByFid` and `getAllStorageByFid` share.
 */
module OnChainOrder {
  import opened Wrappers
  import opened Protocol
  import opened Seqs
  import Paginate

  /** The comparator `a.blockNumber - b.blockNumber`, ties broken by `a.logIndex - b.logIndex`, is not positive. */
  predicate NotAfter(a: OnChainEvent, b: OnChainEvent) {
    a.blockNumber < b.blockNumber || (a.blockNumber == b.blockNumber && a.logIndex <= b.logIndex)
  }

  predicate Sorted(s: seq<OnChainEvent>) {
    forall i, j :: 0 <= i < j < |s| ==> NotAfter(s[i], s[j])
  }

  /** Where `x` goes in a sorted sequence: after every element that does not come after it. */
  function Position(s: seq<OnChainEvent>, x: OnChainEvent): (k: nat)
    requires Sorted(s)
    ensures k <= |s|
    ensures forall i :: 0 <= i < k ==> NotAfter(s[i], x)
    ensures forall i :: k <= i < |s| ==> !NotAfter(s[i], x)
    decreases |s|
  {
    if |s| == 0 || NotAfter(s[|s| - 1], x) then |s|
    else
      assert forall i :: 0 <= i < |s| - 1 ==> s[..|s| - 1][i] == s[i];
      Position(s[..|s| - 1], x)
  }

  function Insert(s: seq<OnChainEvent>, x: OnChainEvent): (r: seq<OnChainEvent>)
    requires Sorted(s)
    ensures multiset(r) == multiset(s) + multiset{x}
    ensures Sorted(r)
  {
    var k := Position(s, x);
    InsertAt(s, x, k);
    s[..k] + [x] + s[k..]
  }

  /** Putting `x` between the elements that do not come after it and those that do keeps the order. */
  lemma InsertAt(s: seq<OnChainEvent>, x: OnChainEvent, k: nat)
    requires Sorted(s) && k <= |s|
    requires forall i :: 0 <= i < k ==> NotAfter(s[i], x)
    requires forall i :: k <= i < |s| ==> !NotAfter(s[i], x)
    ensures multiset(s[..k] + [x] + s[k..]) == multiset(s) + multiset{x}
    ensures Sorted(s[..k] + [x] + s[k..])
  {
    assert multiset(s[..k] + [x] + s[k..]) == multiset(s) + multiset{x} by {
      assert s == s[..k] + s[k..];
    }
    InsertAtSorted(s, x, k);
  }

  lemma InsertAtSorted(s: seq<OnChainEvent>, x: OnChainEvent, k: nat)
    requires Sorted(s) && k <= |s|
    requires forall i :: 0 <= i < k ==> NotAfter(s[i], x)
    requires forall i :: k <= i < |s| ==> !NotAfter(s[i], x)
    ensures Sorted(s[..k] + [x] + s[k..])
  {
    var r := s[..k] + [x] + s[k..];
    assert |r| == |s| + 1;
    assert forall i :: 0 <= i < k ==> r[i] == s[i];
    assert r[k] == x;
    assert forall i :: k < i < |r| ==> r[i] == s[i - 1];
    forall i, j | 0 <= i < j < |r| ensures NotAfter(r[i], r[j]) {
      if j < k {
        assert NotAfter(s[i], s[j]);
      } else if j == k {
        assert NotAfter(s[i], x);
      } else if i < k {
        assert NotAfter(s[i], s[j - 1]);
      } else if i == k {
        assert !NotAfter(s[j - 1], x);
      } else {
        assert NotAfter(s[i - 1], s[j - 1]);
      }
    }
  }

  /** `Array.prototype.sort` with that comparator: insertion in input order keeps equal keys in input order. */
  function SortEvents(s: seq<OnChainEvent>): (r: seq<OnChainEvent>)
    ensures Sorted(r)
    ensures multiset(r) == multiset(s)
    decreases |s|
  {
    if |s| == 0 then []
    else
      assert s == s[..|s| - 1] + [s[|s| - 1]];
      Insert(SortEvents(s[..|s| - 1]), s[|s| - 1])
  }

  /**
   * `getAllRegistrationsByFid`, `getAllSignersByFid`, `getAllStorageByFid`: every page of the one
   * event type, concatenated, then sorted.
   */
  function GetAllOnChainByFid(call: Paginate.OnChainCall, fid: Fid, t: OnChainEventType, maxPages: nat):
    (r: Result<seq<OnChainEvent>, Error>)
    ensures r.Ok? <==> Paginate.TypeBatchesRef(call, fid, Utils.MaxPageSize, t, maxPages, 0).Ok?
    ensures r.Ok? ==> Sorted(r.value)
    ensures r.Ok? ==> multiset(r.value) == multiset(Flatten(Paginate.TypeBatchesRef(call, fid, Utils.MaxPageSize, t, maxPages, 0).value))
  {
    match Paginate.OnChainEventsOfType(call, fid, t, maxPages)
    case Err(e) => Err(e)
    case Ok(events) => Ok(SortEvents(events))
  }

  import Utils
}

/**
 * The loop the three on-chain writers share: events are applied one by one with no
 * transaction, so the first throw stops the loop and keeps every earlier write.
 */
module OnChainApply {
  import opened Wrappers
  import opened Protocol

  function ApplyEach<T>(t: T, events: seq<OnChainEvent>, step: (T, OnChainEvent) -> Result<T, Error>): (T, Option<Error>)
    decreases |events|
  {
    if |events| == 0 then (t, None)
    else
      match step(t, events[0])
      case Err(e) => (t, Some(e))
      case Ok(t') => ApplyEach(t', events[1..], step)
  }

  /** Applying `a + b` is applying `a`, then `b` only when `a` did not throw. */
  lemma {:induction false} ApplyEachAppend<T>(t: T, a: seq<OnChainEvent>, b: seq<OnChainEvent>, step: (T, OnChainEvent) -> Result<T, Error>)
    ensures ApplyEach(t, a, step).1.Some? ==> ApplyEach(t, a + b, step) == ApplyEach(t, a, step)
    ensures ApplyEach(t, a, step).1.None? ==> ApplyEach(t, a + b, step) == ApplyEach(ApplyEach(t, a, step).0, b, step)
    decreases |a|
  {
    if |a| == 0 {
      assert a + b == b;
    } else {
      assert (a + b)[0] == a[0] && (a + b)[1..] == a[1..] + b;
      if step(t, a[0]).Ok? {
        ApplyEachAppend(step(t, a[0]).value, a[1..], b, step);
      }
    }
  }

  /** One event: its step's result, or the error with nothing changed. */
  lemma ApplyEachOne<T>(t: T, ev: OnChainEvent, step: (T, OnChainEvent) -> Result<T, Error>)
    ensures ApplyEach(t, [ev], step)
            == if step(t, ev).Ok? then (step(t, ev).value, None) else (t, Some(step(t, ev).error))
  {
    assert [ev][1..] == [];
  }

  /** A step keeps every row and changes none of another fid's rows. */
  ghost predicate FramesByFid<K(!new), V(!new)>(step: (map<K, V>, OnChainEvent) -> Result<map<K, V>, Error>, fidOf: K -> Fid) {
    forall u: map<K, V>, ev: OnChainEvent, k: K :: step(u, ev).Ok? && k in u && fidOf(k) != ev.fid ==>
      k in step(u, ev).value && step(u, ev).value[k] == u[k]
  }

  /** A step never removes a row. */
  ghost predicate KeepsKeys<K(!new), V(!new)>(step: (map<K, V>, OnChainEvent) -> Result<map<K, V>, Error>) {
    forall u: map<K, V>, ev: OnChainEvent :: step(u, ev).Ok? ==> u.Keys <= step(u, ev).value.Keys
  }

  lemma {:induction false} ApplyEachKeepsKeys<K(!new), V(!new)>(t: map<K, V>, events: seq<OnChainEvent>,
                                                  step: (map<K, V>, OnChainEvent) -> Result<map<K, V>, Error>)
    requires KeepsKeys(step)
    ensures t.Keys <= ApplyEach(t, events, step).0.Keys
    decreases |events|
  {
    if |events| > 0 && step(t, events[0]).Ok? {
      ApplyEachKeepsKeys(step(t, events[0]).value, events[1..], step);
    }
  }

  /** Rows of a fid no event names come out as they went in, whether or not the loop throws. */
  lemma {:induction false} ApplyEachKeeps<K(!new), V(!new)>(t: map<K, V>, events: seq<OnChainEvent>,
                                              step: (map<K, V>, OnChainEvent) -> Result<map<K, V>, Error>,
                                              fidOf: K -> Fid, k: K)
    requires FramesByFid(step, fidOf)
    requires k in t && forall i :: 0 <= i < |events| ==> events[i].fid != fidOf(k)
    ensures k in ApplyEach(t, events, step).0 && ApplyEach(t, events, step).0[k] == t[k]
    decreases |events|
  {
    if |events| > 0 && step(t, events[0]).Ok? {
      assert events[0].fid != fidOf(k);
      ApplyEachKeeps(step(t, events[0]).value, events[1..], step, fidOf, k);
    }
  }
}

/** The id-registry writer (src/api/fid.ts): REGISTER upserts a fid row, TRANSFER and CHANGE_RECOVERY update one. */
module ApiFid {
  import opened Wrappers
  import opened Protocol
  import opened Utils
  import opened Store
  import opened OnChainApply

  function SetFids(w: World, t: map<Fid, FidRow>): World {
    w.(tables := w.tables.(fids := t))
  }

  /** An empty address stands for the zero address. */
  function AddressOrNull(b: Bytes): (r: Bytes)
    ensures |r| > 0
    ensures |b| > 0 ==> r == b
    ensures |b| == 0 ==> r == NullEthAddress && |r| == 20 && forall i :: 0 <= i < |r| ==> r[i] == 0
  {
    if |b| > 0 then b else NullEthAddress
  }

  /** One event of `insertRegistrations`. */
  function RegistrationStep(env: Env, fids: map<Fid, FidRow>, ev: OnChainEvent): (r: Result<map<Fid, FidRow>, Error>)
    ensures !ev.body.IdRegisterBody? ==> r == Err(InvalidRegistration)
    ensures ev.body.IdRegisterBody? && (ev.body.idEventType.IdNone? || ev.body.idEventType.IdUnknown?) ==>
              r == Err(InvalidIdRegisterType)
    ensures ev.body.IdRegisterBody? && (ev.body.idEventType.Register? || ev.body.idEventType.Transfer? || ev.body.idEventType.ChangeRecovery?) ==>
              (r.Err? <==> env.refuses(OnChainWrite(FidsTable, ev))) && (r.Err? ==> r.error == DatabaseRefused)
    ensures r.Ok? ==> forall k :: k in fids && k != ev.fid ==> k in r.value && r.value[k] == fids[k]
    ensures r.Ok? ==> r.value.Keys == fids.Keys + (if ev.body.idEventType.Register? then {ev.fid} else {})
    ensures r.Ok? && ev.body.idEventType.Register? ==>
              && r.value[ev.fid].registeredAt == ev.blockTimestamp * 1000
              && r.value[ev.fid].custodyAddress == AddressOrNull(ev.body.to)
              && r.value[ev.fid].recoveryAddress == AddressOrNull(ev.body.recoveryAddress)
              && r.value[ev.fid].updatedAt == (if ev.fid in fids then Some(env.now) else None)
    ensures r.Ok? && ev.body.idEventType.Transfer? && ev.fid in fids ==>
              r.value[ev.fid] == fids[ev.fid].(custodyAddress := AddressOrNull(ev.body.to), updatedAt := Some(env.now))
    ensures r.Ok? && ev.body.idEventType.ChangeRecovery? && ev.fid in fids ==>
              r.value[ev.fid] == fids[ev.fid].(recoveryAddress := AddressOrNull(ev.body.recoveryAddress), updatedAt := Some(env.now))
    ensures r.Ok? && !ev.body.idEventType.Register? ==> ev.fid !in fids ==> r.value == fids
  {
    if !ev.body.IdRegisterBody? then Err(InvalidRegistration)
    else
      var custody := AddressOrNull(ev.body.to);
      var recovery := AddressOrNull(ev.body.recoveryAddress);
      match ev.body.idEventType
      case Register =>
        if env.refuses(OnChainWrite(FidsTable, ev)) then Err(DatabaseRefused)
        else
          var ms := ev.blockTimestamp * 1000;
          var row := if ev.fid in fids
                     then fids[ev.fid].(registeredAt := ms, custodyAddress := custody,
                                        recoveryAddress := recovery, updatedAt := Some(env.now))
                     else FidRow(ev.fid, ms, custody, recovery, None);
          Ok(fids[ev.fid := row])
      case Transfer =>
        if env.refuses(OnChainWrite(FidsTable, ev)) then Err(DatabaseRefused)
        else if ev.fid in fids then Ok(fids[ev.fid := fids[ev.fid].(custodyAddress := custody, updatedAt := Some(env.now))])
        else Ok(fids)
      case ChangeRecovery =>
        if env.refuses(OnChainWrite(FidsTable, ev)) then Err(DatabaseRefused)
        else if ev.fid in fids then Ok(fids[ev.fid := fids[ev.fid].(recoveryAddress := recovery, updatedAt := Some(env.now))])
        else Ok(fids)
      case IdNone => Err(InvalidIdRegisterType)
      case IdUnknown(_) => Err(InvalidIdRegisterType)
  }

  function FidOf(k: Fid): Fid { k }

  lemma StepFrames(env: Env)
    ensures FramesByFid(Step(env), FidOf) && KeepsKeys(Step(env))
  {
    forall u, ev | Step(env)(u, ev).Ok? ensures u.Keys <= Step(env)(u, ev).value.Keys {
      assert Step(env)(u, ev) == RegistrationStep(env, u, ev);
    }
  }

  function Step(env: Env): (map<Fid, FidRow>, OnChainEvent) -> Result<map<Fid, FidRow>, Error> {
    (t: map<Fid, FidRow>, ev: OnChainEvent) => RegistrationStep(env, t, ev)
  }

  /**
   * `insertRegistrations`: the events in order, each its own statement; the first throw ends
   * the loop, and the rows of fids no event names are untouched.
   */
  function InsertRegistrations(env: Env, w: World, events: seq<OnChainEvent>): (r: Effect)
    ensures r.world == SetFids(w, r.world.tables.fids)
    ensures w.tables.fids.Keys <= r.world.tables.fids.Keys
    ensures forall k :: k in w.tables.fids && (forall i :: 0 <= i < |events| ==> events[i].fid != k) ==>
              r.world.tables.fids[k] == w.tables.fids[k]
    ensures |events| == 0 ==> r == Effect(w, None)
  {
    StepFrames(env);
    var res := ApplyEach(w.tables.fids, events, Step(env));
    ApplyEachKeepsKeys(w.tables.fids, events, Step(env));
    forall k | k in w.tables.fids && (forall i :: 0 <= i < |events| ==> events[i].fid != k)
      ensures res.0[k] == w.tables.fids[k]
    {
      ApplyEachKeeps(w.tables.fids, events, Step(env), FidOf, k);
    }
    Effect(SetFids(w, res.0), res.1)
  }

  /** One event: the writer does exactly what the step does, and a throw leaves the world as it was. */
  lemma InsertRegistrationsOne(env: Env, w: World, ev: OnChainEvent)
    ensures var r := InsertRegistrations(env, w, [ev]);
            && (r.error.None? <==> RegistrationStep(env, w.tables.fids, ev).Ok?)
            && (r.error.None? ==> r.world.tables.fids == RegistrationStep(env, w.tables.fids, ev).value)
            && (r.error.Some? ==> r.world == w && r.error.value == RegistrationStep(env, w.tables.fids, ev).error)
  {
    ApplyEachOne(w.tables.fids, ev, Step(env));
    assert Step(env)(w.tables.fids, ev) == RegistrationStep(env, w.tables.fids, ev);
  }

  /** No transaction: registering `a + b` registers `a`, then `b` only if `a` did not throw. */
  lemma InsertRegistrationsAppend(env: Env, w: World, a: seq<OnChainEvent>, b: seq<OnChainEvent>)
    ensures InsertRegistrations(env, w, a + b)
            == Then(InsertRegistrations(env, w, a), (w': World) => InsertRegistrations(env, w', b))
  {
    ApplyEachAppend(w.tables.fids, a, b, Step(env));
  }

  /** A transfer of a fid that was never registered changes nothing. */
  lemma TransferOfUnknownFid(env: Env, w: World, ev: OnChainEvent)
    requires ev.body.IdRegisterBody? && ev.body.idEventType.Transfer?
    requires ev.fid !in w.tables.fids && !env.refuses(OnChainWrite(FidsTable, ev))
    ensures InsertRegistrations(env, w, [ev]) == Effect(w, None)
  {
    InsertRegistrationsOne(env, w, ev);
  }
}

/** The key-registry writer (src/api/signer.ts): ADD upserts a signer row, REMOVE marks it removed. */
module ApiSigner {
  import opened Wrappers
  import opened Protocol
  import opened Store
  import opened OnChainApply

  function SetSigners(w: World, t: map<(Fid, Bytes), SignerRow>): World {
    w.(tables := w.tables.(signers := t))
  }

  /**
   * One event of `insertSigners`. The REMOVE update is not awaited, so its failure is never
   * seen; event types other than ADD and REMOVE fall through the switch.
   */
  function SignerStep(env: Env, t: map<(Fid, Bytes), SignerRow>, ev: OnChainEvent): (r: Result<map<(Fid, Bytes), SignerRow>, Error>)
    ensures !ev.body.SignerBody? ==> r == Err(InvalidSigner)
    ensures ev.body.SignerBody? && ev.body.signerEventType.Add? ==>
              && (env.decode(ev.body.metadata).None? ==> r == Err(UndecodableMetadata))
              && (env.decode(ev.body.metadata).Some? ==>
                    (r.Err? <==> env.refuses(OnChainWrite(SignersTable, ev))) && (r.Err? ==> r.error == DatabaseRefused))
    ensures ev.body.SignerBody? && !ev.body.signerEventType.Add? ==> r.Ok?
    ensures r.Ok? ==> forall k :: k in t && k != (ev.fid, ev.body.key) ==> k in r.value && r.value[k] == t[k]
    ensures r.Ok? ==> r.value.Keys == t.Keys + (if ev.body.signerEventType.Add? then {(ev.fid, ev.body.key)} else {})
    ensures r.Ok? && ev.body.signerEventType.Add? ==>
              && r.value[(ev.fid, ev.body.key)].addedAt == ev.blockTimestamp * 1000
              && r.value[(ev.fid, ev.body.key)].metadata == env.decode(ev.body.metadata).value
              && r.value[(ev.fid, ev.body.key)].requesterFid == env.decode(ev.body.metadata).value.requestFid
              && r.value[(ev.fid, ev.body.key)].keyType == ev.body.keyType
              && r.value[(ev.fid, ev.body.key)].metadataType == ev.body.metadataType
              && r.value[(ev.fid, ev.body.key)].removedAt
                 == (if (ev.fid, ev.body.key) in t then t[(ev.fid, ev.body.key)].removedAt else None)
              && r.value[(ev.fid, ev.body.key)].updatedAt
                 == (if (ev.fid, ev.body.key) in t then Some(env.now) else None)
    ensures r.Ok? && ev.body.signerEventType.Remove? && (ev.fid, ev.body.key) in t ==>
              r.value[(ev.fid, ev.body.key)] ==
                (if env.refuses(OnChainWrite(SignersTable, ev)) then t[(ev.fid, ev.body.key)]
                 else t[(ev.fid, ev.body.key)].(removedAt := Some(ev.blockTimestamp * 1000), updatedAt := Some(env.now)))
    ensures r.Ok? && !ev.body.signerEventType.Add? && !ev.body.signerEventType.Remove? ==> r.value == t
  {
    if !ev.body.SignerBody? then Err(InvalidSigner)
    else
      var ms := ev.blockTimestamp * 1000;
      var k := (ev.fid, ev.body.key);
      if ev.body.signerEventType.Add? then
        match env.decode(ev.body.metadata)
        case None => Err(UndecodableMetadata)
        case Some(md) =>
          if env.refuses(OnChainWrite(SignersTable, ev)) then Err(DatabaseRefused)
          else
            var row := if k in t
                       then t[k].(addedAt := ms, requesterFid := md.requestFid, keyType := ev.body.keyType,
                                  metadata := md, metadataType := ev.body.metadataType, updatedAt := Some(env.now))
                       else SignerRow(ev.fid, ev.body.key, ms, md.requestFid, ev.body.keyType, md,
                                      ev.body.metadataType, None, None);
            Ok(t[k := row])
      else if ev.body.signerEventType.Remove? then
        if env.refuses(OnChainWrite(SignersTable, ev)) || k !in t then Ok(t)
        else Ok(t[k := t[k].(removedAt := Some(ms), updatedAt := Some(env.now))])
      else Ok(t)
  }

  function FidOf(k: (Fid, Bytes)): Fid { k.0 }

  lemma StepFrames(env: Env)
    ensures FramesByFid(Step(env), FidOf) && KeepsKeys(Step(env))
  {
    forall u, ev | Step(env)(u, ev).Ok? ensures u.Keys <= Step(env)(u, ev).value.Keys {
      assert Step(env)(u, ev) == SignerStep(env, u, ev);
    }
  }

  function Step(env: Env): (map<(Fid, Bytes), SignerRow>, OnChainEvent) -> Result<map<(Fid, Bytes), SignerRow>, Error> {
    (t: map<(Fid, Bytes), SignerRow>, ev: OnChainEvent) => SignerStep(env, t, ev)
  }

  /** `insertSigners`: the events in order with no transaction; other fids' signers are untouched. */
  function InsertSigners(env: Env, w: World, events: seq<OnChainEvent>): (r: Effect)
    ensures r.world == SetSigners(w, r.world.tables.signers)
    ensures w.tables.signers.Keys <= r.world.tables.signers.Keys
    ensures forall k :: k in w.tables.signers && (forall i :: 0 <= i < |events| ==> events[i].fid != k.0) ==>
              r.world.tables.signers[k] == w.tables.signers[k]
    ensures |events| == 0 ==> r == Effect(w, None)
  {
    StepFrames(env);
    var res := ApplyEach(w.tables.signers, events, Step(env));
    ApplyEachKeepsKeys(w.tables.signers, events, Step(env));
    forall k | k in w.tables.signers && (forall i :: 0 <= i < |events| ==> events[i].fid != k.0)
      ensures res.0[k] == w.tables.signers[k]
    {
      ApplyEachKeeps(w.tables.signers, events, Step(env), FidOf, k);
    }
    Effect(SetSigners(w, res.0), res.1)
  }

  /** One event: the writer does exactly what the step does, and a throw leaves the world as it was. */
  lemma InsertSignersOne(env: Env, w: World, ev: OnChainEvent)
    ensures var r := InsertSigners(env, w, [ev]);
            && (r.error.None? <==> SignerStep(env, w.tables.signers, ev).Ok?)
            && (r.error.None? ==> r.world.tables.signers == SignerStep(env, w.tables.signers, ev).value)
            && (r.error.Some? ==> r.world == w && r.error.value == SignerStep(env, w.tables.signers, ev).error)
  {
    ApplyEachOne(w.tables.signers, ev, Step(env));
    assert Step(env)(w.tables.signers, ev) == SignerStep(env, w.tables.signers, ev);
  }

  lemma InsertSignersAppend(env: Env, w: World, a: seq<OnChainEvent>, b: seq<OnChainEvent>)
    ensures InsertSigners(env, w, a + b) == Then(InsertSigners(env, w, a), (w': World) => InsertSigners(env, w', b))
  {
    ApplyEachAppend(w.tables.signers, a, b, Step(env));
  }

  /** Adding a key again after it was removed (a replayed add) leaves it marked removed. */
  lemma ReAddKeepsRemoval(env: Env, w: World, add: OnChainEvent, remove: OnChainEvent)
    requires add.body.SignerBody? && add.body.signerEventType.Add? && env.decode(add.body.metadata).Some?
    requires remove.body.SignerBody? && remove.body.signerEventType.Remove?
    requires remove.fid == add.fid && remove.body.key == add.body.key
    requires !env.refuses(OnChainWrite(SignersTable, add)) && !env.refuses(OnChainWrite(SignersTable, remove))
    ensures InsertSigners(env, w, [add, remove, add]).error.None?
    ensures (add.fid, add.body.key) in InsertSigners(env, w, [add, remove, add]).world.tables.signers
    ensures InsertSigners(env, w, [add, remove, add]).world.tables.signers[(add.fid, add.body.key)].removedAt
            == Some(remove.blockTimestamp * 1000)
  {
    InsertSignersOne(env, w, add);
    var w1 := InsertSigners(env, w, [add]).world;
    InsertSignersOne(env, w1, remove);
    var w2 := InsertSigners(env, w1, [remove]).world;
    InsertSignersOne(env, w2, add);
    InsertSignersAppend(env, w, [add], [remove, add]);
    InsertSignersAppend(env, w1, [remove], [add]);
    assert [add] + [remove, add] == [add, remove, add];
    assert [remove] + [add] == [remove, add];
  }
}

/** The storage writer (src/api/storage.ts): each rent event upserts the row of its (fid, expiry). */
module ApiStorage {
  import opened Wrappers
  import opened Protocol
  import opened Store
  import opened OnChainApply

  function SetStorage(w: World, t: map<(Fid, int), StorageRow>): World {
    w.(tables := w.tables.(storage := t))
  }

  /** One event of `insertStorage`: the expiry is converted before the statement is sent. */
  function StorageStep(env: Env, t: map<(Fid, int), StorageRow>, ev: OnChainEvent): (r: Result<map<(Fid, int), StorageRow>, Error>)
    ensures !ev.body.StorageRentBody? ==> r == Err(InvalidStorage)
    ensures ev.body.StorageRentBody? ==>
              && (env.toDate(ev.body.expiry).None? ==> r == Err(InvalidTime(ev.body.expiry)))
              && (env.toDate(ev.body.expiry).Some? ==>
                    (r.Err? <==> env.refuses(OnChainWrite(StorageTable, ev))) && (r.Err? ==> r.error == DatabaseRefused))
    ensures r.Ok? ==> var k := (ev.fid, env.toDate(ev.body.expiry).value);
              && r.value.Keys == t.Keys + {k}
              && (forall k' :: k' in t && k' != k ==> r.value[k'] == t[k'])
              && r.value[k].units == ev.body.units
              && r.value[k].payer == ev.body.payer
              && r.value[k].rentedAt == ev.blockTimestamp * 1000
              && r.value[k].expiresAt == k.1
              && r.value[k].updatedAt == (if k in t then Some(env.now) else None)
  {
    if !ev.body.StorageRentBody? then Err(InvalidStorage)
    else
      match ToDate(env.toDate, ev.body.expiry)
      case Err(e) => Err(e)
      case Ok(expiresAt) =>
        if env.refuses(OnChainWrite(StorageTable, ev)) then Err(DatabaseRefused)
        else
          var ms := ev.blockTimestamp * 1000;
          var k := (ev.fid, expiresAt);
          var row := if k in t
                     then t[k].(units := ev.body.units, payer := ev.body.payer, expiresAt := expiresAt,
                                rentedAt := ms, updatedAt := Some(env.now))
                     else StorageRow(ev.fid, ev.body.units, ev.body.payer, ms, expiresAt, None);
          Ok(t[k := row])
  }

  function FidOf(k: (Fid, int)): Fid { k.0 }

  lemma StepFrames(env: Env)
    ensures FramesByFid(Step(env), FidOf) && KeepsKeys(Step(env))
  {
    forall u, ev | Step(env)(u, ev).Ok? ensures u.Keys <= Step(env)(u, ev).value.Keys {
      assert Step(env)(u, ev) == StorageStep(env, u, ev);
    }
  }

  function Step(env: Env): (map<(Fid, int), StorageRow>, OnChainEvent) -> Result<map<(Fid, int), StorageRow>, Error> {
    (t: map<(Fid, int), StorageRow>, ev: OnChainEvent) => StorageStep(env, t, ev)
  }

  /** `insertStorage`: the events in order with no transaction; other fids' rows are untouched. */
  function InsertStorage(env: Env, w: World, events: seq<OnChainEvent>): (r: Effect)
    ensures r.world == SetStorage(w, r.world.tables.storage)
    ensures w.tables.storage.Keys <= r.world.tables.storage.Keys
    ensures forall k :: k in w.tables.storage && (forall i :: 0 <= i < |events| ==> events[i].fid != k.0) ==>
              r.world.tables.storage[k] == w.tables.storage[k]
    ensures |events| == 0 ==> r == Effect(w, None)
  {
    StepFrames(env);
    var res := ApplyEach(w.tables.storage, events, Step(env));
    ApplyEachKeepsKeys(w.tables.storage, events, Step(env));
    forall k | k in w.tables.storage && (forall i :: 0 <= i < |events| ==> events[i].fid != k.0)
      ensures res.0[k] == w.tables.storage[k]
    {
      ApplyEachKeeps(w.tables.storage, events, Step(env), FidOf, k);
    }
    Effect(SetStorage(w, res.0), res.1)
  }

  /** One event: the writer does exactly what the step does, and a throw leaves the world as it was. */
  lemma InsertStorageOne(env: Env, w: World, ev: OnChainEvent)
    ensures var r := InsertStorage(env, w, [ev]);
            && (r.error.None? <==> StorageStep(env, w.tables.storage, ev).Ok?)
            && (r.error.None? ==> r.world.tables.storage == StorageStep(env, w.tables.storage, ev).value)
            && (r.error.Some? ==> r.world == w && r.error.value == StorageStep(env, w.tables.storage, ev).error)
  {
    ApplyEachOne(w.tables.storage, ev, Step(env));
    assert Step(env)(w.tables.storage, ev) == StorageStep(env, w.tables.storage, ev);
  }

  lemma InsertStorageAppend(env: Env, w: World, a: seq<OnChainEvent>, b: seq<OnChainEvent>)
    ensures InsertStorage(env, w, a + b) == Then(InsertStorage(env, w, a), (w': World) => InsertStorage(env, w', b))
  {
    ApplyEachAppend(w.tables.storage, a, b, Step(env));
  }

  /** Replaying an event leaves its row as the first pass left it, apart from `updatedAt`. */
  lemma ReplayOnlyTouchesUpdatedAt(env: Env, w: World, ev: OnChainEvent)
    requires ev.body.StorageRentBody? && env.toDate(ev.body.expiry).Some?
    requires !env.refuses(OnChainWrite(StorageTable, ev))
    ensures InsertStorage(env, w, [ev]).error.None? && InsertStorage(env, w, [ev, ev]).error.None?
    ensures InsertStorage(env, w, [ev]).world.tables.storage.Keys == InsertStorage(env, w, [ev, ev]).world.tables.storage.Keys
    ensures forall k :: k in InsertStorage(env, w, [ev]).world.tables.storage && k != (ev.fid, env.toDate(ev.body.expiry).value) ==>
              InsertStorage(env, w, [ev, ev]).world.tables.storage[k] == InsertStorage(env, w, [ev]).world.tables.storage[k]
    ensures (ev.fid, env.toDate(ev.body.expiry).value) in InsertStorage(env, w, [ev]).world.tables.storage
    ensures InsertStorage(env, w, [ev, ev]).world.tables.storage[(ev.fid, env.toDate(ev.body.expiry).value)]
            == InsertStorage(env, w, [ev]).world.tables.storage[(ev.fid, env.toDate(ev.body.expiry).value)].(updatedAt := Some(env.now))
  {
    InsertStorageOne(env, w, ev);
    var w1 := InsertStorage(env, w, [ev]).world;
    InsertStorageOne(env, w1, ev);
    InsertStorageAppend(env, w, [ev], [ev]);
    assert [ev] + [ev] == [ev, ev];
  }
}
