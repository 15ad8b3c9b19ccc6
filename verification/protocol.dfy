/**
 * The hub's vocabulary as the indexer sees it: signed messages with a typed body, on-chain
 * events from the Farcaster registry contracts, hub events carrying either of them, and the
 * errors the indexer's code can raise while handling them.
 */
module Protocol {
  import opened Wrappers

  type Byte = x: int | 0 <= x < 256
  type Bytes = seq<Byte>
  /** A Farcaster id. */
  type Fid = nat

  /** `FARCASTER_EPOCH`: 2021-01-01T00:00:00Z in milliseconds since the Unix epoch. */
  const FarcasterEpoch: int := 1609459200000

  /** The identity of a cast: its author and its hash. */
  datatype CastId = CastId(fid: Fid, hash: Bytes)

  /** `MessageType`; `OtherType` stands for every type the indexer does not handle by name. */
  datatype MessageType =
    | CastAdd | CastRemove
    | ReactionAdd | ReactionRemove
    | LinkAdd | LinkRemove | LinkCompactState
    | VerificationAddAddress | VerificationRemove
    | UserDataAdd
    | OtherType(code: int)

  /**
   * The one body a message carries. Optional protobuf fields are `Option`s; a string field
   * that is absent and one that is empty are both falsy in the code that reads them.
   */
  datatype Body =
    | CastAddBody(text: string, mentions: seq<Fid>, mentionsPositions: seq<nat>, embeds: seq<string>,
                  parentCastId: Option<CastId>, parentUrl: Option<string>)
    | CastRemoveBody(targetHash: Bytes)
    | ReactionBody(reactionType: int, targetCastId: Option<CastId>, targetUrl: Option<string>)
    | LinkBody(linkType: string, targetFid: Option<Fid>, displayTimestamp: Option<nat>)
    | LinkCompactStateBody(linkType: string, targetFids: seq<Fid>)
    | VerificationAddAddressBody(address: Bytes, blockHash: Bytes, claimSignature: Bytes)
    | VerificationRemoveBody(address: Bytes)
    | UserDataBody(userDataType: int, value: string)
    | NoBody

  /** Message data; `timestamp` is in Farcaster time (seconds since the Farcaster epoch). */
  datatype MessageData = MessageData(mtype: MessageType, fid: Fid, timestamp: nat, body: Body)

  datatype Message = Message(hash: Bytes, data: MessageData)

  /*
   * The `is*Message` guards of the hub library: the type tag matches and the matching body
   * is present.
   */
  predicate IsCastAdd(m: Message) { m.data.mtype == CastAdd && m.data.body.CastAddBody? }
  predicate IsCastRemove(m: Message) { m.data.mtype == CastRemove && m.data.body.CastRemoveBody? }
  predicate IsReactionAdd(m: Message) { m.data.mtype == ReactionAdd && m.data.body.ReactionBody? }
  predicate IsReactionRemove(m: Message) { m.data.mtype == ReactionRemove && m.data.body.ReactionBody? }
  predicate IsLinkAdd(m: Message) { m.data.mtype == LinkAdd && m.data.body.LinkBody? }
  predicate IsLinkRemove(m: Message) { m.data.mtype == LinkRemove && m.data.body.LinkBody? }
  predicate IsLinkCompactState(m: Message) {
    m.data.mtype == LinkCompactState && m.data.body.LinkCompactStateBody?
  }
  predicate IsVerificationAdd(m: Message) {
    m.data.mtype == VerificationAddAddress && m.data.body.VerificationAddAddressBody?
  }
  predicate IsVerificationRemove(m: Message) {
    m.data.mtype == VerificationRemove && m.data.body.VerificationRemoveBody?
  }
  predicate IsUserDataAdd(m: Message) { m.data.mtype == UserDataAdd && m.data.body.UserDataBody? }

  /** A JavaScript truthiness test on an optional string. */
  predicate TruthyString(s: Option<string>) { s.Some? && s.value != "" }

  /** A JavaScript truthiness test on an optional number. */
  predicate TruthyNat(n: Option<nat>) { n.Some? && n.value != 0 }

  datatype IdRegisterEventType = IdNone | Register | Transfer | ChangeRecovery | IdUnknown(code: int)

  datatype SignerEventType = SignerNone | Add | Remove | AdminReset | SignerUnknown(code: int)

  datatype OnChainBody =
    | IdRegisterBody(idEventType: IdRegisterEventType, to: Bytes, recoveryAddress: Bytes)
    | SignerBody(signerEventType: SignerEventType, key: Bytes, keyType: int, metadata: Bytes, metadataType: int)
    | StorageRentBody(payer: Bytes, units: nat, expiry: nat)
    | OtherOnChainBody

  /** An on-chain event; `blockTimestamp` is in seconds. */
  datatype OnChainEvent =
    OnChainEvent(fid: Fid, blockNumber: nat, logIndex: nat, blockTimestamp: nat, body: OnChainBody)

  /** `OnChainEventType`, as requested from the hub. */
  datatype OnChainEventType = EventTypeIdRegister | EventTypeSigner | EventTypeStorageRent

  datatype HubEventBody =
    | MergeMessage(message: Message)
    | PruneMessage
    | RevokeMessage
    | MergeOnChainEvent
    | UnknownHubEvent

  datatype HubEvent = HubEvent(id: nat, body: HubEventBody)

  /** What the indexer's code throws, or the hub returns as an error value. */
  datatype Error =
    | InvalidTime(time: nat)          // `farcasterTimeToDate` rejected a timestamp
    | MissingField                    // a property read through `undefined` (a TypeError)
    | HubFailure                      // an error result or a rejected call to the hub
    | HttpFailure                     // a response that is not ok
    | DatabaseRefused                 // the database rejected a statement
    | InvalidRegistration             // not an id-register event
    | InvalidIdRegisterType           // event type NONE or unknown
    | InvalidSigner                   // not a signer event
    | InvalidStorage                  // not a storage-rent event
    | UndecodableMetadata             // the signed-key-request metadata did not decode
    | PageLimit                       // a page walk reached the bound this model puts on it

  /** `farcasterTimeToDate`: milliseconds since the Unix epoch, or a rejection. */
  type DateFn = nat -> Option<int>

  /** Farcaster time converted, or the error the conversion throws. */
  function ToDate(toDate: DateFn, time: nat): (r: Result<int, Error>)
    ensures r.Ok? <==> toDate(time).Some?
    ensures r.Ok? ==> r.value == toDate(time).value
    ensures r.Err? ==> r.error == InvalidTime(time)
  {
    match toDate(time)
    case Some(d) => Ok(d)
    case None => Err(InvalidTime(time))
  }
}
