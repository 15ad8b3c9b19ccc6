/**
 * The target registry (src/lib/targets.ts): two Redis sets of fids, `targets:root` for the
 * accounts whose networks are followed and `targets:all` for every account being indexed.
 */
module Targets {
  import opened Wrappers
  import opened Protocol
  import opened Seqs
  import Numerals

  datatype Targets = Targets(root: set<Fid>, all: set<Fid>)

  const RootTargetsKey: string := "targets:root"
  const AllTargetsKey: string := "targets:all"

  /** The Redis set stored under `key`; every other key holds the empty set. */
  function SetAt(t: Targets, key: string): set<Fid> {
    if key == RootTargetsKey then t.root else if key == AllTargetsKey then t.all else {}
  }

  /** The registry's intended shape: every root target is also a target. */
  predicate RootWithinAll(t: Targets) {
    t.root <= t.all
  }

  /** `isTarget(fid, key)`, where an absent key means `targets:all`. */
  function IsTarget(t: Targets, fid: Fid, key: Option<string>): (b: bool)
    ensures key.None? ==> (b <==> fid in t.all)
    ensures key == Some(RootTargetsKey) ==> (b <==> fid in t.root)
  {
    fid in SetAt(t, if key.Some? then key.value else AllTargetsKey)
  }

  /** `isRootTarget`: membership of the root set. */
  function IsRootTarget(t: Targets, fid: Fid): (b: bool)
    ensures b <==> fid in t.root
  {
    IsTarget(t, fid, Some(RootTargetsKey))
  }

  function AddRootTarget(t: Targets, fid: Fid): (r: Targets)
    ensures fid in r.root && fid in r.all
    ensures RootWithinAll(t) ==> RootWithinAll(r)
    ensures r.root - {fid} == t.root - {fid} && r.all - {fid} == t.all - {fid}
  {
    Targets(t.root + {fid}, t.all + {fid})
  }

  function AddTarget(t: Targets, fid: Fid): (r: Targets)
    ensures fid in r.all && r.root == t.root
    ensures r.all - {fid} == t.all - {fid}
    ensures RootWithinAll(t) ==> RootWithinAll(r)
  {
    t.(all := t.all + {fid})
  }

  function RemoveRootTarget(t: Targets, fid: Fid): (r: Targets)
    ensures fid !in r.root && r.all == t.all
    ensures r.root - {fid} == t.root - {fid}
    ensures RootWithinAll(t) ==> RootWithinAll(r)
  {
    t.(root := t.root - {fid})
  }

  function RemoveTarget(t: Targets, fid: Fid): (r: Targets)
    ensures fid !in r.all && r.root == t.root
    ensures r.all - {fid} == t.all - {fid}
  {
    t.(all := t.all - {fid})
  }

  /** `removeTarget` alone can leave a root target outside the set of all targets. */
  lemma RemoveTargetBreaksRootWithinAll(fid: Fid)
    ensures RootWithinAll(AddRootTarget(Targets({}, {}), fid))
    ensures !RootWithinAll(RemoveTarget(AddRootTarget(Targets({}, {}), fid), fid))
  {
    assert fid in RemoveTarget(AddRootTarget(Targets({}, {}), fid), fid).root;
  }

  /** Adds and removes have set semantics: doing one twice is doing it once. */
  lemma TargetOpsIdempotent(t: Targets, fid: Fid)
    ensures AddRootTarget(AddRootTarget(t, fid), fid) == AddRootTarget(t, fid)
    ensures AddTarget(AddTarget(t, fid), fid) == AddTarget(t, fid)
    ensures RemoveTarget(RemoveTarget(t, fid), fid) == RemoveTarget(t, fid)
    ensures RemoveRootTarget(RemoveRootTarget(t, fid), fid) == RemoveRootTarget(t, fid)
  {
  }

  /** Adding a target and then removing it restores the registry exactly when it was not there before. */
  lemma AddThenRemoveRestores(t: Targets, fid: Fid)
    ensures RemoveTarget(AddTarget(t, fid), fid) == t <==> fid !in t.all
  {
    if fid in t.all {
      assert fid !in RemoveTarget(AddTarget(t, fid), fid).all;
    }
  }

  /** The members Redis returns for `smembers`: the decimal strings of the fids, in any order. */
  function MemberStrings(fids: seq<Fid>): (r: seq<string>)
    ensures |r| == |fids|
    ensures forall i :: 0 <= i < |fids| ==> r[i] == Numerals.Decimal(fids[i])
  {
    seq(|fids|, i requires 0 <= i < |fids| => Numerals.Decimal(fids[i]))
  }

  /**
   * `getTargets` as written: `targetsStrings.map(parseInt)` passes each element's index as
   * the radix argument of `parseInt`.
   */
  function GetTargetsAsWritten(members: seq<string>): (r: set<Numerals.JsNumber>)
    ensures forall i :: 0 <= i < |members| ==> Numerals.ParseInt(members[i], i) in r
  {
    set i | 0 <= i < |members| :: Numerals.ParseInt(members[i], i)
  }

  /** Radix 1 is out of range, so the second member always decodes to NaN, whatever it holds. */
  lemma GetTargetsAsWrittenYieldsNaN(members: seq<string>)
    requires |members| >= 2
    ensures Numerals.NaN in GetTargetsAsWritten(members)
  {
    assert Numerals.ParseInt(members[1], 1) == Numerals.NaN;
  }

  /** With the targets {1, 2} stored and replied in the order ["1", "2"], the code reads back {1, NaN}. */
  lemma GetTargetsAsWrittenCounterexample()
    ensures GetTargetsAsWritten(MemberStrings([1, 2])) == {Numerals.Num(1), Numerals.NaN}
    ensures Numerals.Num(2) !in GetTargetsAsWritten(MemberStrings([1, 2]))
  {
    var ms := MemberStrings([1, 2]);
    Numerals.DecimalRoundTrip(1);
    assert ms[0] == Numerals.Decimal(1);
    assert Numerals.ParseInt(ms[0], 0) == Numerals.Num(1);
    assert Numerals.ParseInt(ms[1], 1) == Numerals.NaN;
    assert GetTargetsAsWritten(ms) == {Numerals.ParseInt(ms[0], 0), Numerals.ParseInt(ms[1], 1)};
  }

  /** `getTargets` as intended: every member parsed as a decimal number. */
  function GetTargets(members: seq<string>): set<Numerals.JsNumber> {
    set i | 0 <= i < |members| :: Numerals.ParseInt(members[i], 10)
  }

  /** Reading a stored set back gives exactly the fids that were stored. */
  lemma GetTargetsRoundTrip(fids: seq<Fid>)
    ensures GetTargets(MemberStrings(fids)) == set f | f in fids :: Numerals.Num(f)
  {
    var ms := MemberStrings(fids);
    forall i | 0 <= i < |fids| ensures Numerals.ParseInt(ms[i], 10) == Numerals.Num(fids[i]) {
      Numerals.DecimalRoundTrip(fids[i]);
    }
    forall f | f in fids ensures Numerals.Num(f) in GetTargets(ms) {
      var i :| 0 <= i < |fids| && fids[i] == f;
      assert Numerals.ParseInt(ms[i], 10) == Numerals.Num(f);
    }
  }
}
