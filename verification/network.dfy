/**
 * `getNetworkByFid` of src/lib/links-utils.ts: a breadth-first walk over the follow graph
 * from one account, recording the accounts first seen at each depth and how often each
 * account is followed by the accounts whose links were fetched.
 */
module Network {
  import opened Protocol
  import opened Seqs
  import LinksUtils

  /** An array built from a JS `Set`: no account twice. */
  type LinkList = s: seq<Fid> | NoDuplicates(s) witness []

  /** The accounts each account links to, as `_getAllLinksByFid` returns them. */
  type LinkSource = Fid -> LinkList

  /** The link source of a hub: the out-links of the link messages it returns for each account. */
  function FromMessages(messages: Fid -> seq<Message>): (src: LinkSource)
    ensures forall f, t :: t in src(f) <==> exists i :: 0 <= i < |messages(f)| && t in LinksUtils.LinkTargets(messages(f)[i])
  {
    var src: LinkSource := f => LinksUtils.OutLinks(messages(f));
    assert forall f, t :: t in src(f) <==> exists i :: 0 <= i < |messages(f)| && t in LinksUtils.LinkTargets(messages(f)[i]) by {
      forall f, t ensures t in src(f) <==> exists i :: 0 <= i < |messages(f)| && t in LinksUtils.LinkTargets(messages(f)[i]) {
        assert src(f) == LinksUtils.OutLinks(messages(f));
      }
    }
    src
  }

  function Adj(src: LinkSource, f: Fid): seq<Fid> {
    src(f)
  }

  /* ---------- reference definitions ---------- */

  /** Every account some account of `s` links to. */
  function Next(src: LinkSource, s: set<Fid>): set<Fid> {
    set f, t | f in s && t in Adj(src, f) :: t
  }

  /** `linksToIndex` at depth d: the root, then the union of the previous frontier's links. */
  function Frontier(src: LinkSource, fid: Fid, d: nat): set<Fid> {
    if d == 0 then {fid} else Next(src, Frontier(src, fid, d - 1))
  }

  /** `allLinks` before depth d: every frontier below d. */
  function Seen(src: LinkSource, fid: Fid, d: nat): set<Fid> {
    if d == 0 then {} else Seen(src, fid, d - 1) + Frontier(src, fid, d - 1)
  }

  /** `linksByDepth[d]`: the frontier's accounts not seen at a smaller depth. */
  function Level(src: LinkSource, fid: Fid, d: nat): set<Fid> {
    Frontier(src, fid, d) - Seen(src, fid, d)
  }

  /** The depth the loop reaches from depth d: it stops at `maxDepth` or an empty frontier. */
  function IterationsFrom(src: LinkSource, fid: Fid, maxDepth: nat, d: nat): (r: nat)
    ensures d <= maxDepth ==> d <= r <= maxDepth
    decreases maxDepth - d
  {
    if d >= maxDepth || Frontier(src, fid, d) == {} then d else IterationsFrom(src, fid, maxDepth, d + 1)
  }

  function Iterations(src: LinkSource, fid: Fid, maxDepth: nat): nat {
    IterationsFrom(src, fid, maxDepth, 0)
  }

  /** The depths whose links were fetched: every iteration except one at `maxDepth - 1`. */
  function Fetched(src: LinkSource, fid: Fid, maxDepth: nat): nat {
    var n := Iterations(src, fid, maxDepth);
    if maxDepth > 0 && n == maxDepth then maxDepth - 1 else n
  }

  /** How many accounts of `s` link to t. */
  function Count(src: LinkSource, s: set<Fid>, t: Fid): nat {
    |set f | f in s && t in Adj(src, f)|
  }

  /** `occurrancesByFid[t]` after n fetched depths: the count is never reset between depths. */
  function Popularity(src: LinkSource, fid: Fid, n: nat, t: Fid): nat {
    if n == 0 then 0 else Popularity(src, fid, n - 1, t) + Count(src, Frontier(src, fid, n - 1), t)
  }

  /** A tally's reading for t; an absent key reads as zero. */
  function Tally(pop: map<Fid, nat>, t: Fid): nat {
    if t in pop then pop[t] else 0
  }

  /** `occurrancesByFid` only gets a key by counting it once. */
  predicate Positive(pop: map<Fid, nat>) {
    forall t :: t in pop ==> pop[t] > 0
  }

  datatype Network = Network(allLinks: set<Fid>, linksByDepth: map<nat, set<Fid>>, popularity: map<Fid, nat>)

  /* ---------- step lemmas ---------- */

  lemma NextAdd(src: LinkSource, s: set<Fid>, f: Fid)
    ensures Next(src, s + {f}) == Next(src, s) + Elems(Adj(src, f))
  {
  }

  lemma CountAdd(src: LinkSource, s: set<Fid>, f: Fid, t: Fid)
    requires f !in s
    ensures Count(src, s + {f}, t) == Count(src, s, t) + (if t in Adj(src, f) then 1 else 0)
  {
    var before := set g | g in s && t in Adj(src, g);
    var after := set g | g in s + {f} && t in Adj(src, g);
    if t in Adj(src, f) {
      assert after == before + {f};
    } else {
      assert after == before;
    }
  }

  /* ---------- the walk ---------- */

  /** One list of `nextLinks` counted into `occurrancesByFid`. */
  method TallyList(pop: map<Fid, nat>, links: seq<Fid>) returns (r: map<Fid, nat>)
    requires Positive(pop) && NoDuplicates(links)
    ensures Positive(r)
    ensures forall t :: Tally(r, t) == Tally(pop, t) + (if t in links then 1 else 0)
  {
    r := pop;
    var j := 0;
    while j < |links|
      invariant j <= |links|
      invariant Positive(r)
      invariant forall t :: Tally(r, t) == Tally(pop, t) + (if t in links[..j] then 1 else 0)
    {
      var t := links[j];
      assert t !in links[..j];
      assert links[..j + 1] == links[..j] + [t];
      r := r[t := Tally(r, t) + 1];
      j := j + 1;
    }
    assert links[..j] == links;
  }

  /** Fetches the links of every frontier account: the next frontier and the updated tally. */
  method Expand(src: LinkSource, frontier: set<Fid>, pop: map<Fid, nat>) returns (next: set<Fid>, r: map<Fid, nat>)
    requires Positive(pop)
    ensures next == Next(src, frontier)
    ensures Positive(r)
    ensures forall t :: Tally(r, t) == Tally(pop, t) + Count(src, frontier, t)
  {
    next := {};
    r := pop;
    var remaining := frontier;
    while remaining != {}
      invariant remaining <= frontier
      invariant next == Next(src, frontier - remaining)
      invariant Positive(r)
      invariant forall t :: Tally(r, t) == Tally(pop, t) + Count(src, frontier - remaining, t)
      decreases |remaining|
    {
      var f :| f in remaining;
      var links := Adj(src, f);
      var done := frontier - remaining;
      r := TallyList(r, links);
      next := next + Elems(links);
      NextAdd(src, done, f);
      forall t ensures Count(src, done + {f}, t) == Count(src, done, t) + (if t in links then 1 else 0) {
        CountAdd(src, done, f, t);
      }
      assert frontier - (remaining - {f}) == done + {f};
      remaining := remaining - {f};
    }
    assert frontier - remaining == frontier;
  }

  /** The walk's record after the depths below n: `allLinks` and `linksByDepth`. */
  ghost predicate Indexed(src: LinkSource, fid: Fid, n: nat, all: set<Fid>, byDepth: map<nat, set<Fid>>) {
    all == Seen(src, fid, n)
    && (forall d: nat :: d in byDepth <==> d < n)
    && (forall d: nat :: d in byDepth ==> byDepth[d] == Level(src, fid, d))
  }

  /** The walk's tally after n fetched depths: `occurrancesByFid`. */
  ghost predicate Counted(src: LinkSource, fid: Fid, n: nat, pop: map<Fid, nat>) {
    Positive(pop) && forall t :: Tally(pop, t) == Popularity(src, fid, n, t)
  }

  lemma IndexStep(src: LinkSource, fid: Fid, n: nat, all: set<Fid>, byDepth: map<nat, set<Fid>>)
    requires Indexed(src, fid, n, all, byDepth)
    ensures Indexed(src, fid, n + 1, all + Frontier(src, fid, n), byDepth[n := Frontier(src, fid, n) - all])
  {
    var level := Frontier(src, fid, n) - all;
    var byDepth' := byDepth[n := level];
    assert all + Frontier(src, fid, n) == Seen(src, fid, n + 1);
    assert forall d: nat :: d in byDepth' <==> d < n + 1 by {
      forall d: nat ensures d in byDepth' <==> d < n + 1 {
        assert d in byDepth' <==> d == n || d in byDepth;
      }
    }
    assert forall d: nat :: d in byDepth' ==> byDepth'[d] == Level(src, fid, d) by {
      assert level == Level(src, fid, n);
      forall d: nat | d in byDepth' ensures byDepth'[d] == Level(src, fid, d) {
        if d != n { assert byDepth'[d] == byDepth[d]; }
      }
    }
  }

  lemma CountStep(src: LinkSource, fid: Fid, n: nat, pop: map<Fid, nat>, pop': map<Fid, nat>)
    requires Counted(src, fid, n, pop) && Positive(pop')
    requires forall t :: Tally(pop', t) == Tally(pop, t) + Count(src, Frontier(src, fid, n), t)
    ensures Counted(src, fid, n + 1, pop')
  {
  }

  /** The loop's state at the top of the iteration for `depth`. */
  ghost predicate Walking(src: LinkSource, fid: Fid, maxDepth: nat, depth: nat, frontier: set<Fid>,
                          all: set<Fid>, byDepth: map<nat, set<Fid>>, pop: map<Fid, nat>) {
    depth <= maxDepth && (depth < maxDepth || depth == 0)
    && frontier == Frontier(src, fid, depth)
    && Iterations(src, fid, maxDepth) == IterationsFrom(src, fid, maxDepth, depth)
    && Indexed(src, fid, depth, all, byDepth)
    && Counted(src, fid, depth, pop)
  }

  lemma WalkStep(src: LinkSource, fid: Fid, maxDepth: nat, depth: nat, frontier: set<Fid>,
                 all: set<Fid>, byDepth: map<nat, set<Fid>>, pop: map<Fid, nat>, next: set<Fid>, pop': map<Fid, nat>)
    requires Walking(src, fid, maxDepth, depth, frontier, all, byDepth, pop)
    requires depth + 1 < maxDepth && frontier != {}
    requires next == Next(src, frontier) && Positive(pop')
    requires forall t :: Tally(pop', t) == Tally(pop, t) + Count(src, frontier, t)
    ensures Walking(src, fid, maxDepth, depth + 1, next, all + frontier, byDepth[depth := frontier - all], pop')
  {
    IndexStep(src, fid, depth, all, byDepth);
    CountStep(src, fid, depth, pop, pop');
  }

  lemma LastDepth(src: LinkSource, fid: Fid, maxDepth: nat, depth: nat, frontier: set<Fid>,
                  all: set<Fid>, byDepth: map<nat, set<Fid>>, pop: map<Fid, nat>)
    requires Walking(src, fid, maxDepth, depth, frontier, all, byDepth, pop)
    requires depth + 1 == maxDepth && frontier != {}
    ensures Indexed(src, fid, Iterations(src, fid, maxDepth), all + frontier, byDepth[depth := frontier - all])
    ensures Counted(src, fid, Fetched(src, fid, maxDepth), pop)
  {
    IndexStep(src, fid, depth, all, byDepth);
    assert IterationsFrom(src, fid, maxDepth, depth) == maxDepth;
  }

  lemma WalkDone(src: LinkSource, fid: Fid, maxDepth: nat, depth: nat, frontier: set<Fid>,
                 all: set<Fid>, byDepth: map<nat, set<Fid>>, pop: map<Fid, nat>)
    requires Walking(src, fid, maxDepth, depth, frontier, all, byDepth, pop)
    requires depth == maxDepth || frontier == {}
    ensures Indexed(src, fid, Iterations(src, fid, maxDepth), all, byDepth)
    ensures Counted(src, fid, Fetched(src, fid, maxDepth), pop)
  {
  }

  /**
   * `getNetworkByFid`: for each depth below `maxDepth` while the frontier is not empty, the
   * frontier's unseen accounts become that depth's level; below the last depth the frontier's
   * links are fetched, counted and become the next frontier.
   */
  method GetNetworkByFid(src: LinkSource, fid: Fid, maxDepth: nat) returns (r: Network)
    ensures Indexed(src, fid, Iterations(src, fid, maxDepth), r.allLinks, r.linksByDepth)
    ensures Counted(src, fid, Fetched(src, fid, maxDepth), r.popularity)
  {
    var all: set<Fid> := {};
    var byDepth: map<nat, set<Fid>> := map[];
    var pop: map<Fid, nat> := map[];
    var frontier: set<Fid> := {fid};
    var depth: nat := 0;
    while depth < maxDepth && |frontier| > 0
      invariant Walking(src, fid, maxDepth, depth, frontier, all, byDepth, pop)
      decreases maxDepth - depth
    {
      if depth == maxDepth - 1 {
        LastDepth(src, fid, maxDepth, depth, frontier, all, byDepth, pop);
        return Network(all + frontier, byDepth[depth := frontier - all], pop);
      }
      var next, pop' := Expand(src, frontier, pop);
      WalkStep(src, fid, maxDepth, depth, frontier, all, byDepth, pop, next, pop');
      byDepth := byDepth[depth := frontier - all];
      all := all + frontier;
      frontier, pop := next, pop';
      depth := depth + 1;
    }
    WalkDone(src, fid, maxDepth, depth, frontier, all, byDepth, pop);
    r := Network(all, byDepth, pop);
  }

  /** The walk's result, read out: levels by depth, every account seen, and the popularity counts. */
  lemma {:induction false} NetworkContents(src: LinkSource, fid: Fid, maxDepth: nat, r: Network)
    requires Indexed(src, fid, Iterations(src, fid, maxDepth), r.allLinks, r.linksByDepth)
    requires Counted(src, fid, Fetched(src, fid, maxDepth), r.popularity)
    ensures maxDepth > 0 ==> 0 in r.linksByDepth && r.linksByDepth[0] == {fid}
    ensures forall t :: t in r.popularity <==> Popularity(src, fid, Fetched(src, fid, maxDepth), t) > 0
    ensures forall t :: t in r.allLinks <==> exists d: nat :: d < Iterations(src, fid, maxDepth) && t in Level(src, fid, d)
  {
    forall t ensures t in r.popularity <==> Popularity(src, fid, Fetched(src, fid, maxDepth), t) > 0 {
      assert Tally(r.popularity, t) == Popularity(src, fid, Fetched(src, fid, maxDepth), t);
    }
    forall t ensures t in r.allLinks <==> exists d: nat :: d < Iterations(src, fid, maxDepth) && t in Level(src, fid, d) {
      LevelsCoverSeen(src, fid, Iterations(src, fid, maxDepth), t);
    }
  }

  /* ---------- properties ---------- */

  /** An account is in at most one level. */
  lemma {:induction false} LevelsDisjoint(src: LinkSource, fid: Fid, d1: nat, d2: nat)
    requires d1 < d2
    ensures Level(src, fid, d1) !! Level(src, fid, d2)
  {
    SeenHolds(src, fid, d1, d2);
  }

  /** Every frontier below d is inside the accounts seen before d. */
  lemma {:induction false} SeenHolds(src: LinkSource, fid: Fid, d: nat, n: nat)
    requires d < n
    ensures Frontier(src, fid, d) <= Seen(src, fid, n)
    decreases n
  {
    if d < n - 1 {
      SeenHolds(src, fid, d, n - 1);
    }
  }

  /** The accounts seen before n are exactly the union of the levels below n. */
  lemma {:induction false} LevelsCoverSeen(src: LinkSource, fid: Fid, n: nat, t: Fid)
    ensures t in Seen(src, fid, n) <==> exists d: nat :: d < n && t in Level(src, fid, d)
  {
    if n > 0 {
      LevelsCoverSeen(src, fid, n - 1, t);
      if t in Level(src, fid, n - 1) {
        assert t in Seen(src, fid, n);
      }
      if exists d: nat :: d < n && t in Level(src, fid, d) {
        var d: nat :| d < n && t in Level(src, fid, d);
        if d == n - 1 {
          assert t in Frontier(src, fid, n - 1);
        }
      }
    }
  }

  /**
   * The two-level walk `createRootBackfillJob` runs: depth 1 is recorded whenever the root
   * links to some account, and then holds its links other than itself; every link of the
   * root has popularity one.
   */
  lemma DepthTwo(src: LinkSource, fid: Fid)
    ensures Iterations(src, fid, 2) == (if |Adj(src, fid)| > 0 then 2 else 1)
    ensures Level(src, fid, 1) == Elems(Adj(src, fid)) - {fid}
    ensures Fetched(src, fid, 2) == 1
    ensures forall t :: Popularity(src, fid, 1, t) == (if t in Adj(src, fid) then 1 else 0)
  {
    assert Frontier(src, fid, 1) == Next(src, {fid});
    NextAdd(src, {}, fid);
    assert {} + {fid} == {fid};
    assert Next(src, {}) == {};
    assert Frontier(src, fid, 1) == Elems(Adj(src, fid));
    assert Seen(src, fid, 1) == {fid};
    forall t ensures Popularity(src, fid, 1, t) == (if t in Adj(src, fid) then 1 else 0) {
      CountAdd(src, {}, fid, t);
      assert Count(src, {}, t) == 0 by {
        assert (set f | f in {} && t in Adj(src, f)) == {};
      }
    }
    if |Adj(src, fid)| > 0 {
      assert Adj(src, fid)[0] in Frontier(src, fid, 1);
    }
  }
}
