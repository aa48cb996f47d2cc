/**
 Flows pinned to paths under balance-xor, and the 16-bit per-path counters that follow them
 through creation, ageing, eviction and reassignment.
 */
module BondFlows {
  import opened Common
  import opened Division
  import opened PathTable

  const MAX_FLOWS := 1024 * 64

  type I16 = n: int | -0x8000 <= n < 0x8000
  type I32 = n: int | -0x8000_0000 <= n < 0x8000_0000

  datatype Flow = Flow(id: I32, lastActivity: int, path: nat)

  type Flows = map<I16, Flow>

  /** The key under which a flow is filed: its identifier cut to 16 bits. */
  function Key(id: I32): I16 {
    var low := id % WORD16;
    if low < 0x8000 then low else low - WORD16
  }

  /** The age as the unsigned number it is compared as. */
  function Age(f: Flow, now: int): nat { (now - f.lastActivity) % WORD64 }

  /** Two flows share a key if and only if their identifiers agree in the low 16 bits. */
  lemma KeyAliasIff(a: I32, b: I32)
    ensures Key(a) == Key(b) <==> a % WORD16 == b % WORD16
    ensures -0x8000 <= a < 0x8000 ==> Key(a) == a
  {
  }

  /** For times in order the age is their difference. */
  lemma AgeIs(f: Flow, now: int)
    requires f.lastActivity <= now < f.lastActivity + WORD64
    ensures Age(f, now) == now - f.lastActivity
  {
  }

  // ---- counting ----

  function OnPath(flows: Flows, p: nat): set<I16> { set k | k in flows && flows[k].path == p }

  /** The number of live flows assigned to a path. */
  function Live(flows: Flows, p: nat): nat { |OnPath(flows, p)| }

  /** Every counter is the number of live flows of its path, modulo 2^16. */
  ghost predicate Balanced(flows: Flows, counts: seq<nat>) {
    && |counts| == SLOTS
    && (forall k :: k in flows ==> flows[k].path < SLOTS)
    && forall p :: 0 <= p < SLOTS ==> counts[p] == Live(flows, p) % WORD16
  }

  lemma OnPathAfterPut(flows: Flows, k: I16, f: Flow, p: nat)
    ensures OnPath(flows[k := f], p) == (OnPath(flows, p) - {k}) + (if f.path == p then {k} else {})
    ensures k in OnPath(flows, p) <==> k in flows && flows[k].path == p
  {
  }

  lemma LiveAfterPut(flows: Flows, k: I16, f: Flow, p: nat)
    ensures Live(flows[k := f], p) ==
            Live(flows, p) - (if k in flows && flows[k].path == p then 1 else 0) + (if f.path == p then 1 else 0)
  {
    hide OnPath;
    OnPathAfterPut(flows, k, f, p);
    var others := OnPath(flows, p) - {k};
    assert OnPath(flows, p) == others + if k in OnPath(flows, p) then {k} else {};
  }

  lemma LiveAfterDrop(flows: Flows, k: I16, p: nat)
    requires k in flows
    ensures Live(flows - {k}, p) == Live(flows, p) - if flows[k].path == p then 1 else 0
  {
    var (was, now) := (OnPath(flows, p), OnPath(flows - {k}, p));
    assert now == was - {k};
  }

  function Up(n: nat): nat { (n + 1) % WORD16 }
  function Down(n: nat): nat { (n + WORD16 - 1) % WORD16 }

  lemma CountSteps(n: nat, live: nat)
    requires n == live % WORD16
    ensures Up(n) == (live + 1) % WORD16
    ensures live > 0 ==> Down(n) == (live - 1) % WORD16
    ensures Down(Up(n)) == n
  {
  }

  lemma AddBalanced(flows: Flows, counts: seq<nat>, k: I16, f: Flow)
    requires Balanced(flows, counts) && k !in flows && f.path < SLOTS
    ensures Balanced(flows[k := f], counts[f.path := Up(counts[f.path])])
  {
    hide Live, Up;
    var after := counts[f.path := Up(counts[f.path])];
    forall p: nat | p < SLOTS
      ensures after[p] == Live(flows[k := f], p) % WORD16
    {
      LiveAfterPut(flows, k, f, p);
      CountSteps(counts[p], Live(flows, p));
    }
  }

  lemma DropBalanced(flows: Flows, counts: seq<nat>, k: I16)
    requires Balanced(flows, counts) && k in flows
    ensures Balanced(flows - {k}, counts[flows[k].path := Down(counts[flows[k].path])])
  {
    hide Live, Down;
    var q := flows[k].path;
    var after := counts[q := Down(counts[q])];
    forall p: nat | p < SLOTS
      ensures after[p] == Live(flows - {k}, p) % WORD16
    {
      LiveAfterDrop(flows, k, p);
      CountSteps(counts[p], Live(flows, p));
    }
  }

  /** Reassignment counts the new path up first and then the old one down; they may be the same. */
  lemma MoveBalanced(flows: Flows, counts: seq<nat>, k: I16, f: Flow)
    requires Balanced(flows, counts) && k in flows && f.path < SLOTS
    ensures var up := counts[f.path := Up(counts[f.path])];
            Balanced(flows[k := f], up[flows[k].path := Down(up[flows[k].path])])
  {
    hide Live, Down, Up;
    var q := flows[k].path;
    var up := counts[f.path := Up(counts[f.path])];
    var (now, after) := (flows[k := f], up[q := Down(up[q])]);
    forall p: nat | p < SLOTS
      ensures after[p] == Live(now, p) % WORD16
    {
      LiveAfterPut(flows, k, f, p);
      CountSteps(counts[p], Live(flows, p));
      SomeLive(flows, k);
    }
  }

  lemma SomeLive(flows: Flows, k: I16)
    requires k in flows
    ensures Live(flows, flows[k].path) > 0
  {
    assert k in OnPath(flows, flows[k].path);
  }

  // ---- how many flows there can be ----

  function Range(lo: int, hi: int): (s: set<int>)
    requires lo <= hi
    ensures forall k :: k in s <==> lo <= k < hi
    ensures |s| == hi - lo
    decreases hi - lo
  {
    if lo == hi then {} else Range(lo, hi - 1) + {hi - 1}
  }

  lemma SubsetSize(s: set<int>, t: set<int>)
    requires s <= t
    ensures |s| <= |t|
  {
    assert |t| == |s| + |t - s|;
  }

  lemma FewKeys(s: set<I16>)
    ensures |s| <= WORD16
    ensures (exists k: I16 :: k !in s) ==> |s| < WORD16
  {
    hide Range;
    var t: set<int> := s;
    SubsetSize(t, Range(-0x8000, 0x8000));
    if exists k: I16 :: k !in s {
      var k: I16 :| k !in s;
      SubsetSize(t, Range(-0x8000, 0x8000) - {k});
    }
  }

  /**
   The limit on the number of flows cannot be reached by creating one: with 16-bit keys, a
   flow whose key is not yet in use finds fewer flows than the limit.
   */
  lemma LimitNeverReached(flows: Flows, id: I32)
    requires Key(id) !in flows
    ensures |flows| < MAX_FLOWS
  {
    FewKeys(flows.Keys);
    assert |flows| == |flows.Keys|;
  }

  /** A counter is exact unless all 2^16 possible flows are on its path; then it reads zero. */
  lemma CounterExactIff(flows: Flows, counts: seq<nat>, p: nat)
    requires Balanced(flows, counts) && p < SLOTS
    ensures counts[p] == Live(flows, p) <==> exists k: I16 :: k !in flows || flows[k].path != p
  {
    hide Range;
    FewKeys(OnPath(flows, p));
    if (forall k: I16 :: k in flows && flows[k].path == p) {
      var t: set<int> := OnPath(flows, p);
        assert t == Range(-0x8000, 0x8000);
    } else {
      var k: I16 :| k !in flows || flows[k].path != p;
      assert k !in OnPath(flows, p);
    }
  }

  // ---- eviction ----

  datatype Scan = Scan(best: Option<I16>, maxAge: nat)

  /** The search for the flow to evict, over the keys below bound; it stores a time where an age belongs. */
  function ScanTo(flows: Flows, now: int, bound: int): (s: Scan)
    requires -0x8000 <= bound <= 0x8000
    ensures s.best.Some? ==> s.best.value in flows
    ensures s.best.None? ==> s.maxAge == 0
    decreases bound + 0x8000
  {
    if bound == -0x8000 then Scan(None, 0)
    else
      var s := ScanTo(flows, now, bound - 1);
      var k: I16 := bound - 1;
      if k in flows && Age(flows[k], now) > s.maxAge then Scan(Some(k), (now - Age(flows[k], now)) % WORD64) else s
  }

  function Victim(flows: Flows, now: int): Option<I16> { ScanTo(flows, now, 0x8000).best }

  lemma {:induction false} ScanFindsAged(flows: Flows, now: int, bound: int)
    requires -0x8000 <= bound <= 0x8000
    ensures ScanTo(flows, now, bound).best.None? <==> forall k :: k in flows && k < bound ==> Age(flows[k], now) == 0
    decreases bound + 0x8000
  {
    hide Age;
    if bound > -0x8000 {
      ScanFindsAged(flows, now, bound - 1);
    }
  }

  /** Nothing is evicted if and only if every flow was active just now. */
  lemma VictimNoneIff(flows: Flows, now: int)
    ensures Victim(flows, now).None? <==> forall k :: k in flows ==> Age(flows[k], now) == 0
  {
    hide Age;
    ScanFindsAged(flows, now, 0x8000);
  }

  /** The first key, in the order of the search, whose flow has an age. */
  predicate FirstAged(flows: Flows, now: int, k: I16) {
    k in flows && Age(flows[k], now) > 0 && forall j :: j in flows && j < k ==> Age(flows[j], now) == 0
  }

  /** No age reaches beyond the time, taken as an age, at which the flow was last active. */
  predicate AgesWithin(flows: Flows, now: int, k: I16)
    requires k in flows
  {
    forall j :: j in flows ==> Age(flows[j], now) <= (now - Age(flows[k], now)) % WORD64
  }

  lemma {:induction false} ScanStops(flows: Flows, now: int, k: I16, bound: int)
    requires FirstAged(flows, now, k) && AgesWithin(flows, now, k) && -0x8000 <= bound <= 0x8000
    ensures ScanTo(flows, now, bound) ==
            if bound <= k then Scan(None, 0) else Scan(Some(k), (now - Age(flows[k], now)) % WORD64)
    decreases bound + 0x8000
  {
    hide Age;
    if bound > -0x8000 {
      ScanStops(flows, now, k, bound - 1);
    }
  }

  /**
   The search keeps the time of a flow where it should keep its age. While no age reaches
   beyond that time, it ends on the first flow that has an age at all; so it finds an oldest
   flow if and only if that first one is an oldest.
   */
  lemma VictimOldestIff(flows: Flows, now: int, k: I16)
    requires FirstAged(flows, now, k) && AgesWithin(flows, now, k)
    ensures Victim(flows, now) == Some(k)
    ensures (forall v, j :: Victim(flows, now) == Some(v) && j in flows ==> Age(flows[j], now) <= Age(flows[v], now)) <==>
            (forall j :: j in flows ==> Age(flows[j], now) <= Age(flows[k], now))
  {
    hide Age;
    ScanStops(flows, now, k, 0x8000);
  }

  // ---- the flow table in memory ----

  /** The path a flow goes to under balance-xor: its identifier modulo the bonded paths, without sign. */
  function XorPath(id: I32, bonded: seq<nat>): nat
    requires |bonded| > 0
  {
    var i: int := id;
    bonded[(if i < 0 then -i else i) % |bonded|]
  }

  /**
   Identifiers below the number of bonded paths take the paths in order, nonnegative ones take them
   in turn, and a negative one goes where its absolute value goes.
   */
  lemma XorPathInTurn(bonded: seq<nat>, i: I32)
    requires |bonded| > 0 && i >= 0
    ensures i < |bonded| ==> XorPath(i, bonded) == bonded[i]
    ensures i + |bonded| < 0x8000_0000 ==> XorPath(i + |bonded|, bonded) == XorPath(i, bonded)
    ensures XorPath(-i, bonded) == XorPath(i, bonded)
  {
    TurnsMod(i, |bonded|);
    ModSmall(i, |bonded|);
  }

  lemma ModSmall(i: nat, n: nat)
    requires n > 0
    ensures i < n ==> i % n == i
  {
    if i < n {
      ModIs(i, n, 0, i);
    }
  }

  lemma TurnsMod(i: nat, n: nat)
    requires n > 0
    ensures (i + n) % n == i % n
  {
    var q := i / n;
    OneMoreTurn(n, q);
    ModIs(i + n, n, q + 1, i % n);
  }

  /** How many of the numbers below y leave the remainder j modulo n. */
  function Below(y: nat, n: nat, j: nat): nat
    requires j < n
  {
    (y + n - 1 - j) / n
  }

  lemma BelowStep(y: nat, n: nat, j: nat)
    requires j < n
    ensures Below(y + 1, n, j) == Below(y, n, j) + if y % n == j then 1 else 0
    ensures Below(y + n, n, j) == Below(y, n, j) + 1
  {
    BelowIs(y, n, j, y / n, y % n);
  }

  lemma BelowIs(y: nat, n: nat, j: nat, q: nat, r: nat)
    requires j < n && r < n && y == n * q + r
    ensures y % n == r && Below(y, n, j) == if r > j then q + 1 else q
    ensures Below(y + 1, n, j) == if r >= j then q + 1 else q
    ensures Below(y + n, n, j) == if r > j then q + 2 else q + 1
  {
    ModIs(y, n, q, r);
    OneMoreTurn(n, q);
    Placed(y + n - 1 - j, n, q, r + n - 1 - j);
    Placed(y + n - j, n, q, r + n - j);
    Placed(y + n + n - 1 - j, n, q + 1, r + n - 1 - j);
  }

  lemma OneMoreTurn(n: nat, q: nat)
    ensures n * (q + 1) == n * q + n
  {
  }

  /** A quotient with a remainder that may be one n too large. */
  lemma Placed(a: nat, n: nat, q: nat, r: nat)
    requires n > 0 && r < 2 * n && a == n * q + r
    ensures a / n == if r < n then q else q + 1
  {
    OneMoreTurn(n, q);
    if r < n {
      ModIs(a, n, q, r);
    } else {
      ModIs(a, n, q + 1, r - n);
    }
  }

  lemma {:induction false} BelowTurns(y: nat, n: nat, j: nat, k: nat)
    requires j < n
    ensures Below(y + n * k, n, j) == Below(y, n, j) + k
  {
    hide Below;
    if k > 0 {
      assert n * k == n * (k - 1) + n;
      BelowTurns(y, n, j, k - 1);
      BelowStep(y + n * (k - 1), n, j);
    }
  }

  /** Path slots as the flow logic sees them. */
  datatype Paths = Paths(bonded: seq<nat>, present: seq<bool>, eligible: seq<bool>) {
    predicate Valid() {
      |present| == SLOTS && |eligible| == SLOTS && forall i :: 0 <= i < |bonded| ==> bonded[i] < SLOTS
    }

    predicate Dead(p: nat)
      requires Valid() && p < SLOTS
    {
      present[p] && !eligible[p]
    }
  }

  class FlowTable {
    var flows: Flows
    var counts: seq<nat>

    ghost predicate Valid()
      reads this
    {
      Balanced(flows, counts)
    }

    constructor ()
      ensures Valid() && flows == map[]
    {
      flows := map[];
      counts := seq(SLOTS, _ => 0);
    }

    method Forget(k: I16)
      requires Valid() && k in flows
      modifies this
      ensures Valid() && flows == old(flows) - {k}
    {
      DropBalanced(flows, counts, k);
      var p := flows[k].path;
      counts := counts[p := Down(counts[p])];
      flows := flows - {k};
    }

    /** Forgets exactly the flows older than the given age. */
    method ForgetOlder(age: nat, now: int)
      requires Valid() && age > 0
      modifies this
      ensures Valid()
      ensures flows == map k | k in old(flows) && Age(old(flows)[k], now) <= age :: old(flows)[k]
      ensures forall k :: k in old(flows) && old(flows)[k].lastActivity <= now < old(flows)[k].lastActivity + WORD64 ==>
                (k in flows <==> now - old(flows)[k].lastActivity <= age)
    {
      AgesAre(now);
      hide Balanced, Age;
      ghost var was := flows;
      for i := -0x8000 to 0x8000
        invariant Valid()
        invariant flows == map k | k in was && (k < i ==> Age(was[k], now) <= age) :: was[k]
      {
        if i in flows && Age(flows[i], now) > age {
          Forget(i);
        }
      }
    }

    lemma AgesAre(now: int)
      ensures forall k :: k in flows && flows[k].lastActivity <= now < flows[k].lastActivity + WORD64 ==>
                Age(flows[k], now) == now - flows[k].lastActivity
    {
    }

    /** Forgets the flow the search ends on, if any. */
    method ForgetOldest(now: int)
      requires Valid()
      modifies this
      ensures Valid()
      ensures flows == match Victim(old(flows), now) case None => old(flows) case Some(k) => old(flows) - {k}
    {
      hide Balanced, Age;
      var maxAge: nat, oldest: Option<I16> := 0, None;
      for i := -0x8000 to 0x8000
        invariant Scan(oldest, maxAge) == ScanTo(flows, now, i)
      {
        if i in flows && Age(flows[i], now) > maxAge {
          maxAge := (now - Age(flows[i], now)) % WORD64;
          oldest := Some(i);
        }
      }
      if oldest.Some? {
        Forget(oldest.value);
      }
    }

    /** A flow for a key not in use; path is given for incoming packets, chosen for outgoing ones. */
    method Create(path: Option<nat>, id: I32, now: int, paths: Paths) returns (created: bool)
      requires Valid() && paths.Valid() && Key(id) !in flows && (path.Some? ==> path.value < SLOTS)
      modifies this
      ensures Valid()
      ensures created <==> |paths.bonded| > 0
      ensures flows == if created
                       then Room(old(flows), now)[Key(id) := Flow(id, now, if path.Some? then path.value else XorPath(id, paths.bonded))]
                       else old(flows)
    {
      hide Balanced;
      if |paths.bonded| == 0 {
        return false;
      }
      if |flows| >= MAX_FLOWS {
        ForgetOldest(now);
      }
      var p := if path.Some? then path.value else XorPath(id, paths.bonded);
      AddFlow(Key(id), Flow(id, now, p));
      return true;
    }

    method AddFlow(k: I16, f: Flow)
      requires Valid() && k !in flows && f.path < SLOTS
      modifies this
      ensures Valid() && flows == old(flows)[k := f]
    {
      AddBalanced(flows, counts, k, f);
      flows := flows[k := f];
      counts := counts[f.path := Up(counts[f.path])];
    }

    /** The flow an outgoing packet uses: an existing one is refreshed, otherwise one is created. */
    method FlowFor(id: I32, now: int, paths: Paths)
      requires Valid() && paths.Valid() && |paths.bonded| > 0
      modifies this
      ensures Valid()
      ensures flows == old(flows)[Key(id) :=
                if Key(id) in old(flows) then old(flows)[Key(id)].(lastActivity := now)
                else Flow(id, now, XorPath(id, paths.bonded))]
    {
      if Key(id) in flows {
        RefreshBalanced(flows, counts, Key(id), now);
        flows := flows[Key(id) := flows[Key(id)].(lastActivity := now)];
      } else {
        LimitNeverReached(flows, id);
        var _ := Create(None, id, now, paths);
      }
    }

    /**
     Outgoing packets of n * k new flows with consecutive identifiers, started on an empty table over
     n different paths, put k flows on each path.
     */
    method Spread(first: I32, k: nat, now: int, paths: Paths)
      requires Valid() && flows == map[] && paths.Valid() && |paths.bonded| > 0
      requires forall i, j :: 0 <= i < j < |paths.bonded| ==> paths.bonded[i] != paths.bonded[j]
      requires 0 <= first && |paths.bonded| * k <= WORD16 && first + |paths.bonded| * k < 0x8000_0000
      modifies this
      ensures Valid()
      ensures forall j :: 0 <= j < |paths.bonded| ==> Live(flows, paths.bonded[j]) == k
    {
      hide Balanced, Live, Key, XorPath, Below;
      var n := |paths.bonded|;
      NoneLive(paths.bonded);
      for m: nat := 0 to n * k
        invariant Valid()
        invariant forall key :: key in flows ==> first <= flows[key].id < first + m && key == Key(flows[key].id)
        invariant forall j: nat :: j < n ==> Live(flows, paths.bonded[j]) == Below(first + m, n, j) - Below(first, n, j)
      {
        NewKey(flows, first, m);
        ghost var was := flows;
        FlowFor(first + m, now, paths);
        SpreadStep(was, flows, first + m, now, paths.bonded);
        forall j: nat | j < n
          ensures Live(flows, paths.bonded[j]) == Below(first + m + 1, n, j) - Below(first, n, j)
        {
          BelowStep(first + m, n, j);
        }
      }
      forall j: nat | j < n
        ensures Live(flows, paths.bonded[j]) == k
      {
        BelowTurns(first, n, j, k);
      }
    }

    /**
     A packet at one time and ageing at a later one: the flow of the packet is kept if and only if it
     was silent for no longer than the age since then, and every other flow since its own last packet.
     */
    method UseThenAge(id: I32, now: int, later: int, age: nat, paths: Paths)
      requires Valid() && paths.Valid() && |paths.bonded| > 0 && age > 0 && now <= later < now + WORD64
      requires forall k :: k in flows ==> flows[k].lastActivity <= later < flows[k].lastActivity + WORD64
      modifies this
      ensures Valid()
      ensures Key(id) in flows <==> later - now <= age
      ensures forall k :: k in old(flows) && k != Key(id) ==> (k in flows <==> later - old(flows)[k].lastActivity <= age)
    {
      hide Balanced, XorPath, Key, Age;
      FlowFor(id, now, paths);
      ForgetOlder(age, later);
    }

    /** Moves exactly the flows on present but ineligible paths, each to its place among the bonded paths. */
    method MoveFromDead(paths: Paths)
      requires Valid() && paths.Valid() && |paths.bonded| > 0
      modifies this
      ensures Valid() && flows == Moved(old(flows), paths)
    {
      hide Balanced, XorPath;
      ghost var was := flows;
      PathsBounded(flows, counts);
      for i := -0x8000 to 0x8000
        invariant Valid()
        invariant flows == map k | k in was :: if k < i then MovedFlow(was[k], paths) else was[k]
      {
        PathsBounded(flows, counts);
        if i in flows {
          var f := flows[i];
          if paths.present[f.path] {
            if !paths.eligible[f.path] {
              Reassign(i, paths);
            }
          }
        }
      }
    }

    method Reassign(k: I16, paths: Paths)
      requires Valid() && paths.Valid() && |paths.bonded| > 0 && k in flows
      modifies this
      ensures Valid()
      ensures flows == old(flows)[k := old(flows)[k].(path := XorPath(old(flows)[k].id, paths.bonded))]
    {
      var original := flows[k].path;
      var f := flows[k].(path := XorPath(flows[k].id, paths.bonded));
      MoveBalanced(flows, counts, k, f);
      flows := flows[k := f];
      counts := counts[f.path := Up(counts[f.path])];
      counts := counts[original := Down(counts[original])];
    }
  }

  lemma NoneLive(bonded: seq<nat>)
    ensures forall j :: 0 <= j < |bonded| ==> Live(map[], bonded[j]) == 0
  {
    forall p: nat
      ensures Live(map[], p) == 0
    {
      assert OnPath(map[], p) == {};
    }
  }

  /** Of fewer than 2^16 consecutive identifiers each has a key of its own. */
  lemma NewKey(flows: Flows, first: I32, m: nat)
    requires 0 <= first && m < WORD16 && first + m < 0x8000_0000
    requires forall key :: key in flows ==> first <= flows[key].id < first + m && key == Key(flows[key].id)
    ensures Key(first + m) !in flows
  {
    hide Key;
    var key := Key(first + m);
    if key in flows {
      var id := flows[key].id;
      KeyAliasIff(first + m, id);
      NearbyDiffer(first + m, id);
    }
  }

  lemma NearbyDiffer(a: nat, b: nat)
    requires b < a < b + WORD16
    ensures a % WORD16 != b % WORD16
  {
  }

  /** A new flow counts for the path in whose turn its identifier is. */
  lemma SpreadStep(was: Flows, flows: Flows, id: I32, now: int, bonded: seq<nat>)
    requires |bonded| > 0 && id >= 0 && Key(id) !in was
    requires flows == was[Key(id) := Flow(id, now, XorPath(id, bonded))]
    requires forall i, j :: 0 <= i < j < |bonded| ==> bonded[i] != bonded[j]
    ensures forall j :: 0 <= j < |bonded| ==> Live(flows, bonded[j]) == Live(was, bonded[j]) + if id % |bonded| == j then 1 else 0
  {
    hide Live, Key;
    forall j | 0 <= j < |bonded|
      ensures Live(flows, bonded[j]) == Live(was, bonded[j]) + if id % |bonded| == j then 1 else 0
    {
      LiveAfterPut(was, Key(id), Flow(id, now, XorPath(id, bonded)), bonded[j]);
    }
  }

  /** The flows after one was evicted, if the limit asks for it. */
  function Room(flows: Flows, now: int): Flows {
    if |flows| >= MAX_FLOWS then
      match Victim(flows, now)
      case None => flows
      case Some(k) => flows - {k}
    else flows
  }

  function MovedFlow(f: Flow, paths: Paths): Flow
    requires paths.Valid() && |paths.bonded| > 0
  {
    if f.path < SLOTS && paths.Dead(f.path) then f.(path := XorPath(f.id, paths.bonded)) else f
  }

  function Moved(flows: Flows, paths: Paths): Flows
    requires paths.Valid() && |paths.bonded| > 0
  {
    map k | k in flows :: MovedFlow(flows[k], paths)
  }

  lemma PathsBounded(flows: Flows, counts: seq<nat>)
    requires Balanced(flows, counts)
    ensures forall k :: k in flows ==> flows[k].path < SLOTS
  {
  }

  lemma RefreshBalanced(flows: Flows, counts: seq<nat>, k: I16, now: int)
    requires Balanced(flows, counts) && k in flows
    ensures Balanced(flows[k := flows[k].(lastActivity := now)], counts)
  {
    hide Live;
    forall p: nat | p < SLOTS
      ensures Live(flows[k := flows[k].(lastActivity := now)], p) == Live(flows, p)
    {
      LiveAfterPut(flows, k, flows[k].(lastActivity := now), p);
    }
  }

  /** Moving touches only the paths of flows whose path is there and not eligible, and these go where new flows go. */
  lemma OnlyDeadMove(flows: Flows, paths: Paths, k: I16)
    requires paths.Valid() && |paths.bonded| > 0 && k in flows && flows[k].path < SLOTS
    ensures Moved(flows, paths).Keys == flows.Keys
    ensures var (f, g) := (flows[k], Moved(flows, paths)[k]);
            && g.id == f.id && g.lastActivity == f.lastActivity
            && g.path == if paths.present[f.path] && !paths.eligible[f.path] then XorPath(f.id, paths.bonded) else f.path
  {
  }

  /** If all bonded paths are eligible, moving leaves no flow on a dead path, and moving again changes nothing. */
  lemma NoneLeftOnDead(flows: Flows, paths: Paths)
    requires paths.Valid() && |paths.bonded| > 0
    requires forall i :: 0 <= i < |paths.bonded| ==> paths.eligible[paths.bonded[i]]
    ensures forall k :: k in flows && flows[k].path < SLOTS ==>
              Moved(flows, paths)[k].path < SLOTS && !paths.Dead(Moved(flows, paths)[k].path)
    ensures Moved(Moved(flows, paths), paths) == Moved(flows, paths)
  {
  }
}
