/**
 Automatic address assignment: the probing of the configured pools for a member that asks
 for its configuration, with the machine arithmetic of the source.
 */
module IpAllocator {
  import opened Common
  import opened Division
  import opened Records

  const MAX32 := 0xffff_ffff
  const MAX_TRIALS := 1000

  datatype Route = Route(target: Ip, bits: nat, hasVia: bool)
  datatype Pool = Pool(first: Ip, last: Ip)

  /** What probing depends on: the routes, the addresses in use, how addresses print. */
  datatype Env = Env(routes: seq<Route>, inUse: set<Ip>, shown: Ip -> Text)

  /** a with the bits below p, a power of two, cleared. */
  function Floor(a: nat, p: nat): (f: nat)
    requires p > 0
    ensures f <= a
  {
    if a < p then 0 else a - a % p
  }

  // ---- IPv4 ----

  /** The route's target is ip with all but the leading bits cleared. */
  predicate Routes4(r: Route, ip: U32) {
    r.target.V4? && 1 <= r.bits <= 32 && Floor(ip, Pow2(32 - r.bits)) == r.target.host
  }

  predicate Routed4(routes: seq<Route>, ip: U32) {
    exists r :: r in routes && Routes4(r, ip)
  }

  lemma FloorIff(a: nat, t: nat, p: nat)
    requires p > 0
    ensures Floor(a, p) == t <==> t % p == 0 && t <= a < t + p
  {
    var q := a / p;
    assert a == p * q + a % p;
    ModIs(p * q, p, q, 0);
    if a < p {
      ModIs(a, p, 0, a);
    }
    if t % p == 0 && t <= a < t + p {
      EuclidUnique(p, q, a % p, t / p, a - t);
    }
  }

  /** The addresses of a route: a block that begins at its target and has the size its prefix length leaves. */
  predicate InBlock4(host: U32, bits: nat, ip: U32)
    requires bits <= 32
  {
    host % Pow2(32 - bits) == 0 && host <= ip < host + Pow2(32 - bits)
  }

  /** A route matches exactly the addresses of its block, if it has a prefix length between 1 and 32. */
  lemma Routes4Iff(r: Route, ip: U32)
    ensures Routes4(r, ip) <==> r.target.V4? && 1 <= r.bits <= 32 && InBlock4(r.target.host, r.bits, ip)
  {
    if r.target.V4? && 1 <= r.bits <= 32 {
      FloorIff(ip, r.target.host, Pow2(32 - r.bits));
    }
  }

  method RouteBits4(routes: seq<Route>, ip: U32) returns (bits: int)
    ensures bits > 0 <==> Routed4(routes, ip)
    ensures bits > 0 ==> exists i :: 0 <= i < |routes| && Routes4(routes[i], ip) && bits == routes[i].bits
                                     && forall j :: 0 <= j < i ==> !Routes4(routes[j], ip)
  {
    hide Routes4;
    bits := -1;
    for i := 0 to |routes|
      invariant bits == -1
      invariant forall j :: 0 <= j < i ==> !Routes4(routes[j], ip)
    {
      if Routes4(routes[i], ip) {
        RouteHasBits(routes[i], ip);
        return routes[i].bits;
      }
    }
  }

  lemma RouteHasBits(r: Route, ip: U32)
    requires Routes4(r, ip)
    ensures r.bits > 0
  {
  }

  /** An address the allocator may hand to the member that already has items. */
  predicate Acceptable4(env: Env, items: seq<Json>, ip: U32) {
    && ip % 256 != 255
    && Routed4(env.routes, ip)
    && V4(ip) !in env.inUse
    && Str(env.shown(V4(ip))) !in items
  }

  /** The address tried when the counter stands at c. */
  function Candidate4(first: U32, last: U32, c: nat): U32
    requires first <= last
  {
    if last > first then first + c % (last - first) else first
  }

  function Counter(c: U32, t: nat): U32 { (c + t) % WORD32 }

  /** How many trials a pool gets; at the top of the address space the loop variable wraps and never ends it. */
  function Trials4(first: U32, last: U32): nat
    requires first <= last
  {
    if last == MAX32 || last - first + 1 > MAX_TRIALS then MAX_TRIALS else last - first + 1
  }

  /** The first acceptable address from trial t on. */
  function Probe4(env: Env, items: seq<Json>, first: U32, last: U32, c: U32, t: nat): Option<U32>
    requires first <= last
    decreases Trials4(first, last) - t
  {
    if t >= Trials4(first, last) then None
    else
      var ip := Candidate4(first, last, Counter(c, t));
      if Acceptable4(env, items, ip) then Some(ip) else Probe4(env, items, first, last, c, t + 1)
  }

  method ProbePool4(env: Env, items: seq<Json>, first: U32, last: U32, address: nat) returns (r: Option<U32>)
    requires first <= last
    ensures r == Probe4(env, items, first, last, address % WORD32, 0)
  {
    hide Acceptable4, Probe4, Counter, Candidate4, Trials4;
    var counter: U32 := address % WORD32;
    ghost var c: U32 := counter;
    CounterStarts(c);
    var k, trialCount := first, 0;
    while k <= last && trialCount < MAX_TRIALS
      invariant 0 <= k <= MAX32 && 0 <= trialCount <= MAX_TRIALS
      invariant last < MAX32 ==> k == first + trialCount && trialCount <= last - first + 1
      invariant counter == Counter(c, trialCount)
      invariant Probe4(env, items, first, last, c, 0) == Probe4(env, items, first, last, c, trialCount)
      decreases MAX_TRIALS - trialCount
    {
      LoopGuard(first, last, k, trialCount);
      Probe4Step(env, items, first, last, c, trialCount);
      var ip := Candidate4(first, last, counter);
      CounterStep(c, trialCount);
      counter := (counter + 1) % WORD32;
      if ip % 256 != 255 {
        var bits := RouteBits4(env.routes, ip);
        if bits > 0 && V4(ip) !in env.inUse {
          if Str(env.shown(V4(ip))) !in items {
            AcceptableParts(env, items, ip);
            return Some(ip);
          }
        }
      }
      AcceptableParts(env, items, ip);
      k, trialCount := (k + 1) % WORD32, trialCount + 1;
    }
    LoopGuard(first, last, k, trialCount);
    Probe4Step(env, items, first, last, c, trialCount);
    return None;
  }

  /** The loop's guard over its wrapping variable is the bound on the trials. */
  lemma LoopGuard(first: U32, last: U32, k: U32, t: nat)
    requires first <= last && t <= MAX_TRIALS
    requires last < MAX32 ==> k == first + t
    ensures k <= last && t < MAX_TRIALS <==> t < Trials4(first, last)
  {
  }

  lemma CounterStarts(c: U32)
    ensures Counter(c, 0) == c
  {
  }

  lemma CounterStep(c: U32, t: nat)
    ensures Counter(c, t + 1) == (Counter(c, t) + 1) % WORD32
  {
  }

  lemma AcceptableParts(env: Env, items: seq<Json>, ip: U32)
    ensures Acceptable4(env, items, ip) <==> ip % 256 != 255 && Routed4(env.routes, ip) && V4(ip) !in env.inUse
                                             && Str(env.shown(V4(ip))) !in items
  {
  }

  lemma Probe4Step(env: Env, items: seq<Json>, first: U32, last: U32, c: U32, t: nat)
    requires first <= last
    ensures var ip := Candidate4(first, last, Counter(c, t));
            Probe4(env, items, first, last, c, t) ==
              if t >= Trials4(first, last) then None
              else if Acceptable4(env, items, ip) then Some(ip)
              else Probe4(env, items, first, last, c, t + 1)
  {
    hide Acceptable4;
  }

  /** Every candidate lies in the pool; the last address itself is a candidate only of a pool of one. */
  lemma CandidateInPool(first: U32, last: U32, c: nat)
    requires first <= last
    ensures first <= Candidate4(first, last, c) <= last
    ensures first < last ==> Candidate4(first, last, c) < last
  {
  }

  /** What probing returns is acceptable, and it returns nothing only if no trial is. */
  lemma {:induction false} ProbeFindsFirst(env: Env, items: seq<Json>, first: U32, last: U32, c: U32, t: nat)
    requires first <= last
    ensures var r := Probe4(env, items, first, last, c, t);
            if r.Some? then
              Acceptable4(env, items, r.value) &&
              exists u :: t <= u < Trials4(first, last) && r.value == Candidate4(first, last, Counter(c, u)) &&
                          forall v :: t <= v < u ==> !Acceptable4(env, items, Candidate4(first, last, Counter(c, v)))
            else
              forall u :: t <= u < Trials4(first, last) ==>
                !Acceptable4(env, items, Candidate4(first, last, Counter(c, u)))
    decreases Trials4(first, last) - t
  {
    hide Acceptable4, Counter, Candidate4, Trials4;
    if t < Trials4(first, last) {
      ProbeFindsFirst(env, items, first, last, c, t + 1);
      if !Acceptable4(env, items, Candidate4(first, last, Counter(c, t))) {
        var r := Probe4(env, items, first, last, c, t + 1);
        if r.Some? {
          var u :| t + 1 <= u < Trials4(first, last) && r.value == Candidate4(first, last, Counter(c, u)) &&
            forall v :: t + 1 <= v < u ==> !Acceptable4(env, items, Candidate4(first, last, Counter(c, v)));
          assert t <= u;
        }
      }
    }
  }

  /** The trial at which a counter starting at c reaches residue r. */
  lemma ResidueReached(c: nat, m: nat, r: nat) returns (t: nat)
    requires r < m
    ensures t < m && (c + t) % m == r
  {
    var q := (r - c) / m;
    t := (r - c) % m;
    assert m * -q == -(m * q);
    ModIs(c + t, m, -q, r);
  }

  lemma ModAtMost(a: nat, m: nat)
    requires m > 0
    ensures a % m <= a
  {
    if a < m {
      ModIs(a, m, 0, a);
    }
  }

  /** How far past a multiple of m the difference is, when it is known up to multiples. */
  lemma OffsetOf(r: nat, c: nat, m: nat, t: nat)
    requires m > 0 && (c + t) % m == r
    ensures (r - c) % m == t % m
  {
    var (q, p) := ((c + t) / m, t / m);
    assert m * (p - q) == m * p - m * q;
    ModIs(r - c, m, p - q, t % m);
  }

  lemma OffsetMoves(a: int, m: nat, d: nat)
    requires m > 0 && a % m + d < m
    ensures (a + d) % m == a % m + d
  {
    ModIs(a + d, m, a / m, a % m + d);
  }

  predicate Tried(first: U32, last: U32, c: U32, ip: U32)
    requires first <= last
  {
    exists t :: 0 <= t < Trials4(first, last) && Candidate4(first, last, Counter(c, t)) == ip
  }

  /** The trials before the counter passes 2^32. */
  function BeforeWrap(c: U32): nat { WORD32 - c }

  function Least(a: nat, b: nat): nat { if a < b then a else b }

  /**
   Which addresses the trials reach: before the counter wraps, those a short way round the
   pool from where it starts; after it wraps, those at the beginning of the pool.
   */
  predicate Reached(first: U32, last: U32, c: U32, ip: U32)
    requires first <= ip < last
  {
    || (ip - first - c) % (last - first) < Least(Trials4(first, last), BeforeWrap(c))
    || ip - first < Trials4(first, last) - BeforeWrap(c)
  }

  /** Exactly the reached addresses are tried, for every pool and every start of the counter. */
  lemma TriedIff(first: U32, last: U32, c: U32, ip: U32)
    requires first <= ip < last
    ensures Tried(first, last, c, ip) <==> Reached(first, last, c, ip)
  {
    var (m, j, r) := (last - first, BeforeWrap(c), ip - first);
    if Tried(first, last, c, ip) {
      var t :| 0 <= t < Trials4(first, last) && Candidate4(first, last, Counter(c, t)) == ip;
      TrialReaches(first, last, c, ip, t);
    }
    if r < Trials4(first, last) - j {
      ModIs(r, m, 0, r);
      CounterAfter(c, r + j);
      assert Candidate4(first, last, Counter(c, r + j)) == ip;
    } else if Reached(first, last, c, ip) {
      var t := ResidueReached(c, m, r);
      OffsetOf(r, c, m, t);
      ModIs(t, m, 0, t);
      CounterAfter(c, t);
      assert Candidate4(first, last, Counter(c, t)) == ip;
    }
  }

  lemma CounterAfter(c: U32, t: nat)
    requires t < BeforeWrap(c) + WORD32
    ensures Counter(c, t) == if t < BeforeWrap(c) then c + t else t - BeforeWrap(c)
  {
  }

  lemma TrialReaches(first: U32, last: U32, c: U32, ip: U32, t: nat)
    requires first <= ip < last && t < Trials4(first, last) && Candidate4(first, last, Counter(c, t)) == ip
    ensures Reached(first, last, c, ip)
  {
    hide Counter;
    var m := last - first;
    CounterAfter(c, t);
    if t < BeforeWrap(c) {
      OffsetOf(ip - first, c, m, t);
      ModAtMost(t, m);
    } else {
      ModAtMost(t - BeforeWrap(c), m);
    }
  }

  /** What a pool, the number of its trials and the start of the counter must satisfy for all addresses but the last to be tried. */
  predicate Covering(first: U32, last: U32, c: U32)
    requires first < last
  {
    var (m, n, j) := (last - first, Trials4(first, last), BeforeWrap(c));
    m <= n && (j >= m || n - j >= m || (n - WORD32) % m <= n - m)
  }

  lemma CoveringReaches(first: U32, last: U32, c: U32, ip: U32)
    requires first <= ip < last && Covering(first, last, c)
    ensures Reached(first, last, c, ip)
  {
    hide Trials4;
    var (m, n, j, r) := (last - first, Trials4(first, last), BeforeWrap(c), ip - first);
    if j < m && n - j < m && r >= n - j {
      OffsetMoves(n - WORD32, m, r - (n - j));
      assert r - c == n - WORD32 + (r - (n - j));
    }
  }

  /** An address that is not reached, when the condition fails. */
  lemma NotCovering(first: U32, last: U32, c: U32) returns (missed: U32)
    requires first < last && !Covering(first, last, c)
    ensures first <= missed < last && !Reached(first, last, c, missed)
  {
    hide Trials4;
    var (m, n, j) := (last - first, Trials4(first, last), BeforeWrap(c));
    if n <= j {
      AtLeastTwoTrials(first, last);
      var r := (c + n) % m;
      OffsetOf(r, c, m, n);
      ModIs(n, m, 0, n);
      missed := first + r;
    } else {
      var v := (n - WORD32) % m;
      assert n - j - c == n - WORD32;
      if v >= j {
        missed := first + (n - j);
      } else {
        OffsetMoves(n - WORD32, m, j - v);
        missed := first + (n - v);
      }
    }
  }

  lemma AtLeastTwoTrials(first: U32, last: U32)
    requires first < last
    ensures 2 <= Trials4(first, last) <= MAX_TRIALS
    ensures Trials4(first, last) < last - first ==> Trials4(first, last) == MAX_TRIALS
  {
  }

  /** Every address of a pool but its last is tried if and only if the condition holds, wrapping counters included. */
  lemma CoversPoolIff(first: U32, last: U32, c: U32)
    requires first < last
    ensures (forall ip: U32 :: first <= ip < last ==> Tried(first, last, c, ip)) <==> Covering(first, last, c)
  {
    hide Tried, Reached, Covering;
    if Covering(first, last, c) {
      forall ip: U32 | first <= ip < last
        ensures Tried(first, last, c, ip)
      {
        CoveringReaches(first, last, c, ip);
        TriedIff(first, last, c, ip);
      }
    } else {
      var missed := NotCovering(first, last, c);
      TriedIff(first, last, c, missed);
    }
  }

  /** A counter that does not wrap covers the pools of up to 1000 addresses beside the last. */
  lemma UnwrappedCoversIff(first: U32, last: U32, c: U32)
    requires first < last && Trials4(first, last) <= BeforeWrap(c)
    ensures Covering(first, last, c) <==> last - first <= MAX_TRIALS
  {
    hide BeforeWrap;
    if last - first <= Trials4(first, last) {
    } else {
      AtLeastTwoTrials(first, last);
    }
  }

  lemma OffsetOfMultiple(m: nat, q: int, r: nat, w: int)
    requires r < m && w == m * q + r && m > 1
    ensures (m + 1 - w) % m == if r <= 1 then 1 - r else m + 1 - r
  {
    if r <= 1 {
      Expand(m, 1, q);
      ModIs(m + 1 - w, m, 1 - q, 1 - r);
    } else {
      Expand(m, 0, q);
      ModIs(m + 1 - w, m, 0 - q, m + 1 - r);
    }
  }

  lemma Expand(m: int, a: int, q: int)
    ensures m * (a - q) == m * a - m * q
  {
  }

  /**
   A counter that wraps inside a small pool covers it only if it wraps after the first trial or
   before the last but one, or if 2^32 leaves remainder zero or one; and never one of 1000.
   */
  lemma WrappedCoversIff(first: U32, last: U32, c: U32)
    requires first < last <= first + MAX_TRIALS && last < MAX32 && BeforeWrap(c) < Trials4(first, last)
    ensures var (m, j) := (last - first, BeforeWrap(c));
            Covering(first, last, c) <==> m < MAX_TRIALS && (j == 1 || j == m || WORD32 % m <= 1)
  {
    assert BeforeWrap(c) >= 1;
    hide BeforeWrap;
    var m := last - first;
    if m < MAX_TRIALS {
      assert Trials4(first, last) == m + 1;
      if m == 1 {
        ModIs(m + 1 - WORD32, 1, m + 1 - WORD32, 0);
        ModIs(WORD32, 1, WORD32, 0);
      } else {
        OffsetOfMultiple(m, WORD32 / m, WORD32 % m, WORD32);
      }
    } else {
      assert Trials4(first, last) == MAX_TRIALS;
      ModIs(MAX_TRIALS - WORD32, MAX_TRIALS, -4294967, 704);
    }
  }

  /** In a pool of seven addresses, probed from a counter two short of 2^32, one but the last is not tried. */
  lemma SixNotCovered(first: U32) returns (missed: U32)
    requires first + 6 < MAX32
    ensures first <= missed < first + 6 && !Tried(first, first + 6, WORD32 - 2, missed)
  {
    hide Tried, Covering;
    WrappedCoversIff(first, first + 6, WORD32 - 2);
    CoversPoolIff(first, first + 6, WORD32 - 2);
    missed :| first <= missed < first + 6 && !Tried(first, first + 6, WORD32 - 2, missed);
  }

  /** Probing succeeds if and only if some tried address is acceptable. */
  lemma ProbeSucceedsIff(env: Env, items: seq<Json>, first: U32, last: U32, c: U32)
    requires first <= last
    ensures Probe4(env, items, first, last, c, 0).Some? <==>
            exists ip: U32 :: Tried(first, last, c, ip) && Acceptable4(env, items, ip)
  {
    hide Acceptable4, Probe4, Candidate4, Counter, Trials4;
    ProbeFindsFirst(env, items, first, last, c, 0);
  }

  /** Whenever an address of the pool but its last is acceptable, probing finds one. */
  ghost predicate Complete(first: U32, last: U32, c: U32)
    requires first < last
  {
    forall env: Env, items: seq<Json> ::
      Probe4(env, items, first, last, c, 0).Some? <==>
      exists ip: U32 :: first <= ip < last && Acceptable4(env, items, ip)
  }

  /**
   Probing a pool is complete, whatever the routes and the addresses in use, if and only if it
   reaches all its addresses but the last and those that end in .255.
   */
  lemma ProbeCompleteIff(first: U32, last: U32, c: U32)
    requires first < last
    ensures Complete(first, last, c) <==>
            forall ip: U32 :: first <= ip < last && ip % 256 != 255 ==> Reached(first, last, c, ip)
  {
    hide Probe4, Tried, Reached, Acceptable4;
    if forall ip: U32 :: first <= ip < last && ip % 256 != 255 ==> Reached(first, last, c, ip) {
      forall env: Env, items: seq<Json>
        ensures Probe4(env, items, first, last, c, 0).Some? <==>
                exists ip: U32 :: first <= ip < last && Acceptable4(env, items, ip)
      {
        CompleteFor(env, items, first, last, c);
      }
    } else {
      var ip: U32 :| first <= ip < last && ip % 256 != 255 && !Reached(first, last, c, ip);
      OnlyRouted(first, last, c, ip);
    }
  }

  lemma CompleteFor(env: Env, items: seq<Json>, first: U32, last: U32, c: U32)
    requires first < last
    requires forall ip: U32 :: first <= ip < last && ip % 256 != 255 ==> Reached(first, last, c, ip)
    ensures Probe4(env, items, first, last, c, 0).Some? <==>
            exists ip: U32 :: first <= ip < last && Acceptable4(env, items, ip)
  {
    hide Probe4, Tried, Reached, Acceptable4;
    ProbeSucceedsIff(env, items, first, last, c);
    if Probe4(env, items, first, last, c, 0).Some? {
      var ip: U32 :| Tried(first, last, c, ip) && Acceptable4(env, items, ip);
      TriedInPool(first, last, c, ip);
    }
    if ip: U32 :| first <= ip < last && Acceptable4(env, items, ip) {
      AcceptableParts(env, items, ip);
      TriedIff(first, last, c, ip);
    }
  }

  lemma TriedInPool(first: U32, last: U32, c: U32, ip: U32)
    requires first < last && Tried(first, last, c, ip)
    ensures first <= ip < last
  {
    hide Counter, Trials4;
    var t :| 0 <= t < Trials4(first, last) && Candidate4(first, last, Counter(c, t)) == ip;
    CandidateInPool(first, last, Counter(c, t));
  }

  /** With a route to one unreached address alone, it is acceptable and probing finds nothing. */
  lemma OnlyRouted(first: U32, last: U32, c: U32, ip: U32)
    requires first <= ip < last && ip % 256 != 255 && !Reached(first, last, c, ip)
    ensures !Complete(first, last, c)
  {
    hide Probe4, Tried, Reached;
    var env := Env([Route(V4(ip), 32, false)], {}, (a: Ip) => Text("", 0, 0, a));
    HostRoute(ip);
    assert Acceptable4(env, [], ip);
    ProbeSucceedsIff(env, [], first, last, c);
    TriedIff(first, last, c, ip);
    forall a: U32 | Tried(first, last, c, a)
      ensures !Acceptable4(env, [], a)
    {
      if a != ip {
        HostRouteOnly(ip, a);
      }
    }
  }

  lemma HostRoute(ip: U32)
    ensures Routes4(Route(V4(ip), 32, false), ip)
    ensures Routed4([Route(V4(ip), 32, false)], ip)
  {
    assert Pow2(0) == 1 && Floor(ip, 1) == ip;
    assert Route(V4(ip), 32, false) in [Route(V4(ip), 32, false)];
  }

  lemma HostRouteOnly(ip: U32, a: U32)
    requires a != ip
    ensures !Routed4([Route(V4(ip), 32, false)], a)
  {
    assert Pow2(0) == 1 && Floor(a, 1) == a;
  }

  /** The pools are probed in order until one yields an address. */
  function Assign4(env: Env, items: seq<Json>, pools: seq<Pool>, c: U32): Option<U32> {
    if pools == [] then None
    else
      var p := pools[0];
      var r := if Probed4(p) then Probe4(env, items, p.first.host, p.last.host, c, 0) else None;
      if r.Some? then r else Assign4(env, items, pools[1..], c)
  }

  predicate Probed4(p: Pool) {
    p.first.V4? && p.last.V4? && p.first.host <= p.last.host && p.first.host != 0
  }

  /** The address comes from the first pool that has one to give; reversed pools and pools from 0.0.0.0 on are passed over. */
  lemma {:induction false} FirstPoolGives(env: Env, items: seq<Json>, pools: seq<Pool>, c: U32)
    ensures var r := Assign4(env, items, pools, c);
            if r.Some? then exists i :: 0 <= i < |pools| && Gives(env, items, pools[i], c) == r && forall j :: 0 <= j < i ==> Gives(env, items, pools[j], c).None?
            else forall j :: 0 <= j < |pools| ==> Gives(env, items, pools[j], c).None?
  {
    hide Probe4;
    if pools != [] {
      FirstPoolGives(env, items, pools[1..], c);
      var (first, r) := (Gives(env, items, pools[0], c), Assign4(env, items, pools[1..], c));
      if first.None? && r.Some? {
        var i :| 0 <= i < |pools| - 1 && Gives(env, items, pools[1..][i], c) == r && forall j :: 0 <= j < i ==> Gives(env, items, pools[1..][j], c).None?;
        assert pools[i + 1] == pools[1..][i];
        forall j | 0 <= j < i + 1
          ensures Gives(env, items, pools[j], c).None?
        {
          assert j > 0 ==> pools[j] == pools[1..][j - 1];
        }
      } else if first.None? {
        forall j | 0 <= j < |pools|
          ensures Gives(env, items, pools[j], c).None?
        {
          assert j > 0 ==> pools[j] == pools[1..][j - 1];
        }
      }
    }
  }

  /** What one pool gives. */
  function Gives(env: Env, items: seq<Json>, p: Pool, c: U32): Option<U32> {
    if p.first.V4? && p.last.V4? && 0 < p.first.host <= p.last.host then Probe4(env, items, p.first.host, p.last.host, c, 0) else None
  }

  method ProbePools4(env: Env, items: seq<Json>, pools: seq<Pool>, address: nat) returns (r: Option<U32>)
    ensures r == Assign4(env, items, pools, address % WORD32)
  {
    hide Probe4;
    r := None;
    var p := 0;
    while p < |pools| && r.None?
      invariant 0 <= p <= |pools|
      invariant Assign4(env, items, pools, address % WORD32) ==
                if r.Some? then r else Assign4(env, items, pools[p..], address % WORD32)
    {
      assert pools[p..][0] == pools[p] && pools[p..][1..] == pools[p + 1..];
      var pool := pools[p];
      if pool.first.V4? && pool.last.V4? {
        if pool.last.host < pool.first.host || pool.first.host == 0 {
          p := p + 1;
          continue;
        }
        r := ProbePool4(env, items, pool.first.host, pool.last.host, address);
      }
      p := p + 1;
    }
  }

  lemma {:induction false} Assigned4IsAcceptable(env: Env, items: seq<Json>, pools: seq<Pool>, c: U32)
    ensures var r := Assign4(env, items, pools, c);
            r.Some? ==> Acceptable4(env, items, r.value) &&
                        exists p :: p in pools && Probed4(p) && p.first.host <= r.value <= p.last.host
  {
    hide Acceptable4, Probe4, Candidate4, Counter, Trials4;
    if pools != [] {
      var p := pools[0];
      if Probed4(p) {
        ProbeFindsFirst(env, items, p.first.host, p.last.host, c, 0);
        var r := Probe4(env, items, p.first.host, p.last.host, c, 0);
        if r.Some? {
          var u :| 0 <= u < Trials4(p.first.host, p.last.host)
            && r.value == Candidate4(p.first.host, p.last.host, Counter(c, u));
          CandidateInPool(p.first.host, p.last.host, Counter(c, u));
        }
      }
      Assigned4IsAcceptable(env, items, pools[1..], c);
    }
  }

  /**
   A pool of up to 1000 addresses beside the last, inside the block of a route and probed by a counter
   that does not wrap, yields an address whenever one beside the last is free and does not end in .255.
   */
  lemma SmallPoolYields(env: Env, items: seq<Json>, first: U32, last: U32, c: U32, r: Route, ip: U32)
    requires first < last <= first + MAX_TRIALS && Trials4(first, last) <= BeforeWrap(c)
    requires r in env.routes && r.target.V4? && 1 <= r.bits <= 32
    requires InBlock4(r.target.host, r.bits, first) && InBlock4(r.target.host, r.bits, last)
    requires first <= ip < last && ip % 256 != 255 && V4(ip) !in env.inUse && Str(env.shown(V4(ip))) !in items
    ensures Probe4(env, items, first, last, c, 0).Some?
  {
    hide Probe4, Tried, Covering, Trials4, Routes4, Acceptable4;
    UnwrappedCoversIff(first, last, c);
    CoversPoolIff(first, last, c);
    Routes4Iff(r, ip);
    AcceptableParts(env, items, ip);
    ProbeSucceedsIff(env, items, first, last, c);
  }

  lemma {:induction false} SomePoolYields(env: Env, items: seq<Json>, pools: seq<Pool>, c: U32, i: nat)
    requires i < |pools| && Probed4(pools[i]) && Probe4(env, items, pools[i].first.host, pools[i].last.host, c, 0).Some?
    ensures Assign4(env, items, pools, c).Some?
  {
    hide Probe4;
    if i > 0 {
      SomePoolYields(env, items, pools[1..], c, i - 1);
    }
  }

  // ---- IPv6 ----

  /** ip with all but the leading bits cleared. */
  function Masked6(ip: Ip, bits: nat): Ip
    requires ip.V6? && bits <= 128
  {
    if bits <= 64 then V6(Floor(ip.hi, Pow2(64 - bits)), 0)
    else V6(ip.hi, Floor(ip.lo, Pow2(128 - bits)))
  }

  predicate Routes6(r: Route, ip: Ip)
    requires ip.V6?
  {
    !r.hasVia && r.target.V6? && r.bits <= 128 && Masked6(ip, r.bits) == r.target
  }

  /** An address as a 128-bit number. */
  function Number6(ip: Ip): nat
    requires ip.V6?
  {
    WORD64 * ip.hi + ip.lo
  }

  /** The addresses of a route as 128-bit numbers: a block that begins at its target. */
  predicate InBlock6(target: Ip, bits: nat, ip: Ip)
    requires target.V6? && ip.V6? && bits <= 128
  {
    Number6(target) % Pow2(128 - bits) == 0 && Number6(target) <= Number6(ip) < Number6(target) + Pow2(128 - bits)
  }

  /** A route matches exactly the addresses of its block, if it has no gateway. */
  lemma Routes6Iff(r: Route, ip: Ip)
    requires ip.V6?
    ensures Routes6(r, ip) <==> !r.hasVia && r.target.V6? && r.bits <= 128 && InBlock6(r.target, r.bits, ip)
  {
    if r.target.V6? && r.bits <= 128 {
      MaskIff(r.target, r.bits, ip);
    }
  }

  lemma MaskIff(target: Ip, bits: nat, ip: Ip)
    requires ip.V6? && target.V6? && bits <= 128
    ensures Masked6(ip, bits) == target <==> InBlock6(target, bits, ip)
  {
    hide Pow2, Floor;
    var w := WORD64;
    Pow2Of64();
    if bits <= 64 {
      var q := Pow2(64 - bits);
      FloorIff(ip.hi, target.hi, q);
      Pow2Sum(64 - bits, 64);
      HighBlock(target.hi, target.lo, ip.hi, ip.lo, q, w);
    } else {
      var q := Pow2(128 - bits);
      FloorIff(ip.lo, target.lo, q);
      Pow2Sum(128 - bits, bits - 64);
      LowBlock(target.hi, target.lo, ip.hi, ip.lo, q, w, Pow2(bits - 64));
    }
  }

  lemma {:induction false} Pow2Sum(a: nat, b: nat)
    ensures Pow2(a + b) == Pow2(a) * Pow2(b)
  {
    if b > 0 {
      Pow2Sum(a, b - 1);
      assert Pow2(a) * (2 * Pow2(b - 1)) == 2 * (Pow2(a) * Pow2(b - 1));
    }
  }

  lemma Pow2Of64()
    ensures Pow2(64) == WORD64
  {
    hide Pow2;
    assert Pow2(8) == 256 by { SmallPowers(); }
    Pow2Sum(8, 8);
    Pow2Sum(16, 16);
    Pow2Sum(32, 32);
  }

  lemma SmallPowers()
    ensures Pow2(8) == 256
  {
    assert Pow2(4) == 16;
  }

  lemma Monotone(a: int, b: int, w: nat)
    requires a <= b
    ensures w * a <= w * b
  {
    assert w * (b - a) >= 0;
  }

  lemma HighBlock(t: nat, tl: nat, hi: nat, lo: nat, q: nat, w: nat)
    requires q > 0 && tl < w && lo < w
    ensures q * w > 0
    ensures t % q == 0 && t <= hi < t + q && tl == 0 <==>
            (w * t + tl) % (q * w) == 0 && w * t + tl <= w * hi + lo < w * t + tl + q * w
  {
    Monotone(1, q, w);
    var m := q * w;
    if t % q == 0 && t <= hi < t + q && tl == 0 {
      var k := Divides(t, q);
      InHighBlock(t, hi, lo, q, w, k);
    }
    if (w * t + tl) % m == 0 && w * t + tl <= w * hi + lo < w * t + tl + m {
      var k := Divides(w * t + tl, m);
      OfHighBlock(t, tl, hi, lo, q, w, k);
    }
  }

  lemma Divides(a: nat, m: nat) returns (k: nat)
    requires m > 0 && a % m == 0
    ensures a == m * k
  {
    k := a / m;
  }

  lemma InHighBlock(t: nat, hi: nat, lo: nat, q: nat, w: nat, k: nat)
    requires q > 0 && lo < w && q * w > 0 && t == q * k && t <= hi < t + q
    ensures (w * t) % (q * w) == 0 && w * t <= w * hi + lo < w * t + q * w
  {
    Reassociate(w, q, k);
    ModIs(w * t, q * w, k, 0);
    Monotone(t, hi, w);
    Monotone(hi + 1, t + q, w);
    Distribute(w, hi, 1);
    Distribute(w, t, q);
  }

  lemma OfHighBlock(t: nat, tl: nat, hi: nat, lo: nat, q: nat, w: nat, k: nat)
    requires q > 0 && tl < w && lo < w && w * t + tl == (q * w) * k && w * t + tl <= w * hi + lo < w * t + tl + q * w
    ensures t % q == 0 && t <= hi < t + q && tl == 0
  {
    Reassociate(w, q, k);
    EuclidUnique(w, t, tl, q * k, 0);
    ModIs(t, q, k, 0);
    Distribute(w, hi, 1);
    Distribute(w, t, q);
    if hi < t {
      Monotone(hi + 1, t, w);
    }
    if t + q <= hi {
      Monotone(t + q, hi, w);
    }
  }

  lemma Reassociate(w: nat, q: nat, k: nat)
    ensures w * (q * k) == (q * w) * k && q * w == w * q
  {
  }

  lemma Distribute(w: nat, a: nat, b: nat)
    ensures w * (a + b) == w * a + w * b
  {
  }

  lemma LowBlock(t: nat, tl: nat, hi: nat, lo: nat, q: nat, w: nat, d: nat)
    requires q > 0 && tl < w && lo < w && w == q * d
    ensures t == hi && tl % q == 0 && tl <= lo < tl + q <==>
            (w * t + tl) % q == 0 && w * t + tl <= w * hi + lo < w * t + tl + q
  {
    SameRemainder(t, tl, q, w, d);
    if tl % q == 0 && w * t + tl <= w * hi + lo < w * t + tl + q {
      BlockFits(tl, q, w, d, tl / q);
      SameHigh(t, hi, lo, tl, q, w);
    }
  }

  lemma SameRemainder(t: nat, tl: nat, q: nat, w: nat, d: nat)
    requires q > 0 && w == q * d
    ensures (w * t + tl) % q == tl % q
  {
    var k := tl / q;
    assert w * t == q * (d * t) by { Reassociate(t, q, d); }
    Distribute(q, d * t, k);
    ModIs(w * t + tl, q, d * t + k, tl % q);
  }

  lemma BlockFits(tl: nat, q: nat, w: nat, d: nat, k: nat)
    requires q > 0 && w == q * d && tl == q * k && tl < w
    ensures tl + q <= w
  {
    if d <= k {
      Monotone(d, k, q);
    }
    Monotone(k + 1, d, q);
    Distribute(q, k, 1);
  }

  lemma SameHigh(t: nat, hi: nat, lo: nat, tl: nat, q: nat, w: nat)
    requires lo < w && tl + q <= w && w * t + tl <= w * hi + lo < w * t + tl + q
    ensures t == hi
  {
    if hi < t {
      Monotone(hi + 1, t, w);
      Distribute(w, hi, 1);
    } else if t < hi {
      Monotone(t + 1, hi, w);
      Distribute(w, t, 1);
    }
  }

  /** The prefix length of the last matching route; a default route matches with length 0. */
  function LastBits6(routes: seq<Route>, ip: Ip): nat
    requires ip.V6?
  {
    if routes == [] then 0
    else
      var r := routes[|routes| - 1];
      if Routes6(r, ip) then r.bits else LastBits6(routes[..|routes| - 1], ip)
  }

  /** It is the length of a matching route behind which no other matches; without one it is zero. */
  lemma {:induction false} LastBits6Is(routes: seq<Route>, ip: Ip)
    requires ip.V6?
    ensures if exists i :: 0 <= i < |routes| && Routes6(routes[i], ip)
            then exists i :: 0 <= i < |routes| && Routes6(routes[i], ip) && LastBits6(routes, ip) == routes[i].bits
                             && forall j :: i < j < |routes| ==> !Routes6(routes[j], ip)
            else LastBits6(routes, ip) == 0
  {
    hide Routes6;
    if routes != [] {
      var n := |routes| - 1;
      LastBits6Is(routes[..n], ip);
      if !Routes6(routes[n], ip) && exists i :: 0 <= i < n && Routes6(routes[i], ip) {
        var i :| 0 <= i < n && Routes6(routes[..n][i], ip) && LastBits6(routes[..n], ip) == routes[..n][i].bits
                 && forall j :: i < j < n ==> !Routes6(routes[..n][j], ip);
        assert routes[i] == routes[..n][i];
        forall j | i < j < |routes|
          ensures !Routes6(routes[j], ip)
        {
          assert j < n ==> routes[..n][j] == routes[j];
        }
      }
    }
  }

  method RouteBits6(routes: seq<Route>, ip: Ip) returns (bits: nat)
    requires ip.V6?
    ensures bits == LastBits6(routes, ip)
  {
    hide Routes6;
    bits := 0;
    for i := 0 to |routes|
      invariant bits == LastBits6(routes[..i], ip)
    {
      assert routes[..i + 1][..i] == routes[..i] && routes[..i + 1][i] == routes[i];
      if Routes6(routes[i], ip) {
        bits := routes[i].bits;
      }
    }
    assert routes[..|routes|] == routes;
  }

  predicate Acceptable6(env: Env, items: seq<Json>, ip: Ip)
    requires ip.V6?
  {
    LastBits6(env.routes, ip) > 0 && ip !in env.inUse && Str(env.shown(ip)) !in items
  }

  /** A word drawn between s and e from the random word r. */
  function Drawn(s: U64, e: U64, r: U64): (x: U64)
    ensures s <= x && (if s < e then x < e else x == s)
  {
    if e > s then s + r % (e - s) else s
  }

  /** The first trial uses the member's own 40-bit address if the low word leaves room for any such address. */
  function Candidate6(first: Ip, last: Ip, address: nat, trial: nat, random: (U64, U64)): (ip: Ip)
    requires first.V6? && last.V6? && address < 0x100_0000_0000
    ensures ip.V6?
  {
    if trial == 0 && last.lo > first.lo && last.lo - first.lo >= 0xff_ffff_ffff then V6(first.hi, first.lo + address)
    else V6(Drawn(first.hi, last.hi, random.0), Drawn(first.lo, last.lo, random.1))
  }

  /** In a pool whose low words leave room for all of them, members start from addresses of their own. */
  lemma FirstCandidatesDiffer(first: Ip, last: Ip, a: nat, b: nat, random: (U64, U64), random': (U64, U64))
    requires first.V6? && last.V6? && a < 0x100_0000_0000 && b < 0x100_0000_0000 && a != b
    requires last.lo - first.lo >= 0xff_ffff_ffff
    ensures Candidate6(first, last, a, 0, random) != Candidate6(first, last, b, 0, random')
    ensures Number6(Candidate6(first, last, a, 0, random)) - Number6(first) == a
  {
  }

  /** x lies in [s, e), or is s if there is nothing between. */
  predicate Between(s: U64, e: U64, x: U64) { if s < e then s <= x < e else x == s }

  lemma DrawnReaches(s: U64, e: U64, x: U64)
    requires Between(s, e, x)
    ensures Drawn(s, e, x - s) == x
  {
    if s < e {
      ModIs(x - s, e - s, 0, x - s);
    }
  }

  /** Every address whose words lie between those of the pool's ends is drawn by some random words, and no other is. */
  lemma DrawsReachIff(first: Ip, last: Ip, address: nat, trial: nat, ip: Ip)
    requires first.V6? && last.V6? && ip.V6? && address < 0x100_0000_0000 && trial > 0
    ensures (exists random :: Candidate6(first, last, address, trial, random) == ip) <==>
            Between(first.hi, last.hi, ip.hi) && Between(first.lo, last.lo, ip.lo)
  {
    hide Drawn;
    if Between(first.hi, last.hi, ip.hi) && Between(first.lo, last.lo, ip.lo) {
      DrawnReaches(first.hi, last.hi, ip.hi);
      DrawnReaches(first.lo, last.lo, ip.lo);
      var r0: U64, r1: U64 := ip.hi - first.hi, ip.lo - first.lo;
      assert Candidate6(first, last, address, trial, (r0, r1)) == ip;
    }
    if random :| Candidate6(first, last, address, trial, random) == ip {
      DrawnBetween(first.hi, last.hi, random.0);
      DrawnBetween(first.lo, last.lo, random.1);
    }
  }

  lemma DrawnBetween(s: U64, e: U64, r: U64)
    ensures Between(s, e, Drawn(s, e, r))
  {
  }

  /** The order of addresses as 128-bit numbers. */
  predicate AtMost6(a: Ip, b: Ip)
    requires a.V6? && b.V6?
  {
    a.hi < b.hi || (a.hi == b.hi && a.lo <= b.lo)
  }

  /** Candidates stay in the pool, on every trial and for every draw, if and only if the pool's ends are in order. */
  lemma Candidate6InPoolIff(first: Ip, last: Ip, address: nat)
    requires first.V6? && last.V6? && address < 0x100_0000_0000
    ensures (forall trial, random ::
               AtMost6(first, Candidate6(first, last, address, trial, random)) &&
               AtMost6(Candidate6(first, last, address, trial, random), last)) <==> AtMost6(first, last)
  {
    if !AtMost6(first, last) {
      var ip := Candidate6(first, last, address, 1, (0, 0));
      assert ip.hi == first.hi;
    }
  }

  function Probe6(env: Env, items: seq<Json>, p: Pool, address: nat, draws: nat -> (U64, U64), t: nat): (r: Option<Ip>)
    requires p.first.V6? && p.last.V6? && address < 0x100_0000_0000
    ensures r.Some? ==> r.value.V6? && Acceptable6(env, items, r.value)
    decreases MAX_TRIALS - t
  {
    if t >= MAX_TRIALS then None
    else
      var ip := Candidate6(p.first, p.last, address, t, draws(t));
      if Acceptable6(env, items, ip) then Some(ip) else Probe6(env, items, p, address, draws, t + 1)
  }

  method ProbePool6(env: Env, items: seq<Json>, p: Pool, address: nat, draws: nat -> (U64, U64)) returns (r: Option<Ip>)
    requires p.first.V6? && p.last.V6? && address < 0x100_0000_0000
    ensures r == Probe6(env, items, p, address, draws, 0)
  {
    hide LastBits6, Candidate6, Probe6;
    var (s, e) := (p.first, p.last);
    for trialCount := 0 to MAX_TRIALS
      invariant Probe6(env, items, p, address, draws, 0) == Probe6(env, items, p, address, draws, trialCount)
    {
      Probe6Step(env, items, p, address, draws, trialCount);
      var ip6: Ip;
      if trialCount == 0 && e.lo > s.lo && e.lo - s.lo >= 0xff_ffff_ffff {
        FirstCandidate6(s, e, address, draws(trialCount));
        ip6 := V6(s.hi, s.lo + address);
      } else {
        var (x0, x1) := draws(trialCount);
        DrawnCandidate6(s, e, address, trialCount, draws(trialCount));
        x0 := if e.hi > s.hi then x0 % (e.hi - s.hi) else 0;
        x1 := if e.lo > s.lo then x1 % (e.lo - s.lo) else 0;
        ip6 := V6(s.hi + x0, s.lo + x1);
      }
      assert ip6 == Candidate6(s, e, address, trialCount, draws(trialCount));
      var bits := RouteBits6(env.routes, ip6);
      if bits > 0 && ip6 !in env.inUse {
        if Str(env.shown(ip6)) !in items {
          return Some(ip6);
        }
      }
    }
    Probe6Step(env, items, p, address, draws, MAX_TRIALS);
    return None;
  }

  lemma FirstCandidate6(s: Ip, e: Ip, address: nat, random: (U64, U64))
    requires s.V6? && e.V6? && address < 0x100_0000_0000 && e.lo > s.lo && e.lo - s.lo >= 0xff_ffff_ffff
    ensures s.lo + address < WORD64 && Candidate6(s, e, address, 0, random) == V6(s.hi, s.lo + address)
  {
  }

  /** The draws added to the start of the pool do not overflow 64 bits. */
  lemma DrawnCandidate6(s: Ip, e: Ip, address: nat, trial: nat, random: (U64, U64))
    requires s.V6? && e.V6? && address < 0x100_0000_0000
    requires !(trial == 0 && e.lo > s.lo && e.lo - s.lo >= 0xff_ffff_ffff)
    ensures var x0 := if e.hi > s.hi then random.0 % (e.hi - s.hi) else 0;
            var x1 := if e.lo > s.lo then random.1 % (e.lo - s.lo) else 0;
            s.hi + x0 < WORD64 && s.lo + x1 < WORD64 &&
            Candidate6(s, e, address, trial, random) == V6(s.hi + x0, s.lo + x1)
  {
  }

  lemma Probe6Step(env: Env, items: seq<Json>, p: Pool, address: nat, draws: nat -> (U64, U64), t: nat)
    requires p.first.V6? && p.last.V6? && address < 0x100_0000_0000
    ensures Probe6(env, items, p, address, draws, t) ==
              if t >= MAX_TRIALS then None
              else
                var ip := Candidate6(p.first, p.last, address, t, draws(t));
                if Acceptable6(env, items, ip) then Some(ip) else Probe6(env, items, p, address, draws, t + 1)
  {
    hide Acceptable6, Candidate6;
  }

  /** What probing returns is the candidate of the first acceptable trial; without one it returns nothing. */
  lemma {:induction false} Probe6FindsFirst(env: Env, items: seq<Json>, p: Pool, address: nat, draws: nat -> (U64, U64), t: nat)
    requires p.first.V6? && p.last.V6? && address < 0x100_0000_0000
    ensures var r := Probe6(env, items, p, address, draws, t);
            if r.Some? then
              exists u :: t <= u < MAX_TRIALS && r.value == Candidate6(p.first, p.last, address, u, draws(u))
                          && forall v :: t <= v < u ==> !Acceptable6(env, items, Candidate6(p.first, p.last, address, v, draws(v)))
            else forall u :: t <= u < MAX_TRIALS ==> !Acceptable6(env, items, Candidate6(p.first, p.last, address, u, draws(u)))
    decreases MAX_TRIALS - t
  {
    hide Acceptable6, Candidate6;
    if t < MAX_TRIALS {
      Probe6FindsFirst(env, items, p, address, draws, t + 1);
      var r := Probe6(env, items, p, address, draws, t + 1);
      if !Acceptable6(env, items, Candidate6(p.first, p.last, address, t, draws(t))) && r.Some? {
        var u :| t + 1 <= u < MAX_TRIALS && r.value == Candidate6(p.first, p.last, address, u, draws(u))
                 && forall v :: t + 1 <= v < u ==> !Acceptable6(env, items, Candidate6(p.first, p.last, address, v, draws(v)));
        assert t <= u;
      }
    }
  }

  /** The IPv6 address comes from the first pool that has one to give. */
  lemma {:induction false} FirstPoolGives6(env: Env, items: seq<Json>, pools: seq<Pool>, address: nat, draws: (nat, nat) -> (U64, U64))
    requires address < 0x100_0000_0000
    ensures var r := Assign6(env, items, pools, address, draws);
            if r.Some? then
              exists i :: 0 <= i < |pools| && Gives6(env, items, pools, address, draws, i) == r
                          && forall j :: 0 <= j < i ==> Gives6(env, items, pools, address, draws, j).None?
            else forall j :: 0 <= j < |pools| ==> Gives6(env, items, pools, address, draws, j).None?
  {
    hide Probe6, Acceptable6;
    if pools != [] {
      var (n, init) := (|pools| - 1, pools[..|pools| - 1]);
      FirstPoolGives6(env, items, init, address, draws);
      assert forall j: nat :: j < n ==> Gives6(env, items, pools, address, draws, j) == Gives6(env, items, init, address, draws, j);
      assert Gives6(env, items, pools, address, draws, n).Some? || Gives6(env, items, pools, address, draws, n).None?;
    }
  }

  /** What the i-th pool gives. */
  function Gives6(env: Env, items: seq<Json>, pools: seq<Pool>, address: nat, draws: (nat, nat) -> (U64, U64), i: nat): Option<Ip>
    requires i < |pools| && address < 0x100_0000_0000
  {
    if pools[i].first.V6? && pools[i].last.V6? then Probe6(env, items, pools[i], address, t => draws(i, t), 0) else None
  }

  function Assign6(env: Env, items: seq<Json>, pools: seq<Pool>, address: nat, draws: (nat, nat) -> (U64, U64)): (r: Option<Ip>)
    requires address < 0x100_0000_0000
    ensures r.Some? ==> r.value.V6? && Acceptable6(env, items, r.value)
    decreases |pools|
  {
    if pools == [] then None
    else
      var p := pools[|pools| - 1];
      var before := Assign6(env, items, pools[..|pools| - 1], address, draws);
      if before.Some? then before
      else if p.first.V6? && p.last.V6? then Probe6(env, items, p, address, t => draws(|pools| - 1, t), 0)
      else None
  }

  method ProbePools6(env: Env, items: seq<Json>, pools: seq<Pool>, address: nat, draws: (nat, nat) -> (U64, U64))
    returns (r: Option<Ip>)
    requires address < 0x100_0000_0000
    ensures r == Assign6(env, items, pools, address, draws)
  {
    hide Probe6, Acceptable6;
    r := None;
    var p := 0;
    while p < |pools| && r.None?
      invariant 0 <= p <= |pools|
      invariant r == Assign6(env, items, pools[..p], address, draws)
    {
      assert pools[..p + 1][..p] == pools[..p] && pools[..p + 1][p] == pools[p];
      var pool := pools[p];
      if pool.first.V6? && pool.last.V6? {
        r := ProbePool6(env, items, pool, address, t => draws(p, t));
      }
      p := p + 1;
    }
    Assign6Stops(env, items, pools, address, draws, p);
  }

  lemma {:induction false} Assign6Stops(env: Env, items: seq<Json>, pools: seq<Pool>, address: nat,
                                       draws: (nat, nat) -> (U64, U64), p: nat)
    requires address < 0x100_0000_0000 && p <= |pools|
    requires p == |pools| || Assign6(env, items, pools[..p], address, draws).Some?
    ensures Assign6(env, items, pools, address, draws) == Assign6(env, items, pools[..p], address, draws)
  {
    hide Probe6, Acceptable6;
    if p == |pools| {
      assert pools[..p] == pools;
    } else {
      var init := pools[..|pools| - 1];
      assert init[..p] == pools[..p];
      Assign6Stops(env, items, init, address, draws, p);
    }
  }

  // ---- both ----

  /** What a request brings to the allocator; the flags say which family may be assigned at all. */
  datatype Query = Query(address: nat, pools: seq<Pool>, wants6: bool, wants4: bool, draws: (nat, nat) -> (U64, U64))

  function Appended(env: Env, items: seq<Json>, ip: Option<Ip>): seq<Json> {
    if ip.Some? then items + [Str(env.shown(ip.value))] else items
  }

  function Assigned(env: Env, q: Query, items: seq<Json>): seq<Json>
    requires q.address < 0x100_0000_0000
  {
    var with6 := Appended(env, items, if q.wants6 then Assign6(env, items, q.pools, q.address, q.draws) else None);
    var ip4 := if q.wants4 then Assign4(env, with6, q.pools, q.address % WORD32) else None;
    Appended(env, with6, if ip4.Some? then Some(V4(ip4.value)) else None)
  }

  method AutoAssign(env: Env, q: Query, items: seq<Json>) returns (r: seq<Json>)
    requires q.address < 0x100_0000_0000
    ensures r == Assigned(env, q, items)
  {
    hide Assign4, Assign6;
    r := items;
    if q.wants6 {
      var ip6 := ProbePools6(env, r, q.pools, q.address, q.draws);
      if ip6.Some? {
        r := r + [Str(env.shown(ip6.value))];
      }
    }
    if q.wants4 {
      var ip4 := ProbePools4(env, r, q.pools, q.address);
      if ip4.Some? {
        r := r + [Str(env.shown(V4(ip4.value)))];
      }
    }
  }

  /** Addresses print to text that parses back to them. */
  ghost predicate ShowsFaithfully(env: Env) {
    forall ip :: env.shown(ip).ip == ip
  }

  /** The member keeps what it had, and what it gains was in nobody's use, is routed and is new to it. */
  lemma AssignedIsFree(env: Env, q: Query, items: seq<Json>)
    requires q.address < 0x100_0000_0000 && ShowsFaithfully(env)
    ensures items <= Assigned(env, q, items) && |Assigned(env, q, items)| <= |items| + 2
    ensures forall j :: j in Assigned(env, q, items)[|items|..] ==>
              j.Str? && j.t.ip !in env.inUse && j !in items
              && (j.t.ip.V4? ==> Routed4(env.routes, j.t.ip.host) && j.t.ip.host % 256 != 255)
              && (j.t.ip.V6? ==> LastBits6(env.routes, j.t.ip) > 0)
  {
    hide Assign4, Assign6, Routed4, LastBits6;
    var with6 := Appended(env, items, if q.wants6 then Assign6(env, items, q.pools, q.address, q.draws) else None);
    Assigned4IsAcceptable(env, with6, q.pools, q.address % WORD32);
  }

  /** At most one address of each wanted family is gained, and none of a family that is not wanted. */
  lemma AssignedShape(env: Env, q: Query, items: seq<Json>)
    requires q.address < 0x100_0000_0000 && ShowsFaithfully(env)
    ensures var gained := Assigned(env, q, items)[|items|..];
            && (forall j :: j in gained ==> j.Str? && ((j.t.ip.V6? && q.wants6) || (j.t.ip.V4? && q.wants4)))
            && (|gained| == 2 ==> gained[0].t.ip.V6? && gained[1].t.ip.V4?)
  {
    hide Assign4, Assign6;
  }

  /** Whenever a pool for IPv4 is such that it must yield an address, a member that wants one gets one. */
  lemma WantedIsAssigned(env: Env, q: Query, items: seq<Json>, i: nat, r: Route, ip: U32)
    requires q.address < 0x100_0000_0000 && ShowsFaithfully(env) && q.wants4 && i < |q.pools| && Probed4(q.pools[i])
    requires var (first, last) := (q.pools[i].first.host, q.pools[i].last.host);
             && first < last <= first + MAX_TRIALS && Trials4(first, last) <= BeforeWrap(q.address % WORD32)
             && r in env.routes && r.target.V4? && 1 <= r.bits <= 32
             && InBlock4(r.target.host, r.bits, first) && InBlock4(r.target.host, r.bits, last)
             && first <= ip < last && ip % 256 != 255 && V4(ip) !in env.inUse && Str(env.shown(V4(ip))) !in items
    ensures var r := Assigned(env, q, items); |r| > |items| && items <= r[..|r| - 1] && r[|r| - 1].Str? && r[|r| - 1].t.ip.V4?
  {
    hide Assign4, Assign6, Probe4, Trials4;
    var with6 := Appended(env, items, if q.wants6 then Assign6(env, items, q.pools, q.address, q.draws) else None);
    var (first, last) := (q.pools[i].first.host, q.pools[i].last.host);
    SmallPoolYields(env, with6, first, last, q.address % WORD32, r, ip);
    SomePoolYields(env, with6, q.pools, q.address % WORD32, i);
  }
}
