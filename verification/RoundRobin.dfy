/**
 Round-robin striping: how the entry in use moves over the bonded paths from packet to
 packet, and that the paths get equal shares.
 */
module RoundRobin {
  import opened Common
  import opened PathTable
  import opened Ranks

  /** The entry in use and how many packets it got since it was switched to, after the first. */
  datatype Stripe = Stripe(idx: nat, sent: nat)

  /** The next usable entry after at, trying the given number of them; start if none is usable. */
  function Search(usable: seq<bool>, start: nat, at: nat, tries: nat): (r: nat)
    requires start < |usable| && at < |usable|
    ensures r < |usable|
    ensures r == start || usable[r]
    decreases tries
  {
    if tries == 0 then start
    else
      var next := if at == |usable| - 1 then 0 else at + 1;
      if usable[next] then next else Search(usable, start, next, tries - 1)
  }

  /** The state after one packet; the counter has 16 bits, the share is a signed number. */
  function Next(s: Stripe, usable: seq<bool>, perLink: int): (t: Stripe)
    requires s.idx < |usable|
    ensures t.idx < |usable|
  {
    if s.sent < perLink then s.(sent := (s.sent + 1) % WORD16)
    else if |usable| == 1 || s.idx >= SLOTS - 1 then Stripe(0, 0)
    else Stripe(Search(usable, s.idx, s.idx, |usable| - 1), 0)
  }

  /** How many of the next k packets go to entry i. */
  function Served(s: Stripe, usable: seq<bool>, perLink: int, k: nat, i: nat): nat
    requires s.idx < |usable|
    decreases k
  {
    if k == 0 then 0
    else
      var t := Next(s, usable, perLink);
      (if t.idx == i then 1 else 0) + Served(t, usable, perLink, k - 1, i)
  }

  function AllUsable(n: nat): (u: seq<bool>)
    ensures |u| == n
  {
    seq(n, _ => true)
  }

  // ---- fairness ----

  /** Where in the cycle entry a begins when every entry has m places. */
  function Start(a: nat, m: nat): nat { a * m }

  lemma StartNext(a: nat, m: nat)
    ensures Start(0, m) == 0 && Start(a + 1, m) == Start(a, m) + m
  {
  }

  lemma StartMonotone(a: nat, b: nat, m: nat)
    requires a <= b
    ensures Start(a, m) <= Start(b, m)
  {
    assert (b - a) * m >= 0;
  }

  /** The place of a state in the cycle of n entries with m packets each. */
  function Place(s: Stripe, m: nat): nat { Start(s.idx, m) + s.sent }

  predicate InCycle(s: Stripe, n: nat, m: nat) { s.idx < n && s.sent < m }

  lemma EntryOfPlace(s: Stripe, n: nat, m: nat, i: nat)
    requires InCycle(s, n, m)
    ensures s.idx == i <==> Start(i, m) <= Place(s, m) < Start(i, m) + m
    ensures Place(s, m) < Start(n, m)
  {
    hide Start;
    StartNext(s.idx, m);
    StartNext(i, m);
    if s.idx < i {
      StartMonotone(s.idx + 1, i, m);
    } else if i < s.idx {
      StartMonotone(i + 1, s.idx, m);
    }
    StartMonotone(s.idx + 1, n, m);
  }

  lemma SearchAllUsable(n: nat, at: nat)
    requires 1 < n && at < n
    ensures Search(AllUsable(n), at, at, n - 1) == if at == n - 1 then 0 else at + 1
  {
  }

  lemma NextPlace(s: Stripe, n: nat, perLink: nat)
    requires 1 <= n <= SLOTS && perLink < WORD16 && InCycle(s, n, perLink + 1)
    ensures var (t, m) := (Next(s, AllUsable(n), perLink), perLink + 1);
            InCycle(t, n, m) && Place(t, m) == if Place(s, m) + 1 == Start(n, m) then 0 else Place(s, m) + 1
  {
    hide Start, Search, AllUsable;
    var m := perLink + 1;
    StartNext(s.idx, m);
    EntryOfPlace(s, n, m, s.idx);
    if s.sent == perLink {
      if s.idx + 1 < n {
        StartNext(s.idx + 1, m);
        StartMonotone(s.idx + 2, n, m);
      }
      if 1 < n {
        SearchAllUsable(n, s.idx);
      }
    } else {
      StartMonotone(s.idx + 1, n, m);
    }
  }

  /** The length of the part of [a, b) that lies in [lo, lo + m). */
  function Overlap(a: int, b: int, lo: int, m: nat): int {
    var (from, to) := (if a < lo then lo else a, if b < lo + m then b else lo + m);
    if from < to then to - from else 0
  }

  lemma OverlapStep(a: int, b: int, lo: int, m: nat)
    ensures Overlap(a, a, lo, m) == 0
    ensures a < b ==> Overlap(a, b, lo, m) == (if lo <= a < lo + m then 1 else 0) + Overlap(a + 1, b, lo, m)
  {
  }

  lemma {:induction false} ServedIsOverlap(s: Stripe, n: nat, perLink: nat, k: nat, i: nat)
    requires 1 <= n <= SLOTS && perLink < WORD16 && InCycle(s, n, perLink + 1)
    requires k <= Start(n, perLink + 1)
    ensures var m := perLink + 1; var (p, all, lo) := (Place(s, m), Start(n, m), Start(i, m));
            Served(s, AllUsable(n), perLink, k, i) ==
              if p + 1 + k <= all then Overlap(p + 1, p + 1 + k, lo, m)
              else Overlap(p + 1, all, lo, m) + Overlap(0, p + 1 + k - all, lo, m)
    decreases k
  {
    hide Next, Start, Place, AllUsable, Overlap;
    var m := perLink + 1;
    var (p, all, lo) := (Place(s, m), Start(n, m), Start(i, m));
    EntryOfPlace(s, n, m, i);
    OverlapStep(p + 1, if p + 1 + k <= all then p + 1 + k else all, lo, m);
    OverlapStep(all, all, lo, m);
    OverlapStep(0, k, lo, m);
    if k > 0 {
      var t := Next(s, AllUsable(n), perLink);
      NextPlace(s, n, perLink);
      EntryOfPlace(t, n, perLink + 1, i);
      ServedIsOverlap(t, n, perLink, k - 1, i);
    }
  }

  /**
   Fairness: with n usable entries, any n * (perLink + 1) consecutive packets give each of
   them exactly perLink + 1, from any point of the cycle.
   */
  lemma Fair(s: Stripe, n: nat, perLink: nat, i: nat)
    requires 1 <= n <= SLOTS && perLink < WORD16 && InCycle(s, n, perLink + 1) && i < n
    ensures Served(s, AllUsable(n), perLink, n * (perLink + 1), i) == perLink + 1
  {
    hide Served, Start, Place, AllUsable;
    var m := perLink + 1;
    assert Start(n, m) == n * m by { StartIs(n, m); }
    ServedIsOverlap(s, n, perLink, Start(n, m), i);
    EntryOfPlace(s, n, m, s.idx);
    StartNext(i, m);
    StartMonotone(i + 1, n, m);
  }

  lemma StartIs(a: nat, m: nat)
    ensures Start(a, m) == a * m
  {
  }

  /** A share that does not fit the 16-bit counter is never used up: all packets stay on one entry. */
  lemma {:induction false} NeverSwitches(s: Stripe, usable: seq<bool>, perLink: int, k: nat)
    requires s.idx < |usable| && s.sent < WORD16 <= perLink
    ensures Served(s, usable, perLink, k, s.idx) == k
    decreases k
  {
    if k > 0 {
      NeverSwitches(Next(s, usable, perLink), usable, perLink, k - 1);
    }
  }

  /** With a negative share every packet switches, as with a share of none; the counter plays no part. */
  lemma {:induction false} NegativeShare(s: Stripe, usable: seq<bool>, perLink: int, k: nat, i: nat)
    requires s.idx < |usable| && perLink < 0
    ensures Served(s, usable, perLink, k, i) == Served(s.(sent := 0), usable, 0, k, i)
    decreases k
  {
    hide Search;
    if k > 0 {
      NegativeShare(Next(s, usable, perLink), usable, perLink, k - 1, i);
    }
  }

  /** The packets an entry gets before the next one's turn: the share is counted after the first. */
  function Turn(perLink: int): (m: nat)
  {
    if perLink < 0 then 1 else perLink + 1
  }

  /** The states of n entries that striping can be in. */
  predicate Reached(s: Stripe, n: nat, perLink: int) {
    s.idx < n && s.sent < WORD16 && (perLink >= 0 ==> s.sent <= perLink)
  }

  lemma RestartIsReached(n: nat, perLink: int)
    requires n > 0
    ensures Reached(Stripe(0, perLink % WORD16), n, perLink)
  {
    if perLink >= WORD16 {
      assert perLink % WORD16 < WORD16;
    }
  }

  lemma StaysReached(s: Stripe, usable: seq<bool>, perLink: int)
    requires Reached(s, |usable|, perLink)
    ensures Reached(Next(s, usable, perLink), |usable|, perLink)
  {
    hide Search;
  }

  // ---- entries that are not usable ----

  /**
   The entries that striping goes round: the usable ones, and the first entry of a full table
   whose last is usable, because from there it goes on to the first without a look at it.
   */
  function Ring(usable: seq<bool>): (ring: seq<bool>)
    ensures |ring| == |usable|
  {
    if |usable| == SLOTS && usable[SLOTS - 1] then usable[0 := true] else usable
  }

  function RingSize(usable: seq<bool>): nat { Rank(Ring(usable), true, |usable|) }

  /** The place of a state among the entries of the ring. */
  function Ranked(s: Stripe, ring: seq<bool>): Stripe
    requires s.idx < |ring|
  {
    Stripe(Rank(ring, true, s.idx), s.sent)
  }

  /** Before the last entry of a full table the search does not come round to the first. */
  lemma {:induction false} SearchInRing(usable: seq<bool>, start: nat, at: nat, tries: nat)
    requires 1 <= |usable| <= SLOTS && start <= at < |usable| && at < SLOTS - 1
    ensures Search(usable, start, at, tries) == Search(Ring(usable), start, at, tries)
    decreases tries
  {
    if Ring(usable) != usable && tries > 0 && !usable[at + 1] {
      SearchInRing(usable, start, at + 1, tries - 1);
    }
  }

  lemma RankStep(m: seq<bool>, i: nat)
    requires i < |m|
    ensures Rank(m, true, 0) == 0 && Rank(m, true, i + 1) == Rank(m, true, i) + if m[i] then 1 else 0
  {
  }

  /** A search that has passed no entry of the mask ends on the next one in order, round the end if need be. */
  lemma {:induction false} SearchPasses(m: seq<bool>, start: nat, at: nat, tries: nat)
    requires start < |m| && at < |m|
    requires if at >= start then tries == |m| - 1 - (at - start) else tries == start - 1 - at
    requires if at >= start then Rank(m, true, at + 1) == Rank(m, true, start + 1)
             else Rank(m, true, |m|) == Rank(m, true, start + 1) && Rank(m, true, at + 1) == 0
    ensures var r := Search(m, start, at, tries);
            if r > start then Rank(m, true, r) == Rank(m, true, start + 1)
            else Rank(m, true, |m|) == Rank(m, true, start + 1) && Rank(m, true, r) == 0
    decreases tries
  {
    hide Rank;
    RankStep(m, 0);
    if tries > 0 {
      var next := if at == |m| - 1 then 0 else at + 1;
      RankStep(m, next);
      if !m[next] {
        SearchPasses(m, start, next, tries - 1);
      }
    }
  }

  lemma SearchRank(m: seq<bool>, start: nat)
    requires start < |m| && m[start]
    ensures var r := Search(m, start, start, |m| - 1);
            m[r] && Rank(m, true, r) == if Rank(m, true, start) + 1 == Rank(m, true, |m|) then 0 else Rank(m, true, start) + 1
  {
    hide Rank, Search;
    RankStep(m, start);
    SearchPasses(m, start, start, |m| - 1);
    var r := Search(m, start, start, |m| - 1);
    SearchEnds(m, start, start, |m| - 1);
    RankRises(m, true, r, |m|);
  }

  lemma SearchEnds(m: seq<bool>, start: nat, at: nat, tries: nat)
    requires start < |m| && at < |m|
    ensures var r := Search(m, start, at, tries); r == start || m[r]
  {
  }

  /** Striping over any table moves, among the entries of its ring, as over a table of usable entries only. */
  lemma NextInRing(s: Stripe, usable: seq<bool>, perLink: int)
    requires 1 <= |usable| <= SLOTS && s.idx < |usable| && Ring(usable)[s.idx]
    ensures var (t, ring, u) := (Next(s, usable, perLink), Ring(usable), RingSize(usable));
            && ring[t.idx] && Rank(ring, true, s.idx) < u
            && Ranked(t, ring) == Next(Ranked(s, ring), AllUsable(u), perLink)
  {
    hide Rank, Search, AllUsable;
    var (ring, u, n) := (Ring(usable), RingSize(usable), |usable|);
    RankRises(ring, true, s.idx, n);
    RankStep(ring, s.idx);
    assert |AllUsable(u)| == u;
    if s.sent >= perLink {
      var r := Rank(ring, true, s.idx);
      if 1 < u {
        SearchAllUsable(u, r);
      }
      if n == 1 || s.idx >= SLOTS - 1 {
        assert ring[0];
        assert s.idx + 1 == n;
      } else {
        SearchInRing(usable, s.idx, s.idx, n - 1);
        SearchRank(ring, s.idx);
      }
    }
  }

  /** Entries outside the ring get nothing, those in it what they get in a table of usable entries only. */
  lemma {:induction false} ServedInRing(s: Stripe, usable: seq<bool>, perLink: int, k: nat, i: nat)
    requires 1 <= |usable| <= SLOTS && s.idx < |usable| && Ring(usable)[s.idx] && i < |usable|
    ensures var (ring, u) := (Ring(usable), RingSize(usable));
            && Rank(ring, true, s.idx) < u
            && Served(s, usable, perLink, k, i) ==
                 if ring[i] then Served(Ranked(s, ring), AllUsable(u), perLink, k, Rank(ring, true, i)) else 0
    decreases k
  {
    hide Rank, Next, AllUsable, Ring;
    var ring := Ring(usable);
    NextInRing(s, usable, perLink);
    if k > 0 {
      var t := Next(s, usable, perLink);
      ServedInRing(t, usable, perLink, k - 1, i);
      if i < t.idx && ring[i] {
        RankRises(ring, true, i, t.idx);
      } else if t.idx < i {
        RankRises(ring, true, t.idx, i);
      }
    }
  }

  /** Fairness from one state: a full cycle gives each entry of the ring its turn, and no other entry any packet. */
  predicate FairFrom(s: Stripe, usable: seq<bool>, perLink: int)
    requires s.idx < |usable|
  {
    forall i: nat :: i < |usable| ==>
      Served(s, usable, perLink, RingSize(usable) * Turn(perLink), i) == if Ring(usable)[i] then Turn(perLink) else 0
  }

  /**
   Striping over a table with two or more entries in its ring is fair from every state it can
   be in there if and only if the share fits 16 bits, whichever entries are usable.
   */
  lemma FairIff(usable: seq<bool>, perLink: int)
    requires |usable| <= SLOTS && 2 <= RingSize(usable)
    ensures (forall s: Stripe :: Reached(s, |usable|, perLink) && Ring(usable)[s.idx] ==> FairFrom(s, usable, perLink))
            <==> perLink < WORD16
  {
    hide Served, Next, Ring, RingSize;
    if perLink < WORD16 {
      forall s: Stripe | Reached(s, |usable|, perLink) && Ring(usable)[s.idx]
        ensures FairFrom(s, usable, perLink)
      {
        FairHere(s, usable, perLink);
      }
    } else {
      var i := SomeInRing(usable);
      var s := Stripe(i, 0);
      var k := RingSize(usable) * Turn(perLink);
      NeverSwitches(s, usable, perLink, k);
      TwoTurns(RingSize(usable), Turn(perLink));
      assert Reached(s, |usable|, perLink) && Served(s, usable, perLink, k, i) != Turn(perLink);
    }
  }

  lemma SomeInRing(usable: seq<bool>) returns (i: nat)
    requires RingSize(usable) > 0
    ensures i < |usable| && Ring(usable)[i]
  {
    hide Ring;
    i := |usable|;
    while i > 0 && !Ring(usable)[i - 1]
      invariant i <= |usable| && Rank(Ring(usable), true, i) == RingSize(usable)
    {
      i := i - 1;
    }
    i := i - 1;
  }

  lemma TwoTurns(n: nat, m: nat)
    requires n >= 2 && m > 0
    ensures n * m > m
  {
    assert n * m == m + (n - 1) * m;
  }

  lemma FairHere(s: Stripe, usable: seq<bool>, perLink: int)
    requires 1 <= |usable| <= SLOTS && perLink < WORD16 && Reached(s, |usable|, perLink) && Ring(usable)[s.idx]
    ensures FairFrom(s, usable, perLink)
  {
    hide Served, Ring, Rank, AllUsable;
    var (ring, u) := (Ring(usable), RingSize(usable));
    forall i: nat | i < |usable|
      ensures Served(s, usable, perLink, u * Turn(perLink), i) == if ring[i] then Turn(perLink) else 0
    {
      ServedInRing(s, usable, perLink, u * Turn(perLink), i);
      if ring[i] {
        RankRises(ring, true, i, |usable|);
        FairAll(Ranked(s, ring), u, perLink, Rank(ring, true, i));
      }
    }
  }

  lemma FairAll(s: Stripe, n: nat, perLink: int, i: nat)
    requires 1 <= n <= SLOTS && perLink < WORD16 && Reached(s, n, perLink) && i < n
    ensures Served(s, AllUsable(n), perLink, n * Turn(perLink), i) == Turn(perLink)
  {
    hide Served;
    if perLink < 0 {
      NegativeShare(s, AllUsable(n), perLink, n * Turn(perLink), i);
      Fair(s.(sent := 0), n, 0, i);
    } else {
      Fair(s, n, perLink, i);
    }
  }

  /** With all entries usable the ring is the whole table. */
  lemma RingOfAll(n: nat)
    ensures Ring(AllUsable(n)) == AllUsable(n) && RingSize(AllUsable(n)) == n
  {
    assert Ring(AllUsable(n)) == AllUsable(n);
    RankOfAll(n, n);
  }

  lemma {:induction false} RankOfAll(n: nat, m: nat)
    requires m <= n
    ensures Rank(AllUsable(n), true, m) == m
  {
    if m > 0 {
      RankOfAll(n, m - 1);
    }
  }

  // ---- a window of packets ----

  /** The state after k packets. */
  function After(s: Stripe, usable: seq<bool>, perLink: int, k: nat): (t: Stripe)
    requires s.idx < |usable|
    ensures t.idx < |usable|
    decreases k
  {
    if k == 0 then s else Next(After(s, usable, perLink, k - 1), usable, perLink)
  }

  lemma {:induction false} AfterNext(s: Stripe, usable: seq<bool>, perLink: int, k: nat)
    requires s.idx < |usable| && k > 0
    ensures After(s, usable, perLink, k) == After(Next(s, usable, perLink), usable, perLink, k - 1)
  {
    hide Next;
    if k > 1 {
      AfterNext(s, usable, perLink, k - 1);
    } else {
      assert After(s, usable, perLink, 0) == s;
    }
  }

  /** One more packet counts for the entry it goes to. */
  lemma {:induction false} ServedPush(s: Stripe, usable: seq<bool>, perLink: int, k: nat, i: nat)
    requires s.idx < |usable|
    ensures Served(s, usable, perLink, k + 1, i) ==
            Served(s, usable, perLink, k, i) + if After(s, usable, perLink, k + 1).idx == i then 1 else 0
    decreases k
  {
    hide Next;
    if k > 0 {
      ServedPush(Next(s, usable, perLink), usable, perLink, k - 1, i);
    } else {
      assert Served(Next(s, usable, perLink), usable, perLink, 0, i) == 0;
      assert After(Next(s, usable, perLink), usable, perLink, 0) == Next(s, usable, perLink);
    }
    AfterNext(s, usable, perLink, k + 1);
  }

  /** Entries listed in the order of the packets occur as often as they are served. */
  lemma {:induction false} CountsServed(s: Stripe, usable: seq<bool>, perLink: int, entries: seq<nat>)
    requires s.idx < |usable|
    requires forall k: nat :: k < |entries| ==> entries[k] == After(s, usable, perLink, k + 1).idx
    ensures forall i: nat :: multiset(entries)[i] == Served(s, usable, perLink, |entries|, i)
  {
    hide Next;
    if entries != [] {
      var k := |entries| - 1;
      CountsServed(s, usable, perLink, entries[..k]);
      assert entries == entries[..k] + [entries[k]];
      forall i: nat
        ensures multiset(entries)[i] == Served(s, usable, perLink, |entries|, i)
      {
        ServedPush(s, usable, perLink, k, i);
      }
    }
  }

  /** An entry's slot, if no other entry has it, occurs as often as the entry. */
  lemma {:induction false} CountsMapped(entries: seq<nat>, slots: seq<nat>, sent: seq<nat>, i: nat)
    requires |sent| == |entries| && forall k: nat :: k < |entries| ==> entries[k] < |slots| && sent[k] == slots[entries[k]]
    requires i < |slots| && forall j: nat :: j < |slots| && j != i ==> slots[j] != slots[i]
    ensures multiset(sent)[slots[i]] == multiset(entries)[i]
  {
    if entries != [] {
      var k := |entries| - 1;
      CountsMapped(entries[..k], slots, sent[..k], i);
      assert entries == entries[..k] + [entries[k]] && sent == sent[..k] + [sent[k]];
    }
  }

  /**
   Over a full cycle a slot that only the i-th entry stands for gets its turn if the entry is in
   the ring, and nothing if it is not.
   */
  lemma CycleShares(s: Stripe, usable: seq<bool>, perLink: int, slots: seq<nat>, sent: seq<nat>, i: nat)
    requires 1 <= |usable| <= SLOTS && perLink < WORD16 && Reached(s, |usable|, perLink) && Ring(usable)[s.idx]
    requires |slots| == |usable| && i < |slots| && forall j: nat :: j < |slots| && j != i ==> slots[j] != slots[i]
    requires |sent| == RingSize(usable) * Turn(perLink)
    requires forall k: nat :: k < |sent| ==> sent[k] == slots[After(s, usable, perLink, k + 1).idx]
    ensures multiset(sent)[slots[i]] == if Ring(usable)[i] then Turn(perLink) else 0
  {
    hide Served, After, Turn, Ring, RingSize;
    var entries := seq(|sent|, k requires 0 <= k < |sent| => After(s, usable, perLink, k + 1).idx);
    FairHere(s, usable, perLink);
    CountsServed(s, usable, perLink, entries);
    CountsMapped(entries, slots, sent, i);
  }

  /** The entry switched to is usable, unless it is the first after the last of a full table or nothing else is. */
  lemma SwitchIsUsable(s: Stripe, usable: seq<bool>, perLink: int)
    requires s.idx < |usable| && s.sent >= perLink && 1 < |usable| && s.idx < SLOTS - 1
    ensures var t := Next(s, usable, perLink);
            (exists j :: 0 <= j < |usable| && j != s.idx && usable[j]) ==> t.idx != s.idx && usable[t.idx]
  {
    if j :| 0 <= j < |usable| && j != s.idx && usable[j] {
      SearchFinds(usable, s.idx, s.idx, |usable| - 1, j, if j > s.idx then j - s.idx else |usable| + j - s.idx);
    }
  }

  /** From an entry outside the ring a switch leads into it, except from the last entry of a full table to the first. */
  lemma EntersRing(s: Stripe, usable: seq<bool>, perLink: int)
    requires |usable| <= SLOTS && s.idx < |usable| && s.sent >= perLink && RingSize(usable) > 0
    ensures var t := Next(s, usable, perLink); Ring(usable)[t.idx] || (s.idx == SLOTS - 1 && t.idx == 0)
  {
    var i := SomeInRing(usable);
    if s.idx < SLOTS - 1 && 1 < |usable| {
      var j := if usable[i] then i else SLOTS - 1;
      if j != s.idx {
        SwitchIsUsable(s, usable, perLink);
      } else {
        SearchEnds(usable, s.idx, s.idx, |usable| - 1);
      }
    }
  }

  /** A search that passes a usable entry d steps ahead, other than start, ends at a usable entry other than start. */
  lemma {:induction false} SearchFinds(usable: seq<bool>, start: nat, at: nat, tries: nat, j: nat, d: nat)
    requires start < |usable| && at < |usable| && j < |usable| && usable[j] && j != start
    requires 1 <= d <= tries && (j == at + d || j + |usable| == at + d)
    requires if at >= start then tries == |usable| - 1 - (at - start) else tries == start - 1 - at
    ensures var r := Search(usable, start, at, tries); r != start && usable[r]
    decreases tries
  {
    var next := if at == |usable| - 1 then 0 else at + 1;
    if !usable[next] {
      SearchFinds(usable, start, next, tries - 1, j, d - 1);
    }
  }
}
