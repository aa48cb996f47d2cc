/**
 Re-forming a bond: choosing, link by link, the paths that traffic is spread over, and
 writing them into the fixed table the packet path reads.
 */
module Bond {
  import opened Common
  import RoundRobin
  import opened PathTable

  /** The table entry that stands for no path. */
  const NO_SLOT := 64

  type Link = nat

  /** What re-formation sees of a path slot; link is absent for paths on no known link. */
  datatype Slot = Slot(present: bool, eligible: bool, alive: bool, allowed: bool, spare: bool, preferred: bool,
                       link: Option<Link>)

  /** The tests under which a path of a link may be added. */
  datatype Kind = SpareOnly | Primary | PreferredOnly | AnyPrimary

  predicate Admits(kind: Kind, s: Slot) {
    && s.present && s.eligible
    && match kind
       case SpareOnly => s.allowed && s.spare
       case Primary => s.allowed && !s.spare
       case PreferredOnly => s.allowed && !s.spare && s.preferred
       case AnyPrimary => !s.spare
  }

  type Table = s: seq<Slot> | |s| == SLOTS witness seq(SLOTS, _ => Slot(false, false, false, false, false, false, None))

  // ---- which paths are chosen ----

  predicate OnLink(t: Table, i: nat, l: Link) {
    i < SLOTS && t[i].present && t[i].link == Some(l)
  }

  /** The admitted slots of a link below bound, in order. */
  function Picked(t: Table, l: Link, kind: Kind, bound: nat): seq<nat>
    requires bound <= SLOTS
  {
    if bound == 0 then []
    else
      Picked(t, l, kind, bound - 1) +
      if OnLink(t, bound - 1, l) && Admits(kind, t[bound - 1]) then [bound - 1] else []
  }

  function OfKind(t: Table, l: Link, kind: Kind): seq<nat> { Picked(t, l, kind, SLOTS) }

  /** The primary paths of a link under its address preference. */
  function Primaries(t: Table, l: Link, pref: nat): seq<nat> {
    if pref == 0 || pref == 4 || pref == 6 then OfKind(t, l, Primary)
    else if pref == 46 || pref == 64 then
      if OfKind(t, l, PreferredOnly) != [] then OfKind(t, l, PreferredOnly) else OfKind(t, l, AnyPrimary)
    else []
  }

  function OnOneLink(t: Table, l: Link, pref: nat, usable: bool): seq<nat> {
    (if usable then [] else OfKind(t, l, SpareOnly)) + Primaries(t, l, pref)
  }

  /** The chosen slots of all links, in the order in which the links are visited. */
  function Chosen(t: Table, links: seq<Link>, pref: Link -> nat, usable: bool): seq<nat> {
    if links == [] then []
    else
      Chosen(t, links[..|links| - 1], pref, usable) +
      OnOneLink(t, links[|links| - 1], pref(links[|links| - 1]), usable)
  }

  /** What a slot must be like to be in the bond; usable says whether a primary path still works. */
  ghost predicate Wanted(t: Table, i: nat, pref: Link -> nat, usable: bool) {
    && i < SLOTS && t[i].present && t[i].eligible && t[i].link.Some?
    && var p := pref(t[i].link.value);
       if t[i].spare then t[i].allowed && !usable
       else
         || (p in {0, 4, 6} && t[i].allowed)
         || (p in {46, 64} && t[i].allowed && t[i].preferred)
         || (p in {46, 64} && forall j :: 0 <= j < SLOTS && t[j].link == t[i].link ==> !Admits(PreferredOnly, t[j]))
  }

  lemma {:induction false} PickedExactly(t: Table, l: Link, kind: Kind, bound: nat)
    requires bound <= SLOTS
    ensures forall i :: i in Picked(t, l, kind, bound) <==> 0 <= i < bound && OnLink(t, i, l) && Admits(kind, t[i])
    ensures Distinct(Picked(t, l, kind, bound))
  {
    hide Admits, OnLink;
    if bound > 0 {
      PickedExactly(t, l, kind, bound - 1);
    }
  }

  predicate Distinct(s: seq<nat>) {
    forall i, j :: 0 <= i < j < |s| ==> s[i] != s[j]
  }

  predicate Apart(a: seq<nat>, b: seq<nat>) {
    forall x :: x in a ==> x !in b
  }

  lemma DistinctAppend(a: seq<nat>, b: seq<nat>)
    requires Distinct(a) && Distinct(b) && Apart(a, b)
    ensures Distinct(a + b)
  {
    forall i, j | 0 <= i < j < |a + b|
      ensures (a + b)[i] != (a + b)[j]
    {
      if i < |a| <= j {
        assert a[i] in a && b[j - |a|] in b;
      }
    }
  }

  /** On one link the chosen slots are distinct, and they are the wanted slots of that link. */
  lemma OneLinkExactly(t: Table, l: Link, pref: Link -> nat, usable: bool)
    ensures var c := OnOneLink(t, l, pref(l), usable);
            Distinct(c) && forall i: nat :: i in c <==> OnLink(t, i, l) && Wanted(t, i, pref, usable)
  {
    hide Picked;
    PickedExactly(t, l, SpareOnly, SLOTS);
    PickedExactly(t, l, Primary, SLOTS);
    PickedExactly(t, l, PreferredOnly, SLOTS);
    PickedExactly(t, l, AnyPrimary, SLOTS);
    var spares := if usable then [] else OfKind(t, l, SpareOnly);
    DistinctAppend(spares, Primaries(t, l, pref(l)));
    var preferred := OfKind(t, l, PreferredOnly);
    if preferred != [] {
      assert preferred[0] in preferred;
    }
  }

  /** All links are visited, each once. */
  predicate Visits(t: Table, links: seq<Link>) {
    && Distinct(links)
    && forall i :: 0 <= i < SLOTS && t[i].present && t[i].link.Some? ==> t[i].link.value in links
  }

  lemma {:induction false} ChosenUpTo(t: Table, links: seq<Link>, pref: Link -> nat, usable: bool)
    requires Distinct(links)
    ensures var c := Chosen(t, links, pref, usable);
            Distinct(c) &&
            forall i: nat :: i in c <==> Wanted(t, i, pref, usable) && t[i].link.value in links
  {
    hide Wanted, OnOneLink;
    WantedHasLink(t, pref, usable);
    if links != [] {
      var (init, l) := (links[..|links| - 1], links[|links| - 1]);
      ChosenUpTo(t, init, pref, usable);
      OneLinkExactly(t, l, pref, usable);
      assert links == init + [l];
      assert l !in init;
      DistinctAppend(Chosen(t, init, pref, usable), OnOneLink(t, l, pref(l), usable));
    }
  }

  lemma WantedHasLink(t: Table, pref: Link -> nat, usable: bool)
    ensures forall i: nat :: Wanted(t, i, pref, usable) ==> i < SLOTS && t[i].present && t[i].link.Some?
  {
  }

  /**
   The chosen slots are pairwise different and are exactly the wanted ones, for every
   partition into links, every preference and every order of visiting the links.
   */
  lemma ChosenExactly(t: Table, links: seq<Link>, pref: Link -> nat, usable: bool)
    requires Visits(t, links)
    ensures var c := Chosen(t, links, pref, usable);
            Distinct(c) && |c| <= SLOTS && forall i: nat :: i in c <==> Wanted(t, i, pref, usable)
  {
    hide Wanted, Chosen;
    WantedHasLink(t, pref, usable);
    ChosenUpTo(t, links, pref, usable);
    var c := Chosen(t, links, pref, usable);
    assert forall k :: 0 <= k < |c| ==> c[k] in c;
    FewDistinct(Chosen(t, links, pref, usable), SLOTS);
  }

  /** Distinct numbers below n are at most n. */
  lemma {:induction false} FewDistinct(s: seq<nat>, n: nat)
    requires Distinct(s) && forall k :: 0 <= k < |s| ==> s[k] < n
    ensures |s| <= n
  {
    if n == 0 {
    } else if n - 1 in s {
      var k :| 0 <= k < |s| && s[k] == n - 1;
      var rest := s[..k] + s[k + 1..];
      assert |rest| == |s| - 1;
      assert forall j :: 0 <= j < |rest| ==> rest[j] == s[if j < k then j else j + 1];
      assert Distinct(rest);
      FewDistinct(rest, n - 1);
    } else {
      FewDistinct(s, n - 1);
    }
  }

  // ---- what the periodic check makes of a slot ----

  /** What is observed of a path: its link if known, its times compared with the limits in force. */
  datatype Seen = Seen(link: Option<Link>, expired: bool, inTrial: bool, alive: bool, healthy: bool)

  const EMPTIED := Slot(false, true, false, true, false, false, None)

  predicate Dropped(o: Seen) { o.link.None? || (o.expired && !o.inTrial) }

  predicate Eligible(s: Slot, o: Seen) { s.allowed && (o.healthy || o.inTrial) }

  function Checked(s: Slot, o: Seen): Slot {
    if !s.present then s
    else if Dropped(o) then EMPTIED
    else s.(link := o.link, alive := o.alive, eligible := Eligible(s, o))
  }

  /** A slot flagged as bonded keeps the flag unless its path is dropped or just lost eligibility. */
  predicate KeepsFlag(s: Slot, o: Seen) {
    s.present ==> !Dropped(o) && (Eligible(s, o) || !s.eligible)
  }

  /** A path that became eligible, or a bonded one that ceased to be, calls for a new bond. */
  predicate CallsRebuild(s: Slot, o: Seen, flagged: bool) {
    s.present && !Dropped(o) && Eligible(s, o) != s.eligible && (Eligible(s, o) || flagged)
  }

  function CheckedAll(t: Table, seen: seq<Seen>): (u: Table)
    requires |seen| == SLOTS
  {
    seq(SLOTS, i requires 0 <= i < SLOTS => Checked(t[i], seen[i]))
  }

  /** Every slot that is wanted after a check is allowed by its preference, also as the fallback of a soft one. */
  lemma WantedIsAllowed(t: Table, seen: seq<Seen>, i: nat, pref: Link -> nat, usable: bool)
    requires |seen| == SLOTS && Wanted(CheckedAll(t, seen), i, pref, usable)
    ensures CheckedAll(t, seen)[i].allowed
  {
  }

  /** Whether the check found a reason to form the bond anew. */
  predicate Reformed(was: Table, flags: seq<bool>, count: nat, seen: seq<Seen>, rebuild: bool, usable: bool)
    requires |seen| == |flags| == SLOTS
  {
    rebuild || !usable || count == 0 || exists i :: 0 <= i < SLOTS && CallsRebuild(was[i], seen[i], flags[i])
  }

  /** A path that can carry traffic: there, allowed, on a known link, and in its trial or both healthy and not expired. */
  predicate Fit(s: Slot, o: Seen) {
    s.present && s.allowed && o.link.Some? && (o.inTrial || (o.healthy && !o.expired))
  }

  /**
   What is bonded, seen from the slots before the check: as spares, fit spare paths while no
   primary is alive; of the others, all fit ones of a link without a soft preference, and on a
   link with one those of the preferred family, or all if there is none.
   */
  predicate Bondable(t: Table, seen: seq<Seen>, i: nat, pref: Link -> nat, usable: bool)
    requires |seen| == SLOTS && i < SLOTS
  {
    && Fit(t[i], seen[i])
    && if t[i].spare then !usable
       else
         var p := pref(seen[i].link.value);
         || p in {0, 4, 6}
         || (p in {46, 64} &&
             (t[i].preferred ||
              forall j :: 0 <= j < SLOTS && Fit(t[j], seen[j]) && seen[j].link == seen[i].link ==> t[j].spare || !t[j].preferred))
  }

  /** After a check exactly the bondable slots are wanted. */
  lemma WantedIff(t: Table, seen: seq<Seen>, i: nat, pref: Link -> nat, usable: bool)
    requires |seen| == SLOTS && i < SLOTS
    ensures Wanted(CheckedAll(t, seen), i, pref, usable) <==> Bondable(t, seen, i, pref, usable)
  {
    var c := CheckedAll(t, seen);
    forall j | 0 <= j < SLOTS
      ensures c[j].present && c[j].eligible <==> Fit(t[j], seen[j])
      ensures Fit(t[j], seen[j]) ==> c[j].link == seen[j].link && c[j].allowed && c[j].spare == t[j].spare && c[j].preferred == t[j].preferred
    {
      CheckedIs(t[j], seen[j]);
    }
  }

  lemma CheckedIs(s: Slot, o: Seen)
    ensures var c := Checked(s, o);
            && (c.present && c.eligible <==> Fit(s, o))
            && (Fit(s, o) ==> c.link == o.link && c.allowed && c.alive == o.alive && c.spare == s.spare && c.preferred == s.preferred)
  {
  }

  /** When a check finds no reason to form the bond anew, exactly the bonded paths that were dropped lose their flags. */
  lemma UnflaggedIff(t: Table, flags: seq<bool>, count: nat, seen: seq<Seen>, rebuild: bool, usable: bool)
    requires |seen| == |flags| == SLOTS && !Reformed(t, flags, count, seen, rebuild, usable)
    requires forall i :: 0 <= i < SLOTS && flags[i] ==> t[i].present && t[i].eligible
    ensures forall i :: 0 <= i < SLOTS && flags[i] ==> (KeepsFlag(t[i], seen[i]) <==> !Dropped(seen[i]))
  {
    forall i | 0 <= i < SLOTS && flags[i]
      ensures KeepsFlag(t[i], seen[i]) <==> !Dropped(seen[i])
    {
      assert !CallsRebuild(t[i], seen[i], flags[i]);
    }
  }

  /** Which entries stand for a path that is present and eligible. */
  function UsableOf(t: Table, entries: seq<nat>): (u: seq<bool>)
    ensures |u| == |entries|
  {
    seq(|entries|, k requires 0 <= k < |entries| =>
      entries[k] < SLOTS && t[entries[k]].present && t[entries[k]].eligible)
  }

  // ---- the table in memory ----

  class Bond {
    var slots: Table
    const bonded: array<bool>
    const realIdxMap: array<nat>
    var numBonded: nat
    const striped: bool
    const packetsPerLink: int
    var rrIdx: nat
    var rrSent: nat

    /** A new bond; the initializer of the table sets its first entry to the marker and the rest to zero. */
    constructor (t: Table, roundRobin: bool, perLink: int)
      ensures striped == roundRobin && packetsPerLink == perLink && rrIdx == 0 && rrSent == 0
      ensures Shaped() && fresh(bonded) && fresh(realIdxMap) && slots == t && numBonded == 0
      ensures realIdxMap[..] == [NO_SLOT] + seq(SLOTS - 1, _ => 0)
      ensures forall i :: 0 <= i < SLOTS ==> !bonded[i]
    {
      slots, numBonded, striped, packetsPerLink, rrIdx, rrSent := t, 0, roundRobin, perLink, 0, 0;
      bonded := new bool[SLOTS](_ => false);
      realIdxMap := new nat[SLOTS](i => if i == 0 then NO_SLOT else 0);
    }

    ghost predicate Shaped() {
      bonded.Length == SLOTS && realIdxMap.Length == SLOTS
    }

    /** The table begins with the slots c. */
    ghost predicate Lists(c: seq<nat>)
      reads `numBonded, realIdxMap
    {
      && Shaped()
      && numBonded == |c| <= SLOTS
      && (forall x :: x in c ==> x < SLOTS)
      && realIdxMap[..|c|] == c
    }

    /** The table holds the slots c and then markers, and exactly these slots are flagged. */
    ghost predicate Holds(c: seq<nat>)
      reads `numBonded, bonded, realIdxMap
    {
      && Lists(c)
      && (forall k :: |c| <= k < SLOTS ==> realIdxMap[k] == NO_SLOT)
      && (forall i :: 0 <= i < SLOTS ==> (bonded[i] <==> i in c))
    }

    method AddPath(nominatedIdx: nat, bondedIdx: nat, ghost c: seq<nat>)
      requires Holds(c) && bondedIdx == |c| < SLOTS && nominatedIdx < SLOTS
      modifies `numBonded, bonded, realIdxMap
      ensures Holds(c + [nominatedIdx])
    {
      realIdxMap[bondedIdx] := nominatedIdx;
      bonded[nominatedIdx] := true;
      numBonded := bondedIdx + 1;
    }

    /** One pass over the slots of a link; found tells whether any was added. */
    method AddMatching(l: Link, kind: Kind, ghost c: seq<nat>) returns (found: bool)
      requires Holds(c) && |c| + |OfKind(slots, l, kind)| <= SLOTS
      modifies `numBonded, bonded, realIdxMap
      ensures Holds(c + OfKind(slots, l, kind))
      ensures found <==> OfKind(slots, l, kind) != []
    {
      hide Admits, OnLink, Picked;
      PickedStep(slots, l, kind, 0);
      found := false;
      ghost var sofar: seq<nat> := c;
      for i: nat := 0 to SLOTS
        invariant Holds(sofar) && sofar == c + Picked(slots, l, kind, i)
        invariant found <==> Picked(slots, l, kind, i) != []
      {
        PickedStep(slots, l, kind, i);
        PickedGrows(slots, l, kind, i + 1, SLOTS);
        if OnLink(slots, i, l) && Admits(kind, slots[i]) {
          AddPath(i, numBonded, sofar);
          sofar := sofar + [i];
          found := true;
        }
      }
    }

    method AddLink(l: Link, pref: nat, usable: bool, ghost c: seq<nat>)
      requires Holds(c) && |c| + |OnOneLink(slots, l, pref, usable)| <= SLOTS
      modifies `numBonded, bonded, realIdxMap
      ensures Holds(c + OnOneLink(slots, l, pref, usable))
    {
      hide OfKind, Holds;
      ghost var sofar := c;
      assert c + [] == c;
      if !usable {
        var _ := AddMatching(l, SpareOnly, sofar);
        sofar := sofar + OfKind(slots, l, SpareOnly);
      }
      if pref == 0 || pref == 4 || pref == 6 {
        var _ := AddMatching(l, Primary, sofar);
        assert sofar + OfKind(slots, l, Primary) == c + OnOneLink(slots, l, pref, usable);
      } else if pref == 46 || pref == 64 {
        var found := AddMatching(l, PreferredOnly, sofar);
        if !found {
          assert sofar + OfKind(slots, l, PreferredOnly) == sofar;
          var _ := AddMatching(l, AnyPrimary, sofar);
          assert sofar + OfKind(slots, l, AnyPrimary) == c + OnOneLink(slots, l, pref, usable);
        } else {
          assert sofar + OfKind(slots, l, PreferredOnly) == c + OnOneLink(slots, l, pref, usable);
        }
      } else {
        assert sofar == c + OnOneLink(slots, l, pref, usable);
      }
    }

    method Clear()
      requires Shaped()
      modifies `numBonded, bonded, realIdxMap
      ensures Holds([])
    {
      for i := 0 to SLOTS
        modifies bonded, realIdxMap
        invariant forall k :: 0 <= k < i ==> realIdxMap[k] == NO_SLOT && !bonded[k]
      {
        realIdxMap[i] := NO_SLOT;
        bonded[i] := false;
      }
      numBonded := 0;
      assert realIdxMap[..0] == [];
    }

    /** Whether some bonded path is still alive. */
    method UsablePrimary() returns (usable: bool)
      requires Shaped()
      ensures usable <==> exists i :: 0 <= i < SLOTS && slots[i].present && bonded[i] && slots[i].alive
    {
      usable := false;
      for i := 0 to SLOTS
        invariant usable <==> exists k :: 0 <= k < i && slots[k].present && bonded[k] && slots[k].alive
      {
        if slots[i].present && bonded[i] && slots[i].alive {
          usable := true;
        }
      }
    }

    /** The update of every slot; again tells whether a new bond was or is now called for. */
    method Check(seen: seq<Seen>, rebuild: bool) returns (again: bool)
      requires Shaped() && |seen| == SLOTS
      modifies `slots, bonded
      ensures slots == CheckedAll(old(slots), seen)
      ensures forall i :: 0 <= i < SLOTS ==> (bonded[i] <==> old(bonded[i]) && KeepsFlag(old(slots)[i], seen[i]))
      ensures again <==> rebuild || exists i :: 0 <= i < SLOTS && CallsRebuild(old(slots)[i], seen[i], old(bonded[i]))
    {
      again := rebuild;
      for i := 0 to SLOTS
        invariant forall k :: 0 <= k < SLOTS ==> slots[k] == if k < i then Checked(old(slots)[k], seen[k]) else old(slots)[k]
        invariant forall k :: 0 <= k < SLOTS ==>
                    (bonded[k] <==> old(bonded[k]) && (k < i ==> KeepsFlag(old(slots)[k], seen[k])))
        invariant again <==> rebuild || exists k :: 0 <= k < i && CallsRebuild(old(slots)[k], seen[k], old(bonded[k]))
      {
        var (path, o) := (slots[i], seen[i]);
        if !path.present {
          continue;
        }
        if o.link.None? || (o.expired && !o.inTrial) {
          slots := slots[i := EMPTIED];
          bonded[i] := false;
          continue;
        }
        var eligibility := path.allowed && (o.healthy || o.inTrial);
        if eligibility != path.eligible {
          if eligibility {
            again := true;
          } else if bonded[i] {
            again := true;
            bonded[i] := false;
          }
        }
        slots := slots[i := path.(link := o.link, alive := o.alive, eligible := eligibility)];
      }
    }

    /** Only paths that are there, eligible and allowed are flagged as bonded. */
    ghost predicate BondedFit()
      reads `slots, bonded
    {
      Shaped() && forall i :: 0 <= i < SLOTS && bonded[i] ==> slots[i].present && slots[i].eligible && slots[i].allowed
    }

    /**
     Re-formation. Afterwards the table lists, without repetition, exactly the wanted slots;
     the rest of it is marked empty, and a slot is flagged as bonded exactly if it is listed.
     */
    method Rebuild(links: seq<Link>, pref: Link -> nat, usable: bool)
      requires Shaped() && Visits(slots, links)
      modifies `numBonded, bonded, realIdxMap
      ensures Holds(Chosen(slots, links, pref, usable))
      ensures numBonded <= SLOTS && Distinct(realIdxMap[..numBonded])
      ensures forall i :: 0 <= i < SLOTS ==> (bonded[i] <==> Wanted(slots, i, pref, usable))
    {
      hide Wanted, OnOneLink, Visits;
      ChosenExactly(slots, links, pref, usable);
      Clear();
      for k := 0 to |links|
        invariant Holds(Chosen(slots, links[..k], pref, usable))
      {
        ChosenStep(slots, links, pref, usable, k);
        AddLink(links[k], pref(links[k]), usable, Chosen(slots, links[..k], pref, usable));
      }
      assert links[..|links|] == links;
    }

    ghost function UsableEntries(): (u: seq<bool>)
      requires Shaped() && numBonded <= SLOTS
      reads `numBonded, `slots, realIdxMap
      ensures |u| == numBonded
    {
      UsableOf(slots, realIdxMap[..numBonded])
    }

    predicate Usable(k: nat)
      requires k < realIdxMap.Length
      reads `slots, realIdxMap
    {
      realIdxMap[k] < SLOTS && slots[realIdxMap[k]].present && slots[realIdxMap[k]].eligible
    }

    /** Every entry of the table in use stands for a slot with a path. */
    ghost predicate ListedPresent()
      reads this, realIdxMap
    {
      && Shaped() && numBonded <= SLOTS
      && forall k :: 0 <= k < numBonded ==> realIdxMap[k] < SLOTS && slots[realIdxMap[k]].present
    }

    /** The striping state is one that packets can reach. */
    ghost predicate Striping()
      reads this
    {
      striped && numBonded > 0 ==> RoundRobin.Reached(RoundRobin.Stripe(rrIdx, rrSent), numBonded, packetsPerLink)
    }

    /**
     The periodic check updates all slots and forms the bond anew when asked to, when it is
     empty, when eligibility calls for it or when no bonded path is alive; it then restarts the
     striping on a table all of whose entries are usable. Bonded paths are allowed ones throughout.
     */
    method Curate(seen: seq<Seen>, links: seq<Link>, pref: Link -> nat, rebuild: bool) returns (usable: bool)
      requires Shaped() && |seen| == SLOTS && Visits(CheckedAll(slots, seen), links)
      modifies this, bonded, realIdxMap
      ensures Shaped() && slots == CheckedAll(old(slots), seen)
      ensures usable <==> exists i :: 0 <= i < SLOTS && slots[i].present && slots[i].alive
                                      && old(bonded[i]) && KeepsFlag(old(slots)[i], seen[i])
      ensures if Reformed(old(slots), old(bonded[..]), old(numBonded), seen, rebuild, usable)
              then Holds(Chosen(slots, links, pref, usable)) && Distinct(Chosen(slots, links, pref, usable))
                   && UsableEntries() == RoundRobin.AllUsable(numBonded)
                   && BondedFit() && (forall i: nat :: i < SLOTS ==> (bonded[i] <==> Bondable(old(slots), seen, i, pref, usable)))
                   && (striped ==> rrIdx == 0 && rrSent == packetsPerLink % WORD16)
              else numBonded == old(numBonded) && realIdxMap[..] == old(realIdxMap[..])
                   && rrIdx == old(rrIdx) && rrSent == old(rrSent)
                   && forall i :: 0 <= i < SLOTS ==> (bonded[i] <==> old(bonded[i]) && KeepsFlag(old(slots)[i], seen[i]))
      ensures old(BondedFit()) ==> BondedFit()
      ensures old(Striping()) ==> Striping()
      ensures old(BondedFit()) && !Reformed(old(slots), old(bonded[..]), old(numBonded), seen, rebuild, usable) ==>
                forall i :: 0 <= i < SLOTS ==> (bonded[i] <==> old(bonded[i]) && !Dropped(seen[i]))
      ensures old(ListedPresent()) ==>
                (ListedPresent() <==>
                  || Reformed(old(slots), old(bonded[..]), old(numBonded), seen, rebuild, usable)
                  || forall k :: 0 <= k < old(numBonded) ==> !Dropped(seen[old(realIdxMap[k])]))
    {
      hide Chosen, Visits, Wanted, CheckedAll, Holds, Dropped, Bondable;
      ghost var (was, flags) := (slots, bonded[..]);
      var again := Check(seen, rebuild);
      StillFit(was, seen);
      usable := UsablePrimary();
      if again || !usable || numBonded == 0 {
        Rebuild(links, pref, usable);
        ChosenExactly(slots, links, pref, usable);
        WantedIsUsable(slots, pref, usable);
        AllEntriesUsable(Chosen(slots, links, pref, usable));
        RebuiltFits(was, seen, pref, usable);
        forall i: nat | i < SLOTS
          ensures bonded[i] <==> Bondable(was, seen, i, pref, usable)
        {
          WantedIff(was, seen, i, pref, usable);
        }
        if striped {
          rrSent := packetsPerLink % WORD16;
          rrIdx := 0;
          if numBonded > 0 {
            RoundRobin.RestartIsReached(numBonded, packetsPerLink);
          }
        }
      } else {
        PresentUnlessDropped(was, seen);
        if forall i :: 0 <= i < SLOTS && flags[i] ==> was[i].present && was[i].eligible {
          UnflaggedIff(was, flags, numBonded, seen, rebuild, usable);
        }
      }
    }

    /** A table is left with entries for emptied slots exactly if a listed path was dropped. */
    lemma PresentUnlessDropped(was: Table, seen: seq<Seen>)
      requires Shaped() && |seen| == SLOTS && slots == CheckedAll(was, seen)
      ensures numBonded <= SLOTS && (forall k :: 0 <= k < numBonded ==> realIdxMap[k] < SLOTS && was[realIdxMap[k]].present) ==>
                (ListedPresent() <==> forall k :: 0 <= k < numBonded ==> !Dropped(seen[realIdxMap[k]]))
    {
    }

    /** Slots that were fit and kept their flags are fit. */
    lemma StillFit(was: Table, seen: seq<Seen>)
      requires Shaped() && |seen| == SLOTS && slots == CheckedAll(was, seen)
      ensures forall i :: 0 <= i < SLOTS && was[i].present && was[i].eligible && was[i].allowed && KeepsFlag(was[i], seen[i]) ==>
                slots[i].present && slots[i].eligible && slots[i].allowed
    {
    }

    lemma RebuiltFits(was: Table, seen: seq<Seen>, pref: Link -> nat, usable: bool)
      requires Shaped() && |seen| == SLOTS && slots == CheckedAll(was, seen)
      requires forall i :: 0 <= i < SLOTS ==> (bonded[i] <==> Wanted(slots, i, pref, usable))
      ensures BondedFit()
    {
      hide Wanted, CheckedAll;
      WantedIsUsable(slots, pref, usable);
      forall i | 0 <= i < SLOTS && bonded[i]
        ensures slots[i].allowed
      {
        WantedIsAllowed(was, seen, i, pref, usable);
      }
    }

    lemma AllEntriesUsable(c: seq<nat>)
      requires Holds(c) && forall i :: i in c ==> i < SLOTS && slots[i].present && slots[i].eligible
      ensures numBonded <= SLOTS && UsableEntries() == RoundRobin.AllUsable(numBonded) && ListedPresent()
    {
      TableIs(c);
      assert forall k: nat :: 0 <= k < numBonded ==> Usable(k);
    }

    /** The path slot of the next packet, NO_SLOT if there is none. */
    method StripedPath(randomByte: nat, ghost c: seq<nat>) returns (slot: nat)
      requires Lists(c) && 0 < numBonded
      requires RoundRobin.Reached(RoundRobin.Stripe(rrIdx, rrSent), numBonded, packetsPerLink)
      modifies `rrIdx, `rrSent
      ensures RoundRobin.Reached(RoundRobin.Stripe(rrIdx, rrSent), numBonded, packetsPerLink)
      ensures packetsPerLink != 0 ==>
                RoundRobin.Stripe(rrIdx, rrSent) ==
                  RoundRobin.Next(old(RoundRobin.Stripe(rrIdx, rrSent)), UsableEntries(), packetsPerLink)
      ensures packetsPerLink != 0 ==> slot == PresentOr(c[rrIdx])
      ensures packetsPerLink == 0 ==> rrIdx == old(rrIdx) && rrSent == old(rrSent) && slot == PresentOr(c[randomByte % |c|])
      ensures slot == NO_SLOT || (slot in c && slots[slot].present)
    {
      hide RoundRobin.Search;
      TableIs(c);
      RoundRobin.StaysReached(RoundRobin.Stripe(rrIdx, rrSent), UsableEntries(), packetsPerLink);
      if packetsPerLink == 0 {
        return PresentOr(realIdxMap[randomByte % numBonded]);
      }
      if rrSent < packetsPerLink {
        rrSent := (rrSent + 1) % WORD16;
        return PresentOr(realIdxMap[rrIdx]);
      }
      rrSent := 0;
      if numBonded == 1 || rrIdx >= SLOTS - 1 {
        rrIdx := 0;
      } else {
        rrIdx := NextUsable();
      }
      return PresentOr(realIdxMap[rrIdx]);
    }

    /** The slots of the next packets, one for each random byte. */
    method StripeAll(randomBytes: seq<nat>, ghost c: seq<nat>) returns (sent: seq<nat>)
      requires Lists(c) && 0 < numBonded && packetsPerLink != 0
      requires RoundRobin.Reached(RoundRobin.Stripe(rrIdx, rrSent), numBonded, packetsPerLink)
      modifies `rrIdx, `rrSent
      ensures RoundRobin.Reached(RoundRobin.Stripe(rrIdx, rrSent), numBonded, packetsPerLink)
      ensures |sent| == |randomBytes|
      ensures forall k: nat :: k < |sent| ==>
                sent[k] == PresentOr(c[Upcoming(old(RoundRobin.Stripe(rrIdx, rrSent)), k + 1).idx])
    {
      ghost var start := RoundRobin.Stripe(rrIdx, rrSent);
      sent := [];
      for k: nat := 0 to |randomBytes|
        invariant RoundRobin.Reached(RoundRobin.Stripe(rrIdx, rrSent), numBonded, packetsPerLink)
        invariant |sent| == k && RoundRobin.Stripe(rrIdx, rrSent) == Upcoming(start, k)
        invariant forall j: nat :: j < k ==> sent[j] == PresentOr(c[Upcoming(start, j + 1).idx])
      {
        var slot := StripedPath(randomBytes[k], c);
        sent := sent + [slot];
      }
    }

    /** The striping state after k packets. */
    ghost function Upcoming(start: RoundRobin.Stripe, k: nat): (s: RoundRobin.Stripe)
      requires Shaped() && numBonded <= SLOTS && start.idx < numBonded
      reads `numBonded, `slots, realIdxMap
      ensures s.idx < numBonded
    {
      RoundRobin.After(start, UsableEntries(), packetsPerLink, k)
    }

    /** What the entries of the table return as paths. */
    ghost function Paths(c: seq<nat>): (p: seq<nat>)
      reads `slots
      ensures |p| == |c| && forall k :: 0 <= k < |c| ==> p[k] == PresentOr(c[k])
    {
      var t := slots;
      seq(|c|, k requires 0 <= k < |c| => if c[k] < SLOTS && t[c[k]].present then c[k] else NO_SLOT)
    }

    /** The packets of a full cycle. */
    ghost function CycleLength(): nat
      requires Shaped() && numBonded <= SLOTS
      reads `numBonded, `slots, realIdxMap
    {
      RoundRobin.RingSize(UsableEntries()) * RoundRobin.Turn(packetsPerLink)
    }

    ghost predicate InRing(k: nat)
      requires Shaped() && numBonded <= SLOTS
      reads `numBonded, `slots, realIdxMap
    {
      k < numBonded && RoundRobin.Ring(UsableEntries())[k]
    }

    /**
     A cycle of packets over any table: a listed path that is there gets one share, of one packet
     if the share is negative, if its entry is in the ring of usable entries, and otherwise
     nothing; and nothing goes to paths that are not listed.
     */
    method StripeCycle(randomBytes: seq<nat>, ghost c: seq<nat>) returns (sent: seq<nat>)
      requires Lists(c) && Distinct(c) && packetsPerLink != 0 && packetsPerLink < WORD16 && InRing(rrIdx)
      requires RoundRobin.Reached(RoundRobin.Stripe(rrIdx, rrSent), numBonded, packetsPerLink)
      requires |randomBytes| == CycleLength()
      modifies `rrIdx, `rrSent
      ensures forall i: nat :: i < |c| && PresentOr(c[i]) == c[i] ==>
                multiset(sent)[c[i]] == if InRing(i) then RoundRobin.Turn(packetsPerLink) else 0
      ensures forall slot: nat :: slot !in c && slot != NO_SLOT ==> multiset(sent)[slot] == 0
    {
      hide RoundRobin.After, RoundRobin.Ring, RoundRobin.RingSize, RoundRobin.Turn;
      ghost var start := RoundRobin.Stripe(rrIdx, rrSent);
      sent := StripeAll(randomBytes, c);
      TableIs(c);
      forall i: nat | i < |c| && PresentOr(c[i]) == c[i]
        ensures multiset(sent)[c[i]] == if InRing(i) then RoundRobin.Turn(packetsPerLink) else 0
      {
        OwnPath(c, i);
        RoundRobin.CycleShares(start, UsableEntries(), packetsPerLink, Paths(c), sent, i);
      }
      forall slot: nat | slot !in c && slot != NO_SLOT
        ensures slot !in sent
      {
      }
    }

    /** No other entry of a table without repetitions returns the path of a slot that is there. */
    lemma OwnPath(c: seq<nat>, i: nat)
      requires Lists(c) && Distinct(c) && i < |c| && PresentOr(c[i]) == c[i]
      ensures forall j: nat :: j < |c| && j != i ==> Paths(c)[j] != Paths(c)[i]
    {
      TableIs(c);
    }

    /** After the bond was formed anew, a cycle of packets gives each bonded slot one share and no other slot any. */
    method ShareOut(seen: seq<Seen>, links: seq<Link>, pref: Link -> nat, random: nat -> nat) returns (sent: seq<nat>)
      requires striped && packetsPerLink != 0 && packetsPerLink < WORD16
      requires Shaped() && |seen| == SLOTS && Visits(CheckedAll(slots, seen), links)
      modifies this, bonded, realIdxMap
      ensures Shaped() && BondedFit()
      ensures forall i: nat :: i < SLOTS ==> multiset(sent)[i] == if bonded[i] then RoundRobin.Turn(packetsPerLink) else 0
    {
      hide Chosen, CheckedAll, Visits, RoundRobin.Reached, RoundRobin.Ring, RoundRobin.RingSize, RoundRobin.Turn;
      var usable := Curate(seen, links, pref, true);
      if numBonded == 0 {
        return [];
      }
      RoundRobin.RestartIsReached(numBonded, packetsPerLink);
      RoundRobin.RingOfAll(numBonded);
      AllPresent(Chosen(slots, links, pref, usable));
      var bytes: seq<nat> := seq(numBonded * RoundRobin.Turn(packetsPerLink), (k: nat) => random(k));
      sent := StripeCycle(bytes, Chosen(slots, links, pref, usable));
    }

    lemma AllPresent(c: seq<nat>)
      requires Lists(c) && UsableEntries() == RoundRobin.AllUsable(numBonded)
      ensures |c| == numBonded && forall k :: 0 <= k < |c| ==> PresentOr(c[k]) == c[k] && InRing(k)
    {
      RoundRobin.RingOfAll(numBonded);
      TableIs(c);
      forall k | 0 <= k < |c|
        ensures PresentOr(c[k]) == c[k] && InRing(k)
      {
        assert UsableEntries()[k];
      }
    }

    lemma TableIs(c: seq<nat>)
      requires Lists(c)
      ensures forall k :: 0 <= k < numBonded ==> realIdxMap[k] == c[k] && c[k] in c && c[k] < SLOTS
    {
      forall k | 0 <= k < numBonded
        ensures realIdxMap[k] == c[k] && c[k] in c
      {
        assert realIdxMap[k] == realIdxMap[..|c|][k];
      }
    }

    function PresentOr(slot: nat): nat
      reads `slots
    {
      if slot < SLOTS && slots[slot].present then slot else NO_SLOT
    }

    /** The search for the next usable entry, at most once around the table. */
    method NextUsable() returns (r: nat)
      requires Shaped() && 0 < numBonded <= SLOTS && rrIdx < numBonded
      ensures r < numBonded
      ensures r == RoundRobin.Search(UsableEntries(), rrIdx, rrIdx, numBonded - 1)
    {
      var at: nat := rrIdx;
      for searchCount: nat := 0 to numBonded - 1
        invariant at < numBonded
        invariant RoundRobin.Search(UsableEntries(), rrIdx, rrIdx, numBonded - 1)
               == RoundRobin.Search(UsableEntries(), rrIdx, at, numBonded - 1 - searchCount)
      {
        at := if at == numBonded - 1 then 0 else at + 1;
        if Usable(at) {
          return at;
        }
      }
      return rrIdx;
    }
  }

  lemma WantedIsUsable(t: Table, pref: Link -> nat, usable: bool)
    ensures forall i: nat :: Wanted(t, i, pref, usable) ==> i < SLOTS && t[i].present && t[i].eligible
  {
  }

  lemma PickedStep(t: Table, l: Link, kind: Kind, i: nat)
    requires i < SLOTS
    ensures Picked(t, l, kind, 0) == []
    ensures Picked(t, l, kind, i + 1) ==
            Picked(t, l, kind, i) + if OnLink(t, i, l) && Admits(kind, t[i]) then [i] else []
  {
    hide Admits, OnLink;
  }

  lemma {:induction false} PickedGrows(t: Table, l: Link, kind: Kind, i: nat, bound: nat)
    requires i <= bound <= SLOTS
    ensures |Picked(t, l, kind, i)| <= |Picked(t, l, kind, bound)|
    decreases bound
  {
    hide Admits, OnLink;
    if i < bound {
      PickedGrows(t, l, kind, i, bound - 1);
    }
  }

  lemma ChosenStep(t: Table, links: seq<Link>, pref: Link -> nat, usable: bool, k: nat)
    requires k < |links|
    ensures Chosen(t, links[..k + 1], pref, usable) ==
            Chosen(t, links[..k], pref, usable) + OnOneLink(t, links[k], pref(links[k]), usable)
    ensures |Chosen(t, links[..k + 1], pref, usable)| <= |Chosen(t, links, pref, usable)|
  {
    hide OnOneLink;
    assert links[..k + 1][..k] == links[..k] && links[..k + 1][k] == links[k];
    ChosenGrows(t, links, pref, usable, k + 1);
  }

  lemma {:induction false} ChosenGrows(t: Table, links: seq<Link>, pref: Link -> nat, usable: bool, k: nat)
    requires k <= |links|
    ensures |Chosen(t, links[..k], pref, usable)| <= |Chosen(t, links, pref, usable)|
    decreases |links|
  {
    hide OnOneLink;
    if k == |links| {
      assert links[..k] == links;
    } else {
      var init := links[..|links| - 1];
      assert init[..k] == links[..k];
      ChosenGrows(t, init, pref, usable, k);
    }
  }
}
