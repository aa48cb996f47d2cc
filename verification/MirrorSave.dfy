/**
 A save through a mirror set: which stores end up with which content, given that storing a
 member adds fields to the record that goes on to the next store, and that a record may
 arrive without a revision.
 */
module MirrorSave {
  import opened Common
  import opened Records
  import opened ControllerDb
  import opened ControllerIndex
  import opened MirrorPass
  import opened StoreKeys

  /** The store has no record under the key, or one that the comparison tells from the saved one. */
  predicate Lacks(s: Store, k: Key, r: Json) { Differs(Lookup(s, k), r) }

  /** The store t is s, with an alike record under the key if it lacked the saved one. */
  ghost predicate SavedInto(s: Store, t: Store, k: Key, r: Json) {
    && StoreConsistent(t)
    && (if Lacks(s, k, r) then Alike(Lookup(t, k), r) else Lookup(t, k) == Lookup(s, k))
    && forall k' :: k' != k ==> Lookup(t, k') == Lookup(s, k')
  }

  /** One save; the caller's record is left with its revision advanced and the looked-up fields filled in. */
  method SaveOne(db: FileDb, k: Key, record: Json) returns (modified: bool, left: Json)
    requires StoreConsistent(db.networks) && Names(k, record)
    modifies db
    ensures record.Object? && SavedInto(old(db.networks), db.networks, k, record)
    ensures left == (if modified then Left(k, Bump(record)) else record) && Names(k, left)
    ensures modified <==> Lacks(old(db.networks), k, record)
    ensures !modified ==> db.networks == old(db.networks)
  {
    hide StoreConsistent, Save, Lookup, Fits, Names, Alike, Bump, Differs, Left;
    ghost var s := db.networks;
    SaveLookups(s, k, record);
    NamesFacts(k, record);
    BumpFits(k, record);
    FitsFacts(k, Bump(record));
    SaveEffect(s, k, record);
    LeftAlikeIff(k, Bump(record));
    ApplyWrite(s, record);
    PerformNothing(s);
    modified, left := db.SaveRecord(record);
  }

  /** Records that a save does not tell apart: one content, and both or neither carry a revision. */
  predicate Equivalent(a: Json, b: Json) {
    a.Object? && b.Object? && Alike(a, b) && HasRevision(a) == HasRevision(b)
  }

  lemma LacksEquivalent(s: Store, k: Key, a: Json, b: Json)
    requires Equivalent(a, b)
    ensures Lacks(s, k, a) <==> Lacks(s, k, b)
  {
  }

  lemma SavedIntoEquivalent(s: Store, t: Store, k: Key, a: Json, b: Json)
    requires SavedInto(s, t, k, a) && Equivalent(a, b)
    ensures SavedInto(s, t, k, b)
  {
    hide StoreConsistent, Lookup, Lacks, Content;
    LacksEquivalent(s, k, a, b);
  }

  /** What is left of records of one content, once stored, is equivalent. */
  lemma LeftEquivalent(k: Key, a: Json, b: Json)
    requires Names(k, a) && Names(k, b) && Alike(a, b)
    ensures a.Object? && b.Object? && Equivalent(Left(k, Bump(a)), Left(k, Bump(b)))
  {
    hide Left, Names, Fits, Content, Bump;
    NamesFacts(k, a);
    NamesFacts(k, b);
    BumpFits(k, a);
    BumpFits(k, b);
    FitsFacts(k, Bump(a));
    FitsFacts(k, Bump(b));
    LeftAlikeIff(k, Bump(a));
    LeftAlikeIff(k, Bump(b));
    NamesFacts(k, Left(k, Bump(a)));
    NamesFacts(k, Left(k, Bump(b)));
    LeftOfAlike(k, Bump(a), Bump(b));
  }

  /** What was left once is left again. */
  lemma LeftAgain(k: Key, r: Json)
    requires Names(k, r)
    ensures r.Object?
    ensures var left := Left(k, Bump(r));
            Names(k, left) && left.Object? && HasRevision(left) && Equivalent(Left(k, Bump(left)), left)
  {
    hide Left, Names, Fits, Content, Bump;
    NamesFacts(k, r);
    BumpFits(k, r);
    FitsFacts(k, Bump(r));
    LeftAlikeIff(k, Bump(r));
    var left := Left(k, Bump(r));
    NamesFacts(k, left);
    BumpFits(k, left);
    FitsFacts(k, Bump(left));
    LeftAlikeIff(k, Bump(left));
    NamesFacts(k, Left(k, Bump(left)));
    LeftOfAlike(k, Bump(left), left);
  }

  /** Some store before the j-th, other than the skipped one, lacks the record. */
  ghost predicate LackedBefore(was: seq<Store>, skip: int, j: nat, k: Key, record: Json)
    requires j <= |was|
  {
    exists l :: 0 <= l < j && l != skip && Lacks(was[l], k, record)
  }

  /** The record as the j-th store is given it, up to its revision. */
  ghost function Arriving(was: seq<Store>, skip: int, j: nat, k: Key, record: Json): Json
    requires j <= |was| && record.Object?
  {
    if LackedBefore(was, skip, j, k, record) then Left(k, Bump(record)) else record
  }

  /** What the next store is given after this one saved, or passed over, what it was given. */
  lemma PassedOn(was: seq<Store>, skip: int, j: nat, k: Key, record: Json, carried: Json)
    requires j < |was| && record.Object? && carried.Object? && Names(k, record) && Names(k, carried)
    requires Equivalent(carried, Arriving(was, skip, j, k, record))
    ensures j == skip ==> Arriving(was, skip, j + 1, k, record) == Arriving(was, skip, j, k, record)
    ensures j != skip ==>
              Equivalent(if Lacks(was[j], k, carried) then Left(k, Bump(carried)) else carried,
                         Arriving(was, skip, j + 1, k, record))
    ensures j != skip ==>
              (LackedBefore(was, skip, j + 1, k, record) <==>
               LackedBefore(was, skip, j, k, record) || Lacks(was[j], k, carried))
  {
    hide Left, Lookup, Names, Fits, Content, Bump, Lacks, Equivalent;
    var arriving := Arriving(was, skip, j, k, record);
    LacksEquivalent(was[j], k, carried, arriving);
    LeftAgain(k, record);
    EquivalentIs(carried, arriving);
    LeftEquivalent(k, carried, arriving);
    EquivalentThrough(Left(k, Bump(carried)), Left(k, Bump(arriving)), Left(k, Bump(record)));
  }

  lemma EquivalentIs(a: Json, b: Json)
    requires Equivalent(a, b)
    ensures Alike(a, b)
  {
  }

  lemma EquivalentThrough(a: Json, b: Json, c: Json)
    ensures Equivalent(a, b) && Equivalent(b, c) ==> Equivalent(a, c)
    ensures a.Object? ==> Equivalent(a, a)
  {
  }

  /** The record goes to every store but one; each store it changes leaves it altered for the next. */
  method SaveToOthers(dbs: seq<FileDb>, skip: int, k: Key, record: Json) returns (modified: bool)
    requires Separate(dbs) && Names(k, record) && record.Object?
    requires forall j :: 0 <= j < |dbs| && j != skip ==> StoreConsistent(dbs[j].networks)
    modifies dbs
    ensures forall j :: 0 <= j < |dbs| ==>
              if j == skip then dbs[j].networks == old(dbs[j].networks)
              else SavedInto(old(dbs[j].networks), dbs[j].networks, k, Arriving(old(Stores(dbs)), skip, j, k, record))
    ensures modified <==> LackedBefore(old(Stores(dbs)), skip, |dbs|, k, record)
  {
    hide StoreConsistent, Save, Names, Equivalent, SavedInto, Lacks, Stores, Left, Arriving, LackedBefore, Bump;
    ghost var was := Stores(dbs);
    var carried := record;
    modified := false;
    NothingLackedYet(was, skip, k, record);
    for j := 0 to |dbs|
      invariant carried.Object? && Names(k, carried) && Equivalent(carried, Arriving(was, skip, j, k, record))
      invariant forall l :: j <= l < |dbs| ==> dbs[l].networks == was[l]
      invariant forall l :: 0 <= l < j ==>
                  if l == skip then dbs[l].networks == was[l]
                  else SavedInto(was[l], dbs[l].networks, k, Arriving(was, skip, l, k, record))
      invariant modified <==> LackedBefore(was, skip, j, k, record)
    {
      PassedOn(was, skip, j, k, record, carried);
      if j != skip {
        ghost var given := carried;
        var changed;
        changed, carried := SaveOne(dbs[j], k, carried);
        NamesFacts(k, carried);
        SavedIntoEquivalent(was[j], dbs[j].networks, k, given, Arriving(was, skip, j, k, record));
        modified := modified || changed;
      } else {
        SkippedStore(was, j, k, record);
      }
    }
  }

  lemma NothingLackedYet(was: seq<Store>, skip: int, k: Key, record: Json)
    requires record.Object?
    ensures !LackedBefore(was, skip, 0, k, record) && Arriving(was, skip, 0, k, record) == record
    ensures Equivalent(record, record)
  {
  }

  lemma SkippedStore(was: seq<Store>, j: nat, k: Key, record: Json)
    requires j < |was|
    ensures LackedBefore(was, j, j + 1, k, record) <==> LackedBefore(was, j, j, k, record)
  {
    hide Lacks;
  }

  /** The j-th store is the first to lack the record. */
  ghost predicate FirstToLack(was: seq<Store>, j: nat, k: Key, record: Json)
    requires j < |was|
  {
    Lacks(was[j], k, record) && !LackedBefore(was, -1, j, k, record)
  }

  /**
   What the j-th store is given in a save through the set, up to its revision. With listeners,
   the first store to lack the record is given it as it is, and all others what that one left;
   without, each store is given what the stores before it left.
   */
  ghost function Received(was: seq<Store>, notify: bool, j: nat, k: Key, record: Json): Json
    requires j < |was| && record.Object?
  {
    if notify then
      if LackedBefore(was, -1, |was|, k, record) && !FirstToLack(was, j, k, record) then Left(k, Bump(record)) else record
    else Arriving(was, -1, j, k, record)
  }

  /**
   A save through the set: when listeners are told, the first store that changes passes its
   record on to the others; otherwise every store is saved to in turn.
   */
  method SaveThrough(dbs: seq<FileDb>, k: Key, record: Json, notify: bool) returns (modified: bool)
    requires Separate(dbs) && Names(k, record) && record.Object?
    requires forall j :: 0 <= j < |dbs| ==> StoreConsistent(dbs[j].networks)
    modifies dbs
    ensures forall j :: 0 <= j < |dbs| ==>
              SavedInto(old(dbs[j].networks), dbs[j].networks, k, Received(old(Stores(dbs)), notify, j, k, record))
    ensures modified <==> exists j :: 0 <= j < |dbs| && Lacks(old(dbs[j].networks), k, record)
    ensures AllAlike(Stores(dbs), k) <==> AlikeAfter(old(Stores(dbs)), notify, k, record)
  {
    hide StoreConsistent, Save, Names, Alike, SavedInto, Lacks, Left, Lookup, AllAlike, AlikeAfter, Equivalent, Bump;
    ghost var was := Stores(dbs);
    if !notify {
      modified := SaveToOthers(dbs, -1, k, record);
      AllAlikeIff(was, Stores(dbs), notify, k, record);
      return;
    }
    modified := false;
    for d := 0 to |dbs|
      invariant !modified
      invariant forall j :: 0 <= j < |dbs| ==> dbs[j].networks == was[j]
      invariant forall j :: 0 <= j < d ==> SavedInto(was[j], was[j], k, record) && !Lacks(was[j], k, record)
    {
      var left;
      modified, left := SaveOne(dbs[d], k, record);
      if modified {
        ghost var between := Stores(dbs);
        LeftAgain(k, record);
        var _ := SaveToOthers(dbs, d, k, left);
        forall j | 0 <= j < |dbs| && j != d
          ensures SavedInto(was[j], dbs[j].networks, k, left)
        {
          EquivalentThrough(left, left, left);
          SavedIntoEquivalent(was[j], dbs[j].networks, k, Arriving(between, d, j, k, left), left);
        }
        break;
      }
    }
    AllAlikeIff(was, Stores(dbs), notify, k, record);
  }

  /** All stores hold alike records under the key. */
  ghost predicate AllAlike(stores: seq<Store>, k: Key) {
    forall i, j :: 0 <= i < |stores| && 0 <= j < |stores| ==> Alike(Lookup(stores[i], k), Lookup(stores[j], k))
  }

  /**
   What a save must start from for all stores to end alike. If no store lacks the record, they
   were alike before. Otherwise it has all the fields that storing it looks up, or no store
   comes after one that lacked it; and it has a revision, or the first store is one that lacked it.
   */
  ghost predicate AlikeAfter(was: seq<Store>, notify: bool, k: Key, record: Json)
    requires record.Object?
  {
    if !LackedBefore(was, -1, |was|, k, record) then AllAlike(was, k)
    else if notify then Unaltered(k, record) || |was| == 1
    else
      && (Unaltered(k, record) || !LackedBefore(was, -1, |was| - 1, k, record))
      && (HasRevision(record) || Lacks(was[0], k, record))
  }

  /** A store that does not lack a record holds an alike one if and only if the record has a revision. */
  lemma HeldIsAlikeIff(s: Store, k: Key, r: Json)
    requires StoreConsistent(s) && Names(k, r) && !Lacks(s, k, r)
    ensures Alike(Lookup(s, k), r) <==> HasRevision(r)
  {
    hide StoreConsistent, Lookup, Fits, Names, Content;
    LookupFits(s, k);
    FitsFacts(k, Lookup(s, k));
    NamesFacts(k, r);
  }

  /** What a store holds afterwards is alike to what it was given, if that has a revision or was lacked. */
  lemma HoldsGiven(s: Store, t: Store, k: Key, r: Json)
    requires StoreConsistent(s) && Names(k, r) && SavedInto(s, t, k, r)
    ensures HasRevision(r) || Lacks(s, k, r) ==> Alike(Lookup(t, k), r)
    ensures Alike(Lookup(t, k), r) ==> HasRevision(r) || Lacks(s, k, r)
  {
    hide StoreConsistent, Lookup, Names, Content, Lacks;
    if !Lacks(s, k, r) {
      HeldIsAlikeIff(s, k, r);
    }
  }

  /** What is left differs from the saved record exactly if fields were filled in. */
  lemma LeftOfSaved(k: Key, r: Json)
    requires Names(k, r)
    ensures r.Object? && Alike(Left(k, Bump(r)), r) <==> Unaltered(k, r)
  {
    hide Left, Names, Fits, Content, Unaltered, Bump;
    NamesFacts(k, r);
    BumpFits(k, r);
    FitsFacts(k, Bump(r));
    LeftAlikeIff(k, Bump(r));
    BumpUnaltered(k, r);
  }

  /** After a save through the set all stores hold alike records exactly from the starts named. */
  lemma AllAlikeIff(was: seq<Store>, now: seq<Store>, notify: bool, k: Key, record: Json)
    requires |was| == |now| && Names(k, record) && record.Object?
    requires forall j :: 0 <= j < |was| ==> StoreConsistent(was[j])
    requires forall j :: 0 <= j < |was| ==> SavedInto(was[j], now[j], k, Received(was, notify, j, k, record))
    ensures AllAlike(now, k) <==> AlikeAfter(was, notify, k, record)
  {
    hide StoreConsistent, Names, Alike, Lacks, Left, Lookup, Unaltered, Bump;
    LeftOfSaved(k, record);
    LeftAgain(k, record);
    if LackedBefore(was, -1, |was|, k, record) {
      var first := FirstLacking(was, |was|, k, record);
      forall j | 0 <= j < |was|
        ensures var r := Received(was, notify, j, k, record);
                Alike(Lookup(now[j], k), r) <==> HasRevision(r) || Lacks(was[j], k, r)
      {
        HoldsGiven(was[j], now[j], k, Received(was, notify, j, k, record));
      }
      if notify {
        OneOtherwise(now, k, first, record, Left(k, Bump(record)));
      } else {
        SplitAt(now, k, first, record, Left(k, Bump(record)), HasRevision(record));
      }
    } else {
      assert forall j :: 0 <= j < |was| ==> Lookup(now[j], k) == Lookup(was[j], k);
    }
  }

  /** One store holds a, all others b. */
  lemma OneOtherwise(now: seq<Store>, k: Key, first: nat, a: Json, b: Json)
    requires first < |now| && Alike(Lookup(now[first], k), a)
    requires forall j :: 0 <= j < |now| && j != first ==> Alike(Lookup(now[j], k), b)
    ensures AllAlike(now, k) <==> Alike(b, a) || |now| == 1
  {
    hide Lookup, Content;
    if |now| > 1 {
      var other := if first == 0 then 1 else 0;
      assert Alike(Lookup(now[other], k), b);
    }
  }

  /** From one store on a and then b; before it a, or never a. */
  lemma SplitAt(now: seq<Store>, k: Key, first: nat, a: Json, b: Json, before: bool)
    requires first < |now| && Alike(Lookup(now[first], k), a)
    requires forall j :: first < j < |now| ==> Alike(Lookup(now[j], k), b)
    requires forall j :: 0 <= j < first ==> (Alike(Lookup(now[j], k), a) <==> before)
    ensures AllAlike(now, k) <==> (Alike(b, a) || first == |now| - 1) && (before || first == 0)
  {
    hide Lookup, Content;
    if AllAlike(now, k) {
      assert first < |now| - 1 ==> Alike(Lookup(now[first], k), Lookup(now[first + 1], k));
      assert first > 0 ==> Alike(Lookup(now[0], k), Lookup(now[first], k));
    }
  }

  lemma FirstLacking(was: seq<Store>, m: nat, k: Key, record: Json) returns (first: nat)
    requires m <= |was| && exists j :: 0 <= j < m && Lacks(was[j], k, record)
    ensures first < m && FirstToLack(was, first, k, record)
  {
    hide Lacks;
    var j :| 0 <= j < m && Lacks(was[j], k, record);
    first := j;
    while LackedBefore(was, -1, first, k, record)
      invariant first < m && Lacks(was[first], k, record)
      decreases first
    {
      var earlier :| 0 <= earlier < first && Lacks(was[earlier], k, record);
      first := earlier;
    }
  }
}
