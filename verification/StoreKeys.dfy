/**
 The records of a member store under their keys, and what a save changes.
 */
module StoreKeys {
  import opened Common
  import opened Records
  import opened ControllerDb
  import opened ControllerIndex
  import opened MirrorPass

  datatype Key = NetKey(n: U64) | MemKey(n: U64, id: U64)

  function Lookup(s: Store, k: Key): Json {
    match k
    case NetKey(n) => Config(s, n)
    case MemKey(n, id) => Member(s, n, id)
  }

  /** The record may be stored under the key. */
  predicate Fits(k: Key, r: Json) {
    match k
    case NetKey(n) => n != 0 && ConfigFits(n, r) && r.Object?
    case MemKey(n, id) => n != 0 && MemberFits(n, id, r)
  }

  /** The record belongs under the key; it may still lack its revision, as a new network does. */
  predicate Names(k: Key, r: Json) {
    && r.Object? && k.n != 0
    && match k
       case NetKey(n) => IsNetworkRecord(r) && Field(r, "id").Str? && Id(r) == n
       case MemKey(n, id) => IsMemberRecord(r) && Id(r) == id && Nwid(r) == n
  }

  // ---- one record on its way into one store ----

  lemma LookupFits(s: Store, k: Key)
    requires StoreConsistent(s)
    ensures Lookup(s, k) == Null || Fits(k, Lookup(s, k))
  {
    hide MemberFits, FlagsExact, DeauthBounded;
    assert k.n in s ==> Keyed(k.n, s[k.n]);
  }

  lemma FitsFacts(k: Key, r: Json)
    ensures Fits(k, r) <==> Names(k, r) && HasRevision(r)
    ensures Fits(k, r) ==> r.Object?
  {
  }

  lemma NamesFacts(k: Key, r: Json)
    requires Names(k, r)
    ensures r.Object?
    ensures k.NetKey? ==> IsNetworkRecord(r) && !IsMemberRecord(r) && Id(r) == k.n && Field(r, "id").Str?
    ensures k.MemKey? ==> IsMemberRecord(r) && !IsNetworkRecord(r) && Id(r) == k.id && Nwid(r) == k.n
  {
  }

  lemma BumpFits(k: Key, r: Json)
    requires Names(k, r)
    ensures r.Object? && Fits(k, Bump(r)) && Alike(Bump(r), r)
  {
    BumpKeepsContent(r);
  }

  /** What a save that stores the record leaves of it: a member gains the missing fields that were looked up. */
  function Left(k: Key, r: Json): Json
    requires r.Object?
  {
    if k.MemKey? then Filled(r, IndexNames(r)) else r
  }

  /** The record is left as it was stored. */
  predicate Unaltered(k: Key, r: Json) { k.MemKey? ==> Settled(r) }

  /** What is left has the stored content if and only if the record was settled. */
  lemma LeftAlikeIff(k: Key, r: Json)
    requires Names(k, r)
    ensures r.Object? && Names(k, Left(k, r)) && Left(k, Left(k, r)) == Left(k, r)
    ensures HasRevision(r) ==> HasRevision(Left(k, r))
    ensures Alike(Left(k, r), r) <==> Unaltered(k, r)
  {
    hide Content, Filled;
    if k.MemKey? {
      FilledFacts(r, IndexNames(r));
      FilledTwice(r, IndexNames(r), IndexNames(r));
      FilledContent(r, IndexNames(r));
      assert IndexNames(r) + IndexNames(r) == IndexNames(r);
      if HasRevision(r) {
        RevisionKept(r, IndexNames(r));
      }
    }
  }

  lemma RevisionKept(r: Json, names: set<string>)
    requires HasRevision(r)
    ensures HasRevision(Filled(r, names))
  {
  }

  /** The revision plays no part in whether a record is settled. */
  lemma BumpUnaltered(k: Key, r: Json)
    requires r.Object?
    ensures Unaltered(k, Bump(r)) <==> Unaltered(k, r)
  {
    BumpKeepsContent(r);
    assert IndexNames(Bump(r)) == IndexNames(r);
    assert "revision" !in IndexNames(r);
    assert Bump(r).fields.Keys == r.fields.Keys + {"revision"};
  }

  /** Records of one content leave records of one content. */
  lemma LeftOfAlike(k: Key, a: Json, b: Json)
    requires a.Object? && b.Object? && Alike(a, b)
    ensures Alike(Left(k, a), Left(k, b))
  {
    FieldsOfAlike(a, b);
    if k.MemKey? {
      assert IndexNames(a) == IndexNames(b);
      ContentFilled(a, IndexNames(a));
      ContentFilled(b, IndexNames(a));
    }
  }

  lemma FieldsOfAlike(a: Json, b: Json)
    requires a.Object? && b.Object? && Alike(a, b)
    ensures Field(a, "authorized") == Field(b, "authorized")
  {
    assert Field(Content(a), "authorized") == Field(Content(b), "authorized");
  }

  lemma ContentFilled(j: Json, names: set<string>)
    requires j.Object? && "revision" !in names
    ensures Content(Filled(j, names)) == Filled(Content(j), names)
  {
    assert Content(Filled(j, names)).fields == Filled(Content(j), names).fields;
  }

  lemma DiffersIsUnlike(s: Store, k: Key, r: Json)
    requires StoreConsistent(s) && Fits(k, r)
    ensures Differs(Lookup(s, k), r) <==> !Alike(Lookup(s, k), r)
  {
    hide StoreConsistent, Content, Fits;
    LookupFits(s, k);
    FitsFacts(k, r);
    if Lookup(s, k) != Null {
      FitsFacts(k, Lookup(s, k));
    }
  }

  lemma SaveEffect(s: Store, k: Key, r: Json)
    requires StoreConsistent(s) && Names(k, r)
    ensures var e := EffectOf(s, Write(r));
            if !Differs(Lookup(s, k), r) then e == Nothing
            else e == match k case NetKey(n) => PutConfig(n, Bump(r)) case MemKey(n, id) => PutMember(n, id, Bump(r))
    ensures Save(s, r).modified <==> Differs(Lookup(s, k), r)
    ensures Save(s, r).record == if Save(s, r).modified then Left(k, Bump(r)) else r
  {
    hide StoreConsistent, Differs, Bump, Fits, Names, IsMemberRecord, IsNetworkRecord, Id, Nwid, MemberChanged,
      NetworkChanged, Filled, MemberLeft, KindNames, Field, Alike;
    NamesFacts(k, r);
    KindIsThere(k, r);
    BumpFits(k, r);
    FitsFacts(k, Bump(r));
    NamesFacts(k, Bump(r));
    if k.MemKey? {
      LeftByMember(s, k, Bump(r));
    }
  }

  lemma KindIsThere(k: Key, r: Json)
    requires Names(k, r)
    ensures Filled(r, KindNames(r)) == r
  {
    FilledFacts(r, KindNames(r));
  }

  lemma LeftByMember(s: Store, k: Key, r: Json)
    requires Names(k, r) && k.MemKey?
    ensures MemberLeft(s, Member(s, k.n, k.id), r) == Left(k, r)
  {
    hide Filled, IndexNames, KnownMember;
    FilledFacts(r, {"id", "nwid"});
    FilledTwice(r, {"id", "nwid"}, IndexNames(r));
  }

  lemma PerformLookups(s: Store, k: Key, m: Json)
    requires StoreConsistent(s) && m.Object?
    ensures var e := match k case NetKey(n) => PutConfig(n, m) case MemKey(n, id) => PutMember(n, id, m);
            (forall k' :: Lookup(Perform(s, e), k') == if k' == k then m else Lookup(s, k')) &&
            (Perform(s, e).Keys == s.Keys + {k.n})
  {
    hide StoreConsistent, Ips, Authorized, ActiveBridge, Deauth;
  }

  /** The records found after a save, under every key. */
  lemma SaveLookups(s: Store, k: Key, r: Json)
    requires StoreConsistent(s) && Names(k, r)
    ensures var t := Save(s, r).store;
            && StoreConsistent(t)
            && (forall k' :: Lookup(t, k') == if k' == k && Differs(Lookup(s, k), r) then Bump(r) else Lookup(s, k'))
            && t.Keys <= s.Keys + {k.n} && s.Keys <= t.Keys
    ensures Save(s, r).modified <==> Differs(Lookup(s, k), r)
  {
    hide StoreConsistent, EffectOf, Differs, Perform, Save, Lookup, Fits, Names, Alike;
    NamesFacts(k, r);
    SaveEffect(s, k, r);
    ApplyWrite(s, r);
    ConsistentAfter(s, Write(r));
    assert Apply(s, Write(r)) == Save(s, r).store;
    PerformLookups(s, k, Bump(r));
    assert Perform(s, Nothing) == s by { PerformNothing(s); }
  }

  /**
   A record without a revision is saved unless the stored one lacks exactly one of its fields;
   the revision then starts over at one, also when the same content is stored already.
   */
  lemma SavedAnewIff(s: Store, k: Key, r: Json)
    requires StoreConsistent(s) && Names(k, r) && !HasRevision(r)
    ensures r.Object?
    ensures var (b, c) := (Content(Lookup(s, k)), Content(r));
            Save(s, r).modified <==> !(b.Object? && |c.fields| == |b.fields| + 1 && Submap(b.fields, c.fields))
    ensures Alike(Lookup(s, k), r) ==> Save(s, r).modified
    ensures Save(s, r).modified ==> Revision(Lookup(Save(s, r).store, k)) == 1
  {
    hide StoreConsistent, Save, Lookup, Fits, Names, Content;
    NamesFacts(k, r);
    SaveLookups(s, k, r);
    LookupFits(s, k);
    FitsFacts(k, Lookup(s, k));
    BumpKeepsContent(r);
  }

  lemma PerformNothing(s: Store)
    ensures Perform(s, Nothing) == s
  {
  }

  /** Erasing a member takes away its record and no other; erasing a network with a configuration, all of its records. */
  lemma EraseLookups(s: Store, k: Key)
    requires StoreConsistent(s)
    ensures var t := Apply(s, if k.MemKey? then EraseMember(k.n, k.id) else EraseNetwork(k.n));
            forall k' :: Lookup(t, k') ==
                         if (if k.MemKey? then k' == k else Lookup(s, k).Object? && k'.n == k.n) then Null else Lookup(s, k')
  {
    hide StoreConsistent, Apply, Ips, Authorized, ActiveBridge, Deauth;
    ApplyIsEffect(s, if k.MemKey? then EraseMember(k.n, k.id) else EraseNetwork(k.n));
  }

  /** The databases of a set are different objects. */
  predicate Separate(dbs: seq<FileDb>) {
    forall i, j :: 0 <= i < j < |dbs| ==> dbs[i] != dbs[j]
  }

  /** What the databases hold now. */
  ghost function Stores(dbs: seq<FileDb>): (s: seq<Store>)
    reads dbs
    ensures |s| == |dbs| && forall j :: 0 <= j < |dbs| ==> s[j] == dbs[j].networks
  {
    seq(|dbs|, j requires 0 <= j < |dbs| reads dbs => dbs[j].networks)
  }
}
