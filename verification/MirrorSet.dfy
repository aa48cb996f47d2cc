/**
 The periodic synchronization of a set of member stores: every store in turn offers all it
 has to all others, which save what they lack or have in an older version.
 */
module MirrorSet {
  import opened Common
  import opened Records
  import opened ControllerDb
  import opened ControllerIndex
  import opened MirrorPass
  import opened StoreKeys

  /** The network is known, but without its configuration. */
  predicate Bare(s: Store, n: U64) { n in s && !s[n].config.Object? }

  function Mutes(stores: seq<Store>, n: U64): (mute: seq<bool>)
    ensures |mute| == |stores|
  {
    seq(|stores|, j requires 0 <= j < |stores| => Bare(stores[j], n))
  }

  function Column(stores: seq<Store>, k: Key): (v: seq<Json>)
    ensures |v| == |stores|
  {
    seq(|stores|, j requires 0 <= j < |stores| => Lookup(stores[j], k))
  }

  predicate AllConsistent(stores: seq<Store>) {
    forall j :: 0 <= j < |stores| ==> StoreConsistent(stores[j])
  }

  predicate Known(s: Store, k: Key) {
    match k
    case NetKey(n) => n in s
    case MemKey(n, id) => n in s && id in s[n].members
  }

  lemma KnownIsStored(s: Store, k: Key)
    requires StoreConsistent(s)
    ensures Known(s, k) <==> Lookup(s, k).Object? || (k.NetKey? && Bare(s, k.n))
  {
    hide FlagsExact, DeauthBounded, ConfigFits;
    assert k.n in s ==> Keyed(k.n, s[k.n]);
  }

  /** What a store that has b under the key makes of a; one that is bare takes no configuration. */
  function Taken(bare: bool, k: Key, a: Json, b: Json): Json {
    if k.NetKey? && bare then b else Offered(a, b)
  }

  // ---- one record to one store ----

  /** One database is offered a record: it saves it if it lacks it or has an older one. */
  method Offer(db: FileDb, k: Key, record: Json)
    requires StoreConsistent(db.networks) && Fits(k, record) && (k.MemKey? ==> k.n in db.networks)
    modifies db
    ensures StoreConsistent(db.networks) && old(db.networks).Keys <= db.networks.Keys
    ensures k.NetKey? ==> k.n in db.networks
    ensures forall k' :: Lookup(db.networks, k') ==
                         if k' == k then Taken(Bare(old(db.networks), k.n), k, record, Lookup(old(db.networks), k))
                         else Lookup(old(db.networks), k')
    ensures forall n :: Bare(db.networks, n) <==> Bare(old(db.networks), n)
  {
    hide StoreConsistent, Save, Fits, Names, Alike, Bump, Differs, ConfigFits, Bare;
    ghost var s := db.networks;
    FitsFacts(k, record);
    LookupFits(s, k);
    KnownIsStored(s, k);
    BareFacts(s, k);
    var found, mine, config;
    match k {
      case NetKey(n) => found, mine := db.Get(n);
      case MemKey(n, id) => found, config, mine := db.GetMember(n, id);
    }
    if !found || (mine.Object? && Revision(mine) < Revision(record)) {
      SaveLookups(s, k, record);
      DiffersIsUnlike(s, k, record);
      var _, _ := db.SaveRecord(record);
      BareStays(s, db.networks, k, record);
    }
  }

  lemma BareFacts(s: Store, k: Key)
    requires StoreConsistent(s)
    ensures Bare(s, k.n) <==> k.n in s && !Lookup(s, NetKey(k.n)).Object?
    ensures k.NetKey? && Bare(s, k.n) ==> Lookup(s, k) == Null
  {
    hide FlagsExact, DeauthBounded;
    assert k.n in s ==> Keyed(k.n, s[k.n]);
  }

  lemma BareStays(s: Store, t: Store, k: Key, r: Json)
    requires StoreConsistent(s) && StoreConsistent(t) && r.Object?
    requires if k.MemKey? then k.n in s else !Bare(s, k.n)
    requires forall k' :: Lookup(t, k') == if k' == k then Stored(Lookup(s, k), r) else Lookup(s, k')
    requires t.Keys <= s.Keys + {k.n} && s.Keys <= t.Keys
    ensures forall n :: Bare(t, n) <==> Bare(s, n)
    ensures k.NetKey? ==> k.n in t
  {
    hide StoreConsistent, Content, Bump;
    StoredIsObject(Lookup(s, k), r);
    forall n
      ensures Bare(t, n) <==> Bare(s, n)
    {
      assert Lookup(t, NetKey(n)) == Config(t, n) && Lookup(s, NetKey(n)) == Config(s, n);
    }
    assert k.NetKey? ==> Lookup(t, k) == Config(t, k.n);
  }

  lemma StoredIsObject(b: Json, r: Json)
    requires r.Object?
    ensures Stored(b, r).Object?
  {
    hide Bump;
  }

  // ---- one record to all others ----

  /** The same networks are without configuration. */
  ghost predicate SameBare(was: seq<Store>, now: seq<Store>)
    requires |was| == |now|
  {
    forall j, n :: 0 <= j < |was| ==> (Bare(now[j], n) <==> Bare(was[j], n))
  }

  /** Every store but the source has been offered the source's record under the key, and nothing else. */
  ghost predicate KeyOffered(was: seq<Store>, now: seq<Store>, i: nat, k: Key)
    requires |was| == |now| && i < |was|
  {
    forall j, k' :: 0 <= j < |was| ==>
      Lookup(now[j], k') ==
      if j != i && k' == k then Taken(Bare(was[j], k.n), k, Lookup(was[i], k), Lookup(was[j], k))
      else Lookup(was[j], k')
  }

  method OfferToOthers(dbs: seq<FileDb>, i: nat, k: Key)
    requires Separate(dbs) && AllConsistent(Stores(dbs)) && i < |dbs| && Lookup(dbs[i].networks, k).Object?
    requires k.MemKey? ==> forall j :: 0 <= j < |dbs| ==> k.n in dbs[j].networks
    modifies dbs
    ensures AllConsistent(Stores(dbs)) && dbs[i].networks == old(dbs[i].networks)
    ensures KeyOffered(old(Stores(dbs)), Stores(dbs), i, k) && SameBare(old(Stores(dbs)), Stores(dbs))
    ensures forall j :: 0 <= j < |dbs| ==> k.MemKey? ==> old(dbs[j].networks).Keys <= dbs[j].networks.Keys
    ensures forall j :: 0 <= j < |dbs| ==> k.NetKey? ==> k.n in dbs[j].networks
  {
    hide StoreConsistent, Lookup, Taken, Fits, Stores, Bare;
    ghost var was := Stores(dbs);
    LookupFits(was[i], k);
    var record := Lookup(dbs[i].networks, k);
    for j := 0 to |dbs|
      invariant dbs[i].networks == was[i]
      invariant forall l :: j <= l < |dbs| ==> dbs[l].networks == was[l]
      invariant forall l :: 0 <= l < j ==> StoreConsistent(dbs[l].networks) && was[l].Keys <= dbs[l].networks.Keys
                                           && (k.NetKey? && l != i ==> k.n in dbs[l].networks)
      invariant forall l, n :: 0 <= l < j ==> (Bare(dbs[l].networks, n) <==> Bare(was[l], n))
      invariant forall l, k' :: 0 <= l < j ==>
                  Lookup(dbs[l].networks, k') ==
                  if l != i && k' == k then Taken(Bare(was[l], k.n), k, record, Lookup(was[l], k)) else Lookup(was[l], k')
    {
      if j != i {
        Offer(dbs[j], k, record);
      }
    }
    KnownIsStored(was[i], k);
    StoredIsKnown(was[i], k);
  }

  lemma StoredIsKnown(s: Store, k: Key)
    requires Lookup(s, k).Object?
    ensures k.n in s
  {
  }

  // ---- a network, a store, a pass ----

  /** Every store but the source has been offered all records of the given networks. */
  ghost predicate NetsOffered(was: seq<Store>, now: seq<Store>, i: nat, nets: set<U64>)
    requires |was| == |now| && i < |was|
  {
    forall j, k :: 0 <= j < |was| ==>
      Lookup(now[j], k) ==
      if j != i && k.n in nets && !Bare(was[i], k.n)
      then Taken(Bare(was[j], k.n), k, Lookup(was[i], k), Lookup(was[j], k))
      else Lookup(was[j], k)
  }

  /** Every store but the source has been offered the configuration of a network and the members done. */
  ghost predicate MembersOffered(was: seq<Store>, now: seq<Store>, i: nat, n: U64, done: set<U64>)
    requires |was| == |now| && i < |was|
  {
    forall j, k :: 0 <= j < |was| ==>
      Lookup(now[j], k) ==
      if j != i && k.n == n && (k.NetKey? || k.id in done)
      then Taken(Bare(was[j], n), k, Lookup(was[i], k), Lookup(was[j], k))
      else Lookup(was[j], k)
  }

  lemma NoMemberYet(was: seq<Store>, now: seq<Store>, i: nat, n: U64)
    requires |was| == |now| && i < |was| && KeyOffered(was, now, i, NetKey(n))
    ensures MembersOffered(was, now, i, n, {})
  {
    hide Lookup, Taken, Bare;
  }

  lemma OneMoreMember(was: seq<Store>, now: seq<Store>, next: seq<Store>, i: nat, n: U64, done: set<U64>, id: U64)
    requires |was| == |now| == |next| && i < |was| && now[i] == was[i] && id !in done && SameBare(was, now)
    requires MembersOffered(was, now, i, n, done) && KeyOffered(now, next, i, MemKey(n, id))
    ensures MembersOffered(was, next, i, n, done + {id})
  {
    hide Lookup, Taken, Bare;
  }

  lemma AllMembers(was: seq<Store>, now: seq<Store>, i: nat, n: U64)
    requires |was| == |now| && i < |was| && n in was[i] && !Bare(was[i], n)
    requires MembersOffered(was, now, i, n, was[i][n].members.Keys)
    ensures NetsOffered(was, now, i, {n})
  {
    hide Lookup, Taken, Bare;
    NothingToOffer(was, i, n);
  }

  /** Keys the source does not have are not offered. */
  lemma NothingToOffer(stores: seq<Store>, i: nat, n: U64)
    requires i < |stores|
    ensures forall k: Key, b: Json, bare: bool ::
              k.n == n && k.MemKey? && (n !in stores[i] || k.id !in stores[i][n].members) ==>
                Taken(bare, k, Lookup(stores[i], k), b) == b
    ensures forall k: Key, b: Json, bare: bool :: k.n == n && n !in stores[i] ==> Taken(bare, k, Lookup(stores[i], k), b) == b
  {
  }

  lemma SameBareThrough(was: seq<Store>, now: seq<Store>, next: seq<Store>)
    requires |was| == |now| == |next| && SameBare(was, now) && SameBare(now, next)
    ensures SameBare(was, next)
  {
    hide Bare;
  }

  /** One member more of the source. */
  method OfferMember(dbs: seq<FileDb>, i: nat, n: U64, id: U64, ghost was: seq<Store>, ghost done: set<U64>)
    requires Separate(dbs) && AllConsistent(Stores(dbs)) && i < |dbs| == |was| && dbs[i].networks == was[i]
    requires forall j :: 0 <= j < |dbs| ==> n in dbs[j].networks
    requires id in dbs[i].networks[n].members && id !in done
    requires MembersOffered(was, Stores(dbs), i, n, done) && SameBare(was, Stores(dbs))
    modifies dbs
    ensures AllConsistent(Stores(dbs)) && dbs[i].networks == was[i]
    ensures forall j :: 0 <= j < |dbs| ==> n in dbs[j].networks
    ensures MembersOffered(was, Stores(dbs), i, n, done + {id}) && SameBare(was, Stores(dbs))
  {
    hide StoreConsistent, Lookup, Taken, Fits, KeyOffered, MembersOffered, SameBare, Bare;
    KnownIsStored(was[i], MemKey(n, id));
    ghost var before := Stores(dbs);
    OfferToOthers(dbs, i, MemKey(n, id));
    OneMoreMember(was, before, Stores(dbs), i, n, done, id);
    SameBareThrough(was, before, Stores(dbs));
  }

  /** One network of the source: first its configuration, then its members in any order. */
  method OfferNetwork(dbs: seq<FileDb>, i: nat, n: U64)
    requires Separate(dbs) && AllConsistent(Stores(dbs)) && i < |dbs|
    requires n in dbs[i].networks && dbs[i].networks[n].config.Object?
    modifies dbs
    ensures AllConsistent(Stores(dbs)) && dbs[i].networks == old(dbs[i].networks)
    ensures NetsOffered(old(Stores(dbs)), Stores(dbs), i, {n}) && SameBare(old(Stores(dbs)), Stores(dbs))
  {
    assert Lookup(dbs[i].networks, NetKey(n)).Object? && !Bare(dbs[i].networks, n);
    hide StoreConsistent, Lookup, Taken, Fits, Stores, KeyOffered, MembersOffered, NetsOffered, SameBare, Bare;
    ghost var was := Stores(dbs);
    OfferToOthers(dbs, i, NetKey(n));
    NoMemberYet(was, Stores(dbs), i, n);
    var members := dbs[i].networks[n].members.Keys;
    var todo := members;
    assert members - todo == {};
    while todo != {}
      invariant todo <= members
      invariant AllConsistent(Stores(dbs)) && dbs[i].networks == was[i] && forall j :: 0 <= j < |dbs| ==> n in dbs[j].networks
      invariant MembersOffered(was, Stores(dbs), i, n, members - todo) && SameBare(was, Stores(dbs))
      decreases |todo|
    {
      var id :| id in todo;
      OfferMember(dbs, i, n, id, was, members - todo);
      assert members - (todo - {id}) == members - todo + {id};
      todo := todo - {id};
    }
    assert members - todo == members;
    AllMembers(was, Stores(dbs), i, n);
  }

  lemma OneMoreNetwork(was: seq<Store>, now: seq<Store>, next: seq<Store>, i: nat, nets: set<U64>, n: U64)
    requires |was| == |now| == |next| && i < |was| && now[i] == was[i] && n !in nets && SameBare(was, now)
    requires NetsOffered(was, now, i, nets)
    requires NetsOffered(now, next, i, {n}) || (Bare(was[i], n) && next == now)
    ensures NetsOffered(was, next, i, nets + {n})
  {
    hide Lookup, Taken, Bare;
  }

  lemma AllNetworks(was: seq<Store>, now: seq<Store>, i: nat, k: Key)
    requires |was| == |now| && i < |was| && NetsOffered(was, now, i, was[i].Keys)
    ensures Column(now, k) == OfferAmong(Column(was, k), Mutes(was, k.n), k.NetKey?, i)
  {
    hide Offered, Lookup, Bare;
    NothingToOffer(was, i, k.n);
    UnknownIsNotBare(was[i], k.n);
    forall j | 0 <= j < |was|
      ensures Column(now, k)[j] == OfferAmong(Column(was, k), Mutes(was, k.n), k.NetKey?, i)[j]
    {
      var _ := Taken(Bare(was[j], k.n), k, Lookup(was[i], k), Lookup(was[j], k));
    }
  }

  lemma UnknownIsNotBare(s: Store, n: U64)
    ensures n !in s ==> !Bare(s, n)
  {
  }

  /** One store offers everything it has, its networks in any order, except those without configuration. */
  method OfferAll(dbs: seq<FileDb>, i: nat)
    requires Separate(dbs) && AllConsistent(Stores(dbs)) && i < |dbs|
    modifies dbs
    ensures AllConsistent(Stores(dbs)) && SameBare(old(Stores(dbs)), Stores(dbs))
    ensures forall k :: Column(Stores(dbs), k) ==
                        OfferAmong(Column(old(Stores(dbs)), k), Mutes(old(Stores(dbs)), k.n), k.NetKey?, i)
  {
    hide AllConsistent, Lookup, Taken, Stores, NetsOffered, SameBare, OfferAmong, Column, Mutes;
    ghost var was := Stores(dbs);
    NothingOffered(was, i);
    var todo := dbs[i].networks.Keys;
    assert was[i].Keys - todo == {};
    while todo != {}
      invariant todo <= was[i].Keys
      invariant AllConsistent(Stores(dbs)) && dbs[i].networks == was[i]
      invariant NetsOffered(was, Stores(dbs), i, was[i].Keys - todo) && SameBare(was, Stores(dbs))
      decreases |todo|
    {
      var n :| n in todo;
      ghost var before := Stores(dbs);
      if dbs[i].networks[n].config.Object? {
        OfferNetwork(dbs, i, n);
        SameBareThrough(was, before, Stores(dbs));
      }
      OneMoreNetwork(was, before, Stores(dbs), i, was[i].Keys - todo, n);
      assert was[i].Keys - (todo - {n}) == was[i].Keys - todo + {n};
      todo := todo - {n};
    }
    assert was[i].Keys - todo == was[i].Keys;
    forall k
      ensures Column(Stores(dbs), k) == OfferAmong(Column(was, k), Mutes(was, k.n), k.NetKey?, i)
    {
      AllNetworks(was, Stores(dbs), i, k);
    }
  }

  lemma NothingOffered(was: seq<Store>, i: nat)
    requires i < |was|
    ensures NetsOffered(was, was, i, {}) && SameBare(was, was)
  {
    hide Lookup, Taken, Bare;
  }

  lemma SameMutes(was: seq<Store>, now: seq<Store>)
    requires |was| == |now| && SameBare(was, now)
    ensures forall n :: Mutes(now, n) == Mutes(was, n)
  {
    hide Bare;
  }

  /** One round of the periodic synchronization: every store in turn offers what it has to all others. */
  method SyncPass(dbs: seq<FileDb>)
    requires Separate(dbs) && AllConsistent(Stores(dbs))
    modifies dbs
    ensures AllConsistent(Stores(dbs)) && forall n :: Mutes(Stores(dbs), n) == Mutes(old(Stores(dbs)), n)
    ensures forall k :: Column(Stores(dbs), k) ==
                        PassedAmong(Column(old(Stores(dbs)), k), Mutes(old(Stores(dbs)), k.n), k.NetKey?, |dbs|)
  {
    hide AllConsistent, Column, OfferAmong, Stores, Mutes, SameBare;
    ghost var was := Stores(dbs);
    if |dbs| <= 1 {
      SingleStoreIdle(was);
      return;
    }
    for i := 0 to |dbs|
      invariant AllConsistent(Stores(dbs)) && forall n :: Mutes(Stores(dbs), n) == Mutes(was, n)
      invariant forall k :: Column(Stores(dbs), k) == PassedAmong(Column(was, k), Mutes(was, k.n), k.NetKey?, i)
    {
      ghost var before := Stores(dbs);
      OfferAll(dbs, i);
      SameMutes(before, Stores(dbs));
    }
  }

  lemma SingleStoreIdle(stores: seq<Store>)
    requires |stores| <= 1
    ensures forall k :: Column(stores, k) == PassedAmong(Column(stores, k), Mutes(stores, k.n), k.NetKey?, |stores|)
  {
    forall k
      ensures Column(stores, k) == PassedAmong(Column(stores, k), Mutes(stores, k.n), k.NetKey?, |stores|)
    {
      var (v, mute) := (Column(stores, k), Mutes(stores, k.n));
      assert PassedAmong(v, mute, k.NetKey?, 0) == v;
      if |stores| == 1 {
        assert PassedAmong(v, mute, k.NetKey?, 1) == OfferAmong(v, mute, k.NetKey?, 0) == v;
      }
    }
  }

  // ---- two stores ----

  /** Both stores have the same keys, and alike records under each. */
  ghost predicate InSync(stores: seq<Store>)
    requires |stores| == 2
  {
    forall k :: Agree(Lookup(stores[0], k), Lookup(stores[1], k))
  }

  /** What two stores must hold before a pass to be in sync after it. */
  ghost predicate WillSync(stores: seq<Store>)
    requires |stores| == 2
  {
    forall k: Key :: WillAgree(Lookup(stores[0], k), Lookup(stores[1], k), Mutes(stores, k.n), k.NetKey?)
  }

  lemma ColumnOfTwo(stores: seq<Store>, k: Key)
    requires |stores| == 2
    ensures Column(stores, k) == [Lookup(stores[0], k), Lookup(stores[1], k)]
  {
  }

  lemma EntryOf(s: Store, k: Key)
    requires StoreConsistent(s)
    ensures Entry(Lookup(s, k)) && (k.NetKey? && Bare(s, k.n) ==> Lookup(s, k) == Null)
  {
    hide Fits, Bare;
    LookupFits(s, k);
    BareFacts(s, k);
    if Lookup(s, k) != Null {
      FitsFacts(k, Lookup(s, k));
    }
  }

  /**
   Two stores are in sync after a pass exactly as foretold, which without networks that lack
   their configuration means that no key started with different records of equal revision; and
   then a further pass finds nothing to do.
   */
  method SyncTwo(dbs: seq<FileDb>)
    requires |dbs| == 2 && Separate(dbs) && AllConsistent(Stores(dbs))
    modifies dbs
    ensures AllConsistent(Stores(dbs))
    ensures InSync(Stores(dbs)) <==> WillSync(old(Stores(dbs)))
    ensures InSync(Stores(dbs)) ==>
              forall k :: PassedAmong(Column(Stores(dbs), k), Mutes(Stores(dbs), k.n), k.NetKey?, 2) == Column(Stores(dbs), k)
  {
    hide AllConsistent, Lookup, Alike, PassedAmong, Column, Stores, Mutes, InSync, WillSync;
    ghost var was := Stores(dbs);
    SyncPass(dbs);
    SyncedIff(was, Stores(dbs));
  }

  lemma SyncedIff(was: seq<Store>, now: seq<Store>)
    requires |was| == |now| == 2 && AllConsistent(was)
    requires forall k :: Column(now, k) == PassedAmong(Column(was, k), Mutes(was, k.n), k.NetKey?, 2)
    ensures InSync(now) <==> WillSync(was)
    ensures InSync(now) ==> forall k :: PassedAmong(Column(now, k), Mutes(now, k.n), k.NetKey?, 2) == Column(now, k)
  {
    hide StoreConsistent, Lookup, Agree, PassedAmong, Column, WillAgree;
    forall k
      ensures Agree(Lookup(now[0], k), Lookup(now[1], k)) <==>
              WillAgree(Lookup(was[0], k), Lookup(was[1], k), Mutes(was, k.n), k.NetKey?)
    {
      ColumnOfTwo(was, k);
      ColumnOfTwo(now, k);
      EntryOf(was[0], k);
      EntryOf(was[1], k);
      TwoStoresAgreeIff(Lookup(was[0], k), Lookup(was[1], k), Mutes(was, k.n), k.NetKey?);
    }
    if InSync(now) {
      forall k
        ensures PassedAmong(Column(now, k), Mutes(now, k.n), k.NetKey?, 2) == Column(now, k)
      {
        ColumnOfTwo(now, k);
        AgreeStaysPut(Column(now, k), Mutes(now, k.n), k.NetKey?);
      }
    }
  }

  // ---- more stores ----

  /** No store knows the network without its configuration. */
  predicate Voiced(stores: seq<Store>, n: U64) {
    forall j :: 0 <= j < |stores| ==> !Bare(stores[j], n)
  }

  /** What the stores hold that do not know the network of the key without its configuration. */
  function VoicesOf(stores: seq<Store>, k: Key): seq<Json> { Voices(Column(stores, k), Mutes(stores, k.n)) }

  lemma VoicedIsAll(stores: seq<Store>, k: Key)
    requires Voiced(stores, k.n)
    ensures VoicesOf(stores, k) == Column(stores, k)
  {
    hide Bare, Lookup;
    AllVoices(Column(stores, k), Mutes(stores, k.n));
  }

  /** A number of rounds, one after the other: that many passes among the stores that have the configuration. */
  method SyncRounds(dbs: seq<FileDb>, rounds: nat)
    requires Separate(dbs) && AllConsistent(Stores(dbs))
    modifies dbs
    ensures AllConsistent(Stores(dbs)) && forall n :: Mutes(Stores(dbs), n) == Mutes(old(Stores(dbs)), n)
    ensures forall k: Key :: VoicesOf(Stores(dbs), k) == Rounds(VoicesOf(old(Stores(dbs)), k), rounds)
    ensures forall k: Key :: Voiced(old(Stores(dbs)), k.n) ==>
                          Column(Stores(dbs), k) == Rounds(Column(old(Stores(dbs)), k), rounds)
  {
    hide AllConsistent, Column, PassedAmong, Stores, Mutes, Passed, Voices;
    ghost var was := Stores(dbs);
    assert forall v: seq<Json> :: Rounds(v, 0) == v;
    for p := 0 to rounds
      invariant AllConsistent(Stores(dbs)) && forall n :: Mutes(Stores(dbs), n) == Mutes(was, n)
      invariant forall k: Key :: VoicesOf(Stores(dbs), k) == Rounds(VoicesOf(was, k), p)
    {
      ghost var before := Stores(dbs);
      SyncPass(dbs);
      forall k: Key
        ensures VoicesOf(Stores(dbs), k) == Rounds(VoicesOf(was, k), p + 1)
      {
        VoicesPassAll(Column(before, k), Mutes(before, k.n), k.NetKey?);
        OneMoreRound(VoicesOf(was, k), p);
      }
    }
    forall k: Key | Voiced(was, k.n)
      ensures Column(Stores(dbs), k) == Rounds(Column(was, k), rounds)
    {
      StaysVoiced(was, Stores(dbs), k.n);
      VoicedIsAll(was, k);
      VoicedIsAll(Stores(dbs), k);
    }
  }

  lemma StaysVoiced(was: seq<Store>, now: seq<Store>, n: U64)
    requires |was| == |now| && Mutes(now, n) == Mutes(was, n) && Voiced(was, n)
    ensures Voiced(now, n)
  {
    hide Bare;
    forall j | 0 <= j < |now|
      ensures !Bare(now[j], n)
    {
      assert Mutes(now, n)[j] == Mutes(was, n)[j];
    }
  }

  /** The i-th of the stores with the configuration has a record far enough ahead of all different ones. */
  predicate FarAhead(stores: seq<Store>, k: Key, i: nat) {
    var v := VoicesOf(stores, k);
    i < |v| && Unwrapped(v, |v|) && Ahead(v, i, i)
  }

  /**
   Any number of rounds over any number of stores: under a key that has then come to rest the
   stores with the configuration agree, unless they started with records of one revision that are not
   all alike. A record far enough ahead of all different ones is in all of them after the first round.
   */
  method SyncAny(dbs: seq<FileDb>, rounds: nat)
    requires Separate(dbs) && AllConsistent(Stores(dbs))
    modifies dbs
    ensures AllConsistent(Stores(dbs))
    ensures forall k: Key ::
              var (v, w) := (VoicesOf(old(Stores(dbs)), k), VoicesOf(Stores(dbs), k));
              Unwrapped(v, (rounds + 1) * |v|) && Passed(w, |w|) == w ==> (InAgreement(w) <==> !Level(v) || InAgreement(v))
    ensures forall k: Key, i: nat :: FarAhead(old(Stores(dbs)), k, i) && rounds > 0 ==>
              AllLike(VoicesOf(Stores(dbs), k), VoicesOf(old(Stores(dbs)), k)[i]) && InAgreement(VoicesOf(Stores(dbs), k))
  {
    hide AllConsistent, VoicesOf, Stores, Mutes, Passed, Unwrapped, Level, InAgreement, Voiced, Rounds, Ahead, AllLike;
    ghost var was := Stores(dbs);
    SyncRounds(dbs, rounds);
    forall k: Key
      ensures var (v, w) := (VoicesOf(was, k), VoicesOf(Stores(dbs), k));
              Unwrapped(v, (rounds + 1) * |v|) && Passed(w, |w|) == w ==> (InAgreement(w) <==> !Level(v) || InAgreement(v))
    {
      var (v, w) := (VoicesOf(was, k), VoicesOf(Stores(dbs), k));
      if Unwrapped(v, (rounds + 1) * |v|) && Passed(w, |w|) == w {
        AtRestAgreesIff(v, rounds);
      }
    }
    forall k: Key, i: nat | FarAhead(was, k, i) && rounds > 0
      ensures AllLike(VoicesOf(Stores(dbs), k), VoicesOf(was, k)[i]) && InAgreement(VoicesOf(Stores(dbs), k))
    {
      AheadWins(VoicesOf(was, k), i, rounds);
    }
  }

  /** Two rounds bring three stores to rest; they then agree under every key but those that started tied. */
  method SyncThree(dbs: seq<FileDb>)
    requires |dbs| == 3 && Separate(dbs) && AllConsistent(Stores(dbs))
    modifies dbs
    ensures AllConsistent(Stores(dbs))
    ensures forall k: Key :: Voiced(old(Stores(dbs)), k.n) && Unwrapped(Column(old(Stores(dbs)), k), 6) ==>
              var (v, w) := (Column(old(Stores(dbs)), k), Column(Stores(dbs), k));
              Passed(w, 3) == w && (InAgreement(w) <==> !Level(v) || InAgreement(v))
  {
    hide AllConsistent, Column, VoicesOf, Stores, Mutes, Passed, Unwrapped, Level, InAgreement, Voiced, Rounds;
    ghost var was := Stores(dbs);
    SyncRounds(dbs, 2);
    forall k: Key | Voiced(was, k.n) && Unwrapped(Column(was, k), 6)
      ensures var (v, w) := (Column(was, k), Column(Stores(dbs), k));
              Passed(w, 3) == w && (InAgreement(w) <==> !Level(v) || InAgreement(v))
    {
      ThreeStoresSettle(Column(was, k));
    }
  }

  /** Four stores, one of them without the key, that no number of rounds brings into agreement. */
  method SyncFour(dbs: seq<FileDb>, k: Key, a: Json, b: Json, r: U64, rounds: nat)
    requires Separate(dbs) && AllConsistent(Stores(dbs)) && Voiced(Stores(dbs), k.n)
    requires a.Object? && b.Object? && !Alike(a, b) && r + 2 * rounds + 5 < WORD64
    requires Column(Stores(dbs), k) == Restless(a, b, r)
    modifies dbs
    ensures !InAgreement(Column(Stores(dbs), k))
    ensures Passed(Column(Stores(dbs), k), |dbs|) != Column(Stores(dbs), k)
  {
    hide AllConsistent, Column, VoicesOf, Stores, Passed, InAgreement, Voiced, Restless, Alike;
    SyncRounds(dbs, rounds + 1);
    FourStoresNeverRest(a, b, r, rounds);
  }

  function Configuration(n: U64, name: string): (c: Json)
    ensures c.Object?
  {
    Object(map["objtype" := Str(Text("network", 0, 0, NoIp)), "id" := Str(Text("", n, 0, NoIp)),
               "name" := Str(Text(name, 0, 0, NoIp))])
  }

  function Configured(n: U64, name: string, r: U64): Store {
    map[n := NEW_NETWORK.(config := At(Configuration(n, name), r))]
  }

  lemma ConfiguredFacts(n: U64, name: string, r: U64)
    requires n != 0
    ensures StoreConsistent(Configured(n, name, r)) && !Bare(Configured(n, name, r), n)
    ensures Lookup(Configured(n, name, r), NetKey(n)) == At(Configuration(n, name), r)
    ensures Fits(NetKey(n), At(Configuration(n, name), r))
  {
    var s := Configured(n, name, r);
    AtFacts(Configuration(n, name), r);
    assert Held(s[n].members) == {};
  }

  lemma NamesTell(n: U64, a: string, b: string)
    requires a != b
    ensures !Alike(Configuration(n, a), Configuration(n, b))
  {
    assert Field(Content(Configuration(n, a)), "name").t.chars == a;
    assert Field(Content(Configuration(n, b)), "name").t.chars == b;
  }

  /** There are such stores: two names of one network, under three different revisions. */
  lemma RestlessStores(n: U64, a: string, b: string, r: U64) returns (stores: seq<Store>)
    requires n != 0 && a != b && r + 2 < WORD64
    ensures AllConsistent(stores) && Voiced(stores, n) && !Alike(Configuration(n, a), Configuration(n, b))
    ensures Column(stores, NetKey(n)) == Restless(Configuration(n, a), Configuration(n, b), r)
  {
    hide StoreConsistent, Configured, Configuration, At, Alike, Bare;
    stores := [Configured(n, a, r), Configured(n, b, r + 1), map[], Configured(n, a, r + 2)];
    NamesTell(n, a, b);
    ConfiguredFacts(n, a, r);
    ConfiguredFacts(n, b, r + 1);
    ConfiguredFacts(n, a, r + 2);
    EmptyStore(n);
  }

  lemma EmptyStore(n: U64)
    ensures StoreConsistent(map[]) && !Bare(map[], n) && Lookup(map[], NetKey(n)) == Null
  {
  }

  /** A member saved to a store that does not know its network makes the network known there without configuration. */
  lemma MemberMakesBare(s: Store, k: Key, r: Json)
    requires StoreConsistent(s) && k.MemKey? && Names(k, r) && k.n !in s
    ensures Bare(Save(s, r).store, k.n)
  {
    hide StoreConsistent, Names, Save, Bump;
    SaveLookups(s, k, r);
    NamesFacts(k, r);
    var t := Save(s, r).store;
    assert !Lookup(s, k).Object? && Lookup(s, NetKey(k.n)) == Null;
    assert Lookup(t, k).Object?;
    BareFacts(t, k);
    StoredIsKnown(t, k);
  }

  /**
   After a pass the configuration of a network is in exactly the stores that do not know the
   network without it, if any store had it: a store that does never gets it from the others.
   */
  lemma ConfiguredAfterIff(stores: seq<Store>, n: U64, j: nat)
    requires AllConsistent(stores) && j < |stores|
    ensures var v := Column(stores, NetKey(n));
            PassedAmong(v, Mutes(stores, n), true, |stores|)[j].Object? <==>
              !Bare(stores[j], n) && exists i :: 0 <= i < |v| && v[i].Object?
  {
    hide Bare, StoreConsistent, PassedAmong;
    var (v, mute) := (Column(stores, NetKey(n)), Mutes(stores, n));
    forall i | 0 <= i < |stores| && mute[i]
      ensures v[i] == Null
    {
      EntryOf(stores[i], NetKey(n));
    }
    ConfiguredIff(v, mute, j);
  }
}
