/**
 What the indexes of the member store are worth: which agreements hold in every state a run
 of saves and erases can reach, and exactly when the address index is right.
 */
module ControllerIndex {
  import opened Common
  import opened Records
  import opened ControllerDb

  // ---- the invariants ----

  /** The record of a member under its own key. */
  predicate MemberFits(n: U64, id: U64, m: Json) {
    m.Object? && IsMemberRecord(m) && Id(m) == id && Nwid(m) == n && HasRevision(m)
  }

  /** A network configuration under its own key, or none yet. */
  predicate ConfigFits(n: U64, config: Json) {
    config == Null ||
    (config.Object? && IsNetworkRecord(config) && Field(config, "id").Str? && Id(config) == n && HasRevision(config))
  }

  /** A record found under a network and member identifier carries these identifiers. */
  predicate Keyed(n: U64, nw: Network) {
    n != 0 && ConfigFits(n, nw.config) && forall id :: id in nw.members ==> MemberFits(n, id, nw.members[id])
  }

  /** The flag indexes are the members whose record has the flag. */
  predicate FlagsExact(nw: Network) {
    && nw.authorized == (set id | id in nw.members && Authorized(nw.members[id]))
    && nw.activeBridges == (set id | id in nw.members && ActiveBridge(nw.members[id]))
  }

  /** No unauthorized member was deauthorized later than the network knows. */
  predicate DeauthBounded(nw: Network) {
    && 0 <= nw.mostRecentDeauth
    && forall id :: id in nw.members && !Authorized(nw.members[id]) ==> Deauth(nw.members[id]) <= nw.mostRecentDeauth
  }

  /** The addresses some member holds. */
  function Held(members: map<U64, Json>): set<Ip> {
    set id, ip | id in members && ip in Ips(members[id]) :: ip
  }

  predicate Consistent(n: U64, nw: Network) {
    Keyed(n, nw) && FlagsExact(nw) && DeauthBounded(nw) && nw.allocatedIps <= Held(nw.members)
  }

  predicate StoreConsistent(s: Store) {
    forall n :: n in s ==> Consistent(n, s[n])
  }

  predicate AddressesExact(nw: Network) { nw.allocatedIps == Held(nw.members) }

  predicate StoreExact(s: Store) {
    forall n :: n in s ==> AddressesExact(s[n])
  }

  /** No two members hold the same address. */
  predicate Disjoint(members: map<U64, Json>) {
    forall i, j :: i in members && j in members && i != j ==> Ips(members[i]) !! Ips(members[j])
  }

  predicate StoreDisjoint(s: Store) {
    forall n :: n in s ==> Disjoint(s[n].members)
  }

  // ---- the change of one member ----

  function MemberOf(nw: Network, id: U64): Json { if id in nw.members then nw.members[id] else Null }

  /** The network after a member's record, if any, was replaced by m. */
  function Replaced(nw: Network, id: U64, m: Json): Network {
    Indexed(Unindexed(nw, id, MemberOf(nw, id)), id, m)
  }

  /** The network after a member was removed. */
  function Removed(nw: Network, id: U64): Network {
    Unindexed(nw, id, MemberOf(nw, id)).(members := nw.members - {id})
  }

  lemma NullIsUnset()
    ensures !Authorized(Null) && !ActiveBridge(Null) && Ips(Null) == {}
  {
  }

  lemma HeldByOthers(members: map<U64, Json>, id: U64)
    ensures Held(members) == Held(members - {id}) + (if id in members then Ips(members[id]) else {})
  {
    hide Ips;
    var others := members - {id};
    forall ip
      ensures ip in Held(members) <==> ip in Held(others) || (id in members && ip in Ips(members[id]))
    {
      if ip in Held(others) {
        var j :| j in others && ip in Ips(others[j]);
        assert j in members && members[j] == others[j];
      }
      if ip in Held(members) {
        var j :| j in members && ip in Ips(members[j]);
        if j != id {
          assert j in others && members[j] == others[j];
        }
      }
    }
  }

  lemma HeldAfter(members: map<U64, Json>, id: U64, m: Json)
    ensures Held(members[id := m]) == Held(members - {id}) + Ips(m)
  {
    hide Held;
    HeldByOthers(members[id := m], id);
    assert members[id := m] - {id} == members - {id};
  }

  lemma FlagsAfter(nw: Network, id: U64, m: Json)
    requires FlagsExact(nw)
    ensures FlagsExact(Replaced(nw, id, m)) && FlagsExact(Removed(nw, id))
  {
    hide Authorized, ActiveBridge, Ips, Deauth;
    NullIsUnset();
  }

  lemma BoundsAfter(nw: Network, id: U64, m: Json)
    requires DeauthBounded(nw)
    ensures DeauthBounded(Replaced(nw, id, m)) && DeauthBounded(Removed(nw, id))
    ensures nw.mostRecentDeauth <= Replaced(nw, id, m).mostRecentDeauth
    ensures nw.mostRecentDeauth <= Removed(nw, id).mostRecentDeauth
  {
    hide Authorized, ActiveBridge, Ips, Deauth;
  }

  /** The address index after a replacement and after a removal. */
  lemma AddressesAfter(nw: Network, id: U64, m: Json)
    ensures Replaced(nw, id, m).allocatedIps == (nw.allocatedIps - Ips(MemberOf(nw, id))) + Ips(m)
    ensures Held(Replaced(nw, id, m).members) == Held(nw.members - {id}) + Ips(m)
    ensures Removed(nw, id).allocatedIps == nw.allocatedIps - Ips(MemberOf(nw, id))
    ensures Held(Removed(nw, id).members) == Held(nw.members - {id})
    ensures Held(nw.members) == Held(nw.members - {id}) + Ips(MemberOf(nw, id))
  {
    hide Held, Ips, Authorized, ActiveBridge, Deauth;
    HeldAfter(nw.members, id, m);
    HeldByOthers(nw.members, id);
    NullIsUnset();
  }

  lemma ReplaceConsistent(n: U64, nw: Network, id: U64, m: Json)
    requires Consistent(n, nw) && MemberFits(n, id, m)
    ensures Consistent(n, Replaced(nw, id, m))
  {
    hide Held, Ips, Authorized, ActiveBridge, Deauth, FlagsExact, DeauthBounded, MemberFits, ConfigFits;
    FlagsAfter(nw, id, m);
    BoundsAfter(nw, id, m);
    AddressesAfter(nw, id, m);
  }

  lemma RemoveConsistent(n: U64, nw: Network, id: U64)
    requires Consistent(n, nw)
    ensures Consistent(n, Removed(nw, id))
  {
    hide Held, Ips, Authorized, ActiveBridge, Deauth, FlagsExact, DeauthBounded, MemberFits, ConfigFits;
    FlagsAfter(nw, id, Null);
    BoundsAfter(nw, id, Null);
    AddressesAfter(nw, id, Null);
  }

  /**
   After a change of one member the address index is again the union of the members'
   addresses if and only if no address the member gave up is held by another member.
   */
  lemma ExactAfter(nw: Network, id: U64, m: Json)
    requires AddressesExact(nw)
    ensures AddressesExact(Replaced(nw, id, m)) <==>
            (Ips(MemberOf(nw, id)) - Ips(m)) !! Held(nw.members - {id})
    ensures AddressesExact(Removed(nw, id)) <==> Ips(MemberOf(nw, id)) !! Held(nw.members - {id})
  {
    hide Ips, Held, Replaced, Removed, MemberOf;
    AddressesAfter(nw, id, m);
  }

  // ---- the operations ----

  function NetworkOf(s: Store, n: U64): Network { if n in s then s[n] else NEW_NETWORK }

  lemma NewNetwork(n: U64)
    requires n != 0
    ensures Consistent(n, NEW_NETWORK) && AddressesExact(NEW_NETWORK) && Disjoint(NEW_NETWORK.members)
  {
  }

  /** Telling the store of a change with the stored record as the old one replaces that record. */
  lemma ChangeReplaces(s: Store, n: U64, id: U64, m: Json)
    requires StoreConsistent(s) && MemberFits(n, id, m)
    ensures MemberChanged(s, Member(s, n, id), m) == s[n := Replaced(NetworkOf(s, n), id, m)]
  {
    hide Authorized, ActiveBridge, Ips, Deauth, Id, Nwid, IsMemberRecord, HasRevision;
    MemberKey(n, id, m);
    if Member(s, n, id) != Null {
      assert Keyed(n, s[n]);
      MemberKey(n, id, Member(s, n, id));
    } else {
      assert n in s ==> Keyed(n, s[n]);
      assert MemberOf(NetworkOf(s, n), id) == Null;
      NullIsUnset();
      assert Unindexed(NetworkOf(s, n), id, Null) == NetworkOf(s, n);
    }
  }

  lemma MemberKey(n: U64, id: U64, m: Json)
    requires MemberFits(n, id, m)
    ensures m.Object? && Id(m) == id != 0 && Nwid(m) == n != 0
  {
  }

  lemma ChangeRemoves(s: Store, n: U64, id: U64)
    requires StoreConsistent(s)
    ensures Member(s, n, id) != Null ==> MemberChanged(s, Member(s, n, id), Null) == s[n := Removed(s[n], id)]
    ensures Member(s, n, id) == Null ==> MemberChanged(s, Member(s, n, id), Null) == s
  {
    hide Authorized, ActiveBridge, Ips, Deauth, Id, Nwid, IsMemberRecord, HasRevision, MemberFits;
    if Member(s, n, id) != Null {
      assert Keyed(n, s[n]);
      MemberKey(n, id, Member(s, n, id));
    }
  }

  /** What an operation comes down to on a consistent store. */
  datatype Effect =
    | Nothing
    | PutMember(n: U64, id: U64, m: Json)
    | PutConfig(n: U64, config: Json)
    | DropMember(n: U64, id: U64)
    | DropNetwork(n: U64)

  function EffectOf(s: Store, op: Operation): Effect {
    match op
    case Write(r) =>
      if IsMemberRecord(r) && Differs(Member(s, Nwid(r), Id(r)), r) then PutMember(Nwid(r), Id(r), Bump(r))
      else if IsNetworkRecord(r) && Differs(Config(s, Id(r)), r) && Field(r, "id").Str? then PutConfig(Id(r), Bump(r))
      else Nothing
    case EraseNetwork(n) => if Config(s, n).Object? then DropNetwork(n) else Nothing
    case EraseMember(n, id) => if n in s && id in s[n].members then DropMember(n, id) else Nothing
  }

  predicate EffectFits(s: Store, e: Effect) {
    match e
    case PutMember(n, id, m) => n != 0 && MemberFits(n, id, m)
    case PutConfig(n, config) => n != 0 && ConfigFits(n, config)
    case DropMember(n, id) => n in s && id in s[n].members
    case _ => true
  }

  function Perform(s: Store, e: Effect): Store {
    match e
    case Nothing => s
    case PutMember(n, id, m) => s[n := Replaced(NetworkOf(s, n), id, m)]
    case PutConfig(n, config) => s[n := NetworkOf(s, n).(config := config)]
    case DropMember(n, id) => s[n := Removed(NetworkOf(s, n), id)]
    case DropNetwork(n) => s - {n}
  }

  lemma ApplyWrite(s: Store, r: Json)
    requires StoreConsistent(s)
    ensures var e := EffectOf(s, Write(r)); EffectFits(s, e) && Save(s, r).store == Perform(s, e)
  {
    hide Same, StoreConsistent, Replaced, Bump, MemberChanged, Content;
    if r.Object? {
      BumpKeepsContent(r);
      if IsMemberRecord(r) {
        ChangeReplaces(s, Nwid(r), Id(r), Bump(r));
      }
    }
  }

  /** On a consistent store every operation has exactly its effect. */
  lemma ApplyIsEffect(s: Store, op: Operation)
    requires StoreConsistent(s)
    ensures EffectFits(s, EffectOf(s, op)) && Apply(s, op) == Perform(s, EffectOf(s, op))
  {
    hide Same, Removed, Replaced, Bump, MemberChanged, Content, MemberFits, Save;
    match op
    case Write(r) =>
      ApplyWrite(s, r);
    case EraseNetwork(n) =>
    case EraseMember(n, id) =>
      ChangeRemoves(s, n, id);
      if n in s && id in s[n].members {
        assert Keyed(n, s[n]);
        MemberKey(n, id, s[n].members[id]);
      }
  }

  /** Every operation keeps every network consistent, whatever the records say. */
  lemma ConsistentAfter(s: Store, op: Operation)
    requires StoreConsistent(s)
    ensures StoreConsistent(Apply(s, op))
  {
    hide Apply, EffectOf, Consistent, Replaced, Removed, ConfigFits, MemberFits;
    ApplyIsEffect(s, op);
    match EffectOf(s, op)
    case PutMember(n, id, m) =>
      NewNetwork(n);
      ReplaceConsistent(n, NetworkOf(s, n), id, m);
    case PutConfig(n, config) =>
      NewNetwork(n);
      ConfigConsistent(n, NetworkOf(s, n), config);
    case DropMember(n, id) =>
      RemoveConsistent(n, s[n], id);
    case _ =>
  }

  lemma ConfigConsistent(n: U64, nw: Network, config: Json)
    requires Consistent(n, nw) && ConfigFits(n, config)
    ensures Consistent(n, nw.(config := config))
  {
    hide ConfigFits, Held, MemberFits;
  }

  /** While a network is in the store its latest deauthorization time never goes back. */
  lemma DeauthNeverDecreases(s: Store, op: Operation, n: U64)
    requires StoreConsistent(s) && n in s && n in Apply(s, op)
    ensures s[n].mostRecentDeauth <= Apply(s, op)[n].mostRecentDeauth
  {
    hide Apply, EffectOf, Replaced, Removed, ConfigFits, MemberFits;
    ApplyIsEffect(s, op);
    match EffectOf(s, op)
    case PutMember(n', id, m) =>
      if n' == n {
        assert Consistent(n, s[n]);
        BoundsAfter(s[n], id, m);
      }
    case DropMember(n', id) =>
      if n' == n {
        assert Consistent(n, s[n]);
        BoundsAfter(s[n], id, Null);
      }
    case _ =>
  }

  /** The addresses an effect takes away from a member. */
  function GivenUp(s: Store, e: Effect): set<Ip> {
    match e
    case PutMember(n, id, m) => Ips(Member(s, n, id)) - Ips(m)
    case DropMember(n, id) => Ips(Member(s, n, id))
    case _ => {}
  }

  /** The addresses held by the members an effect does not touch, in its network. */
  function HeldElsewhere(s: Store, e: Effect): set<Ip> {
    match e
    case PutMember(n, id, _) => Held(NetworkOf(s, n).members - {id})
    case DropMember(n, id) => Held(NetworkOf(s, n).members - {id})
    case _ => {}
  }

  /**
   From a store whose address indexes are right, one operation leaves them right if and only
   if no address it takes from a member is also held by another member.
   */
  lemma AddressesStayExactIff(s: Store, op: Operation)
    requires StoreConsistent(s) && StoreExact(s)
    ensures StoreExact(Apply(s, op)) <==> GivenUp(s, EffectOf(s, op)) !! HeldElsewhere(s, EffectOf(s, op))
  {
    hide Apply, EffectOf, Replaced, Removed, ConfigFits, MemberFits, Held, Ips, StoreConsistent;
    ApplyIsEffect(s, op);
    var e := EffectOf(s, op);
    match e
    case PutMember(n, id, m) =>
      NewNetwork(n);
      ExactAfter(NetworkOf(s, n), id, m);
      assert Apply(s, op)[n] == Replaced(NetworkOf(s, n), id, m);
    case DropMember(n, id) =>
      ExactAfter(s[n], id, Null);
      assert Apply(s, op)[n] == Removed(s[n], id);
    case PutConfig(n, config) =>
      NewNetwork(n);
      assert forall k :: k in Apply(s, op) ==> AddressesExact(Apply(s, op)[k]);
    case _ =>
  }

  /** What the store asks of a save to keep addresses apart: it claims none that another member holds. */
  predicate ClaimsFree(s: Store, op: Operation) {
    op.Write? && IsMemberRecord(op.record) ==>
      Ips(op.record) !! Held(NetworkOf(s, Nwid(op.record)).members - {Id(op.record)})
  }

  lemma DisjointAfter(members: map<U64, Json>, id: U64, m: Json)
    requires Disjoint(members)
    ensures Disjoint(members - {id})
    ensures Ips(m) !! Held(members - {id}) ==> Disjoint(members[id := m])
  {
    hide Ips;
    var others := members - {id};
    if Ips(m) !! Held(others) {
      forall j | j in members && j != id
        ensures Ips(m) !! Ips(members[j])
      {
        assert j in others && others[j] == members[j];
        forall ip | ip in Ips(members[j])
          ensures ip !in Ips(m)
        {
          assert ip in Held(others);
        }
      }
    }
  }

  lemma DisjointMeansFree(members: map<U64, Json>, id: U64)
    requires Disjoint(members) && id in members
    ensures Ips(members[id]) !! Held(members - {id})
  {
    hide Ips;
  }

  /** A save that claims only free addresses keeps members apart and the indexes right. */
  lemma ApartAfter(s: Store, op: Operation)
    requires StoreConsistent(s) && StoreExact(s) && StoreDisjoint(s) && ClaimsFree(s, op)
    ensures StoreExact(Apply(s, op)) && StoreDisjoint(Apply(s, op))
  {
    hide Apply, ConfigFits, MemberFits, Held, Ips, StoreConsistent, StoreExact, AddressesExact, Disjoint, Bump, Differs;
    ApplyIsEffect(s, op);
    AddressesStayExactIff(s, op);
    match EffectOf(s, op)
    case PutMember(n, id, m) =>
      NewNetwork(n);
      BumpKeepsContent(op.record);
      DisjointAfter(NetworkOf(s, n).members, id, m);
      GivesUpOwn(NetworkOf(s, n), id);
    case DropMember(n, id) =>
      DisjointAfter(s[n].members, id, Null);
      GivesUpOwn(s[n], id);
    case PutConfig(n, config) =>
      NewNetwork(n);
    case _ =>
  }

  lemma GivesUpOwn(nw: Network, id: U64)
    requires Disjoint(nw.members)
    ensures Ips(MemberOf(nw, id)) !! Held(nw.members - {id})
  {
    hide Held, Disjoint;
    if id in nw.members {
      DisjointMeansFree(nw.members, id);
    }
  }

  // ---- runs ----

  /** Every operation of the run claims only addresses free at its time. */
  predicate RunClaimsFree(ops: seq<Operation>) {
    ops != [] ==>
      RunClaimsFree(ops[..|ops| - 1]) && ClaimsFree(Run(ops[..|ops| - 1]), ops[|ops| - 1])
  }

  /** Every reachable store is consistent, without any assumption on the records saved. */
  lemma {:induction false} ReachableConsistent(ops: seq<Operation>)
    ensures StoreConsistent(Run(ops))
  {
    hide Apply;
    if ops != [] {
      ReachableConsistent(ops[..|ops| - 1]);
      ConsistentAfter(Run(ops[..|ops| - 1]), ops[|ops| - 1]);
    }
  }

  /** The members whose record has the flag. */
  function Having(members: map<U64, Json>, flag: string): set<U64> {
    set id | id in members && AsBool(Field(members[id], flag))
  }

  /**
   In every reachable store the summary of a network lists the members whose record has the bridge
   flag, counts those whose record is authorized and all, contains no address that nobody holds, and
   its time is not before that of any member that is not authorized.
   */
  lemma SummaryIs(ops: seq<Operation>, n: U64)
    requires n in Run(ops)
    ensures var (members, info) := (Run(ops)[n].members, Summarised(Run(ops)[n]));
            && info.activeBridges == Having(members, "activeBridge")
            && info.authorizedCount == |Having(members, "authorized")|
            && info.totalCount == |members| && info.allocatedIps <= Held(members)
            && (forall id :: id in members && !AsBool(Field(members[id], "authorized")) ==>
                  Deauth(members[id]) <= info.mostRecentDeauth)
    ensures RunClaimsFree(ops) ==> Summarised(Run(ops)[n]).allocatedIps == Held(Run(ops)[n].members)
  {
    hide Run, Held, ClaimsFree, RunClaimsFree, Deauth;
    ReachableConsistent(ops);
    var nw := Run(ops)[n];
    assert nw.authorized == Having(nw.members, "authorized");
    if RunClaimsFree(ops) {
      ReachableApart(ops);
    }
  }

  /**
   The latest deauthorization time of a network is that before the operation, zero for a new network,
   unless a member is stored that is not authorized and was deauthorized later.
   */
  lemma DeauthAfter(s: Store, op: Operation, n: U64)
    requires StoreConsistent(s) && n in Apply(s, op)
    ensures var (e, was, now) := (EffectOf(s, op), if n in s then s[n].mostRecentDeauth else 0, Apply(s, op)[n].mostRecentDeauth);
            if e.PutMember? && e.n == n && !AsBool(Field(e.m, "authorized")) then
              var t := AsInt(Field(e.m, "lastDeauthorizedTime"));
              var signed := if t < WORD64 / 2 then t else t - WORD64;
              now == if signed > was then signed else was
            else now == was
  {
    hide Apply, EffectOf, StoreConsistent, Ips;
    ApplyIsEffect(s, op);
  }

  /** In runs that claim only free addresses, no two members ever share one and the index is their union. */
  lemma {:induction false} ReachableApart(ops: seq<Operation>)
    requires RunClaimsFree(ops)
    ensures StoreDisjoint(Run(ops)) && StoreExact(Run(ops))
  {
    hide Apply, ClaimsFree, StoreConsistent;
    if ops != [] {
      ReachableApart(ops[..|ops| - 1]);
      ReachableConsistent(ops[..|ops| - 1]);
      ApartAfter(Run(ops[..|ops| - 1]), ops[|ops| - 1]);
    }
  }

  // ---- what goes wrong when two members share an address ----

  /** Erasing one holder of a shared address takes it out of the index while the other still holds it. */
  lemma SharedAddressLost(s: Store, n: U64, id: U64, other: U64, ip: Ip)
    requires StoreConsistent(s) && n in s && id in s[n].members && other in s[n].members && id != other
    requires ip in Ips(s[n].members[id]) && ip in Ips(s[n].members[other])
    ensures var t := Apply(s, EraseMember(n, id));
            n in t && other in t[n].members && ip in Ips(t[n].members[other]) && ip !in t[n].allocatedIps
  {
    hide Apply, Ips, StoreConsistent;
    ApplyIsEffect(s, EraseMember(n, id));
  }

  /** A member record that holds one address. */
  function Holder(n: U64, id: U64, ip: Ip): (r: Json)
    ensures r.Object?
  {
    Object(map["objtype" := Str(Text("member", 0, 0, NoIp)), "id" := Number(id), "nwid" := Number(n),
               "ipAssignments" := Array([Str(Text("address", 0, 0, ip))])])
  }

  lemma HolderHolds(n: U64, id: U64, ip: Ip)
    requires n != 0 && id != 0
    ensures IsMemberRecord(Holder(n, id, ip)) && Id(Holder(n, id, ip)) == id && Nwid(Holder(n, id, ip)) == n
    ensures Ips(Bump(Holder(n, id, ip))) == {ip}
  {
    BumpKeepsContent(Holder(n, id, ip));
    assert IpsIn([Str(Text("address", 0, 0, ip))]) == {ip} by {
      IpsInPush([], Str(Text("address", 0, 0, ip)));
      assert [] + [Str(Text("address", 0, 0, ip))] == [Str(Text("address", 0, 0, ip))];
    }
  }

  /** Such a state is reached by saving the same address for two members and erasing one of them. */
  lemma SharedAddressReachable(ip: Ip)
    ensures !StoreExact(Run([Write(Holder(1, 1, ip)), Write(Holder(1, 2, ip)), EraseMember(1, 1)]))
  {
    hide Holder, Bump, Ips, IsMemberRecord, Id, Nwid, Apply, Indexed, Unindexed, StoreConsistent, Same;
    HolderHolds(1, 1, ip);
    HolderHolds(1, 2, ip);
    var ops := [Write(Holder(1, 1, ip)), Write(Holder(1, 2, ip)), EraseMember(1, 1)];
    assert ops[..2] == [ops[0], ops[1]] && ops[..1] == [ops[0]] && ops[..1][..0] == [] && ops[..2][..1] == ops[..1];
    var s1 := Apply(map[], ops[0]);
    var s2 := Apply(s1, ops[1]);
    assert Run(ops[..1]) == s1 && Run(ops[..2]) == s2 && Run(ops) == Apply(s2, ops[2]);
    ReachableConsistent([]);
    ReachableConsistent(ops[..1]);
    ReachableConsistent(ops[..2]);
    ApplyIsEffect(map[], ops[0]);
    ApplyIsEffect(s1, ops[1]);
    StoredAfter(map[], 1, 1, Bump(Holder(1, 1, ip)));
    StoredAfter(s1, 1, 2, Bump(Holder(1, 2, ip)));
    SharedAddressLost(s2, 1, 1, 2, ip);
    var t := Run(ops);
    assert ip in Held(t[1].members);
  }

  lemma StoredAfter(s: Store, n: U64, id: U64, m: Json)
    ensures var t := Perform(s, PutMember(n, id, m)); n in t && t[n].members == NetworkOf(s, n).members[id := m]
  {
  }
}
