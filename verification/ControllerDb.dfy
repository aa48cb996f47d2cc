/**
 The controller's member store: every network's configuration, its members and the indexes
 over them (authorized members, active bridges, allocated addresses, latest
 deauthorization), and the file-backed store whose saves and erases drive it.
 */
module ControllerDb {
  import opened Common
  import opened Records

  datatype Network = Network(config: Json, members: map<U64, Json>, activeBridges: set<U64>,
                             authorized: set<U64>, allocatedIps: set<Ip>, mostRecentDeauth: int)

  const NEW_NETWORK := Network(Null, map[], {}, {}, {}, 0)

  type Store = map<U64, Network>

  function Id(j: Json): U64 { AsHex(Field(j, "id")) }
  function Nwid(j: Json): U64 { AsHex(Field(j, "nwid")) }
  predicate Authorized(m: Json) { AsBool(Field(m, "authorized")) }
  predicate ActiveBridge(m: Json) { AsBool(Field(m, "activeBridge")) }

  /** The deauthorization time, read as a signed 64-bit integer. */
  function Deauth(m: Json): int {
    var t := AsInt(Field(m, "lastDeauthorizedTime"));
    if t < WORD64 / 2 then t else t - WORD64
  }

  // ---- what a change does ----

  /** The indexes without what the old record put into them. */
  function Unindexed(nw: Network, id: U64, was: Json): Network {
    nw.(activeBridges := if ActiveBridge(was) then nw.activeBridges - {id} else nw.activeBridges,
        authorized := if Authorized(was) then nw.authorized - {id} else nw.authorized,
        allocatedIps := nw.allocatedIps - Ips(was))
  }

  /** The member stored and indexed. */
  function Indexed(nw: Network, id: U64, m: Json): Network {
    nw.(members := nw.members[id := m],
        activeBridges := if ActiveBridge(m) then nw.activeBridges + {id} else nw.activeBridges,
        authorized := if Authorized(m) then nw.authorized + {id} else nw.authorized,
        allocatedIps := nw.allocatedIps + Ips(m),
        mostRecentDeauth :=
          if !Authorized(m) && Deauth(m) > nw.mostRecentDeauth then Deauth(m) else nw.mostRecentDeauth)
  }

  predicate KnownMember(s: Store, was: Json) {
    was.Object? && Id(was) != 0 && Nwid(was) != 0 && Nwid(was) in s
  }

  function MemberChanged(s: Store, was: Json, m: Json): Store {
    if KnownMember(s, was) then
      var nw := Unindexed(s[Nwid(was)], Id(was), was);
      s[Nwid(was) := if m.Object? then Indexed(nw, Id(was), m) else nw.(members := nw.members - {Id(was)})]
    else if m.Object? && Id(m) != 0 && Nwid(m) != 0 then
      s[Nwid(m) := Indexed(if Nwid(m) in s then s[Nwid(m)] else NEW_NETWORK, Id(m), m)]
    else
      s
  }

  /** The fields that storing a member looks up in its record. */
  function IndexNames(m: Json): set<string> {
    {"activeBridge", "authorized", "ipAssignments"} + if Authorized(m) then {} else {"lastDeauthorizedTime"}
  }

  /** The record as a change leaves it to the caller; what was stored is the record as it came. */
  function MemberLeft(s: Store, was: Json, m: Json): Json {
    if !m.Object? then m
    else if KnownMember(s, was) then Filled(m, IndexNames(m))
    else if Id(m) != 0 && Nwid(m) != 0 then Filled(m, {"id", "nwid"} + IndexNames(m))
    else Filled(m, {"id", "nwid"})
  }

  /** A configuration whose id is not a string is refused by an exception. */
  function NetworkChanged(s: Store, was: Json, config: Json): Store {
    if config.Object? then
      var id := Field(config, "id");
      if id.Str? && id.t.hex != 0 then
        s[id.t.hex := (if id.t.hex in s then s[id.t.hex] else NEW_NETWORK).(config := config)]
      else s
    else
      var id := Field(was, "id");
      if was.Object? && id.Str? && id.t.hex != 0 then s - {id.t.hex} else s
  }

  function Config(s: Store, n: U64): Json { if n in s then s[n].config else Null }

  function Member(s: Store, n: U64, id: U64): Json {
    if n in s && id in s[n].members then s[n].members[id] else Null
  }

  /** What a save leaves behind: the store, the caller's record and whether it was a change. */
  datatype Saved = Saved(store: Store, record: Json, modified: bool)

  predicate IsNetworkRecord(r: Json) { IsText(Field(r, "objtype"), "network") && Id(r) != 0 }
  predicate IsMemberRecord(r: Json) { IsText(Field(r, "objtype"), "member") && Id(r) != 0 && Nwid(r) != 0 }

  predicate Differs(was: Json, r: Json) { !was.Object? || !Same(was, r) }

  /** The fields a member starts with; minus one reads as 2^64 - 1. */
  function MemberDefaults(now: U64): map<string, Json> {
    var unknown := Number(WORD64 - 1);
    map[
      "authorized" := Bool(false), "ssoExempt" := Bool(false), "ipAssignments" := Array([]),
      "activeBridge" := Bool(false), "tags" := Array([]), "capabilities" := Array([]),
      "creationTime" := Number(now), "noAutoAssignIps" := Bool(false), "revision" := Number(0),
      "lastDeauthorizedTime" := Number(0), "lastAuthorizedTime" := Number(0),
      "lastAuthorizedCredentialType" := Null, "lastAuthorizedCredential" := Null,
      "authenticationExpiryTime" := Number(0), "vMajor" := unknown, "vMinor" := unknown, "vRev" := unknown,
      "vProto" := unknown, "remoteTraceTarget" := Null
    ]
  }

  /** The trace level starts over unless the member has a field of a misspelled name. */
  function InitMember(m: Json, now: U64): Json
    requires m.Object? || m.Null?
  {
    var given := if m.Object? then m.fields else map[];
    var level := if "removeTraceLevel" in given then map[] else map["remoteTraceLevel" := Number(0)];
    Object(MemberDefaults(now) + given + level + map["objtype" := Str(Text("member", 0, 0, NoIp))])
  }

  /**
   Initialising a member keeps every field it has, except for its type and the trace level, and gives
   those it lacks their defaults: not authorized, no bridge, no assignments, revision zero.
   */
  lemma InitMemberField(m: Json, now: U64, name: string)
    requires (m.Object? || m.Null?) && name != "objtype" && name != "remoteTraceLevel"
    ensures var r := Field(InitMember(m, now), name);
            if m.Object? && name in m.fields then r == m.fields[name]
            else if name == "authorized" || name == "activeBridge" || name == "noAutoAssignIps" || name == "ssoExempt" then r == Bool(false)
            else if name == "ipAssignments" || name == "tags" || name == "capabilities" then r == Array([])
            else if name == "revision" || name == "lastDeauthorizedTime" || name == "authenticationExpiryTime" then r == Number(0)
            else if name == "creationTime" then r == Number(now)
            else name !in MemberDefaults(now) ==> r == Null
  {
    hide InitMember;
    GivenOrDefault(m, now, name);
    DefaultIs(now, name);
  }

  /** It makes the record a member's, and starts the trace level over unless there is a field of the misspelled name. */
  lemma InitMemberMakes(m: Json, now: U64)
    requires m.Object? || m.Null?
    ensures var r := InitMember(m, now);
            && IsText(Field(r, "objtype"), "member")
            && Field(r, "remoteTraceLevel") ==
                 if m.Object? && "removeTraceLevel" in m.fields then Field(m, "remoteTraceLevel") else Number(0)
  {
    hide MemberDefaults;
    NoDefaultTrace(now);
  }

  lemma NoDefaultTrace(now: U64)
    ensures "remoteTraceLevel" !in MemberDefaults(now)
  {
  }

  lemma GivenOrDefault(m: Json, now: U64, name: string)
    requires (m.Object? || m.Null?) && name != "objtype" && name != "remoteTraceLevel"
    ensures Field(InitMember(m, now), name) ==
            if m.Object? && name in m.fields then m.fields[name] else Field(Object(MemberDefaults(now)), name)
  {
    hide MemberDefaults;
  }

  lemma DefaultIs(now: U64, name: string)
    ensures var r := Field(Object(MemberDefaults(now)), name);
            if name == "authorized" || name == "activeBridge" || name == "noAutoAssignIps" || name == "ssoExempt" then r == Bool(false)
            else if name == "ipAssignments" || name == "tags" || name == "capabilities" then r == Array([])
            else if name == "revision" || name == "lastDeauthorizedTime" || name == "authenticationExpiryTime" then r == Number(0)
            else if name == "creationTime" then r == Number(now)
            else name !in MemberDefaults(now) ==> r == Null
  {
  }

  lemma InitMemberHas(m: Json, now: U64, name: string)
    requires (m.Object? || m.Null?) && (name in MemberDefaults(now) || (m.Object? && name in m.fields))
    ensures name in InitMember(m, now).fields
  {
  }

  /** Initialising a member makes it one and keeps its assignments, an empty list if it has none. */
  lemma InitMemberFields(m: Json, now: U64)
    requires m.Object? || m.Null?
    ensures IsText(Field(InitMember(m, now), "objtype"), "member")
    ensures Field(InitMember(m, now), "ipAssignments") ==
            if m.Object? && "ipAssignments" in m.fields then m.fields["ipAssignments"] else Array([])
  {
    hide MemberDefaults;
    DefaultAssignments(now);
  }

  lemma DefaultAssignments(now: U64)
    ensures "ipAssignments" in MemberDefaults(now) && MemberDefaults(now)["ipAssignments"] == Array([])
  {
  }

  /** Storing the member leaves its record as it is. */
  predicate Settled(m: Json) {
    m.Object? && IndexNames(m) <= m.fields.Keys
  }

  /** It is settled if it says whether it is a bridge, whether it is authorized and which addresses it has, and if not authorized since when. */
  lemma SettledIff(m: Json)
    ensures Settled(m) <==>
            && m.Object? && "activeBridge" in m.fields && "authorized" in m.fields && "ipAssignments" in m.fields
            && (AsBool(Field(m, "authorized")) || "lastDeauthorizedTime" in m.fields)
  {
  }

  /** An initialised member is settled, whatever its fields are then set to. */
  lemma InitialisedIsSettled(m: Json, now: U64, updates: map<string, Json>)
    requires m.Object? || m.Null?
    ensures Settled(Object(InitMember(m, now).fields + updates))
  {
    assert {"activeBridge", "authorized", "ipAssignments", "lastDeauthorizedTime"} <= MemberDefaults(now).Keys;
  }

  /** The fields a save looks up to see what the record is. */
  function KindNames(r: Json): set<string> {
    var objtype := Field(r, "objtype");
    {"objtype"} +
    (if IsText(objtype, "network") then {"id"} else if IsText(objtype, "member") then {"id", "nwid"} else {})
  }

  function Save(s: Store, r: Json): Saved {
    if IsNetworkRecord(r) && Differs(Config(s, Id(r)), r) then
      Saved(NetworkChanged(s, Config(s, Id(r)), Bump(r)), Bump(r), Field(r, "id").Str?)
    else if IsMemberRecord(r) && Differs(Member(s, Nwid(r), Id(r)), r) then
      var was := Member(s, Nwid(r), Id(r));
      Saved(MemberChanged(s, was, Bump(r)), MemberLeft(s, was, Bump(r)), true)
    else
      Saved(s, Filled(r, KindNames(r)), false)
  }

  datatype Operation = Write(record: Json) | EraseNetwork(n: U64) | EraseMember(n: U64, id: U64)

  function Apply(s: Store, op: Operation): Store {
    match op
    case Write(r) => Save(s, r).store
    case EraseNetwork(n) => NetworkChanged(s, Config(s, n), Null)
    case EraseMember(n, id) => MemberChanged(s, Member(s, n, id), Null)
  }

  /** The stores reached by a run of operations from the empty store, last operation last. */
  function Run(ops: seq<Operation>): Store {
    if ops == [] then map[] else Apply(Run(ops[..|ops| - 1]), ops[|ops| - 1])
  }

  /** What a request learns about its network. */
  datatype Summary = Summary(activeBridges: set<U64>, allocatedIps: set<Ip>, authorizedCount: nat,
                             totalCount: nat, mostRecentDeauth: int)

  function Summarised(nw: Network): Summary {
    Summary(nw.activeBridges, nw.allocatedIps, |nw.authorized|, |nw.members|, nw.mostRecentDeauth)
  }

  // ---- the store in memory ----

  class FileDb {
    var networks: Store

    constructor ()
      ensures networks == map[]
    {
      networks := map[];
    }

    method Get(n: U64) returns (found: bool, config: Json)
      ensures found <==> n in networks
      ensures config == Config(networks, n)
    {
      if n !in networks {
        return false, Null;
      }
      return true, networks[n].config;
    }

    method GetMember(n: U64, id: U64) returns (found: bool, config: Json, member: Json)
      ensures found <==> n in networks && id in networks[n].members
      ensures config == Config(networks, n) && member == Member(networks, n, id)
    {
      if n !in networks {
        return false, Null, Null;
      }
      if id !in networks[n].members {
        return false, networks[n].config, Null;
      }
      return true, networks[n].config, networks[n].members[id];
    }

    /** The summary is filled in for any known network, also when the member is not found. */
    method GetWithSummary(n: U64, id: U64, info: Summary)
      returns (found: bool, config: Json, member: Json, summary: Summary)
      ensures found <==> n in networks && id in networks[n].members
      ensures config == Config(networks, n) && member == Member(networks, n, id)
      ensures summary == if n in networks then Summarised(networks[n]) else info
    {
      found, config, member := GetMember(n, id);
      summary := if n in networks then Summarised(networks[n]) else info;
    }

    /** Takes the addresses of a record out of an index, one by one. */
    static method Release(index: set<Ip>, items: seq<Json>) returns (rest: set<Ip>)
      ensures rest == index - IpsIn(items)
    {
      rest := index;
      for i := 0 to |items|
        invariant rest == index - IpsIn(items[..i])
      {
        assert items[..i + 1] == items[..i] + [items[i]];
        IpsInPush(items[..i], items[i]);
        if items[i].Str? {
          rest := rest - {items[i].t.ip};
        }
      }
      assert items[..|items|] == items;
    }

    static method Claim(index: set<Ip>, items: seq<Json>) returns (rest: set<Ip>)
      ensures rest == index + IpsIn(items)
    {
      rest := index;
      for i := 0 to |items|
        invariant rest == index + IpsIn(items[..i])
      {
        assert items[..i + 1] == items[..i] + [items[i]];
        IpsInPush(items[..i], items[i]);
        if items[i].Str? {
          rest := rest + {items[i].t.ip};
        }
      }
      assert items[..|items|] == items;
    }

    static method Unindex(network: Network, id: U64, was: Json) returns (nw: Network)
      ensures nw == Unindexed(network, id, was)
    {
      nw := network;
      if AsBool(Field(was, "activeBridge")) {
        nw := nw.(activeBridges := nw.activeBridges - {id});
      }
      if AsBool(Field(was, "authorized")) {
        nw := nw.(authorized := nw.authorized - {id});
      }
      var ips := Field(was, "ipAssignments");
      if ips.Array? {
        var rest := Release(nw.allocatedIps, ips.items);
        nw := nw.(allocatedIps := rest);
      }
    }

    /** Also returns the record with the fields that were looked up. */
    static method Index(network: Network, id: U64, m: Json) returns (nw: Network, left: Json)
      requires m.Object?
      ensures nw == Indexed(network, id, m) && left == Filled(m, IndexNames(m))
    {
      hide Filled;
      IndexLookups(m);
      nw := network.(members := network.members[id := m]);
      left := Filled(m, {"activeBridge"});
      if AsBool(Field(m, "activeBridge")) {
        nw := nw.(activeBridges := nw.activeBridges + {id});
      }
      left := Filled(left, {"authorized"});
      var isAuth := AsBool(Field(m, "authorized"));
      if isAuth {
        nw := nw.(authorized := nw.authorized + {id});
      }
      left := Filled(left, {"ipAssignments"});
      var ips := Field(m, "ipAssignments");
      if ips.Array? {
        var claimed := Claim(nw.allocatedIps, ips.items);
        nw := nw.(allocatedIps := claimed);
      }
      if !isAuth {
        left := Filled(left, {"lastDeauthorizedTime"});
        var ldt := Deauth(m);
        if ldt > nw.mostRecentDeauth {
          nw := nw.(mostRecentDeauth := ldt);
        }
      }
    }

    method OnMemberChanged(was: Json, m: Json) returns (left: Json)
      modifies this
      ensures networks == MemberChanged(old(networks), was, m)
      ensures left == MemberLeft(old(networks), was, m)
    {
      hide Indexed, Unindexed, Filled, IndexNames;
      left := m;
      var memberId, networkId := 0, 0;
      var known := false;
      if was.Object? {
        memberId, networkId := AsHex(Field(was, "id")), AsHex(Field(was, "nwid"));
        if memberId != 0 && networkId != 0 && networkId in networks {
          known := true;
          var nw := Unindex(networks[networkId], memberId, was);
          networks := networks[networkId := nw];
        }
      }
      if m.Object? {
        if !known {
          memberId, networkId := AsHex(Field(m, "id")), AsHex(Field(m, "nwid"));
          left := Filled(m, {"id", "nwid"});
          if memberId == 0 || networkId == 0 {
            return;
          }
          if networkId !in networks {
            networks := networks[networkId := NEW_NETWORK];
          }
        }
        var nw, indexed := Index(networks[networkId], memberId, m);
        networks := networks[networkId := nw];
        if known {
          left := indexed;
        } else {
          FilledTwice(m, {"id", "nwid"}, IndexNames(m));
          left := Filled(left, IndexNames(m));
        }
      } else if memberId != 0 {
        if known {
          var nw := networks[networkId];
          networks := networks[networkId := nw.(members := nw.members - {memberId})];
        }
      }
    }

    /** Returns whether the configuration was accepted; false stands for the exception. */
    method OnNetworkChanged(was: Json, config: Json) returns (ok: bool)
      modifies this
      ensures networks == NetworkChanged(old(networks), was, config)
      ensures config.Object? ==> (ok <==> Field(config, "id").Str?)
    {
      if config.Object? {
        var id := Field(config, "id");
        if !id.Str? {
          return false;
        }
        if id.t.hex != 0 {
          if id.t.hex !in networks {
            networks := networks[id.t.hex := NEW_NETWORK];
          }
          networks := networks[id.t.hex := networks[id.t.hex].(config := config)];
        }
      } else if was.Object? {
        var id := Field(was, "id");
        if !id.Str? {
          return false;
        }
        if id.t.hex != 0 {
          networks := networks - {id.t.hex};
        }
      }
      return true;
    }

    method SaveRecord(record: Json) returns (modified: bool, saved: Json)
      modifies this
      ensures Saved(networks, saved, modified) == Save(old(networks), record)
    {
      hide Same, MemberChanged, NetworkChanged, Bump;
      hide Filled, MemberLeft;
      modified, saved := false, Filled(record, {"objtype"});
      KindLookups(record);
      var objtype := Field(record, "objtype");
      if IsText(objtype, "network") {
        saved := Filled(saved, {"id"});
        var nwid := AsHex(Field(record, "id"));
        if nwid != 0 {
          var _, was := Get(nwid);
          var same := CompareRecords(was, record);
          if !was.Object? || !same {
            saved := Bump(record);
            BumpKeepsContent(record);
            modified := OnNetworkChanged(was, saved);
          }
        }
      } else if IsText(objtype, "member") {
        saved := Filled(Filled(saved, {"id"}), {"nwid"});
        var id, nwid := AsHex(Field(record, "id")), AsHex(Field(record, "nwid"));
        if id != 0 && nwid != 0 {
          var _, _, was := GetMember(nwid, id);
          var same := CompareRecords(was, record);
          if !was.Object? || !same {
            saved := Bump(record);
            saved := OnMemberChanged(was, saved);
            modified := true;
          }
        }
      }
    }

    method EraseNetworkRecord(n: U64)
      modifies this
      ensures networks == Apply(old(networks), EraseNetwork(n))
    {
      var _, network := Get(n);
      var _ := OnNetworkChanged(network, Null);
    }

    method EraseMemberRecord(n: U64, id: U64)
      modifies this
      ensures networks == Apply(old(networks), EraseMember(n, id))
    {
      var _, _, member := GetMember(n, id);
      var _ := OnMemberChanged(member, Null);
    }
  }

  /** Looking the fields up one after the other. */
  lemma IndexLookups(m: Json)
    ensures var left := Filled(Filled(Filled(m, {"activeBridge"}), {"authorized"}), {"ipAssignments"});
            Filled(m, IndexNames(m)) == if Authorized(m) then left else Filled(left, {"lastDeauthorizedTime"})
  {
    hide Filled, Authorized;
    var (a, b, c, d) := ({"activeBridge"}, {"authorized"}, {"ipAssignments"}, {"lastDeauthorizedTime"});
    FilledTwice(m, a, b);
    FilledTwice(m, a + b, c);
    FilledTwice(m, a + b + c, d);
    assert IndexNames(m) == if Authorized(m) then a + b + c else a + b + c + d;
  }

  lemma KindLookups(r: Json)
    ensures var (left, objtype) := (Filled(r, {"objtype"}), Field(r, "objtype"));
            Filled(r, KindNames(r)) ==
              if IsText(objtype, "network") then Filled(left, {"id"})
              else if IsText(objtype, "member") then Filled(Filled(left, {"id"}), {"nwid"})
              else left
  {
    hide Filled, IsText;
    var (a, b, c) := ({"objtype"}, {"id"}, {"nwid"});
    var objtype := Field(r, "objtype");
    FilledTwice(r, a, b);
    FilledTwice(r, a + b, c);
    assert KindNames(r) ==
      if IsText(objtype, "network") then a + b else if IsText(objtype, "member") then a + b + c else a;
  }

  lemma IpsInPush(items: seq<Json>, j: Json)
    ensures IpsIn(items + [j]) == IpsIn(items) + (if j.Str? then {j.t.ip} else {})
  {
    var all := items + [j];
    assert forall i :: 0 <= i < |items| ==> all[i] == items[i];
    assert all[|items|] == j;
  }
}
