/**
 Configuration requests as serialized steps: look the member up, assign addresses the
 network's index does not know, save the member. Together with edits and erases, these
 steps never let two members of a network share an address.
 */
module Controller {
  import opened Common
  import opened Records
  import opened ControllerDb
  import opened ControllerIndex
  import opened IpAllocator

  /** What a request says of the software that sends it. */
  datatype Versions = Versions(major: U64, minor: U64, rev: U64, proto: U64)

  /**
   Who asks, as far as it is not read from the store: the time, the identifiers and the identity
   as text, whether the identity is the one the member is known by, the token presented if
   it is a valid one, the versions if this is an answer to a packet, and whether a certificate
   of membership can be signed.
   */
  datatype Requester = Requester(now: U64, id: Text, nwid: Text, identity: Text, sameIdentity: bool,
                                 token: Option<Text>, versions: Option<Versions>, certified: bool)

  datatype Event =
    | Api(op: Operation)
    | Request(n: U64, w: Requester, routes: seq<Route>, shown: Ip -> Text, q: Query)

  // ---- the member's record before addresses are considered ----

  /** The member as stored, or a new one, with all fields a member has. */
  function Known(member: Json, now: U64): (m: Json)
    ensures m.Object?
  {
    InitMember(if member.Object? then member else Null, now)
  }

  predicate HasIdentity(m: Json) {
    var i := Field(m, "identity");
    (i.Str? && i.t.chars != "") || i.Number? || i.Bool?
  }

  /** The identity is learned if there is none yet; the keys are always those of the request. */
  function Identified(m: Json, w: Requester): (r: Json)
    requires m.Object?
    ensures r.Object?
  {
    var learned := if HasIdentity(m) then m.fields else m.fields["identity" := Str(w.identity)];
    Object(learned["id" := Str(w.id)]["address" := Str(w.id)]["nwid" := Str(w.nwid)])
  }

  /** The type of credential and the credential that authorize a member not yet authorized. */
  function Admission(config: Json, m: Json, w: Requester): Option<(Json, Json)> {
    if Authorized(m) then None
    else if !AsBool(Field(config, "private"), true) then Some((Str(Text("public", 0, 0, NoIp)), Null))
    else if w.token.Some? then Some((Str(Text("token", 0, 0, NoIp)), Str(w.token.value)))
    else None
  }

  function Admitted(config: Json, m: Json, w: Requester): (r: Json)
    requires m.Object?
    ensures r.Object?
  {
    match Admission(config, m, w)
    case None => m
    case Some((kind, credential)) =>
      Object(m.fields["authorized" := Bool(true)]["lastAuthorizedTime" := Number(w.now)]
                     ["lastAuthorizedCredentialType" := kind]["lastAuthorizedCredential" := credential])
  }

  /** The member's record once it is known who asks. */
  function Prepared(config: Json, member: Json, w: Requester): (r: Json)
    ensures r.Object?
  {
    Admitted(config, Identified(Known(member, w.now), w), w)
  }

  /** The network wants a sign-on that the member needs and that has expired. */
  predicate SignOnExpired(config: Json, m: Json, now: U64) {
    var t := AsInt(Field(m, "authenticationExpiryTime"));
    && AsBool(Field(config, "ssoEnabled")) && !AsBool(Field(m, "ssoExempt"))
    && (if t < WORD64 / 2 then t else t - WORD64) <= now
  }

  datatype Fate = Refused | TurnedAway | Granted

  function FateOf(config: Json, member: Json, w: Requester): Fate {
    var m := Prepared(config, member, w);
    if HasIdentity(Known(member, w.now)) && !w.sameIdentity then Refused
    else if SignOnExpired(config, m, w.now) || !Authorized(m) then TurnedAway
    else if w.certified then Granted else Refused
  }

  function Versioned(m: Json, w: Requester): (r: Json)
    requires m.Object?
    ensures r.Object?
  {
    match w.versions
    case None => m
    case Some(v) => Object(m.fields["vMajor" := Number(v.major)]["vMinor" := Number(v.minor)]
                                   ["vRev" := Number(v.rev)]["vProto" := Number(v.proto)])
  }

  /** The fields that are computed and not stored. */
  const COMPUTED := {"clock", "physicalAddr", "recentLog", "lastModified", "lastRequestMetaData",
                     "authenticationURL", "authenticationClientID"}

  function Cleaned(m: Json): (r: Json)
    requires m.Object?
    ensures r.Object?
  {
    Object(m.fields - COMPUTED)
  }

  // ---- the answer ----

  /** The list of assignments a request starts from; anything but an array counts as empty. */
  function Items(member: Json): seq<Json> {
    var ips := Field(member, "ipAssignments");
    if ips.Array? then ips.items else []
  }

  /** The member record a request saves: a new list of assignments only if something was assigned. */
  function Answer(s: Store, n: U64, base: Json, routes: seq<Route>, shown: Ip -> Text, q: Query): (r: Json)
    requires n in s && base.Object? && q.address < 0x100_0000_0000
    ensures r.Object?
  {
    var items := Assigned(Env(routes, s[n].allocatedIps, shown), q, Items(base));
    if items == Items(base) then base else Object(base.fields["ipAssignments" := Array(items)])
  }

  /** The record a request saves: without assignments when it is turned away, none when it is refused. */
  function Saving(s: Store, e: Event): Option<Json>
    requires e.Request? && e.n in s && e.q.address < 0x100_0000_0000
  {
    var (config, member) := (Config(s, e.n), Member(s, e.n, e.q.address));
    match FateOf(config, member, e.w)
    case Refused => None
    case TurnedAway => Some(Cleaned(Prepared(config, member, e.w)))
    case Granted =>
      Some(Cleaned(Answer(s, e.n, Versioned(Prepared(config, member, e.w), e.w), e.routes, e.shown, e.q)))
  }

  /** Requests for unknown networks are refused without a save. */
  function Handle(s: Store, e: Event): Store {
    match e
    case Api(op) => Apply(s, op)
    case Request(n, w, routes, shown, q) =>
      if Config(s, n).Object? && q.address < 0x100_0000_0000 then
        match Saving(s, e)
        case None => s
        case Some(r) => Save(s, r).store
      else s
  }

  /** Edits claim free addresses only; requests come from the program and need no such promise. */
  ghost predicate Legal(s: Store, e: Event) {
    match e
    case Api(op) => ClaimsFree(s, op)
    case Request(n, w, _, shown, q) =>
      && q.address < 0x100_0000_0000 && (forall ip :: shown(ip).ip == ip)
      && w.id.hex == q.address && w.nwid.hex == n
  }

  function RunEvents(events: seq<Event>): Store {
    if events == [] then map[] else Handle(RunEvents(events[..|events| - 1]), events[|events| - 1])
  }

  ghost predicate RunLegal(events: seq<Event>) {
    events != [] ==> RunLegal(events[..|events| - 1]) && Legal(RunEvents(events[..|events| - 1]), events[|events| - 1])
  }

  // ---- one request ----

  lemma IpsAreIpsInItems(member: Json)
    ensures Ips(member) == IpsIn(Items(member))
  {
    assert IpsIn([]) == {};
  }

  lemma AnswerKeys(s: Store, n: U64, base: Json, routes: seq<Route>, shown: Ip -> Text, q: Query)
    requires n in s && base.Object? && q.address < 0x100_0000_0000
    ensures var r := Answer(s, n, base, routes, shown, q);
            && r.Object?
            && IsMemberRecord(r) == IsMemberRecord(base) && Id(r) == Id(base) && Nwid(r) == Nwid(base)
            && Items(r) == Assigned(Env(routes, s[n].allocatedIps, shown), q, Items(base))
  {
    hide Assigned;
  }

  /** What a request's record claims is what the member had and addresses that were in nobody's use. */
  lemma AnswerClaims(s: Store, n: U64, base: Json, routes: seq<Route>, shown: Ip -> Text, q: Query)
    requires n in s && base.Object? && q.address < 0x100_0000_0000 && (forall ip :: shown(ip).ip == ip)
    ensures var claimed := Ips(Answer(s, n, base, routes, shown, q));
            Ips(base) <= claimed && (claimed - Ips(base)) !! s[n].allocatedIps
  {
    hide Assigned, Ips, Answer, Items, LastBits6, Routed4;
    var env := Env(routes, s[n].allocatedIps, shown);
    var (items, r) := (Items(base), Answer(s, n, base, routes, shown, q));
    AssignedIsFree(env, q, items);
    AnswerKeys(s, n, base, routes, shown, q);
    IpsAreIpsInItems(base);
    IpsAreIpsInItems(r);
    var all := Assigned(env, q, items);
    forall ip | ip in IpsIn(all)
      ensures ip in IpsIn(items) || ip !in env.inUse
    {
      var i :| 0 <= i < |all| && all[i].Str? && all[i].t.ip == ip;
      if i < |items| {
        assert all[i] == items[i];
      } else {
        assert all[i] == all[|items|..][i - |items|];
      }
    }
    forall ip | ip in IpsIn(items)
      ensures ip in IpsIn(all)
    {
      var i :| 0 <= i < |items| && items[i].Str? && items[i].t.ip == ip;
      assert all[i] == items[i];
    }
  }

  lemma KnownFacts(member: Json, now: U64)
    ensures var m := Known(member, now);
            IsText(Field(m, "objtype"), "member") && Items(m) == Items(member)
  {
    hide InitMember;
    InitMemberFields(if member.Object? then member else Null, now);
  }

  /** What a request makes of the record carries its keys and leaves the assignments alone. */
  lemma PreparedFacts(config: Json, member: Json, w: Requester)
    ensures var m := Prepared(config, member, w);
            && IsText(Field(m, "objtype"), "member") && Id(m) == w.id.hex && Nwid(m) == w.nwid.hex
            && Items(m) == Items(member)
  {
    hide Known, HasIdentity, Authorized;
    KnownFacts(member, w.now);
  }

  /** Fields that make up the keys and the assignments. */
  predicate SameClaims(a: Json, b: Json) {
    && Field(a, "objtype") == Field(b, "objtype") && Field(a, "id") == Field(b, "id")
    && Field(a, "nwid") == Field(b, "nwid") && Field(a, "ipAssignments") == Field(b, "ipAssignments")
  }

  lemma VersionedSameClaims(m: Json, w: Requester)
    requires m.Object?
    ensures SameClaims(Versioned(m, w), m) && Field(Versioned(m, w), "authorized") == Field(m, "authorized")
  {
  }

  lemma CleanedSameClaims(m: Json)
    requires m.Object?
    ensures SameClaims(Cleaned(m), m) && Field(Cleaned(m), "authorized") == Field(m, "authorized")
  {
  }

  /** A record that claims its member's own addresses and otherwise addresses in nobody's use claims free ones. */
  lemma OwnAndFree(s: Store, n: U64, r: Json)
    requires StoreConsistent(s) && StoreExact(s) && StoreDisjoint(s) && n in s && Nwid(r) == n
    requires (Ips(r) - Ips(Member(s, n, Id(r)))) !! s[n].allocatedIps
    ensures ClaimsFree(s, Write(r))
  {
    hide Ips, Held, IsMemberRecord, Id, Nwid, Disjoint, StoreConsistent;
    NullIsUnset();
    GivesUpOwn(s[n], Id(r));
    HeldByOthers(s[n].members, Id(r));
  }

  /**
   What a request saves belongs to the member that asks and claims its own addresses and
   otherwise only addresses in nobody's use; and it claims more than its own only if authorized.
   */
  lemma SavingFacts(s: Store, e: Event)
    requires e.Request? && e.n in s && Legal(s, e)
    ensures var r := Saving(s, e);
            r.Some? ==>
              var own := Ips(Member(s, e.n, e.q.address));
              && Id(r.value) == e.q.address && Nwid(r.value) == e.n
              && (Ips(r.value) - own) !! s[e.n].allocatedIps && own <= Ips(r.value)
              && (Ips(r.value) != own ==> Authorized(r.value) && !SignOnExpired(s[e.n].config, r.value, e.w.now))
  {
    hide Answer, Ips, Items, Prepared, SignOnExpired;
    var (config, member) := (Config(s, e.n), Member(s, e.n, e.q.address));
    var m := Prepared(config, member, e.w);
    PreparedFacts(config, member, e.w);
    CleanedSameClaims(m);
    SameIps(Cleaned(m), m);
    IpsAreIpsInItems(m);
    IpsAreIpsInItems(member);
    VersionedSameClaims(m, e.w);
    var base := Versioned(m, e.w);
    SameIps(base, m);
    var a := Answer(s, e.n, base, e.routes, e.shown, e.q);
    AnswerKeys(s, e.n, base, e.routes, e.shown, e.q);
    AnswerClaims(s, e.n, base, e.routes, e.shown, e.q);
    CleanedSameClaims(a);
    SameIps(Cleaned(a), a);
    SameSignOn(s, e, m);
  }

  lemma SameIps(a: Json, b: Json)
    requires SameClaims(a, b)
    ensures Ips(a) == Ips(b) && Items(a) == Items(b) && Id(a) == Id(b) && Nwid(a) == Nwid(b)
  {
  }

  lemma SameSignOn(s: Store, e: Event, m: Json)
    requires e.Request? && e.n in s && e.q.address < 0x100_0000_0000 && m.Object?
    ensures var a := Cleaned(Answer(s, e.n, Versioned(m, e.w), e.routes, e.shown, e.q));
            && (SignOnExpired(s[e.n].config, a, e.w.now) <==> SignOnExpired(s[e.n].config, m, e.w.now))
            && (Authorized(a) <==> Authorized(m))
  {
    hide Assigned, Items;
  }

  /** A request claims only addresses that no other member holds. */
  lemma RequestClaimsFree(s: Store, e: Event)
    requires StoreConsistent(s) && StoreExact(s) && StoreDisjoint(s)
    requires e.Request? && e.n in s && Legal(s, e) && Saving(s, e).Some?
    ensures ClaimsFree(s, Write(Saving(s, e).value))
  {
    hide StoreConsistent, StoreExact, StoreDisjoint, Saving, Ips, ClaimsFree, Id, Nwid, Authorized, SignOnExpired;
    SavingFacts(s, e);
    OwnAndFree(s, e.n, Saving(s, e).value);
  }

  /** Every legal event keeps all members of every network apart and the address indexes right. */
  lemma ApartAfterEvent(s: Store, e: Event)
    requires StoreConsistent(s) && StoreExact(s) && StoreDisjoint(s) && Legal(s, e)
    ensures StoreConsistent(Handle(s, e)) && StoreExact(Handle(s, e)) && StoreDisjoint(Handle(s, e))
  {
    hide StoreConsistent, StoreExact, StoreDisjoint, ClaimsFree, Save, Saving;
    match e
    case Api(op) =>
      ConsistentAfter(s, op);
      ApartAfter(s, op);
    case Request(n, w, routes, shown, q) =>
      if Config(s, n).Object? && Saving(s, e).Some? {
        RequestClaimsFree(s, e);
        ConsistentAfter(s, Write(Saving(s, e).value));
        ApartAfter(s, Write(Saving(s, e).value));
      }
  }

  // ---- every run ----

  /**
   In every run of requests, erases and edits that claim free addresses, no two members of a
   network ever hold the same address.
   */
  lemma {:induction false} NeverShared(events: seq<Event>)
    requires RunLegal(events)
    ensures var s := RunEvents(events); StoreConsistent(s) && StoreExact(s) && StoreDisjoint(s)
  {
    hide Handle, Legal, Consistent, AddressesExact, Disjoint;
    if events != [] {
      NeverShared(events[..|events| - 1]);
      ApartAfterEvent(RunEvents(events[..|events| - 1]), events[|events| - 1]);
    }
  }

  // ---- the step on the store ----

  /** A request on the store, from the look-up to the save. */
  method HandleRequest(db: FileDb, n: U64, w: Requester, routes: seq<Route>, shown: Ip -> Text, q: Query)
    requires q.address < 0x100_0000_0000
    modifies db
    ensures db.networks == Handle(old(db.networks), Request(n, w, routes, shown, q))
  {
    hide Save, Assigned, SignOnExpired, HasIdentity, Known, Identified, Admitted, Versioned, Cleaned;
    var found, config, member, info := db.GetWithSummary(n, q.address, Summary({}, {}, 0, 0, 0));
    if !config.Object? {
      return;
    }
    var record := Known(member, w.now);
    if HasIdentity(record) && !w.sameIdentity {
      return;
    }
    record := Identified(record, w);
    record := Admitted(config, record, w);
    if SignOnExpired(config, record, w.now) || !AsBool(Field(record, "authorized")) {
      var _, _ := db.SaveRecord(Cleaned(record));
      return;
    }
    record := Versioned(record, w);
    var ips := Field(record, "ipAssignments");
    var before := if ips.Array? then ips.items else [];
    var items := AutoAssign(Env(routes, info.allocatedIps, shown), q, before);
    if items != before {
      record := Object(record.fields["ipAssignments" := Array(items)]);
    }
    if !w.certified {
      return;
    }
    var _, _ := db.SaveRecord(Cleaned(record));
  }
}
