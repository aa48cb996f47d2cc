/**
 What a configuration request does to the member that asks: who becomes authorized, who gets
 addresses, which identity the member is known by, and what stays as it was; over runs of
 requests too.
 */
module Requests {
  import opened Common
  import opened Records
  import opened ControllerDb
  import opened ControllerIndex
  import opened IpAllocator
  import opened Controller
  import opened MirrorPass
  import opened StoreKeys

  /** Anybody may join the network; one that does not say so is private. */
  predicate Public(config: Json) { !AsBool(Field(config, "private"), true) }

  /** The member that asks, before and after. */
  function Asker(s: Store, e: Event): Json
    requires e.Request? && e.q.address < 0x100_0000_0000
  {
    Member(s, e.n, e.q.address)
  }

  // ---- the record that is saved ----

  /** The fields a request may set. */
  const SET := {"objtype", "id", "address", "nwid", "identity", "authorized", "lastAuthorizedTime",
                "lastAuthorizedCredentialType", "lastAuthorizedCredential", "vMajor", "vMinor", "vRev", "vProto",
                "ipAssignments", "revision", "remoteTraceLevel"}

  lemma KnownField(member: Json, now: U64, name: string)
    requires name != "objtype" && name != "remoteTraceLevel"
    ensures member.Object? && name in member.fields ==> Field(Known(member, now), name) == member.fields[name]
    ensures Authorized(Known(member, now)) <==> Authorized(member)
    ensures HasIdentity(Known(member, now)) <==> HasIdentity(member)
    ensures HasIdentity(member) ==> Field(Known(member, now), "identity") == Field(member, "identity")
    ensures HasRevision(Known(member, now))
  {
    hide InitMember;
    var m := if member.Object? then member else Null;
    InitMemberField(m, now, name);
    InitMemberField(m, now, "authorized");
    InitMemberField(m, now, "identity");
    InitMemberHas(m, now, "revision");
    NoDefaultIdentity(now);
  }

  lemma NoDefaultIdentity(now: U64)
    ensures "identity" !in MemberDefaults(now) && "revision" in MemberDefaults(now)
  {
  }

  /** When and on what grounds the member was authorized: a public network goes before a token. */
  predicate AdmissionNoted(config: Json, m: Json, w: Requester) {
    && Field(m, "lastAuthorizedTime") == Number(w.now)
    && IsText(Field(m, "lastAuthorizedCredentialType"), if Public(config) then "public" else "token")
    && Field(m, "lastAuthorizedCredential") == if Public(config) || w.token.None? then Null else Str(w.token.value)
  }

  lemma IdentifiedIs(m: Json, w: Requester)
    requires m.Object?
    ensures var r := Identified(m, w);
            && Field(r, "identity") == (if HasIdentity(m) then Field(m, "identity") else Str(w.identity))
            && (HasRevision(m) ==> HasRevision(r))
            && forall name :: name !in {"identity", "id", "address", "nwid"} ==> Field(r, name) == Field(m, name)
  {
    hide HasIdentity;
  }

  lemma AdmittedIs(config: Json, m: Json, w: Requester)
    requires m.Object?
    ensures var r := Admitted(config, m, w);
            && (Authorized(r) <==> Authorized(m) || Public(config) || w.token.Some?)
            && (!Authorized(m) && Authorized(r) ==> AdmissionNoted(config, r, w))
            && (HasRevision(m) ==> HasRevision(r))
            && forall name :: name !in {"authorized", "lastAuthorizedTime", "lastAuthorizedCredentialType", "lastAuthorizedCredential"} ==>
                 Field(r, name) == Field(m, name)
  {
  }

  /** Before assignment: who is authorized, by which identity the member is known, and what is untouched. */
  lemma PreparedIs(config: Json, member: Json, w: Requester)
    ensures var m := Prepared(config, member, w);
            && (Authorized(m) <==> Authorized(member) || Public(config) || w.token.Some?)
            && Field(m, "identity") == (if HasIdentity(member) then Field(member, "identity") else Str(w.identity))
            && HasRevision(m)
            && (!Authorized(member) && Authorized(m) ==> AdmissionNoted(config, m, w))
            && (forall name :: member.Object? && name in member.fields && name !in SET ==> Field(m, name) == member.fields[name])
  {
    hide Known, HasIdentity, Identified, Admitted, Authorized, Public;
    var known := Known(member, w.now);
    KnownField(member, w.now, "authorized");
    IdentifiedIs(known, w);
    AuthorizedByField(Identified(known, w), known);
    AdmittedIs(config, Identified(known, w), w);
    forall name | member.Object? && name in member.fields && name !in SET
      ensures Field(Prepared(config, member, w), name) == member.fields[name]
    {
      KnownField(member, w.now, name);
    }
  }

  lemma VersionedIs(m: Json, w: Requester)
    requires m.Object?
    ensures var r := Versioned(m, w);
            && (w.versions.Some? ==>
                  && Field(r, "vMajor") == Number(w.versions.value.major) && Field(r, "vMinor") == Number(w.versions.value.minor)
                  && Field(r, "vRev") == Number(w.versions.value.rev) && Field(r, "vProto") == Number(w.versions.value.proto))
            && (w.versions.None? ==> r == m) && (HasRevision(m) ==> HasRevision(r))
            && forall name :: name !in {"vMajor", "vMinor", "vRev", "vProto"} ==> Field(r, name) == Field(m, name)
  {
  }

  lemma AnswerIs(s: Store, e: Event, base: Json)
    requires e.Request? && e.n in s && base.Object? && e.q.address < 0x100_0000_0000
    ensures var r := Answer(s, e.n, base, e.routes, e.shown, e.q);
            && r.Object? && (HasRevision(base) ==> HasRevision(r))
            && Items(r) == Assigned(Env(e.routes, s[e.n].allocatedIps, e.shown), e.q, Items(base))
            && forall name :: name != "ipAssignments" ==> Field(r, name) == Field(base, name)
  {
    hide Assigned;
  }

  lemma CleanedIs(m: Json)
    requires m.Object?
    ensures (HasRevision(m) ==> HasRevision(Cleaned(m))) && Cleaned(m).fields.Keys !! COMPUTED
    ensures forall name :: name in COMPUTED <==>
              name in {"clock", "physicalAddr", "recentLog", "lastModified", "lastRequestMetaData", "authenticationURL",
                       "authenticationClientID"}
    ensures forall name :: Field(Cleaned(m), name) == if name in COMPUTED then Null else Field(m, name)
  {
  }

  /** The member has its sign-on time behind it, on a network that wants one from it. */
  predicate Expired(config: Json, member: Json, now: U64) {
    var t := AsInt(Field(member, "authenticationExpiryTime"));
    && AsBool(Field(config, "ssoEnabled")) && !AsBool(Field(member, "ssoExempt"))
    && (if t < WORD64 / 2 then t else t - WORD64) <= now
  }

  lemma SignOnIs(config: Json, member: Json, w: Requester)
    ensures SignOnExpired(config, Prepared(config, member, w), w.now) <==> Expired(config, member, w.now)
  {
    hide Known, HasIdentity, Identified, Admitted, Authorized, Public, AdmissionNoted;
    var known := Known(member, w.now);
    KnownSignOn(member, w.now);
    IdentifiedIs(known, w);
    AdmittedIs(config, Identified(known, w), w);
  }

  lemma KnownSignOn(member: Json, now: U64)
    ensures AsBool(Field(Known(member, now), "ssoExempt")) == AsBool(Field(member, "ssoExempt"))
    ensures AsInt(Field(Known(member, now), "authenticationExpiryTime")) == AsInt(Field(member, "authenticationExpiryTime"))
  {
    hide InitMember;
    var m := if member.Object? then member else Null;
    InitMemberField(m, now, "ssoExempt");
    InitMemberField(m, now, "authenticationExpiryTime");
    assert AsBool(Null) == AsBool(Bool(false)) && AsInt(Null) == AsInt(Number(0));
  }

  /** What the member is entitled to: addresses only if authorized and signed on, and if a certificate can be signed. */
  predicate Served(config: Json, member: Json, w: Requester) {
    (Authorized(member) || Public(config) || w.token.Some?) && !Expired(config, member, w.now)
  }

  /** What a request saves, by what was stored: nothing for another identity or without a certificate for a member that is served. */
  lemma SavingIs(s: Store, e: Event)
    requires e.Request? && e.n in s && Legal(s, e)
    ensures var (config, member, w, r) := (s[e.n].config, Asker(s, e), e.w, Saving(s, e));
            && (r.Some? <==> (HasIdentity(member) ==> w.sameIdentity) && (Served(config, member, w) ==> w.certified))
            && (r.Some? ==> SavedRight(s, e, r.value))
  {
    hide Prepared, Versioned, Answer, Cleaned, SignOnExpired, HasIdentity, Known, Expired, Authorized, SavedRight, Public;
    var (config, member, w) := (s[e.n].config, Asker(s, e), e.w);
    PreparedIs(config, member, w);
    KnownField(member, w.now, "authorized");
    SignOnIs(config, member, w);
    if FateOf(config, member, w) == TurnedAway {
      TurnedAwayIs(s, e);
    } else if FateOf(config, member, w) == Granted {
      GrantedIs(s, e);
    }
  }

  lemma TurnedAwayIs(s: Store, e: Event)
    requires e.Request? && e.n in s && Legal(s, e) && !Served(s[e.n].config, Asker(s, e), e.w)
    ensures SavedRight(s, e, Cleaned(Prepared(s[e.n].config, Asker(s, e), e.w)))
  {
    hide Prepared, Cleaned, HasIdentity, Items, Served, Authorized, Public;
    var m := Prepared(s[e.n].config, Asker(s, e), e.w);
    PreparedIs(s[e.n].config, Asker(s, e), e.w);
    PreparedFacts(s[e.n].config, Asker(s, e), e.w);
    CleanedIs(m);
    ItemsByField(Cleaned(m), m);
    AuthorizedByField(Cleaned(m), m);
  }

  /** What assignment, versions and cleaning make of a record. */
  lemma GrantedFields(s: Store, e: Event, m: Json)
    requires e.Request? && e.n in s && e.q.address < 0x100_0000_0000 && m.Object? && HasRevision(m)
    ensures var (r, w) := (Cleaned(Answer(s, e.n, Versioned(m, e.w), e.routes, e.shown, e.q)), e.w);
            && HasRevision(r) && r.fields.Keys !! COMPUTED
            && Items(r) == Assigned(Env(e.routes, s[e.n].allocatedIps, e.shown), e.q, Items(m))
            && (w.versions.Some? ==>
                  && Field(r, "vMajor") == Number(w.versions.value.major) && Field(r, "vMinor") == Number(w.versions.value.minor)
                  && Field(r, "vRev") == Number(w.versions.value.rev) && Field(r, "vProto") == Number(w.versions.value.proto))
            && (forall name :: name !in {"vMajor", "vMinor", "vRev", "vProto", "ipAssignments"} && name !in COMPUTED ==>
                  Field(r, name) == Field(m, name))
  {
    hide Versioned, Answer, Cleaned, Items, Assigned;
    VersionedIs(m, e.w);
    ItemsByField(Versioned(m, e.w), m);
    AnswerIs(s, e, Versioned(m, e.w));
    var a := Answer(s, e.n, Versioned(m, e.w), e.routes, e.shown, e.q);
    CleanedIs(a);
    ItemsByField(Cleaned(a), a);
  }

  lemma GrantedIs(s: Store, e: Event)
    requires e.Request? && e.n in s && Legal(s, e) && Served(s[e.n].config, Asker(s, e), e.w)
    ensures SavedRight(s, e, Cleaned(Answer(s, e.n, Versioned(Prepared(s[e.n].config, Asker(s, e), e.w), e.w), e.routes, e.shown, e.q)))
  {
    hide Prepared, Versioned, Answer, Cleaned, HasIdentity, Items, Served, Authorized, Public, Assigned;
    var m := Prepared(s[e.n].config, Asker(s, e), e.w);
    PreparedIs(s[e.n].config, Asker(s, e), e.w);
    PreparedFacts(s[e.n].config, Asker(s, e), e.w);
    GrantedFields(s, e, m);
    AuthorizedByField(Cleaned(Answer(s, e.n, Versioned(m, e.w), e.routes, e.shown, e.q)), m);
  }

  lemma ItemsByField(a: Json, b: Json)
    ensures Field(a, "ipAssignments") == Field(b, "ipAssignments") ==> Items(a) == Items(b)
  {
  }

  lemma AuthorizedByField(a: Json, b: Json)
    ensures Field(a, "authorized") == Field(b, "authorized") ==> (Authorized(a) <==> Authorized(b))
  {
  }

  /** The record is right for the request and what was stored before. */
  predicate SavedRight(s: Store, e: Event, r: Json)
    requires e.Request? && e.n in s && e.q.address < 0x100_0000_0000
  {
    var (config, member, w) := (s[e.n].config, Asker(s, e), e.w);
    && HasRevision(r) && r.fields.Keys !! COMPUTED
    && IsText(Field(r, "objtype"), "member") && Id(r) == w.id.hex && Nwid(r) == w.nwid.hex
    && (Authorized(r) <==> Authorized(member) || Public(config) || w.token.Some?)
    && Field(r, "identity") == (if HasIdentity(member) then Field(member, "identity") else Str(w.identity))
    && Items(r) == (if Served(config, member, w)
                    then Assigned(Env(e.routes, s[e.n].allocatedIps, e.shown), e.q, Items(member)) else Items(member))
    && (Served(config, member, w) && w.versions.Some? ==>
          && Field(r, "vMajor") == Number(w.versions.value.major) && Field(r, "vMinor") == Number(w.versions.value.minor)
          && Field(r, "vRev") == Number(w.versions.value.rev) && Field(r, "vProto") == Number(w.versions.value.proto))
    && (!Authorized(member) && Authorized(r) ==> AdmissionNoted(config, r, w))
    && (forall name :: member.Object? && name in member.fields && name !in SET && name !in COMPUTED ==>
          Field(r, name) == member.fields[name])
  }

  // ---- the store afterwards ----

  /** Up to its revision the stored record is the saved one; nothing else in the store changes. */
  lemma StoredIs(s: Store, e: Event)
    requires StoreConsistent(s) && Legal(s, e) && e.Request? && Config(s, e.n).Object?
    ensures e.n in s
    ensures StoreConsistent(Handle(s, e))
    ensures forall k :: k != MemKey(e.n, e.q.address) ==> Lookup(Handle(s, e), k) == Lookup(s, k)
    ensures Saving(s, e).None? || e.q.address == 0 ==> Handle(s, e) == s
    ensures Saving(s, e).Some? && e.q.address != 0 ==> Alike(Asker(Handle(s, e), e), Saving(s, e).value)
  {
    hide StoreConsistent, Saving, Save, Names, Fits, Alike, SavedRight, Bump, Differs;
    if Saving(s, e).Some? {
      var r := Saving(s, e).value;
      SavingIs(s, e);
      NetworkNotZero(s, e.n);
      SavedKeys(s, e, r);
      if e.q.address == 0 {
        NothingSaved(s, r);
      } else {
        var k := MemKey(e.n, e.q.address);
        SaveLookups(s, k, r);
        FitsFacts(k, r);
        DiffersIsUnlike(s, k, r);
        BumpFits(k, r);
        assert Lookup(Handle(s, e), k) == Asker(Handle(s, e), e) && Lookup(s, k) == Asker(s, e);
      }
    }
  }

  lemma NetworkNotZero(s: Store, n: U64)
    requires StoreConsistent(s) && n in s
    ensures n != 0
  {
    assert Keyed(n, s[n]);
  }

  lemma SavedKeys(s: Store, e: Event, r: Json)
    requires e.Request? && e.n in s && Legal(s, e) && SavedRight(s, e, r) && e.n != 0
    ensures r.Object? && HasRevision(r) && IsText(Field(r, "objtype"), "member") && Id(r) == e.q.address
    ensures e.q.address != 0 ==> Names(MemKey(e.n, e.q.address), r)
  {
  }

  /** A record without an identifier is not stored. */
  lemma NothingSaved(s: Store, r: Json)
    requires IsText(Field(r, "objtype"), "member") && Id(r) == 0
    ensures Save(s, r).store == s
  {
  }

  lemma AlikeFields(a: Json, b: Json, name: string)
    requires Alike(a, b) && b.Object? && name != "revision"
    ensures a.Object? && Field(a, name) == Field(b, name)
  {
    assert Field(Content(a), name) == Field(a, name) && Field(Content(b), name) == Field(b, name);
  }

  /** After a request that was saved, the member is authorized if and only if it was before, the network is public or it presented a token. */
  lemma AuthorizedAfterIff(s: Store, e: Event)
    requires StoreConsistent(s) && Legal(s, e) && e.Request? && Config(s, e.n).Object? && e.q.address != 0
    requires (HasIdentity(Asker(s, e)) ==> e.w.sameIdentity) && (Served(Config(s, e.n), Asker(s, e), e.w) ==> e.w.certified)
    ensures Authorized(Asker(Handle(s, e), e)) <==> Authorized(Asker(s, e)) || Public(Config(s, e.n)) || e.w.token.Some?
  {
    hide StoreConsistent, Saving, Handle, Alike, HasIdentity, Expired;
    StoredIs(s, e);
    SavingIs(s, e);
    AlikeFields(Asker(Handle(s, e), e), Saving(s, e).value, "authorized");
  }

  /** It holds what it held, and what was assigned if it is served; the identity it was known by stays. */
  lemma AssignedAfter(s: Store, e: Event)
    requires StoreConsistent(s) && Legal(s, e) && e.Request? && Config(s, e.n).Object? && e.q.address != 0
    ensures var (was, now) := (Asker(s, e), Asker(Handle(s, e), e));
            if HasIdentity(was) && !e.w.sameIdentity then now == was
            else if !Served(Config(s, e.n), was, e.w) then Items(now) == Items(was)
            else if !e.w.certified then now == was
            else Items(now) == Assigned(Env(e.routes, s[e.n].allocatedIps, e.shown), e.q, Items(was))
    ensures HasIdentity(Asker(s, e)) ==> Field(Asker(Handle(s, e), e), "identity") == Field(Asker(s, e), "identity")
  {
    hide StoreConsistent, Saving, Handle, Alike, HasIdentity, Expired, Authorized, Assigned;
    StoredIs(s, e);
    SavingIs(s, e);
    if Saving(s, e).Some? {
      AlikeFields(Asker(Handle(s, e), e), Saving(s, e).value, "ipAssignments");
      AlikeFields(Asker(Handle(s, e), e), Saving(s, e).value, "identity");
      ItemsByField(Asker(Handle(s, e), e), Saving(s, e).value);
    }
  }

  // ---- runs ----

  /** Requests one after the other, the first one first. */
  function After(s: Store, events: seq<Event>): Store
    decreases |events|
  {
    if events == [] then s else After(Handle(s, events[0]), events[1..])
  }

  /** Requests that present no valid token. */
  ghost predicate Tokenless(s: Store, events: seq<Event>) {
    forall i :: 0 <= i < |events| ==> events[i].Request? && events[i].w.token.None? && Legal(s, events[i])
  }

  /**
   One request without a token, by a member that is not authorized, on a private network: it does not
   become authorized and gets no address; nobody else changes.
   */
  lemma NobodyAdmitted(s: Store, e: Event, n: U64, id: U64)
    requires StoreConsistent(s) && Legal(s, e) && e.Request? && e.w.token.None? && !Public(Config(s, n))
    requires !Authorized(Member(s, n, id))
    ensures StoreConsistent(Handle(s, e)) && Config(Handle(s, e), n) == Config(s, n)
    ensures !Authorized(Member(Handle(s, e), n, id)) && Items(Member(Handle(s, e), n, id)) == Items(Member(s, n, id))
  {
    hide StoreConsistent, Saving, Handle, Expired, HasIdentity;
    if Config(s, e.n).Object? {
      StoredIs(s, e);
      assert Lookup(Handle(s, e), NetKey(n)) == Lookup(s, NetKey(n));
      if n == e.n && id == e.q.address && id != 0 && Saving(s, e).Some? {
        SavingIs(s, e);
        AuthorizedAfterIff(s, e);
        AssignedAfter(s, e);
      } else {
        assert MemKey(n, id) != MemKey(e.n, e.q.address) ==> Lookup(Handle(s, e), MemKey(n, id)) == Lookup(s, MemKey(n, id));
      }
    } else {
      UnknownIgnored(s, e);
    }
  }

  lemma UnknownIgnored(s: Store, e: Event)
    requires e.Request? && !Config(s, e.n).Object?
    ensures Handle(s, e) == s
  {
  }

  /** No run of requests without tokens authorizes anybody on a private network, or gives addresses to anybody not authorized. */
  lemma {:induction false} NobodyEverAdmitted(s: Store, events: seq<Event>, n: U64, id: U64)
    requires StoreConsistent(s) && Tokenless(s, events) && !Public(Config(s, n)) && !Authorized(Member(s, n, id))
    ensures var t := After(s, events);
            !Authorized(Member(t, n, id)) && Items(Member(t, n, id)) == Items(Member(s, n, id))
    decreases |events|
  {
    hide StoreConsistent, Handle, Items, Authorized, Public;
    if events != [] {
      NobodyAdmitted(s, events[0], n, id);
      LegalAnywhere(s, Handle(s, events[0]), events[1..]);
      NobodyEverAdmitted(Handle(s, events[0]), events[1..], n, id);
    }
  }

  /** Whether a request is legal does not depend on the store. */
  lemma LegalAnywhere(s: Store, t: Store, events: seq<Event>)
    requires forall i :: 0 <= i < |events| ==> events[i].Request? && events[i].w.token.None? && Legal(s, events[i])
    ensures Tokenless(t, events)
  {
    forall i | 0 <= i < |events|
      ensures Legal(t, events[i])
    {
      assert Legal(s, events[i]);
    }
  }
}
