/**
 The periodic pass of a mirror set, seen under one key: the stores in turn offer their record
 to all others, and each takes an offered record it lacks or has only in an older version.
 Two stores agree after one pass and three after two, ties apart; four may never come to rest,
 but any number agree, ties apart, once they do.
 */
module MirrorPass {
  import opened Common
  import opened Records
  import opened Ranks

  /** Two stored records are equal up to their revisions. */
  predicate Alike(a: Json, b: Json) { Content(a) == Content(b) }

  /** A save stores the record, its revision advanced, unless an alike record is there already. */
  function Stored(b: Json, r: Json): Json
    requires r.Object?
  {
    if Alike(b, r) then b else Bump(r)
  }

  // ---- the pass, one key at a time ----

  /** What a store holding b has after being offered a. */
  function Offered(a: Json, b: Json): Json {
    if a.Object? && (!b.Object? || Revision(b) < Revision(a)) then Stored(b, a) else b
  }

  /** The store that holds v[i] offers it to all others. */
  function OfferFrom(v: seq<Json>, i: nat): (w: seq<Json>)
    requires i < |v|
    ensures |w| == |v|
  {
    seq(|v|, j requires 0 <= j < |v| => if j == i then v[j] else Offered(v[i], v[j]))
  }

  /** The first m stores in turn offer what they hold. */
  function Passed(v: seq<Json>, m: nat): (w: seq<Json>)
    requires m <= |v|
    ensures |w| == |v|
  {
    if m == 0 then v else OfferFrom(Passed(v, m - 1), m - 1)
  }

  // ---- what a pass achieves ----

  /** Nothing stored, or a record that carries its revision. */
  predicate Entry(j: Json) { j == Null || HasRevision(j) }

  /** a would replace b: b is missing, or older and different. */
  predicate Newer(a: Json, b: Json) {
    a.Object? && (!b.Object? || (Revision(b) < Revision(a) && !Alike(a, b)))
  }

  /** No record is newer than another: a pass has nothing to do. */
  predicate Still(v: seq<Json>) {
    forall i, j :: 0 <= i < |v| && 0 <= j < |v| && i != j ==> !Newer(v[i], v[j])
  }

  /** All stores hold records, and all of these have one revision. */
  predicate Level(v: seq<Json>) {
    && (forall j :: 0 <= j < |v| ==> v[j].Object?)
    && forall i, j :: 0 <= i < |v| && 0 <= j < |v| ==> Revision(v[i]) == Revision(v[j])
  }

  /** All stores hold alike records, or none holds one. */
  predicate InAgreement(v: seq<Json>) {
    forall i, j :: 0 <= i < |v| && 0 <= j < |v| ==> v[i].Object? == v[j].Object? && Alike(v[i], v[j])
  }

  /** How far a record has come: absent counts least, then the revisions. */
  function Age(j: Json): nat { if j.Object? then 1 + Revision(j) else 0 }

  /** Stored entries whose counters can still advance room times without wrapping. */
  predicate Unwrapped(v: seq<Json>, room: nat) {
    forall j :: 0 <= j < |v| ==> Entry(v[j]) && Age(v[j]) + room <= WORD64
  }

  lemma OfferAges(a: Json, b: Json, room: nat)
    requires Entry(a) && Entry(b) && 0 < room && Age(a) + room <= WORD64
    ensures Newer(a, b) <==> Offered(a, b) != b
    ensures Newer(a, b) ==> Age(b) < Age(Offered(a, b)) <= Age(a) + 1
    ensures Entry(Offered(a, b))
  {
    hide Content, Revision;
    if a.Object? {
      BumpKeepsContent(a);
    }
  }

  lemma OfferedIs(a: Json, b: Json)
    requires Entry(a) && Entry(b) && Age(a) < WORD64
    ensures var r := Offered(a, b);
            && Entry(r) && r.Object? == (a.Object? || b.Object?)
            && (if Newer(a, b) then Alike(r, a) && Revision(r) == Revision(a) + 1 else r == b)
  {
    hide Content, Revision;
    if a.Object? {
      BumpKeepsContent(a);
    }
  }

  lemma OfferAt(v: seq<Json>, i: nat, j: nat)
    requires i < |v| && j < |v|
    ensures OfferFrom(v, i)[j] == if j == i then v[j] else Offered(v[i], v[j])
  {
  }

  /** One store's turn moves records only forward. */
  lemma TurnGrows(v: seq<Json>, i: nat, room: nat)
    requires i < |v| && Unwrapped(v, room) && 0 < room
    ensures Unwrapped(OfferFrom(v, i), room - 1)
    ensures forall j :: 0 <= j < |v| ==> v[j] == OfferFrom(v, i)[j] || Age(v[j]) < Age(OfferFrom(v, i)[j])
  {
    hide Age, Newer, Offered, Entry, OfferFrom;
    forall j | 0 <= j < |v|
      ensures Entry(OfferFrom(v, i)[j]) && Age(OfferFrom(v, i)[j]) + room - 1 <= WORD64
      ensures v[j] == OfferFrom(v, i)[j] || Age(v[j]) < Age(OfferFrom(v, i)[j])
    {
      OfferAt(v, i, j);
      OfferAges(v[i], v[j], room);
    }
  }

  /** Over a pass a record is never lost and a revision never goes back: every change advances it. */
  lemma {:induction false} PassGrows(v: seq<Json>, m: nat, n: nat, room: nat)
    requires m <= n <= |v| && n <= room && Unwrapped(v, room)
    ensures Unwrapped(Passed(v, n), room - n)
    ensures forall j :: 0 <= j < |v| ==> Passed(v, m)[j] == Passed(v, n)[j] || Age(Passed(v, m)[j]) < Age(Passed(v, n)[j])
  {
    hide Age, Entry, OfferFrom, Unwrapped;
    if n > 0 {
      PassGrows(v, if m < n then m else n - 1, n - 1, room);
      TurnGrows(Passed(v, n - 1), n - 1, room - n + 1);
    }
  }

  /**
   A pass over any number of stores changes nothing under a key if and only if no store has a
   record that is newer than another's and different, or missing there.
   */
  lemma PassIdleIff(v: seq<Json>)
    requires Unwrapped(v, |v|)
    ensures Passed(v, |v|) == v <==> Still(v)
  {
    hide Newer, Passed, Unwrapped;
    if Still(v) {
      IdleFrom(v, |v|);
    } else {
      var i, j :| 0 <= i < |v| && 0 <= j < |v| && i != j && Newer(v[i], v[j]);
      FirstOffer(v, i, j);
    }
  }

  /** Where no record is newer than another, the stores agree or all hold records of one revision. */
  lemma StillIff(v: seq<Json>, room: nat)
    requires Unwrapped(v, room)
    ensures Still(v) <==> InAgreement(v) || Level(v)
  {
    hide Revision, Content;
    if Still(v) {
      if i, j :| 0 <= i < |v| && 0 <= j < |v| && !(v[i].Object? == v[j].Object? && Alike(v[i], v[j])) {
        assert v[i].Object? && v[j].Object? && Revision(v[i]) == Revision(v[j]);
        forall c | 0 <= c < |v|
          ensures v[c].Object? && Revision(v[c]) == Revision(v[i])
        {
          assert !Newer(v[i], v[c]) || c == i;
          assert c != i && c != j ==> !Newer(v[c], v[i]) && !Newer(v[c], v[j]) && !Newer(v[j], v[c]);
        }
      }
    }
  }

  /**
   The states of a key in which passes come to rest: the stores agree, or all of them hold
   records and the revisions of these are equal.
   */
  lemma AtRestIff(v: seq<Json>)
    requires Unwrapped(v, |v|)
    ensures Passed(v, |v|) == v <==> InAgreement(v) || Level(v)
  {
    hide Passed, Unwrapped, Still, InAgreement, Level;
    PassIdleIff(v);
    StillIff(v, |v|);
  }

  lemma {:induction false} IdleFrom(v: seq<Json>, m: nat)
    requires m <= |v|
    requires Still(v)
    ensures Passed(v, m) == v
  {
    hide Revision, Content;
    if m > 0 {
      IdleFrom(v, m - 1);
      assert OfferFrom(v, m - 1) == v;
    }
  }

  lemma FirstOffer(v: seq<Json>, i: nat, j: nat)
    requires Unwrapped(v, |v|)
    requires i < |v| && j < |v| && i != j && Newer(v[i], v[j])
    ensures Passed(v, |v|) != v
  {
    hide Newer, Offered, Entry, OfferFrom, Age;
    if Passed(v, |v|) == v {
      Unmoved(v, i);
      Unmoved(v, i + 1);
      OfferAt(v, i, j);
      OfferAges(v[i], v[j], |v|);
    }
  }

  lemma Unmoved(v: seq<Json>, m: nat)
    requires m <= |v| && Unwrapped(v, |v|) && Passed(v, |v|) == v
    ensures Passed(v, m) == v
  {
    hide Age, Unwrapped;
    PassGrows(v, 0, m, |v|);
    PassGrows(v, m, |v|, |v|);
    assert Passed(v, 0) == v;
  }

  /** Every record after a pass has the content of one that was there before. */
  lemma {:induction false} NothingInvented(v: seq<Json>, m: nat, j: nat)
    requires m <= |v| && j < |v|
    ensures Passed(v, m)[j].Object? ==> exists i :: 0 <= i < |v| && v[i].Object? && Alike(v[i], Passed(v, m)[j])
  {
    hide Content, Revision, OfferFrom;
    if m > 0 {
      var w := Passed(v, m - 1);
      NothingInvented(v, m - 1, j);
      NothingInvented(v, m - 1, m - 1);
      OfferAt(w, m - 1, j);
      if w[m - 1].Object? {
        BumpKeepsContent(w[m - 1]);
      }
    } else {
      assert v[j].Object? ==> Alike(v[j], v[j]);
    }
  }

  /** After a pass every store has a record under the key if any had one before. */
  lemma {:induction false} EveryoneHasIt(v: seq<Json>, m: nat, i: nat)
    requires m <= |v| && i < |v| && v[i].Object?
    ensures Passed(v, m)[i].Object?
    ensures i < m ==> forall j :: 0 <= j < |v| ==> Passed(v, m)[j].Object?
  {
    hide Content, Revision, Bump;
    if m > 0 {
      EveryoneHasIt(v, m - 1, i);
      assert Passed(v, m - 1)[i].Object?;
    }
  }

  /** If all records under a key are alike, after one pass all stores hold that record. */
  lemma AlikeSpreads(v: seq<Json>, i: nat)
    requires i < |v| && v[i].Object?
    requires forall j :: 0 <= j < |v| && v[j].Object? ==> Alike(v[i], v[j])
    ensures forall j :: 0 <= j < |v| ==> Passed(v, |v|)[j].Object? && Alike(v[i], Passed(v, |v|)[j])
  {
    hide Passed, Content;
    EveryoneHasIt(v, |v|, i);
    forall j | 0 <= j < |v|
      ensures Passed(v, |v|)[j].Object? && Alike(v[i], Passed(v, |v|)[j])
    {
      NothingInvented(v, |v|, j);
    }
  }

  // ---- any number of stores and passes ----

  /** The records after a number of passes. */
  function Rounds(v: seq<Json>, p: nat): (w: seq<Json>)
    ensures |w| == |v|
  {
    if p == 0 then v else Passed(Rounds(v, p - 1), |v|)
  }

  lemma OneMoreRound(v: seq<Json>, p: nat)
    ensures Rounds(v, p + 1) == Passed(Rounds(v, p), |v|)
  {
  }

  lemma {:induction false} RoundsGrow(v: seq<Json>, p: nat, room: nat)
    requires Unwrapped(v, room) && p * |v| <= room
    ensures Unwrapped(Rounds(v, p), room - p * |v|)
  {
    hide Unwrapped, Passed;
    if p > 0 {
      assert p * |v| == (p - 1) * |v| + |v|;
      RoundsGrow(v, p - 1, room);
      PassGrows(Rounds(v, p - 1), |v|, |v|, room - (p - 1) * |v|);
    }
  }

  /** A turn that ends with all revisions equal changed nothing: what it changes is one ahead of its source. */
  lemma LevelTurn(v: seq<Json>, i: nat)
    requires i < |v| && Unwrapped(v, 1) && Level(OfferFrom(v, i))
    ensures OfferFrom(v, i) == v
  {
    hide Revision, Offered, Newer, OfferFrom;
    var w := OfferFrom(v, i);
    OfferAt(v, i, i);
    forall j | 0 <= j < |v|
      ensures w[j] == v[j]
    {
      OfferAt(v, i, j);
      OfferedIs(v[i], v[j]);
    }
  }

  lemma {:induction false} LevelPass(v: seq<Json>, m: nat, room: nat)
    requires m <= |v| && m <= room && Unwrapped(v, room) && Level(Passed(v, m))
    ensures Passed(v, m) == v
  {
    hide Unwrapped, Level, OfferFrom;
    if m > 0 {
      PassGrows(v, 0, m - 1, room);
      LessRoom(Passed(v, m - 1), room - (m - 1), 1);
      LevelTurn(Passed(v, m - 1), m - 1);
      LevelPass(v, m - 1, room);
    }
  }

  lemma LessRoom(v: seq<Json>, room: nat, less: nat)
    requires Unwrapped(v, room) && less <= room
    ensures Unwrapped(v, less)
  {
  }

  lemma {:induction false} LevelRounds(v: seq<Json>, p: nat, room: nat)
    requires Unwrapped(v, room) && p * |v| <= room && Level(Rounds(v, p))
    ensures Rounds(v, p) == v
  {
    hide Unwrapped, Level, Passed;
    if p > 0 {
      assert p * |v| == (p - 1) * |v| + |v|;
      RoundsGrow(v, p - 1, room);
      LevelPass(Rounds(v, p - 1), |v|, room - (p - 1) * |v|);
      LevelRounds(v, p - 1, room);
    }
  }

  lemma {:induction false} StillRounds(v: seq<Json>, p: nat)
    requires Still(v)
    ensures Rounds(v, p) == v
  {
    hide Still;
    if p > 0 {
      StillRounds(v, p - 1);
      assert Passed(v, |v|) == v by { StillPass(v); }
    }
  }

  lemma StillPass(v: seq<Json>)
    requires Still(v)
    ensures Passed(v, |v|) == v
  {
    hide Newer;
    IdleFrom(v, |v|);
  }

  lemma StillRoundsAgreeIff(v: seq<Json>, p: nat, room: nat)
    requires Unwrapped(v, room) && p * |v| <= room && Still(Rounds(v, p))
    ensures InAgreement(Rounds(v, p)) <==> !Level(v) || InAgreement(v)
  {
    hide Unwrapped, Level, Still, InAgreement, Rounds;
    RoundsGrow(v, p, room);
    StillIff(Rounds(v, p), room - p * |v|);
    if Level(Rounds(v, p)) {
      LevelRounds(v, p, room);
    }
    StillIff(v, room);
    if Level(v) {
      StillRounds(v, p);
    }
  }

  /**
   Whenever any number of passes over any number of stores has come to rest, all stores hold
   alike records, or none, if and only if they did not start with records of one revision that
   are not all alike.
   */
  lemma AtRestAgreesIff(v: seq<Json>, p: nat)
    requires Unwrapped(v, (p + 1) * |v|) && Passed(Rounds(v, p), |v|) == Rounds(v, p)
    ensures InAgreement(Rounds(v, p)) <==> !Level(v) || InAgreement(v)
  {
    hide Unwrapped, Level, InAgreement, Rounds, Passed, Newer;
    assert (p + 1) * |v| == p * |v| + |v|;
    RoundsGrow(v, p, (p + 1) * |v|);
    PassIdleIff(Rounds(v, p));
    StillRoundsAgreeIff(v, p, (p + 1) * |v|);
  }

  /** Records of other contents than that of v[i] are more than gap behind it. */
  predicate Ahead(v: seq<Json>, i: nat, gap: nat)
    requires i < |v|
  {
    v[i].Object? && forall j :: 0 <= j < |v| && v[j].Object? && !Alike(v[j], v[i]) ==> Age(v[j]) + gap < Age(v[i])
  }

  lemma AheadTurn(v: seq<Json>, m: nat, i: nat, gap: nat)
    requires m < |v| && i < |v| && m != i && Unwrapped(v, 1) && Ahead(v, i, gap + 1)
    ensures OfferFrom(v, m)[i] == v[i] && Ahead(OfferFrom(v, m), i, gap)
  {
    hide Revision, Content, Offered, OfferFrom;
    var w := OfferFrom(v, m);
    OfferAt(v, m, i);
    OfferedIs(v[m], v[i]);
    forall j | 0 <= j < |v| && w[j].Object? && !Alike(w[j], w[i])
      ensures Age(w[j]) + gap < Age(w[i])
    {
      OfferAt(v, m, j);
      OfferedIs(v[m], v[j]);
    }
  }

  lemma {:induction false} AheadPass(v: seq<Json>, m: nat, i: nat, gap: nat, room: nat)
    requires m <= i < |v| && m <= gap && m <= room && Unwrapped(v, room) && Ahead(v, i, gap)
    ensures Passed(v, m)[i] == v[i] && Ahead(Passed(v, m), i, gap - m)
  {
    hide Unwrapped, Ahead, OfferFrom;
    if m > 0 {
      AheadPass(v, m - 1, i, gap, room);
      PassGrows(v, 0, m - 1, room);
      LessRoom(Passed(v, m - 1), room - (m - 1), 1);
      AheadTurn(Passed(v, m - 1), m - 1, i, gap - m);
    }
  }

  /** All stores hold records like a. */
  predicate AllLike(v: seq<Json>, a: Json) {
    forall j :: 0 <= j < |v| ==> v[j].Object? && Alike(v[j], a)
  }

  lemma AheadTakesAll(v: seq<Json>, i: nat)
    requires i < |v| && Unwrapped(v, 1) && Ahead(v, i, 0)
    ensures AllLike(OfferFrom(v, i), v[i])
  {
    hide Revision, Content, Offered, OfferFrom;
    forall j | 0 <= j < |v|
      ensures OfferFrom(v, i)[j].Object? && Alike(OfferFrom(v, i)[j], v[i])
    {
      OfferAt(v, i, j);
      OfferedIs(v[i], v[j]);
    }
  }

  lemma AllLikeIsStill(v: seq<Json>, a: Json)
    requires AllLike(v, a)
    ensures Still(v) && InAgreement(v)
  {
    hide Content, Revision;
  }

  lemma {:induction false} AllLikeStays(v: seq<Json>, m: nat, n: nat, a: Json)
    requires m <= n <= |v| && AllLike(Passed(v, m), a)
    ensures AllLike(Passed(v, n), a)
  {
    hide AllLike, OfferFrom;
    if m < n {
      AllLikeStays(v, m, n - 1, a);
      AllLikeTurn(Passed(v, n - 1), n - 1, a);
    }
  }

  lemma AllLikeTurn(v: seq<Json>, i: nat, a: Json)
    requires i < |v| && AllLike(v, a)
    ensures AllLike(OfferFrom(v, i), a)
  {
    hide Content, Revision;
  }

  /**
   If one store's record is far enough ahead of every different one, by more than the turns
   that come before its own, then from the first pass on all stores hold that record.
   */
  lemma AheadWins(v: seq<Json>, i: nat, p: nat)
    requires i < |v| && Unwrapped(v, |v|) && Ahead(v, i, i) && p > 0
    ensures AllLike(Rounds(v, p), v[i]) && InAgreement(Rounds(v, p)) && Rounds(v, p) == Passed(v, |v|)
  {
    hide Unwrapped, Ahead, AllLike, OfferFrom, Still, InAgreement;
    var w := Passed(v, |v|);
    AheadPass(v, i, i, i, |v|);
    PassGrows(v, 0, i, |v|);
    LessRoom(Passed(v, i), |v| - i, 1);
    AheadTakesAll(Passed(v, i), i);
    AllLikeStays(v, i + 1, |v|, v[i]);
    AllLikeIsStill(w, v[i]);
    assert Rounds(v, 0) == v && Rounds(v, 1) == w;
    StillFromThen(v, p);
  }

  lemma {:induction false} StillFromThen(v: seq<Json>, p: nat)
    requires p > 0 && Still(Passed(v, |v|))
    ensures Rounds(v, p) == Passed(v, |v|)
  {
    hide Still, Passed;
    if p == 1 {
      assert Rounds(v, 0) == v;
    } else {
      StillFromThen(v, p - 1);
      StillPass(Passed(v, |v|));
    }
  }

  // ---- stores that know a network without its configuration ----

  /**
   The store that holds v[i] offers it, unless it is mute: it knows the network of the key, but
   not its configuration. Such a store is offered members, but no configuration.
   */
  function OfferAmong(v: seq<Json>, mute: seq<bool>, net: bool, i: nat): (w: seq<Json>)
    requires i < |v| == |mute|
    ensures |w| == |v|
  {
    if mute[i] then v
    else seq(|v|, j requires 0 <= j < |v| => if j == i || (net && mute[j]) then v[j] else Offered(v[i], v[j]))
  }

  function PassedAmong(v: seq<Json>, mute: seq<bool>, net: bool, m: nat): (w: seq<Json>)
    requires m <= |v| == |mute|
    ensures |w| == |v|
  {
    if m == 0 then v else OfferAmong(PassedAmong(v, mute, net, m - 1), mute, net, m - 1)
  }

  /** The stores that are not mute, in order. */
  function Speakers(mute: seq<bool>): (s: seq<nat>)
  {
    if mute == [] then []
    else
      var n := |mute| - 1;
      Speakers(mute[..n]) + if mute[n] then [] else [n]
  }

  lemma {:induction false} SpeakersInOrder(mute: seq<bool>, m: nat)
    requires m <= |mute|
    ensures var s := Speakers(mute[..m]);
            && |s| == Rank(mute, false, m)
            && (forall r :: 0 <= r < |s| ==> s[r] < m && !mute[s[r]] && Rank(mute, false, s[r]) == r)
  {
    if m > 0 {
      SpeakersInOrder(mute, m - 1);
      assert mute[..m][..m - 1] == mute[..m - 1];
    }
  }

  lemma SpeakersFacts(mute: seq<bool>)
    ensures var s := Speakers(mute);
            && |s| == Rank(mute, false, |mute|)
            && (forall r :: 0 <= r < |s| ==> s[r] < |mute| && !mute[s[r]] && Rank(mute, false, s[r]) == r)
  {
    SpeakersInOrder(mute, |mute|);
    assert mute[..|mute|] == mute;
  }

  lemma {:induction false} SpeakerAt(mute: seq<bool>, i: nat, m: nat)
    requires i < m <= |mute| && !mute[i]
    ensures Rank(mute, false, i) < |Speakers(mute[..m])| && Speakers(mute[..m])[Rank(mute, false, i)] == i
  {
    SpeakersInOrder(mute, m - 1);
    assert mute[..m][..m - 1] == mute[..m - 1];
    if i < m - 1 {
      SpeakerAt(mute, i, m - 1);
    }
  }

  /** What the stores that are not mute hold. */
  function Voices(v: seq<Json>, mute: seq<bool>): (w: seq<Json>)
    requires |v| == |mute|
    ensures |w| == |Speakers(mute)|
  {
    SpeakersFacts(mute);
    seq(|Speakers(mute)|, r requires 0 <= r < |Speakers(mute)| => v[Speakers(mute)[r]])
  }

  lemma TurnOfVoices(v: seq<Json>, mute: seq<bool>, net: bool, i: nat)
    requires i < |v| == |mute| && !mute[i]
    ensures var r := Rank(mute, false, i);
            r < |Voices(v, mute)| && Voices(OfferAmong(v, mute, net, i), mute) == OfferFrom(Voices(v, mute), r)
  {
    hide Offered, Speakers;
    SpeakersFacts(mute);
    SpeakerAt(mute, i, |mute|);
    assert mute[..|mute|] == mute;
  }

  /** Mute stores have no effect on the others: these pass their records among themselves. */
  lemma {:induction false} VoicesPass(v: seq<Json>, mute: seq<bool>, net: bool, m: nat)
    requires m <= |v| == |mute|
    ensures var r := Rank(mute, false, m);
            r <= |Voices(v, mute)| && Voices(PassedAmong(v, mute, net, m), mute) == Passed(Voices(v, mute), r)
  {
    hide Voices, OfferAmong, OfferFrom, Speakers;
    SpeakersFacts(mute);
    if m > 0 {
      VoicesPass(v, mute, net, m - 1);
      if !mute[m - 1] {
        TurnOfVoices(PassedAmong(v, mute, net, m - 1), mute, net, m - 1);
      } else {
        MuteTurn(PassedAmong(v, mute, net, m - 1), mute, net, m - 1);
      }
    }
  }

  lemma VoicesPassAll(v: seq<Json>, mute: seq<bool>, net: bool)
    requires |v| == |mute|
    ensures Voices(PassedAmong(v, mute, net, |v|), mute) == Passed(Voices(v, mute), |Voices(v, mute)|)
  {
    hide PassedAmong, Passed, Speakers;
    VoicesPass(v, mute, net, |v|);
    SpeakersFacts(mute);
  }

  lemma AllVoices(v: seq<Json>, mute: seq<bool>)
    requires |v| == |mute| && forall j :: 0 <= j < |mute| ==> !mute[j]
    ensures Voices(v, mute) == v
  {
    hide Speakers;
    SpeakersFacts(mute);
    RankOfAll(mute, |mute|);
    assert mute[..|mute|] == mute;
    forall j | 0 <= j < |v|
      ensures Voices(v, mute)[j] == v[j]
    {
      SpeakerAt(mute, j, |mute|);
      RankOfAll(mute, j);
    }
  }

  lemma {:induction false} RankOfAll(mute: seq<bool>, m: nat)
    requires m <= |mute| && forall j :: 0 <= j < |mute| ==> !mute[j]
    ensures Rank(mute, false, m) == m
  {
    if m > 0 {
      RankOfAll(mute, m - 1);
    }
  }

  lemma MuteTurn(v: seq<Json>, mute: seq<bool>, net: bool, i: nat)
    requires i < |v| == |mute| && mute[i]
    ensures OfferAmong(v, mute, net, i) == v
  {
  }

  /** A mute store never gets the configuration. */
  lemma {:induction false} MuteStaysMute(v: seq<Json>, mute: seq<bool>, m: nat, j: nat)
    requires m <= |v| == |mute| && j < |v| && mute[j]
    ensures PassedAmong(v, mute, true, m)[j] == v[j]
  {
    hide Offered;
    if m > 0 {
      MuteStaysMute(v, mute, m - 1, j);
    }
  }

  /**
   After a pass exactly the stores that are not mute have the configuration, if any store had it
   before.
   */
  lemma ConfiguredIff(v: seq<Json>, mute: seq<bool>, j: nat)
    requires |v| == |mute| && j < |v| && forall i :: 0 <= i < |v| && mute[i] ==> v[i] == Null
    ensures PassedAmong(v, mute, true, |v|)[j].Object? <==> !mute[j] && exists i :: 0 <= i < |v| && v[i].Object?
  {
    hide Passed, PassedAmong, Speakers;
    if mute[j] {
      MuteStaysMute(v, mute, |v|, j);
    } else {
      var (w, x) := (Voices(v, mute), PassedAmong(v, mute, true, |v|));
      VoicesPass(v, mute, true, |v|);
      SpeakersFacts(mute);
      assert mute[..|mute|] == mute;
      SpeakerAt(mute, j, |mute|);
      var r := Rank(mute, false, j);
      assert Voices(x, mute)[r] == x[j];
      if i :| 0 <= i < |v| && v[i].Object? {
        SpeakerAt(mute, i, |mute|);
        EveryoneHasIt(w, |w|, Rank(mute, false, i));
      }
      if x[j].Object? {
        NothingInvented(w, |w|, r);
      }
    }
  }

  // ---- two stores ----

  /** Alike records, or none. */
  predicate Agree(a: Json, b: Json) { a.Object? == b.Object? && Alike(a, b) }

  /** When two stores will agree: depends on which of them, if any, is mute. */
  predicate WillAgree(a: Json, b: Json, mute: seq<bool>, net: bool)
    requires |mute| == 2
  {
    if mute[0] && mute[1] then Agree(a, b)
    else if mute[0] then CatchesUp(a, b, net)
    else if mute[1] then CatchesUp(b, a, net)
    else !(a.Object? && b.Object? && Revision(a) == Revision(b) && !Alike(a, b))
  }

  /** A mute store, which is only offered members, comes to agree with the other. */
  predicate CatchesUp(mine: Json, other: Json, net: bool) {
    if net then !other.Object? else mine.Object? ==> other.Object? && (Alike(mine, other) || Revision(mine) < Revision(other))
  }

  /**
   After one pass two stores hold alike records under a key, or none, exactly as foretold: when
   neither is mute, if and only if they did not start with different records of equal revision.
   */
  lemma TwoStoresAgreeIff(a: Json, b: Json, mute: seq<bool>, net: bool)
    requires Entry(a) && Entry(b) && |mute| == 2 && (net && mute[0] ==> a == Null) && (net && mute[1] ==> b == Null)
    ensures var w := PassedAmong([a, b], mute, net, 2); Agree(w[0], w[1]) <==> WillAgree(a, b, mute, net)
  {
    hide Content, Revision, Bump;
    var v := [a, b];
    var w := OfferAmong(v, mute, net, 0);
    assert PassedAmong(v, mute, net, 0) == v && PassedAmong(v, mute, net, 1) == w;
    assert PassedAmong(v, mute, net, 2) == OfferAmong(w, mute, net, 1);
    if a.Object? {
      BumpKeepsContent(a);
      NullUnlike(a);
    }
    if b.Object? {
      BumpKeepsContent(b);
      NullUnlike(b);
    }
  }

  /** If two stores agree, a pass changes nothing. */
  lemma AgreeStaysPut(v: seq<Json>, mute: seq<bool>, net: bool)
    requires |v| == |mute| == 2 && Agree(v[0], v[1])
    ensures PassedAmong(v, mute, net, 2) == v
  {
    hide Content, Revision;
    assert PassedAmong(v, mute, net, 0) == v;
    assert OfferAmong(v, mute, net, 0) == v && OfferAmong(v, mute, net, 1) == v;
    assert PassedAmong(v, mute, net, 1) == v;
  }

  // ---- three stores ----

  /** No record is newer than another: a pass changes nothing. */
  predicate Rest(a: Json, b: Json, c: Json) {
    !Newer(a, b) && !Newer(a, c) && !Newer(b, a) && !Newer(b, c) && !Newer(c, a) && !Newer(c, b)
  }

  function AfterPass(a: Json, b: Json, c: Json): (Json, Json, Json) {
    var (b1, c1) := (Offered(a, b), Offered(a, c));
    var (a1, c2) := (Offered(b1, a), Offered(b1, c1));
    (Offered(c2, a1), Offered(c2, b1), c2)
  }

  lemma PassOfThree(a: Json, b: Json, c: Json)
    ensures var (a', b', c') := AfterPass(a, b, c); Passed([a, b, c], 3) == [a', b', c']
  {
    hide Offered;
    var v := [a, b, c];
    var (b1, c1) := (Offered(a, b), Offered(a, c));
    var (a1, c2) := (Offered(b1, a), Offered(b1, c1));
    assert Passed(v, 0) == v;
    assert Passed(v, 1) == OfferFrom(v, 0) == [a, b1, c1];
    assert Passed(v, 2) == OfferFrom([a, b1, c1], 1) == [a1, b1, c2];
    assert Passed(v, 3) == OfferFrom([a1, b1, c2], 2);
  }

  /** c is there, differs from b and has the revision r. */
  predicate Clash(b: Json, c: Json, r: int) {
    b.Object? && c.Object? && !Alike(b, c) && Revision(c) == r
  }

  /** What keeps a pass over three stores from settling a key. */
  predicate Unsettled(a: Json, b: Json, c: Json) {
    if Newer(b, a) then
      if Newer(a, c) then Revision(b) == Revision(a) + 1
      else Clash(b, c, Revision(b)) || Clash(b, c, Revision(b) + 1)
    else if Newer(a, b) then Clash(a, c, Revision(a) + 1)
    else
      && Alike(a, b) && Revision(a) != Revision(b)
      && Clash(a, c, if Revision(a) < Revision(b) then Revision(b) else Revision(a))
  }

  lemma OnePass(a: Json, b: Json, c: Json)
    requires Unwrapped([a, b, c], 3)
    ensures var (a', b', c') := AfterPass(a, b, c);
            Rest(a', b', c') <==> !Unsettled(a, b, c)
  {
    hide Content, Revision, Offered, Bump;
    var v := [a, b, c];
    assert Entry(v[0]) && Entry(v[1]) && Entry(v[2]);
    assert Age(v[0]) + 3 <= WORD64 && Age(v[1]) + 3 <= WORD64 && Age(v[2]) + 3 <= WORD64;
    var (b1, c1) := (Offered(a, b), Offered(a, c));
    var (a1, c2) := (Offered(b1, a), Offered(b1, c1));
    OfferedIs(a, b);
    OfferedIs(a, c);
    OfferedIs(b1, a);
    OfferedIs(b1, c1);
    OfferedIs(c2, a1);
    OfferedIs(c2, b1);
  }

  lemma SettledAfterPass(a: Json, b: Json, c: Json)
    requires Unwrapped([a, b, c], 6)
    ensures var (a', b', c') := AfterPass(a, b, c);
            !Unsettled(a', b', c')
  {
    hide Content, Revision, Offered, Bump;
    var v := [a, b, c];
    assert Entry(v[0]) && Entry(v[1]) && Entry(v[2]);
    assert Age(v[0]) + 6 <= WORD64 && Age(v[1]) + 6 <= WORD64 && Age(v[2]) + 6 <= WORD64;
    var (b1, c1) := (Offered(a, b), Offered(a, c));
    var (a1, c2) := (Offered(b1, a), Offered(b1, c1));
    OfferedIs(a, b);
    OfferedIs(a, c);
    OfferedIs(b1, a);
    OfferedIs(b1, c1);
    OfferedIs(c2, a1);
    OfferedIs(c2, b1);
  }

  lemma RestIsIdle(v: seq<Json>)
    requires |v| == 3 && Unwrapped(v, 3)
    ensures Passed(v, 3) == v <==> Rest(v[0], v[1], v[2])
  {
    hide Newer, Passed, Unwrapped;
    PassIdleIff(v);
  }

  lemma PassedThree(v: seq<Json>)
    requires |v| == 3
    ensures var (a, b, c) := AfterPass(v[0], v[1], v[2]); Passed(v, 3) == [a, b, c]
  {
    hide AfterPass;
    PassOfThree(v[0], v[1], v[2]);
    assert v == [v[0], v[1], v[2]];
  }

  /** With three stores one pass suffices if and only if it does not start unsettled. */
  lemma OnePassSettlesIff(v: seq<Json>)
    requires |v| == 3 && Unwrapped(v, 6)
    ensures var w := Passed(v, 3);
            Passed(w, 3) == w <==> !Unsettled(v[0], v[1], v[2])
  {
    hide Passed, Unsettled, Offered, AfterPass, Rest, Entry, Age;
    PassedThree(v);
    PassGrows(v, 0, 3, 6);
    RestIsIdle(Passed(v, 3));
    assert v == [v[0], v[1], v[2]];
    OnePass(v[0], v[1], v[2]);
  }

  /**
   Two passes bring any three stores to rest, and all three then hold alike records, or none,
   if and only if they did not start with records of one revision that are not all alike.
   */
  lemma ThreeStoresSettle(v: seq<Json>)
    requires |v| == 3 && Unwrapped(v, 6)
    ensures var w := Rounds(v, 2);
            Passed(w, 3) == w && (InAgreement(w) <==> !Level(v) || InAgreement(v))
  {
    hide Passed, Unsettled, AfterPass, Newer, Entry, Age, Level, InAgreement;
    var w := Passed(v, 3);
    var x := Passed(w, 3);
    assert Rounds(v, 0) == v && Rounds(v, 1) == w && Rounds(v, 2) == x;
    PassedThree(v);
    PassedThree(w);
    PassGrows(v, 0, 3, 6);
    assert v == [v[0], v[1], v[2]] && w == [w[0], w[1], w[2]];
    SettledAfterPass(v[0], v[1], v[2]);
    OnePass(w[0], w[1], w[2]);
    assert Still(x);
    StillPass(x);
    StillRoundsAgreeIff(v, 2, 6);
  }

  // ---- four stores ----

  /** The record under another revision. */
  function At(a: Json, r: U64): Json
    requires a.Object?
  {
    Object(a.fields["revision" := Number(r)])
  }

  lemma AtFacts(a: Json, r: U64)
    requires a.Object?
    ensures HasRevision(At(a, r)) && Revision(At(a, r)) == r && Alike(At(a, r), a)
    ensures Bump(At(a, r)) == At(a, (r + 1) % WORD64)
  {
    assert At(a, r).fields - {"revision"} == a.fields - {"revision"};
    assert Bump(At(a, r)).fields == At(a, (r + 1) % WORD64).fields;
  }

  lemma Wins(a: Json, r: U64, b: Json, s: U64)
    requires a.Object? && b.Object? && !Alike(a, b) && s < r && r + 1 < WORD64
    ensures Offered(At(a, r), At(b, s)) == At(a, r + 1)
  {
    hide Revision, Content, At, Bump;
    AtFacts(a, r);
    AtFacts(b, s);
  }

  lemma Keeps(a: Json, r: U64, b: Json, s: U64)
    requires a.Object? && b.Object? && (r <= s || Alike(a, b))
    ensures Offered(At(a, r), At(b, s)) == At(b, s)
  {
    hide Revision, Content, At, Bump;
    AtFacts(a, r);
    AtFacts(b, s);
  }

  lemma Fills(a: Json, r: U64)
    requires a.Object? && r + 1 < WORD64
    ensures Offered(At(a, r), Null) == At(a, r + 1)
  {
    hide Revision, Content, At, Bump;
    AtFacts(a, r);
    NullUnlike(At(a, r));
  }

  lemma NullUnlike(a: Json)
    requires a.Object?
    ensures !Alike(Null, a)
  {
  }

  /** A turn among four stores, one offer at a time. */
  lemma TurnOfFour(v: seq<Json>, i: nat)
    requires |v| == 4 && i < 4
    ensures OfferFrom(v, i) == [if i == 0 then v[0] else Offered(v[i], v[0]), if i == 1 then v[1] else Offered(v[i], v[1]),
                                if i == 2 then v[2] else Offered(v[i], v[2]), if i == 3 then v[3] else Offered(v[i], v[3])]
  {
    hide Offered;
  }

  lemma PassOfFour(v: seq<Json>, v1: seq<Json>, v2: seq<Json>, v3: seq<Json>, v4: seq<Json>)
    requires |v| == 4 && v1 == OfferFrom(v, 0) && v2 == OfferFrom(v1, 1) && v3 == OfferFrom(v2, 2) && v4 == OfferFrom(v3, 3)
    ensures Passed(v, 4) == v4
  {
    hide OfferFrom;
    assert Passed(v, 0) == v && Passed(v, 1) == v1 && Passed(v, 2) == v2 && Passed(v, 3) == v3;
  }

  /** Two contents that displace each other for ever. */
  function Cycle(a: Json, b: Json, r: U64): seq<Json>
    requires a.Object? && b.Object? && r + 2 < WORD64
  {
    [At(a, r + 1), At(b, r + 2), At(b, r), At(b, r + 1)]
  }

  /** After a pass the contents have changed places and the revisions have grown by two. */
  lemma CycleTurns(a: Json, b: Json, r: U64)
    requires a.Object? && b.Object? && !Alike(a, b) && r + 4 < WORD64
    ensures Passed(Cycle(a, b, r), 4) == Cycle(b, a, r + 2)
  {
    hide At, Alike, Offered, OfferFrom;
    var v := Cycle(a, b, r);
    var v1 := [At(a, r + 1), At(b, r + 2), At(a, r + 2), At(b, r + 1)];
    var v2 := [At(b, r + 3), At(b, r + 2), At(a, r + 2), At(b, r + 1)];
    var v3 := [At(b, r + 3), At(b, r + 2), At(a, r + 2), At(a, r + 3)];
    AlikeFlips(a, b);
    TurnOfFour(v, 0);
    Keeps(a, r + 1, b, r + 2);
    Wins(a, r + 1, b, r);
    Keeps(a, r + 1, b, r + 1);
    TurnOfFour(v1, 1);
    Wins(b, r + 2, a, r + 1);
    Keeps(b, r + 2, a, r + 2);
    Keeps(b, r + 2, b, r + 1);
    TurnOfFour(v2, 2);
    Keeps(a, r + 2, b, r + 3);
    Keeps(a, r + 2, b, r + 2);
    Wins(a, r + 2, b, r + 1);
    TurnOfFour(v3, 3);
    Keeps(a, r + 3, b, r + 3);
    Wins(a, r + 3, b, r + 2);
    Keeps(a, r + 3, a, r + 2);
    PassOfFour(v, v1, v2, v3, Cycle(b, a, r + 2));
  }

  lemma AlikeFlips(a: Json, b: Json)
    ensures Alike(a, b) == Alike(b, a) && Alike(a, a) && Alike(b, b)
  {
  }

  /** Four stores, one of them empty, the others with records of different revisions. */
  function Restless(a: Json, b: Json, r: U64): seq<Json>
    requires a.Object? && b.Object? && r + 2 < WORD64
  {
    [At(a, r), At(b, r + 1), Null, At(a, r + 2)]
  }

  lemma RestlessTurns(a: Json, b: Json, r: U64)
    requires a.Object? && b.Object? && !Alike(a, b) && r + 3 < WORD64
    ensures Passed(Restless(a, b, r), 4) == Cycle(b, a, r + 1)
  {
    hide At, Alike, Offered, OfferFrom;
    var v := Restless(a, b, r);
    var v1 := [At(a, r), At(b, r + 1), At(a, r + 1), At(a, r + 2)];
    var v2 := [At(b, r + 2), At(b, r + 1), At(a, r + 1), At(a, r + 2)];
    AlikeFlips(a, b);
    TurnOfFour(v, 0);
    Keeps(a, r, b, r + 1);
    Fills(a, r);
    Keeps(a, r, a, r + 2);
    TurnOfFour(v1, 1);
    Wins(b, r + 1, a, r);
    Keeps(b, r + 1, a, r + 1);
    Keeps(b, r + 1, a, r + 2);
    TurnOfFour(v2, 2);
    Keeps(a, r + 1, b, r + 2);
    Keeps(a, r + 1, b, r + 1);
    Keeps(a, r + 1, a, r + 2);
    TurnOfFour(v2, 3);
    Keeps(a, r + 2, b, r + 2);
    Wins(a, r + 2, b, r + 1);
    Keeps(a, r + 2, a, r + 1);
    PassOfFour(v, v1, v2, v2, Cycle(b, a, r + 1));
  }

  /** The restless stores after p + 1 passes. */
  function Turned(a: Json, b: Json, r: nat, p: nat): seq<Json>
    requires a.Object? && b.Object? && r + 2 * p + 3 < WORD64
  {
    if p % 2 == 0 then Cycle(b, a, r + 1 + 2 * p) else Cycle(a, b, r + 1 + 2 * p)
  }

  lemma TurnedAgain(a: Json, b: Json, r: nat, p: nat)
    requires a.Object? && b.Object? && !Alike(a, b) && r + 2 * p + 5 < WORD64
    ensures Passed(Turned(a, b, r, p), 4) == Turned(a, b, r, p + 1)
  {
    hide Passed, Alike, Cycle;
    AlikeFlips(a, b);
    var s := r + 1 + 2 * p;
    assert r + 1 + 2 * (p + 1) == s + 2;
    CycleTurns(a, b, s);
    CycleTurns(b, a, s);
  }

  lemma TurnedMoves(a: Json, b: Json, r: nat, p: nat)
    requires a.Object? && b.Object? && !Alike(a, b) && r + 2 * p + 5 < WORD64
    ensures var w := Turned(a, b, r, p); |w| == 4 && !InAgreement(w) && Passed(w, 4) != w
  {
    hide Passed, Alike, InAgreement;
    AlikeFlips(a, b);
    CycleMoves(a, b, r + 1 + 2 * p);
    CycleMoves(b, a, r + 1 + 2 * p);
  }

  lemma TurnedFirst(a: Json, b: Json, r: U64)
    requires a.Object? && b.Object? && !Alike(a, b) && r + 5 < WORD64
    ensures Rounds(Restless(a, b, r), 1) == Turned(a, b, r, 0)
  {
    hide Passed, Alike, Cycle;
    assert Rounds(Restless(a, b, r), 0) == Restless(a, b, r);
    RestlessTurns(a, b, r);
  }

  lemma {:induction false} FourRounds(a: Json, b: Json, r: U64, p: nat)
    requires a.Object? && b.Object? && !Alike(a, b) && r + 2 * p + 5 < WORD64
    ensures Rounds(Restless(a, b, r), p + 1) == Turned(a, b, r, p)
  {
    hide *;
    if p == 0 {
      TurnedFirst(a, b, r);
    } else {
      FourRounds(a, b, r, p - 1);
      TurnedAgain(a, b, r, p - 1);
      OneMoreRound(Restless(a, b, r), p);
      RestlessSize(a, b, r);
    }
  }

  lemma RestlessSize(a: Json, b: Json, r: U64)
    requires a.Object? && b.Object? && r + 2 < WORD64
    ensures |Restless(a, b, r)| == 4
  {
  }

  /** With four stores passes need never come to rest, even when no two revisions start equal. */
  lemma FourStoresNeverRest(a: Json, b: Json, r: U64, p: nat)
    requires a.Object? && b.Object? && !Alike(a, b) && r + 2 * p + 5 < WORD64
    ensures var w := Rounds(Restless(a, b, r), p + 1);
            |w| == 4 && w == Turned(a, b, r, p) && !InAgreement(w) && Passed(w, 4) != w
  {
    hide *;
    FourRounds(a, b, r, p);
    TurnedMoves(a, b, r, p);
  }

  lemma CycleMoves(a: Json, b: Json, r: U64)
    requires a.Object? && b.Object? && !Alike(a, b) && r + 4 < WORD64
    ensures Passed(Cycle(a, b, r), 4) != Cycle(a, b, r) && !InAgreement(Cycle(a, b, r))
  {
    hide At, Passed, Content;
    CycleTurns(a, b, r);
    AtFacts(a, r + 1);
    AtFacts(b, r + 3);
    AtFacts(b, r + 2);
    var v := Cycle(a, b, r);
    assert !Alike(v[0], v[1]);
    assert Passed(v, 4)[0] == At(b, r + 3);
  }

  /** Without room for the counters a pass can undo its own changes. */
  lemma WrappedPassReturns(a: Json, b: Json)
    requires a.Object? && b.Object? && !Alike(a, b)
    ensures var v := [At(a, WORD64 - 1), At(b, WORD64 - 1), At(b, 0)];
            Passed(v, 3) == v && Newer(v[0], v[2])
  {
    hide At, Alike, Offered, Revision;
    var last := WORD64 - 1;
    AlikeFlips(a, b);
    Keeps(a, last, b, last);
    Keeps(b, last, a, last);
    Wraps(a, b);
    Wraps(b, a);
    Keeps(b, last, b, last);
    Keeps(b, 0, a, last);
    Keeps(b, 0, b, last);
    var (x, y, z) := (At(a, last), At(b, last), At(b, 0));
    assert AfterPass(x, y, z) == (x, y, z);
    PassOfThree(x, y, z);
    AtFacts(a, last);
    AtFacts(b, 0);
    AlikeThrough(x, a, z, b);
  }

  lemma Wraps(a: Json, b: Json)
    requires a.Object? && b.Object? && !Alike(a, b)
    ensures Offered(At(a, WORD64 - 1), At(b, 0)) == At(a, 0)
  {
    hide Revision, Content, At, Bump;
    AtFacts(a, WORD64 - 1);
    AtFacts(b, 0);
  }

  lemma AlikeThrough(x: Json, a: Json, y: Json, b: Json)
    requires Alike(x, a) && Alike(y, b)
    ensures Alike(x, y) <==> Alike(a, b)
  {
  }
}
