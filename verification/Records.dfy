/**
 The JSON records of the controller, as far as the controller reads them, and the
 comparison that decides whether a save changes anything.
 */
module Records {
  import opened Common

  /** A parsed address with its port cleared; text that is no address parses to NoIp. */
  datatype Ip = NoIp | V4(host: U32) | V6(hi: U64, lo: U64)

  /** A string together with what the program's parsers read from it. */
  datatype Text = Text(chars: string, hex: U64, dec: U64, ip: Ip)

  datatype Json =
    | Null
    | Bool(b: bool)
    | Number(n: U64)
    | Str(t: Text)
    | Array(items: seq<Json>)
    | Object(fields: map<string, Json>)

  /** Indexing a record: a missing field reads as null. */
  function Field(j: Json, name: string): Json {
    if j.Object? && name in j.fields then j.fields[name] else Null
  }

  /**
   A record after the named fields were looked up in place: each one that was missing is there
   as a null, and null itself has become an object.
   */
  function Filled(j: Json, names: set<string>): Json {
    if j.Object? || j.Null? then
      Object(map name | name in (if j.Object? then j.fields.Keys else {}) + names :: Field(j, name))
    else j
  }

  lemma FilledTwice(j: Json, a: set<string>, b: set<string>)
    ensures Filled(Filled(j, a), b) == Filled(j, a + b)
  {
    if j.Object? || j.Null? {
      assert Filled(Filled(j, a), b).fields == Filled(j, a + b).fields;
    }
  }

  /** Looking fields up changes nothing that is read, and nothing at all if and only if they are there. */
  lemma FilledFacts(j: Json, names: set<string>)
    requires j.Object?
    ensures Filled(j, names).Object? && forall name :: Field(Filled(j, names), name) == Field(j, name)
    ensures Filled(j, names) == j <==> names <= j.fields.Keys
  {
    assert Filled(j, names).fields.Keys == j.fields.Keys + names;
    if names <= j.fields.Keys {
      assert Filled(j, names).fields == j.fields;
    }
  }

  function AsHex(j: Json): U64 {
    match j
    case Number(n) => n
    case Str(t) => t.hex
    case Bool(b) => if b then 1 else 0
    case _ => 0
  }

  function AsInt(j: Json): U64 {
    match j
    case Number(n) => n
    case Str(t) => t.dec
    case Bool(b) => if b then 1 else 0
    case _ => 0
  }

  predicate AsBool(j: Json, otherwise: bool := false) {
    match j
    case Bool(b) => b
    case Number(n) => n > 0
    case Str(t) => |t.chars| > 0 && t.chars[0] in {'t', 'T', '1'}
    case _ => otherwise
  }

  predicate IsText(j: Json, chars: string) {
    j.Str? && j.t.chars == chars
  }

  /**
   What the readers make of a value: numbers and booleans count as each other, strings as what they
   parse to, a string that begins with t, T or 1 as true, and anything else as nothing.
   */
  lemma ReadersAgree(j: Json, otherwise: bool)
    ensures j.Bool? ==> AsBool(j, otherwise) == j.b && AsHex(j) == AsInt(j) && (AsInt(j) == 1 <==> j.b) && AsInt(j) <= 1
    ensures j.Number? ==> (AsBool(j, otherwise) <==> j.n != 0) && AsHex(j) == AsInt(j) == j.n
    ensures j.Str? ==> AsHex(j) == j.t.hex && AsInt(j) == j.t.dec &&
                       (AsBool(j, otherwise) <==> exists c :: c in "tT1" && [c] <= j.t.chars)
    ensures j.Null? || j.Array? || j.Object? ==> AsBool(j, otherwise) == otherwise && AsHex(j) == AsInt(j) == 0
  {
    if j.Str? && j.t.chars != "" {
      assert [j.t.chars[0]] <= j.t.chars;
      assert j.t.chars[0] in "tT1" <==> j.t.chars[0] in {'t', 'T', '1'};
    }
  }

  /** The addresses among the strings of an array. */
  function IpsIn(items: seq<Json>): set<Ip> {
    set i | 0 <= i < |items| && items[i].Str? :: items[i].t.ip
  }

  /** The addresses assigned to a member. */
  function Ips(member: Json): set<Ip> {
    var ips := Field(member, "ipAssignments");
    if ips.Array? then IpsIn(ips.items) else {}
  }

  // ---- revisions ----

  function Revision(j: Json): U64 { AsInt(Field(j, "revision")) }

  predicate HasRevision(j: Json) { j.Object? && "revision" in j.fields }

  /** A record without its revision counter. */
  function Content(j: Json): (c: Json)
    ensures c.Object? <==> j.Object?
  {
    if j.Object? then Object(j.fields - {"revision"}) else j
  }

  /** The record with its counter advanced, modulo 2^64. */
  function Bump(j: Json): (r: Json)
    requires j.Object?
    ensures r.Object?
  {
    Object(j.fields["revision" := Number((Revision(j) + 1) % WORD64)])
  }

  lemma BumpKeepsContent(j: Json)
    requires j.Object?
    ensures Content(Bump(j)) == Content(j) && HasRevision(Bump(j))
    ensures Revision(Bump(j)) == (Revision(j) + 1) % WORD64
    ensures forall name :: name != "revision" ==> Field(Bump(j), name) == Field(j, name)
    ensures Ips(Bump(j)) == Ips(j)
  {
    assert Bump(j).fields - {"revision"} == j.fields - {"revision"};
  }

  lemma FilledContent(j: Json, names: set<string>)
    requires j.Object? && "revision" !in names
    ensures Content(Filled(j, names)) == Content(j) <==> names <= j.fields.Keys
  {
    FilledFacts(j, names);
    var (was, now) := (Content(j).fields, Content(Filled(j, names)).fields);
    assert forall k :: k in was <==> k in j.fields && k != "revision";
    assert forall k :: k in now <==> k in Filled(j, names).fields && k != "revision";
    if now == was {
      forall k | k in names
        ensures k in j.fields
      {
        assert k in now;
      }
    }
  }

  // ---- the comparison ----

  predicate Submap(a: map<string, Json>, b: map<string, Json>) {
    forall k :: k in a ==> k in b && b[k] == a[k]
  }

  /**
   What comparing two records decides: for objects, equality up to the revision, unless only
   the first has a revision; then it accepts exactly those with one field more than the first.
   */
  predicate Same(a: Json, b: Json) {
    if a.Object? && b.Object? && HasRevision(a) != HasRevision(b) then
      && HasRevision(a)
      && |Content(b).fields| == |Content(a).fields| + 1
      && Submap(Content(a).fields, Content(b).fields)
    else
      Content(a) == Content(b)
  }

  lemma SubmapOfSameSize(a: map<string, Json>, b: map<string, Json>)
    requires Submap(a, b) && |a| == |b|
    ensures a == b
  {
    assert |b.Keys| == |a.Keys| + |b.Keys - a.Keys|;
    assert |a| == |a.Keys| && |b| == |b.Keys|;
  }

  lemma SubmapIsNoLarger(a: map<string, Json>, b: map<string, Json>)
    requires Submap(a, b)
    ensures |a| <= |b|
  {
    assert a.Keys <= b.Keys && |b.Keys| == |a.Keys| + |b.Keys - a.Keys|;
    assert |a| == |a.Keys| && |b| == |b.Keys|;
  }

  lemma SizeWithoutRevision(j: Json)
    requires j.Object?
    ensures |j.fields| == |Content(j).fields| + (if HasRevision(j) then 1 else 0)
  {
    assert Content(j).fields.Keys == j.fields.Keys - {"revision"};
    if HasRevision(j) {
      assert j.fields.Keys == Content(j).fields.Keys + {"revision"};
    } else {
      assert j.fields.Keys == Content(j).fields.Keys;
    }
    assert |j.fields| == |j.fields.Keys| && |Content(j).fields| == |Content(j).fields.Keys|;
  }

  /** Equal sizes and containment of the content, which is what the loop checks, decide the predicate. */
  lemma SizeAndContainment(a: Json, b: Json)
    requires a.Object? && b.Object?
    ensures Same(a, b) <==> |a.fields| == |b.fields| && Submap(Content(a).fields, Content(b).fields)
  {
    SizeWithoutRevision(a);
    SizeWithoutRevision(b);
    var (ca, cb) := (Content(a).fields, Content(b).fields);
    if Submap(ca, cb) {
      SubmapIsNoLarger(ca, cb);
      if |ca| == |cb| {
        SubmapOfSameSize(ca, cb);
      }
    }
  }

  lemma SameOfOthers(a: Json, b: Json)
    requires !a.Object? || !b.Object?
    ensures Same(a, b) <==> a == b
  {
  }

  lemma ContentFields(a: Json)
    requires a.Object?
    ensures forall k :: k in Content(a).fields <==> k in a.fields && k != "revision"
    ensures forall k :: k in Content(a).fields ==> Content(a).fields[k] == a.fields[k]
  {
  }

  method CompareRecords(a: Json, b: Json) returns (same: bool)
    ensures same == Same(a, b)
  {
    hide Same, Content;
    if a.Object? == b.Object? {
      if a.Object? {
        SizeAndContainment(a, b);
        ContentFields(a);
        ContentFields(b);
        if |a.fields| != |b.fields| {
          return false;
        }
        var todo := a.fields.Keys;
        while todo != {}
          invariant todo <= a.fields.Keys
          invariant forall k :: k in Content(a).fields && k !in todo ==>
                      k in Content(b).fields && Content(b).fields[k] == Content(a).fields[k]
          decreases |todo|
        {
          var k :| k in todo;
          if k != "revision" {
            assert k in Content(a).fields;
            if k !in b.fields || b.fields[k] != a.fields[k] {
              return false;
            }
          }
          todo := todo - {k};
        }
        return true;
      }
      SameOfOthers(a, b);
      return a == b;
    }
    SameOfOthers(a, b);
    return false;
  }

  /**
   Against an object a, records that carry a revision, or records that do not, are compared by
   content throughout if and only if they are like a in carrying one.
   */
  lemma ComparesContentIff(a: Json, carries: bool)
    requires a.Object?
    ensures (forall b: Json :: b.Object? && HasRevision(b) == carries ==> (Same(a, b) <==> Content(a) == Content(b)))
            <==> HasRevision(a) == carries
  {
    if HasRevision(a) != carries {
      var bare := a.fields - {"revision"};
      var b := Object(if carries then bare["revision" := Null] else bare);
      assert Content(b).fields == bare;
      assert HasRevision(b) == carries && !Same(a, b);
    }
  }

  /** A record sent back without its revision and with one new field is taken for unchanged. */
  lemma AddedFieldOverlooked(a: Json, name: string, value: Json)
    requires HasRevision(a) && name !in a.fields
    ensures var b := Object((a.fields - {"revision"})[name := value]);
            Same(a, b) && Content(a) != Content(b)
  {
    var b := Object((a.fields - {"revision"})[name := value]);
    assert name != "revision" && name in Content(b).fields && name !in Content(a).fields;
    assert Content(b).fields == Content(a).fields[name := value];
    assert Content(b).fields.Keys == Content(a).fields.Keys + {name};
    assert |Content(b).fields| == |Content(b).fields.Keys|;
    assert |Content(a).fields| == |Content(a).fields.Keys|;
  }
}
