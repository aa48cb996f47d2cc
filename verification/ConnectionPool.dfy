/**
 The pool of database connections: clients borrow a connection, return it, or drop it, and a
 connection that nobody refers to any more is replaced. References held outside the pool are
 part of the state, because the pool asks for them.
 */
module ConnectionPool {
  type Client = nat

  /** Connections are numbered in the order in which the factory makes them. */
  type Conn = nat

  datatype State = State(pool: seq<Conn>, borrowed: set<Conn>, avail: int, inUse: int,
                         refs: set<(Client, Conn)>, made: nat)

  datatype Limits = Limits(max: nat, min: nat)

  /** What a client gets from borrowing: a connection, or one of the two exceptions. */
  datatype Outcome = Got(conn: Conn) | Unavailable | FactoryFailed

  /**
   A client's action. Which of a borrow's attempts to make a connection fail, and which
   abandoned connection it meets first, are the environment's choice.
   */
  datatype Step =
    | Borrow(client: Client, fails: nat -> bool, victim: Conn)
    | Return(client: Client, conn: Conn)
    | Abandon(client: Client, conn: Conn)

  /** Nobody but the pool refers to the connection. */
  predicate Unique(s: State, c: Conn) {
    forall r :: r in s.refs ==> r.1 != c
  }

  function Total(s: State): nat { |s.pool| + |s.borrowed| }

  // ---- what each action does ----

  function WithNew(s: State): State {
    s.(pool := s.pool + [s.made], avail := s.avail + 1, made := s.made + 1)
  }

  /** Filling up to the minimum; attempt is the number of the next call of the factory. */
  function TopUp(s: State, l: Limits, fails: nat -> bool, attempt: nat): (State, bool, nat)
    decreases l.min - Total(s)
  {
    if Total(s) >= l.min then (s, true, attempt)
    else if fails(attempt) then (s, false, attempt)
    else TopUp(WithNew(s), l, fails, attempt + 1)
  }

  function LendNew(s: State, client: Client): State {
    s.(borrowed := s.borrowed + {s.made}, inUse := s.inUse + 1, refs := s.refs + {(client, s.made)}, made := s.made + 1)
  }

  function Replace(s: State, client: Client, victim: Conn): State {
    s.(borrowed := s.borrowed - {victim} + {s.made}, refs := s.refs + {(client, s.made)}, made := s.made + 1)
  }

  function LendFirst(s: State, client: Client): State
    requires |s.pool| > 0
  {
    s.(pool := s.pool[1..], avail := s.avail - 1, borrowed := s.borrowed + {s.pool[0]}, inUse := s.inUse + 1,
       refs := s.refs + {(client, s.pool[0])})
  }

  function Lend(s: State, l: Limits, client: Client, fails: nat -> bool, attempt: nat, victim: Conn): (State, Outcome) {
    if |s.pool| > 0 then (LendFirst(s, client), Got(s.pool[0]))
    else if Total(s) < l.max then
      if fails(attempt) then (s, Unavailable) else (LendNew(s, client), Got(s.made))
    else if victim in s.borrowed && Unique(s, victim) then
      if fails(attempt) then (s, Unavailable) else (Replace(s, client, victim), Got(s.made))
    else (s, Unavailable)
  }

  function Borrowed(s: State, l: Limits, client: Client, fails: nat -> bool, victim: Conn): (State, Outcome) {
    var (t, ok, attempt) := TopUp(s, l, fails, 0);
    if ok then Lend(t, l, client, fails, attempt, victim) else (t, FactoryFailed)
  }

  function Returned(s: State, l: Limits, client: Client, conn: Conn): State {
    var t := s.(borrowed := s.borrowed - {conn}, inUse := s.inUse - 1, refs := s.refs - {(client, conn)});
    if Total(t) < l.max then t.(pool := t.pool + [conn], avail := t.avail + 1) else t
  }

  /** Clients return or drop only what they hold. */
  function Do(s: State, l: Limits, step: Step): State {
    match step
    case Borrow(client, fails, victim) => Borrowed(s, l, client, fails, victim).0
    case Return(client, conn) => if (client, conn) in s.refs then Returned(s, l, client, conn) else s
    case Abandon(client, conn) => s.(refs := s.refs - {(client, conn)})
  }

  const EMPTY := State([], {}, 0, 0, {}, 0)

  /** A pool as constructed, when the factory does not fail. */
  function Constructed(l: Limits): State { TopUp(EMPTY, l, _ => false, 0).0 }

  function Run(l: Limits, steps: seq<Step>): State {
    if steps == [] then Constructed(l) else Do(Run(l, steps[..|steps| - 1]), l, steps[|steps| - 1])
  }

  // ---- the invariant ----

  /** Pool and borrowed share nothing, nothing is pooled twice, and the gauges are their sizes. */
  predicate Tidy(s: State) {
    && (forall i, j :: 0 <= i < j < |s.pool| ==> s.pool[i] != s.pool[j])
    && (forall c :: c in s.pool ==> c !in s.borrowed && c < s.made)
    && (forall c :: c in s.borrowed ==> c < s.made)
    && s.avail == |s.pool| && s.inUse == |s.borrowed|
  }

  /** What clients hold is borrowed, and by one client only. */
  predicate Exclusive(s: State) {
    && (forall r :: r in s.refs ==> r.1 in s.borrowed)
    && (forall r, q :: r in s.refs && q in s.refs && r.1 == q.1 ==> r.0 == q.0)
  }

  function Bound(l: Limits): nat { if l.min > l.max then l.min else l.max }

  predicate Valid(s: State, l: Limits) {
    Tidy(s) && Exclusive(s) && Total(s) <= Bound(l)
  }

  lemma WithNewValid(s: State, l: Limits)
    requires Valid(s, l) && Total(s) < l.min
    ensures var t := WithNew(s);
            Valid(t, l) && t.refs == s.refs && t.borrowed == s.borrowed && s.pool <= t.pool && Total(t) == Total(s) + 1
  {
    var t := WithNew(s);
    assert forall i :: 0 <= i < |s.pool| ==> s.pool[i] in s.pool && t.pool[i] == s.pool[i];
    assert forall c :: c in t.pool ==> c in s.pool || c == s.made;
  }

  lemma {:induction false} TopUpValid(s: State, l: Limits, fails: nat -> bool, attempt: nat)
    requires Valid(s, l)
    ensures var (t, ok, _) := TopUp(s, l, fails, attempt);
            && Valid(t, l) && t.refs == s.refs && t.borrowed == s.borrowed
            && (ok <==> Total(t) >= l.min) && (Total(t) > Total(s) ==> Total(t) <= l.min)
            && s.pool <= t.pool
    decreases l.min - Total(s)
  {
    hide Valid, WithNew;
    if Total(s) < l.min && !fails(attempt) {
      WithNewValid(s, l);
      TopUpValid(WithNew(s), l, fails, attempt + 1);
    }
  }

  lemma LendFirstValid(s: State, l: Limits, client: Client)
    requires Valid(s, l) && |s.pool| > 0
    ensures Valid(LendFirst(s, client), l)
  {
    var t := LendFirst(s, client);
    assert s.pool == [s.pool[0]] + t.pool;
    assert s.pool[0] in s.pool;
    assert forall c :: c in t.pool ==> c in s.pool && c != s.pool[0];
  }

  lemma LendNewValid(s: State, l: Limits, client: Client)
    requires Valid(s, l) && Total(s) < l.max
    ensures Valid(LendNew(s, client), l)
  {
  }

  lemma ReplaceValid(s: State, l: Limits, client: Client, victim: Conn)
    requires Valid(s, l) && victim in s.borrowed && Unique(s, victim)
    ensures Valid(Replace(s, client, victim), l)
  {
    var rest := s.borrowed - {victim};
    assert |rest| == |s.borrowed| - 1;
    assert s.made !in rest;
  }

  lemma LendValid(s: State, l: Limits, client: Client, fails: nat -> bool, attempt: nat, victim: Conn)
    requires Valid(s, l)
    ensures Valid(Lend(s, l, client, fails, attempt, victim).0, l)
  {
    hide Valid, LendFirst, LendNew, Replace;
    if |s.pool| > 0 {
      LendFirstValid(s, l, client);
    } else if Total(s) < l.max {
      LendNewValid(s, l, client);
    } else if victim in s.borrowed && Unique(s, victim) {
      ReplaceValid(s, l, client, victim);
    }
  }

  lemma ReturnValid(s: State, l: Limits, client: Client, conn: Conn)
    requires Valid(s, l) && (client, conn) in s.refs
    ensures Valid(Returned(s, l, client, conn), l)
  {
    assert (client, conn).1 in s.borrowed;
    assert |s.borrowed - {conn}| == |s.borrowed| - 1;
    var t := Returned(s, l, client, conn);
    assert forall c :: c in t.pool ==> c in s.pool || c == conn;
  }

  lemma StepValid(s: State, l: Limits, step: Step)
    requires Valid(s, l)
    ensures Valid(Do(s, l, step), l)
  {
    hide Valid, TopUp, Lend, Returned;
    match step
    case Borrow(client, fails, victim) =>
      TopUpValid(s, l, fails, 0);
      var (t, ok, attempt) := TopUp(s, l, fails, 0);
      LendValid(t, l, client, fails, attempt, victim);
    case Return(client, conn) =>
      if (client, conn) in s.refs {
        ReturnValid(s, l, client, conn);
      }
    case Abandon(client, conn) =>
      AbandonValid(s, l, client, conn);
  }

  lemma AbandonValid(s: State, l: Limits, client: Client, conn: Conn)
    requires Valid(s, l)
    ensures Valid(s.(refs := s.refs - {(client, conn)}), l)
  {
  }

  /** Every state of every interleaving is valid, for any behaviour of the factory and any order of reclaiming. */
  lemma {:induction false} RunValid(l: Limits, steps: seq<Step>)
    ensures Valid(Run(l, steps), l)
  {
    hide Do, TopUp;
    if steps == [] {
      TopUpValid(EMPTY, l, _ => false, 0);
    } else {
      RunValid(l, steps[..|steps| - 1]);
      StepValid(Run(l, steps[..|steps| - 1]), l, steps[|steps| - 1]);
    }
  }

  /** In all runs the pool stays within its maximum if and only if its minimum does. */
  lemma WithinMaxIff(l: Limits)
    ensures (forall steps :: Total(Run(l, steps)) <= l.max) <==> l.min <= l.max
  {
    hide TopUp, Do;
    if l.min <= l.max {
      forall steps
        ensures Total(Run(l, steps)) <= l.max
      {
        RunValid(l, steps);
      }
    } else {
      ConstructedSize(EMPTY, l, 0);
      assert Total(Run(l, [])) == l.min;
    }
  }

  lemma {:induction false} ConstructedSize(s: State, l: Limits, attempt: nat)
    requires Total(s) <= l.min
    ensures Total(TopUp(s, l, _ => false, attempt).0) == l.min
    decreases l.min - Total(s)
  {
    if Total(s) < l.min {
      ConstructedSize(WithNew(s), l, attempt + 1);
    }
  }

  // ---- what a borrow gives and takes ----

  /**
   The connection a client gets was held by nobody, and no connection somebody holds is
   taken out of use.
   */
  lemma BorrowIsSafe(s: State, l: Limits, client: Client, fails: nat -> bool, victim: Conn)
    requires Valid(s, l)
    ensures var (t, r) := Borrowed(s, l, client, fails, victim);
            && (r.Got? ==> Unique(s, r.conn) && r.conn in t.borrowed && t.refs == s.refs + {(client, r.conn)})
            && (!r.Got? ==> t.refs == s.refs)
            && forall q :: q in s.refs ==> q.1 in t.borrowed
  {
    hide TopUp;
    TopUpValid(s, l, fails, 0);
  }

  /**
   With a factory that does not fail, borrowing fails if and only if nothing is pooled, the
   maximum is reached and every borrowed connection is still held by a client.
   */
  lemma UnavailableIff(s: State, l: Limits, client: Client, victim: Conn)
    requires Valid(s, l)
    requires (exists c :: c in s.borrowed && Unique(s, c)) ==> victim in s.borrowed && Unique(s, victim)
    ensures var r := Borrowed(s, l, client, _ => false, victim).1;
            !r.Got? <==> |s.pool| == 0 && l.min <= |s.borrowed| && l.max <= |s.borrowed|
                         && forall c :: c in s.borrowed ==> exists r :: r in s.refs && r.1 == c
  {
    TopUpSucceeds(s, l, 0);
    TopUpValid(s, l, _ => false, 0);
  }

  lemma {:induction false} TopUpSucceeds(s: State, l: Limits, attempt: nat)
    ensures TopUp(s, l, _ => false, attempt).1
    ensures Total(s) < l.min ==> |TopUp(s, l, _ => false, attempt).0.pool| > |s.pool|
    ensures Total(s) >= l.min ==> TopUp(s, l, _ => false, attempt).0 == s
    decreases l.min - Total(s)
  {
    if Total(s) < l.min {
      TopUpSucceeds(WithNew(s), l, attempt + 1);
    }
  }

  /** While something is pooled, borrowing makes no connection beyond the minimum: it lends the one pooled longest. */
  lemma BorrowsPooled(s: State, l: Limits, client: Client, fails: nat -> bool, victim: Conn)
    requires |s.pool| > 0 && Total(s) >= l.min
    ensures var (t, r) := Borrowed(s, l, client, fails, victim);
            && r == Got(s.pool[0]) && t.pool == s.pool[1..] && t.borrowed == s.borrowed + {s.pool[0]}
            && t.made == s.made && (client, s.pool[0]) in t.refs
  {
  }

  /**
   A returned connection is pooled behind the others if and only if the rest leaves room below the
   maximum; the client has given it up, everybody else keeps what he holds, and nothing else moves.
   */
  lemma ReturnedIff(s: State, l: Limits, client: Client, conn: Conn)
    requires Valid(s, l) && (client, conn) in s.refs
    ensures var t := Returned(s, l, client, conn);
            && (conn in t.pool <==> Total(s) <= l.max)
            && t.pool == (if Total(s) <= l.max then s.pool + [conn] else s.pool)
            && t.borrowed == s.borrowed - {conn} && t.refs == s.refs - {(client, conn)} && t.made == s.made
            && Total(t) == (if Total(s) <= l.max then Total(s) else Total(s) - 1)
  {
    assert (client, conn).1 in s.borrowed;
    assert |s.borrowed - {conn}| == |s.borrowed| - 1;
  }

  /** Below the maximum a returned connection is available again: from an empty pool the next client gets it. */
  lemma ReturnedIsLent(s: State, l: Limits, client: Client, conn: Conn, next: Client, fails: nat -> bool, victim: Conn)
    requires Valid(s, l) && (client, conn) in s.refs && s.pool == [] && l.min <= Total(s) <= l.max
    ensures Borrowed(Returned(s, l, client, conn), l, next, fails, victim).1 == Got(conn)
  {
    hide TopUp, Lend;
    ReturnedIff(s, l, client, conn);
    BorrowsPooled(Returned(s, l, client, conn), l, next, fails, victim);
  }

  /** A new connection is made for an empty pool below the maximum; at the maximum one replaces an abandoned one. */
  lemma BorrowsNew(s: State, l: Limits, client: Client, victim: Conn)
    requires Valid(s, l) && s.pool == [] && l.min <= Total(s)
    requires Total(s) < l.max || (victim in s.borrowed && Unique(s, victim))
    ensures var (t, r) := Borrowed(s, l, client, _ => false, victim);
            && r == Got(s.made) && t.made == s.made + 1 && t.pool == [] && s.made in t.borrowed && (client, s.made) in t.refs
            && Total(t) == (if Total(s) < l.max then Total(s) + 1 else Total(s))
            && (Total(s) >= l.max ==> victim !in t.borrowed)
  {
    if Total(s) >= l.max {
      assert |s.borrowed - {victim}| == |s.borrowed| - 1;
    }
  }

  // ---- the pool in memory ----

  class ConnectionPool {
    const limits: Limits
    var pool: seq<Conn>
    var borrowed: set<Conn>
    var avail: int
    var inUse: int
    var made: nat
    var refs: set<(Client, Conn)>

    function Now(): State
      reads this
    {
      State(pool, borrowed, avail, inUse, refs, made)
    }

    /** Filled to the minimum by a factory that does not fail; a failure leaves no pool behind. */
    constructor (l: Limits)
      ensures limits == l && Now() == Constructed(l) && Valid(Now(), l)
    {
      limits := l;
      pool, borrowed, avail, inUse, made, refs := [], {}, 0, 0, 0, {};
      new;
      var _, _ := Fill(_ => false);
      TopUpValid(EMPTY, l, _ => false, 0);
    }

    method Fill(fails: nat -> bool) returns (ok: bool, attempt: nat)
      modifies `pool, `avail, `made
      ensures (Now(), ok, attempt) == TopUp(old(Now()), limits, fails, 0)
    {
      attempt := 0;
      while |pool| + |borrowed| < limits.min
        invariant TopUp(old(Now()), limits, fails, 0) == TopUp(Now(), limits, fails, attempt)
        decreases limits.min - |pool|
      {
        if fails(attempt) {
          return false, attempt;
        }
        pool, avail, made, attempt := pool + [made], avail + 1, made + 1, attempt + 1;
      }
      return true, attempt;
    }

    /** Searches the borrowed connections, in any order, for one that only the pool refers to. */
    method FindAbandoned() returns (found: bool, c: Conn)
      ensures found ==> c in borrowed && Unique(Now(), c)
      ensures !found ==> forall d :: d in borrowed ==> !Unique(Now(), d)
    {
      var todo := borrowed;
      found, c := false, 0;
      while todo != {}
        invariant todo <= borrowed
        invariant forall d :: d in borrowed - todo ==> !Unique(Now(), d)
        decreases |todo|
      {
        var d :| d in todo;
        if forall r :: r in refs ==> r.1 != d {
          return true, d;
        }
        todo := todo - {d};
      }
    }

    /** The new state and outcome are those of the action, for the abandoned connection met first, if any. */
    method BorrowFor(client: Client, fails: nat -> bool) returns (r: Outcome, ghost victim: Conn)
      requires Valid(Now(), limits)
      modifies this
      ensures (Now(), r) == Borrowed(old(Now()), limits, client, fails, victim)
      ensures Valid(Now(), limits)
    {
      hide Valid, TopUp;
      ghost var before := Now();
      victim := 0;
      var ok, attempt := Fill(fails);
      if !ok {
        r := FactoryFailed;
      } else if |pool| == 0 {
        if |pool| + |borrowed| < limits.max {
          if fails(attempt) {
            r := Unavailable;
          } else {
            r := Got(made);
            borrowed, inUse, refs, made := borrowed + {made}, inUse + 1, refs + {(client, made)}, made + 1;
          }
        } else {
          var found, c := FindAbandoned();
          victim := c;
          if !found || fails(attempt) {
            r := Unavailable;
          } else {
            r := Got(made);
            borrowed, refs, made := borrowed - {c} + {made}, refs + {(client, made)}, made + 1;
          }
        }
      } else {
        r := Got(pool[0]);
        borrowed, inUse, refs := borrowed + {pool[0]}, inUse + 1, refs + {(client, pool[0])};
        pool, avail := pool[1..], avail - 1;
      }
      StepValid(before, limits, Borrow(client, fails, victim));
    }

    /** Returning gives up the client's reference; a full pool lets the connection go. */
    method ReturnFrom(client: Client, conn: Conn)
      requires Valid(Now(), limits) && (client, conn) in refs
      modifies this
      ensures Now() == Returned(old(Now()), limits, client, conn)
      ensures Valid(Now(), limits)
    {
      ReturnValid(Now(), limits, client, conn);
      borrowed, inUse, refs := borrowed - {conn}, inUse - 1, refs - {(client, conn)};
      if |pool| + |borrowed| < limits.max {
        avail, pool := avail + 1, pool + [conn];
      }
    }
  }
}
