/**
  `OrderByDescending(n => n.FechaInicio)`: a stable sort of payroll records, newest period
  start first. Stability (LINQ's documented guarantee) means records with equal start dates
  keep the relative order in which the source returned them.
 */
module ByStartDesc {
  import opened Nominas

  /** Non-increasing by period start. */
  ghost predicate SortedDesc(l: seq<Nomina>)
  {
    forall i, j :: 0 <= i < j < |l| ==> l[i].fechaInicio >= l[j].fechaInicio
  }

  /** The subsequence of `l` made of the records whose period starts at `d`, in order. */
  function WithStart(l: seq<Nomina>, d: Date): (r: seq<Nomina>)
    ensures forall x :: x in r ==> x in l && x.fechaInicio == d
  {
    if l == [] then []
    else if l[0].fechaInicio == d then [l[0]] + WithStart(l[1..], d)
    else WithStart(l[1..], d)
  }

  /**
    Stable arrangements: `t` is a stable reordering of `l` when, for every start date, the
    records carrying that date appear in `t` in exactly the order they appear in `l`.
   */
  ghost predicate SameRunsByStart(l: seq<Nomina>, t: seq<Nomina>)
  {
    forall d :: WithStart(l, d) == WithStart(t, d)
  }

  /** Every record of `l` starts no later than `d`. */
  ghost predicate AllStartBy(l: seq<Nomina>, d: Date)
  {
    forall i :: 0 <= i < |l| ==> l[i].fechaInicio <= d
  }

  /** Putting a record in front of a sorted list whose records all start no later keeps it sorted. */
  lemma ConsSorted(x: Nomina, l: seq<Nomina>)
    requires SortedDesc(l) && AllStartBy(l, x.fechaInicio)
    ensures SortedDesc([x] + l)
  {
    var r := [x] + l;
    forall i, j | 0 <= i < j < |r|
      ensures r[i].fechaInicio >= r[j].fechaInicio
    {
      if i > 0 {
        assert r[i] == l[i - 1] && r[j] == l[j - 1];
      }
    }
  }

  /**
    Inserts `x` into a list sorted newest first, in front of the first record that does not
    start strictly later than `x`; `x` therefore precedes every record with its own start date.
   */
  function Insert(x: Nomina, l: seq<Nomina>): (r: seq<Nomina>)
    ensures multiset(r) == multiset(l) + multiset{x}
  {
    if l == [] then [x]
    else if l[0].fechaInicio <= x.fechaInicio then [x] + l
    else
      assert l == [l[0]] + l[1..];
      [l[0]] + Insert(x, l[1..])
  }

  /** Inserting a record that starts no later than `d` into a list bounded by `d` keeps the bound. */
  lemma {:induction false} InsertKeepsBound(x: Nomina, l: seq<Nomina>, d: Date)
    requires AllStartBy(l, d) && x.fechaInicio <= d
    ensures AllStartBy(Insert(x, l), d)
  {
    if l != [] && l[0].fechaInicio > x.fechaInicio {
      InsertKeepsBound(x, l[1..], d);
    }
  }

  /** Insertion keeps a newest-first list newest first. */
  lemma {:induction false} InsertKeepsSorted(x: Nomina, l: seq<Nomina>)
    requires SortedDesc(l)
    ensures SortedDesc(Insert(x, l))
  {
    if l == [] {
    } else if l[0].fechaInicio <= x.fechaInicio {
      ConsSorted(x, l);
    } else {
      var tail := l[1..];
      InsertKeepsSorted(x, tail);
      assert AllStartBy(tail, l[0].fechaInicio) by {
        forall i | 0 <= i < |tail| ensures tail[i].fechaInicio <= l[0].fechaInicio {
          assert tail[i] == l[i + 1];
        }
      }
      InsertKeepsBound(x, tail, l[0].fechaInicio);
      ConsSorted(l[0], Insert(x, tail));
    }
  }

  /** Insertion sort, newest period start first. */
  function SortDesc(l: seq<Nomina>): (r: seq<Nomina>)
    ensures multiset(r) == multiset(l)
    ensures SortedDesc(r)
  {
    if l == [] then []
    else
      assert l == [l[0]] + l[1..];
      InsertKeepsSorted(l[0], SortDesc(l[1..]));
      Insert(l[0], SortDesc(l[1..]))
  }

  /** Inserting `x` leaves every start date's run as if `x` had simply been put in front. */
  lemma {:induction false} InsertStable(x: Nomina, l: seq<Nomina>, d: Date)
    ensures WithStart(Insert(x, l), d) == WithStart([x] + l, d)
  {
    assert ([x] + l)[1..] == l;
    if l != [] && l[0].fechaInicio > x.fechaInicio {
      var tail := l[1..];
      InsertStable(x, tail, d);
      assert ([l[0]] + Insert(x, tail))[1..] == Insert(x, tail);
      assert ([x] + tail)[1..] == tail;
    }
  }

  /** The sort is stable: the records of each start date keep their order from the input. */
  lemma {:induction false} SortDescStable(l: seq<Nomina>)
    ensures SameRunsByStart(l, SortDesc(l))
  {
    forall d ensures WithStart(l, d) == WithStart(SortDesc(l), d) {
      SortDescStableAt(l, d);
    }
  }

  lemma {:induction false} SortDescStableAt(l: seq<Nomina>, d: Date)
    ensures WithStart(l, d) == WithStart(SortDesc(l), d)
  {
    if l != [] {
      var tail := l[1..];
      SortDescStableAt(tail, d);
      InsertStable(l[0], SortDesc(tail), d);
      assert ([l[0]] + SortDesc(tail))[1..] == SortDesc(tail);
    }
  }

  /** In a newest-first list, the head starts no earlier than any record in the list. */
  lemma HeadIsNewest(t: seq<Nomina>, x: Nomina)
    requires SortedDesc(t) && x in t
    ensures t[0].fechaInicio >= x.fechaInicio
  {
    var i :| 0 <= i < |t| && t[i] == x;
    if i > 0 {
      assert t[0].fechaInicio >= t[i].fechaInicio;
    }
  }

  /** A run of a list with its head dropped: the head's run loses its first record, the others stay. */
  lemma WithStartTail(t: seq<Nomina>, d: Date)
    requires t != []
    ensures t[0].fechaInicio == d ==> WithStart(t, d) == [t[0]] + WithStart(t[1..], d)
    ensures t[0].fechaInicio != d ==> WithStart(t, d) == WithStart(t[1..], d)
  {
  }

  /** Dropping the head of a newest-first list leaves it newest first. */
  lemma TailSorted(t: seq<Nomina>)
    requires t != [] && SortedDesc(t)
    ensures SortedDesc(t[1..])
  {
    var t' := t[1..];
    forall i, j | 0 <= i < j < |t'| ensures t'[i].fechaInicio >= t'[j].fechaInicio {
      assert t'[i] == t[i + 1] && t'[j] == t[j + 1];
    }
  }

  /** Two newest-first lists with the same runs start with the same record. */
  lemma SameHeads(t: seq<Nomina>, u: seq<Nomina>)
    requires t != [] && u != []
    requires SortedDesc(t) && SortedDesc(u) && SameRunsByStart(t, u)
    ensures t[0] == u[0]
  {
    var a, b := t[0].fechaInicio, u[0].fechaInicio;
    WithStartTail(t, a);
    WithStartTail(u, b);
    assert WithStart(t, a) == WithStart(u, a);
    assert WithStart(t, b) == WithStart(u, b);
    assert t[0] in WithStart(u, a);
    HeadIsNewest(u, t[0]);
    assert u[0] in WithStart(t, b);
    HeadIsNewest(t, u[0]);
    assert a == b;
    var t', u' := t[1..], u[1..];
    assert WithStart(t, a) == [t[0]] + WithStart(t', a);
    assert WithStart(u, a) == [u[0]] + WithStart(u', a);
    assert t[0] == WithStart(t, a)[0] == WithStart(u, a)[0] == u[0];
  }

  /** Lists with the same runs and the same head have tails with the same runs. */
  lemma SameRunsTails(t: seq<Nomina>, u: seq<Nomina>)
    requires t != [] && u != [] && t[0] == u[0] && SameRunsByStart(t, u)
    ensures SameRunsByStart(t[1..], u[1..])
  {
    var t', u' := t[1..], u[1..];
    forall d ensures WithStart(t', d) == WithStart(u', d) {
      WithStartTail(t, d);
      WithStartTail(u, d);
      assert WithStart(t, d) == WithStart(u, d);
      if d == t[0].fechaInicio {
        assert ([t[0]] + WithStart(t', d))[1..] == WithStart(t', d);
        assert ([u[0]] + WithStart(u', d))[1..] == WithStart(u', d);
      }
    }
  }

  /**
    Two newest-first lists with the same run for every start date are equal: sortedness
    together with stability determines the output completely.
   */
  lemma {:induction false} SortedStableUnique(t: seq<Nomina>, u: seq<Nomina>)
    requires SortedDesc(t) && SortedDesc(u) && SameRunsByStart(t, u)
    ensures t == u
    decreases |t| + |u|
  {
    if t == [] && u == [] {
    } else if t == [] {
      WithStartTail(u, u[0].fechaInicio);
      assert false;
    } else if u == [] {
      WithStartTail(t, t[0].fechaInicio);
      assert false;
    } else {
      SameHeads(t, u);
      SameRunsTails(t, u);
      TailSorted(t);
      TailSorted(u);
      SortedStableUnique(t[1..], u[1..]);
      assert t == [t[0]] + t[1..] && u == [u[0]] + u[1..];
    }
  }

  /**
    The sort's output is the one and only newest-first stable arrangement of its input:
    any `t` that is newest first and keeps each start date's records in input order is it.
   */
  lemma SortDescUnique(l: seq<Nomina>, t: seq<Nomina>)
    requires SortedDesc(t) && SameRunsByStart(l, t)
    ensures t == SortDesc(l)
  {
    SortDescStable(l);
    SortedStableUnique(t, SortDesc(l));
  }
}
