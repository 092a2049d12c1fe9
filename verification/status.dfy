/**
  Payment status (`EstadoPago`) handling: the whitelist a requested status must belong to,
  ignoring case, and the in-memory filter `Where(n => string.Equals(n.EstadoPago, estado,
  OrdinalIgnoreCase))` followed by `ToList()`.
 */
module EstadoPago {
  import opened CaseFold
  import opened Nominas
  import opened ByStartDesc

  /** The accepted spellings, in the order the handler lists them. */
  const EstadosValidos: seq<string> := ["Pagado", "Pendiente", "Rechazado"]

  /** `estadosValidos.Contains(estado, StringComparer.OrdinalIgnoreCase)`: a linear scan. */
  function ContainsIgnoreCase(vs: seq<string>, s: string): (b: bool)
    ensures b <==> exists i :: 0 <= i < |vs| && EqualsIgnoreCase(vs[i], s)
  {
    if vs == [] then false
    else if EqualsIgnoreCase(vs[0], s) then true
    else
      assert forall i :: 1 <= i < |vs| ==> vs[i] == vs[1..][i - 1];
      ContainsIgnoreCase(vs[1..], s)
  }

  predicate IsValidEstado(s: string)
  {
    ContainsIgnoreCase(EstadosValidos, s)
  }

  /**
    A requested status is accepted exactly when its upper-case fold is one of the three
    canonical names in upper case.
   */
  lemma ValidEstadoByFold(s: string)
    ensures IsValidEstado(s) <==> Fold(s) in {"PAGADO", "PENDIENTE", "RECHAZADO"}
  {
    assert Fold("Pagado") == "PAGADO";
    assert Fold("Pendiente") == "PENDIENTE";
    assert Fold("Rechazado") == "RECHAZADO";
    EqualsIgnoreCaseIffFoldsEqual("Pagado", s);
    EqualsIgnoreCaseIffFoldsEqual("Pendiente", s);
    EqualsIgnoreCaseIffFoldsEqual("Rechazado", s);
    assert EstadosValidos[0] == "Pagado" && EstadosValidos[1] == "Pendiente" && EstadosValidos[2] == "Rechazado";
    assert IsValidEstado(s) <==>
      EqualsIgnoreCase("Pagado", s) || EqualsIgnoreCase("Pendiente", s) || EqualsIgnoreCase("Rechazado", s);
  }

  /** The records whose payment status equals `estado` ignoring case, in their original order. */
  function WithEstado(l: seq<Nomina>, estado: string): (r: seq<Nomina>)
    ensures forall x :: x in r ==> EqualsIgnoreCase(x.estadoPago, estado)
    ensures forall x :: multiset(r)[x] == if EqualsIgnoreCase(x.estadoPago, estado) then multiset(l)[x] else 0
  {
    if l == [] then []
    else
      assert l == [l[0]] + l[1..];
      if EqualsIgnoreCase(l[0].estadoPago, estado) then [l[0]] + WithEstado(l[1..], estado)
      else WithEstado(l[1..], estado)
  }

  /**
    Filtering by status and picking out one start date commute, so the filter keeps the
    records of each start date in the order the source returned them.
   */
  lemma {:induction false} WithEstadoKeepsRuns(l: seq<Nomina>, estado: string, d: Date)
    ensures WithStart(WithEstado(l, estado), d) == WithEstado(WithStart(l, d), estado)
  {
    if l != [] {
      WithEstadoKeepsRuns(l[1..], estado, d);
      var x, tail := l[0], l[1..];
      var e := EqualsIgnoreCase(x.estadoPago, estado);
      if e {
        assert ([x] + WithEstado(tail, estado))[1..] == WithEstado(tail, estado);
      }
      if x.fechaInicio == d {
        assert ([x] + WithStart(tail, d))[1..] == WithStart(tail, d);
      }
    }
  }

  /** Two spellings of a status that are equal ignoring case select the same records. */
  lemma {:induction false} WithEstadoCaseInsensitive(l: seq<Nomina>, e1: string, e2: string)
    requires EqualsIgnoreCase(e1, e2)
    ensures WithEstado(l, e1) == WithEstado(l, e2)
  {
    if l != [] {
      EqualsIgnoreCaseIsEquivalence(l[0].estadoPago, e1, e2);
      EqualsIgnoreCaseIsEquivalence(l[0].estadoPago, e2, e1);
      WithEstadoCaseInsensitive(l[1..], e1, e2);
    }
  }
}
