/**
  The payroll-history endpoint `GET api/NominaXpertControllerAPI_test/historial_nominas`
  (`GetNominas`): validate the date pair, consult one of two data sources, validate and apply
  the payment-status filter, and answer with the records newest period start first. An
  exception thrown by the consulted source becomes a 500 answer carrying its message.
 */
module HistorialNominas {
  import opened Wrappers
  import opened CaseFold
  import opened Nominas
  import opened ByStartDesc
  import opened EstadoPago

  const MsgFechas := "La fecha de fin no puede ser anterior a la fecha de inicio."
  const MsgEstado := "El estado de pago debe ser: Pagado, Pendiente o Rechazado."
  const PrefijoError := "Error interno del servidor: "

  /** The HTTP answer: 400 with a message, 500 with a message, or 200 with the records. */
  datatype Response = BadRequest(message: string) | ServerError(message: string) | Ok(nominas: seq<Nomina>)
  {
    function StatusCode(): (code: int)
      ensures code in {200, 400, 500}
      ensures code == 200 <==> Ok?
    {
      match this
      case BadRequest(_) => 400
      case ServerError(_) => 500
      case Ok(_) => 200
    }
  }

  /**
    Which data source the handler consulted: none, `BuscarNominasPorFechas` with the given
    dates, or `DesplegarNominas`.
   */
  datatype Consulted = NoQuery | RangeQuery(desde: Date, hasta: Date) | AllQuery
  {
    /** What the consulted source produced; `porFechas` and `todas` stand for the two sources. */
    function Answer(porFechas: (Date, Date) -> Fetch, todas: Fetch): Fetch
      requires !NoQuery?
    {
      match this
      case RangeQuery(a, b) => porFechas(a, b)
      case AllQuery => todas
    }
  }

  /** The handler's answer together with the source it consulted (an observation of the model). */
  datatype Reply = Reply(response: Response, consulted: Consulted)

  /** `string.IsNullOrEmpty`. */
  predicate IsNullOrEmpty(s: Option<string>)
  {
    s.None? || s.value == ""
  }

  /** Both dates are given and the end comes before the start. */
  predicate DatesReversed(fechaInicio: Option<Date>, fechaFin: Option<Date>)
  {
    fechaInicio.Some? && fechaFin.Some? && fechaFin.value < fechaInicio.value
  }

  /** The range source when both dates are given, the fetch-all source otherwise. */
  function ChooseSource(fechaInicio: Option<Date>, fechaFin: Option<Date>): (c: Consulted)
    ensures !c.NoQuery?
    ensures c.RangeQuery? <==> fechaInicio.Some? && fechaFin.Some?
    ensures c.RangeQuery? ==> c.desde == fechaInicio.value && c.hasta == fechaFin.value
  {
    if fechaInicio.Some? && fechaFin.Some? then RangeQuery(fechaInicio.value, fechaFin.value)
    else AllQuery
  }

  /** Status validation and filtering on the fetched records, then the newest-first sort. */
  function FilterAndSort(estadoPago: Option<string>, nominas: seq<Nomina>): (resp: Response)
    ensures resp.Ok? || resp == BadRequest(MsgEstado)
    ensures resp.BadRequest? <==> !IsNullOrEmpty(estadoPago) && !IsValidEstado(estadoPago.value)
    ensures resp.Ok? ==> SortedDesc(resp.nominas)
  {
    if IsNullOrEmpty(estadoPago) then
      Ok(SortDesc(nominas))
    else if !IsValidEstado(estadoPago.value) then
      BadRequest(MsgEstado)
    else
      Ok(SortDesc(WithEstado(nominas, estadoPago.value)))
  }

  /** The handler. */
  function GetNominas(estadoPago: Option<string>, fechaInicio: Option<Date>, fechaFin: Option<Date>,
                      porFechas: (Date, Date) -> Fetch, todas: Fetch): (r: Reply)
    ensures r.consulted.NoQuery? <==> DatesReversed(fechaInicio, fechaFin)
    ensures r.response.BadRequest? ==> r.response.message in {MsgFechas, MsgEstado}
    ensures r.response.ServerError? <==> !r.consulted.NoQuery? && r.consulted.Answer(porFechas, todas).Throws?
    ensures r.response.Ok? ==> SortedDesc(r.response.nominas)
  {
    if DatesReversed(fechaInicio, fechaFin) then
      Reply(BadRequest(MsgFechas), NoQuery)
    else
      var consulted := ChooseSource(fechaInicio, fechaFin);
      match consulted.Answer(porFechas, todas)
      case Throws(m) => Reply(ServerError(PrefijoError + m), consulted)
      case Rows(nominas) => Reply(FilterAndSort(estadoPago, nominas), consulted)
  }

  /** The request passed the date check and the source it selects returned the records `l`. */
  predicate SourceReturned(fechaInicio: Option<Date>, fechaFin: Option<Date>,
                           porFechas: (Date, Date) -> Fetch, todas: Fetch, l: seq<Nomina>)
  {
    !DatesReversed(fechaInicio, fechaFin) && ChooseSource(fechaInicio, fechaFin).Answer(porFechas, todas) == Rows(l)
  }

  /**
    The date-order message is answered exactly when both dates are given and the end precedes
    the start, and then no source is consulted.
   */
  lemma DateOrderRejectedBeforeQuery(estadoPago: Option<string>, fechaInicio: Option<Date>, fechaFin: Option<Date>,
                                     porFechas: (Date, Date) -> Fetch, todas: Fetch)
    ensures var r := GetNominas(estadoPago, fechaInicio, fechaFin, porFechas, todas);
      && (r.response == BadRequest(MsgFechas) <==> DatesReversed(fechaInicio, fechaFin))
      && (DatesReversed(fechaInicio, fechaFin) ==> r.consulted == NoQuery)
  {
    assert MsgFechas != MsgEstado by {
      assert |MsgFechas| == 59 && |MsgEstado| == 58;
    }
  }

  /**
    Once the dates pass, the range source is consulted, with exactly the given dates, when both
    dates are present, and the fetch-all source in every other case.
   */
  lemma SourceSelection(estadoPago: Option<string>, fechaInicio: Option<Date>, fechaFin: Option<Date>,
                        porFechas: (Date, Date) -> Fetch, todas: Fetch)
    requires !DatesReversed(fechaInicio, fechaFin)
    ensures var r := GetNominas(estadoPago, fechaInicio, fechaFin, porFechas, todas);
      && (fechaInicio.Some? && fechaFin.Some? ==> r.consulted == RangeQuery(fechaInicio.value, fechaFin.value))
      && (fechaInicio.None? || fechaFin.None? ==> r.consulted == AllQuery)
  {
  }

  /** A lone start or end date is ignored: the request behaves as if no date had been given. */
  lemma LoneDateIgnored(estadoPago: Option<string>, d: Date, porFechas: (Date, Date) -> Fetch, todas: Fetch)
    ensures GetNominas(estadoPago, Some(d), None, porFechas, todas) == GetNominas(estadoPago, None, None, porFechas, todas)
    ensures GetNominas(estadoPago, None, Some(d), porFechas, todas) == GetNominas(estadoPago, None, None, porFechas, todas)
  {
  }

  /**
    A consulted source that throws yields the 500 answer with the exception's message, whatever
    the status parameter says; it is never a 200 or a 400.
   */
  lemma SourceFailureIsServerError(estadoPago: Option<string>, fechaInicio: Option<Date>, fechaFin: Option<Date>,
                                   porFechas: (Date, Date) -> Fetch, todas: Fetch, m: string)
    requires !DatesReversed(fechaInicio, fechaFin)
    requires ChooseSource(fechaInicio, fechaFin).Answer(porFechas, todas) == Throws(m)
    ensures var r := GetNominas(estadoPago, fechaInicio, fechaFin, porFechas, todas);
      r.response == ServerError(PrefijoError + m) && r.response.StatusCode() == 500
  {
  }

  /** Without a status the answer is a 200 holding every fetched record, each exactly as often. */
  lemma NoStatusKeepsEverything(estadoPago: Option<string>, fechaInicio: Option<Date>, fechaFin: Option<Date>,
                                porFechas: (Date, Date) -> Fetch, todas: Fetch, l: seq<Nomina>)
    requires SourceReturned(fechaInicio, fechaFin, porFechas, todas, l)
    requires IsNullOrEmpty(estadoPago)
    ensures var r := GetNominas(estadoPago, fechaInicio, fechaFin, porFechas, todas);
      r.response.Ok? && multiset(r.response.nominas) == multiset(l)
  {
  }

  /**
    A non-empty status outside the whitelist is answered with the status message, and only
    after a source has been consulted.
   */
  lemma InvalidStatusRejectedAfterQuery(estadoPago: Option<string>, fechaInicio: Option<Date>, fechaFin: Option<Date>,
                                        porFechas: (Date, Date) -> Fetch, todas: Fetch, l: seq<Nomina>)
    requires SourceReturned(fechaInicio, fechaFin, porFechas, todas, l)
    requires !IsNullOrEmpty(estadoPago) && !IsValidEstado(estadoPago.value)
    ensures var r := GetNominas(estadoPago, fechaInicio, fechaFin, porFechas, todas);
      r.response == BadRequest(MsgEstado) && !r.consulted.NoQuery?
  {
  }

  /**
    With a valid status the answer holds exactly the fetched records whose status equals it
    ignoring case: each of those as often as it was fetched, and nothing else.
   */
  lemma ValidStatusSelectsMatching(estadoPago: Option<string>, fechaInicio: Option<Date>, fechaFin: Option<Date>,
                                   porFechas: (Date, Date) -> Fetch, todas: Fetch, l: seq<Nomina>)
    requires SourceReturned(fechaInicio, fechaFin, porFechas, todas, l)
    requires !IsNullOrEmpty(estadoPago) && IsValidEstado(estadoPago.value)
    ensures var r := GetNominas(estadoPago, fechaInicio, fechaFin, porFechas, todas);
      && r.response.Ok?
      && (forall x :: x in r.response.nominas ==> EqualsIgnoreCase(x.estadoPago, estadoPago.value))
      && (forall x :: multiset(r.response.nominas)[x] ==
            if EqualsIgnoreCase(x.estadoPago, estadoPago.value) then multiset(l)[x] else 0)
  {
    var out := SortDesc(WithEstado(l, estadoPago.value));
    forall x | x in out ensures EqualsIgnoreCase(x.estadoPago, estadoPago.value) {
      assert x in multiset(WithEstado(l, estadoPago.value));
    }
  }

  /** The records the answer may hold: all fetched ones, or those matching the requested status. */
  function Selected(estadoPago: Option<string>, l: seq<Nomina>): seq<Nomina>
  {
    if IsNullOrEmpty(estadoPago) then l else WithEstado(l, estadoPago.value)
  }

  /**
    A 200 answer is newest period start first, and records sharing a start date appear in the
    order the source returned them (the LINQ sort is stable).
   */
  lemma OkIsStablyOrdered(estadoPago: Option<string>, fechaInicio: Option<Date>, fechaFin: Option<Date>,
                          porFechas: (Date, Date) -> Fetch, todas: Fetch, l: seq<Nomina>)
    requires SourceReturned(fechaInicio, fechaFin, porFechas, todas, l)
    ensures var r := GetNominas(estadoPago, fechaInicio, fechaFin, porFechas, todas);
      r.response.Ok? ==>
        && SortedDesc(r.response.nominas)
        && forall d :: WithStart(r.response.nominas, d) == Selected(estadoPago, WithStart(l, d))
  {
    var r := GetNominas(estadoPago, fechaInicio, fechaFin, porFechas, todas);
    if r.response.Ok? {
      var sel := Selected(estadoPago, l);
      assert r.response.nominas == SortDesc(sel);
      SortDescStable(sel);
      forall d ensures WithStart(r.response.nominas, d) == Selected(estadoPago, WithStart(l, d)) {
        assert WithStart(sel, d) == WithStart(SortDesc(sel), d);
        if !IsNullOrEmpty(estadoPago) {
          WithEstadoKeepsRuns(l, estadoPago.value, d);
        }
      }
    }
  }

  /**
    The 200 answer is fully determined: any newest-first list whose same-date runs are those of
    the selected records is exactly the answer.
   */
  lemma OkIsDetermined(estadoPago: Option<string>, fechaInicio: Option<Date>, fechaFin: Option<Date>,
                       porFechas: (Date, Date) -> Fetch, todas: Fetch, l: seq<Nomina>, t: seq<Nomina>)
    requires SourceReturned(fechaInicio, fechaFin, porFechas, todas, l)
    requires SortedDesc(t) && SameRunsByStart(Selected(estadoPago, l), t)
    ensures var r := GetNominas(estadoPago, fechaInicio, fechaFin, porFechas, todas);
      r.response.Ok? ==> r.response.nominas == t
  {
    SortDescUnique(Selected(estadoPago, l), t);
  }

  /** Two spellings of the status that are equal ignoring case get the same answer. */
  lemma StatusSpellingIrrelevant(e1: string, e2: string, fechaInicio: Option<Date>, fechaFin: Option<Date>,
                                 porFechas: (Date, Date) -> Fetch, todas: Fetch)
    requires EqualsIgnoreCase(e1, e2)
    ensures GetNominas(Some(e1), fechaInicio, fechaFin, porFechas, todas)
         == GetNominas(Some(e2), fechaInicio, fechaFin, porFechas, todas)
  {
    EqualsIgnoreCaseIffFoldsEqual(e1, e2);
    ValidEstadoByFold(e1);
    ValidEstadoByFold(e2);
    if !DatesReversed(fechaInicio, fechaFin) {
      match ChooseSource(fechaInicio, fechaFin).Answer(porFechas, todas)
      case Throws(_) =>
      case Rows(l) => WithEstadoCaseInsensitive(l, e1, e2);
    }
  }

  /**
    Worked example: one paid record starting in January and one pending record starting in
    February; asking for status `pagado` with no dates answers with the paid record only.
   */
  lemma ExamplePaidOnly(porFechas: (Date, Date) -> Fetch)
    ensures var n1 := Nomina(1, 20240101, 20240115, "Pagado", "");
            var n2 := Nomina(2, 20240201, 20240215, "Pendiente", "");
      GetNominas(Some("pagado"), None, None, porFechas, Rows([n1, n2])) == Reply(Ok([n1]), AllQuery)
  {
    var n1 := Nomina(1, 20240101, 20240115, "Pagado", "");
    var n2 := Nomina(2, 20240201, 20240215, "Pendiente", "");
    assert EqualsIgnoreCase("Pagado", "pagado") by {
      EqualsIgnoreCaseIffFoldsEqual("Pagado", "pagado");
      assert Fold("Pagado") == "PAGADO" == Fold("pagado");
    }
    assert !EqualsIgnoreCase("Pendiente", "pagado");
    ValidEstadoByFold("pagado");
    assert Fold("pagado") == "PAGADO";
    assert [n1, n2][1..] == [n2];
    assert WithEstado([n1, n2], "pagado") == [n1];
  }
}
