# NominaXpert payroll-history handler, modelled in Dafny

NominaXpert's API exposes `GET api/NominaXpertControllerAPI_test/historial_nominas`, which lists
payroll records (*nóminas*). The request may carry an optional payment status (`estadoPago`) and
optional period dates (`fechaInicio`, `fechaFin`). The handler `GetNominas` does four things:

1. It rejects a request whose end date precedes its start date, before any query runs.
2. It asks `BuscarNominasPorFechas` for records when both dates are given. Otherwise it asks
   `DesplegarNominas`, so a single given date is ignored.
3. It checks a non-empty status against `Pagado` / `Pendiente` / `Rechazado`, ignoring case. This
   check runs after the fetch. It then keeps only the records whose `EstadoPago` equals the status,
   ignoring case.
4. It answers with the records ordered by `FechaInicio`, newest first.

An exception from the consulted source becomes a 500 answer whose body is
`"Error interno del servidor: "` followed by the exception's message.

The model is pure and functional:

- `wrappers.dfy`: `Option`, which stands in for the C# nullable parameters.
- `case_fold.dfy` (module `CaseFold`): ordinal case-insensitive comparison. Each ASCII letter is
  folded to upper case before comparing.
- `nomina.dfy` (module `Nominas`): the record and what a data source returns. A source returns
  either rows or the message of the exception it threw.
- `sort.dfy` (module `ByStartDesc`): `OrderByDescending(n => n.FechaInicio)`, written as a stable
  insertion sort. It is specified by a multiset, a sortedness predicate and stability, and
  uniqueness is proved: sortedness plus stability fix the output completely.
- `status.dfy` (module `EstadoPago`): the status whitelist and the `Where` filter.
- `historial.dfy` (module `HistorialNominas`): the handler and the properties of its answer.

The two data sources are inputs to the handler. `porFechas` is a function from the two dates to
what `BuscarNominasPorFechas` produces. `todas` is what `DesplegarNominas` produces. The handler also
returns which source it consulted (`NoQuery`, `RangeQuery(desde, hasta)` or `AllQuery`). This tag
exists only in the model; it lets the model state "no query ran".

Dates are integers (tick counts), because only their order matters here.

Two consequences of the code worth calling out:

- The status check runs after the fetch (lines 54-60 come after lines 44-51). A failing source with
  an invalid status therefore gives a 500, not a 400 (`SourceFailureIsServerError`).
- LINQ `OrderByDescending` is stable, so records with equal start dates keep the order the source
  returned them in (`OkIsStablyOrdered`).

## Model

| member | source | states |
|---|---|---|
| `HistorialNominas.GetNominas` | API_NominaXpert/NominaXpertControllerAPI_test.cs:28-74 | No source is consulted exactly when the dates are reversed. A 400 carries one of the two validation messages. The answer is a 500 exactly when the consulted source threw. A 200 list is newest first. |
| `HistorialNominas.ChooseSource` | API_NominaXpert/NominaXpertControllerAPI_test.cs:44-51 | Always consults a source. It is the range source, called with the request's own dates, exactly when both dates are present. |
| `HistorialNominas.FilterAndSort` | API_NominaXpert/NominaXpertControllerAPI_test.cs:53-67 | On fetched rows it gives either a 200 or the status message. The status message comes exactly when the status is non-empty and not in the whitelist. A 200 list is newest first. |
| `HistorialNominas.DateOrderRejectedBeforeQuery` | API_NominaXpert/NominaXpertControllerAPI_test.cs:36-39 | The date-order 400 is answered if and only if both dates are present and the end precedes the start. In that case neither source is consulted. |
| `HistorialNominas.SourceSelection` | API_NominaXpert/NominaXpertControllerAPI_test.cs:44-51 | Once the dates pass, the range source is used with the given dates when both are present. In every other case the fetch-all source is used. |
| `HistorialNominas.LoneDateIgnored` | API_NominaXpert/NominaXpertControllerAPI_test.cs:44-51 | A request with only a start date, or only an end date, gets the same answer as a request with no dates. |
| `HistorialNominas.SourceFailureIsServerError` | API_NominaXpert/NominaXpertControllerAPI_test.cs:69-73 | If the consulted source throws, the answer is a 500 with the prefixed exception message, whatever the status parameter says. |
| `HistorialNominas.NoStatusKeepsEverything` | API_NominaXpert/NominaXpertControllerAPI_test.cs:53-67 | With a null or empty status the answer is a 200. Its list is a permutation of the fetched records. |
| `HistorialNominas.InvalidStatusRejectedAfterQuery` | API_NominaXpert/NominaXpertControllerAPI_test.cs:54-60 | A non-empty status outside the whitelist gets the status 400, and by then a source has been consulted. |
| `HistorialNominas.ValidStatusSelectsMatching` | API_NominaXpert/NominaXpertControllerAPI_test.cs:62-67 | With a valid status every returned record's status equals it ignoring case. Every matching fetched record is returned exactly as often as it was fetched. |
| `HistorialNominas.OkIsStablyOrdered` | API_NominaXpert/NominaXpertControllerAPI_test.cs:62-67 | A 200 list is non-increasing by start date. Records with the same start date appear in the order the source returned them, after the status filter. |
| `HistorialNominas.OkIsDetermined` | API_NominaXpert/NominaXpertControllerAPI_test.cs:67 | Take any newest-first list whose records, per start date, are the selected records in fetched order. That list equals the 200 answer. |
| `HistorialNominas.StatusSpellingIrrelevant` | API_NominaXpert/NominaXpertControllerAPI_test.cs:54-64 | Two status spellings that are equal ignoring case get identical answers. |
| `HistorialNominas.ExamplePaidOnly` | API_NominaXpert/NominaXpertControllerAPI_test.cs:54-67 | Take a paid record and a pending record. Asking for `pagado` with no dates returns only the paid one, from the fetch-all source. |
| `EstadoPago.ContainsIgnoreCase` | API_NominaXpert/NominaXpertControllerAPI_test.cs:56-57 | The whitelist scan succeeds exactly when some entry equals the status ignoring case. |
| `EstadoPago.ValidEstadoByFold` | API_NominaXpert/NominaXpertControllerAPI_test.cs:56-57 | A status is valid exactly when its upper-case fold is `PAGADO`, `PENDIENTE` or `RECHAZADO`. |
| `EstadoPago.WithEstado` | API_NominaXpert/NominaXpertControllerAPI_test.cs:62-64 | Every kept record matches the status ignoring case. Each matching record keeps its multiplicity and every other record gets multiplicity zero. |
| `EstadoPago.WithEstadoKeepsRuns` | API_NominaXpert/NominaXpertControllerAPI_test.cs:62-64 | Filtering by status commutes with picking out one start date, so the filter preserves the fetched order. |
| `EstadoPago.WithEstadoCaseInsensitive` | API_NominaXpert/NominaXpertControllerAPI_test.cs:62-64 | Filtering by two statuses that are equal ignoring case selects the same records. |
| `CaseFold.Fold` | API_NominaXpert/NominaXpertControllerAPI_test.cs:63 | The fold is equal to its input ignoring case and contains no lower-case ASCII letter, so it is an upper-case representative. |
| `CaseFold.FoldIsCanonical` | API_NominaXpert/NominaXpertControllerAPI_test.cs:63 | The representative is unique: any string equal to the input ignoring case and free of lower-case ASCII letters is the fold. |
| `CaseFold.EqualsIgnoreCaseIffFoldsEqual` | API_NominaXpert/NominaXpertControllerAPI_test.cs:63 | Two strings are equal ignoring case if and only if their upper-case folds are equal. |
| `CaseFold.EqualsIgnoreCaseIsEquivalence` | API_NominaXpert/NominaXpertControllerAPI_test.cs:57 | Comparison ignoring case is reflexive, symmetric and transitive. |
| `ByStartDesc.Insert` | API_NominaXpert/NominaXpertControllerAPI_test.cs:67 | Insertion adds exactly the one record to the multiset of the list. |
| `ByStartDesc.InsertKeepsSorted` | API_NominaXpert/NominaXpertControllerAPI_test.cs:67 | Insertion keeps a newest-first list newest first. |
| `ByStartDesc.InsertStable` | API_NominaXpert/NominaXpertControllerAPI_test.cs:67 | Insertion puts the new record ahead of every record with its start date and moves nothing else relative to them. |
| `ByStartDesc.SortDesc` | API_NominaXpert/NominaXpertControllerAPI_test.cs:67 | The sort returns a permutation of its input, non-increasing by start date. |
| `ByStartDesc.SortDescStable` | API_NominaXpert/NominaXpertControllerAPI_test.cs:67 | The sort is stable. For every start date, its records appear in the output in input order. |
| `ByStartDesc.SortedStableUnique` | API_NominaXpert/NominaXpertControllerAPI_test.cs:67 | Two newest-first lists with the same records per start date, in the same order, are equal. |
| `ByStartDesc.SortDescUnique` | API_NominaXpert/NominaXpertControllerAPI_test.cs:67 | Any newest-first stable arrangement of the input is the sort's output. |

## Left out

- The bodies of `BuscarNominasPorFechas` and `DesplegarNominas` (their SQL is not part of this model). They are opaque inputs: a function of the two dates, and a fixed answer.
- `NominaConsulta` beyond `FechaInicio` and `EstadoPago`: its declaration is not part of this model. The model's `id` and `fechaFin` fields are illustrative, and the handler never reads them; all other fields are one opaque payload. Null records and a null `EstadoPago` are not modelled.
- Unicode case mapping: `OrdinalIgnoreCase` is modelled for ASCII letters only. Other characters compare by code point.
- `DateTime` calendar semantics: dates are integers compared by value.
- Logging of the exception (`_logger.LogError`), JSON serialisation of the answer, and ASP.NET's binding of query-string parameters. An unparsable date is rejected by the framework before the handler runs.
- Laziness of `OrderByDescending`: the ordering is enumerated while the answer is serialised, outside the `try`. The model treats it as computed inside the handler. Comparing start dates cannot throw, so the result is the same.
- The idempotence of a repeated request: this follows from `GetNominas` being a pure function of its inputs.
- `NominaXpertCore/Data/PostgresSQLDataAccess.cs`: connection handling, the singleton and query execution are I/O over Npgsql.
- `API_NominaXpert/DatabaseTestController.cs`, `API_NominaXpert/SimpleTestController.cs` and `API_NominaXpert/Program.cs`: a connectivity probe, a ping payload with the current time, and host wiring. None of them holds logic beyond I/O.
- The status-specific endpoints and the lookup by id: they are not part of this model.
