/**
  The data the payroll-history handler works on: one payroll record (`NominaConsulta`) as far
  as the handler looks at it, and what a data source hands back when it is asked for records.
 */
module Nominas {

  /** A point in time (`DateTime`), modelled as its tick count: only its ordering matters here. */
  type Date = int

  /**
    One payroll record. The handler only reads the period start (`FechaInicio`) and the
    payment status (`EstadoPago`). `id` and `fechaFin` are illustrative fields the handler never
    reads; everything else is one opaque payload, so records with equal start and status can
    still differ.
   */
  datatype Nomina = Nomina(id: int, fechaInicio: Date, fechaFin: Date, estadoPago: string, payload: string)

  /**
    What a call into a data source produces: the list of records it returned, or the message
    of the exception it threw.
   */
  datatype Fetch = Rows(rows: seq<Nomina>) | Throws(message: string)
}
