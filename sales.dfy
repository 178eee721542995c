// The sales table that the dashboard analyses: calendar dates, one
// transaction row per sale, and the filter chosen in the sidebar.

module Sales {

  /** A calendar date of the proleptic Gregorian calendar. */
  datatype Date = Date(year: int, month: int, day: int)

  /** A point in time: a date and the seconds elapsed since midnight. */
  datatype Timestamp = Timestamp(date: Date, secondOfDay: nat)

  /** One row of the sales table. Money is in cents, so sums are exact;
      the unit price is the row's price already rounded to cents. */
  datatype Row = Row(
    fecha: Timestamp,      // Fecha
    client: string,        // Cliente
    salesperson: string,   // Vendedor
    channel: string,       // Giro
    product: string,       // Producto
    description: string,   // Descripcion
    line: string,          // Linea
    quantity: int,         // Cantidad
    amount: int,           // Importe_Venta
    unitPrice: int         // Precio_Unitario
  )

  /** The filter dictionary: one value per categorical column, where the
      sentinel "Todas"/"Todos" means no constraint, and an inclusive date range. */
  datatype FilterSpec = FilterSpec(
    linea: string,
    producto: string,
    giro: string,
    cliente: string,
    vendedor: string,
    fechaInicio: Date,
    fechaFin: Date
  )

  /** Sentinel of the product-line filter. */
  const AllLines: string := "Todas"
  /** Sentinel of the product, channel, client and salesperson filters. */
  const AllOthers: string := "Todos"

  predicate IsLeapYear(y: int) {
    y % 4 == 0 && (y % 100 != 0 || y % 400 == 0)
  }

  function DaysInMonth(y: int, m: int): (n: int)
    requires 1 <= m <= 12
    ensures 28 <= n <= 31
    ensures n == 29 <==> m == 2 && IsLeapYear(y)
  {
    if m == 2 then (if IsLeapYear(y) then 29 else 28)
    else if m == 4 || m == 6 || m == 9 || m == 11 then 30
    else 31
  }

  predicate ValidDate(d: Date) {
    d.year >= 1 && 1 <= d.month <= 12 && 1 <= d.day <= DaysInMonth(d.year, d.month)
  }

  /** Date order: year, then month, then day (the order of Python's dates). */
  predicate DateLe(a: Date, b: Date) {
    a.year < b.year
    || (a.year == b.year && a.month < b.month)
    || (a.year == b.year && a.month == b.month && a.day <= b.day)
  }

  predicate DateLt(a: Date, b: Date) {
    DateLe(a, b) && a != b
  }

  /** The calendar day after `d`. */
  function NextDay(d: Date): (n: Date)
    requires ValidDate(d)
    ensures ValidDate(n) && DateLt(d, n)
  {
    if d.day < DaysInMonth(d.year, d.month) then Date(d.year, d.month, d.day + 1)
    else if d.month < 12 then Date(d.year, d.month + 1, 1)
    else Date(d.year + 1, 1, 1)
  }

  /** NextDay skips no date: nothing valid lies strictly between a day and the next. */
  lemma NextDayIsAdjacent(d: Date, e: Date)
    requires ValidDate(d) && ValidDate(e)
    ensures !(DateLt(d, e) && DateLt(e, NextDay(d)))
  {
  }
}
