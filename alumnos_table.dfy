/**
 * The helpers of the paginated student table: the status badge, the
 * purchase-date reformatting, the page count and the pager's guards, and the
 * rows of the table body.
 */
module AlumnosTable {
  import opened Wrappers
  import opened Strings
  import opened Types

  /** The badge colours of `getStatusBadge`, one per branch of the switch. */
  datatype Tone = Green | Red | Blue | Yellow | Gray

  datatype Badge = Badge(tone: Tone, text: string)

  /** `getStatusBadge`: the four student states get their colour, anything else is grey. */
  function StatusBadge(status: string): (b: Badge)
    ensures b.tone != Gray <==> exists s :: AlumnoStatusValue(s) == status
    ensures b.text == if status == "" then "Sin estado" else status
  {
    if status == AlumnoStatusValue(Active) then Badge(Green, "Activo")
    else if status == AlumnoStatusValue(Inactive) then Badge(Red, "Inactivo")
    else if status == AlumnoStatusValue(Paid) then Badge(Blue, "Pagado")
    else if status == AlumnoStatusValue(PendingPayment) then Badge(Yellow, "Pendiente")
    else Badge(Gray, if status == "" then "Sin estado" else status)
  }

  /** Each student state has its own colour. */
  lemma StatusTones(s: AlumnoStatus, t: AlumnoStatus)
    requires s != t
    ensures StatusBadge(AlumnoStatusValue(s)).tone != StatusBadge(AlumnoStatusValue(t)).tone
  {
  }

  /**
   * `formatDate`: 'N/A' for the empty string; a string with exactly three
   * '-'-separated parts is rewritten day / month / year; anything else is shown as it is.
   */
  function FormatDate(dateStr: string): (r: string)
    ensures dateStr == "" ==> r == "N/A"
    ensures dateStr != "" && multiset(dateStr)['-'] != 2 ==> r == dateStr
  {
    if dateStr == "" then "N/A"
    else
      var parts := Split(dateStr, '-');
      SplitCount(dateStr, '-');
      if |parts| == 3 then parts[2] + "/" + parts[1] + "/" + parts[0] else dateStr
  }

  /** A date `a-b-c` is shown as `c/b/a`. */
  lemma FormatDateReorders(a: string, b: string, c: string)
    requires '-' !in a && '-' !in b && '-' !in c
    ensures FormatDate(a + "-" + b + "-" + c) == c + "/" + b + "/" + a
  {
    var s := a + "-" + b + "-" + c;
    assert s == a + ['-'] + b + ['-'] + c;
    assert s[|a|] == '-';
    SplitThree(a, b, c, '-');
  }

  /** The reformatted date loses nothing: splitting it at '/' gives the parts back, reversed. */
  lemma FormatDateReversible(a: string, b: string, c: string)
    requires '-' !in a && '-' !in b && '-' !in c
    requires '/' !in a && '/' !in b && '/' !in c
    ensures Split(FormatDate(a + "-" + b + "-" + c), '/') == [c, b, a]
  {
    FormatDateReorders(a, b, c);
    assert c + "/" + b + "/" + a == c + ['/'] + b + ['/'] + a;
    SplitThree(c, b, a, '/');
  }

  /** `Math.ceil(totalAlumnos / pageSize)`. */
  function TotalPages(totalAlumnos: int, pageSize: int): (p: int)
    requires pageSize > 0
    ensures p * pageSize >= totalAlumnos
    ensures (p - 1) * pageSize < totalAlumnos
    ensures totalAlumnos == 0 ==> p == 0
    ensures totalAlumnos > 0 ==> p >= 1
  {
    var p := (totalAlumnos + pageSize - 1) / pageSize;
    CeilDiv(totalAlumnos, pageSize);
    p
  }

  lemma CeilDiv(a: int, b: int)
    requires b > 0
    ensures var p := (a + b - 1) / b; p * b >= a && (p - 1) * b < a
  {
    var n := a + b - 1;
    var p := n / b;
    assert n == p * b + n % b;
    assert (p - 1) * b == p * b - b;
  }

  /** The page count is the least number of pages that holds every record. */
  lemma TotalPagesLeast(totalAlumnos: int, pageSize: int, q: int)
    requires pageSize > 0 && q * pageSize >= totalAlumnos
    ensures TotalPages(totalAlumnos, pageSize) <= q
  {
  }

  /** The pager is rendered only when there is more than one page. */
  predicate ShowPager(totalPages: int) {
    totalPages > 1
  }

  /** The pager appears exactly when there are more records than fit on one page. */
  lemma PagerShown(totalAlumnos: int, pageSize: int)
    requires pageSize > 0
    ensures ShowPager(TotalPages(totalAlumnos, pageSize)) <==> totalAlumnos > pageSize
  {
    var p := TotalPages(totalAlumnos, pageSize);
    if p >= 2 {
      assert (p - 1) * pageSize >= pageSize;
    }
  }

  /** The page the left arrow asks for; None when it is disabled, on page 1. */
  function PrevRequest(currentPage: int): (r: Option<int>)
    ensures r.None? <==> currentPage == 1
    ensures r.Some? ==> r.value == currentPage - 1
  {
    if currentPage == 1 then None else Some(currentPage - 1)
  }

  /** The page the right arrow asks for; None when it is disabled, on the last page. */
  function NextRequest(currentPage: int, totalPages: int): (r: Option<int>)
    ensures r.None? <==> currentPage == totalPages
    ensures r.Some? ==> r.value == currentPage + 1
  {
    if currentPage == totalPages then None else Some(currentPage + 1)
  }

  /** From any page between 1 and the last, both arrows only ask for pages in the same range. */
  lemma PagingInBounds(currentPage: int, totalPages: int)
    requires 1 <= currentPage <= totalPages
    ensures PrevRequest(currentPage).Some? ==> 1 <= PrevRequest(currentPage).value <= totalPages
    ensures NextRequest(currentPage, totalPages).Some? ==> 1 <= NextRequest(currentPage, totalPages).value <= totalPages
  {
  }

  /** A row of the table body. */
  datatype Row =
    | AlumnoRow(initial: string, fullName: string, email: string, badge: Badge, fechaCompra: string)
    | NoResultsRow

  /** `alumno.nombre?.charAt(0) || '?'`. */
  function Initial(nombre: string): (r: string)
    ensures |r| == 1
    ensures nombre != "" ==> r == [nombre[0]]
    ensures nombre == "" ==> r == "?"
  {
    if nombre == "" then "?" else [nombre[0]]
  }

  function RowOf(a: Alumno): Row {
    AlumnoRow(Initial(a.nombre), a.nombre + " " + a.apellidos, a.email, StatusBadge(a.estado_general),
              FormatDate(a.fecha_compra))
  }

  /** One row per student in the given order, followed by the "no students" row when there are none. */
  function Rows(alumnos: seq<Alumno>): (rows: seq<Row>)
    ensures |rows| == if alumnos == [] then 1 else |alumnos|
    ensures forall i :: 0 <= i < |alumnos| ==> rows[i] == RowOf(alumnos[i])
    ensures NoResultsRow in rows <==> alumnos == []
  {
    var body := seq(|alumnos|, i requires 0 <= i < |alumnos| => RowOf(alumnos[i]));
    if |alumnos| == 0 then body + [NoResultsRow] else body
  }
}
