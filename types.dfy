/** The records and enumerations the dashboard passes between its components. */
module Types {
  import opened Wrappers
  import opened Calendar

  /** The string enum of lead states. */
  datatype LeadStatus = Incomplete | Complete | Contacted | Qualified | Pending

  function LeadStatusValue(s: LeadStatus): string {
    match s
    case Incomplete => "Formulario incompleto"
    case Complete => "Formulario completo"
    case Contacted => "Contactado"
    case Qualified => "Calificado"
    case Pending => "Pendiente"
  }

  /**
   * `LeadStatus[name]` read by member name: the member's string, or
   * `undefined` (None) for a name the enum does not declare.
   */
  function LeadStatusMember(name: string): (r: Option<string>)
    ensures r.Some? <==> name in {"INCOMPLETE", "COMPLETE", "CONTACTED", "QUALIFIED", "PENDING"}
    ensures r.Some? ==> exists s :: LeadStatusValue(s) == r.value
  {
    if name == "INCOMPLETE" then Some(LeadStatusValue(Incomplete))
    else if name == "COMPLETE" then Some(LeadStatusValue(Complete))
    else if name == "CONTACTED" then Some(LeadStatusValue(Contacted))
    else if name == "QUALIFIED" then Some(LeadStatusValue(Qualified))
    else if name == "PENDING" then Some(LeadStatusValue(Pending))
    else None
  }

  /** The string enum of student states. */
  datatype AlumnoStatus = Active | Inactive | PendingPayment | Paid

  function AlumnoStatusValue(s: AlumnoStatus): string {
    match s
    case Active => "Activo"
    case Inactive => "Inactivo"
    case PendingPayment => "Pendiente"
    case Paid => "Pagado"
  }

  /** A lead as the store returns it; `score` is optional. */
  datatype Lead = Lead(
    nombre: string,
    telefono: string,
    pais: string,
    interes: string,
    perfil: string,
    desafios: string,
    presupuesto: string,
    disponibilidad: string,
    compromiso: string,
    antiguedad: string,
    fecha_registro: string,
    hora_registro: string,
    estado: string,
    score: Option<int>)

  /** A student record; `id` and `notas` are optional, the amounts are whole numbers here. */
  datatype Alumno = Alumno(
    id: Option<int>,
    nombre: string,
    apellidos: string,
    telefono: string,
    email: string,
    pais: string,
    estado_general: string,
    inversion_total: int,
    importe_pendiente: int,
    fecha_compra: string,
    curso: string,
    notas: Option<string>)

  /** One key of a `Record<string, number>`, kept in insertion order. */
  datatype Entry = Entry(name: string, value: int)

  datatype DashboardStats = DashboardStats(
    totalLeads: int,
    leadsPorEstado: seq<Entry>,
    topPais: string,
    interesComun: string,
    leadsMes: int)

  /** Either end of a range may be unset (`null`). */
  datatype DateRange = DateRange(start: Option<Date>, end: Option<Date>)
}
