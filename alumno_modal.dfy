/**
 * The student detail drawer: an edit buffer `edited` copied from the record
 * it is opened with, single-field edits, and a save that calls the store's
 * `updateAlumno` and then either closes the drawer or shows an error. How
 * the store call ends (true, false or a rejection) is a parameter; the calls
 * the drawer makes to its parent and to the store are kept in the log `calls`.
 */
module AlumnoModal {
  import opened Wrappers
  import opened Types

  /** The keys of a student record. */
  datatype Field =
    | Id | Nombre | Apellidos | Telefono | Email | Pais | EstadoGeneral
    | InversionTotal | ImportePendiente | FechaCompra | Curso | Notas

  /** A field's value: text, a number, or absent (`undefined`, for the optional fields). */
  datatype Value = Text(s: string) | Amount(n: int) | Missing

  function Get(a: Alumno, f: Field): Value {
    match f
    case Id => if a.id.Some? then Amount(a.id.value) else Missing
    case Nombre => Text(a.nombre)
    case Apellidos => Text(a.apellidos)
    case Telefono => Text(a.telefono)
    case Email => Text(a.email)
    case Pais => Text(a.pais)
    case EstadoGeneral => Text(a.estado_general)
    case InversionTotal => Amount(a.inversion_total)
    case ImportePendiente => Amount(a.importe_pendiente)
    case FechaCompra => Text(a.fecha_compra)
    case Curso => Text(a.curso)
    case Notas => if a.notas.Some? then Text(a.notas.value) else Missing
  }

  /** The form passes text to the text fields and a number to the numeric ones. */
  predicate Fits(f: Field, v: Value) {
    match f
    case Id | InversionTotal | ImportePendiente => v.Amount?
    case _ => v.Text?
  }

  /** Two records with the same value in every field are the same record. */
  lemma {:induction false} SameFields(a: Alumno, b: Alumno)
    requires forall f :: Get(a, f) == Get(b, f)
    ensures a == b
  {
    assert Get(a, Id) == Get(b, Id);
    assert Get(a, Nombre) == Get(b, Nombre) && Get(a, Apellidos) == Get(b, Apellidos);
    assert Get(a, Telefono) == Get(b, Telefono) && Get(a, Email) == Get(b, Email);
    assert Get(a, Pais) == Get(b, Pais) && Get(a, EstadoGeneral) == Get(b, EstadoGeneral);
    assert Get(a, InversionTotal) == Get(b, InversionTotal);
    assert Get(a, ImportePendiente) == Get(b, ImportePendiente);
    assert Get(a, FechaCompra) == Get(b, FechaCompra) && Get(a, Curso) == Get(b, Curso);
    assert Get(a, Notas) == Get(b, Notas);
  }

  /** `{ ...prev, [field]: value }`: the named field takes the value, every other field is kept. */
  function WithField(a: Alumno, f: Field, v: Value): (r: Alumno)
    requires Fits(f, v)
    ensures Get(r, f) == v
    ensures forall g :: g != f ==> Get(r, g) == Get(a, g)
  {
    match f
    case Id => a.(id := Some(v.n))
    case Nombre => a.(nombre := v.s)
    case Apellidos => a.(apellidos := v.s)
    case Telefono => a.(telefono := v.s)
    case Email => a.(email := v.s)
    case Pais => a.(pais := v.s)
    case EstadoGeneral => a.(estado_general := v.s)
    case InversionTotal => a.(inversion_total := v.n)
    case ImportePendiente => a.(importe_pendiente := v.n)
    case FechaCompra => a.(fecha_compra := v.s)
    case Curso => a.(curso := v.s)
    case Notas => a.(notas := Some(v.s))
  }

  /** Setting a field to the value it already has changes nothing. */
  lemma WithFieldSame(a: Alumno, f: Field)
    requires Fits(f, Get(a, f))
    ensures WithField(a, f, Get(a, f)) == a
  {
    SameFields(WithField(a, f, Get(a, f)), a);
  }

  /** Edits of two different fields do not interfere: their order does not matter. */
  lemma WithFieldCommutes(a: Alumno, f: Field, v: Value, g: Field, w: Value)
    requires f != g && Fits(f, v) && Fits(g, w)
    ensures WithField(WithField(a, f, v), g, w) == WithField(WithField(a, g, w), f, v)
  {
    SameFields(WithField(WithField(a, f, v), g, w), WithField(WithField(a, g, w), f, v));
  }

  /** A later edit of the same field overrides the earlier one. */
  lemma WithFieldOverrides(a: Alumno, f: Field, v: Value, w: Value)
    requires Fits(f, v) && Fits(f, w)
    ensures WithField(WithField(a, f, v), f, w) == WithField(a, f, w)
  {
    SameFields(WithField(WithField(a, f, v), f, w), WithField(a, f, w));
  }

  /** What the drawer asks of the outside world. */
  datatype Call =
    | UpdateAlumno(telefono: string, record: Alumno)
    | UpdateSuccess
    | Close

  /** How the awaited `updateAlumno` call ends: it resolves to true or false, or it rejects. */
  datatype Outcome = Saved | Failed | Threw

  const SaveError: string := "No se pudo guardar la información del alumno. Intenta de nuevo."

  class AlumnoDetailModal {
    var edited: Option<Alumno>
    var isSaving: bool
    var error: Option<string>
    var calls: seq<Call>
    /** Whether the parent passed `onUpdateSuccess`. */
    const hasUpdateSuccess: bool

    constructor(hasUpdateSuccess: bool)
      ensures this.hasUpdateSuccess == hasUpdateSuccess
      ensures edited == None && !isSaving && error == None && calls == []
    {
      this.hasUpdateSuccess := hasUpdateSuccess;
      edited := None;
      isSaving := false;
      error := None;
      calls := [];
    }

    /** The drawer renders nothing while there is no record to edit. */
    predicate Renders()
      reads this
    {
      edited.Some?
    }

    /** The save button is disabled while a save is in progress. */
    predicate CanPressSave()
      reads this
    {
      !isSaving
    }

    /** The effect on `alumno`: a record is copied into the buffer and the error cleared; none empties the buffer. */
    method SyncAlumno(alumno: Option<Alumno>)
      modifies this
      ensures edited == alumno
      ensures Renders() <==> alumno.Some?
      ensures alumno.Some? ==> error == None
      ensures alumno.None? ==> error == old(error)
      ensures isSaving == old(isSaving) && calls == old(calls)
    {
      if alumno.Some? {
        edited := Some(alumno.value);
        error := None;
      } else {
        edited := None;
      }
    }

    /** `handleFieldChange`: only the named field of the buffer changes; without a buffer nothing does. */
    method HandleFieldChange(f: Field, v: Value)
      requires Fits(f, v)
      modifies this
      ensures old(edited).None? ==> edited == None
      ensures old(edited).Some? ==> edited == Some(WithField(old(edited).value, f, v))
      ensures isSaving == old(isSaving) && error == old(error) && calls == old(calls)
    {
      if edited.Some? {
        edited := Some(WithField(edited.value, f, v));
      }
    }

    /**
     * The part of `handleSave` before the store answers: without a record or
     * with an empty phone nothing happens; otherwise the drawer shows it is
     * saving, clears the error and asks the store to update the record stored
     * under the buffer's current phone with the whole buffer.
     */
    method BeginSave() returns (started: bool)
      modifies this
      ensures started <==> old(edited).Some? && old(edited).value.telefono != ""
      ensures !started ==>
        isSaving == old(isSaving) && error == old(error) && calls == old(calls)
      ensures started ==> !CanPressSave()
      ensures started ==>
        isSaving && error == None
        && calls == old(calls) + [UpdateAlumno(old(edited).value.telefono, old(edited).value)]
      ensures edited == old(edited)
    {
      if edited.None? || edited.value.telefono == "" {
        return false;
      }
      isSaving := true;
      error := None;
      calls := calls + [UpdateAlumno(edited.value.telefono, edited.value)];
      return true;
    }

    /**
     * The part after the store answers: on success the parent is told (when it
     * listens) and the drawer asks to be closed; on failure the fixed message
     * is shown. Either way the drawer stops saving. When the call rejects,
     * `handleSave` has no `catch` or `finally`: the rest of it never runs, so
     * the drawer stays saving with the error it had and the button disabled.
     */
    method FinishSave(outcome: Outcome)
      requires isSaving
      modifies this
      ensures outcome.Threw? <==> !CanPressSave()
      ensures outcome.Threw? ==> isSaving == old(isSaving) && error == old(error) && calls == old(calls)
      ensures outcome.Saved? ==>
        !isSaving
        && calls == old(calls) + (if hasUpdateSuccess then [UpdateSuccess] else []) + [Close]
        && error == old(error)
      ensures outcome.Failed? ==> !isSaving && calls == old(calls) && error == Some(SaveError)
      ensures edited == old(edited)
    {
      match outcome
      case Threw =>
        return;
      case Saved =>
        if hasUpdateSuccess {
          calls := calls + [UpdateSuccess];
        }
        calls := calls + [Close];
        isSaving := false;
      case Failed =>
        error := Some(SaveError);
        isSaving := false;
    }

    /** The whole of `handleSave` when the store call ends with `outcome`. */
    method HandleSave(outcome: Outcome)
      modifies this
      ensures var go := old(edited).Some? && old(edited).value.telefono != "";
        var request := if go then [UpdateAlumno(old(edited).value.telefono, old(edited).value)] else [];
        var after := if go && outcome.Saved? then (if hasUpdateSuccess then [UpdateSuccess] else []) + [Close] else [];
        calls == old(calls) + request + after
        && isSaving == (if go then outcome.Threw? else old(isSaving))
        && error == (if !go then old(error) else if outcome.Failed? then Some(SaveError) else None)
      ensures edited == old(edited)
    {
      var started := BeginSave();
      if started {
        FinishSave(outcome);
      }
    }

    /** The backdrop, the close icon and "Cerrar" all ask the parent to close. */
    method RequestClose()
      modifies this
      ensures calls == old(calls) + [Close]
      ensures edited == old(edited) && isSaving == old(isSaving) && error == old(error)
    {
      calls := calls + [Close];
    }
  }

  /** Mounting: the initial state followed by the `[alumno]` effect that React runs right after it. */
  method Mount(alumno: Option<Alumno>, hasUpdateSuccess: bool) returns (m: AlumnoDetailModal)
    ensures fresh(m)
    ensures m.edited == alumno && (m.Renders() <==> alumno.Some?)
    ensures !m.isSaving && m.CanPressSave() && m.error == None && m.calls == []
    ensures m.hasUpdateSuccess == hasUpdateSuccess
  {
    m := new AlumnoDetailModal(hasUpdateSuccess);
    m.SyncAlumno(alumno);
  }
}
