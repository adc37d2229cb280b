/** `LibroDao`: the `Libro` table through the `GenericDao` operations plus the
    title search. Every row read back passes through the setters of a new
    `Libro` (`mapResultSetToLibro`), so a stored value the setters refuse
    makes the read throw. */
module LibroDao {
  import opened Wrappers
  import opened Text
  import opened Table
  import opened Entities
  import opened Store

  /** The exception `crear` throws when the insert affects no row. */
  const InsertFailed: string := "No se pudo crear el Libro."

  /** The exception `actualizar` throws when no row has the id. */
  function NotFound(id: int): string {
    "No se encontro el Libro con ID: " + IntToString(id)
  }

  /** The `ORDER BY titulo` column. */
  function Titulo(d: LibroData): Option<string> {
    d.titulo
  }

  function AnyLibro(d: LibroData): bool {
    true
  }

  /** `mapResultSetToLibro`: titulo, autor, editorial and anioEdicion through
      their setters, in that order; the first refusal is thrown. A row maps
      exactly when every column passes its setter, into the values the
      setters store. */
  function MapLibro(d: LibroData): (r: Result<LibroData, Thrown>)
    ensures r.Success? <==>
      && CheckTitulo(d.titulo).Success? && CheckAutor(d.autor).Success?
      && CheckEditorial(d.editorial).Success? && CheckAnio(d.anioEdicion).Pass?
    ensures r.Success? ==>
      r.value == LibroData(Some(CheckTitulo(d.titulo).value), Some(CheckAutor(d.autor).value),
                           CheckEditorial(d.editorial).value, d.anioEdicion)
    ensures CheckTitulo(d.titulo).Failure? ==> r == Failure(Invalid(CheckTitulo(d.titulo).error))
    ensures CheckTitulo(d.titulo).Success? && CheckAutor(d.autor).Failure? ==>
      r == Failure(Invalid(CheckAutor(d.autor).error))
    ensures CheckTitulo(d.titulo).Success? && CheckAutor(d.autor).Success? && CheckEditorial(d.editorial).Failure? ==>
      r == Failure(Invalid(CheckEditorial(d.editorial).error))
    ensures (CheckTitulo(d.titulo).Success? && CheckAutor(d.autor).Success? && CheckEditorial(d.editorial).Success?
             && CheckAnio(d.anioEdicion).Fail?) ==> r == Failure(Invalid(AnioFueraDeRango))
    ensures r.Success? <==> SetterFields(d).Success?
    ensures r.Success? ==> r.value == SetterFields(d).value
    ensures r.Failure? ==> r.error == Invalid(SetterFields(d).error)
  {
    match SetterFields(d)
    case Failure(e) => Failure(Invalid(e))
    case Success(v) => Success(v)
  }

  // ---------------------------------------------------------------------
  // Writes

  /** `crear`: inserts the five columns of the object and writes the
      generated id back into it. */
  method Crear(db: Database, libro: Libro) returns (r: Outcome<Thrown>)
    requires db.Valid()
    modifies db`libros, db`nextLibroId, db`committed, libro`id
    ensures db.Valid()
    ensures var row := Row(libro.Data(), libro.eliminado);
      match Insert(old(db.libros), old(db.nextLibroId), row, db.libroRule)
      case Failure(refusal) =>
        && r == Fail(SqlException(RefusalError(refusal, InsertFailed)))
        && db.libros == old(db.libros) && db.nextLibroId == old(db.nextLibroId) && libro.id == old(libro.id)
      case Success(t) =>
        && r == Pass
        && db.libros == t && db.nextLibroId == old(db.nextLibroId) + 1 && libro.id == Some(old(db.nextLibroId))
    ensures db.committed == if db.autoCommit then db.Current() else old(db.committed)
  {
    var inserted := db.InsertLibro(Row(libro.Data(), libro.eliminado));
    match inserted
    case Failure(refusal) =>
      r := Fail(SqlException(RefusalError(refusal, InsertFailed)));
    case Success(id) =>
      libro.id := Some(id);
      r := Pass;
  }

  /** `actualizar`: overwrites all five columns of the row with the
      object's id, whether that row is deleted or not. */
  method Actualizar(db: Database, libro: Libro) returns (r: Outcome<Thrown>)
    requires db.Valid()
    modifies db`libros, db`committed
    ensures db.Valid()
    ensures libro.id.None? ==> r == Fail(NullPointer) && db.libros == old(db.libros) && db.committed == old(db.committed)
    ensures libro.id.Some? ==>
      match Update(old(db.libros), libro.id.value, Row(libro.Data(), libro.eliminado), db.libroRule)
      case Failure(refusal) =>
        r == Fail(SqlException(RefusalError(refusal, NotFound(libro.id.value)))) && db.libros == old(db.libros)
      case Success(t) =>
        r == Pass && db.libros == t
    ensures db.committed == if db.autoCommit then db.Current() else old(db.committed)
  {
    if libro.id.None? {
      return Fail(NullPointer);
    }
    var updated := db.UpdateLibro(libro.id.value, Row(libro.Data(), libro.eliminado));
    match updated
    case Fail(refusal) =>
      r := Fail(SqlException(RefusalError(refusal, NotFound(libro.id.value))));
    case Pass =>
      r := Pass;
  }

  /** `eliminar`: raises the flag; a missing or deleted id is no error. */
  method Eliminar(db: Database, id: Option<int>) returns (r: Outcome<Thrown>)
    requires db.Valid()
    modifies db`libros, db`committed
    ensures db.Valid()
    ensures id.None? ==> r == Fail(NullPointer) && db.libros == old(db.libros) && db.committed == old(db.committed)
    ensures id.Some? ==> r == Pass && db.libros == SoftDelete(old(db.libros), id.value)
    ensures db.committed == if db.autoCommit then db.Current() else old(db.committed)
  {
    if id.None? {
      return Fail(NullPointer);
    }
    db.SoftDeleteLibro(id.value);
    r := Pass;
  }

  // ---------------------------------------------------------------------
  // Reads

  /** `leer`: the active row with the id, mapped; null when there is none. */
  function Leer(t: Rows<LibroData>, id: Option<int>): (r: Result<Option<Record<LibroData>>, Thrown>)
    ensures id.None? ==> r == Failure(NullPointer)
    ensures id.Some? ==> (r == Success(None) <==> !IsActive(t, id.value))
    ensures r.Success? && r.value.Some? ==> r.value.value.id == id.value && MapLibro(t[id.value].data) == Success(r.value.value.data)
    ensures r.Failure? && id.Some? ==> IsActive(t, id.value) && MapLibro(t[id.value].data) == Failure(r.error)
  {
    if id.None? then Failure(NullPointer)
    else
      match Find(t, id.value)
      case None => Success(None)
      case Some(d) =>
        match MapLibro(d)
        case Failure(e) => Failure(e)
        case Success(v) => Success(Some(Record(id.value, v)))
  }

  /** `leerTodos`: every active row exactly once, ordered by the stored
      titulo, each mapped; the first row the setters refuse is thrown. */
  method LeerTodos(db: Database) returns (r: Result<seq<Record<LibroData>>, Thrown>)
    requires db.Valid()
    ensures r == Query(db.libros, db.nextLibroId, AnyLibro, Titulo, MapLibro)
    ensures r.Success? ==> forall id :: HasId(r.value, id) <==> IsActive(db.libros, id)
    ensures r.Success? ==> DistinctIds(r.value)
    ensures r.Success? ==> forall i :: 0 < i < |r.value| ==> KeyLe(db.libros[r.value[i - 1].id].data.titulo, db.libros[r.value[i].id].data.titulo)
    ensures r.Failure? <==> exists id :: IsActive(db.libros, id) && MapLibro(db.libros[id].data).Failure?
  {
    var rows := Select(db.libros, db.nextLibroId, AnyLibro, Titulo);
    r := Fetch(rows, MapLibro);
    ListFacts(db, AnyLibro);
  }

  /** The title search's filter: `UPPER(titulo) LIKE UPPER('%q%')`, with `%`
      and `_` in the query taken literally. A null title matches nothing. */
  predicate TituloContiene(d: LibroData, q: string) {
    d.titulo.Some? && Contains(ToUpper(d.titulo.value), ToUpper(q))
  }

  /** The text `"%" + titulo + "%"` puts between the wildcards: a null query
      becomes the four letters `null`. */
  function QueryText(q: Option<string>): string {
    if q.None? then "null" else q.value
  }

  /** `buscarPorTitulo`: the active rows whose title contains the query,
      ignoring ASCII case, ordered by the stored titulo. */
  method BuscarPorTitulo(db: Database, q: Option<string>) returns (r: Result<seq<Record<LibroData>>, Thrown>)
    requires db.Valid()
    ensures r == Query(db.libros, db.nextLibroId, (d: LibroData) => TituloContiene(d, QueryText(q)), Titulo, MapLibro)
    ensures r.Success? ==> forall id :: HasId(r.value, id) <==> IsActive(db.libros, id) && TituloContiene(db.libros[id].data, QueryText(q))
    ensures r.Success? ==> DistinctIds(r.value)
    ensures r.Success? ==> forall i :: 0 < i < |r.value| ==> KeyLe(db.libros[r.value[i - 1].id].data.titulo, db.libros[r.value[i].id].data.titulo)
  {
    var where := (d: LibroData) => TituloContiene(d, QueryText(q));
    var rows := Select(db.libros, db.nextLibroId, where, Titulo);
    r := Fetch(rows, MapLibro);
    ListFacts(db, where);
  }

  /** What a list read of the `Libro` table holds, for a given filter. */
  lemma ListFacts(db: Database, where: LibroData -> bool)
    requires db.Valid()
    ensures var r := Query(db.libros, db.nextLibroId, where, Titulo, MapLibro);
      && (r.Success? ==> forall id :: HasId(r.value, id) <==> IsActive(db.libros, id) && where(db.libros[id].data))
      && (r.Success? ==> DistinctIds(r.value))
      && (r.Success? ==> forall i :: 0 < i < |r.value| ==> KeyLe(db.libros[r.value[i - 1].id].data.titulo, db.libros[r.value[i].id].data.titulo))
      && (r.Failure? <==> exists id :: IsActive(db.libros, id) && where(db.libros[id].data) && MapLibro(db.libros[id].data).Failure?)
  {
    var t, n := db.libros, db.nextLibroId;
    QueryFails(t, n, where, Titulo, MapLibro);
    if Query(t, n, where, Titulo, MapLibro).Success? {
      QueryDistinct(t, n, where, Titulo, MapLibro);
      QueryOrdered(t, n, where, Titulo, MapLibro);
      forall id {
        QueryExactly(t, n, where, Titulo, MapLibro, id);
      }
    }
  }

  // ---------------------------------------------------------------------
  // Properties across operations

  /** A book stored from a valid object whose year is in range reads back
      as it was written. */
  lemma ReadBack(t: Rows<LibroData>, n: int, d: LibroData, rule: Rule<LibroData>)
    requires Insert(t, n, Row(d, false), rule).Success?
    requires LibroFieldsValid(d) && d.titulo.Some? && d.autor.Some? && CheckAnio(d.anioEdicion).Pass?
    ensures Leer(Insert(t, n, Row(d, false), rule).value, Some(n)) == Success(Some(Record(n, d)))
  {
    LibroDataStable(d);
  }

  /** The constructor lets an out-of-range year through, `crear` stores it,
      and from then on every read of that row throws. */
  lemma YearOutOfRangeUnreadable(t: Rows<LibroData>, n: int, titulo: Option<string>, autor: Option<string>, editorial: Option<string>, anio: int, rule: Rule<LibroData>)
    requires ConstructorFields(titulo, autor, editorial, Some(anio)).Success?
    requires anio < MinAnio || anio > MaxAnio
    requires Insert(t, n, Row(ConstructorFields(titulo, autor, editorial, Some(anio)).value, false), rule).Success?
    ensures Leer(Insert(t, n, Row(ConstructorFields(titulo, autor, editorial, Some(anio)).value, false), rule).value, Some(n))
      == Failure(Invalid(AnioFueraDeRango))
  {
    var d := ConstructorFields(titulo, autor, editorial, Some(anio)).value;
    ConstructorSkipsYear(titulo, autor, editorial, Some(anio));
    LibroDataStable(LibroData(d.titulo, d.autor, d.editorial, None));
    assert SetterFields(d) == Failure(AnioFueraDeRango);
  }

  /** After `eliminar` the row reads as absent, though it is still stored. */
  lemma DeletedReadsAsAbsent(t: Rows<LibroData>, id: int)
    ensures Leer(SoftDelete(t, id), Some(id)) == Success(None)
    ensures id in t ==> id in SoftDelete(t, id)
  {
  }

  /** `actualizar` with `eliminado = false` brings a deleted row back. */
  lemma UpdateRestores(t: Rows<LibroData>, id: int, d: LibroData, rule: Rule<LibroData>)
    requires id in t && t[id].eliminado
    requires Update(t, id, Row(d, false), rule).Success?
    ensures IsActive(Update(t, id, Row(d, false), rule).value, id)
    ensures Leer(Update(t, id, Row(d, false), rule).value, Some(id)) != Success(None)
  {
  }
}
