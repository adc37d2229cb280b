/** `FichaBibliograficaDao`: the `FichaBibliografica` table. A card row also
    carries its book's id (`idLIBRO`), which is written by `crear` only and
    never read back into the object. */
module FichaDao {
  import opened Wrappers
  import opened Text
  import opened Table
  import opened Entities
  import opened Store

  /** The exception `crear` throws when the insert affects no row. */
  const InsertFailed: string := "No se pudo crear la FichaBibliografica."

  /** The exception of the `crear` overload without a book id. */
  const NeedsLibro: string := "Usar crear(ficha, idLIBRO, conn)"

  /** The exception `actualizar` throws when no row has the id. */
  function NotFound(id: int): string {
    "No se encontro la FichaBibliografica con ID: " + IntToString(id)
  }

  /** The `ORDER BY isbn` column. */
  function Isbn(r: FichaRow): Option<string> {
    r.ficha.isbn
  }

  function AnyFicha(r: FichaRow): bool {
    true
  }

  /** `mapResultSetToFicha` (and the inline mapping of `buscarPorIdLibro`):
      isbn, clasificacionDewey, estanteria and idioma through their setters;
      the owner column is not read. A row maps exactly when every column
      passes its setter, into the values the setters store; the first
      refusal is thrown. */
  function MapFicha(r: FichaRow): (m: Result<FichaData, Thrown>)
    ensures m.Success? <==>
      && CheckIsbn(r.ficha.isbn).Pass? && CheckDewey(r.ficha.clasificacionDewey).Success?
      && CheckEstanteria(r.ficha.estanteria).Success? && CheckIdioma(r.ficha.idioma).Success?
    ensures m.Success? ==>
      m.value == FichaData(r.ficha.isbn, CheckDewey(r.ficha.clasificacionDewey).value,
                           CheckEstanteria(r.ficha.estanteria).value, CheckIdioma(r.ficha.idioma).value)
    ensures CheckIsbn(r.ficha.isbn).Fail? ==> m == Failure(Invalid(CheckIsbn(r.ficha.isbn).error))
    ensures CheckIsbn(r.ficha.isbn).Pass? && CheckDewey(r.ficha.clasificacionDewey).Failure? ==>
      m == Failure(Invalid(CheckDewey(r.ficha.clasificacionDewey).error))
    ensures (CheckIsbn(r.ficha.isbn).Pass? && CheckDewey(r.ficha.clasificacionDewey).Success?
             && CheckEstanteria(r.ficha.estanteria).Failure?) ==>
      m == Failure(Invalid(CheckEstanteria(r.ficha.estanteria).error))
    ensures (CheckIsbn(r.ficha.isbn).Pass? && CheckDewey(r.ficha.clasificacionDewey).Success?
             && CheckEstanteria(r.ficha.estanteria).Success? && CheckIdioma(r.ficha.idioma).Failure?) ==>
      m == Failure(Invalid(CheckIdioma(r.ficha.idioma).error))
    ensures m.Success? <==> FichaFields(r.ficha).Success?
    ensures m.Success? ==> m.value == FichaFields(r.ficha).value
    ensures m.Failure? ==> m.error == Invalid(FichaFields(r.ficha).error)
  {
    match FichaFields(r.ficha)
    case Failure(e) => Failure(Invalid(e))
    case Success(v) => Success(v)
  }

  /** The owner column of a row, which `actualizar` leaves as it is. An id
      with no row has no owner, and the update then matches nothing. */
  function OwnerOf(t: Rows<FichaRow>, id: int): int {
    if id in t then t[id].data.idLibro else 0
  }

  /** The row `crear(ficha, idLIBRO, conn)` writes: the card's columns and
      flag under its book's id. */
  function CardOf(idLibro: int, ficha: Row<FichaData>): Row<FichaRow> {
    Row(FichaRow(idLibro, ficha.data), ficha.eliminado)
  }

  // ---------------------------------------------------------------------
  // Writes

  /** `crear(ficha, idLIBRO, conn)`: inserts the card under the book's id and
      writes the generated id back into the object. A null book id fails
      while the statement is being filled. */
  method Crear(db: Database, ficha: FichaBibliografica, idLibro: Option<int>) returns (r: Outcome<Thrown>)
    requires db.Valid()
    modifies db`fichas, db`nextFichaId, db`committed, ficha`id
    ensures db.Valid()
    ensures idLibro.None? ==>
      && r == Fail(NullPointer)
      && db.fichas == old(db.fichas) && db.nextFichaId == old(db.nextFichaId) && ficha.id == old(ficha.id)
    ensures idLibro.Some? ==>
      match Insert(old(db.fichas), old(db.nextFichaId), CardOf(idLibro.value, Row(ficha.Data(), ficha.eliminado)), db.fichaRule)
      case Failure(refusal) =>
        && r == Fail(SqlException(RefusalError(refusal, InsertFailed)))
        && db.fichas == old(db.fichas) && db.nextFichaId == old(db.nextFichaId) && ficha.id == old(ficha.id)
      case Success(t) =>
        && r == Pass
        && db.fichas == t && db.nextFichaId == old(db.nextFichaId) + 1 && ficha.id == Some(old(db.nextFichaId))
    ensures db.committed == if db.autoCommit then db.Current() else old(db.committed)
  {
    if idLibro.None? {
      return Fail(NullPointer);
    }
    var inserted := db.InsertFicha(CardOf(idLibro.value, Row(ficha.Data(), ficha.eliminado)));
    match inserted
    case Failure(refusal) =>
      r := Fail(SqlException(RefusalError(refusal, InsertFailed)));
    case Success(id) =>
      ficha.id := Some(id);
      r := Pass;
  }

  /** `crear(ficha, conn)`: a card cannot be stored without its book. */
  method CrearSinLibro(db: Database, ficha: FichaBibliografica) returns (r: Outcome<Thrown>)
    ensures r == Fail(Unsupported(NeedsLibro))
  {
    r := Fail(Unsupported(NeedsLibro));
  }

  /** `actualizar`: overwrites the card's columns and flag in the row with
      the object's id, active or not; the owner column stays. */
  method Actualizar(db: Database, ficha: FichaBibliografica) returns (r: Outcome<Thrown>)
    requires db.Valid()
    modifies db`fichas, db`committed
    ensures db.Valid()
    ensures ficha.id.None? ==> r == Fail(NullPointer) && db.fichas == old(db.fichas) && db.committed == old(db.committed)
    ensures ficha.id.Some? ==>
      var id := ficha.id.value;
      match Update(old(db.fichas), id, CardOf(OwnerOf(old(db.fichas), id), Row(ficha.Data(), ficha.eliminado)), db.fichaRule)
      case Failure(refusal) =>
        r == Fail(SqlException(RefusalError(refusal, NotFound(id)))) && db.fichas == old(db.fichas)
      case Success(t) =>
        r == Pass && db.fichas == t
    ensures db.committed == if db.autoCommit then db.Current() else old(db.committed)
  {
    if ficha.id.None? {
      return Fail(NullPointer);
    }
    var id := ficha.id.value;
    var updated := db.UpdateFicha(id, CardOf(OwnerOf(db.fichas, id), Row(ficha.Data(), ficha.eliminado)));
    match updated
    case Fail(refusal) =>
      r := Fail(SqlException(RefusalError(refusal, NotFound(id))));
    case Pass =>
      r := Pass;
  }

  /** `eliminar`: raises the flag; a missing or deleted id is no error. */
  method Eliminar(db: Database, id: Option<int>) returns (r: Outcome<Thrown>)
    requires db.Valid()
    modifies db`fichas, db`committed
    ensures db.Valid()
    ensures id.None? ==> r == Fail(NullPointer) && db.fichas == old(db.fichas) && db.committed == old(db.committed)
    ensures id.Some? ==> r == Pass && db.fichas == SoftDelete(old(db.fichas), id.value)
    ensures db.committed == if db.autoCommit then db.Current() else old(db.committed)
  {
    if id.None? {
      return Fail(NullPointer);
    }
    db.SoftDeleteFicha(id.value);
    r := Pass;
  }

  // ---------------------------------------------------------------------
  // Reads

  /** `leer`: the active card with the id, mapped; null when there is none. */
  function Leer(t: Rows<FichaRow>, id: Option<int>): (r: Result<Option<Record<FichaData>>, Thrown>)
    ensures id.None? ==> r == Failure(NullPointer)
    ensures id.Some? ==> (r == Success(None) <==> !IsActive(t, id.value))
    ensures r.Success? && r.value.Some? ==> r.value.value.id == id.value && MapFicha(t[id.value].data) == Success(r.value.value.data)
    ensures r.Failure? && id.Some? ==> IsActive(t, id.value) && MapFicha(t[id.value].data) == Failure(r.error)
  {
    if id.None? then Failure(NullPointer)
    else
      match Find(t, id.value)
      case None => Success(None)
      case Some(row) =>
        match MapFicha(row)
        case Failure(e) => Failure(e)
        case Success(v) => Success(Some(Record(id.value, v)))
  }

  /** `leerTodos`: every active card exactly once, ordered by the stored
      isbn. */
  method LeerTodos(db: Database) returns (r: Result<seq<Record<FichaData>>, Thrown>)
    requires db.Valid()
    ensures r == Query(db.fichas, db.nextFichaId, AnyFicha, Isbn, MapFicha)
    ensures r.Success? ==> forall id :: HasId(r.value, id) <==> IsActive(db.fichas, id)
    ensures r.Success? ==> DistinctIds(r.value)
    ensures r.Success? ==> forall i :: 0 < i < |r.value| ==> KeyLe(db.fichas[r.value[i - 1].id].data.ficha.isbn, db.fichas[r.value[i].id].data.ficha.isbn)
    ensures r.Failure? <==> exists id :: IsActive(db.fichas, id) && MapFicha(db.fichas[id].data).Failure?
  {
    var rows := Select(db.fichas, db.nextFichaId, AnyFicha, Isbn);
    r := Fetch(rows, MapFicha);
    var t, n := db.fichas, db.nextFichaId;
    QueryFails(t, n, AnyFicha, Isbn, MapFicha);
    if r.Success? {
      QueryDistinct(t, n, AnyFicha, Isbn, MapFicha);
      QueryOrdered(t, n, AnyFicha, Isbn, MapFicha);
      forall id {
        QueryExactly(t, n, AnyFicha, Isbn, MapFicha, id);
      }
    }
  }

  /** The filter of `buscarPorIsbn`: `UPPER(isbn) = UPPER(?)`, which neither
      a null column nor a null parameter satisfies. */
  predicate IsbnIgual(r: FichaRow, q: Option<string>) {
    r.ficha.isbn.Some? && q.Some? && ToUpper(r.ficha.isbn.value) == ToUpper(q.value)
  }

  /** `buscarPorIsbn`: the first active card whose isbn equals the query up
      to ASCII case. */
  function BuscarPorIsbn(t: Rows<FichaRow>, n: int, q: Option<string>): (r: Result<Option<Record<FichaData>>, Thrown>)
    ensures q.None? ==> r == Success(None)
    ensures r.Success? && r.value.Some? ==>
      var id := r.value.value.id;
      IsActive(t, id) && IsbnIgual(t[id].data, q) && MapFicha(t[id].data) == Success(r.value.value.data)
  {
    First(t, n, (row: FichaRow) => IsbnIgual(row, q), MapFicha)
  }

  /** The filter of `buscarPorIdLibro`: `idLIBRO = ?`. */
  predicate DelLibro(r: FichaRow, idLibro: int) {
    r.idLibro == idLibro
  }

  /** `buscarPorIdLibro`: the first active card of the book. A null book id
      fails while the statement is being filled. */
  function BuscarPorIdLibro(t: Rows<FichaRow>, n: int, idLibro: Option<int>): (r: Result<Option<Record<FichaData>>, Thrown>)
    ensures idLibro.None? ==> r == Failure(NullPointer)
    ensures r.Success? && r.value.Some? ==>
      var id := r.value.value.id;
      IsActive(t, id) && t[id].data.idLibro == idLibro.value && MapFicha(t[id].data) == Success(r.value.value.data)
  {
    if idLibro.None? then Failure(NullPointer)
    else First(t, n, (row: FichaRow) => DelLibro(row, idLibro.value), MapFicha)
  }

  // ---------------------------------------------------------------------
  // Properties across operations

  /** `buscarPorIsbn` finds nothing exactly when no active card carries the
      isbn, and otherwise the one with the least id. */
  lemma BuscarPorIsbnSpec(t: Rows<FichaRow>, n: int, q: Option<string>)
    requires forall k :: k in t ==> 1 <= k < n
    ensures BuscarPorIsbn(t, n, q) == Success(None) <==> !exists id :: IsActive(t, id) && IsbnIgual(t[id].data, q)
    ensures forall id :: IsActive(t, id) && IsbnIgual(t[id].data, q) && BuscarPorIsbn(t, n, q).Success? ==>
      BuscarPorIsbn(t, n, q).value.Some? && BuscarPorIsbn(t, n, q).value.value.id <= id
  {
    var where := (row: FichaRow) => IsbnIgual(row, q);
    FirstNone(t, n, where, MapFicha);
    forall id | IsActive(t, id) && IsbnIgual(t[id].data, q) && BuscarPorIsbn(t, n, q).Success?
      ensures BuscarPorIsbn(t, n, q).value.Some? && BuscarPorIsbn(t, n, q).value.value.id <= id
    {
      FirstIsLeast(t, n, where, MapFicha, id);
    }
  }

  /** `buscarPorIdLibro` finds nothing exactly when the book has no active
      card, and otherwise the one with the least id. */
  lemma BuscarPorIdLibroSpec(t: Rows<FichaRow>, n: int, idLibro: int)
    requires forall k :: k in t ==> 1 <= k < n
    ensures BuscarPorIdLibro(t, n, Some(idLibro)) == Success(None) <==> !exists id :: IsActive(t, id) && t[id].data.idLibro == idLibro
    ensures forall id :: IsActive(t, id) && t[id].data.idLibro == idLibro && BuscarPorIdLibro(t, n, Some(idLibro)).Success? ==>
      BuscarPorIdLibro(t, n, Some(idLibro)).value.Some? && BuscarPorIdLibro(t, n, Some(idLibro)).value.value.id <= id
  {
    var where := (row: FichaRow) => DelLibro(row, idLibro);
    FirstNone(t, n, where, MapFicha);
    forall id | IsActive(t, id) && t[id].data.idLibro == idLibro && BuscarPorIdLibro(t, n, Some(idLibro)).Success?
      ensures BuscarPorIdLibro(t, n, Some(idLibro)).value.Some? && BuscarPorIdLibro(t, n, Some(idLibro)).value.value.id <= id
    {
      FirstIsLeast(t, n, where, MapFicha, id);
    }
  }

  /** A valid card stored under a book reads back as written. */
  lemma ReadBack(t: Rows<FichaRow>, n: int, owner: int, d: FichaData, rule: Rule<FichaRow>)
    requires Insert(t, n, Row(FichaRow(owner, d), false), rule).Success?
    requires FichaDataValid(d)
    ensures Leer(Insert(t, n, Row(FichaRow(owner, d), false), rule).value, Some(n)) == Success(Some(Record(n, d)))
  {
    FichaDataStable(d);
  }

  /** `actualizar` never moves a card to another book. */
  lemma UpdateKeepsOwners(t: Rows<FichaRow>, id: int, d: FichaData, eliminado: bool, rule: Rule<FichaRow>)
    requires Update(t, id, Row(FichaRow(OwnerOf(t, id), d), eliminado), rule).Success?
    ensures var u := Update(t, id, Row(FichaRow(OwnerOf(t, id), d), eliminado), rule).value;
      u.Keys == t.Keys && forall k :: k in t ==> u[k].data.idLibro == t[k].data.idLibro
  {
  }
}
