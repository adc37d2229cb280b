/** `GenericService`: every write runs on a connection with auto-commit off,
    commits when the DAO returns normally, rolls back and rethrows as a
    `RuntimeException` when the DAO (or the commit) throws an
    `SQLException`, lets every other exception through untouched, and turns
    auto-commit back on however it ends. */
module GenericService {
  import opened Wrappers
  import opened Text
  import opened Table
  import opened Entities
  import opened Store
  import LibroDao
  import FichaDao

  /** How a write transaction ends, given what the DAO work returned and
      whether the connection's commit throws: the `RuntimeException` that
      wraps an `SQLException` carries it as its cause. */
  function Settle(w: Outcome<Thrown>, commitError: Option<SqlError>, msg: SqlError -> string): (r: Outcome<Thrown>)
    ensures r.Pass? <==> w.Pass? && commitError.None?
    ensures w.Fail? && !w.error.SqlException? ==> r == w
    ensures w.Fail? && w.error.SqlException? ==> r == Fail(Runtime(msg(w.error.sqlError), w.error.sqlError))
    ensures w.Pass? && commitError.Some? ==> r == Fail(Runtime(msg(commitError.value), commitError.value))
  {
    match w
    case Pass =>
      if commitError.Some? then Fail(Runtime(msg(commitError.value), commitError.value)) else Pass
    case Fail(e) =>
      if e.SqlException? then Fail(Runtime(msg(e.sqlError), e.sqlError)) else Fail(e)
  }

  /** The cases in which the transaction is rolled back. */
  predicate RollsBack(w: Outcome<Thrown>, commitError: Option<SqlError>) {
    (w.Pass? && commitError.Some?) || (w.Fail? && w.error.SqlException?)
  }

  /** The `commit` / `catch (SQLException) { rollback }` part of a write. */
  method Conclude(db: Database, w: Outcome<Thrown>, msg: SqlError -> string) returns (r: Outcome<Thrown>)
    requires db.Valid() && !db.autoCommit
    modifies db`libros, db`fichas, db`committed
    ensures db.Valid() && !db.autoCommit
    ensures r == Settle(w, db.commitError, msg)
    ensures db.Current() == if RollsBack(w, db.commitError) then old(db.committed) else old(db.Current())
  {
    match w
    case Pass =>
      var c := db.Commit();
      if c.Fail? {
        db.Rollback();
        r := Fail(Runtime(msg(c.error), c.error));
      } else {
        r := Pass;
      }
    case Fail(e) =>
      if e.SqlException? {
        db.Rollback();
        r := Fail(Runtime(msg(e.sqlError), e.sqlError));
      } else {
        r := w;
      }
  }

  // ---------------------------------------------------------------------
  // The constraint classifiers of both services share these tests.

  /** The SQLState is not null and starts with "23" (integrity constraint
      violation). */
  predicate IsConstraint(e: SqlError) {
    e.sqlState.Some? && |e.sqlState.value| >= 2 && e.sqlState.value[..2] == "23"
  }

  /** The lower-cased message contains the word. */
  predicate Mentions(e: SqlError, word: string) {
    Contains(ToLower(e.message), word)
  }

  /** A refused statement is classified by its message alone: a duplicate
      key carries state 23000, a statement that affected no row no state. */
  lemma RefusalConstraint(r: Refusal, noRows: string)
    ensures IsConstraint(RefusalError(r, noRows)) <==> r.Duplicate?
  {
    if r.Duplicate? {
      assert DuplicateState[..2] == "23";
    }
  }

  // ---------------------------------------------------------------------
  // The inherited operations

  const CreateError: string := "Error al crear entidad: "
  const UpdateError: string := "Error al actualizar entidad"
  const DeleteError: string := "Error al eliminar logicamente"

  function CreateMessage(e: SqlError): string {
    CreateError + e.message
  }

  function UpdateMessage(e: SqlError): string {
    UpdateError
  }

  function DeleteMessage(e: SqlError): string {
    DeleteError
  }

  /** `crear` with the card DAO (the card service does not override it):
      the DAO refuses, and the refusal is no `SQLException`. */
  method CrearFicha(db: Database, ficha: FichaBibliografica) returns (r: Outcome<Thrown>)
    requires db.Valid() && db.autoCommit
    modifies db`libros, db`fichas, db`committed, db`autoCommit
    ensures db.Valid() && db.autoCommit
    ensures r == Fail(Unsupported(FichaDao.NeedsLibro))
    ensures db.Current() == old(db.Current())
  {
    db.SetAutoCommit(false);
    var w := FichaDao.CrearSinLibro(db, ficha);
    r := Conclude(db, w, CreateMessage);
    db.SetAutoCommit(true);
  }

  /** `actualizar` with the card DAO: the card row is rewritten and
      committed, or the table is left as it was. */
  method ActualizarFicha(db: Database, ficha: FichaBibliografica) returns (r: Outcome<Thrown>)
    requires db.Valid() && db.autoCommit
    modifies db`libros, db`fichas, db`committed, db`autoCommit
    ensures db.Valid() && db.autoCommit
    ensures db.libros == old(db.libros)
    ensures ficha.id.None? ==> r == Fail(NullPointer) && db.fichas == old(db.fichas)
    ensures ficha.id.Some? ==>
      var id := ficha.id.value;
      var u := Update(old(db.fichas), id, FichaDao.CardOf(FichaDao.OwnerOf(old(db.fichas), id), Row(ficha.Data(), ficha.eliminado)), db.fichaRule);
      && r == Settle(if u.Success? then Pass else Fail(SqlException(RefusalError(u.error, FichaDao.NotFound(id)))), db.commitError, UpdateMessage)
      && db.fichas == if r.Pass? then u.value else old(db.fichas)
  {
    db.SetAutoCommit(false);
    var w := FichaDao.Actualizar(db, ficha);
    r := Conclude(db, w, UpdateMessage);
    db.SetAutoCommit(true);
  }

  /** `eliminarLogico` with the book DAO. The book's card is not touched. */
  method EliminarLibro(db: Database, id: Option<int>) returns (r: Outcome<Thrown>)
    requires db.Valid() && db.autoCommit
    modifies db`libros, db`fichas, db`committed, db`autoCommit
    ensures db.Valid() && db.autoCommit
    ensures db.fichas == old(db.fichas)
    ensures id.None? ==> r == Fail(NullPointer) && db.libros == old(db.libros)
    ensures id.Some? ==>
      && r == Settle(Pass, db.commitError, DeleteMessage)
      && db.libros == if r.Pass? then SoftDelete(old(db.libros), id.value) else old(db.libros)
  {
    db.SetAutoCommit(false);
    var w := LibroDao.Eliminar(db, id);
    r := Conclude(db, w, DeleteMessage);
    db.SetAutoCommit(true);
  }

  /** `eliminarLogico` with the card DAO. */
  method EliminarFicha(db: Database, id: Option<int>) returns (r: Outcome<Thrown>)
    requires db.Valid() && db.autoCommit
    modifies db`libros, db`fichas, db`committed, db`autoCommit
    ensures db.Valid() && db.autoCommit
    ensures db.libros == old(db.libros)
    ensures id.None? ==> r == Fail(NullPointer) && db.fichas == old(db.fichas)
    ensures id.Some? ==>
      && r == Settle(Pass, db.commitError, DeleteMessage)
      && db.fichas == if r.Pass? then SoftDelete(old(db.fichas), id.value) else old(db.fichas)
  {
    db.SetAutoCommit(false);
    var w := FichaDao.Eliminar(db, id);
    r := Conclude(db, w, DeleteMessage);
    db.SetAutoCommit(true);
  }
}
