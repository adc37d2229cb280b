/** The database both DAOs talk to, seen through one connection: the `Libro`
    and `FichaBibliografica` tables, their auto-increment counters, the
    connection's auto-commit mode and the last committed state a rollback
    returns to. The schema's constraints (not part of this model) are the
    two rules the store is built with. */
module Store {
  import opened Wrappers
  import opened Text
  import opened Table
  import opened Entities

  /** A `java.sql.SQLException` as the services read it: its SQLState (null
      for the DAOs' own exceptions) and its message. */
  datatype SqlError = SqlError(sqlState: Option<string>, message: string)

  /** The exceptions the DAOs and services let escape. */
  datatype Thrown =
    | SqlException(sqlError: SqlError)
    | Invalid(entityError: EntityError)      // thrown by an entity setter
    | IllegalArgument(message: string)
    | IllegalState(message: string)
    | Unsupported(message: string)
    | NullPointer                            // a null id unboxed for `setLong`
    | Runtime(message: string, cause: SqlError)

  /** SQLState of a MySQL duplicate-key error. */
  const DuplicateState: string := "23000"

  /** The exception a refused statement surfaces as: the server's
      constraint error, or the DAO's own exception for "no row affected". */
  function RefusalError(r: Refusal, noRows: string): (e: SqlError)
    ensures r.Duplicate? ==> e == SqlError(Some(DuplicateState), r.message)
    ensures r.NoRowsAffected? ==> e == SqlError(None, noRows)
  {
    match r
    case Duplicate(m) => SqlError(Some(DuplicateState), m)
    case NoRowsAffected => SqlError(None, noRows)
  }

  /** A card row: the owning book (`idLIBRO`) and the card's own columns. */
  datatype FichaRow = FichaRow(idLibro: int, ficha: FichaData)

  /** The contents of both tables. */
  datatype Snapshot = Snapshot(libros: Rows<LibroData>, fichas: Rows<FichaRow>)

  class Database {
    var libros: Rows<LibroData>
    var fichas: Rows<FichaRow>
    var nextLibroId: int
    var nextFichaId: int
    var autoCommit: bool
    var committed: Snapshot
    const libroRule: Rule<LibroData>
    const fichaRule: Rule<FichaRow>
    /** The exception `commit` throws, if this connection's commits fail. */
    const commitError: Option<SqlError>

    function Current(): Snapshot
      reads this
    {
      Snapshot(libros, fichas)
    }

    /** Every stored or committed id was handed out by its counter. */
    ghost predicate IdsBounded()
      reads this
    {
      && 1 <= nextLibroId && 1 <= nextFichaId
      && (forall id :: id in libros ==> 1 <= id < nextLibroId)
      && (forall id :: id in fichas ==> 1 <= id < nextFichaId)
      && (forall id :: id in committed.libros ==> 1 <= id < nextLibroId)
      && (forall id :: id in committed.fichas ==> 1 <= id < nextFichaId)
    }

    ghost predicate Valid()
      reads this
    {
      IdsBounded() && (autoCommit ==> committed == Current())
    }

    /** An empty database and a fresh connection, in auto-commit mode. */
    constructor (libroRule: Rule<LibroData>, fichaRule: Rule<FichaRow>, commitError: Option<SqlError>)
      ensures Valid() && autoCommit
      ensures libros == map[] && fichas == map[] && nextLibroId == 1 && nextFichaId == 1
      ensures this.libroRule == libroRule && this.fichaRule == fichaRule && this.commitError == commitError
    {
      this.libroRule := libroRule;
      this.fichaRule := fichaRule;
      this.commitError := commitError;
      libros, fichas := map[], map[];
      nextLibroId, nextFichaId := 1, 1;
      autoCommit := true;
      committed := Snapshot(map[], map[]);
    }

    /** `setAutoCommit`: switching it on commits the open transaction. */
    method SetAutoCommit(on: bool)
      requires Valid()
      modifies this`autoCommit, this`committed
      ensures Valid() && autoCommit == on
      ensures committed == if on then Current() else old(committed)
    {
      if on {
        committed := Current();
      }
      autoCommit := on;
    }

    /** `commit`: the current state becomes the committed one, unless the
        connection's commits fail. */
    method Commit() returns (r: Outcome<SqlError>)
      requires Valid()
      modifies this`committed
      ensures Valid()
      ensures r.Fail? <==> commitError.Some?
      ensures r.Fail? ==> r.error == commitError.value && committed == old(committed)
      ensures r.Pass? ==> committed == Current()
    {
      if commitError.Some? {
        return Fail(commitError.value);
      }
      committed := Current();
      return Pass;
    }

    /** `rollback`: both tables return to the committed state. The
        auto-increment counters do not: an id handed out inside the
        transaction is not handed out again. */
    method Rollback()
      requires Valid()
      modifies this`libros, this`fichas
      ensures Valid()
      ensures Current() == old(committed)
    {
      libros, fichas := committed.libros, committed.fichas;
    }

    /** `INSERT INTO Libro`: the row gets the next id, unless the rule
        refuses it. */
    method InsertLibro(row: Row<LibroData>) returns (r: Result<int, Refusal>)
      requires Valid()
      modifies this`libros, this`nextLibroId, this`committed
      ensures Valid()
      ensures r.Failure? ==> Insert(old(libros), old(nextLibroId), row, libroRule) == Failure(r.error)
      ensures r.Failure? ==> libros == old(libros) && nextLibroId == old(nextLibroId)
      ensures r.Success? ==> Insert(old(libros), old(nextLibroId), row, libroRule) == Success(libros)
      ensures r.Success? ==> r.value == old(nextLibroId) && r.value !in old(libros) && nextLibroId == old(nextLibroId) + 1
      ensures committed == if autoCommit then Current() else old(committed)
    {
      match Insert(libros, nextLibroId, row, libroRule)
      case Failure(refusal) =>
        r := Failure(refusal);
      case Success(t) =>
        r := Success(nextLibroId);
        libros, nextLibroId := t, nextLibroId + 1;
        if autoCommit {
          committed := Current();
        }
    }

    /** `UPDATE Libro ... WHERE id = ?`. */
    method UpdateLibro(id: int, row: Row<LibroData>) returns (r: Outcome<Refusal>)
      requires Valid()
      modifies this`libros, this`committed
      ensures Valid()
      ensures r.Fail? ==> Update(old(libros), id, row, libroRule) == Failure(r.error) && libros == old(libros)
      ensures r.Pass? ==> Update(old(libros), id, row, libroRule) == Success(libros)
      ensures committed == if autoCommit then Current() else old(committed)
    {
      match Update(libros, id, row, libroRule)
      case Failure(refusal) =>
        r := Fail(refusal);
      case Success(t) =>
        r := Pass;
        libros := t;
        if autoCommit {
          committed := Current();
        }
    }

    /** `UPDATE Libro SET eliminado = TRUE WHERE id = ?`. */
    method SoftDeleteLibro(id: int)
      requires Valid()
      modifies this`libros, this`committed
      ensures Valid()
      ensures libros == SoftDelete(old(libros), id)
      ensures committed == if autoCommit then Current() else old(committed)
    {
      libros := SoftDelete(libros, id);
      if autoCommit {
        committed := Current();
      }
    }

    /** `INSERT INTO FichaBibliografica`: the row gets the next id, unless
        the rule refuses it. */
    method InsertFicha(row: Row<FichaRow>) returns (r: Result<int, Refusal>)
      requires Valid()
      modifies this`fichas, this`nextFichaId, this`committed
      ensures Valid()
      ensures r.Failure? ==> Insert(old(fichas), old(nextFichaId), row, fichaRule) == Failure(r.error)
      ensures r.Failure? ==> fichas == old(fichas) && nextFichaId == old(nextFichaId)
      ensures r.Success? ==> Insert(old(fichas), old(nextFichaId), row, fichaRule) == Success(fichas)
      ensures r.Success? ==> r.value == old(nextFichaId) && r.value !in old(fichas) && nextFichaId == old(nextFichaId) + 1
      ensures committed == if autoCommit then Current() else old(committed)
    {
      match Insert(fichas, nextFichaId, row, fichaRule)
      case Failure(refusal) =>
        r := Failure(refusal);
      case Success(t) =>
        r := Success(nextFichaId);
        fichas, nextFichaId := t, nextFichaId + 1;
        if autoCommit {
          committed := Current();
        }
    }

    /** `UPDATE FichaBibliografica ... WHERE id = ?`. */
    method UpdateFicha(id: int, row: Row<FichaRow>) returns (r: Outcome<Refusal>)
      requires Valid()
      modifies this`fichas, this`committed
      ensures Valid()
      ensures r.Fail? ==> Update(old(fichas), id, row, fichaRule) == Failure(r.error) && fichas == old(fichas)
      ensures r.Pass? ==> Update(old(fichas), id, row, fichaRule) == Success(fichas)
      ensures committed == if autoCommit then Current() else old(committed)
    {
      match Update(fichas, id, row, fichaRule)
      case Failure(refusal) =>
        r := Fail(refusal);
      case Success(t) =>
        r := Pass;
        fichas := t;
        if autoCommit {
          committed := Current();
        }
    }

    /** `UPDATE FichaBibliografica SET eliminado = TRUE WHERE id = ?`. */
    method SoftDeleteFicha(id: int)
      requires Valid()
      modifies this`fichas, this`committed
      ensures Valid()
      ensures fichas == SoftDelete(old(fichas), id)
      ensures committed == if autoCommit then Current() else old(committed)
    {
      fichas := SoftDelete(fichas, id);
      if autoCommit {
        committed := Current();
      }
    }
  }
}
