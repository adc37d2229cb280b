/** `LibroService`: the book side of the catalogue. Its one composite write,
    `crearLibroConFicha`, stores a book and its card in a single transaction;
    plain `crear` is refused so that no book is stored without this path. */
module LibroService {
  import opened Wrappers
  import opened Text
  import opened Table
  import opened Entities
  import opened Store
  import opened Relation
  import opened GenericService
  import LibroDao
  import FichaDao

  const NullLibro: string := "El Libro no puede ser nulo"
  const NullFicha: string := "La Ficha Bibliografica no puede ser nula"
  const AlreadyLinked: string := "El Libro ya tiene una Ficha Bibliografica"
  const IsbnTooLong: string := "ISBN excede los 17 caracteres permitidos"
  const PairFailed: string := "No se pudo crear Libro con Ficha: "
  const UseCrearLibroConFicha: string := "Usar crearLibroConFicha() para Libro con FichaBibliografica"
  const UpdateLibroError: string := "Error al actualizar el Libro"

  // ---------------------------------------------------------------------
  // extraerMensajeUsuario

  const LinkTaken: string := "Ya existe una FichaBibliografica para este Libro"
  const IsbnTaken: string := "ISBN ya registrado en otra ficha"
  const DbError: string := "error en la base de datos"

  /** The user text for an `SQLException`: a duplicate-key violation naming
      `idlibro` is tested first, then one naming `isbn`; anything else is a
      generic database error. */
  function MensajeUsuario(e: SqlError): (m: string)
    ensures m == LinkTaken || m == IsbnTaken || m == DbError
    ensures m == LinkTaken <==> IsConstraint(e) && Mentions(e, "duplicate entry") && Mentions(e, "idlibro")
    ensures m == IsbnTaken <==> IsConstraint(e) && Mentions(e, "duplicate entry") && !Mentions(e, "idlibro") && Mentions(e, "isbn")
  {
    if IsConstraint(e) && Mentions(e, "duplicate entry") && Mentions(e, "idlibro") then LinkTaken
    else if IsConstraint(e) && Mentions(e, "duplicate entry") && Mentions(e, "isbn") then IsbnTaken
    else DbError
  }

  function PairMessage(e: SqlError): string {
    PairFailed + MensajeUsuario(e)
  }

  // ---------------------------------------------------------------------
  // crearLibroConFicha

  /** The checks made before any connection is opened. */
  function PairError(libro: Libro?, ficha: FichaBibliografica?): (r: Option<Thrown>)
    reads libro, ficha
    ensures r.None? <==> libro != null && ficha != null && libro.fichaBibliografica == null && (ficha.isbn.Some? ==> |ficha.isbn.value| <= MaxIsbn)
    ensures libro == null ==> r == Some(IllegalArgument(NullLibro))
    ensures libro != null && ficha == null ==> r == Some(IllegalArgument(NullFicha))
    ensures libro != null && ficha != null && libro.fichaBibliografica != null ==> r == Some(IllegalState(AlreadyLinked))
  {
    if libro == null then Some(IllegalArgument(NullLibro))
    else if ficha == null then Some(IllegalArgument(NullFicha))
    else if libro.fichaBibliografica != null then Some(IllegalState(AlreadyLinked))
    else if ficha.isbn.Some? && |ficha.isbn.value| > MaxIsbn then Some(IllegalArgument(IsbnTooLong))
    else None
  }

  /** A card built through its setters never trips the length pre-check:
      the service repeats a bound the setter already keeps. */
  lemma ValidCardPassesPairCheck(libro: Libro, ficha: FichaBibliografica)
    requires ficha.Valid() && libro.fichaBibliografica == null
    ensures PairError(libro, ficha) == None
  {
    if ficha.isbn.Some? {
      ValidIsbnBounds(ficha.Data());
    }
  }

  /** What the transaction of `crearLibroConFicha` returns and leaves in the
      store, and whether each insert was accepted (the book's insert sets
      `libro.id`; the card's sets `ficha.id` and is followed by the link in
      memory), whatever happens to the transaction afterwards. */
  datatype PairStep = PairStep(outcome: Outcome<Thrown>, state: Snapshot, libroStored: bool, fichaStored: bool)

  /** The transaction of `crearLibroConFicha` from the state `s`, with the
      counters at `idL` and `idF`: both rows are stored or neither is. */
  function CrearPar(s: Snapshot, idL: int, idF: int, libro: Row<LibroData>, ficha: Row<FichaData>,
                    libroRule: Rule<LibroData>, fichaRule: Rule<FichaRow>, commitError: Option<SqlError>): (r: PairStep)
    ensures r.outcome.Pass? <==> libroRule(s.libros, idL, libro).None? && fichaRule(s.fichas, idF, FichaDao.CardOf(idL, ficha)).None? && commitError.None?
    ensures r.state == if r.outcome.Pass? then Snapshot(s.libros[idL := libro], s.fichas[idF := FichaDao.CardOf(idL, ficha)]) else s
    ensures r.libroStored <==> libroRule(s.libros, idL, libro).None?
    ensures r.fichaStored <==> r.libroStored && fichaRule(s.fichas, idF, FichaDao.CardOf(idL, ficha)).None?
    ensures r.outcome.Fail? ==> r.outcome.error.Runtime? && r.outcome.error.message == PairMessage(r.outcome.error.cause)
  {
    match libroRule(s.libros, idL, libro)
    case Some(refused) =>
      PairStep(Settle(Fail(SqlException(RefusalError(refused, LibroDao.InsertFailed))), commitError, PairMessage), s, false, false)
    case None =>
      match fichaRule(s.fichas, idF, FichaDao.CardOf(idL, ficha))
      case Some(refused) =>
        PairStep(Settle(Fail(SqlException(RefusalError(refused, FichaDao.InsertFailed))), commitError, PairMessage), s, true, false)
      case None =>
        var outcome := Settle(Pass, commitError, PairMessage);
        var state := if outcome.Pass? then Snapshot(s.libros[idL := libro], s.fichas[idF := FichaDao.CardOf(idL, ficha)]) else s;
        PairStep(outcome, state, true, true)
  }

  /** The pair keeps the link one-to-one: the book's id is new, so no earlier
      card can name it. */
  lemma CrearParKeepsCoherent(s: Snapshot, idL: int, idF: int, libro: Row<LibroData>, ficha: Row<FichaData>,
                              libroRule: Rule<LibroData>, fichaRule: Rule<FichaRow>, commitError: Option<SqlError>)
    requires Coherent(s) && idL !in s.libros
    ensures Coherent(CrearPar(s, idL, idF, libro, ficha, libroRule, fichaRule, commitError).state)
  {
    AddPairKeepsCoherent(s, idL, libro, idF, FichaDao.CardOf(idL, ficha));
  }

  /** A card refused as a duplicate ISBN leaves neither row behind, and the
      user is told the ISBN is taken. */
  lemma DuplicateIsbnReported(s: Snapshot, idL: int, idF: int, libro: Row<LibroData>, ficha: Row<FichaData>,
                              libroRule: Rule<LibroData>, fichaRule: Rule<FichaRow>, commitError: Option<SqlError>, m: string)
    requires libroRule(s.libros, idL, libro).None?
    requires fichaRule(s.fichas, idF, FichaDao.CardOf(idL, ficha)) == Some(Duplicate(m))
    requires Contains(ToLower(m), "duplicate entry") && Contains(ToLower(m), "isbn") && !Contains(ToLower(m), "idlibro")
    ensures var r := CrearPar(s, idL, idF, libro, ficha, libroRule, fichaRule, commitError);
      && r.state == s
      && r.outcome == Fail(Runtime(PairFailed + IsbnTaken, SqlError(Some(DuplicateState), m)))
  {
    RefusalConstraint(Duplicate(m), FichaDao.InsertFailed);
  }

  /** `crearLibroConFicha`. The pre-checks throw before anything changes.
      Then the book is inserted (its id written into `libro`), the card is
      inserted under that id (its id written into `ficha`), the two are
      linked in memory, and the transaction commits; an `SQLException`
      rolls both inserts back. Neither the ids nor the link are undone. */
  method CrearLibroConFicha(db: Database, libro: Libro?, ficha: FichaBibliografica?) returns (r: Outcome<Thrown>)
    requires db.Valid() && db.autoCommit
    modifies db`libros, db`fichas, db`nextLibroId, db`nextFichaId, db`committed, db`autoCommit
    modifies libro, ficha
    ensures db.Valid() && db.autoCommit
    ensures libro != null ==> libro.Data() == old(libro.Data()) && libro.eliminado == old(libro.eliminado)
    ensures ficha != null ==> ficha.Data() == old(ficha.Data()) && ficha.eliminado == old(ficha.eliminado)
    ensures old(PairError(libro, ficha)).Some? ==>
      && r == Fail(old(PairError(libro, ficha)).value)
      && db.Current() == old(db.Current()) && db.nextLibroId == old(db.nextLibroId) && db.nextFichaId == old(db.nextFichaId)
      && (libro != null ==> libro.id == old(libro.id) && libro.fichaBibliografica == old(libro.fichaBibliografica))
      && (ficha != null ==> ficha.id == old(ficha.id))
    ensures old(PairError(libro, ficha)).None? ==>
      var step := CrearPar(old(db.Current()), old(db.nextLibroId), old(db.nextFichaId),
                           Row(old(libro.Data()), old(libro.eliminado)), Row(old(ficha.Data()), old(ficha.eliminado)),
                           db.libroRule, db.fichaRule, db.commitError);
      && r == step.outcome
      && db.Current() == step.state
      && libro.id == (if step.libroStored then Some(old(db.nextLibroId)) else old(libro.id))
      && db.nextLibroId == old(db.nextLibroId) + (if step.libroStored then 1 else 0)
      && ficha.id == (if step.fichaStored then Some(old(db.nextFichaId)) else old(ficha.id))
      && db.nextFichaId == old(db.nextFichaId) + (if step.fichaStored then 1 else 0)
      && libro.fichaBibliografica == (if step.fichaStored then ficha else null)
  {
    var pre := PairError(libro, ficha);
    if pre.Some? {
      return Fail(pre.value);
    }
    db.SetAutoCommit(false);
    var w := InsertPair(db, libro, ficha);
    r := Conclude(db, w, PairMessage);
    db.SetAutoCommit(true);
  }

  /** The statements inside the transaction of `crearLibroConFicha`: insert
      the book, insert its card under the new id, link them in memory. The
      first `SQLException` stops the sequence. */
  method InsertPair(db: Database, libro: Libro, ficha: FichaBibliografica) returns (w: Outcome<Thrown>)
    requires db.Valid() && !db.autoCommit && libro.fichaBibliografica == null
    modifies db`libros, db`fichas, db`nextLibroId, db`nextFichaId, db`committed
    modifies libro`id, libro`fichaBibliografica, ficha`id
    ensures db.Valid() && !db.autoCommit && db.committed == old(db.committed)
    ensures var idL := old(db.nextLibroId);
      var book := Row(libro.Data(), libro.eliminado);
      var card := FichaDao.CardOf(idL, Row(ficha.Data(), ficha.eliminado));
      var refusedL := db.libroRule(old(db.libros), idL, book);
      var refusedF := db.fichaRule(old(db.fichas), old(db.nextFichaId), card);
      && w == (if refusedL.Some? then Fail(SqlException(RefusalError(refusedL.value, LibroDao.InsertFailed)))
               else if refusedF.Some? then Fail(SqlException(RefusalError(refusedF.value, FichaDao.InsertFailed)))
               else Pass)
      && db.libros == (if refusedL.None? then old(db.libros)[idL := book] else old(db.libros))
      && db.fichas == (if refusedL.None? && refusedF.None? then old(db.fichas)[old(db.nextFichaId) := card] else old(db.fichas))
      && libro.id == (if refusedL.None? then Some(idL) else old(libro.id))
      && db.nextLibroId == old(db.nextLibroId) + (if refusedL.None? then 1 else 0)
      && ficha.id == (if refusedL.None? && refusedF.None? then Some(old(db.nextFichaId)) else old(ficha.id))
      && db.nextFichaId == old(db.nextFichaId) + (if refusedL.None? && refusedF.None? then 1 else 0)
      && libro.fichaBibliografica == (if refusedL.None? && refusedF.None? then ficha else null)
  {
    w := LibroDao.Crear(db, libro);
    if w.Pass? {
      w := FichaDao.Crear(db, ficha, libro.id);
      if w.Pass? {
        var linked := libro.SetFichaBibliografica(ficha);
      }
    }
  }

  /** An id written into the book by a transaction that was rolled back
      names no stored row, and the counter has moved past it. */
  lemma StaleIdNamesNoRow(s: Snapshot, idL: int, idF: int, libro: Row<LibroData>, ficha: Row<FichaData>,
                          libroRule: Rule<LibroData>, fichaRule: Rule<FichaRow>, commitError: Option<SqlError>)
    requires idL !in s.libros
    ensures var r := CrearPar(s, idL, idF, libro, ficha, libroRule, fichaRule, commitError);
      r.libroStored && r.outcome.Fail? ==> idL !in r.state.libros
    ensures var r := CrearPar(s, idL, idF, libro, ficha, libroRule, fichaRule, commitError);
      r.fichaStored && r.outcome.Fail? <==> libroRule(s.libros, idL, libro).None? && fichaRule(s.fichas, idF, FichaDao.CardOf(idL, ficha)).None? && commitError.Some?
  {
  }

  // ---------------------------------------------------------------------
  // crear, actualizar

  /** `crear` is refused: a book is stored only with its card. */
  method Crear(db: Database, libro: Libro?) returns (r: Outcome<Thrown>)
    ensures r == Fail(Unsupported(UseCrearLibroConFicha))
  {
    r := Fail(Unsupported(UseCrearLibroConFicha));
  }

  function UpdateLibroMessage(e: SqlError): string {
    UpdateLibroError
  }

  /** The read `actualizar` makes for a book that is linked in memory. It can
      only throw: the book read back never holds a card (the row mapping does
      not load one), so the refusal to reassign a card never fires. */
  function ReassignCheck(t: Rows<LibroData>, linked: bool, id: Option<int>): (r: Option<Thrown>)
    ensures !linked ==> r.None?
    ensures r.Some? <==> linked && LibroDao.Leer(t, id).Failure?
  {
    if linked then
      match LibroDao.Leer(t, id)
      case Failure(e) => Some(e)
      case Success(_) => None
    else None
  }

  /** `actualizar`: the check above, then the DAO update, committed or rolled
      back. */
  method Actualizar(db: Database, libro: Libro?) returns (r: Outcome<Thrown>)
    requires db.Valid() && db.autoCommit
    modifies db`libros, db`fichas, db`committed, db`autoCommit
    ensures db.Valid() && db.autoCommit
    ensures db.fichas == old(db.fichas)
    ensures libro == null ==> r == Fail(NullPointer) && db.libros == old(db.libros)
    ensures libro != null && ReassignCheck(old(db.libros), libro.fichaBibliografica != null, libro.id).Some? ==>
      r == Fail(ReassignCheck(old(db.libros), libro.fichaBibliografica != null, libro.id).value) && db.libros == old(db.libros)
    ensures libro != null && ReassignCheck(old(db.libros), libro.fichaBibliografica != null, libro.id).None? && libro.id.None? ==>
      r == Fail(NullPointer) && db.libros == old(db.libros)
    ensures libro != null && ReassignCheck(old(db.libros), libro.fichaBibliografica != null, libro.id).None? && libro.id.Some? ==>
      var id := libro.id.value;
      var u := Update(old(db.libros), id, Row(libro.Data(), libro.eliminado), db.libroRule);
      && r == Settle(if u.Success? then Pass else Fail(SqlException(RefusalError(u.error, LibroDao.NotFound(id)))), db.commitError, UpdateLibroMessage)
      && db.libros == if r.Pass? then u.value else old(db.libros)
  {
    db.SetAutoCommit(false);
    var w: Outcome<Thrown>;
    if libro == null {
      w := Fail(NullPointer);
    } else {
      var check := ReassignCheck(db.libros, libro.fichaBibliografica != null, libro.id);
      if check.Some? {
        w := Fail(check.value);
      } else {
        w := LibroDao.Actualizar(db, libro);
      }
    }
    r := Conclude(db, w, UpdateLibroMessage);
    db.SetAutoCommit(true);
  }

  /** A linked book whose stored row the setters refuse (a year out of range
      let in by the constructor) cannot be updated, not even to correct it. */
  lemma LinkedUnreadableBookStuck(t: Rows<LibroData>, id: int)
    requires IsActive(t, id) && SetterFields(t[id].data).Failure?
    ensures ReassignCheck(t, true, Some(id)) == Some(Invalid(SetterFields(t[id].data).error))
  {
  }

  // ---------------------------------------------------------------------
  // cargarFichaBibliografica

  /** The card object built from a row (`new FichaBibliografica()` and its
      setters, which the row's values pass). */
  method Materialize(rec: Record<FichaData>) returns (f: FichaBibliografica)
    requires FichaDataValid(rec.data)
    ensures fresh(f) && f.Valid()
    ensures f.id == Some(rec.id) && f.Data() == rec.data && !f.eliminado
  {
    f := new FichaBibliografica();
    f.id := Some(rec.id);
    f.isbn, f.clasificacionDewey, f.estanteria, f.idioma := rec.data.isbn, rec.data.clasificacionDewey, rec.data.estanteria, rec.data.idioma;
  }

  /** `cargarFichaBibliografica`: links the book's active card, if it has
      one, into the object. */
  method CargarFichaBibliografica(db: Database, libro: Libro?) returns (r: Outcome<Thrown>)
    requires db.Valid()
    modifies libro
    ensures libro != null ==> libro.id == old(libro.id) && libro.Data() == old(libro.Data()) && libro.eliminado == old(libro.eliminado)
    ensures libro == null || libro.id.None? ==> r == Pass && (libro != null ==> libro.fichaBibliografica == old(libro.fichaBibliografica))
    ensures libro != null && libro.id.Some? ==>
      match FichaDao.BuscarPorIdLibro(db.fichas, db.nextFichaId, libro.id)
      case Failure(e) =>
        r == Fail(e) && libro.fichaBibliografica == old(libro.fichaBibliografica)
      case Success(None) =>
        r == Pass && libro.fichaBibliografica == old(libro.fichaBibliografica)
      case Success(Some(rec)) =>
        if old(libro.fichaBibliografica) != null then
          r == Fail(Invalid(FichaYaAsociada)) && libro.fichaBibliografica == old(libro.fichaBibliografica)
        else
          && r == Pass && libro.fichaBibliografica != null && fresh(libro.fichaBibliografica)
          && libro.fichaBibliografica.id == Some(rec.id) && libro.fichaBibliografica.Data() == rec.data
          && libro.fichaBibliografica.Valid()
  {
    if libro == null || libro.id.None? {
      return Pass;
    }
    var found := FichaDao.BuscarPorIdLibro(db.fichas, db.nextFichaId, libro.id);
    match found
    case Failure(e) =>
      r := Fail(e);
    case Success(None) =>
      r := Pass;
    case Success(Some(rec)) =>
      var row := db.fichas[rec.id].data;
      FichaFieldsValid(row.ficha);
      var f := Materialize(rec);
      var linked := libro.SetFichaBibliografica(f);
      r := if linked.Pass? then Pass else Fail(Invalid(linked.error));
  }
}
