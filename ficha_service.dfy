/** `FichaBibliograficaService`: attaching a card to a book that is already
    stored. The book must be stored and active and must have no active card;
    both are checked inside the transaction before the insert. */
module FichaService {
  import opened Wrappers
  import opened Text
  import opened Table
  import opened Entities
  import opened Store
  import opened Relation
  import opened GenericService
  import LibroDao
  import FichaDao
  import LibroService

  const BadLibroId: string := "ID de Libro invalido"
  const NullFicha: string := "La FichaBibliografica no puede ser nula"
  const IsbnBadLength: string := "ISBN debe tener 10 o 13 digitos"
  const IsbnTooLong: string := "ISBN excede los 17 caracteres permitidos"
  const AlreadyLinked: string := "El Libro ya tiene una FichaBibliografica asociada"
  const CreateFailed: string := "No se pudo crear la FichaBibliografica: "
  const BlankIsbn: string := "ISBN no puede ser nulo o vacio"
  const BadUpdate: string := "FichaBibliografica invalida para actualizar"

  /** The exception for a book id with no active book. */
  function NoLibro(id: int): string {
    "No existe un Libro activo con ID: " + IntToString(id)
  }

  // ---------------------------------------------------------------------
  // extraerMensajeUsuario

  const IsbnTaken: string := "ISBN ya registrado en otra ficha"
  const LinkTaken: string := "El Libro ya tiene una FichaBibliografica"
  const DbError: string := "error en la base de datos"

  /** The user text for an `SQLException`. Unlike the book service's, this
      one tests `isbn` before `idlibro`. */
  function MensajeUsuario(e: SqlError): (m: string)
    ensures m == IsbnTaken || m == LinkTaken || m == DbError
    ensures m == IsbnTaken <==> IsConstraint(e) && Mentions(e, "duplicate entry") && Mentions(e, "isbn")
    ensures m == LinkTaken <==> IsConstraint(e) && Mentions(e, "duplicate entry") && !Mentions(e, "isbn") && Mentions(e, "idlibro")
  {
    if IsConstraint(e) && Mentions(e, "duplicate entry") && Mentions(e, "isbn") then IsbnTaken
    else if IsConstraint(e) && Mentions(e, "duplicate entry") && Mentions(e, "idlibro") then LinkTaken
    else DbError
  }

  /** The two services tell the same story (same kind of violation) except
      for a message naming both keys, where each reports the key it tests
      first. */
  lemma ClassifiersDisagree(e: SqlError)
    ensures (MensajeUsuario(e) == IsbnTaken) != (LibroService.MensajeUsuario(e) == LibroService.IsbnTaken)
      <==> IsConstraint(e) && Mentions(e, "duplicate entry") && Mentions(e, "isbn") && Mentions(e, "idlibro")
    ensures (MensajeUsuario(e) == DbError) <==> (LibroService.MensajeUsuario(e) == LibroService.DbError)
  {
  }

  function AttachMessage(e: SqlError): string {
    CreateFailed + MensajeUsuario(e)
  }

  // ---------------------------------------------------------------------
  // crear(idLibro, ficha)

  /** The checks made before any connection is opened, in source order. */
  function AttachError(idLibro: Option<int>, ficha: FichaBibliografica?): (r: Option<Thrown>)
    reads ficha
    ensures r.None? <==>
      && idLibro.Some? && idLibro.value > 0 && ficha != null
      && (ficha.isbn.Some? ==>
           var clean := RemoveSpacesAndHyphens(ficha.isbn.value);
           (|clean| == 10 || |clean| == 13) && |ficha.isbn.value| <= MaxIsbn)
    ensures idLibro.None? || idLibro.value <= 0 ==> r == Some(IllegalArgument(BadLibroId))
    ensures idLibro.Some? && idLibro.value > 0 && ficha == null ==> r == Some(IllegalArgument(NullFicha))
    ensures idLibro.Some? && idLibro.value > 0 && ficha != null && ficha.isbn.Some? ==>
      var clean := RemoveSpacesAndHyphens(ficha.isbn.value);
      && (|clean| != 10 && |clean| != 13 ==> r == Some(IllegalArgument(IsbnBadLength)))
      && ((|clean| == 10 || |clean| == 13) && |ficha.isbn.value| > MaxIsbn ==> r == Some(IllegalArgument(IsbnTooLong)))
  {
    if idLibro.None? || idLibro.value <= 0 then Some(IllegalArgument(BadLibroId))
    else if ficha == null then Some(IllegalArgument(NullFicha))
    else if ficha.isbn.Some? && |RemoveSpacesAndHyphens(ficha.isbn.value)| != 10 && |RemoveSpacesAndHyphens(ficha.isbn.value)| != 13 then
      Some(IllegalArgument(IsbnBadLength))
    else if ficha.isbn.Some? && |ficha.isbn.value| > MaxIsbn then Some(IllegalArgument(IsbnTooLong))
    else None
  }

  /** The ISBN pre-checks repeat what `setIsbn` already guarantees: a card
      built through its setters passes them. */
  lemma ValidCardPassesAttachCheck(idLibro: int, ficha: FichaBibliografica)
    requires ficha.Valid() && idLibro > 0
    ensures AttachError(Some(idLibro), ficha) == None
  {
    if ficha.isbn.Some? {
      ValidIsbnBounds(ficha.Data());
    }
  }

  /** `SELECT COUNT(*) FROM FichaBibliografica WHERE idLIBRO = ? AND
      eliminado = FALSE`. */
  function CountCards(t: Rows<FichaRow>, n: int, idLibro: int): nat {
    |Select(t, n, (row: FichaRow) => FichaDao.DelLibro(row, idLibro), Unordered)|
  }

  /** The count is zero exactly when the book has no active card: deleted
      cards do not count. */
  lemma CountCardsSpec(t: Rows<FichaRow>, n: int, idLibro: int)
    requires forall k :: k in t ==> 1 <= k < n
    ensures CountCards(t, n, idLibro) == 0 <==> !HasActiveCard(t, idLibro)
  {
    SelectEmpty(t, n, (row: FichaRow) => FichaDao.DelLibro(row, idLibro), Unordered);
  }

  /** What the transaction of `crear` returns and leaves in the store, and
      whether the insert was accepted (it sets `ficha.id`). */
  datatype AttachStep = AttachStep(outcome: Outcome<Thrown>, state: Snapshot, stored: bool)

  /** The transaction of `crear` from the state `s`, with the card counter at
      `idF`: the book is read (the read's own exception passes through),
      then the active cards are counted, then the card is inserted and
      committed. */
  function Adjuntar(s: Snapshot, idF: int, idLibro: int, ficha: Row<FichaData>,
                    fichaRule: Rule<FichaRow>, commitError: Option<SqlError>): (r: AttachStep)
    ensures r.state == if r.outcome.Pass? then Snapshot(s.libros, s.fichas[idF := FichaDao.CardOf(idLibro, ficha)]) else s
    ensures r.outcome.Pass? ==> r.stored && commitError.None?
    ensures r.outcome.Pass? ==> IsActive(s.libros, idLibro) && CountCards(s.fichas, idF, idLibro) == 0
    ensures LibroDao.Leer(s.libros, Some(idLibro)) == Success(None) ==> r == AttachStep(Fail(IllegalArgument(NoLibro(idLibro))), s, false)
  {
    match LibroDao.Leer(s.libros, Some(idLibro))
    case Failure(e) => AttachStep(Fail(e), s, false)
    case Success(None) => AttachStep(Fail(IllegalArgument(NoLibro(idLibro))), s, false)
    case Success(Some(_)) =>
      if CountCards(s.fichas, idF, idLibro) > 0 then AttachStep(Fail(IllegalState(AlreadyLinked)), s, false)
      else
        match fichaRule(s.fichas, idF, FichaDao.CardOf(idLibro, ficha))
        case Some(refused) =>
          AttachStep(Settle(Fail(SqlException(RefusalError(refused, FichaDao.InsertFailed))), commitError, AttachMessage), s, false)
        case None =>
          var outcome := Settle(Pass, commitError, AttachMessage);
          AttachStep(outcome, if outcome.Pass? then Snapshot(s.libros, s.fichas[idF := FichaDao.CardOf(idLibro, ficha)]) else s, true)
  }

  /** A card is stored only for an active book with no active card, so the
      link stays one-to-one. */
  lemma AdjuntarKeepsCoherent(s: Snapshot, idF: int, idLibro: int, ficha: Row<FichaData>,
                              fichaRule: Rule<FichaRow>, commitError: Option<SqlError>)
    requires Coherent(s) && forall k :: k in s.fichas ==> 1 <= k < idF
    ensures Coherent(Adjuntar(s, idF, idLibro, ficha, fichaRule, commitError).state)
  {
    if Adjuntar(s, idF, idLibro, ficha, fichaRule, commitError).outcome.Pass? {
      CountCardsSpec(s.fichas, idF, idLibro);
      AddCardKeepsCoherent(s, idF, FichaDao.CardOf(idLibro, ficha));
    }
  }

  /** A book that already has an active card gets no second one: the
      transaction throws before the insert. */
  lemma SecondCardRefused(s: Snapshot, idF: int, idLibro: int, ficha: Row<FichaData>,
                          fichaRule: Rule<FichaRow>, commitError: Option<SqlError>)
    requires forall k :: k in s.fichas ==> 1 <= k < idF
    requires LibroDao.Leer(s.libros, Some(idLibro)).Success? && LibroDao.Leer(s.libros, Some(idLibro)).value.Some?
    requires HasActiveCard(s.fichas, idLibro)
    ensures Adjuntar(s, idF, idLibro, ficha, fichaRule, commitError) == AttachStep(Fail(IllegalState(AlreadyLinked)), s, false)
  {
    CountCardsSpec(s.fichas, idF, idLibro);
  }

  /** A book whose only cards are deleted can be given a new one: with the
      store and the commit accepting, the card is stored. */
  lemma DeletedCardDoesNotBlock(s: Snapshot, idF: int, idLibro: int, ficha: Row<FichaData>,
                                fichaRule: Rule<FichaRow>)
    requires forall k :: k in s.fichas ==> 1 <= k < idF
    requires LibroDao.Leer(s.libros, Some(idLibro)).Success? && LibroDao.Leer(s.libros, Some(idLibro)).value.Some?
    requires !HasActiveCard(s.fichas, idLibro)
    requires fichaRule(s.fichas, idF, FichaDao.CardOf(idLibro, ficha)).None?
    ensures Adjuntar(s, idF, idLibro, ficha, fichaRule, None) == AttachStep(Pass, Snapshot(s.libros, s.fichas[idF := FichaDao.CardOf(idLibro, ficha)]), true)
  {
    CountCardsSpec(s.fichas, idF, idLibro);
  }

  /** `crear(idLibro, ficha)`. The pre-checks throw before anything changes;
      the transaction is `Adjuntar`; the card's id is written into `ficha`
      once the insert is accepted, and stays even if the commit fails. */
  method Crear(db: Database, idLibro: Option<int>, ficha: FichaBibliografica?) returns (r: Outcome<Thrown>)
    requires db.Valid() && db.autoCommit
    modifies db`libros, db`fichas, db`nextFichaId, db`committed, db`autoCommit, ficha
    ensures db.Valid() && db.autoCommit
    ensures ficha != null ==> ficha.Data() == old(ficha.Data()) && ficha.eliminado == old(ficha.eliminado)
    ensures old(AttachError(idLibro, ficha)).Some? ==>
      && r == Fail(old(AttachError(idLibro, ficha)).value)
      && db.Current() == old(db.Current()) && db.nextFichaId == old(db.nextFichaId)
      && (ficha != null ==> ficha.id == old(ficha.id))
    ensures old(AttachError(idLibro, ficha)).None? ==>
      var step := Adjuntar(old(db.Current()), old(db.nextFichaId), idLibro.value, Row(old(ficha.Data()), old(ficha.eliminado)), db.fichaRule, db.commitError);
      && r == step.outcome
      && db.Current() == step.state
      && ficha.id == (if step.stored then Some(old(db.nextFichaId)) else old(ficha.id))
      && db.nextFichaId == old(db.nextFichaId) + (if step.stored then 1 else 0)
  {
    var pre := AttachError(idLibro, ficha);
    if pre.Some? {
      return Fail(pre.value);
    }
    db.SetAutoCommit(false);
    var w := Checked(db, idLibro.value, ficha);
    r := Conclude(db, w, AttachMessage);
    db.SetAutoCommit(true);
  }

  /** The statements inside the transaction of `crear`: read the book, count
      its active cards, insert the card. */
  method Checked(db: Database, idLibro: int, ficha: FichaBibliografica) returns (w: Outcome<Thrown>)
    requires db.Valid() && !db.autoCommit
    modifies db`fichas, db`nextFichaId, db`committed, ficha`id
    ensures db.Valid() && !db.autoCommit && db.committed == old(db.committed)
    ensures var card := FichaDao.CardOf(idLibro, Row(ficha.Data(), ficha.eliminado));
      var leer := LibroDao.Leer(db.libros, Some(idLibro));
      var blocked := leer.Failure? || leer.value.None? || CountCards(old(db.fichas), old(db.nextFichaId), idLibro) > 0;
      var refused := db.fichaRule(old(db.fichas), old(db.nextFichaId), card);
      && w == (if leer.Failure? then Fail(leer.error)
               else if leer.value.None? then Fail(IllegalArgument(NoLibro(idLibro)))
               else if CountCards(old(db.fichas), old(db.nextFichaId), idLibro) > 0 then Fail(IllegalState(AlreadyLinked))
               else if refused.Some? then Fail(SqlException(RefusalError(refused.value, FichaDao.InsertFailed)))
               else Pass)
      && db.fichas == (if !blocked && refused.None? then old(db.fichas)[old(db.nextFichaId) := card] else old(db.fichas))
      && ficha.id == (if !blocked && refused.None? then Some(old(db.nextFichaId)) else old(ficha.id))
      && db.nextFichaId == old(db.nextFichaId) + (if !blocked && refused.None? then 1 else 0)
  {
    var libro := LibroDao.Leer(db.libros, Some(idLibro));
    if libro.Failure? {
      return Fail(libro.error);
    }
    if libro.value.None? {
      return Fail(IllegalArgument(NoLibro(idLibro)));
    }
    if CountCards(db.fichas, db.nextFichaId, idLibro) > 0 {
      return Fail(IllegalState(AlreadyLinked));
    }
    w := FichaDao.Crear(db, ficha, Some(idLibro));
  }

  // ---------------------------------------------------------------------
  // buscarPorIsbn, actualizar

  /** `buscarPorIsbn`: a null or blank ISBN is refused before the lookup. */
  function BuscarPorIsbn(t: Rows<FichaRow>, n: int, isbn: Option<string>): (r: Result<Option<Record<FichaData>>, Thrown>)
    ensures r == Failure(IllegalArgument(BlankIsbn)) <==> isbn.None? || Trim(isbn.value) == []
    ensures isbn.Some? && Trim(isbn.value) != [] ==> r == FichaDao.BuscarPorIsbn(t, n, isbn)
  {
    if isbn.None? || Trim(isbn.value) == [] then Failure(IllegalArgument(BlankIsbn))
    else FichaDao.BuscarPorIsbn(t, n, isbn)
  }

  /** `actualizar`: a null card or one without an id is refused; otherwise
      the generic update. */
  method Actualizar(db: Database, ficha: FichaBibliografica?) returns (r: Outcome<Thrown>)
    requires db.Valid() && db.autoCommit
    modifies db`libros, db`fichas, db`committed, db`autoCommit
    ensures db.Valid() && db.autoCommit
    ensures db.libros == old(db.libros)
    ensures ficha == null || ficha.id.None? ==> r == Fail(IllegalArgument(BadUpdate)) && db.fichas == old(db.fichas)
    ensures ficha != null && ficha.id.Some? ==>
      var id := ficha.id.value;
      var u := Update(old(db.fichas), id, FichaDao.CardOf(FichaDao.OwnerOf(old(db.fichas), id), Row(ficha.Data(), ficha.eliminado)), db.fichaRule);
      && r == Settle(if u.Success? then Pass else Fail(SqlException(RefusalError(u.error, FichaDao.NotFound(id)))), db.commitError, UpdateMessage)
      && db.fichas == if r.Pass? then u.value else old(db.fichas)
  {
    if ficha == null || ficha.id.None? {
      return Fail(IllegalArgument(BadUpdate));
    }
    r := ActualizarFicha(db, ficha);
  }
}
