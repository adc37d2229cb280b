# Book catalogue: records, soft-delete store and transactional services

This project models the core of a small library catalogue written in Java
over JDBC/MySQL. The catalogue holds books (`Libro`) and bibliographic cards
(`FichaBibliografica`, holding a book's ISBN and shelving data). A book has
at most one active card. The model covers three layers.

- **Records** (`entities.dfy`, module `Entities`). The two entity classes
  are Dafny classes with the same fields. Every setter is a method that
  either throws (returns `Fail`) and leaves the object unchanged, or stores
  the value. The value rules are pure functions: `CheckRequired`,
  `CheckOptional`, `CheckAnio` and `CheckIsbn`, which checks the ISBN-10 or
  ISBN-13 shape with no check-digit arithmetic. `Text` models the parts of
  `java.lang.String` they rely on: `trim`, `replaceAll("[\\s\\-]", "")`,
  case conversion, `contains` and lexicographic order.
- **The store and the DAOs**.
  - `Table` states the `GenericDao` contract as generic operations on a map
    from id to row, each row carrying its `eliminado` flag: insert under the
    next auto-increment id, update by id whatever the flag, idempotent soft
    delete, find an active row, and list reads (`Select`, `Query`, `First`)
    in `ORDER BY` order.
  - `Store.Database` is a class holding the two tables, both counters, the
    auto-commit flag and the last committed snapshot. Its statements are
    methods. Commit, rollback and `setAutoCommit(true)` (which commits) act
    on the snapshot.
  - `LibroDao` and `FichaDao` are the two DAOs. Their writes are methods over
    the database and the entity objects. Their reads are functions, or
    methods that call the result-set loop `Table.Fetch`.
- **The services**.
  - `GenericService.Conclude` is the commit-or-rollback wrapper. `Settle`
    states how a transaction ends.
  - `LibroService.CrearLibroConFicha` stores a book and its card atomically.
  - `FichaService.Crear` attaches a card to an active book with no active
    card.
  - Each workflow is proved equal to a specification function (`CrearPar`,
    `Adjuntar`) that works on snapshots. `Relation` proves which table
    changes keep the book–card link one-to-one.

Java exceptions become values of `Store.Thrown`. `SqlException` carries the
SQLState and the message. `Invalid` stands for the `IllegalArgumentException`
or `IllegalStateException` a setter throws. `Runtime` is the service's
wrapping `RuntimeException`, with its cause.

The database's unique keys on `isbn` and `idLIBRO` are not part of this
model's sources. Each table therefore carries a store-side rule
(`Table.Rule`) that may refuse a write. A refusal is either a duplicate key
(`Refusal.Duplicate`, surfaced with SQLState `23000`) or a statement that
affected no row.

Where the source's own comments promise more than its code does, the model
follows the code. The comment in `LibroService.actualizar`
(src/service/LibroService.java:113-115) says a book's card may not be
reassigned, and the class comment of `FichaBibliograficaService`
(src/service/FichaBibliograficaService.java:13) says every card belongs to
an existing, active book. The code does the following:

- The four-argument `Libro` constructor does not check the year
  (`Entities.ConstructorSkipsYear`). Such a book can be stored but no longer
  read back (`LibroDao.YearOutOfRangeUnreadable`).
- `actualizar` rewrites soft-deleted rows and can undelete them
  (`LibroDao.UpdateRestores`). On the card table this can give a book a
  second active card (`Relation.UpdateCardCanRevive`).
- Deleting a book does not delete its card (`Relation.DeleteBookOrphansCard`).
- The "no reassignment" check in `LibroService.actualizar` never refuses: a
  book read back never holds a card (`LibroService.ReassignCheck`). It can
  only pass on the read's own exception (`LibroService.LinkedUnreadableBookStuck`).
- The id written into an object and the in-memory link survive a rollback
  (`LibroService.CrearLibroConFicha`, `LibroService.StaleIdNamesNoRow`).

## Model

| member | source | states |
|---|---|---|
| Text.Trim | src/entities/Libro.java:44-50 | `trim` yields a string no longer than its input, with no character up to U+0020 at either end |
| Text.TrimIsInnerSlice | src/entities/Libro.java:44-50 | `trim` yields the contiguous middle of its input left after cutting only characters up to U+0020 from the two ends; with `Text.Trim` this determines the result |
| Text.TrimEmpty | src/entities/Libro.java:44 | `trim().isEmpty()` holds exactly when every character is at most U+0020 |
| Text.TrimTrimmed | src/entities/Libro.java:50 | trimming an already trimmed value changes nothing |
| Text.RemoveSpacesAndHyphens | src/entities/FichaBibliografica.java:44 | removing whitespace and hyphens never lengthens the ISBN |
| Text.RemoveSpacesAndHyphensChar | src/entities/FichaBibliografica.java:44 | a single whitespace character or hyphen is removed; any other single character is kept |
| Text.RemoveSpacesAndHyphensAppend | src/entities/FichaBibliografica.java:44 | the removal of a concatenation is the concatenation of the removals, so kept characters stay in order |
| Text.RemoveSpacesAndHyphensKeeps | src/entities/FichaBibliografica.java:44 | the cleaned ISBN holds exactly the characters that are neither Java `\s` whitespace nor `-` |
| Text.ToLower | src/service/LibroService.java:138 | the message is lowered character by character, ASCII letters only, same length |
| Text.ToUpper | src/dao/LibroDao.java:40 | SQL `UPPER` raises character by character, ASCII letters only, same length |
| Text.NatToString | src/dao/LibroDao.java:104 | the id appended to a message is a non-empty run of decimal digits |
| Text.NatToStringValue | src/dao/LibroDao.java:104 | those digits read back as a decimal number give the id itself |
| Text.StrLeTotal | src/dao/LibroDao.java:25 | the text order used for `ORDER BY` compares any two strings |
| Text.StrLeTransitive | src/dao/LibroDao.java:25 | the text order used for `ORDER BY` is transitive |
| Entities.CheckRequiredSpec | src/entities/Libro.java:43-51 | a null or blank text is refused with the blank error whatever its length (blank is tested first); a non-blank text whose raw length exceeds the limit is refused with the too-long error; otherwise the stored value is exactly `Trim` of the input, non-empty and within the limit |
| Entities.CheckRequiredStable | src/entities/Libro.java:43-51 | a value a required-text setter stored passes that setter again unchanged |
| Entities.CheckOptionalSpec | src/entities/Libro.java:71-76 | null is stored as null; a raw length over the limit is refused with the field's error; otherwise the stored value is exactly `Trim` of the input |
| Entities.CheckOptionalStable | src/entities/Libro.java:71-76 | a value an optional-text setter stored passes that setter again unchanged |
| Entities.CheckAnio | src/entities/Libro.java:82-87 | a year is accepted exactly when it is null or within 1450..2025 |
| Entities.CheckIsbnSpec | src/entities/FichaBibliografica.java:42-56 | an ISBN is accepted exactly when its cleaned form is 9 or 12 digits plus a digit, `X` or `x`, and its raw length is at most 17; each error holds exactly when the checks before it pass and its own fails |
| Entities.RemoveNothing | src/entities/FichaBibliografica.java:44 | with no whitespace or hyphen present, cleaning is the identity |
| Entities.AnyCheckCharAccepted | src/entities/FichaBibliografica.java:48 | nine digits followed by any digit, `X` or `x` are accepted: no check digit is computed |
| Entities.ConstructorSkipsYear | src/entities/Libro.java:22-28 | the constructor and the setters agree on title, author and publisher; an out-of-range year is refused by the setter but kept by the constructor |
| Entities.FichaDataStable | src/dao/FichaBibliograficaDao.java:134-143 | a valid card passes the row mapping's setters unchanged |
| Entities.LibroDataStable | src/dao/LibroDao.java:132-141 | a valid book with its year in range passes the row mapping's setters unchanged |
| Entities.ConstructorFieldsValid | src/entities/Libro.java:22-28 | a constructed book holds valid trimmed title and author and keeps the year as given |
| Entities.FichaFieldsValid | src/entities/FichaBibliografica.java:21-27 | whatever the card setters accept is a valid card |
| Entities.ValidIsbnBounds | src/entities/FichaBibliografica.java:44-53 | a stored ISBN has a cleaned length of 10 or 13 and a raw length of at most 17 |
| Entities.FichaBibliografica.constructor | src/entities/FichaBibliografica.java:16-18 | a new card has no id, null columns and `eliminado` false |
| Entities.FichaBibliografica.Nueva | src/entities/FichaBibliografica.java:21-27 | the four-argument constructor throws the first failing setter's error, or builds a fresh valid card holding what the setters store |
| Entities.FichaBibliografica.SetId | src/entities/FichaBibliografica.java:34-36 | the id is stored as given |
| Entities.FichaBibliografica.SetIsbn | src/entities/FichaBibliografica.java:42-56 | the result is the ISBN check; an accepted ISBN is stored exactly as given, and a refused one leaves the old value |
| Entities.FichaBibliografica.SetClasificacionDewey | src/entities/FichaBibliografica.java:62-67 | refuses a raw length over 20, otherwise stores the trimmed value or null; a refusal leaves the old value |
| Entities.FichaBibliografica.SetEstanteria | src/entities/FichaBibliografica.java:73-78 | refuses a raw length over 20, otherwise stores the trimmed value or null; a refusal leaves the old value |
| Entities.FichaBibliografica.SetIdioma | src/entities/FichaBibliografica.java:84-89 | refuses a raw length over 30, otherwise stores the trimmed value or null; a refusal leaves the old value |
| Entities.FichaBibliografica.SetEliminado | src/entities/FichaBibliografica.java:95-97 | null is stored as false |
| Entities.FichaBibliografica.Equals | src/entities/FichaBibliografica.java:100-105 | two cards are equal exactly when the other is non-null with the same id, two null ids included |
| Entities.Libro.constructor | src/entities/Libro.java:17-19 | a new book has no id, no card, null columns and `eliminado` false |
| Entities.Libro.Nuevo | src/entities/Libro.java:22-28 | the constructor throws the first failing setter's error among title, author and publisher, or builds a fresh book holding the year unchecked |
| Entities.Libro.SetId | src/entities/Libro.java:35-37 | the id is stored as given |
| Entities.Libro.SetTitulo | src/entities/Libro.java:43-51 | accepted exactly when the title check passes; stores the trimmed title; a refusal leaves the old value |
| Entities.Libro.SetAutor | src/entities/Libro.java:57-65 | accepted exactly when the author check passes; stores the trimmed author; a refusal leaves the old value |
| Entities.Libro.SetEditorial | src/entities/Libro.java:71-76 | accepted exactly when the publisher check passes; stores the trimmed value or null; a refusal leaves the old value |
| Entities.Libro.SetAnioEdicion | src/entities/Libro.java:82-87 | the result is the year check; the year is stored only when accepted |
| Entities.Libro.SetEliminado | src/entities/Libro.java:93-95 | null is stored as false |
| Entities.Libro.SetFichaBibliografica | src/entities/Libro.java:101-107 | refused exactly when a card is linked and the new one is non-null; null always clears the link |
| Entities.Libro.Equals | src/entities/Libro.java:110-115 | two books are equal exactly when the other is non-null with the same id, two null ids included |
| Table.Insert | src/dao/GenericDao.java:13-20 | refused exactly when the store's rule refuses; otherwise the row is stored under the next id and every other row is untouched |
| Table.Update | src/dao/GenericDao.java:39-45 | fails with "no rows" when the id is absent; otherwise replaces that row, flag included, whether or not it was deleted, unless the rule refuses |
| Table.SoftDelete | src/dao/GenericDao.java:47-53 | no row is removed and no column changes; the row with the id is flagged deleted |
| Table.SoftDeleteIdempotent | src/dao/LibroDao.java:32-36 | deleting twice is deleting once |
| Table.SoftDeleteHides | src/dao/GenericDao.java:47-53 | after a delete the row is inactive and every other row keeps its status |
| Table.Find | src/dao/GenericDao.java:22-29 | a row is found exactly when it is active, and with its stored columns |
| Table.BeforeTotal | src/dao/LibroDao.java:21-26 | any two result rows are ordered one way or the other |
| Table.Select | src/dao/GenericDao.java:31-37 | every row of a result set is active, matches the filter and carries its stored columns |
| Table.SelectSorted | src/dao/LibroDao.java:21-26 | a result set is in `ORDER BY` order, ties by id |
| Table.SelectDistinct | src/dao/GenericDao.java:31-37 | no row appears twice in a result set |
| Table.SelectComplete | src/dao/GenericDao.java:31-37 | every active matching row is in the result set |
| Table.SelectExactly | src/dao/GenericDao.java:31-37 | an id is in the result set exactly when its row is active and matches |
| Table.SelectNarrower | src/dao/LibroDao.java:37-42 | a search's rows are among the rows a wider filter returns |
| Table.MapRows | src/dao/LibroDao.java:81-90 | the list maps each row in order; it fails with the first failing row's error exactly when some row fails |
| Table.Fetch | src/dao/LibroDao.java:83-87 | the `while (rs.next())` loop builds exactly the mapped list |
| Table.MapRowsFailurePropagates | src/dao/LibroDao.java:85-86 | once a prefix of the result set fails, the whole read fails the same way |
| Table.Query | src/dao/GenericDao.java:31-37 | each listed entity comes from an active matching row through the mapping |
| Table.QueryExactly | src/dao/GenericDao.java:31-37 | a successful list holds an id exactly when its row is active and matches |
| Table.QueryDistinct | src/dao/GenericDao.java:31-37 | a list names no row twice |
| Table.QueryOrdered | src/dao/LibroDao.java:21-26 | consecutive entities of a list follow the stored sort column |
| Table.QueryFails | src/dao/LibroDao.java:132-141 | a list read throws exactly when some active matching row fails to map |
| Table.UnorderedFirstIsLeast | src/dao/FichaBibliograficaDao.java:117-121 | without `ORDER BY` the first row has the least id |
| Table.First | src/dao/FichaBibliograficaDao.java:124-129 | the entity found, if any, is the first row of the result set, mapped |
| Table.SelectEmpty | src/service/FichaBibliograficaService.java:66-72 | a result set is empty exactly when no active row matches |
| Table.FirstNone | src/dao/FichaBibliograficaDao.java:124-129 | null is returned exactly when no active row matches |
| Table.FirstIsLeast | src/dao/FichaBibliograficaDao.java:124-129 | when a row matches, the result comes from the matching row with the least id |
| Store.RefusalError | src/service/FichaBibliograficaService.java:64-65 | a duplicate key surfaces with SQLState 23000 and the server's message; an unaffected statement surfaces with no state and the DAO's message |
| Store.Database.constructor | src/dao/GenericDao.java:8-11 | an empty database on a fresh connection in auto-commit mode, with both counters at 1 |
| Store.Database.SetAutoCommit | src/service/GenericService.java:27-29 | switching auto-commit on commits the open transaction |
| Store.Database.Commit | src/service/GenericService.java:22 | a commit either fails with the connection's error or makes the current state the committed one |
| Store.Database.Rollback | src/service/GenericService.java:24-26 | a rollback restores both tables to the committed state |
| Store.Database.InsertLibro | src/dao/LibroDao.java:12-15 | the book row gets a fresh id, one past the previous, unless the rule refuses |
| Store.Database.UpdateLibro | src/dao/LibroDao.java:27-31 | the book table becomes the table update by id |
| Store.Database.SoftDeleteLibro | src/dao/LibroDao.java:32-36 | the book table becomes its soft delete |
| Store.Database.InsertFicha | src/dao/FichaBibliograficaDao.java:11-14 | the card row gets a fresh id, one past the previous, unless the rule refuses |
| Store.Database.UpdateFicha | src/dao/FichaBibliograficaDao.java:26-30 | the card table becomes the table update by id |
| Store.Database.SoftDeleteFicha | src/dao/FichaBibliograficaDao.java:31-35 | the card table becomes its soft delete |
| LibroDao.MapLibro | src/dao/LibroDao.java:132-141 | a row maps exactly when titulo, autor and editorial pass their setters and the year is in range, to the values those setters store with the year unchanged; otherwise the first refusal in setter order (titulo, autor, editorial, year) is thrown |
| LibroDao.Crear | src/dao/LibroDao.java:45-65 | inserts the object's five columns; on success writes the fresh id into the object; a refusal is an `SQLException` with the "No se pudo crear el Libro." text |
| LibroDao.Actualizar | src/dao/LibroDao.java:93-107 | a null id throws before any write; otherwise all five columns of that row are replaced, deleted or not, and a missing id throws "No se encontro el Libro con ID: " plus the id |
| LibroDao.Eliminar | src/dao/LibroDao.java:110-115 | a null id throws; otherwise the row is soft-deleted and a missing id is no error |
| LibroDao.Leer | src/dao/LibroDao.java:68-78 | null exactly when no active row has the id; otherwise the mapped row, or the mapping's exception |
| LibroDao.LeerTodos | src/dao/LibroDao.java:81-90 | lists every active book once, ordered by title, and throws exactly when some active row fails to map |
| LibroDao.BuscarPorTitulo | src/dao/LibroDao.java:118-129 | lists exactly the active books whose upper-cased title contains the upper-cased query (a null query searches for "null"), once each, ordered by title |
| LibroDao.ReadBack | src/dao/LibroDao.java:45-78 | a valid book with its year in range reads back as written |
| LibroDao.YearOutOfRangeUnreadable | src/dao/LibroDao.java:132-141 | a book built with an out-of-range year can be stored but its read throws the year error |
| LibroDao.DeletedReadsAsAbsent | src/dao/LibroDao.java:16-20 | after a delete the row reads as null although it is still stored |
| LibroDao.UpdateRestores | src/dao/LibroDao.java:27-31 | an update with `eliminado` false brings a deleted row back |
| FichaDao.MapFicha | src/dao/FichaBibliograficaDao.java:134-143 | a row maps exactly when isbn, clasificacionDewey, estanteria and idioma pass their setters, to the stored values with the isbn as read; otherwise the first refusal in that order is thrown |
| FichaDao.Crear | src/dao/FichaBibliograficaDao.java:37-58 | a null book id throws before any write; otherwise the card is inserted under that owner and its fresh id written into the object; a refusal is an `SQLException` |
| FichaDao.CrearSinLibro | src/dao/FichaBibliograficaDao.java:61-63 | always throws `UnsupportedOperationException` |
| FichaDao.Actualizar | src/dao/FichaBibliograficaDao.java:91-105 | a null id throws; otherwise the card's columns and flag are replaced, deleted or not, and the owner column stays |
| FichaDao.Eliminar | src/dao/FichaBibliograficaDao.java:108-113 | a null id throws; otherwise the row is soft-deleted and a missing id is no error |
| FichaDao.Leer | src/dao/FichaBibliograficaDao.java:66-76 | null exactly when no active card has the id; otherwise the mapped card |
| FichaDao.LeerTodos | src/dao/FichaBibliograficaDao.java:79-88 | lists every active card once, ordered by ISBN, and throws exactly when some active row fails to map |
| FichaDao.BuscarPorIsbn | src/dao/FichaBibliograficaDao.java:116-131 | a null query finds nothing; a card found is active and equal in ISBN up to case |
| FichaDao.BuscarPorIdLibro | src/dao/FichaBibliograficaDao.java:144-165 | a null book id throws; a card found is active and owned by the book |
| FichaDao.BuscarPorIsbnSpec | src/dao/FichaBibliograficaDao.java:116-131 | null exactly when no active card matches; otherwise the matching card with the least id |
| FichaDao.BuscarPorIdLibroSpec | src/dao/FichaBibliograficaDao.java:144-165 | null exactly when the book has no active card; otherwise its active card with the least id |
| FichaDao.ReadBack | src/dao/FichaBibliograficaDao.java:37-76 | a valid card stored under a book reads back as written |
| FichaDao.UpdateKeepsOwners | src/dao/FichaBibliograficaDao.java:26-30 | an update never moves any card to another book |
| Relation.AddPairKeepsCoherent | src/service/LibroService.java:57-67 | storing a book under a new id together with a card naming it keeps every card's owner stored and at most one active card per book |
| Relation.AddCardKeepsCoherent | src/service/FichaBibliograficaService.java:58-79 | storing a card for a stored book with no active card keeps the link one-to-one |
| Relation.BookChangeKeepsCoherent | src/dao/LibroDao.java:27-36 | rewriting or deleting book rows keeps the link one-to-one |
| Relation.DeleteCardKeepsCoherent | src/dao/FichaBibliograficaDao.java:31-35 | deleting a card keeps the link one-to-one |
| Relation.DeleteBookOrphansCard | src/service/GenericService.java:68-83 | deleting a book leaves its card active, naming a deleted book |
| Relation.UpdateCardCanRevive | src/dao/FichaBibliograficaDao.java:26-30 | an update that clears a deleted card's flag can give its book a second active card |
| GenericService.Settle | src/service/GenericService.java:17-33 | a write ends normally exactly when the work and the commit succeed; an `SQLException` becomes a `RuntimeException` with it as cause; any other exception passes unchanged |
| GenericService.Conclude | src/service/GenericService.java:20-26 | the outcome is `Settle`'s; the state is rolled back exactly when an `SQLException` arose, and is kept otherwise |
| GenericService.RefusalConstraint | src/service/LibroService.java:140 | a refused write counts as a constraint violation exactly when it was a duplicate key |
| GenericService.CrearFicha | src/service/GenericService.java:17-33 | inherited `crear` on cards throws `UnsupportedOperationException` and changes nothing |
| GenericService.ActualizarFicha | src/service/GenericService.java:51-66 | the card update is committed, or rolled back with "Error al actualizar entidad"; auto-commit is back on |
| GenericService.EliminarLibro | src/service/GenericService.java:68-83 | the book soft delete is committed, with no error for a missing id, and the cards are untouched |
| GenericService.EliminarFicha | src/service/GenericService.java:68-83 | the card soft delete is committed, with no error for a missing id |
| LibroService.MensajeUsuario | src/service/LibroService.java:136-149 | one of three texts; the `idLIBRO` text exactly for a "23" state and a duplicate naming `idlibro`, the ISBN text for one naming `isbn` but not `idlibro` |
| LibroService.PairError | src/service/LibroService.java:31-50 | passes exactly for a non-null unlinked book and a non-null card whose ISBN is at most 17 long; null book, null card and linked book in that order |
| LibroService.ValidCardPassesPairCheck | src/service/LibroService.java:45-50 | a card built through its setters never trips the ISBN length pre-check |
| LibroService.CrearPar | src/service/LibroService.java:52-88 | succeeds exactly when both inserts and the commit succeed; then both rows are stored, otherwise neither; a failure carries the classified message |
| LibroService.CrearParKeepsCoherent | src/service/LibroService.java:57-67 | the composite create keeps the link one-to-one |
| LibroService.DuplicateIsbnReported | src/service/LibroService.java:69-78 | a card refused as a duplicate ISBN leaves neither row and reports "ISBN ya registrado en otra ficha" |
| LibroService.CrearLibroConFicha | src/service/LibroService.java:31-89 | pre-check failures change nothing; otherwise outcome and store are `CrearPar`'s, ids and link are written as the inserts succeed and survive a rollback, auto-commit is back on |
| LibroService.InsertPair | src/service/LibroService.java:57-64 | the book insert, then the card insert under the new id, then the link; the first refusal stops the sequence |
| LibroService.StaleIdNamesNoRow | src/service/LibroService.java:58-64 | after a rolled-back create the book's id names no stored row; the card got an id exactly when only the commit failed |
| LibroService.Crear | src/service/LibroService.java:103-106 | always throws `UnsupportedOperationException` |
| LibroService.ReassignCheck | src/service/LibroService.java:113-120 | never refuses a reassignment; throws only when the book is linked and its read throws |
| LibroService.Actualizar | src/service/LibroService.java:108-133 | a null book throws; otherwise the check, then the book update committed or rolled back with "Error al actualizar el Libro"; cards untouched |
| LibroService.LinkedUnreadableBookStuck | src/service/LibroService.java:114-119 | a linked book whose stored row the setters refuse cannot be updated |
| LibroService.Materialize | src/service/LibroService.java:167-173 | the card built from a row is fresh, valid and holds the row |
| LibroService.CargarFichaBibliografica | src/service/LibroService.java:151-181 | nothing for a null book or id; otherwise links a fresh card holding the book's active card, if any; throws `IllegalStateException` when a card is already linked |
| FichaService.MensajeUsuario | src/service/FichaBibliograficaService.java:127-140 | one of three texts; the ISBN text exactly for a "23" state and a duplicate naming `isbn`, the `idLIBRO` text for one naming `idlibro` but not `isbn` |
| FichaService.ClassifiersDisagree | src/service/FichaBibliograficaService.java:131-138 | the two services' classifiers differ exactly on a duplicate naming both keys, and agree on which errors are generic |
| FichaService.AttachError | src/service/FichaBibliograficaService.java:35-51 | passes exactly for a positive book id, a non-null card, and an ISBN that is null or cleans to 10 or 13 characters and is at most 17 long; otherwise the first failing check in source order (book id, null card, cleaned length, raw length) gives its own `IllegalArgumentException` |
| FichaService.ValidCardPassesAttachCheck | src/service/FichaBibliograficaService.java:43-51 | a card built through its setters passes the ISBN pre-checks |
| FichaService.CountCardsSpec | src/service/FichaBibliograficaService.java:64-74 | the count is zero exactly when the book has no active card; deleted cards do not count |
| FichaService.Adjuntar | src/service/FichaBibliograficaService.java:53-88 | a card is stored only on success, only for an active book with no active card; a missing book throws "No existe un Libro activo con ID: " plus the id |
| FichaService.AdjuntarKeepsCoherent | src/service/FichaBibliograficaService.java:58-79 | attaching a card keeps the link one-to-one |
| FichaService.SecondCardRefused | src/service/FichaBibliograficaService.java:64-74 | a book with an active card gets `IllegalStateException` and the store is unchanged |
| FichaService.DeletedCardDoesNotBlock | src/service/FichaBibliograficaService.java:64-79 | a book whose cards are all deleted gets the new card when the store and commit accept |
| FichaService.Crear | src/service/FichaBibliograficaService.java:34-99 | pre-check failures change nothing; otherwise outcome and store are `Adjuntar`'s, the card's id is written when inserted, auto-commit is back on |
| FichaService.Checked | src/service/FichaBibliograficaService.java:58-77 | read the book, count its active cards, insert the card; each step's failure stops the sequence before any write |
| FichaService.BuscarPorIsbn | src/service/FichaBibliograficaService.java:104-113 | refused exactly for a null or blank ISBN; otherwise the DAO lookup |
| FichaService.Actualizar | src/service/FichaBibliograficaService.java:116-124 | a null card or id throws "FichaBibliografica invalida para actualizar"; otherwise the generic card update |

## Left out

- Connections and I/O: `DatabaseConnection`, the console menu, `close`, and the logging of nested rollback and close failures are not part of this model. A database is a parameter of every operation.
- Connection failures other than a failing `commit` are not modelled: the "Error de conexion" paths of the services and any `SQLException` raised by a read or by `setAutoCommit`.
- Reads never throw an `SQLException` in this model. The services' plain reads (`obtenerPorId`, `listarTodos`, `LibroService.buscarPorTitulo`, `FichaBibliograficaService.buscarPorIdLibro`) wrap only that exception, so they are the DAO reads themselves (`LibroDao.Leer`, `LibroDao.LeerTodos`, `LibroDao.BuscarPorTitulo`, `FichaDao.Leer`, `FichaDao.LeerTodos`, `FichaDao.BuscarPorIdLibro`).
- The schema's unique keys are an abstract rule per table. Whether they apply to deleted rows is left open.
- A refused insert consumes no auto-increment value. A rolled-back insert keeps its value consumed, as InnoDB does.
- Case conversion is ASCII-only. `LIKE` wildcards in the title query (`%`, `_`) and its default escape character `\` are matched literally. `LIKE` in `LibroDao.BuscarPorTitulo` and `=` in `FichaDao.BuscarPorIsbn` compare by ASCII `UPPER` equality, not under the column's collation (accent folding, trailing spaces ignored under a PAD SPACE collation). `ORDER BY` uses character order, with null first, instead of the server's collation.
- A query without `ORDER BY` returns rows in id order.
- Rows whose `ORDER BY` keys are equal come back in id order (`Table.SelectSorted`, `LibroDao.LeerTodos`, `LibroDao.BuscarPorTitulo`, `FichaDao.LeerTodos`). The server does not promise any order among such rows.
- String lengths and indices count Unicode characters (scalar values), not Java's UTF-16 code units. A character outside the Basic Multilingual Plane counts 1 where Java's `length()` counts 2, so the length limits of `CheckRequired`, `CheckOptional` and `CheckIsbn` accept such text up to the limit in characters. Unpaired surrogates cannot be written as Dafny characters and are not modelled.
- A null exception message is not modelled: every `SqlError` has a message.
- `long` ids do not overflow.
- `toString`, `hashCode`, concurrency and isolation levels are not modelled.
- A rollback restores the two tables only. The counters and the in-memory objects stay as they are, as in the source.
