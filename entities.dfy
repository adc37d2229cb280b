/** The two record types of the catalogue, `Libro` and `FichaBibliografica`
    (package `entities`): their field rules as pure checks, and the classes
    whose setters validate before they assign. A setter that throws in the
    source returns `Fail` here and leaves the object as it was. */
module Entities {
  import opened Wrappers
  import opened Text

  /** One variant per exception the two classes throw: every one is an
      `IllegalArgumentException`, except `FichaYaAsociada`, an
      `IllegalStateException`. */
  datatype EntityError =
    | TituloVacio | TituloLargo
    | AutorVacio | AutorLargo
    | EditorialLarga
    | AnioFueraDeRango
    | IsbnLongitud | IsbnCaracteres | IsbnLargo
    | DeweyLargo | EstanteriaLarga | IdiomaLargo
    | FichaYaAsociada

  const MaxTitulo: nat := 150
  const MaxAutor: nat := 120
  const MaxEditorial: nat := 100
  const MinAnio: int := 1450
  const MaxAnio: int := 2025
  const MaxIsbn: nat := 17
  const MaxDewey: nat := 20
  const MaxEstanteria: nat := 20
  const MaxIdioma: nat := 30

  // ---------------------------------------------------------------------
  // Field rules

  /** The rule of `setTitulo` and `setAutor`: refuse a null or blank value,
      then a value longer than `max` (measured before trimming), and store
      the trimmed value. */
  function CheckRequired(s: Option<string>, max: nat, blank: EntityError, tooLong: EntityError): Result<string, EntityError> {
    if s.None? || Trim(s.value) == [] then Failure(blank)
    else if |s.value| > max then Failure(tooLong)
    else Success(Trim(s.value))
  }

  /** The rule of `setEditorial`, `setClasificacionDewey`, `setEstanteria` and
      `setIdioma`: null stays null, a value longer than `max` is refused,
      anything else is stored trimmed (a blank value becomes ""). */
  function CheckOptional(s: Option<string>, max: nat, tooLong: EntityError): Result<Option<string>, EntityError> {
    if s.Some? && |s.value| > max then Failure(tooLong)
    else if s.Some? then Success(Some(Trim(s.value)))
    else Success(None)
  }

  lemma CheckRequiredSpec(s: Option<string>, max: nat, blank: EntityError, tooLong: EntityError)
    ensures var r := CheckRequired(s, max, blank, tooLong);
      && (r.Success? <==> s.Some? && (exists i :: 0 <= i < |s.value| && !IsTrimmable(s.value[i])) && |s.value| <= max)
      && (r.Success? ==> r.value == Trim(s.value) && r.value != [] && |r.value| <= max && Trimmed(r.value))
      && (r.Failure? && s.Some? && |s.value| <= max ==> r.error == blank)
      && (r.Failure? && r.error != blank ==> s.Some? && |s.value| > max)
      && (s.None? || Trim(s.value) == [] ==> r == Failure(blank))
      && (s.Some? && Trim(s.value) != [] && |s.value| > max ==> r == Failure(tooLong))
  {
    if s.Some? {
      TrimEmpty(s.value);
    }
  }

  /** A stored value passes its own setter again unchanged: what a setter
      stores, re-reading it through the setter gives back. */
  lemma CheckRequiredStable(s: Option<string>, max: nat, blank: EntityError, tooLong: EntityError)
    requires CheckRequired(s, max, blank, tooLong).Success?
    ensures var v := CheckRequired(s, max, blank, tooLong).value;
      CheckRequired(Some(v), max, blank, tooLong) == Success(v)
  {
    RequiredStoredStable(Trim(s.value), max, blank, tooLong);
  }

  lemma CheckOptionalSpec(s: Option<string>, max: nat, tooLong: EntityError)
    ensures var r := CheckOptional(s, max, tooLong);
      && (r.Failure? <==> s.Some? && |s.value| > max)
      && (r.Failure? ==> r.error == tooLong)
      && (r.Success? ==> (r.value.None? <==> s.None?))
      && (r.Success? && s.Some? ==> r.value == Some(Trim(s.value)))
      && (r.Success? && r.value.Some? ==> |r.value.value| <= max && Trimmed(r.value.value))
  {
  }

  lemma CheckOptionalStable(s: Option<string>, max: nat, tooLong: EntityError)
    requires CheckOptional(s, max, tooLong).Success?
    ensures var v := CheckOptional(s, max, tooLong).value;
      CheckOptional(v, max, tooLong) == Success(v)
  {
    if s.Some? {
      TrimTrimmed(Trim(s.value));
    }
  }

  function CheckTitulo(s: Option<string>): Result<string, EntityError> {
    CheckRequired(s, MaxTitulo, TituloVacio, TituloLargo)
  }

  function CheckAutor(s: Option<string>): Result<string, EntityError> {
    CheckRequired(s, MaxAutor, AutorVacio, AutorLargo)
  }

  function CheckEditorial(s: Option<string>): Result<Option<string>, EntityError> {
    CheckOptional(s, MaxEditorial, EditorialLarga)
  }

  /** `setAnioEdicion`: null, or a year in 1450..2025 inclusive. */
  function CheckAnio(y: Option<int>): (r: Outcome<EntityError>)
    ensures r.Pass? <==> y.None? || MinAnio <= y.value <= MaxAnio
    ensures r.Fail? ==> r.error == AnioFueraDeRango
  {
    if y.Some? && (y.value < MinAnio || y.value > MaxAnio) then Fail(AnioFueraDeRango) else Pass
  }

  function CheckDewey(s: Option<string>): Result<Option<string>, EntityError> {
    CheckOptional(s, MaxDewey, DeweyLargo)
  }

  function CheckEstanteria(s: Option<string>): Result<Option<string>, EntityError> {
    CheckOptional(s, MaxEstanteria, EstanteriaLarga)
  }

  function CheckIdioma(s: Option<string>): Result<Option<string>, EntityError> {
    CheckOptional(s, MaxIdioma, IdiomaLargo)
  }

  // ---------------------------------------------------------------------
  // ISBN shape

  predicate AllDigits(s: string) {
    forall i :: 0 <= i < |s| ==> IsDigit(s[i])
  }

  predicate IsCheckChar(c: char) {
    IsDigit(c) || c == 'X' || c == 'x'
  }

  /** A full match of `\d{9}[\dXx]|\d{12}[\dXx]`. */
  predicate MatchesIsbnPattern(c: string) {
    || (|c| == 10 && AllDigits(c[..9]) && IsCheckChar(c[9]))
    || (|c| == 13 && AllDigits(c[..12]) && IsCheckChar(c[12]))
  }

  /** `setIsbn`: null is accepted; otherwise three checks in order on the
      value with spaces and hyphens removed (its length, then its
      characters) and on the raw value (at most 17 characters). No check
      digit is computed. */
  function CheckIsbn(s: Option<string>): Outcome<EntityError> {
    if s.None? then Pass
    else
      var clean := RemoveSpacesAndHyphens(s.value);
      if |clean| != 10 && |clean| != 13 then Fail(IsbnLongitud)
      else if !MatchesIsbnPattern(clean) then Fail(IsbnCaracteres)
      else if |s.value| > MaxIsbn then Fail(IsbnLargo)
      else Pass
  }

  /** An ISBN is accepted exactly when its cleaned form has the ISBN-10 or
      ISBN-13 shape and the raw text is at most 17 characters long; the
      first failing check decides the error. */
  lemma CheckIsbnSpec(s: string)
    ensures var clean := RemoveSpacesAndHyphens(s);
      && (CheckIsbn(Some(s)).Pass? <==> MatchesIsbnPattern(clean) && |s| <= MaxIsbn)
      && (CheckIsbn(Some(s)) == Fail(IsbnLongitud) <==> |clean| != 10 && |clean| != 13)
      && (CheckIsbn(Some(s)) == Fail(IsbnCaracteres) <==> (|clean| == 10 || |clean| == 13) && !MatchesIsbnPattern(clean))
      && (CheckIsbn(Some(s)) == Fail(IsbnLargo) <==> MatchesIsbnPattern(clean) && |s| > MaxIsbn)
  {
  }

  /** With nothing to remove, the removal of spaces and hyphens is the identity. */
  lemma {:induction false} RemoveNothing(s: string)
    requires forall i :: 0 <= i < |s| ==> !IsSpaceOrHyphen(s[i])
    ensures RemoveSpacesAndHyphens(s) == s
  {
    if s != [] {
      RemoveNothing(s[1..]);
    }
  }

  /** Shape only, no check-digit arithmetic: nine digits followed by ANY
      digit, `X` or `x` form an accepted ISBN, so at most one of the eleven
      accepted endings of a given prefix is a correct ISBN-10. */
  lemma AnyCheckCharAccepted(prefix: string, check: char)
    requires |prefix| == 9 && AllDigits(prefix) && IsCheckChar(check)
    ensures CheckIsbn(Some(prefix + [check])) == Pass
  {
    var s := prefix + [check];
    RemoveNothing(s);
    assert s[..9] == prefix;
  }

  // ---------------------------------------------------------------------
  // Field sets, as values

  /** The persisted columns of a book (besides `id` and `eliminado`). */
  datatype LibroData = LibroData(titulo: Option<string>, autor: Option<string>, editorial: Option<string>, anioEdicion: Option<int>)

  /** The persisted columns of a card (besides `id`, `idLIBRO` and `eliminado`). */
  datatype FichaData = FichaData(isbn: Option<string>, clasificacionDewey: Option<string>, estanteria: Option<string>, idioma: Option<string>)

  /** The four-argument `Libro` constructor: the setters of titulo, autor and
      editorial run in that order and the first failure wins; the year is
      assigned without a check. */
  function ConstructorFields(titulo: Option<string>, autor: Option<string>, editorial: Option<string>, anio: Option<int>): Result<LibroData, EntityError> {
    match CheckTitulo(titulo)
    case Failure(e) => Failure(e)
    case Success(t) =>
      match CheckAutor(autor)
      case Failure(e) => Failure(e)
      case Success(a) =>
        match CheckEditorial(editorial)
        case Failure(e) => Failure(e)
        case Success(ed) => Success(LibroData(Some(t), Some(a), ed, anio))
  }

  /** A book's columns passed through all four setters in the order the
      source maps a result row (titulo, autor, editorial, anioEdicion). */
  function SetterFields(d: LibroData): Result<LibroData, EntityError> {
    match ConstructorFields(d.titulo, d.autor, d.editorial, d.anioEdicion)
    case Failure(e) => Failure(e)
    case Success(v) => if CheckAnio(d.anioEdicion).Fail? then Failure(AnioFueraDeRango) else Success(v)
  }

  /** The constructor and the setters agree on every field but the year: a
      year the setter refuses is let through by the constructor. */
  lemma ConstructorSkipsYear(titulo: Option<string>, autor: Option<string>, editorial: Option<string>, anio: Option<int>)
    ensures var c := ConstructorFields(titulo, autor, editorial, anio);
      var s := SetterFields(LibroData(titulo, autor, editorial, anio));
      && (c.Failure? ==> s == c)
      && (c.Success? && CheckAnio(anio).Pass? ==> s == c)
      && (c.Success? && CheckAnio(anio).Fail? ==> s == Failure(AnioFueraDeRango) && c.value.anioEdicion == anio)
  {
  }

  /** What the setters of a card store, in constructor order (isbn,
      clasificacionDewey, estanteria, idioma). */
  function FichaFields(d: FichaData): Result<FichaData, EntityError> {
    if CheckIsbn(d.isbn).Fail? then Failure(CheckIsbn(d.isbn).error)
    else
      match CheckDewey(d.clasificacionDewey)
      case Failure(e) => Failure(e)
      case Success(dw) =>
        match CheckEstanteria(d.estanteria)
        case Failure(e) => Failure(e)
        case Success(es) =>
          match CheckIdioma(d.idioma)
          case Failure(e) => Failure(e)
          case Success(id) => Success(FichaData(d.isbn, dw, es, id))
  }

  /** A value a required-string setter can have stored. */
  predicate RequiredStored(s: string, max: nat) {
    s != [] && |s| <= max && Trimmed(s)
  }

  /** A value an optional-string setter can have stored. */
  predicate OptionalStored(s: Option<string>, max: nat) {
    s.Some? ==> |s.value| <= max && Trimmed(s.value)
  }

  /** Field values a book object can hold (the year is unconstrained, since
      the constructor skips its check). */
  predicate LibroFieldsValid(d: LibroData) {
    && (d.titulo.Some? ==> RequiredStored(d.titulo.value, MaxTitulo))
    && (d.autor.Some? ==> RequiredStored(d.autor.value, MaxAutor))
    && OptionalStored(d.editorial, MaxEditorial)
  }

  /** Field values a card object can hold. */
  predicate FichaDataValid(d: FichaData) {
    && CheckIsbn(d.isbn).Pass?
    && OptionalStored(d.clasificacionDewey, MaxDewey)
    && OptionalStored(d.estanteria, MaxEstanteria)
    && OptionalStored(d.idioma, MaxIdioma)
  }

  /** A stored required value passes its setter again unchanged. */
  lemma RequiredStoredStable(s: string, max: nat, blank: EntityError, tooLong: EntityError)
    requires RequiredStored(s, max)
    ensures CheckRequired(Some(s), max, blank, tooLong) == Success(s)
  {
    TrimTrimmed(s);
  }

  /** A stored optional value passes its setter again unchanged. */
  lemma OptionalStoredStable(s: Option<string>, max: nat, tooLong: EntityError)
    requires OptionalStored(s, max)
    ensures CheckOptional(s, max, tooLong) == Success(s)
  {
    if s.Some? {
      TrimTrimmed(s.value);
    }
  }

  /** Reading a valid card back through its setters gives the same card. */
  lemma FichaDataStable(d: FichaData)
    requires FichaDataValid(d)
    ensures FichaFields(d) == Success(d)
  {
    OptionalStoredStable(d.clasificacionDewey, MaxDewey, DeweyLargo);
    OptionalStoredStable(d.estanteria, MaxEstanteria, EstanteriaLarga);
    OptionalStoredStable(d.idioma, MaxIdioma, IdiomaLargo);
  }

  /** Reading a valid book with its year in range back through its setters
      gives the same book. */
  lemma LibroDataStable(d: LibroData)
    requires LibroFieldsValid(d) && d.titulo.Some? && d.autor.Some? && CheckAnio(d.anioEdicion).Pass?
    ensures SetterFields(d) == Success(d)
  {
    RequiredStoredStable(d.titulo.value, MaxTitulo, TituloVacio, TituloLargo);
    RequiredStoredStable(d.autor.value, MaxAutor, AutorVacio, AutorLargo);
    OptionalStoredStable(d.editorial, MaxEditorial, EditorialLarga);
  }

  /** The constructor of a book yields valid fields holding the year as given. */
  lemma ConstructorFieldsValid(titulo: Option<string>, autor: Option<string>, editorial: Option<string>, anio: Option<int>)
    requires ConstructorFields(titulo, autor, editorial, anio).Success?
    ensures var d := ConstructorFields(titulo, autor, editorial, anio).value;
      LibroFieldsValid(d) && d.titulo.Some? && d.autor.Some? && d.anioEdicion == anio
  {
  }

  /** Whatever the card setters accept is a valid card. */
  lemma FichaFieldsValid(d: FichaData)
    requires FichaFields(d).Success?
    ensures FichaDataValid(FichaFields(d).value)
  {
  }

  /** A valid card's ISBN, if any, has a cleaned length of 10 or 13 and a raw
      length of at most 17. */
  lemma ValidIsbnBounds(d: FichaData)
    requires FichaDataValid(d) && d.isbn.Some?
    ensures var clean := RemoveSpacesAndHyphens(d.isbn.value);
      (|clean| == 10 || |clean| == 13) && |d.isbn.value| <= MaxIsbn
  {
  }

  // ---------------------------------------------------------------------
  // Classes

  class FichaBibliografica {
    var id: Option<int>
    var isbn: Option<string>
    var clasificacionDewey: Option<string>
    var estanteria: Option<string>
    var idioma: Option<string>
    var eliminado: bool

    function Data(): FichaData
      reads this
    {
      FichaData(isbn, clasificacionDewey, estanteria, idioma)
    }

    ghost predicate Valid()
      reads this
    {
      FichaDataValid(Data())
    }

    /** The empty constructor. */
    constructor ()
      ensures Valid() && id == None && !eliminado
      ensures Data() == FichaData(None, None, None, None)
    {
      id, isbn, clasificacionDewey, estanteria, idioma := None, None, None, None, None;
      eliminado := false;
    }

    /** The four-argument constructor, which throws what its first failing
        setter throws. */
    static method Nueva(isbn: Option<string>, dewey: Option<string>, estanteria: Option<string>, idioma: Option<string>)
      returns (r: Result<FichaBibliografica, EntityError>)
      ensures r.Failure? ==> FichaFields(FichaData(isbn, dewey, estanteria, idioma)) == Failure(r.error)
      ensures r.Success? ==> FichaFields(FichaData(isbn, dewey, estanteria, idioma)) == Success(r.value.Data())
      ensures r.Success? ==> fresh(r.value) && r.value.Valid() && r.value.id == None && !r.value.eliminado
    {
      match FichaFields(FichaData(isbn, dewey, estanteria, idioma))
      case Failure(e) =>
        r := Failure(e);
      case Success(d) =>
        var ficha := new FichaBibliografica();
        ficha.isbn, ficha.clasificacionDewey, ficha.estanteria, ficha.idioma := d.isbn, d.clasificacionDewey, d.estanteria, d.idioma;
        r := Success(ficha);
    }

    method SetId(newId: Option<int>)
      modifies this`id
      ensures id == newId
    {
      id := newId;
    }

    /** `setIsbn`: on success the value is stored exactly as given, neither
        cleaned nor trimmed. */
    method SetIsbn(s: Option<string>) returns (r: Outcome<EntityError>)
      requires Valid()
      modifies this`isbn
      ensures Valid()
      ensures r == CheckIsbn(s)
      ensures isbn == if r.Pass? then s else old(isbn)
    {
      r := CheckIsbn(s);
      if r.Pass? {
        isbn := s;
      }
    }

    method SetClasificacionDewey(s: Option<string>) returns (r: Outcome<EntityError>)
      requires Valid()
      modifies this`clasificacionDewey
      ensures Valid()
      ensures r.Pass? <==> CheckDewey(s).Success?
      ensures r.Fail? ==> r.error == CheckDewey(s).error
      ensures clasificacionDewey == if r.Pass? then CheckDewey(s).value else old(clasificacionDewey)
    {
      match CheckDewey(s)
      case Failure(e) => r := Fail(e);
      case Success(v) =>
        clasificacionDewey := v;
        r := Pass;
    }

    method SetEstanteria(s: Option<string>) returns (r: Outcome<EntityError>)
      requires Valid()
      modifies this`estanteria
      ensures Valid()
      ensures r.Pass? <==> CheckEstanteria(s).Success?
      ensures r.Fail? ==> r.error == CheckEstanteria(s).error
      ensures estanteria == if r.Pass? then CheckEstanteria(s).value else old(estanteria)
    {
      match CheckEstanteria(s)
      case Failure(e) => r := Fail(e);
      case Success(v) =>
        estanteria := v;
        r := Pass;
    }

    method SetIdioma(s: Option<string>) returns (r: Outcome<EntityError>)
      requires Valid()
      modifies this`idioma
      ensures Valid()
      ensures r.Pass? <==> CheckIdioma(s).Success?
      ensures r.Fail? ==> r.error == CheckIdioma(s).error
      ensures idioma == if r.Pass? then CheckIdioma(s).value else old(idioma)
    {
      match CheckIdioma(s)
      case Failure(e) => r := Fail(e);
      case Success(v) =>
        idioma := v;
        r := Pass;
    }

    /** `setEliminado`: null is stored as false. */
    method SetEliminado(b: Option<bool>)
      modifies this`eliminado
      ensures eliminado == (b == Some(true))
    {
      eliminado := b.Some? && b.value;
    }

    /** `equals`: identity, or equal ids (two null ids are equal). */
    predicate Equals(o: FichaBibliografica?)
      reads this, o
      ensures Equals(o) <==> o != null && o.id == id
    {
      o != null && (o == this || id == o.id)
    }
  }

  class Libro {
    var id: Option<int>
    var titulo: Option<string>
    var autor: Option<string>
    var editorial: Option<string>
    var anioEdicion: Option<int>
    var eliminado: bool
    var fichaBibliografica: FichaBibliografica?

    function Data(): LibroData
      reads this
    {
      LibroData(titulo, autor, editorial, anioEdicion)
    }

    ghost predicate Valid()
      reads this
    {
      LibroFieldsValid(Data())
    }

    /** The empty constructor: every field null but `eliminado`, which is false. */
    constructor ()
      ensures Valid() && id == None && !eliminado && fichaBibliografica == null
      ensures Data() == LibroData(None, None, None, None)
    {
      id, titulo, autor, editorial, anioEdicion := None, None, None, None, None;
      eliminado := false;
      fichaBibliografica := null;
    }

    /** The four-argument constructor: titulo, autor and editorial through
        their setters, the year assigned as given. */
    static method Nuevo(titulo: Option<string>, autor: Option<string>, editorial: Option<string>, anio: Option<int>)
      returns (r: Result<Libro, EntityError>)
      ensures r.Failure? ==> ConstructorFields(titulo, autor, editorial, anio) == Failure(r.error)
      ensures r.Success? ==> ConstructorFields(titulo, autor, editorial, anio) == Success(r.value.Data())
      ensures r.Success? ==> fresh(r.value) && r.value.Valid()
      ensures r.Success? ==> r.value.id == None && !r.value.eliminado && r.value.fichaBibliografica == null
    {
      match ConstructorFields(titulo, autor, editorial, anio)
      case Failure(e) =>
        r := Failure(e);
      case Success(d) =>
        var libro := new Libro();
        libro.titulo, libro.autor, libro.editorial, libro.anioEdicion := d.titulo, d.autor, d.editorial, d.anioEdicion;
        r := Success(libro);
    }

    method SetId(newId: Option<int>)
      modifies this`id
      ensures id == newId
    {
      id := newId;
    }

    method SetTitulo(s: Option<string>) returns (r: Outcome<EntityError>)
      requires Valid()
      modifies this`titulo
      ensures Valid()
      ensures r.Pass? <==> CheckTitulo(s).Success?
      ensures r.Fail? ==> r.error == CheckTitulo(s).error
      ensures titulo == if r.Pass? then Some(CheckTitulo(s).value) else old(titulo)
    {
      match CheckTitulo(s)
      case Failure(e) => r := Fail(e);
      case Success(v) =>
        titulo := Some(v);
        r := Pass;
    }

    method SetAutor(s: Option<string>) returns (r: Outcome<EntityError>)
      requires Valid()
      modifies this`autor
      ensures Valid()
      ensures r.Pass? <==> CheckAutor(s).Success?
      ensures r.Fail? ==> r.error == CheckAutor(s).error
      ensures autor == if r.Pass? then Some(CheckAutor(s).value) else old(autor)
    {
      match CheckAutor(s)
      case Failure(e) => r := Fail(e);
      case Success(v) =>
        autor := Some(v);
        r := Pass;
    }

    method SetEditorial(s: Option<string>) returns (r: Outcome<EntityError>)
      requires Valid()
      modifies this`editorial
      ensures Valid()
      ensures r.Pass? <==> CheckEditorial(s).Success?
      ensures r.Fail? ==> r.error == CheckEditorial(s).error
      ensures editorial == if r.Pass? then CheckEditorial(s).value else old(editorial)
    {
      match CheckEditorial(s)
      case Failure(e) => r := Fail(e);
      case Success(v) =>
        editorial := v;
        r := Pass;
    }

    method SetAnioEdicion(y: Option<int>) returns (r: Outcome<EntityError>)
      modifies this`anioEdicion
      ensures r == CheckAnio(y)
      ensures anioEdicion == if r.Pass? then y else old(anioEdicion)
    {
      r := CheckAnio(y);
      if r.Pass? {
        anioEdicion := y;
      }
    }

    /** `setEliminado`: null is stored as false. */
    method SetEliminado(b: Option<bool>)
      modifies this`eliminado
      ensures eliminado == (b == Some(true))
    {
      eliminado := b.Some? && b.value;
    }

    /** `setFichaBibliografica`: a second card is refused while one is
        linked; null is always accepted and clears the link. */
    method SetFichaBibliografica(f: FichaBibliografica?) returns (r: Outcome<EntityError>)
      modifies this`fichaBibliografica
      ensures r.Fail? <==> old(fichaBibliografica) != null && f != null
      ensures r.Fail? ==> r.error == FichaYaAsociada
      ensures fichaBibliografica == if r.Pass? then f else old(fichaBibliografica)
    {
      if fichaBibliografica != null && f != null {
        r := Fail(FichaYaAsociada);
      } else {
        fichaBibliografica := f;
        r := Pass;
      }
    }

    /** `equals`: identity, or equal ids (two null ids are equal). */
    predicate Equals(o: Libro?)
      reads this, o
      ensures Equals(o) <==> o != null && o.id == id
    {
      o != null && (o == this || id == o.id)
    }
  }
}
