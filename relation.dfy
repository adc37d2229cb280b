/** The one-to-one link between books and cards, as the two tables hold it:
    a card row names its book in `idLIBRO`, and a book has at most one
    active card. No foreign key or cross-table check in the store keeps this;
    the services do, and these lemmas say which table changes preserve it. */
module Relation {
  import opened Wrappers
  import opened Table
  import opened Entities
  import opened Store

  /** Every card row names a stored book row, active or not. */
  ghost predicate OwnersExist(s: Snapshot) {
    forall k :: k in s.fichas ==> s.fichas[k].data.idLibro in s.libros
  }

  /** No book has two active cards. */
  ghost predicate OneActiveCard(s: Snapshot) {
    forall a, b :: IsActive(s.fichas, a) && IsActive(s.fichas, b) && s.fichas[a].data.idLibro == s.fichas[b].data.idLibro ==> a == b
  }

  ghost predicate Coherent(s: Snapshot) {
    OwnersExist(s) && OneActiveCard(s)
  }

  /** Some active card names the book. */
  ghost predicate HasActiveCard(t: Rows<FichaRow>, idLibro: int) {
    exists k :: IsActive(t, k) && t[k].data.idLibro == idLibro
  }

  /** Every active card names an active book. */
  ghost predicate LiveOwners(s: Snapshot) {
    forall k :: IsActive(s.fichas, k) ==> IsActive(s.libros, s.fichas[k].data.idLibro)
  }

  /** A book stored under an id no row had, together with a card naming it,
      keeps the link one-to-one: no earlier card can name the new id. */
  lemma AddPairKeepsCoherent(s: Snapshot, idL: int, libro: Row<LibroData>, idF: int, card: Row<FichaRow>)
    requires Coherent(s) && idL !in s.libros && card.data.idLibro == idL
    ensures Coherent(Snapshot(s.libros[idL := libro], s.fichas[idF := card]))
  {
    var u := Snapshot(s.libros[idL := libro], s.fichas[idF := card]);
    forall a, b | IsActive(u.fichas, a) && IsActive(u.fichas, b) && u.fichas[a].data.idLibro == u.fichas[b].data.idLibro
      ensures a == b
    {
      if a != idF && b != idF {
        assert IsActive(s.fichas, a) && IsActive(s.fichas, b);
      }
    }
  }

  /** A card stored for a book that exists and has no active card keeps the
      link one-to-one. */
  lemma AddCardKeepsCoherent(s: Snapshot, idF: int, card: Row<FichaRow>)
    requires Coherent(s) && card.data.idLibro in s.libros && !HasActiveCard(s.fichas, card.data.idLibro)
    ensures Coherent(Snapshot(s.libros, s.fichas[idF := card]))
  {
    var u := Snapshot(s.libros, s.fichas[idF := card]);
    forall a, b | IsActive(u.fichas, a) && IsActive(u.fichas, b) && u.fichas[a].data.idLibro == u.fichas[b].data.idLibro
      ensures a == b
    {
      if a != idF && b != idF {
        assert IsActive(s.fichas, a) && IsActive(s.fichas, b);
      } else if a != idF {
        assert IsActive(s.fichas, a);
      } else if b != idF {
        assert IsActive(s.fichas, b);
      }
    }
  }

  /** Deleting or rewriting book rows keeps the link one-to-one, as long as
      no book row disappears. */
  lemma BookChangeKeepsCoherent(s: Snapshot, libros: Rows<LibroData>)
    requires Coherent(s) && libros.Keys == s.libros.Keys
    ensures Coherent(Snapshot(libros, s.fichas))
  {
  }

  /** Deleting a card keeps the link one-to-one: no card becomes active. */
  lemma DeleteCardKeepsCoherent(s: Snapshot, id: int)
    requires Coherent(s)
    ensures Coherent(Snapshot(s.libros, SoftDelete(s.fichas, id)))
  {
    var u := Snapshot(s.libros, SoftDelete(s.fichas, id));
    SoftDeleteHides(s.fichas, id);
    forall a, b | IsActive(u.fichas, a) && IsActive(u.fichas, b) && u.fichas[a].data.idLibro == u.fichas[b].data.idLibro
      ensures a == b
    {
      assert IsActive(s.fichas, a) && IsActive(s.fichas, b);
    }
  }

  /** Deleting a book does not delete its card: the card stays active and
      names a deleted book. */
  lemma DeleteBookOrphansCard(s: Snapshot, k: int)
    requires IsActive(s.fichas, k)
    ensures var u := Snapshot(SoftDelete(s.libros, s.fichas[k].data.idLibro), s.fichas);
      IsActive(u.fichas, k) && !LiveOwners(u)
  {
    SoftDeleteHides(s.libros, s.fichas[k].data.idLibro);
  }

  /** Rewriting a card can break the link: an update that clears the flag of
      a deleted card gives its book a second active card, unless the store
      itself refuses the row. */
  lemma UpdateCardCanRevive(d: FichaData, libro: LibroData)
    ensures var s := Snapshot(map[1 := Row(libro, false)], map[1 := Row(FichaRow(1, d), true), 2 := Row(FichaRow(1, d), false)]);
      var accept := (t: Rows<FichaRow>, id: int, row: Row<FichaRow>) => None;
      var u := Update(s.fichas, 1, Row(FichaRow(1, d), false), accept);
      Coherent(s) && u.Success? && !OneActiveCard(Snapshot(s.libros, u.value))
  {
    var s := Snapshot(map[1 := Row(libro, false)], map[1 := Row(FichaRow(1, d), true), 2 := Row(FichaRow(1, d), false)]);
    var accept := (t: Rows<FichaRow>, id: int, row: Row<FichaRow>) => None;
    var u := Update(s.fichas, 1, Row(FichaRow(1, d), false), accept).value;
    assert IsActive(u, 1) && IsActive(u, 2);
  }
}
