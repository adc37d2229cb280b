/** The contract every DAO of the catalogue implements (`GenericDao`), stated
    once over a table of rows: ids map to rows, each row carries the
    `eliminado` flag, reads see only the active rows, an update matches the
    id whatever the flag, and a delete only raises the flag. Also the
    result set of a `SELECT ... WHERE eliminado = FALSE ... ORDER BY`, and the
    `while (rs.next())` loop that maps it row by row. */
module Table {
  import opened Wrappers
  import opened Text

  /** A stored row: its columns and the soft-delete flag. */
  datatype Row<T> = Row(data: T, eliminado: bool)

  /** A table: the primary key `id` to the row. */
  type Rows<T> = map<int, Row<T>>

  /** One line of a result set: the `id` column and the other columns. */
  datatype Record<T> = Record(id: int, data: T)

  /** Why the store turns a write down: a unique-key violation with the
      server's message, or a statement that affects no row. */
  datatype Refusal = Duplicate(message: string) | NoRowsAffected

  /** A store-side rule (the schema's constraints): given the table, the id
      the row is written under and the row, the reason it is refused, if
      any. */
  type Rule<!T> = (Rows<T>, int, Row<T>) -> Option<Refusal>

  predicate IsActive<T>(t: Rows<T>, id: int) {
    id in t && !t[id].eliminado
  }

  // ---------------------------------------------------------------------
  // Writes

  /** `INSERT`: under the next auto-increment value `next`, unless the
      rule refuses the row. */
  function Insert<T>(t: Rows<T>, next: int, row: Row<T>, rule: Rule<T>): (r: Result<Rows<T>, Refusal>)
    ensures r.Failure? <==> rule(t, next, row).Some?
    ensures r.Failure? ==> r.error == rule(t, next, row).value
    ensures r.Success? ==> r.value.Keys == t.Keys + {next} && r.value[next] == row
    ensures r.Success? ==> forall id :: id in t && id != next ==> r.value[id] == t[id]
  {
    match rule(t, next, row)
    case Some(refusal) => Failure(refusal)
    case None => Success(t[next := row])
  }

  /** `UPDATE ... WHERE id = ?`: every column, the flag included, of the
      row with that id, active or not; no row with the id affects no row. */
  function Update<T>(t: Rows<T>, id: int, row: Row<T>, rule: Rule<T>): (r: Result<Rows<T>, Refusal>)
    ensures id !in t ==> r == Failure(NoRowsAffected)
    ensures r.Success? <==> id in t && rule(t, id, row).None?
    ensures r.Failure? && id in t ==> r.error == rule(t, id, row).value
    ensures r.Success? ==> r.value.Keys == t.Keys && r.value[id] == row
    ensures r.Success? ==> forall k :: k in t && k != id ==> r.value[k] == t[k]
  {
    if id !in t then Failure(NoRowsAffected)
    else
      match rule(t, id, row)
      case Some(refusal) => Failure(refusal)
      case None => Success(t[id := row])
  }

  /** `UPDATE ... SET eliminado = TRUE WHERE id = ?`: no row is removed, no
      other column changes, and a missing id is no error. */
  function SoftDelete<T>(t: Rows<T>, id: int): (r: Rows<T>)
    ensures r.Keys == t.Keys
    ensures forall k :: k in t ==> r[k].data == t[k].data
    ensures forall k :: k in t && k != id ==> r[k] == t[k]
    ensures id in t ==> r[id].eliminado
  {
    if id in t then t[id := Row(t[id].data, true)] else t
  }

  /** Deleting twice is deleting once. */
  lemma SoftDeleteIdempotent<T>(t: Rows<T>, id: int)
    ensures SoftDelete(SoftDelete(t, id), id) == SoftDelete(t, id)
  {
    if id in t {
      assert SoftDelete(t, id)[id] == Row(t[id].data, true);
    }
  }

  /** After a delete the row is no longer active, and every other row keeps
      its activity. */
  lemma SoftDeleteHides<T>(t: Rows<T>, id: int)
    ensures !IsActive(SoftDelete(t, id), id)
    ensures forall k :: k != id ==> (IsActive(SoftDelete(t, id), k) <==> IsActive(t, k))
  {
  }

  // ---------------------------------------------------------------------
  // Reads

  /** `SELECT ... WHERE id = ? AND eliminado = FALSE`. */
  function Find<T>(t: Rows<T>, id: int): (r: Option<T>)
    ensures r.Some? <==> IsActive(t, id)
    ensures r.Some? ==> r.value == t[id].data
  {
    if IsActive(t, id) then Some(t[id].data) else None
  }

  /** `ORDER BY` on a nullable text column: NULL first, then character order. */
  predicate KeyLe(a: Option<string>, b: Option<string>) {
    a.None? || (b.Some? && StrLe(a.value, b.value))
  }

  /** The order of a result set: by the sort column, rows with equal sort
      values by ascending id. */
  predicate Before<T>(key: T -> Option<string>, x: Record<T>, y: Record<T>) {
    KeyLe(key(x.data), key(y.data)) && (KeyLe(key(y.data), key(x.data)) ==> x.id <= y.id)
  }

  lemma BeforeTotal<T>(key: T -> Option<string>, x: Record<T>, y: Record<T>)
    ensures Before(key, x, y) || Before(key, y, x)
  {
    var a, b := key(x.data), key(y.data);
    if a.Some? && b.Some? {
      StrLeTotal(a.value, b.value);
    }
  }

  predicate Sorted<T>(key: T -> Option<string>, s: seq<Record<T>>) {
    forall i :: 0 < i < |s| ==> Before(key, s[i - 1], s[i])
  }

  /** No two records of `s` share an id. */
  predicate DistinctIds<T>(s: seq<Record<T>>) {
    forall i, j :: 0 <= i < j < |s| ==> s[i].id != s[j].id
  }

  /** Where `x` goes in the sorted `s`: before the first record it precedes. */
  function InsertionPoint<T>(key: T -> Option<string>, x: Record<T>, s: seq<Record<T>>): (k: nat)
    ensures k <= |s|
    ensures forall i :: 0 <= i < k ==> !Before(key, x, s[i])
    ensures k < |s| ==> Before(key, x, s[k])
  {
    if s == [] || Before(key, x, s[0]) then 0 else 1 + InsertionPoint(key, x, s[1..])
  }

  /** `x` inserted into `s` at its insertion point. */
  function InsertSorted<T>(key: T -> Option<string>, x: Record<T>, s: seq<Record<T>>): (r: seq<Record<T>>)
    ensures |r| == |s| + 1
    ensures forall i :: 0 <= i < |r| ==>
      r[i] == if i < InsertionPoint(key, x, s) then s[i] else if i == InsertionPoint(key, x, s) then x else s[i - 1]
  {
    var k := InsertionPoint(key, x, s);
    s[..k] + [x] + s[k..]
  }

  /** Inserting at the insertion point keeps a sorted sequence sorted. */
  lemma InsertSortedKeepsOrder<T>(key: T -> Option<string>, x: Record<T>, s: seq<Record<T>>)
    requires Sorted(key, s)
    ensures Sorted(key, InsertSorted(key, x, s))
  {
    var k := InsertionPoint(key, x, s);
    if k > 0 {
      BeforeTotal(key, x, s[k - 1]);
    }
  }

  /** The result set of `SELECT ... WHERE <where> AND eliminado = FALSE
      ORDER BY <key>` over the ids 1 .. n - 1 (every id an auto-increment
      counter at `n` has handed out): only matching active rows, as stored. */
  function Select<T>(t: Rows<T>, n: int, where: T -> bool, key: T -> Option<string>): (r: seq<Record<T>>)
    decreases n
    ensures forall i :: 0 <= i < |r| ==> 1 <= r[i].id < n && IsActive(t, r[i].id) && r[i].data == t[r[i].id].data && where(r[i].data)
  {
    if n <= 1 then []
    else
      var rest := Select(t, n - 1, where, key);
      if IsActive(t, n - 1) && where(t[n - 1].data) then InsertSorted(key, Record(n - 1, t[n - 1].data), rest)
      else rest
  }

  /** The result set is in `ORDER BY` order. */
  lemma {:induction false} SelectSorted<T>(t: Rows<T>, n: int, where: T -> bool, key: T -> Option<string>)
    ensures Sorted(key, Select(t, n, where, key))
    decreases n
  {
    if n > 1 {
      SelectSorted(t, n - 1, where, key);
      if IsActive(t, n - 1) && where(t[n - 1].data) {
        InsertSortedKeepsOrder(key, Record(n - 1, t[n - 1].data), Select(t, n - 1, where, key));
      }
    }
  }

  /** Inserting a record whose id is new keeps the ids distinct. */
  lemma InsertKeepsDistinct<T>(key: T -> Option<string>, x: Record<T>, s: seq<Record<T>>)
    requires DistinctIds(s)
    requires forall i :: 0 <= i < |s| ==> s[i].id != x.id
    ensures DistinctIds(InsertSorted(key, x, s))
  {
    var r := InsertSorted(key, x, s);
    var k := InsertionPoint(key, x, s);
    forall i, j | 0 <= i < j < |r|
      ensures r[i].id != r[j].id
    {
      if j < k {
        assert r[i] == s[i] && r[j] == s[j];
      } else if j == k {
        assert r[i] == s[i];
      } else if i < k {
        assert r[i] == s[i] && r[j] == s[j - 1];
      } else if i == k {
        assert r[j] == s[j - 1];
      } else {
        assert r[i] == s[i - 1] && r[j] == s[j - 1];
      }
    }
  }

  /** No row appears twice in a result set. */
  lemma {:induction false} SelectDistinct<T>(t: Rows<T>, n: int, where: T -> bool, key: T -> Option<string>)
    ensures DistinctIds(Select(t, n, where, key))
    decreases n
  {
    if n > 1 {
      SelectDistinct(t, n - 1, where, key);
      if IsActive(t, n - 1) && where(t[n - 1].data) {
        InsertKeepsDistinct(key, Record(n - 1, t[n - 1].data), Select(t, n - 1, where, key));
      }
    }
  }

  /** Every active row with an id below `n` that satisfies the filter is in
      the result set. */
  lemma {:induction false} SelectComplete<T>(t: Rows<T>, n: int, where: T -> bool, key: T -> Option<string>, id: int)
    requires 1 <= id < n && IsActive(t, id) && where(t[id].data)
    ensures Record(id, t[id].data) in Select(t, n, where, key)
    decreases n
  {
    var rest := Select(t, n - 1, where, key);
    if id < n - 1 {
      SelectComplete(t, n - 1, where, key, id);
      if IsActive(t, n - 1) && where(t[n - 1].data) {
        var x := Record(n - 1, t[n - 1].data);
        var j :| 0 <= j < |rest| && rest[j] == Record(id, t[id].data);
        var r := InsertSorted(key, x, rest);
        if j < InsertionPoint(key, x, rest) {
          assert r[j] == rest[j];
        } else {
          assert r[j + 1] == rest[j];
        }
      }
    } else {
      var x := Record(n - 1, t[n - 1].data);
      assert InsertSorted(key, x, rest)[InsertionPoint(key, x, rest)] == x;
    }
  }

  /** A row is in the result set exactly when it is active and matches. */
  lemma SelectExactly<T>(t: Rows<T>, n: int, where: T -> bool, key: T -> Option<string>, id: int)
    requires 1 <= id < n
    ensures (exists i :: 0 <= i < |Select(t, n, where, key)| && Select(t, n, where, key)[i].id == id) <==> IsActive(t, id) && where(t[id].data)
  {
    if IsActive(t, id) && where(t[id].data) {
      SelectComplete(t, n, where, key, id);
    }
  }

  /** A narrower filter selects a part of the rows a wider one selects. */
  lemma SelectNarrower<T>(t: Rows<T>, n: int, narrow: T -> bool, wide: T -> bool, key: T -> Option<string>)
    requires forall d :: narrow(d) ==> wide(d)
    ensures forall i :: 0 <= i < |Select(t, n, narrow, key)| ==> Select(t, n, narrow, key)[i] in Select(t, n, wide, key)
  {
    var r := Select(t, n, narrow, key);
    forall i | 0 <= i < |r|
      ensures r[i] in Select(t, n, wide, key)
    {
      SelectComplete(t, n, wide, key, r[i].id);
    }
  }

  // ---------------------------------------------------------------------
  // Mapping a result set

  /** The list the `while (rs.next()) list.add(map(rs))` loop builds: every
      record mapped in order, or the exception of the first record whose
      mapping throws. */
  function MapRows<T, V, E>(rows: seq<Record<T>>, f: T -> Result<V, E>): (r: Result<seq<Record<V>>, E>)
    ensures r.Success? ==> |r.value| == |rows|
    ensures r.Success? ==> forall i :: 0 <= i < |rows| ==> r.value[i].id == rows[i].id && f(rows[i].data) == Success(r.value[i].data)
    ensures r.Failure? ==> exists i :: 0 <= i < |rows| && f(rows[i].data) == Failure(r.error) && forall j :: 0 <= j < i ==> f(rows[j].data).Success?
    ensures r.Success? <==> forall i :: 0 <= i < |rows| ==> f(rows[i].data).Success?
  {
    if rows == [] then Success([])
    else
      var last := rows[|rows| - 1];
      match MapRows(rows[..|rows| - 1], f)
      case Failure(e) => Failure(e)
      case Success(done) =>
        match f(last.data)
        case Failure(e) => Failure(e)
        case Success(v) => Success(done + [Record(last.id, v)])
  }

  /** The result-set loop itself. */
  method Fetch<T, V, E>(rows: seq<Record<T>>, f: T -> Result<V, E>) returns (r: Result<seq<Record<V>>, E>)
    ensures r == MapRows(rows, f)
  {
    var list: seq<Record<V>> := [];
    var i := 0;
    while i < |rows|
      invariant 0 <= i <= |rows|
      invariant MapRows(rows[..i], f) == Success(list)
    {
      assert rows[..i + 1][..i] == rows[..i];
      match f(rows[i].data)
      case Failure(e) =>
        assert MapRows(rows[..i + 1], f) == Failure(e);
        MapRowsFailurePropagates(rows, f, i + 1);
        return Failure(e);
      case Success(v) =>
        list := list + [Record(rows[i].id, v)];
      i := i + 1;
    }
    assert rows[..i] == rows;
    return Success(list);
  }

  /** Once a prefix fails, the whole result fails the same way. */
  lemma {:induction false} MapRowsFailurePropagates<T, V, E>(rows: seq<Record<T>>, f: T -> Result<V, E>, k: nat)
    requires k <= |rows| && MapRows(rows[..k], f).Failure?
    ensures MapRows(rows, f) == MapRows(rows[..k], f)
    decreases |rows| - k
  {
    if k < |rows| {
      assert rows[..k + 1][..k] == rows[..k];
      MapRowsFailurePropagates(rows, f, k + 1);
    } else {
      assert rows[..k] == rows;
    }
  }

  // ---------------------------------------------------------------------
  // What a mapped query returns

  /** Some record of `s` has the id. */
  predicate HasId<T>(s: seq<Record<T>>, id: int) {
    exists i :: 0 <= i < |s| && s[i].id == id
  }

  /** A DAO's list read: the result set mapped row by row. */
  function Query<T, V, E>(t: Rows<T>, n: int, where: T -> bool, key: T -> Option<string>, f: T -> Result<V, E>): (r: Result<seq<Record<V>>, E>)
    ensures r.Success? ==> forall i :: 0 <= i < |r.value| ==> IsActive(t, r.value[i].id) && where(t[r.value[i].id].data) && f(t[r.value[i].id].data) == Success(r.value[i].data)
  {
    MapRows(Select(t, n, where, key), f)
  }

  /** The list holds every active matching row, and only those. */
  lemma QueryExactly<T, V, E>(t: Rows<T>, n: int, where: T -> bool, key: T -> Option<string>, f: T -> Result<V, E>, id: int)
    requires forall k :: k in t ==> 1 <= k < n
    requires Query(t, n, where, key, f).Success?
    ensures HasId(Query(t, n, where, key, f).value, id) <==> IsActive(t, id) && where(t[id].data)
  {
    var rows := Select(t, n, where, key);
    var r := Query(t, n, where, key, f).value;
    if IsActive(t, id) && where(t[id].data) {
      SelectComplete(t, n, where, key, id);
      var i :| 0 <= i < |rows| && rows[i] == Record(id, t[id].data);
      assert r[i].id == id;
    }
  }

  /** No row is listed twice. */
  lemma QueryDistinct<T, V, E>(t: Rows<T>, n: int, where: T -> bool, key: T -> Option<string>, f: T -> Result<V, E>)
    requires Query(t, n, where, key, f).Success?
    ensures DistinctIds(Query(t, n, where, key, f).value)
  {
    SelectDistinct(t, n, where, key);
  }

  /** The list follows the stored sort column. */
  lemma QueryOrdered<T, V, E>(t: Rows<T>, n: int, where: T -> bool, key: T -> Option<string>, f: T -> Result<V, E>)
    requires Query(t, n, where, key, f).Success?
    ensures var r := Query(t, n, where, key, f).value;
      forall i :: 0 < i < |r| ==> KeyLe(key(t[r[i - 1].id].data), key(t[r[i].id].data))
  {
    var rows := Select(t, n, where, key);
    var r := Query(t, n, where, key, f).value;
    SelectSorted(t, n, where, key);
    forall i | 0 < i < |r|
      ensures KeyLe(key(t[r[i - 1].id].data), key(t[r[i].id].data))
    {
      assert Before(key, rows[i - 1], rows[i]);
    }
  }

  /** The read throws exactly when some active matching row fails to map. */
  lemma QueryFails<T, V, E>(t: Rows<T>, n: int, where: T -> bool, key: T -> Option<string>, f: T -> Result<V, E>)
    requires forall k :: k in t ==> 1 <= k < n
    ensures Query(t, n, where, key, f).Failure? <==> exists id :: IsActive(t, id) && where(t[id].data) && f(t[id].data).Failure?
  {
    var rows := Select(t, n, where, key);
    if exists id :: IsActive(t, id) && where(t[id].data) && f(t[id].data).Failure? {
      var id :| IsActive(t, id) && where(t[id].data) && f(t[id].data).Failure?;
      SelectComplete(t, n, where, key, id);
      var i :| 0 <= i < |rows| && rows[i] == Record(id, t[id].data);
      assert !f(rows[i].data).Success?;
    }
  }

  // ---------------------------------------------------------------------
  // Single-row lookups

  /** The sort column of a query without `ORDER BY`: none, so the rows come
      in primary-key order. */
  function Unordered<T>(d: T): Option<string> {
    None
  }

  /** In a result set without `ORDER BY` the first row has the least id. */
  lemma {:induction false} UnorderedFirstIsLeast<T>(s: seq<Record<T>>, j: nat)
    requires Sorted(Unordered, s) && j < |s|
    ensures s[0].id <= s[j].id
    decreases j
  {
    if j > 0 {
      UnorderedFirstIsLeast(s, j - 1);
      assert Before(Unordered, s[j - 1], s[j]);
    }
  }

  /** `if (rs.next()) return map(rs); return null;` over a query without
      `ORDER BY`: the first matching active row, mapped. */
  function First<T, V, E>(t: Rows<T>, n: int, where: T -> bool, f: T -> Result<V, E>): (r: Result<Option<Record<V>>, E>)
    ensures r.Success? && r.value.Some? ==>
      var id := r.value.value.id;
      IsActive(t, id) && where(t[id].data) && f(t[id].data) == Success(r.value.value.data)
  {
    var rows := Select(t, n, where, Unordered);
    if rows == [] then Success(None)
    else
      match f(rows[0].data)
      case Failure(e) => Failure(e)
      case Success(v) => Success(Some(Record(rows[0].id, v)))
  }

  /** A result set is empty exactly when no active row matches. */
  lemma SelectEmpty<T>(t: Rows<T>, n: int, where: T -> bool, key: T -> Option<string>)
    requires forall k :: k in t ==> 1 <= k < n
    ensures Select(t, n, where, key) == [] <==> !exists id :: IsActive(t, id) && where(t[id].data)
  {
    if exists id :: IsActive(t, id) && where(t[id].data) {
      var id :| IsActive(t, id) && where(t[id].data);
      SelectComplete(t, n, where, key, id);
    }
    if Select(t, n, where, key) != [] {
      var x := Select(t, n, where, key)[0];
      assert IsActive(t, x.id) && where(t[x.id].data);
    }
  }

  /** Nothing is found exactly when no active row matches. */
  lemma FirstNone<T, V, E>(t: Rows<T>, n: int, where: T -> bool, f: T -> Result<V, E>)
    requires forall k :: k in t ==> 1 <= k < n
    ensures First(t, n, where, f) == Success(None) <==> !exists id :: IsActive(t, id) && where(t[id].data)
  {
    SelectEmpty(t, n, where, Unordered);
  }

  /** The row found, or the row whose mapping throws, is the matching active
      row with the least id. */
  lemma FirstIsLeast<T, V, E>(t: Rows<T>, n: int, where: T -> bool, f: T -> Result<V, E>, id: int)
    requires forall k :: k in t ==> 1 <= k < n
    requires IsActive(t, id) && where(t[id].data)
    ensures var rows := Select(t, n, where, Unordered);
      && rows != []
      && rows[0].id <= id
      && First(t, n, where, f) == match f(t[rows[0].id].data)
        case Failure(e) => Failure(e)
        case Success(v) => Success(Some(Record(rows[0].id, v)))
  {
    var rows := Select(t, n, where, Unordered);
    SelectComplete(t, n, where, Unordered, id);
    SelectSorted(t, n, where, Unordered);
    var j :| 0 <= j < |rows| && rows[j] == Record(id, t[id].data);
    UnorderedFirstIsLeast(rows, j);
  }
}
