/** The data-access object over the `videojuego` table
    (src/data/repository_videojuego.py), with the table modelled as a map
    from primary key to row. */
module Repository {
  import opened Wrappers
  import opened Dates
  import opened Text
  import opened Models
  import Keys

  /** The table: primary key to row. */
  type Store = map<int, Videojuego>

  /** Every row carries its own key as its id. */
  predicate Valid(st: Store) {
    forall k :: k in st ==> st[k].id == Some(k)
  }

  /** The `ValueError`s the repository raises. */
  datatype RepoError =
    | NotFound(id: int)           // update/delete of a missing id
    | InvalidIsoDate(text: string) // `date.fromisoformat` rejected its text

  /** The table after an operation, with what the operation returned or raised. */
  datatype Step<+T> = Step(store: Store, result: Result<T, RepoError>)

  /** A listing is in ascending id order: every row has an id, and ids
      strictly increase. */
  predicate IdOrdered(rows: seq<Videojuego>) {
    (forall i :: 0 <= i < |rows| ==> rows[i].id.Some?)
    && forall i, j :: 0 <= i < j < |rows| ==> rows[i].id.value < rows[j].id.value
  }

  // ---------------------------------------------------------------------
  // Reads

  function RowsAt(st: Store, ks: seq<int>): (rows: seq<Videojuego>)
    requires forall i :: 0 <= i < |ks| ==> ks[i] in st
    ensures |rows| == |ks|
    ensures forall i :: 0 <= i < |ks| ==> rows[i] == st[ks[i]]
  {
    if ks == [] then [] else [st[ks[0]]] + RowsAt(st, ks[1..])
  }

  /** Rows listed by strictly increasing keys, each stored under its own
      key, come out in id order. */
  lemma RowsAtOrdered(st: Store, ks: seq<int>)
    requires Valid(st) && Keys.StrictlyIncreasing(ks)
    requires forall i :: 0 <= i < |ks| ==> ks[i] in st
    ensures IdOrdered(RowsAt(st, ks))
  {
  }

  /** Every row listed under keys of the table is a row of the table. */
  lemma RowsAtInTable(st: Store, ks: seq<int>, v: Videojuego)
    requires forall i :: 0 <= i < |ks| ==> ks[i] in st
    requires v in RowsAt(st, ks)
    ensures v in st.Values
  {
    var rows := RowsAt(st, ks);
    var i :| 0 <= i < |rows| && rows[i] == v;
    assert st[ks[i]] == v;
  }

  /** A row of the table is stored under some key. */
  lemma KeyOf(st: Store, v: Videojuego) returns (k: int)
    requires v in st.Values
    ensures k in st && st[k] == v
  {
    if forall j :: j in st ==> st[j] != v {
      assert false;
    }
    k :| k in st && st[k] == v;
  }

  /** Every row of the table appears when its key is listed. */
  lemma TableInRowsAt(st: Store, ks: seq<int>, k: int)
    requires forall i :: 0 <= i < |ks| ==> ks[i] in st
    requires k in ks && k in st
    ensures st[k] in RowsAt(st, ks)
  {
    var i :| 0 <= i < |ks| && ks[i] == k;
    assert RowsAt(st, ks)[i] == st[k];
  }

  /** Listing the rows under a key sequence that covers the table yields
      exactly the table's rows. */
  lemma RowsAtCover(st: Store, ks: seq<int>)
    requires forall i :: 0 <= i < |ks| ==> ks[i] in st
    requires forall k :: k in st ==> k in ks
    ensures forall v :: v in RowsAt(st, ks) <==> v in st.Values
  {
    forall v ensures v in RowsAt(st, ks) <==> v in st.Values {
      if v in RowsAt(st, ks) { RowsAtInTable(st, ks, v); }
      if v in st.Values {
        var k := KeyOf(st, v);
        TableInRowsAt(st, ks, k);
      }
    }
  }

  /** `SELECT * FROM videojuego`: every row once, in primary-key order. */
  function GetAll(st: Store): (rows: seq<Videojuego>)
    ensures |rows| == |st|
    ensures forall v :: v in rows <==> v in st.Values
    ensures Valid(st) ==> IdOrdered(rows)
  {
    var ks := Keys.Ascending(st.Keys);
    assert forall i :: 0 <= i < |ks| ==> ks[i] in st by {
      forall i | 0 <= i < |ks| ensures ks[i] in st {
        assert ks[i] in ks;
      }
    }
    RowsAtCover(st, ks);
    if Valid(st) then RowsAtOrdered(st, ks); RowsAt(st, ks) else RowsAt(st, ks)
  }

  function GetById(st: Store, id: int): (r: Option<Videojuego>)
    ensures r.Some? <==> id in st
    ensures r.Some? ==> r.value == st[id]
  {
    if id in st then Some(st[id]) else None
  }

  /** The WHERE conditions the repository issues. */
  datatype Condition =
    | TituloILike(pattern: string)
    | DesarrolladoraILike(pattern: string)
    | EsMultijugadorIs(flag: bool)
    | FechaBetween(inicio: Date, fin: Date)

  /** A row satisfies a condition; a NULL date satisfies no range. */
  predicate Holds(c: Condition, v: Videojuego) {
    match c
    case TituloILike(p) => ILikeContains(v.titulo, p)
    case DesarrolladoraILike(p) => ILikeContains(v.desarrolladora, p)
    case EsMultijugadorIs(b) => v.esMultijugador == b
    case FechaBetween(a, b) =>
      v.fechaLanzamiento.Some? && OnOrBefore(a, v.fechaLanzamiento.value) && OnOrBefore(v.fechaLanzamiento.value, b)
  }

  /** A row with a smaller id than everything in an id-ordered listing can
      go in front of it. */
  lemma PrependOrdered(x: Videojuego, rest: seq<Videojuego>)
    requires IdOrdered(rest) && x.id.Some?
    requires forall v :: v in rest ==> v.id.Some? && x.id.value < v.id.value
    ensures IdOrdered([x] + rest)
  {
    var r := [x] + rest;
    forall i, j | 0 <= i < j < |r| ensures r[i].id.value < r[j].id.value {
      assert r[j] == rest[j - 1];
      assert rest[j - 1] in rest;
    }
  }

  /** Filtering a listing by a condition, keeping the listing's order. */
  function Where(rows: seq<Videojuego>, c: Condition): (r: seq<Videojuego>)
    ensures forall v :: v in r <==> v in rows && Holds(c, v)
    ensures IdOrdered(rows) ==> IdOrdered(r)
  {
    if rows == [] then []
    else
      var rest := Where(rows[1..], c);
      assert rows == [rows[0]] + rows[1..];
      if !Holds(c, rows[0]) then rest
      else
        assert IdOrdered(rows) ==> IdOrdered([rows[0]] + rest) by {
          if IdOrdered(rows) {
            assert IdOrdered(rows[1..]);
            forall v | v in rest ensures rows[0].id.value < v.id.value {
              var i :| 0 <= i < |rows[1..]| && rows[1..][i] == v;
              assert rows[i + 1] == v;
            }
            PrependOrdered(rows[0], rest);
          }
        }
        [rows[0]] + rest
  }

  /** A condition every row satisfies filters nothing out. */
  lemma {:induction false} WhereKeepsAll(rows: seq<Videojuego>, c: Condition)
    requires forall v :: v in rows ==> Holds(c, v)
    ensures Where(rows, c) == rows
  {
    if rows != [] {
      assert rows[0] in rows;
      assert forall v :: v in rows[1..] ==> v in rows;
      WhereKeepsAll(rows[1..], c);
      assert rows == [rows[0]] + rows[1..];
    }
  }

  /** The rows of the table satisfying `c`, in id order. */
  function Select(st: Store, c: Condition): (r: seq<Videojuego>)
    ensures forall v :: v in r <==> v in st.Values && Holds(c, v)
    ensures Valid(st) ==> IdOrdered(r)
  {
    Where(GetAll(st), c)
  }

  /** Rows whose title contains `titulo`, ignoring case. */
  function GetByTitulo(st: Store, titulo: string): (r: seq<Videojuego>)
    ensures forall v :: v in r <==> v in st.Values && ILikeContains(v.titulo, titulo)
    ensures Valid(st) ==> IdOrdered(r)
  {
    Select(st, TituloILike(titulo))
  }

  /** Rows whose developer contains `desarrolladora`, ignoring case. */
  function GetByDesarrolladora(st: Store, desarrolladora: string): (r: seq<Videojuego>)
    ensures forall v :: v in r <==> v in st.Values && ILikeContains(v.desarrolladora, desarrolladora)
    ensures Valid(st) ==> IdOrdered(r)
  {
    Select(st, DesarrolladoraILike(desarrolladora))
  }

  /** The date-range query as written: its first statement asks
      `date.fromisoformat` to read the placeholder "yyyy-mm-dd", which
      raises before any query runs, whatever the bounds. */
  function GetByIntervaloFecha(st: Store, inicio: Date, fin: Date): (r: Result<seq<Videojuego>, RepoError>)
    ensures r.Failure? && r.error.InvalidIsoDate?
    ensures !StartsWithYearDigits(r.error.text)
  {
    RangeQueryLiteralIsNoIsoDate();
    Failure(InvalidIsoDate(RangeQueryLiteral))
  }

  /** The date-range query as evidently intended: rows whose release date
      lies between the bounds, both inclusive. */
  function GetByIntervaloFechaIntended(st: Store, inicio: Date, fin: Date): (r: seq<Videojuego>)
    ensures forall v :: v in r <==> (v in st.Values && v.fechaLanzamiento.Some?
                                     && OnOrBefore(inicio, v.fechaLanzamiento.value)
                                     && OnOrBefore(v.fechaLanzamiento.value, fin))
    ensures Valid(st) ==> IdOrdered(r)
  {
    var c := FechaBetween(inicio, fin);
    assert forall v :: Holds(c, v) <==> (v.fechaLanzamiento.Some?
                                        && OnOrBefore(inicio, v.fechaLanzamiento.value)
                                        && OnOrBefore(v.fechaLanzamiento.value, fin));
    Select(st, c)
  }

  /** The multiplayer query as written: its argument is overwritten with
      True before the query, so it lists the multiplayer rows whatever
      `multijugador` is. */
  function GetMultijugador(st: Store, multijugador: bool): (r: seq<Videojuego>)
    ensures forall v :: v in r <==> v in st.Values && v.esMultijugador
    ensures Valid(st) ==> IdOrdered(r)
  {
    var flag := true;
    var r := Select(st, EsMultijugadorIs(flag));
    assert forall v :: Holds(EsMultijugadorIs(flag), v) <==> v.esMultijugador;
    r
  }

  /** The single-player query: its argument is overwritten with False, so
      it lists the single-player rows whatever `multijugador` is. */
  function GetSingleMultijugador(st: Store, multijugador: bool): (r: seq<Videojuego>)
    ensures forall v :: v in r <==> v in st.Values && !v.esMultijugador
    ensures Valid(st) ==> IdOrdered(r)
  {
    var flag := false;
    var r := Select(st, EsMultijugadorIs(flag));
    assert forall v :: Holds(EsMultijugadorIs(flag), v) <==> !v.esMultijugador;
    r
  }

  /** The multiplayer query as evidently intended: rows whose flag equals
      the requested one. */
  function GetByMultijugadorFlag(st: Store, multijugador: bool): (r: seq<Videojuego>)
    ensures forall v :: v in r <==> v in st.Values && v.esMultijugador == multijugador
    ensures Valid(st) ==> IdOrdered(r)
  {
    assert forall v :: Holds(EsMultijugadorIs(multijugador), v) <==> v.esMultijugador == multijugador;
    Select(st, EsMultijugadorIs(multijugador))
  }

  /** An id-ordered listing is fixed by the rows it holds. */
  lemma IdOrderedUnique(a: seq<Videojuego>, b: seq<Videojuego>)
    requires IdOrdered(a) && IdOrdered(b)
    requires forall v :: v in a <==> v in b
    ensures a == b
  {
    var ia := seq(|a|, i requires 0 <= i < |a| => a[i].id.value);
    var ib := seq(|b|, i requires 0 <= i < |b| => b[i].id.value);
    forall k ensures k in ia <==> k in ib {
      if k in ia {
        var i :| 0 <= i < |a| && ia[i] == k;
        assert a[i] in b;
        var j :| 0 <= j < |b| && b[j] == a[i];
        assert ib[j] == k;
      }
      if k in ib {
        var j :| 0 <= j < |b| && ib[j] == k;
        assert b[j] in a;
        var i :| 0 <= i < |a| && a[i] == b[j];
        assert ia[i] == k;
      }
    }
    Keys.IncreasingUnique(ia, ib);
    forall i | 0 <= i < |a| ensures a[i] == b[i] {
      assert a[i] in b;
      var j :| 0 <= j < |b| && b[j] == a[i];
      assert ib[j] == ia[i] == ib[i];
    }
  }

  // ---------------------------------------------------------------------
  // Writes

  /** Storing a row under a fresh key, with that key as its id, adds the
      key and keeps every other row and the table's validity. */
  lemma InsertFresh(st: Store, k: int, v: Videojuego)
    requires k !in st
    ensures st[k := v].Keys == st.Keys + {k}
    ensures forall j :: j in st ==> j in st[k := v] && st[k := v][j] == st[j]
    ensures Valid(st) && v.id == Some(k) ==> Valid(st[k := v])
  {
  }

  /** Inserting a new row: the table picks a key not in use, stores the row
      under it and returns the row with its id filled in. */
  function Create(st: Store, v: Videojuego): (s: Step<Videojuego>)
    requires v.id == None
    ensures s.result.Success?
    ensures var created := s.result.value;
            && created.id.Some? && created.id.value !in st && created.id.value >= 1
            && created == v.(id := created.id)
            && s.store.Keys == st.Keys + {created.id.value}
            && s.store[created.id.value] == created
    ensures forall k :: k in st ==> k in s.store && s.store[k] == st[k]
    ensures Valid(st) ==> Valid(s.store)
  {
    var k := Keys.NextKey(st.Keys);
    var created := v.(id := Some(k));
    InsertFresh(st, k, created);
    Step(st[k := created], Success(created))
  }

  /** Updating by id: a missing id raises and leaves the table alone;
      otherwise every key of the patch is written, and nothing else. */
  function Update(st: Store, id: int, patch: Patch): (s: Step<Videojuego>)
    ensures id !in st ==> s.store == st && s.result == Failure(NotFound(id))
    ensures id in st ==> s.result.Success? && s.result.value == ApplyPatch(st[id], patch)
                         && s.store.Keys == st.Keys && s.store[id] == s.result.value
    ensures forall k :: k in st && k != id ==> k in s.store && s.store[k] == st[k]
    ensures Valid(st) ==> Valid(s.store)
  {
    match GetById(st, id)
    case None => Step(st, Failure(NotFound(id)))
    case Some(juego) =>
      var updated := ApplyPatch(juego, patch);
      Step(st[id := updated], Success(updated))
  }

  /** Deleting by id: a missing id raises and leaves the table alone;
      otherwise exactly that row goes. */
  function Delete(st: Store, id: int): (s: Step<()>)
    ensures id !in st ==> s.store == st && s.result == Failure(NotFound(id))
    ensures id in st ==> s.result.Success? && s.store.Keys == st.Keys - {id}
    ensures forall k :: k in st && k != id ==> k in s.store && s.store[k] == st[k]
    ensures Valid(st) ==> Valid(s.store)
  {
    match GetById(st, id)
    case None => Step(st, Failure(NotFound(id)))
    case Some(_) => Step(st - {id}, Success(()))
  }
}
