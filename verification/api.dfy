/** The JSON API under /api/videojuegos (src/routers/api_videojuego_routers.py):
    each handler as a function from the table (and the request's inputs)
    to the response it sends and the table it leaves. */
module ApiRouter {
  import opened Wrappers
  import opened Dates
  import opened Text
  import opened Models
  import opened Repository

  /** A response body: an error `detail` object (its text is not
      modelled), one record, a list of records, or nothing. */
  datatype Body = Detail | Item(dto: ResponseDto) | Items(dtos: seq<ResponseDto>) | NoContent

  /** What the client receives: a status with a body, or the generic
      server error an uncaught exception turns into. */
  datatype Response = Response(status: nat, body: Body) | Unhandled

  datatype Exchange = Exchange(store: Store, response: Response)

  const NotFoundResponse: Response := Response(404, Detail)

  function ProjectAll(rows: seq<Videojuego>): (dtos: seq<ResponseDto>)
    ensures |dtos| == |rows|
    ensures forall i :: 0 <= i < |rows| ==> dtos[i] == MapResponse(rows[i])
  {
    seq(|rows|, i requires 0 <= i < |rows| => MapResponse(rows[i]))
  }

  /** The search handlers' shared tail: 404 on an empty result, otherwise
      200 with the projected list. */
  function ListOrNotFound(rows: seq<Videojuego>): (r: Response)
    ensures r == NotFoundResponse <==> rows == []
    ensures rows != [] ==> r == Response(200, Items(ProjectAll(rows)))
  {
    if rows == [] then NotFoundResponse else Response(200, Items(ProjectAll(rows)))
  }

  /** GET /: every record, projected, in listing order. */
  function ListVideojuegos(st: Store): (r: Response)
    ensures r.Response? && r.status == 200 && r.body.Items?
    ensures |r.body.dtos| == |st|
    ensures forall v :: v in st.Values ==> MapResponse(v) in r.body.dtos
    ensures forall d :: d in r.body.dtos ==> exists v :: v in st.Values && MapResponse(v) == d
    ensures forall i :: 0 <= i < |GetAll(st)| ==> r.body.dtos[i] == MapResponse(GetAll(st)[i])
  {
    var rows := GetAll(st);
    ProjectCovers(rows);
    Response(200, Items(ProjectAll(rows)))
  }

  /** The projected list holds exactly the projections of the rows. */
  lemma ProjectCovers(rows: seq<Videojuego>)
    ensures forall v :: v in rows ==> MapResponse(v) in ProjectAll(rows)
    ensures forall d :: d in ProjectAll(rows) ==> exists v :: v in rows && MapResponse(v) == d
  {
    var dtos := ProjectAll(rows);
    forall v | v in rows ensures MapResponse(v) in dtos {
      var i :| 0 <= i < |rows| && rows[i] == v;
      assert dtos[i] == MapResponse(v);
    }
    forall d | d in dtos ensures exists v :: v in rows && MapResponse(v) == d {
      ProjectedRowsFrom(rows, d);
    }
  }

  /** Every entry of a projected list is the projection of one of its rows. */
  lemma ProjectedRowsFrom(rows: seq<Videojuego>, d: ResponseDto)
    requires d in ProjectAll(rows)
    ensures exists v :: v in rows && MapResponse(v) == d
  {
    var dtos := ProjectAll(rows);
    var i :| 0 <= i < |dtos| && dtos[i] == d;
    assert rows[i] in rows;
  }

  /** GET /buscar/titulo/{titulo}. */
  function SearchTitulo(st: Store, titulo: string): (r: Response)
    ensures r == NotFoundResponse <==> forall v :: v in st.Values ==> !ILikeContains(v.titulo, titulo)
    ensures r != NotFoundResponse ==> r.Response? && r.status == 200 && r.body.Items?
    ensures r.Response? && r.body.Items? ==> forall d :: d in r.body.dtos ==>
              exists v :: v in st.Values && ILikeContains(v.titulo, titulo) && MapResponse(v) == d
    ensures r != NotFoundResponse ==> forall v :: v in st.Values && ILikeContains(v.titulo, titulo) ==> MapResponse(v) in r.body.dtos
    ensures r != NotFoundResponse ==> |r.body.dtos| == |GetByTitulo(st, titulo)|
    ensures r != NotFoundResponse ==> forall i :: 0 <= i < |r.body.dtos| ==> r.body.dtos[i] == MapResponse(GetByTitulo(st, titulo)[i])
  {
    var rows := GetByTitulo(st, titulo);
    ProjectCovers(rows);
    assert rows == [] <==> forall v :: v in st.Values ==> !ILikeContains(v.titulo, titulo) by {
      if rows != [] { assert rows[0] in rows; }
    }
    ListOrNotFound(rows)
  }

  /** GET /buscar/desarrolladora/{desarrolladora}. */
  function SearchDesarrolladora(st: Store, desarrolladora: string): (r: Response)
    ensures r == NotFoundResponse <==> forall v :: v in st.Values ==> !ILikeContains(v.desarrolladora, desarrolladora)
    ensures r != NotFoundResponse ==> r.Response? && r.status == 200 && r.body.Items?
    ensures r.Response? && r.body.Items? ==> forall d :: d in r.body.dtos ==>
              exists v :: v in st.Values && ILikeContains(v.desarrolladora, desarrolladora) && MapResponse(v) == d
    ensures r != NotFoundResponse ==> forall v :: v in st.Values && ILikeContains(v.desarrolladora, desarrolladora) ==> MapResponse(v) in r.body.dtos
    ensures r != NotFoundResponse ==> |r.body.dtos| == |GetByDesarrolladora(st, desarrolladora)|
    ensures r != NotFoundResponse ==> forall i :: 0 <= i < |r.body.dtos| ==> r.body.dtos[i] == MapResponse(GetByDesarrolladora(st, desarrolladora)[i])
  {
    var rows := GetByDesarrolladora(st, desarrolladora);
    ProjectCovers(rows);
    assert rows == [] <==> forall v :: v in st.Values ==> !ILikeContains(v.desarrolladora, desarrolladora) by {
      if rows != [] { assert rows[0] in rows; }
    }
    ListOrNotFound(rows)
  }

  /** GET /buscar/multijugador/{multijugador}: answered from the
      multiplayer query, which ignores the requested flag. */
  function SearchMultijugador(st: Store, multijugador: bool): (r: Response)
    ensures r == NotFoundResponse <==> forall v :: v in st.Values ==> !v.esMultijugador
    ensures r != NotFoundResponse ==> r.Response? && r.status == 200 && r.body.Items?
    ensures r.Response? && r.body.Items? ==> forall d :: d in r.body.dtos ==>
              exists v :: v in st.Values && v.esMultijugador && MapResponse(v) == d
    ensures r != NotFoundResponse ==> forall v :: v in st.Values && v.esMultijugador ==> MapResponse(v) in r.body.dtos
    ensures r != NotFoundResponse ==> |r.body.dtos| == |GetMultijugador(st, multijugador)|
    ensures r != NotFoundResponse ==> forall i :: 0 <= i < |r.body.dtos| ==> r.body.dtos[i] == MapResponse(GetMultijugador(st, multijugador)[i])
  {
    var rows := GetMultijugador(st, multijugador);
    ProjectCovers(rows);
    assert rows == [] <==> forall v :: v in st.Values ==> !v.esMultijugador by {
      if rows != [] { assert rows[0] in rows; }
    }
    ListOrNotFound(rows)
  }

  /** Asking for single-player games still lists only multiplayer ones. */
  lemma SearchSinglePlayerListsMultiplayer(st: Store)
    ensures var r := SearchMultijugador(st, false);
            r.Response? && r.body.Items? ==> forall d :: d in r.body.dtos ==> d.esMultijugador
    ensures SearchMultijugador(st, false) == SearchMultijugador(st, true)
  {
  }

  /** GET /buscar/fechas/{fecha_inicio}/{fecha_final}: the repository's
      `ValueError` is not caught here, so no list is ever returned. */
  function SearchFechas(st: Store, inicio: Date, fin: Date): (r: Response)
    ensures r == Unhandled
  {
    match GetByIntervaloFecha(st, inicio, fin)
    case Success(rows) => ListOrNotFound(rows)
    case Failure(_) => Unhandled
  }

  /** The multiplayer search on the intended query: 404 exactly when no
      row has the requested flag, otherwise only rows with that flag. */
  function SearchMultijugadorIntended(st: Store, multijugador: bool): (r: Response)
    ensures r == NotFoundResponse <==> forall v :: v in st.Values ==> v.esMultijugador != multijugador
    ensures r != NotFoundResponse ==> r.Response? && r.status == 200 && r.body.Items?
    ensures r.Response? && r.body.Items? ==> forall d :: d in r.body.dtos ==>
              exists v :: v in st.Values && v.esMultijugador == multijugador && MapResponse(v) == d
    ensures r != NotFoundResponse ==> forall v :: v in st.Values && v.esMultijugador == multijugador ==> MapResponse(v) in r.body.dtos
    ensures r != NotFoundResponse ==> |r.body.dtos| == |GetByMultijugadorFlag(st, multijugador)|
    ensures r != NotFoundResponse ==> forall i :: 0 <= i < |r.body.dtos| ==> r.body.dtos[i] == MapResponse(GetByMultijugadorFlag(st, multijugador)[i])
  {
    var rows := GetByMultijugadorFlag(st, multijugador);
    ProjectCovers(rows);
    assert rows == [] <==> forall v :: v in st.Values ==> v.esMultijugador != multijugador by {
      if rows != [] { assert rows[0] in rows; }
    }
    ListOrNotFound(rows)
  }

  /** A record's release date lies in the inclusive range. */
  predicate InRange(fecha: Option<Date>, inicio: Date, fin: Date) {
    fecha.Some? && OnOrBefore(inicio, fecha.value) && OnOrBefore(fecha.value, fin)
  }

  /** The date-range search on the intended query: 404 exactly when no row
      falls in the range, otherwise only rows inside it. */
  function SearchFechasIntended(st: Store, inicio: Date, fin: Date): (r: Response)
    ensures r == NotFoundResponse <==> forall v :: v in st.Values ==> !InRange(v.fechaLanzamiento, inicio, fin)
    ensures r != NotFoundResponse ==> r.Response? && r.status == 200 && r.body.Items?
    ensures r.Response? && r.body.Items? ==> forall d :: d in r.body.dtos ==>
              exists v :: v in st.Values && InRange(v.fechaLanzamiento, inicio, fin) && MapResponse(v) == d
    ensures r != NotFoundResponse ==> forall v :: v in st.Values && InRange(v.fechaLanzamiento, inicio, fin) ==> MapResponse(v) in r.body.dtos
    ensures r != NotFoundResponse ==> |r.body.dtos| == |GetByIntervaloFechaIntended(st, inicio, fin)|
    ensures r != NotFoundResponse ==> forall i :: 0 <= i < |r.body.dtos| ==> r.body.dtos[i] == MapResponse(GetByIntervaloFechaIntended(st, inicio, fin)[i])
  {
    var rows := GetByIntervaloFechaIntended(st, inicio, fin);
    ProjectCovers(rows);
    assert rows == [] <==> forall v :: v in st.Values ==> !InRange(v.fechaLanzamiento, inicio, fin) by {
      if rows != [] { assert rows[0] in rows; }
    }
    ListOrNotFound(rows)
  }

  /** POST /newVideojuego: 201 with the projection of the created row. */
  function CreateVideojuego(st: Store, dto: CreateDto): (x: Exchange)
    ensures x.response == Response(201, Item(ResponseDto(dto.titulo, dto.desarrolladora, dto.fechaLanzamiento, dto.esMultijugador)))
    ensures exists k :: k !in st && x.store.Keys == st.Keys + {k}
                        && x.store[k] == Videojuego(Some(k), dto.titulo, dto.desarrolladora, dto.fechaLanzamiento, dto.esMultijugador)
    ensures forall k :: k in st ==> k in x.store && x.store[k] == st[k]
  {
    var s := Repository.Create(st, MapCreate(dto));
    var created := s.result.value;
    assert s.store[created.id.value] == created;
    Exchange(s.store, Response(201, Item(MapResponse(created))))
  }

  /** GET /{videojuego_id}. */
  function GetVideojuego(st: Store, id: int): (r: Response)
    ensures id !in st <==> r == NotFoundResponse
    ensures id in st ==> r == Response(200, Item(MapResponse(st[id])))
  {
    match GetById(st, id)
    case None => NotFoundResponse
    case Some(v) => Response(200, Item(MapResponse(v)))
  }

  /** PUT /{videojuego_id}: 404 before any write on a missing id;
      otherwise exactly the fields given in the body are written, with an
      explicit null only for the date. */
  function UpdateVideojuego(st: Store, id: int, dto: UpdateDto): (x: Exchange)
    requires NullOnlyWhereNullable(dto)
    ensures id !in st ==> x.store == st && x.response == NotFoundResponse
    ensures id in st ==> x.store.Keys == st.Keys
                         && x.store[id] == ApplyPatch(st[id], DumpGivenFields(dto))
                         && x.response == Response(200, Item(MapResponse(x.store[id])))
    ensures forall k :: k in st && k != id ==> k in x.store && x.store[k] == st[k]
  {
    match GetById(st, id)
    case None => Exchange(st, NotFoundResponse)
    case Some(_) =>
      var s := Repository.Update(st, id, DumpGivenFields(dto));
      match s.result
      case Success(v) => Exchange(s.store, Response(200, Item(MapResponse(v))))
      case Failure(_) => Exchange(s.store, Unhandled)
  }

  /** Fields left out of an update body keep their stored value; given
      ones take the body's value, and the id never changes. */
  lemma UpdateWritesExactlyGivenFields(st: Store, id: int, dto: UpdateDto)
    requires NullOnlyWhereNullable(dto) && id in st
    ensures var w := UpdateVideojuego(st, id, dto).store[id];
            && w.id == st[id].id
            && (dto.titulo.Unset? ==> w.titulo == st[id].titulo)
            && (dto.titulo.Given? ==> Some(w.titulo) == dto.titulo.given)
            && (dto.desarrolladora.Unset? ==> w.desarrolladora == st[id].desarrolladora)
            && (dto.desarrolladora.Given? ==> Some(w.desarrolladora) == dto.desarrolladora.given)
            && (dto.fechaLanzamiento.Unset? ==> w.fechaLanzamiento == st[id].fechaLanzamiento)
            && (dto.fechaLanzamiento.Given? ==> w.fechaLanzamiento == dto.fechaLanzamiento.given)
            && (dto.esMultijugador.Unset? ==> w.esMultijugador == st[id].esMultijugador)
            && (dto.esMultijugador.Given? ==> Some(w.esMultijugador) == dto.esMultijugador.given)
  {
  }

  /** Unlike the skip-None merge, the handler clears a release date when
      the body gives an explicit null for it. */
  lemma UpdateNullDateDiffersFromMerge(st: Store, id: int, d: Date)
    requires id in st && st[id].fechaLanzamiento == Some(d)
    ensures var dto := UpdateDto(Unset, Unset, Given(None), Unset);
            && UpdateVideojuego(st, id, dto).store[id].fechaLanzamiento == None
            && MapUpdate(st[id], dto).fechaLanzamiento == Some(d)
  {
  }

  /** DELETE /{videojuego_id}: the repository's `ValueError` becomes 404,
      success is 204 with no body. */
  function DeleteVideojuego(st: Store, id: int): (x: Exchange)
    ensures id !in st ==> x.store == st && x.response == NotFoundResponse
    ensures id in st ==> x.store.Keys == st.Keys - {id} && x.response == Response(204, NoContent)
    ensures forall k :: k in st && k != id ==> k in x.store && x.store[k] == st[k]
  {
    var s := Repository.Delete(st, id);
    match s.result
    case Failure(_) => Exchange(s.store, NotFoundResponse)
    case Success(_) => Exchange(s.store, Response(204, NoContent))
  }

  /** After a successful delete the record can no longer be fetched. */
  lemma DeleteThenGetIsNotFound(st: Store, id: int)
    requires id in st
    ensures GetVideojuego(DeleteVideojuego(st, id).store, id) == NotFoundResponse
  {
  }

  /** A record created through the API is fetched back with the submitted
      field values. */
  lemma CreateThenGetRoundTrip(st: Store, dto: CreateDto)
    ensures exists k :: k !in st && GetVideojuego(CreateVideojuego(st, dto).store, k)
                        == Response(200, Item(ResponseDto(dto.titulo, dto.desarrolladora, dto.fechaLanzamiento, dto.esMultijugador)))
  {
    var x := CreateVideojuego(st, dto);
    var k :| k !in st && x.store.Keys == st.Keys + {k}
             && x.store[k] == Videojuego(Some(k), dto.titulo, dto.desarrolladora, dto.fechaLanzamiento, dto.esMultijugador);
    assert GetVideojuego(x.store, k) == Response(200, Item(MapResponse(x.store[k])));
  }
}
