/** The video-game record, its three request/response shapes and the
    mappers between them (src/models/videojuego.py). */
module Models {
  import opened Wrappers
  import opened Dates

  /** Declared column width of `titulo` and `desarrolladora`. */
  const TituloMaxLength: nat := 100
  const DesarrolladoraMaxLength: nat := 100

  /** Value `es_multijugador` takes when a record is built without it. */
  const DefaultEsMultijugador: bool := false

  /** A row of the `videojuego` table; `id` is None until the table assigns one. */
  datatype Videojuego = Videojuego(
    id: Option<int>,
    titulo: string,
    desarrolladora: string,
    fechaLanzamiento: Option<Date>,
    esMultijugador: bool)

  /** The record as built from its field values alone, the way the table
      class's constructor fills in its defaults. */
  function NewVideojuego(titulo: string, desarrolladora: string, fechaLanzamiento: Option<Date>,
                         esMultijugador: bool := DefaultEsMultijugador): (v: Videojuego)
    ensures v.id == None
    ensures v.titulo == titulo && v.desarrolladora == desarrolladora
    ensures v.fechaLanzamiento == fechaLanzamiento && v.esMultijugador == esMultijugador
  {
    Videojuego(None, titulo, desarrolladora, fechaLanzamiento, esMultijugador)
  }

  /** The record's text fields fit their declared columns. */
  predicate FitsColumns(v: Videojuego) {
    |v.titulo| <= TituloMaxLength && |v.desarrolladora| <= DesarrolladoraMaxLength
  }

  /** Body of a create request: every field but the date is required, and
      no length bound applies. */
  datatype CreateDto = CreateDto(
    titulo: string,
    desarrolladora: string,
    fechaLanzamiento: Option<Date>,
    esMultijugador: bool)

  /** One field of an update request body: left out of the body, or given
      (possibly as an explicit null). */
  datatype UpdateField<+T> = Unset | Given(given: Option<T>) {
    /** The value the attribute reads as: None when left out. */
    function Value(): Option<T> {
      match this
      case Unset => None
      case Given(x) => x
    }
  }

  /** Body of an update request: every field optional. */
  datatype UpdateDto = UpdateDto(
    titulo: UpdateField<string>,
    desarrolladora: UpdateField<string>,
    fechaLanzamiento: UpdateField<Date>,
    esMultijugador: UpdateField<bool>)

  const EmptyUpdate: UpdateDto := UpdateDto(Unset, Unset, Unset, Unset)

  /** The record as returned to clients: the four data fields, no `id`. */
  datatype ResponseDto = ResponseDto(
    titulo: string,
    desarrolladora: string,
    fechaLanzamiento: Option<Date>,
    esMultijugador: bool)

  /** The field dictionary handed to the repository's `update`: one entry
      per key present. The non-nullable columns carry plain values; only
      the date may be written as None. */
  datatype Patch = Patch(
    titulo: Option<string>,
    desarrolladora: Option<string>,
    fechaLanzamiento: Option<Option<Date>>,
    esMultijugador: Option<bool>)

  function MapCreate(dto: CreateDto): (v: Videojuego)
    ensures v.id == None
    ensures v.titulo == dto.titulo && v.desarrolladora == dto.desarrolladora
    ensures v.fechaLanzamiento == dto.fechaLanzamiento && v.esMultijugador == dto.esMultijugador
  {
    NewVideojuego(dto.titulo, dto.desarrolladora, dto.fechaLanzamiento, dto.esMultijugador)
  }

  /** The new value of one field under a "skip None" merge. */
  function Merge<T>(update: Option<T>, current: T): T {
    match update
    case Some(x) => x
    case None => current
  }

  /** Partial-update merge: a field is overwritten only by a non-None
      value in the body. */
  function MapUpdate(juego: Videojuego, dto: UpdateDto): (v: Videojuego)
    ensures v.id == juego.id
    ensures dto.titulo.Value().Some? ==> v.titulo == dto.titulo.Value().value
    ensures dto.titulo.Value().None? ==> v.titulo == juego.titulo
    ensures dto.desarrolladora.Value().Some? ==> v.desarrolladora == dto.desarrolladora.Value().value
    ensures dto.desarrolladora.Value().None? ==> v.desarrolladora == juego.desarrolladora
    ensures dto.fechaLanzamiento.Value().Some? ==> v.fechaLanzamiento == dto.fechaLanzamiento.Value()
    ensures dto.fechaLanzamiento.Value().None? ==> v.fechaLanzamiento == juego.fechaLanzamiento
    ensures dto.esMultijugador.Value().Some? ==> v.esMultijugador == dto.esMultijugador.Value().value
    ensures dto.esMultijugador.Value().None? ==> v.esMultijugador == juego.esMultijugador
  {
    juego.(
      titulo := Merge(dto.titulo.Value(), juego.titulo),
      desarrolladora := Merge(dto.desarrolladora.Value(), juego.desarrolladora),
      fechaLanzamiento := if dto.fechaLanzamiento.Value().Some? then dto.fechaLanzamiento.Value() else juego.fechaLanzamiento,
      esMultijugador := Merge(dto.esMultijugador.Value(), juego.esMultijugador))
  }

  function MapResponse(v: Videojuego): (r: ResponseDto)
    ensures r.titulo == v.titulo && r.desarrolladora == v.desarrolladora
    ensures r.fechaLanzamiento == v.fechaLanzamiento && r.esMultijugador == v.esMultijugador
  {
    ResponseDto(v.titulo, v.desarrolladora, v.fechaLanzamiento, v.esMultijugador)
  }

  /** Fields given in an update body are null only where the column is nullable. */
  predicate NullOnlyWhereNullable(dto: UpdateDto) {
    dto.titulo != Given(None) && dto.desarrolladora != Given(None) && dto.esMultijugador != Given(None)
  }

  /** `model_dump(exclude_unset=True)`: one patch entry per field given in
      the body, with an explicit null only for the date. */
  function DumpGivenFields(dto: UpdateDto): (p: Patch)
    requires NullOnlyWhereNullable(dto)
    ensures p.titulo.Some? <==> dto.titulo.Given?
    ensures p.desarrolladora.Some? <==> dto.desarrolladora.Given?
    ensures p.fechaLanzamiento.Some? <==> dto.fechaLanzamiento.Given?
    ensures p.esMultijugador.Some? <==> dto.esMultijugador.Given?
    ensures p.titulo.Some? ==> dto.titulo.Value() == p.titulo
    ensures p.desarrolladora.Some? ==> dto.desarrolladora.Value() == p.desarrolladora
    ensures p.fechaLanzamiento.Some? ==> dto.fechaLanzamiento.Value() == p.fechaLanzamiento.value
    ensures p.esMultijugador.Some? ==> dto.esMultijugador.Value() == p.esMultijugador
  {
    Patch(
      if dto.titulo.Given? then dto.titulo.given else None,
      if dto.desarrolladora.Given? then dto.desarrolladora.given else None,
      if dto.fechaLanzamiento.Given? then Some(dto.fechaLanzamiento.given) else None,
      if dto.esMultijugador.Given? then dto.esMultijugador.given else None)
  }

  /** Setting attributes key by key from a patch: present keys are written
      as given, absent ones keep their value. */
  function ApplyPatch(v: Videojuego, p: Patch): (w: Videojuego)
    ensures w.id == v.id
    ensures p.titulo.Some? ==> w.titulo == p.titulo.value
    ensures p.titulo.None? ==> w.titulo == v.titulo
    ensures p.desarrolladora.Some? ==> w.desarrolladora == p.desarrolladora.value
    ensures p.desarrolladora.None? ==> w.desarrolladora == v.desarrolladora
    ensures p.fechaLanzamiento.Some? ==> w.fechaLanzamiento == p.fechaLanzamiento.value
    ensures p.fechaLanzamiento.None? ==> w.fechaLanzamiento == v.fechaLanzamiento
    ensures p.esMultijugador.Some? ==> w.esMultijugador == p.esMultijugador.value
    ensures p.esMultijugador.None? ==> w.esMultijugador == v.esMultijugador
  {
    Videojuego(v.id, Merge(p.titulo, v.titulo), Merge(p.desarrolladora, v.desarrolladora),
               Merge(p.fechaLanzamiento, v.fechaLanzamiento), Merge(p.esMultijugador, v.esMultijugador))
  }

  // ---------------------------------------------------------------------
  // Properties of the mappers

  /** The merge with an update body that gives nothing is the identity. */
  lemma MapUpdateEmptyIsIdentity(juego: Videojuego)
    ensures MapUpdate(juego, EmptyUpdate) == juego
  {
  }

  /** Any body whose given values are all null is an identity merge too. */
  lemma MapUpdateAllNullIsIdentity(juego: Videojuego, dto: UpdateDto)
    requires dto.titulo.Value() == None && dto.desarrolladora.Value() == None
    requires dto.fechaLanzamiento.Value() == None && dto.esMultijugador.Value() == None
    ensures MapUpdate(juego, dto) == juego
  {
  }

  /** Applying the same update body twice equals applying it once. */
  lemma MapUpdateIdempotent(juego: Videojuego, dto: UpdateDto)
    ensures MapUpdate(MapUpdate(juego, dto), dto) == MapUpdate(juego, dto)
  {
  }

  /** The merge never clears a release date. */
  lemma MapUpdateNeverClearsDate(juego: Videojuego, dto: UpdateDto)
    ensures juego.fechaLanzamiento.Some? ==> MapUpdate(juego, dto).fechaLanzamiento.Some?
  {
  }

  /** The merge is the patch application of the body's non-null fields. */
  lemma MapUpdateIsPatchOfNonNullFields(juego: Videojuego, dto: UpdateDto)
    ensures MapUpdate(juego, dto) == ApplyPatch(juego, Patch(
      dto.titulo.Value(), dto.desarrolladora.Value(),
      if dto.fechaLanzamiento.Value().Some? then Some(dto.fechaLanzamiento.Value()) else None,
      dto.esMultijugador.Value()))
  {
  }

  /** The response projection forgets the id and nothing else: two records
      project alike exactly when they agree on the four data fields. */
  lemma MapResponseForgetsOnlyId(v: Videojuego, w: Videojuego)
    ensures MapResponse(v) == MapResponse(w) <==> v.(id := w.id) == w
  {
  }

  /** Round trip: projecting the record built from a create body gives
      back the body's four field values. */
  lemma CreateThenRespondRoundTrip(dto: CreateDto)
    ensures MapResponse(MapCreate(dto)) == ResponseDto(dto.titulo, dto.desarrolladora, dto.fechaLanzamiento, dto.esMultijugador)
  {
  }

  /** Round trip the other way: a response, read back as a create body,
      builds a record with the same data fields. */
  lemma RespondThenCreateRoundTrip(v: Videojuego)
    ensures var r := MapResponse(v);
            MapCreate(CreateDto(r.titulo, r.desarrolladora, r.fechaLanzamiento, r.esMultijugador)) == v.(id := None)
  {
  }

  /** The create body carries no length bound: a 101-character title maps
      to a record that does not fit the declared column. */
  lemma CreateDtoIsUnbounded()
    ensures exists dto: CreateDto :: !FitsColumns(MapCreate(dto))
  {
    var long := seq(TituloMaxLength + 1, _ => 'a');
    var dto := CreateDto(long, "", None, false);
    assert !FitsColumns(MapCreate(dto));
  }

  /** A record built without a multiplayer value is single-player. */
  lemma NewVideojuegoDefaultsToSinglePlayer(titulo: string, desarrolladora: string, fecha: Option<Date>)
    ensures !NewVideojuego(titulo, desarrolladora, fecha).esMultijugador
  {
  }
}
