/** The HTML handlers of src/main.py, reduced to their decisions: which
    repository call a search makes, what the create form accepts, and
    what each request leaves in the table. Template rendering is not
    modelled; a page is represented by the rows or record it is given. */
module WebHandlers {
  import opened Wrappers
  import opened Dates
  import opened Text
  import opened Models
  import opened Repository

  /** Submitted form fields or query parameters: one text value per name. */
  type Form = map<string, string>

  /** `form.get(name, default)`. */
  function FormGet(form: Form, name: string, default: string): (s: string)
    ensures name in form ==> s == form[name]
    ensures name !in form ==> s == default
  {
    if name in form then form[name] else default
  }

  /** GET /videojuegos: the list page shows every row. */
  function ListPage(st: Store): (rows: seq<Videojuego>)
    ensures forall v :: v in rows <==> v in st.Values
    ensures |rows| == |st|
    ensures Valid(st) ==> IdOrdered(rows)
  {
    GetAll(st)
  }

  /** GET /videojuegos/buscar/titulo/: an empty title is answered with an
      empty list without querying. */
  function SearchTitulo(st: Store, titulo: string): (rows: seq<Videojuego>)
    ensures titulo == "" ==> rows == []
    ensures titulo != "" ==> forall v :: v in rows <==> v in st.Values && ILikeContains(v.titulo, titulo)
    ensures Valid(st) ==> IdOrdered(rows)
  {
    if titulo != "" then GetByTitulo(st, titulo) else []
  }

  /** The developer search, guarded the same way. */
  function SearchDesarrolladora(st: Store, desarrolladora: string): (rows: seq<Videojuego>)
    ensures desarrolladora == "" ==> rows == []
    ensures desarrolladora != "" ==> forall v :: v in rows <==> v in st.Values && ILikeContains(v.desarrolladora, desarrolladora)
    ensures Valid(st) ==> IdOrdered(rows)
  {
    if desarrolladora != "" then GetByDesarrolladora(st, desarrolladora) else []
  }

  /** Without the handler's guard an empty title would list every row:
      the repository's `ilike '%%'` matches everything. */
  lemma EmptyTitleGuardMatters(st: Store)
    ensures SearchTitulo(st, "") == []
    ensures GetByTitulo(st, "") == GetAll(st)
  {
    var rows := GetAll(st);
    forall v | v in rows ensures Holds(TituloILike(""), v) {
      EmptyPatternMatchesAll(v.titulo);
    }
    WhereKeepsAll(rows, TituloILike(""));
  }

  lemma EmptyDesarrolladoraGuardMatters(st: Store)
    ensures SearchDesarrolladora(st, "") == []
    ensures GetByDesarrolladora(st, "") == GetAll(st)
  {
    var rows := GetAll(st);
    forall v | v in rows ensures Holds(DesarrolladoraILike(""), v) {
      EmptyPatternMatchesAll(v.desarrolladora);
    }
    WhereKeepsAll(rows, DesarrolladoraILike(""));
  }

  /** The repository call the multiplayer search page makes. */
  datatype MultijugadorCall = GetMultijugadorCall(flag: bool) | GetAllCall

  function MultijugadorDispatch(multijugador: string): (c: MultijugadorCall)
    ensures c == GetMultijugadorCall(true) <==> multijugador == "true"
    ensures c == GetMultijugadorCall(false) <==> multijugador == "false"
    ensures c == GetAllCall <==> multijugador != "true" && multijugador != "false"
  {
    if multijugador == "true" then GetMultijugadorCall(true)
    else if multijugador == "false" then GetMultijugadorCall(false)
    else GetAllCall
  }

  /** GET /videojuegos/buscar/multijugador/: "true" and "false" both list
      the multiplayer rows (the repository ignores the flag); anything
      else lists every row. */
  function SearchMultijugador(st: Store, multijugador: string): (rows: seq<Videojuego>)
    ensures multijugador == "true" || multijugador == "false" ==>
              forall v :: v in rows <==> v in st.Values && v.esMultijugador
    ensures multijugador != "true" && multijugador != "false" ==> rows == GetAll(st)
    ensures Valid(st) ==> IdOrdered(rows)
  {
    match MultijugadorDispatch(multijugador)
    case GetMultijugadorCall(flag) => GetMultijugador(st, flag)
    case GetAllCall => GetAll(st)
  }

  /** A search page, or the 400 error the date search raises. */
  datatype SearchPage = Listing(rows: seq<Videojuego>) | BadRequest

  /** GET /videojuegos/buscar/fechas/: with both bounds present the
      handler parses them and queries, and every failure on that path is
      a `ValueError` turned into 400; with a bound missing it lists
      nothing. `parseIso` stands for `date.fromisoformat`. */
  function SearchFechas(st: Store, inicio: string, fin: string, parseIso: string -> Option<Date>): (p: SearchPage)
    ensures p == BadRequest <==> inicio != "" && fin != ""
    ensures p != BadRequest ==> p == Listing([])
  {
    if inicio != "" && fin != "" then
      match parseIso(inicio)
      case None => BadRequest
      case Some(a) =>
        match parseIso(fin)
        case None => BadRequest
        case Some(b) =>
          match GetByIntervaloFecha(st, a, b)
          case Success(rows) => Listing(rows)
          case Failure(_) => BadRequest
    else Listing([])
  }

  // ---------------------------------------------------------------------
  // The create form (POST /videojuegos/new)

  /** The inline error the form is shown again with. */
  datatype FormError = MissingRequired | InvalidDate | StorageFailure

  /** The cleaned form fields and the validation verdict. */
  datatype FormInput = FormInput(
    titulo: string,
    desarrolladora: string,
    fechaLanzamiento: Option<Date>,
    esMultijugador: bool,
    error: Option<FormError>)

  /** The form carries a non-empty date text. */
  predicate DateGiven(form: Form) {
    "fecha_lanzamiento" in form && form["fecha_lanzamiento"] != ""
  }

  /** The form carries a date text the `%Y-%m-%d` parser rejects. */
  predicate DateRejected(form: Form, parseDate: string -> Option<Date>) {
    DateGiven(form) && parseDate(form["fecha_lanzamiento"]).None?
  }

  /** Collecting and validating the form. `parseDate` stands for
      `datetime.strptime(text, "%Y-%m-%d").date()`. */
  function ReadForm(form: Form, parseDate: string -> Option<Date>): (f: FormInput)
    ensures f.titulo == Strip(FormGet(form, "titulo", ""))
    ensures f.desarrolladora == Strip(FormGet(form, "desarrolladora", ""))
    ensures f.esMultijugador <==> "es_multijugador" in form
    ensures !DateGiven(form) ==> f.fechaLanzamiento == None && f.error != Some(InvalidDate)
    ensures DateGiven(form) ==> f.fechaLanzamiento == parseDate(form["fecha_lanzamiento"])
    ensures f.error.Some? <==> f.titulo == "" || f.desarrolladora == "" || DateRejected(form, parseDate)
    ensures DateRejected(form, parseDate) ==> f.error == Some(InvalidDate)
    ensures f.error == Some(MissingRequired) <==> (f.titulo == "" || f.desarrolladora == "") && !DateRejected(form, parseDate)
    ensures f.error != Some(StorageFailure)
  {
    var titulo := Strip(FormGet(form, "titulo", ""));
    var desarrolladora := Strip(FormGet(form, "desarrolladora", ""));
    var esMultijugador := "es_multijugador" in form;
    var requiredError := if titulo == "" || desarrolladora == "" then Some(MissingRequired) else None;
    if "fecha_lanzamiento" in form && form["fecha_lanzamiento"] != "" then
      match parseDate(form["fecha_lanzamiento"])
      case Some(d) => FormInput(titulo, desarrolladora, Some(d), esMultijugador, requiredError)
      case None => FormInput(titulo, desarrolladora, None, esMultijugador, Some(InvalidDate))
    else FormInput(titulo, desarrolladora, None, esMultijugador, requiredError)
  }

  /** The form handler's answer. */
  datatype WebOutcome =
    | Redirect(status: nat, location: string)
    | FormPage(videojuego: Videojuego, error: FormError)

  datatype WebExchange = WebExchange(store: Store, outcome: WebOutcome)

  /** The record the form is shown again with: the cleaned inputs, no id. */
  function Resubmitted(f: FormInput): (v: Videojuego)
    ensures v.id == None && v.titulo == f.titulo && v.desarrolladora == f.desarrolladora
    ensures v.fechaLanzamiento == f.fechaLanzamiento && v.esMultijugador == f.esMultijugador
  {
    NewVideojuego(f.titulo, f.desarrolladora, f.fechaLanzamiento, f.esMultijugador)
  }

  /** POST /videojuegos/new. `storageFails` stands for an exception from
      the insert; the table is then left as it was. */
  function CreateVideojuegoWeb(st: Store, form: Form, parseDate: string -> Option<Date>, storageFails: bool): (x: WebExchange)
    ensures var f := ReadForm(form, parseDate);
            f.error.Some? ==> x.store == st && x.outcome == FormPage(Resubmitted(f), f.error.value)
    ensures var f := ReadForm(form, parseDate);
            f.error.None? && storageFails ==> x.store == st && x.outcome == FormPage(Resubmitted(f), StorageFailure)
    ensures var f := ReadForm(form, parseDate);
            f.error.None? && !storageFails ==>
              && x.outcome == Redirect(303, "/videojuegos")
              && exists k :: k !in st && x.store.Keys == st.Keys + {k} && x.store[k] == Resubmitted(f).(id := Some(k))
    ensures forall k :: k in st ==> k in x.store && x.store[k] == st[k]
    ensures Valid(st) ==> Valid(x.store)
  {
    var f := ReadForm(form, parseDate);
    if f.error.Some? then WebExchange(st, FormPage(Resubmitted(f), f.error.value))
    else
      var dto := CreateDto(f.titulo, f.desarrolladora, f.fechaLanzamiento, f.esMultijugador);
      if storageFails then WebExchange(st, FormPage(Resubmitted(f), StorageFailure))
      else
        var s := Repository.Create(st, MapCreate(dto));
        assert s.store[s.result.value.id.value] == s.result.value;
        WebExchange(s.store, Redirect(303, "/videojuegos"))
  }

  /** A row created through the form has a non-empty title and developer,
      neither with whitespace at its ends. */
  lemma FormCreatedRowIsClean(st: Store, form: Form, parseDate: string -> Option<Date>)
    ensures var x := CreateVideojuegoWeb(st, form, parseDate, false);
            forall k :: k in x.store && k !in st ==>
              && x.store[k].titulo != "" && Stripped(x.store[k].titulo)
              && x.store[k].desarrolladora != "" && Stripped(x.store[k].desarrolladora)
  {
  }

  /** When the title is missing and the date is malformed, the date error
      is the one reported, as it is assigned last. */
  lemma DateErrorWinsOverMissingTitle(st: Store, form: Form, parseDate: string -> Option<Date>, storageFails: bool)
    requires Strip(FormGet(form, "titulo", "")) == "" && DateRejected(form, parseDate)
    ensures CreateVideojuegoWeb(st, form, parseDate, storageFails).outcome.error == InvalidDate
    ensures CreateVideojuegoWeb(st, form, parseDate, storageFails).store == st
  {
  }

  /** A checkbox sent with any value, even an empty one, means multiplayer. */
  lemma CheckboxPresenceIsTheFlag(form: Form, value: string, parseDate: string -> Option<Date>)
    ensures ReadForm(form["es_multijugador" := value], parseDate).esMultijugador
    ensures !ReadForm(form - {"es_multijugador"}, parseDate).esMultijugador
  {
  }
}
