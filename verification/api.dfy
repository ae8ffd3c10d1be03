/** The API as one state machine: each request is dispatched to its route
    handler over the shared database, behind the token check of
    middleware/auth.js on every handler that writes. */
module Api {
  import opened Js
  import opened Http
  import Staff
  import Cadastros
  import Metas
  import Estagiarios
  import Suportes
  import Moderadores
  import Admins
  import Supervisores
  import Exchange
  import opened Store

  /** The bearer token of a request, as far as the middleware can tell:
      absent, rejected by the signature check, or accepted. Signing and
      verifying tokens is not modelled. */
  datatype Token = NoToken | Rejected | Accepted

  /** The five staff tiers, one per route file. */
  datatype TierName = EST | SUP | MOD | ADM | SPV

  /** The tables of the database. */
  datatype TableName = EstTable | SupTable | ModTable | AdmTable | SpvTable | CadastroTable | GoalTable

  function TierOf(n: TierName): Staff.Tier {
    match n
    case EST => Estagiarios.Tier
    case SUP => Suportes.Tier
    case MOD => Moderadores.Tier
    case ADM => Admins.Tier
    case SPV => Supervisores.Tier
  }

  function TableOf(n: TierName): TableName {
    match n
    case EST => EstTable
    case SUP => SupTable
    case MOD => ModTable
    case ADM => AdmTable
    case SPV => SpvTable
  }

  function TierTable(db: Db, n: TierName): Staff.Table {
    match n
    case EST => db.estagiarios
    case SUP => db.suportes
    case MOD => db.moderadores
    case ADM => db.admins
    case SPV => db.supervisores
  }

  function WithTierTable(db: Db, n: TierName, t: Staff.Table): (r: Db)
    ensures TierTable(r, n) == t
  {
    match n
    case EST => db.(estagiarios := t)
    case SUP => db.(suportes := t)
    case MOD => db.(moderadores := t)
    case ADM => db.(admins := t)
    case SPV => db.(supervisores := t)
  }

  /** A request to one staff tier's route file. */
  datatype TierCall =
    | ListStaff
    | FetchStaff(id: int)
    | CreateStaff(body: map<string, Value>)
    | PatchStaff(id: int, body: map<string, Value>)
    | DeleteStaff(id: int)

  /** A request to routes/cadastros.js. */
  datatype CadastroCall =
    | ListCadastros
    | FetchCadastro(key: string)
    | CreateCadastro(body: map<string, Value>)
    | PatchCadastro(key: string, body: map<string, Value>)
    | DeleteCadastro(key: string)

  /** A request to routes/metas.js. */
  datatype GoalCall =
    | ListGoals
    | GoalsByCargo(cargo: string)
    | PostGoal(body: map<string, Value>)
    | PatchGoal(cargo: string, metrica: string, body: map<string, Value>)
    | PutGoals(document: Value)
    | DeleteGoal(cargo: string, metrica: string)

  /** The two databases agree on every table outside `ts`. */
  predicate Frame(a: Db, b: Db, ts: set<TableName>) {
    && (EstTable !in ts ==> a.estagiarios == b.estagiarios)
    && (SupTable !in ts ==> a.suportes == b.suportes)
    && (ModTable !in ts ==> a.moderadores == b.moderadores)
    && (AdmTable !in ts ==> a.admins == b.admins)
    && (SpvTable !in ts ==> a.supervisores == b.supervisores)
    && (CadastroTable !in ts ==> a.cadastros == b.cadastros)
    && (GoalTable !in ts ==> a.metas == b.metas)
  }

  /** Replacing one tier's table changes no other table. */
  lemma WithTierTableFrame(db: Db, n: TierName, t: Staff.Table)
    ensures Frame(WithTierTable(db, n, t), db, {TableOf(n)})
  {
  }

  /** Replacing the registrations changes no other table. */
  lemma CadastrosFrame(db: Db, s: Cadastros.Store)
    ensures Frame(db.(cadastros := s), db, {CadastroTable})
  {
  }

  /** Replacing the goals changes no other table. */
  lemma GoalsFrame(db: Db, g: Metas.Goals)
    ensures Frame(db.(metas := g), db, {GoalTable})
  {
  }

  /** A database agrees with itself everywhere. */
  lemma FrameSame(db: Db, ts: set<TableName>)
    ensures Frame(db, db, ts)
  {
  }

  /** A request after routing: the route file it reached, the route it
      matched, its path parameters and its body. */
  datatype Request =
    | ToTier(tier: TierName, tierCall: TierCall)
    | ToCadastros(cadastroCall: CadastroCall)
    | ToGoals(goalCall: GoalCall)
    | ExportAll
    | ImportAll(body: map<string, Value>)

  /** The routes registered with the token middleware: every one that writes. */
  predicate Guarded(req: Request) {
    match req
    case ToTier(_, c) => !(c.ListStaff? || c.FetchStaff?)
    case ToCadastros(c) => !(c.ListCadastros? || c.FetchCadastro?)
    case ToGoals(c) => !(c.ListGoals? || c.GoalsByCargo?)
    case ExportAll => false
    case ImportAll(_) => true
  }

  /** The tables a request may write. */
  function Touches(req: Request): set<TableName> {
    match req
    case ToTier(n, c) => if c.ListStaff? || c.FetchStaff? then {} else {TableOf(n)}
    case ToCadastros(c) => if c.ListCadastros? || c.FetchCadastro? then {} else {CadastroTable}
    case ToGoals(c) => if c.ListGoals? || c.GoalsByCargo? then {} else {GoalTable}
    case ExportAll => {}
    case ImportAll(_) => {EstTable, SupTable, ModTable, AdmTable, SpvTable, CadastroTable, GoalTable}
  }

  /** The tier tables of a well-formed database are well formed. */
  lemma TierTableValid(db: Db, n: TierName)
    requires Valid(db)
    ensures Staff.Valid(TierOf(n), TierTable(db, n))
  {
  }

  /** A staff route: the request reaches the tier's handler, whose status
      is the answer and whose table replaces the tier's table; no other
      table changes. Listing answers 200; the listing itself is not part of
      the answer here. */
  function TierRoute(db: Db, n: TierName, c: TierCall): (r: Answer<Db, ()>)
    requires Valid(db)
    ensures Frame(r.state, db, Touches(ToTier(n, c)))
    ensures !Guarded(ToTier(n, c)) ==> r.state == db
    ensures c.ListStaff? ==> r.status == OK
    ensures c.FetchStaff? ==> (r.status == OK <==> c.id in TierTable(db, n).rows)
    ensures c.FetchStaff? ==> r.status == Staff.Fetch(TierTable(db, n), c.id).status
    ensures c.CreateStaff? ==>
      && r.status == Staff.Create(TierOf(n), TierTable(db, n), c.body).status
      && TierTable(r.state, n) == Staff.Create(TierOf(n), TierTable(db, n), c.body).state
    ensures c.PatchStaff? ==>
      && r.status == Staff.Patch(TierOf(n), TierTable(db, n), c.id, c.body).status
      && TierTable(r.state, n) == Staff.Patch(TierOf(n), TierTable(db, n), c.id, c.body).state
    ensures c.DeleteStaff? ==>
      && r.status == Staff.Delete(TierTable(db, n), c.id).status
      && TierTable(r.state, n) == Staff.Delete(TierTable(db, n), c.id).state
  {
    TierTableValid(db, n);
    FrameSame(db, Touches(ToTier(n, c)));
    var t := TierTable(db, n);
    match c
    case ListStaff => Answer(OK, db, None)
    case FetchStaff(id) => Answer(Staff.Fetch(t, id).status, db, None)
    case CreateStaff(body) =>
      var a := Staff.Create(TierOf(n), t, body);
      WithTierTableFrame(db, n, a.state);
      Answer(a.status, WithTierTable(db, n, a.state), None)
    case PatchStaff(id, body) =>
      var a := Staff.Patch(TierOf(n), t, id, body);
      WithTierTableFrame(db, n, a.state);
      Answer(a.status, WithTierTable(db, n, a.state), None)
    case DeleteStaff(id) =>
      var a := Staff.Delete(t, id);
      WithTierTableFrame(db, n, a.state);
      Answer(a.status, WithTierTable(db, n, a.state), None)
  }

  /** A registration route: the request reaches its handler in
      routes/cadastros.js, and only the registrations can change. */
  function CadastroRoute(db: Db, c: CadastroCall): (r: Answer<Db, ()>)
    ensures Frame(r.state, db, Touches(ToCadastros(c)))
    ensures !Guarded(ToCadastros(c)) ==> r.state == db
    ensures c.ListCadastros? ==> r.status == OK
    ensures c.FetchCadastro? ==> (r.status == OK <==> c.key in db.cadastros)
    ensures c.FetchCadastro? ==> r.status == Cadastros.Fetch(db.cadastros, c.key).status
    ensures c.CreateCadastro? ==>
      && r.status == Cadastros.Create(db.cadastros, c.body).status
      && r.state.cadastros == Cadastros.Create(db.cadastros, c.body).state
    ensures c.PatchCadastro? ==>
      && r.status == Cadastros.Patch(db.cadastros, c.key, c.body).status
      && r.state.cadastros == Cadastros.Patch(db.cadastros, c.key, c.body).state
    ensures c.DeleteCadastro? ==>
      && r.status == Cadastros.Delete(db.cadastros, c.key).status
      && r.state.cadastros == Cadastros.Delete(db.cadastros, c.key).state
  {
    FrameSame(db, Touches(ToCadastros(c)));
    match c
    case ListCadastros => Answer(OK, db, None)
    case FetchCadastro(key) => Answer(Cadastros.Fetch(db.cadastros, key).status, db, None)
    case CreateCadastro(body) =>
      var a := Cadastros.Create(db.cadastros, body);
      CadastrosFrame(db, a.state);
      Answer(a.status, db.(cadastros := a.state), None)
    case PatchCadastro(key, body) =>
      var a := Cadastros.Patch(db.cadastros, key, body);
      CadastrosFrame(db, a.state);
      Answer(a.status, db.(cadastros := a.state), None)
    case DeleteCadastro(key) =>
      var a := Cadastros.Delete(db.cadastros, key);
      CadastrosFrame(db, a.state);
      Answer(a.status, db.(cadastros := a.state), None)
  }

  /** A goals route: the request reaches its handler in routes/metas.js,
      and only the goals can change. */
  function GoalRoute(db: Db, c: GoalCall): (r: Answer<Db, ()>)
    ensures Frame(r.state, db, Touches(ToGoals(c)))
    ensures !Guarded(ToGoals(c)) ==> r.state == db
    ensures c.ListGoals? ==> r.status == OK
    ensures c.GoalsByCargo? ==> (r.status == OK <==> exists k | k in db.metas :: k.cargo == c.cargo)
    ensures c.GoalsByCargo? ==> r.status == Metas.ByCargo(db.metas, c.cargo).status
    ensures c.PostGoal? ==>
      && r.status == Metas.Post(db.metas, c.body).status
      && r.state.metas == Metas.Post(db.metas, c.body).state
    ensures c.PatchGoal? ==>
      && r.status == Metas.Patch(db.metas, c.cargo, c.metrica, c.body).status
      && r.state.metas == Metas.Patch(db.metas, c.cargo, c.metrica, c.body).state
    ensures c.PutGoals? ==>
      && r.status == Metas.Put(db.metas, c.document).status
      && r.state.metas == Metas.Put(db.metas, c.document).state
    ensures c.DeleteGoal? ==>
      && r.status == Metas.Delete(db.metas, c.cargo, c.metrica).status
      && r.state.metas == Metas.Delete(db.metas, c.cargo, c.metrica).state
  {
    FrameSame(db, Touches(ToGoals(c)));
    match c
    case ListGoals => Answer(OK, db, None)
    case GoalsByCargo(cargo) => Answer(Metas.ByCargo(db.metas, cargo).status, db, None)
    case PostGoal(body) =>
      var a := Metas.Post(db.metas, body);
      GoalsFrame(db, a.state);
      Answer(a.status, db.(metas := a.state), None)
    case PatchGoal(cargo, metrica, body) =>
      var a := Metas.Patch(db.metas, cargo, metrica, body);
      GoalsFrame(db, a.state);
      Answer(a.status, db.(metas := a.state), None)
    case PutGoals(document) =>
      var a := Metas.Put(db.metas, document);
      GoalsFrame(db, a.state);
      Answer(a.status, db.(metas := a.state), None)
    case DeleteGoal(cargo, metrica) =>
      var a := Metas.Delete(db.metas, cargo, metrica);
      GoalsFrame(db, a.state);
      Answer(a.status, db.(metas := a.state), None)
  }

  /** The route handler a request reaches once past the middleware: the
      mount of its route file in server.js decides which. */
  function Route(db: Db, req: Request, accepts: Exchange.Write -> bool): (r: Answer<Db, ()>)
    requires Valid(db)
    ensures Frame(r.state, db, Touches(req))
    ensures !Guarded(req) ==> r.state == db
    ensures req.ToTier? ==> r == TierRoute(db, req.tier, req.tierCall)
    ensures req.ToCadastros? ==> r == CadastroRoute(db, req.cadastroCall)
    ensures req.ToGoals? ==> r == GoalRoute(db, req.goalCall)
    ensures req.ExportAll? ==> r.status == OK
    ensures req.ImportAll? ==> r == Exchange.Import(db, req.body, accepts)
  {
    match req
    case ToTier(n, c) => TierRoute(db, n, c)
    case ToCadastros(c) => CadastroRoute(db, c)
    case ToGoals(c) => GoalRoute(db, c)
    case ExportAll =>
      FrameSame(db, {});
      Answer(OK, db, None)
    case ImportAll(body) =>
      assert Guarded(req);
      ImportRoute(db, body, accepts)
  }

  /** POST /api/export/import: it may write every table; it answers 200 or
      500, and a 500 leaves every table as it was. */
  function ImportRoute(db: Db, body: map<string, Value>, accepts: Exchange.Write -> bool): (r: Answer<Db, ()>)
    ensures Frame(r.state, db, Touches(ImportAll(body)))
    ensures r.status == OK || r.status == SERVER_ERROR
    ensures r.status == SERVER_ERROR ==> r.state == db
    ensures r.data == None
    ensures r == Exchange.Import(db, body, accepts)
  {
    Exchange.Import(db, body, accepts)
  }

  /** One request: a guarded route answers 401 without a token and 403 for
      a rejected one, changing nothing; otherwise the route runs. A request
      never writes a table it does not name. */
  function Handle(db: Db, token: Token, req: Request, accepts: Exchange.Write -> bool): (r: Answer<Db, ()>)
    requires Valid(db)
    ensures Guarded(req) && token == NoToken ==> r.status == UNAUTHORIZED && r.state == db
    ensures Guarded(req) && token == Rejected ==> r.status == FORBIDDEN && r.state == db
    ensures !Guarded(req) ==> r.state == db
    ensures Frame(r.state, db, Touches(req))
    ensures !Guarded(req) || token == Accepted ==> r == Route(db, req, accepts)
  {
    FrameSame(db, Touches(req));
    if Guarded(req) && token == NoToken then Answer(UNAUTHORIZED, db, None)
    else if Guarded(req) && token == Rejected then Answer(FORBIDDEN, db, None)
    else Route(db, req, accepts)
  }

  /** Past an accepted token a failing business rule is the handler's own
      answer: a staff POST without a truthy `nome` answers 400 and changes
      nothing, while the same request without a token answers 401. */
  lemma AcceptedMissingName(db: Db, n: TierName, body: map<string, Value>, accepts: Exchange.Write -> bool)
    requires Valid(db) && Falsy(Get(body, "nome"))
    ensures Handle(db, Accepted, ToTier(n, CreateStaff(body)), accepts).status == BAD_REQUEST
    ensures Handle(db, Accepted, ToTier(n, CreateStaff(body)), accepts).state == db
    ensures Handle(db, NoToken, ToTier(n, CreateStaff(body)), accepts).status == UNAUTHORIZED
  {
  }

  /** Reads answer 200 or 404 and never need a token. */
  lemma ReadsAnswer(db: Db, token: Token, req: Request, accepts: Exchange.Write -> bool)
    requires Valid(db) && !Guarded(req)
    ensures Handle(db, token, req, accepts) == Handle(db, Accepted, req, accepts)
    ensures Handle(db, token, req, accepts).status in {OK, NOT_FOUND}
  {
  }

  lemma TierRouteKeepsValid(db: Db, n: TierName, c: TierCall)
    requires Valid(db)
    ensures Valid(TierRoute(db, n, c).state)
  {
    TierTableValid(db, n);
    var t := TierTable(db, n);
    match c
    case CreateStaff(body) => Staff.HandlersKeepValid(TierOf(n), t, 0, body);
    case PatchStaff(id, body) => Staff.HandlersKeepValid(TierOf(n), t, id, body);
    case DeleteStaff(id) => Staff.HandlersKeepValid(TierOf(n), t, id, map[]);
    case _ =>
  }

  lemma CadastroRouteKeepsValid(db: Db, c: CadastroCall)
    requires Valid(db)
    ensures Valid(CadastroRoute(db, c).state)
  {
    match c
    case CreateCadastro(body) => Cadastros.HandlersKeepValid(db.cadastros, "", body);
    case PatchCadastro(key, body) => Cadastros.HandlersKeepValid(db.cadastros, key, body);
    case DeleteCadastro(key) => Cadastros.HandlersKeepValid(db.cadastros, key, map[]);
    case _ =>
  }

  lemma GoalRouteKeepsValid(db: Db, c: GoalCall)
    requires Valid(db)
    ensures Valid(GoalRoute(db, c).state)
  {
    match c
    case PostGoal(body) => Metas.HandlersKeepValid(db.metas, "", "", body, Null);
    case PatchGoal(cargo, metrica, body) => Metas.HandlersKeepValid(db.metas, cargo, metrica, body, Null);
    case PutGoals(document) => Metas.HandlersKeepValid(db.metas, "", "", map[], document);
    case DeleteGoal(cargo, metrica) => Metas.HandlersKeepValid(db.metas, cargo, metrica, map[], Null);
    case _ =>
  }

  /** Every request keeps the database well formed. */
  lemma HandleKeepsValid(db: Db, token: Token, req: Request, accepts: Exchange.Write -> bool)
    requires Valid(db)
    ensures Valid(Handle(db, token, req, accepts).state)
  {
    match req
    case ToTier(n, c) => TierRouteKeepsValid(db, n, c);
    case ToCadastros(c) => CadastroRouteKeepsValid(db, c);
    case ToGoals(c) => GoalRouteKeepsValid(db, c);
    case ImportAll(body) => Exchange.ImportKeepsValid(db, body, accepts);
    case ExportAll =>
  }
}
