/** Backup and restore, routes/export.js: the export document of every table,
    and the import that writes such a document back in one transaction. */
module Exchange {
  import opened Js
  import opened Sql
  import opened Http
  import Listing
  import Staff
  import Cadastros
  import Metas
  import Estagiarios
  import Suportes
  import Moderadores
  import Admins
  import Supervisores
  import opened Store

  /** One row the import asks the engine to write. The engine may refuse a
      row for a constraint of the table definitions, which are not part of
      this model, so whether it accepts each write is a parameter. */
  datatype Write =
    | CadastroWrite(id: string, cadastro: Cadastros.Cadastro)
    | StaffWrite(tier: Staff.Tier, fields: Staff.Fields)
    | GoalWrite(key: Metas.Key, goal: Metas.Goal)

  // ---------------------------------------------------------------------
  // City registrations: INSERT OR REPLACE per element of the array.

  /** An element of the payload's `cadastros` array as `insertCadastro.run(c.id,
      c.nome, c.cidade, c.cargo)` binds it. `None` when the element is null
      (reading a property throws), when a value cannot be bound, or when the
      id is NULL. */
  function CadastroOf(c: Value): (r: Option<(string, Cadastros.Cadastro)>)
    ensures r.Some? ==> !c.Null? && !c.Undefined? && Some(r.value.0) == KeyText(Prop(c, "id").value)
    ensures r.Some? ==> Storable(r.value.1.nome) && Storable(r.value.1.cidade) && Storable(r.value.1.cargo)
  {
    match (Prop(c, "id"), Prop(c, "nome"), Prop(c, "cidade"), Prop(c, "cargo"))
    case (Some(id), Some(nome), Some(cidade), Some(cargo)) =>
      if Bindable(id) && Bindable(nome) && Bindable(cidade) && Bindable(cargo) && KeyText(id).Some?
      then Some((KeyText(id).value, Cadastros.Cadastro(Stored(nome), Stored(cidade), Stored(cargo))))
      else None
    case _ => None
  }

  /** The rows of the whole array, in payload order, when every element binds. */
  function CadastroRows(items: seq<Value>): (r: Option<seq<(string, Cadastros.Cadastro)>>)
    ensures r.Some? <==> forall i | 0 <= i < |items| :: CadastroOf(items[i]).Some?
    ensures r.Some? ==> |r.value| == |items| && forall i | 0 <= i < |items| :: Some(r.value[i]) == CadastroOf(items[i])
  {
    if forall i | 0 <= i < |items| :: CadastroOf(items[i]).Some?
    then Some(seq(|items|, i requires 0 <= i < |items| => CadastroOf(items[i]).value))
    else None
  }

  /** The `cadastros` block: skipped unless the payload field is an array;
      otherwise every element is inserted or replaced by id, a later element
      overriding an earlier one with the same id, and ids not in the payload
      are kept. `None` is a failure that rolls the import back. */
  function ImportCadastros(s: Cadastros.Store, v: Value, accepts: Write -> bool): (r: Option<Cadastros.Store>)
    ensures !v.Arr? ==> r == Some(s)
    ensures v.Arr? && r.Some? ==>
      && CadastroRows(v.items).Some?
      && var rows := CadastroRows(v.items).value;
      && (forall i | 0 <= i < |rows| :: rows[i].0 in r.value)
      && (forall id | id in r.value :: id in s || exists i :: 0 <= i < |rows| && rows[i].0 == id)
      && (forall id | id in s && (forall i | 0 <= i < |rows| :: rows[i].0 != id) :: id in r.value && r.value[id] == s[id])
    ensures v.Arr? ==> (r.None? <==>
      || CadastroRows(v.items).None?
      || exists i | 0 <= i < |v.items| :: !accepts(CadastroWrite(CadastroRows(v.items).value[i].0, CadastroRows(v.items).value[i].1)))
  {
    if !v.Arr? then Some(s)
    else match CadastroRows(v.items)
      case None => None
      case Some(rows) =>
        if forall i | 0 <= i < |rows| :: accepts(CadastroWrite(rows[i].0, rows[i].1))
        then Some(s + Listing.Collect(rows))
        else None
  }

  /** The last element of the payload with a given id is what the import
      leaves under that id. */
  lemma ImportCadastrosLastWins(s: Cadastros.Store, v: Value, accepts: Write -> bool, i: nat)
    requires v.Arr? && ImportCadastros(s, v, accepts).Some?
    requires i < |v.items|
    ensures var rows := CadastroRows(v.items).value;
      (forall j | i < j < |rows| :: rows[j].0 != rows[i].0) ==>
        ImportCadastros(s, v, accepts).value[rows[i].0] == rows[i].1
  {
    var rows := CadastroRows(v.items).value;
    if forall j | i < j < |rows| :: rows[j].0 != rows[i].0 {
      Listing.CollectLast(rows, i);
    }
  }

  // ---------------------------------------------------------------------
  // Staff tiers: DELETE FROM the table, then one INSERT per element.

  /** The value the import binds for column `c` of element `e`: `e.c`, with
      `|| 'NÃO'` on `premio` in the one tier whose import block applies it. */
  function ImportedValue(tier: Staff.Tier, e: Value, c: string): Value
    requires !e.Null? && !e.Undefined?
  {
    var v := Prop(e, c).value;
    if c == "premio" && tier.importDefaultsPremio then Or(v, Str(Staff.NAO)) else v
  }

  /** Reading and binding every listed column of `e` succeeds. */
  predicate RowBinds(tier: Staff.Tier, e: Value) {
    && !e.Null? && !e.Undefined?
    && forall c | c in Staff.ImportColumns(tier) :: Bindable(ImportedValue(tier, e, c))
  }

  /** The row one INSERT of the import writes: the listed columns from the
      element, and `discord_id` at its column default ''. The element's `id`
      is never read. */
  function ImportedRow(tier: Staff.Tier, e: Value): (r: Staff.Fields)
    requires RowBinds(tier, e)
    ensures Staff.IsRow(tier, r)
  {
    map c | c in Staff.Columns(tier) :: if c == "discord_id" then Str("") else Stored(ImportedValue(tier, e, c))
  }

  /** The table after `DELETE FROM` and one INSERT per row: exactly those
      rows, under consecutive ids after the old high-water mark. */
  function Refill(t: Staff.Table, rows: seq<Staff.Fields>): (r: Staff.Table)
    ensures r.lastId == t.lastId + |rows|
    ensures forall id | id in r.rows :: t.lastId < id <= r.lastId
    ensures forall id | t.lastId < id <= r.lastId :: id in r.rows && r.rows[id] == rows[id - t.lastId - 1]
    decreases |rows|
  {
    if rows == [] then Staff.Table(map[], t.lastId)
    else
      var init := rows[..|rows| - 1];
      assert forall j | 0 <= j < |init| :: init[j] == rows[j];
      Staff.Insert(Refill(t, init), rows[|rows| - 1])
  }

  /** The rows an array payload asks for, when every element binds. */
  function StaffRows(tier: Staff.Tier, items: seq<Value>): (r: Option<seq<Staff.Fields>>)
    ensures r.Some? <==> forall i | 0 <= i < |items| :: RowBinds(tier, items[i])
    ensures r.Some? ==>
      && |r.value| == |items|
      && forall i | 0 <= i < |items| :: RowBinds(tier, items[i]) && r.value[i] == ImportedRow(tier, items[i])
  {
    if forall i | 0 <= i < |items| :: RowBinds(tier, items[i])
    then Some(seq(|items|, i requires 0 <= i < |items| => ImportedRow(tier, items[i])))
    else None
  }

  /** One tier's block: skipped unless the payload field is an array;
      otherwise the table is emptied and refilled with the elements in order
      under fresh ids. `None` is a failure that rolls the import back. */
  function ImportTier(tier: Staff.Tier, t: Staff.Table, v: Value, accepts: Write -> bool): (r: Option<Staff.Table>)
    ensures !v.Arr? ==> r == Some(t)
    ensures v.Arr? && r.Some? ==>
      && StaffRows(tier, v.items).Some?
      && r.value.lastId == t.lastId + |v.items|
      && (forall id | id in r.value.rows :: t.lastId < id <= t.lastId + |v.items|)
      && (forall id | t.lastId < id <= t.lastId + |v.items| :: id in r.value.rows
            && r.value.rows[id] == ImportedRow(tier, v.items[id - t.lastId - 1]))
    ensures v.Arr? ==> (r.None? <==>
      || StaffRows(tier, v.items).None?
      || exists i | 0 <= i < |v.items| :: !accepts(StaffWrite(tier, StaffRows(tier, v.items).value[i])))
  {
    if !v.Arr? then Some(t)
    else match StaffRows(tier, v.items)
      case None => None
      case Some(rows) =>
        if forall i | 0 <= i < |rows| :: accepts(StaffWrite(tier, rows[i])) then
          var filled := Refill(t, rows);
          Some(filled)
        else None
  }

  /** An imported row never takes `discord_id` from the payload; `premio`
      becomes 'NÃO' when falsy only in the tier whose import applies that
      default and passes through elsewhere; every other column is the
      element's value. */
  lemma ImportedRowValues(tier: Staff.Tier, e: Value)
    requires RowBinds(tier, e)
    ensures var row := ImportedRow(tier, e);
      && "discord_id" in row && row["discord_id"] == Str("")
      && (tier.hasPremio ==> "premio" in row)
      && (tier.hasPremio && tier.importDefaultsPremio ==> row["premio"] == Or(Prop(e, "premio").value, Str(Staff.NAO)))
      && (tier.hasPremio && !tier.importDefaultsPremio ==> row["premio"] == Stored(Prop(e, "premio").value))
      && (forall c | c in Staff.ImportColumns(tier) && c != "premio" && c != "discord_id" :: c in row && row[c] == Stored(Prop(e, c).value))
  {
    assert "discord_id" in Staff.Columns(tier);
    if tier.hasPremio {
      assert "premio" in Staff.Columns(tier);
    }
  }

  // ---------------------------------------------------------------------
  // Goals: the same nested upsert as the bulk update, without deleting.

  /** The `metas` block: skipped unless the payload field is a non-null
      object (an array passes); otherwise every (cargo, metrica) in it is
      upserted with `|| 0`, and no goal row is deleted. */
  function ImportGoals(g: Metas.Goals, v: Value, accepts: Write -> bool): (r: Option<Metas.Goals>)
    ensures !(v.Obj? || v.Arr?) ==> r == Some(g)
    ensures (v.Obj? || v.Arr?) && r.Some? ==>
      && Metas.Upserts(v).Some?
      && var u := Metas.Upserts(v).value;
      && r.value.Keys == g.Keys + u.Keys
      && (forall k | k in u :: r.value[k] == u[k])
      && (forall k | k in g && k !in u :: r.value[k] == g[k])
    ensures (v.Obj? || v.Arr?) ==> (r.None? <==>
      || Metas.Upserts(v).None?
      || exists k | k in Metas.Upserts(v).value :: !accepts(GoalWrite(k, Metas.Upserts(v).value[k])))
  {
    if !(v.Obj? || v.Arr?) then Some(g)
    else match Metas.Upserts(v)
      case None => None
      case Some(u) => if forall k | k in u :: accepts(GoalWrite(k, u[k])) then Some(g + u) else None
  }

  /** The `metas` test of the import, `metas && typeof metas === 'object'`,
      admits exactly the arrays and the non-null objects. */
  lemma GoalsGuard(v: Value)
    ensures (!Falsy(v) && IsObject(v)) <==> (v.Obj? || v.Arr?)
  {
  }

  // ---------------------------------------------------------------------
  // The whole import.

  /** POST /api/export/import: every block runs inside one transaction; if
      any write fails the answer is 500 and no table changes, otherwise 200
      with every block applied. */
  function Import(db: Db, body: map<string, Value>, accepts: Write -> bool): (r: Answer<Db, ()>)
    ensures r.status == OK || r.status == SERVER_ERROR
    ensures r.status == SERVER_ERROR ==> r.state == db
    ensures r.data == None
    ensures r.status == OK <==>
      && ImportCadastros(db.cadastros, Get(body, "cadastros"), accepts).Some?
      && ImportTier(Estagiarios.Tier, db.estagiarios, Get(body, "estagiarios"), accepts).Some?
      && ImportTier(Suportes.Tier, db.suportes, Get(body, "suportes"), accepts).Some?
      && ImportTier(Moderadores.Tier, db.moderadores, Get(body, "moderadores"), accepts).Some?
      && ImportTier(Admins.Tier, db.admins, Get(body, "admins"), accepts).Some?
      && ImportTier(Supervisores.Tier, db.supervisores, Get(body, "supervisores"), accepts).Some?
      && ImportGoals(db.metas, Get(body, "metas"), accepts).Some?
    ensures r.status == OK ==>
      && Some(r.state.cadastros) == ImportCadastros(db.cadastros, Get(body, "cadastros"), accepts)
      && Some(r.state.estagiarios) == ImportTier(Estagiarios.Tier, db.estagiarios, Get(body, "estagiarios"), accepts)
      && Some(r.state.suportes) == ImportTier(Suportes.Tier, db.suportes, Get(body, "suportes"), accepts)
      && Some(r.state.moderadores) == ImportTier(Moderadores.Tier, db.moderadores, Get(body, "moderadores"), accepts)
      && Some(r.state.admins) == ImportTier(Admins.Tier, db.admins, Get(body, "admins"), accepts)
      && Some(r.state.supervisores) == ImportTier(Supervisores.Tier, db.supervisores, Get(body, "supervisores"), accepts)
      && Some(r.state.metas) == ImportGoals(db.metas, Get(body, "metas"), accepts)
  {
    var cad := ImportCadastros(db.cadastros, Get(body, "cadastros"), accepts);
    var est := ImportTier(Estagiarios.Tier, db.estagiarios, Get(body, "estagiarios"), accepts);
    var sup := ImportTier(Suportes.Tier, db.suportes, Get(body, "suportes"), accepts);
    var mod := ImportTier(Moderadores.Tier, db.moderadores, Get(body, "moderadores"), accepts);
    var adm := ImportTier(Admins.Tier, db.admins, Get(body, "admins"), accepts);
    var spv := ImportTier(Supervisores.Tier, db.supervisores, Get(body, "supervisores"), accepts);
    var goals := ImportGoals(db.metas, Get(body, "metas"), accepts);
    if cad.Some? && est.Some? && sup.Some? && mod.Some? && adm.Some? && spv.Some? && goals.Some?
    then Answer(OK, Db(est.value, sup.value, mod.value, adm.value, spv.value, cad.value, goals.value), None)
    else Answer(SERVER_ERROR, db, None)
  }

  /** A payload with none of the seven fields changes nothing. */
  lemma ImportEmpty(db: Db, accepts: Write -> bool)
    ensures Import(db, map[], accepts) == Answer(OK, db, None)
  {
  }

  /** The import keeps every table well formed. */
  lemma ImportKeepsValid(db: Db, body: map<string, Value>, accepts: Write -> bool)
    requires Valid(db)
    ensures Valid(Import(db, body, accepts).state)
  {
    ImportTierKeepsValid(Estagiarios.Tier, db.estagiarios, Get(body, "estagiarios"), accepts);
    ImportTierKeepsValid(Suportes.Tier, db.suportes, Get(body, "suportes"), accepts);
    ImportTierKeepsValid(Moderadores.Tier, db.moderadores, Get(body, "moderadores"), accepts);
    ImportTierKeepsValid(Admins.Tier, db.admins, Get(body, "admins"), accepts);
    ImportTierKeepsValid(Supervisores.Tier, db.supervisores, Get(body, "supervisores"), accepts);
    ImportCadastrosKeepsValid(db.cadastros, Get(body, "cadastros"), accepts);
    ImportGoalsKeepsValid(db.metas, Get(body, "metas"), accepts);
  }

  lemma ImportTierKeepsValid(tier: Staff.Tier, t: Staff.Table, v: Value, accepts: Write -> bool)
    requires Staff.Valid(tier, t)
    ensures ImportTier(tier, t, v, accepts).Some? ==> Staff.Valid(tier, ImportTier(tier, t, v, accepts).value)
  {
  }

  lemma ImportCadastrosKeepsValid(s: Cadastros.Store, v: Value, accepts: Write -> bool)
    requires Cadastros.Valid(s)
    ensures ImportCadastros(s, v, accepts).Some? ==> Cadastros.Valid(ImportCadastros(s, v, accepts).value)
  {
    if v.Arr? && ImportCadastros(s, v, accepts).Some? {
      var rows := CadastroRows(v.items).value;
      var added := Listing.Collect(rows);
      forall id | id in added
        ensures Storable(added[id].nome) && Storable(added[id].cidade) && Storable(added[id].cargo)
      {
        Listing.CollectValue(rows, id);
        var i :| 0 <= i < |rows| && rows[i] == (id, added[id]);
        assert Some(rows[i]) == CadastroOf(v.items[i]);
      }
    }
  }

  lemma ImportGoalsKeepsValid(g: Metas.Goals, v: Value, accepts: Write -> bool)
    requires Metas.Valid(g)
    ensures ImportGoals(g, v, accepts).Some? ==> Metas.Valid(ImportGoals(g, v, accepts).value)
  {
  }

  // ---------------------------------------------------------------------
  // GET /api/export

  /** A staff row as `SELECT *` returns it: its columns and its id. */
  function StaffDoc(id: int, f: Staff.Fields): (r: Value)
    ensures r.Obj? && "id" in r.props && r.props["id"] == Num(id)
    ensures forall c | c in f && c != "id" :: Prop(r, c) == Some(f[c])
  {
    Obj(f["id" := Num(id)])
  }

  /** A registration as `SELECT *` returns it. */
  function CadastroDoc(id: string, x: Cadastros.Cadastro): (r: Value)
    ensures Prop(r, "id") == Some(Str(id))
    ensures Prop(r, "nome") == Some(x.nome) && Prop(r, "cidade") == Some(x.cidade) && Prop(r, "cargo") == Some(x.cargo)
  {
    Obj(map["id" := Str(id), "nome" := x.nome, "cidade" := x.cidade, "cargo" := x.cargo])
  }

  function StaffDocs(rows: seq<(int, Staff.Fields)>): (r: seq<Value>)
    ensures |r| == |rows| && forall i | 0 <= i < |rows| :: r[i] == StaffDoc(rows[i].0, rows[i].1)
  {
    seq(|rows|, i requires 0 <= i < |rows| => StaffDoc(rows[i].0, rows[i].1))
  }

  function CadastroDocs(rows: seq<(string, Cadastros.Cadastro)>): (r: seq<Value>)
    ensures |r| == |rows| && forall i | 0 <= i < |rows| :: r[i] == CadastroDoc(rows[i].0, rows[i].1)
  {
    seq(|rows|, i requires 0 <= i < |rows| => CadastroDoc(rows[i].0, rows[i].1))
  }

  /** The order `SELECT * … ORDER BY nome` happened to return each table in. */
  datatype Orders = Orders(
    estagiarios: seq<(int, Staff.Fields)>,
    suportes: seq<(int, Staff.Fields)>,
    moderadores: seq<(int, Staff.Fields)>,
    admins: seq<(int, Staff.Fields)>,
    supervisores: seq<(int, Staff.Fields)>,
    cadastros: seq<(string, Cadastros.Cadastro)>)

  /** Each order lists its table's rows exactly once. */
  ghost predicate Lists(db: Db, o: Orders) {
    && Listing.IsListing(db.estagiarios.rows, o.estagiarios)
    && Listing.IsListing(db.suportes.rows, o.suportes)
    && Listing.IsListing(db.moderadores.rows, o.moderadores)
    && Listing.IsListing(db.admins.rows, o.admins)
    && Listing.IsListing(db.supervisores.rows, o.supervisores)
    && Listing.IsListing(db.cadastros, o.cadastros)
  }

  /** The export document for a given row order and timestamp. */
  function Document(db: Db, o: Orders, exportedAt: string): map<string, Value> {
    map[
      "estagiarios" := Arr(StaffDocs(o.estagiarios)),
      "suportes" := Arr(StaffDocs(o.suportes)),
      "moderadores" := Arr(StaffDocs(o.moderadores)),
      "admins" := Arr(StaffDocs(o.admins)),
      "supervisores" := Arr(StaffDocs(o.supervisores)),
      "cadastros" := Arr(CadastroDocs(o.cadastros)),
      "metas" := Metas.GoalsDoc(Metas.Group(db.metas)),
      "exportedAt" := Str(exportedAt)]
  }

  /** GET /api/export: every row of every table once, and the goals grouped
      by cargo as GET /api/metas sends them. The clock reading is a parameter. */
  method Export(db: Db, exportedAt: string) returns (o: Orders, r: Answer<Db, map<string, Value>>)
    ensures r.status == OK && r.state == db
    ensures Lists(db, o)
    ensures r.data == Some(Document(db, o, exportedAt))
  {
    var est := Listing.List(db.estagiarios.rows);
    var sup := Listing.List(db.suportes.rows);
    var mod := Listing.List(db.moderadores.rows);
    var adm := Listing.List(db.admins.rows);
    var spv := Listing.List(db.supervisores.rows);
    var cad := Listing.List(db.cadastros);
    o := Orders(est, sup, mod, adm, spv, cad);
    r := Answer(OK, db, Some(Document(db, o, exportedAt)));
  }

  // ---------------------------------------------------------------------
  // Export, then import

  /** An exported registration reads back as itself. */
  lemma CadastroOfDoc(id: string, x: Cadastros.Cadastro)
    requires Storable(x.nome) && Storable(x.cidade) && Storable(x.cargo)
    ensures CadastroOf(CadastroDoc(id, x)) == Some((id, x))
  {
  }

  /** Importing the exported registrations restores every one of them, and
      keeps any other registration the target holds. */
  lemma CadastrosRoundTrip(s: Cadastros.Store, target: Cadastros.Store, rows: seq<(string, Cadastros.Cadastro)>, accepts: Write -> bool)
    requires Cadastros.Valid(s) && Listing.IsListing(s, rows)
    requires forall w :: accepts(w)
    ensures ImportCadastros(target, Arr(CadastroDocs(rows)), accepts) == Some(target + s)
  {
    forall i | 0 <= i < |rows|
      ensures Storable(rows[i].1.nome) && Storable(rows[i].1.cidade) && Storable(rows[i].1.cargo)
    {
      assert rows[i].0 in s;
    }
    CadastroRowsOfDocs(rows);
    Listing.CollectListing(s, rows);
  }

  /** The exported documents of storable registrations read back as the rows. */
  lemma CadastroRowsOfDocs(rows: seq<(string, Cadastros.Cadastro)>)
    requires forall i | 0 <= i < |rows| :: Storable(rows[i].1.nome) && Storable(rows[i].1.cidade) && Storable(rows[i].1.cargo)
    ensures CadastroRows(CadastroDocs(rows)) == Some(rows)
  {
    var docs := CadastroDocs(rows);
    forall i | 0 <= i < |docs|
      ensures CadastroOf(docs[i]) == Some(rows[i])
    {
      CadastroOfDoc(rows[i].0, rows[i].1);
    }
    var got := CadastroRows(docs).value;
    assert forall i | 0 <= i < |rows| :: got[i] == rows[i];
    assert got == rows;
  }

  /** A staff row as the import writes back its exported document: the same
      columns, `discord_id` reset to '', and in the tier whose import applies
      the default a falsy `premio` read as 'NÃO'. */
  function Reimported(tier: Staff.Tier, f: Staff.Fields): (r: Staff.Fields)
    requires Staff.IsRow(tier, f)
    ensures Staff.IsRow(tier, r)
    ensures "discord_id" in r && r["discord_id"] == Str("")
    ensures forall c | c in f && c != "discord_id" && c != "premio" :: r[c] == f[c]
    ensures "premio" in f ==> r["premio"] == if tier.importDefaultsPremio then Or(f["premio"], Str(Staff.NAO)) else f["premio"]
  {
    assert "discord_id" in Staff.Columns(tier);
    map c | c in Staff.Columns(tier) ::
      if c == "discord_id" then Str("")
      else if c == "premio" && tier.importDefaultsPremio then Or(f[c], Str(Staff.NAO))
      else f[c]
  }

  /** An exported staff row reads back as `Reimported`. */
  lemma ImportedRowOfDoc(tier: Staff.Tier, id: int, f: Staff.Fields)
    requires Staff.IsRow(tier, f) && "id" !in Staff.Columns(tier)
    ensures RowBinds(tier, StaffDoc(id, f))
    ensures ImportedRow(tier, StaffDoc(id, f)) == Reimported(tier, f)
  {
    var e := StaffDoc(id, f);
    assert RowBinds(tier, e) by {
      forall c | c in Staff.ImportColumns(tier)
        ensures Bindable(ImportedValue(tier, e, c))
      {
        assert Prop(e, c) == Some(f[c]);
      }
    }
    var a := ImportedRow(tier, e);
    var b := Reimported(tier, f);
    forall c | c in a
      ensures a[c] == b[c]
    {
      if c != "discord_id" {
        assert Prop(e, c) == Some(f[c]);
      }
    }
    Listing.SameMap(a, b);
  }

  /** The rows the import of an exported table writes, in export order. */
  function Reimports(tier: Staff.Tier, rows: seq<(int, Staff.Fields)>): (r: seq<Staff.Fields>)
    requires forall i | 0 <= i < |rows| :: Staff.IsRow(tier, rows[i].1)
    ensures |r| == |rows| && forall i | 0 <= i < |rows| :: r[i] == Reimported(tier, rows[i].1)
  {
    seq(|rows|, i requires 0 <= i < |rows| => Reimported(tier, rows[i].1))
  }

  /** The exported rows of a table read back as `Reimports`. */
  lemma StaffRowsOfDocs(tier: Staff.Tier, rows: seq<(int, Staff.Fields)>)
    requires forall i | 0 <= i < |rows| :: Staff.IsRow(tier, rows[i].1)
    requires "id" !in Staff.Columns(tier)
    ensures StaffRows(tier, StaffDocs(rows)) == Some(Reimports(tier, rows))
  {
    var docs := StaffDocs(rows);
    forall i | 0 <= i < |docs|
      ensures RowBinds(tier, docs[i]) && ImportedRow(tier, docs[i]) == Reimported(tier, rows[i].1)
    {
      ImportedRowOfDoc(tier, rows[i].0, rows[i].1);
    }
    var got := StaffRows(tier, docs).value;
    var want := Reimports(tier, rows);
    assert forall i | 0 <= i < |rows| :: got[i] == want[i];
    assert got == want;
  }

  /** Importing an exported tier table refills the target with the exported
      rows, in export order, under fresh ids. */
  lemma TierRoundTrip(tier: Staff.Tier, t: Staff.Table, target: Staff.Table, rows: seq<(int, Staff.Fields)>, accepts: Write -> bool)
    requires Staff.Valid(tier, t) && Listing.IsListing(t.rows, rows)
    requires "id" !in Staff.Columns(tier)
    requires forall w :: accepts(w)
    ensures forall i | 0 <= i < |rows| :: Staff.IsRow(tier, rows[i].1)
    ensures ImportTier(tier, target, Arr(StaffDocs(rows)), accepts) == Some(Refill(target, Reimports(tier, rows)))
  {
    ListedRows(tier, t, rows);
    StaffRowsOfDocs(tier, rows);
    ImportTierAccepted(tier, target, StaffDocs(rows), accepts);
  }

  /** With every write accepted, a tier block whose elements all bind
      refills the table with their rows. */
  lemma ImportTierAccepted(tier: Staff.Tier, t: Staff.Table, items: seq<Value>, accepts: Write -> bool)
    requires StaffRows(tier, items).Some?
    requires forall w :: accepts(w)
    ensures ImportTier(tier, t, Arr(items), accepts) == Some(Refill(t, StaffRows(tier, items).value))
  {
  }

  /** Importing the goals of an export upserts every goal, normalized, and
      keeps any other goal the target holds. */
  lemma GoalsRoundTrip(g: Metas.Goals, target: Metas.Goals, accepts: Write -> bool)
    requires Metas.Valid(g)
    requires forall w :: accepts(w)
    ensures ImportGoals(target, Metas.GoalsDoc(Metas.Group(g)), accepts) == Some(target + Metas.Normalized(g))
  {
    Metas.UpsertsOfListing(g);
  }

  /** No tier has a column named `id`, so a row's exported id never lands in a column. */
  lemma NoIdColumn()
    ensures "id" !in Staff.Columns(Estagiarios.Tier) && "id" !in Staff.Columns(Suportes.Tier)
    ensures "id" !in Staff.Columns(Moderadores.Tier) && "id" !in Staff.Columns(Admins.Tier)
    ensures "id" !in Staff.Columns(Supervisores.Tier)
  {
    Estagiarios.ColumnsAre();
    Suportes.ColumnsAre();
    Moderadores.ColumnsAre();
    Admins.ColumnsAre();
    Supervisores.ColumnsAre();
  }

  /** Every listed row of a well-formed table is a row of its tier. */
  lemma ListedRows(tier: Staff.Tier, t: Staff.Table, rows: seq<(int, Staff.Fields)>)
    requires Staff.Valid(tier, t) && Listing.IsListing(t.rows, rows)
    ensures forall i | 0 <= i < |rows| :: Staff.IsRow(tier, rows[i].1)
  {
    assert forall i | 0 <= i < |rows| :: rows[i].0 in t.rows && t.rows[rows[i].0] == rows[i].1;
  }

  /** The import succeeds with the given parts when each block does. */
  lemma ImportParts(target: Db, body: map<string, Value>, accepts: Write -> bool, parts: Db)
    requires ImportCadastros(target.cadastros, Get(body, "cadastros"), accepts) == Some(parts.cadastros)
    requires ImportTier(Estagiarios.Tier, target.estagiarios, Get(body, "estagiarios"), accepts) == Some(parts.estagiarios)
    requires ImportTier(Suportes.Tier, target.suportes, Get(body, "suportes"), accepts) == Some(parts.suportes)
    requires ImportTier(Moderadores.Tier, target.moderadores, Get(body, "moderadores"), accepts) == Some(parts.moderadores)
    requires ImportTier(Admins.Tier, target.admins, Get(body, "admins"), accepts) == Some(parts.admins)
    requires ImportTier(Supervisores.Tier, target.supervisores, Get(body, "supervisores"), accepts) == Some(parts.supervisores)
    requires ImportGoals(target.metas, Get(body, "metas"), accepts) == Some(parts.metas)
    ensures Import(target, body, accepts) == Answer(OK, parts, None)
  {
  }

  /** The database an accepted import of an export of `db` leaves in `target`. */
  function Restored(db: Db, o: Orders, target: Db): Db
    requires Valid(db) && Lists(db, o)
  {
    ListedRows(Estagiarios.Tier, db.estagiarios, o.estagiarios);
    ListedRows(Suportes.Tier, db.suportes, o.suportes);
    ListedRows(Moderadores.Tier, db.moderadores, o.moderadores);
    ListedRows(Admins.Tier, db.admins, o.admins);
    ListedRows(Supervisores.Tier, db.supervisores, o.supervisores);
    Db(
      Refill(target.estagiarios, Reimports(Estagiarios.Tier, o.estagiarios)),
      Refill(target.suportes, Reimports(Suportes.Tier, o.suportes)),
      Refill(target.moderadores, Reimports(Moderadores.Tier, o.moderadores)),
      Refill(target.admins, Reimports(Admins.Tier, o.admins)),
      Refill(target.supervisores, Reimports(Supervisores.Tier, o.supervisores)),
      target.cadastros + db.cadastros,
      target.metas + Metas.Normalized(db.metas))
  }

  /** Importing an export succeeds when the engine accepts every row: each
      tier table is refilled with the exported rows, every registration is
      restored, and every goal is restored normalized. */
  lemma ExportThenImport(db: Db, o: Orders, exportedAt: string, target: Db, accepts: Write -> bool)
    requires Valid(db) && Lists(db, o)
    requires forall w :: accepts(w)
    ensures Import(target, Document(db, o, exportedAt), accepts) == Answer(OK, Restored(db, o, target), None)
  {
    var doc := Document(db, o, exportedAt);
    NoIdColumn();
    DocumentFields(db, o, exportedAt);
    TierRoundTrip(Estagiarios.Tier, db.estagiarios, target.estagiarios, o.estagiarios, accepts);
    TierRoundTrip(Suportes.Tier, db.suportes, target.suportes, o.suportes, accepts);
    TierRoundTrip(Moderadores.Tier, db.moderadores, target.moderadores, o.moderadores, accepts);
    TierRoundTrip(Admins.Tier, db.admins, target.admins, o.admins, accepts);
    TierRoundTrip(Supervisores.Tier, db.supervisores, target.supervisores, o.supervisores, accepts);
    CadastrosRoundTrip(db.cadastros, target.cadastros, o.cadastros, accepts);
    GoalsRoundTrip(db.metas, target.metas, accepts);
    ImportParts(target, doc, accepts, Restored(db, o, target));
  }

  /** The fields the import reads from an export document. */
  lemma DocumentFields(db: Db, o: Orders, exportedAt: string)
    ensures var doc := Document(db, o, exportedAt);
      && Get(doc, "estagiarios") == Arr(StaffDocs(o.estagiarios))
      && Get(doc, "suportes") == Arr(StaffDocs(o.suportes))
      && Get(doc, "moderadores") == Arr(StaffDocs(o.moderadores))
      && Get(doc, "admins") == Arr(StaffDocs(o.admins))
      && Get(doc, "supervisores") == Arr(StaffDocs(o.supervisores))
      && Get(doc, "cadastros") == Arr(CadastroDocs(o.cadastros))
      && Get(doc, "metas") == Metas.GoalsDoc(Metas.Group(db.metas))
  {
  }

  /** Restoring an export into the database it came from keeps every
      registration as it was and every goal up to `|| 0`. */
  lemma RestoreIntoSource(db: Db, o: Orders)
    requires Valid(db) && Lists(db, o)
    ensures Restored(db, o, db).cadastros == db.cadastros
    ensures Restored(db, o, db).metas == Metas.Normalized(db.metas)
  {
    Metas.Overrides(db.cadastros, db.cadastros);
    Metas.Overrides(db.metas, Metas.Normalized(db.metas));
  }
}
