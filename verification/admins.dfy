/** The admins route file, routes/admins.js: the generic staff handlers
    instantiated with default `cargo` 'ADM', its counters and its allow-list. */
module Admins {
  import opened Js
  import opened Sql
  import opened Http
  import Staff

  /** The counter columns, in the order the POST handler binds them. */
  const Counters: seq<string> := ["horas", "atSup", "auxSup", "atCid", "denuncia", "revisao", "instrucoes", "entrevistas", "devolucoes", "ban", "telagem", "ticketSS"]

  /** The PATCH allow-list as the route file spells it. */
  const Allowed: seq<string> := ["nome", "cargo", "situacao", "discord_id", "premio", "horas", "atSup", "auxSup", "atCid", "denuncia", "revisao", "instrucoes", "entrevistas", "devolucoes", "ban", "telagem", "ticketSS"]

  const Tier := Staff.Tier("ADM", true, Counters, false)

  /** The column list of this tier's INSERT in the import. */
  const ImportList: seq<string> := ["nome", "cargo", "situacao", "premio", "horas", "atSup", "auxSup", "atCid", "denuncia", "revisao", "instrucoes", "entrevistas", "devolucoes", "ban", "telagem", "ticketSS"]

  /** The allow-list is the column list the POST handler inserts. */
  lemma ColumnsAre()
    ensures Staff.Columns(Tier) == Allowed
  {
  }

  /** The import inserts exactly the listed columns, in the listed order. */
  lemma ImportColumnsAre()
    ensures Staff.ImportColumns(Tier) == ImportList
  {
  }

  /** POST /api/admins: the inserted row has exactly the allow-listed columns. */
  lemma CreateColumns(body: map<string, Value>)
    requires !Falsy(Get(body, "nome")) && Staff.PostBindable(Tier, body)
    ensures var row := Staff.NewRow(Tier, body);
      && (forall c | c in row :: c in Allowed)
      && (forall c | c in Allowed :: c in row)
  {
    ColumnsAre();
  }

  /** POST /api/admins: `nome` as given, `cargo || 'ADM'`, `situacao ||
      '✳️MANTÉM'`, `discord_id || ''`, `premio || 'NÃO'`. */
  lemma CreateDefaults(body: map<string, Value>)
    requires !Falsy(Get(body, "nome")) && Staff.PostBindable(Tier, body)
    ensures var row := Staff.NewRow(Tier, body);
      && "nome" in row && row["nome"] == Get(body, "nome")
      && "cargo" in row && row["cargo"] == Or(Get(body, "cargo"), Str("ADM"))
      && "situacao" in row && row["situacao"] == Or(Get(body, "situacao"), Str(Staff.MANTEM))
      && "discord_id" in row && row["discord_id"] == Or(Get(body, "discord_id"), Str(""))
      && "premio" in row && row["premio"] == Or(Get(body, "premio"), Str(Staff.NAO))
  {
    ColumnsAre();
    Staff.PostedValues(Tier, body);
    assert "nome" in Staff.Columns(Tier) && "cargo" in Staff.Columns(Tier);
    assert "situacao" in Staff.Columns(Tier) && "discord_id" in Staff.Columns(Tier);
    assert "premio" in Staff.Columns(Tier);
  }

  /** No counter is one of the columns with a non-zero default. */
  lemma CountersUnnamed()
    ensures forall c | c in Counters :: c !in Staff.Named
  {
  }

  /** POST /api/admins: every counter is `body[c] || 0`. */
  lemma CreateCounters(body: map<string, Value>)
    requires !Falsy(Get(body, "nome")) && Staff.PostBindable(Tier, body)
    ensures var row := Staff.NewRow(Tier, body);
      forall c | c in Counters :: c in row && row[c] == Or(Get(body, c), Num(0))
  {
    CountersUnnamed();
    forall c | c in Counters
      ensures c in Staff.NewRow(Tier, body) && Staff.NewRow(Tier, body)[c] == Or(Get(body, c), Num(0))
    {
      Staff.NewRowCounter(Tier, body, c);
    }
  }

  /** PATCH /api/admins/:id: 400 exactly when no body key is on the route
      file's allow-list; on success each allow-listed body key is written as
      given and every other column keeps its value. */
  lemma PatchAllowList(t: Staff.Table, id: int, body: map<string, Value>)
    requires Staff.Valid(Tier, t)
    ensures var r := Staff.Patch(Tier, t, id, body);
      && (r.status == BAD_REQUEST <==> id in t.rows && forall k | k in body :: k !in Allowed)
      && (r.status == OK ==>
            && id in r.state.rows
            && (forall c | c in body && c in Allowed :: Bindable(body[c]) && r.state.rows[id][c] == Stored(body[c]))
            && (forall c | c in t.rows[id] && c !in body :: r.state.rows[id][c] == t.rows[id][c]))
  {
    ColumnsAre();
  }
}
