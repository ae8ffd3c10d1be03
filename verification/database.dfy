/** Start-up work of database/database.js: the column migrations of
    `initializeDatabase`, and the default goals `seedMetas` and `seedMetasSPV`
    write. */
module Database {
  import opened Js
  import Metas

  // ---------------------------------------------------------------------
  // Column migrations

  /** The column names of each table, by table name, as `PRAGMA table_info`
      reports them. A table that is not in the map does not exist. */
  type Schema = map<string, set<string>>

  /** The tables that get a `discord_id` column, in the order they are migrated. */
  const TierTables: seq<string> := ["estagiarios", "suportes", "moderadores", "admins", "supervisores"]

  /** One guarded `ALTER TABLE … ADD COLUMN`: nothing when the column is
      already listed; for a table that does not exist the ALTER throws, the
      error is logged and caught, and nothing changes. */
  function AddColumn(s: Schema, table: string, column: string): (r: Schema)
    ensures r.Keys == s.Keys
    ensures table in s ==> column in r[table]
    ensures forall t | t in s :: s[t] <= r[t]
    ensures forall t | t in s && t != table :: r[t] == s[t]
    ensures forall t | t in s :: r[t] - s[t] <= {column}
  {
    if table !in s || column in s[table] then s else s[table := s[table] + {column}]
  }

  /** The `discord_id` loop: each table in turn, a failure on one not stopping the rest. */
  function AddToEach(s: Schema, tables: seq<string>, column: string): (r: Schema)
    ensures r.Keys == s.Keys
    ensures forall t | t in tables && t in s :: column in r[t]
    ensures forall t | t in s :: s[t] <= r[t]
    ensures forall t | t in s && t !in tables :: r[t] == s[t]
    ensures forall t | t in s :: r[t] - s[t] <= {column}
    decreases |tables|
  {
    if tables == [] then s
    else AddToEach(AddColumn(s, tables[0], column), tables[1..], column)
  }

  /** The migrations of `initializeDatabase`: `discord_id` on the five tier
      tables, then `premio` on `suportes`. */
  function Migrate(s: Schema): Schema {
    AddColumn(AddToEach(s, TierTables, "discord_id"), "suportes", "premio")
  }

  /** After the migrations every existing tier table has `discord_id`, and
      `suportes` has `premio`; a table that does not exist stays absent and
      does not keep the others from being migrated. */
  lemma MigrateAdds(s: Schema)
    ensures Migrate(s).Keys == s.Keys
    ensures forall t | t in TierTables && t in s :: "discord_id" in Migrate(s)[t]
    ensures "suportes" in s ==> "premio" in Migrate(s)["suportes"]
  {
  }

  /** The migrations only add columns: no column disappears, the only new
      columns are `discord_id` on the tier tables and `premio` on `suportes`,
      and every other table is untouched. */
  lemma MigrateOnlyAdds(s: Schema)
    ensures forall t | t in s :: s[t] <= Migrate(s)[t]
    ensures forall t | t in s && t != "suportes" :: Migrate(s)[t] - s[t] <= {"discord_id"}
    ensures "suportes" in s ==> Migrate(s)["suportes"] - s["suportes"] <= {"discord_id", "premio"}
    ensures forall t | t in s && t !in TierTables :: Migrate(s)[t] == s[t]
  {
    var mid := AddToEach(s, TierTables, "discord_id");
    assert forall t | t in s :: Migrate(s)[t] - s[t] <= (mid[t] - s[t]) + (Migrate(s)[t] - mid[t]);
  }

  /** Adding a column a table already has changes nothing. */
  lemma AddColumnPresent(s: Schema, table: string, column: string)
    requires table !in s || column in s[table]
    ensures AddColumn(s, table, column) == s
  {
  }

  /** The loop changes nothing when every existing table already has the column. */
  lemma {:induction false} AddToEachPresent(s: Schema, tables: seq<string>, column: string)
    requires forall t | t in tables && t in s :: column in s[t]
    ensures AddToEach(s, tables, column) == s
    decreases |tables|
  {
    if tables != [] {
      AddColumnPresent(s, tables[0], column);
      assert forall t | t in tables[1..] :: t in tables;
      AddToEachPresent(s, tables[1..], column);
    }
  }

  /** Running the migrations a second time changes nothing. */
  lemma MigrateIdempotent(s: Schema)
    ensures Migrate(Migrate(s)) == Migrate(s)
  {
    var m := Migrate(s);
    MigrateAdds(s);
    AddToEachPresent(m, TierTables, "discord_id");
    AddColumnPresent(m, "suportes", "premio");
  }

  // ---------------------------------------------------------------------
  // Default goals

  function G(promocao: int, premiacao: int): Metas.Goal {
    Metas.Goal(Num(promocao), Num(premiacao))
  }

  const Est: map<string, Metas.Goal> := map[
    "HORAS" := G(50, 100),
    "AT.SUPORTE" := G(300, 400),
    "CHAT DUVIDAS" := G(50, 100),
    "AT.CIDADE" := G(300, 400),
    "AULAS" := G(1, 4),
    "BAN HACK" := G(0, 40)]

  const Sup: map<string, Metas.Goal> := map[
    "HORAS" := G(90, 150),
    "AT.SUPORTE" := G(300, 400),
    "AUX.SUPORTE" := G(150, 250),
    "AT.CIDADE" := G(300, 500),
    "TCKT DENUNCIA" := G(120, 200),
    "AULAS" := G(1, 8),
    "BAN HACK" := G(10, 30)]

  const Mod: map<string, Metas.Goal> := map[
    "HORAS" := G(100, 180),
    "AT.SUPORTE" := G(60, 150),
    "AUX.SUPORTE" := G(150, 250),
    "AT.CIDADE" := G(200, 400),
    "TCKT DENUNCIA" := G(80, 150),
    "TCKT REVISÃO" := G(100, 200),
    "INSTRUÇÕES" := G(5, 10)]

  const Adm: map<string, Metas.Goal> := map[
    "HORAS" := G(120, 200),
    "AT.SUPORTE" := G(60, 150),
    "AUX.SUPORTE" := G(200, 300),
    "AT.CIDADE" := G(100, 200),
    "TCKT DENUNCIA" := G(80, 150),
    "TCKT REVISÃO" := G(100, 200),
    "INSTRUÇÕES" := G(5, 10)]

  /** The supervisor goals; `seedMetas` and `seedMetasSPV` spell out the same values. */
  const Spv: map<string, Metas.Goal> := map[
    "HORAS" := G(50, 100),
    "AT.SUPORTE" := G(30, 60),
    "AUX.SUPORTE" := G(50, 100),
    "AT.CIDADE" := G(50, 100),
    "TCKT DENUNCIA" := G(20, 50),
    "TCKT REVISÃO" := G(50, 100),
    "INSTRUÇÕES" := G(0, 5)]

  /** The default matrix `seedMetas` inserts, by cargo and metrica. */
  const Matrix: Metas.Nested := map["EST" := Est, "SUP" := Sup, "MOD" := Mod, "ADM" := Adm, "SPV" := Spv]

  /** The default matrix as rows. */
  function Defaults(): Metas.Goals {
    Metas.Flatten(Matrix)
  }

  /** `seedMetas`: nothing when the table has a row, otherwise the default matrix. */
  function SeedMetas(g: Metas.Goals): Metas.Goals {
    if |g| > 0 then g else Defaults()
  }

  /** Some row has cargo 'SPV'. */
  predicate HasSpv(g: Metas.Goals) {
    exists k | k in g :: k.cargo == "SPV"
  }

  /** The supervisor rows `seedMetasSPV` inserts. */
  function SpvRows(): Metas.Goals {
    Metas.Flatten(map["SPV" := Spv])
  }

  /** `seedMetasSPV`: nothing when some row has cargo 'SPV', otherwise the
      seven supervisor rows are added. */
  function SeedMetasSpv(g: Metas.Goals): Metas.Goals {
    if HasSpv(g) then g else g + SpvRows()
  }

  /** What start-up does to the goals: `seedMetas`, then `seedMetasSPV`. */
  function Startup(g: Metas.Goals): Metas.Goals {
    SeedMetasSpv(SeedMetas(g))
  }

  /** Grouped, the seeded rows are exactly the default matrix, so a GET
      /api/metas right after seeding an empty table answers that matrix. */
  lemma DefaultsGroup()
    ensures Metas.Group(Defaults()) == Matrix
  {
    assert forall c | c in Matrix :: "HORAS" in Matrix[c];
    Metas.GroupFlatten(Matrix);
  }

  /** `seedMetas` leaves a non-empty table alone. */
  lemma SeedMetasKeeps(g: Metas.Goals)
    requires |g| > 0
    ensures SeedMetas(g) == g
  {
  }

  /** The supervisor rows are the supervisor matrix, and nothing else. */
  lemma SpvRowsAre()
    ensures forall k | k in SpvRows() :: k.cargo == "SPV"
    ensures Metas.Slice(SpvRows(), "SPV") == Spv
  {
    Metas.SliceFlatten(map["SPV" := Spv], "SPV");
  }

  /** The supervisor rows include the hours goal. */
  lemma SpvRowsHoras()
    ensures Metas.Key("SPV", "HORAS") in SpvRows()
  {
    SpvRowsAre();
    assert "HORAS" in Spv;
  }

  /** Without supervisor rows in `g`, the supervisor slice of `g` plus the
      supervisor rows is the supervisor matrix. */
  lemma SpvSliceAdded(g: Metas.Goals)
    requires !HasSpv(g)
    ensures Metas.Slice(g + SpvRows(), "SPV") == Spv
  {
    SpvRowsAre();
    Metas.SliceMergeOther(g, SpvRows(), "SPV");
  }

  /** `seedMetasSPV` changes nothing exactly when some row has cargo 'SPV';
      otherwise it adds exactly the seven supervisor rows and leaves every
      other row as it was. */
  lemma SeedMetasSpvEffect(g: Metas.Goals)
    ensures SeedMetasSpv(g) == g <==> HasSpv(g)
    ensures !HasSpv(g) ==>
      && (forall k | k in g :: k in SeedMetasSpv(g) && SeedMetasSpv(g)[k] == g[k])
      && Metas.Slice(SeedMetasSpv(g), "SPV") == Spv
      && (forall k | k in SeedMetasSpv(g) && k.cargo != "SPV" :: k in g)
  {
    if !HasSpv(g) {
      var h := SpvRows();
      SpvRowsAre();
      SpvRowsHoras();
      SpvSliceAdded(g);
      Metas.MergeOtherRows(g, h, "SPV");
      assert Metas.Key("SPV", "HORAS") !in g;
      assert Metas.Key("SPV", "HORAS") in g + h;
    }
  }

  /** On an empty table start-up writes the default matrix, and the
      supervisor step finds its rows already there. */
  lemma StartupOnEmpty()
    ensures HasSpv(Defaults())
    ensures Startup(map[]) == Defaults()
  {
    DefaultsHoras();
    assert HasSpv(Defaults());
    assert SeedMetas(map[]) == Defaults();
  }

  /** The default matrix includes the supervisors' hours goal. */
  lemma DefaultsHoras()
    ensures Metas.Key("SPV", "HORAS") in Defaults()
  {
    assert "SPV" in Matrix && Matrix["SPV"] == Spv;
    assert "HORAS" in Spv;
  }

  /** Start-up leaves the table with at least one row and with supervisor rows. */
  lemma StartupSeeds(g: Metas.Goals)
    ensures |Startup(g)| > 0 && HasSpv(Startup(g))
  {
    StartupOnEmpty();
    if !HasSpv(SeedMetas(g)) {
      SpvRowsHoras();
      assert Metas.Key("SPV", "HORAS") in Startup(g);
    }
  }

  /** Running start-up a second time changes nothing. */
  lemma StartupIdempotent(g: Metas.Goals)
    ensures Startup(Startup(g)) == Startup(g)
  {
    StartupSeeds(g);
  }

  /** Start-up never changes or removes a row that was there. */
  lemma StartupKeepsRows(g: Metas.Goals)
    ensures forall k | k in g :: k in Startup(g) && Startup(g)[k] == g[k]
  {
    if |g| > 0 && !HasSpv(g) {
      SeedMetasSpvEffect(g);
    }
  }
}
