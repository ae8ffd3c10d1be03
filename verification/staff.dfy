/** The handlers every staff-tier route file repeats — get by id, create,
    patch, delete — written once over a tier descriptor. The five route files
    differ only in the default `cargo`, whether rows carry `premio`, and the
    counter columns; each has its own module that instantiates this one. */
module Staff {
  import opened Js
  import opened Sql
  import opened Http
  import Listing

  /** The columns of one row; `id` is the table's key, not a field. */
  type Fields = map<string, Value>

  /** A route file in data: the default `cargo`, whether rows carry `premio`,
      the counter columns in insert order, and whether import writes a falsy
      `premio` as 'NÃO' (only the support block of the import does). */
  datatype Tier = Tier(code: string, hasPremio: bool, counters: seq<string>, importDefaultsPremio: bool)

  /** '✳️MANTÉM', the default `situacao`. */
  const MANTEM := "\U{2733}\U{FE0F}MANT\U{00C9}M"

  /** 'NÃO', the default `premio`. */
  const NAO := "N\U{00C3}O"

  /** The columns POST inserts, which are also the PATCH allow-list. */
  function Columns(tier: Tier): seq<string> {
    ["nome", "cargo", "situacao", "discord_id"] + (if tier.hasPremio then ["premio"] else []) + tier.counters
  }

  /** The columns the import's INSERT lists: every column but `discord_id`,
      which is left to its column default. */
  function ImportColumns(tier: Tier): (r: seq<string>)
    ensures forall c | c in r :: c in Columns(tier)
    ensures forall c | c in Columns(tier) && c != "discord_id" :: c in r
  {
    ["nome", "cargo", "situacao"] + (if tier.hasPremio then ["premio"] else []) + tier.counters
  }

  /** What POST writes to column `c` when the body's value is falsy. */
  function Default(tier: Tier, c: string): Value {
    if c == "cargo" then Str(tier.code)
    else if c == "situacao" then Str(MANTEM)
    else if c == "discord_id" then Str("")
    else if c == "premio" then Str(NAO)
    else Num(0)
  }

  /** The parameter POST binds for column `c`: `nome` as given, every other
      column `body[c] || default`. */
  function Posted(tier: Tier, body: map<string, Value>, c: string): Value {
    if c == "nome" then Get(body, "nome") else Or(Get(body, c), Default(tier, c))
  }

  /** The columns whose default is not 0. */
  const Named: seq<string> := ["nome", "cargo", "situacao", "discord_id", "premio"]

  /** Unfolds `Posted` column by column. */
  lemma PostedValues(tier: Tier, body: map<string, Value>)
    ensures Posted(tier, body, "nome") == Get(body, "nome")
    ensures Posted(tier, body, "cargo") == Or(Get(body, "cargo"), Str(tier.code))
    ensures Posted(tier, body, "situacao") == Or(Get(body, "situacao"), Str(MANTEM))
    ensures Posted(tier, body, "discord_id") == Or(Get(body, "discord_id"), Str(""))
    ensures Posted(tier, body, "premio") == Or(Get(body, "premio"), Str(NAO))
    ensures forall c | c in tier.counters && c !in Named :: Posted(tier, body, c) == Or(Get(body, c), Num(0))
  {
  }

  /** POST binds every column without error. */
  predicate PostBindable(tier: Tier, body: map<string, Value>) {
    forall c | c in Columns(tier) :: Bindable(Posted(tier, body, c))
  }

  /** The row POST inserts. */
  function NewRow(tier: Tier, body: map<string, Value>): Fields
    requires PostBindable(tier, body)
  {
    map c | c in Columns(tier) :: Stored(Posted(tier, body, c))
  }

  /** A counter column of the inserted row is `body[c] || 0`. */
  lemma NewRowCounter(tier: Tier, body: map<string, Value>, c: string)
    requires PostBindable(tier, body)
    requires c in tier.counters && c !in Named
    ensures c in NewRow(tier, body) && NewRow(tier, body)[c] == Or(Get(body, c), Num(0))
  {
    assert c in Columns(tier);
  }

  /** A tier's table: rows by id, and the largest id ever handed out. */
  datatype Table = Table(rows: map<int, Fields>, lastId: nat)

  /** A row holds exactly the tier's columns, each with a storable value. */
  ghost predicate IsRow(tier: Tier, f: Fields) {
    && (forall c | c in f :: c in Columns(tier) && Storable(f[c]))
    && (forall c | c in Columns(tier) :: c in f)
  }

  /** Every id is positive and at most the high-water mark, and every row is a row of the tier. */
  ghost predicate Valid(tier: Tier, t: Table) {
    forall id | id in t.rows :: 1 <= id <= t.lastId && IsRow(tier, t.rows[id])
  }

  /** `INSERT` of one row: it gets the next id. */
  function Insert(t: Table, f: Fields): Table {
    Table(t.rows[t.lastId + 1 := f], t.lastId + 1)
  }

  /** GET /: every row with its id, once each. */
  method All(t: Table) returns (rows: seq<(int, Fields)>)
    ensures Listing.IsListing(t.rows, rows)
    ensures |rows| == |t.rows|
  {
    rows := Listing.List(t.rows);
  }

  /** GET /:id */
  function Fetch(t: Table, id: int): (r: Answer<Table, Fields>)
    ensures r.state == t
    ensures r.status == OK <==> id in t.rows
    ensures r.status == NOT_FOUND <==> id !in t.rows
    ensures r.data.Some? ==> id in t.rows && r.data.value == t.rows[id]
    ensures r.status == OK ==> r.data == Some(t.rows[id])
  {
    if id in t.rows then Answer(OK, t, Some(t.rows[id])) else Answer(NOT_FOUND, t, None)
  }

  /** POST /: 400 without a truthy `nome`, 500 when a parameter cannot be
      bound, otherwise a new row under a fresh id holding the given values with
      the tier's defaults for the falsy ones. */
  function Create(tier: Tier, t: Table, body: map<string, Value>): (r: Answer<Table, int>)
    requires Valid(tier, t)
    ensures r.status == BAD_REQUEST <==> Falsy(Get(body, "nome"))
    ensures r.status == SERVER_ERROR <==> !Falsy(Get(body, "nome")) && !PostBindable(tier, body)
    ensures r.status == CREATED || r.status == BAD_REQUEST || r.status == SERVER_ERROR
    ensures r.status != CREATED ==> r.state == t && r.data == None
    ensures r.status == CREATED ==>
      && r.data.Some?
      && r.data.value !in t.rows
      && r.state.rows.Keys == t.rows.Keys + {r.data.value}
      && (forall id | id in t.rows :: r.state.rows[id] == t.rows[id])
      && (forall c | c in r.state.rows[r.data.value] :: c in Columns(tier))
      && (forall c | c in Columns(tier) :: c in r.state.rows[r.data.value]
            && r.state.rows[r.data.value][c] == Posted(tier, body, c))
      && PostBindable(tier, body)
      && r.state.rows[r.data.value] == NewRow(tier, body)
  {
    if Falsy(Get(body, "nome")) then Answer(BAD_REQUEST, t, None)
    else if !PostBindable(tier, body) then Answer(SERVER_ERROR, t, None)
    else
      var t' := Insert(t, NewRow(tier, body));
      Answer(CREATED, t', Some(t'.lastId))
  }

  /** PATCH /:id: 404 for an absent id, 400 when no body key is on the
      allow-list, 500 when a kept value cannot be bound, otherwise the kept
      keys are written verbatim and the updated row is returned. */
  function Patch(tier: Tier, t: Table, id: int, body: map<string, Value>): (r: Answer<Table, Fields>)
    requires Valid(tier, t)
    ensures r.status == NOT_FOUND <==> id !in t.rows
    ensures r.status == BAD_REQUEST <==> id in t.rows && forall k | k in body :: k !in Columns(tier)
    ensures r.status == SERVER_ERROR <==>
      && id in t.rows
      && (exists k | k in body :: k in Columns(tier))
      && (exists k | k in body && k in Columns(tier) :: !Bindable(body[k]))
    ensures r.status in {OK, NOT_FOUND, BAD_REQUEST, SERVER_ERROR}
    ensures r.status != OK ==> r.state == t && r.data == None
    ensures r.status == OK ==>
      && id in t.rows
      && r.state.lastId == t.lastId
      && r.state.rows.Keys == t.rows.Keys
      && (forall j | j in t.rows && j != id :: r.state.rows[j] == t.rows[j])
      && r.data == Some(r.state.rows[id])
      && r.state.rows[id].Keys == t.rows[id].Keys
      && (forall c | c in t.rows[id] && c !in body :: r.state.rows[id][c] == t.rows[id][c])
      && (forall c | c in body && c in Columns(tier) ::
            Bindable(body[c]) && r.state.rows[id][c] == Stored(body[c]))
  {
    if id !in t.rows then Answer(NOT_FOUND, t, None)
    else if forall k | k in body :: k !in Columns(tier) then Answer(BAD_REQUEST, t, None)
    else if exists k | k in body && k in Columns(tier) :: !Bindable(body[k]) then Answer(SERVER_ERROR, t, None)
    else
      var row := Apply(t.rows[id], Kept(tier, body));
      Answer(OK, Replace(t, id, row), Some(row))
  }

  /** The table with row `id` replaced and every other row as it was. */
  function Replace(t: Table, id: int, row: Fields): (r: Table)
    requires id in t.rows
    ensures r.lastId == t.lastId && r.rows.Keys == t.rows.Keys
    ensures id in r.rows && r.rows[id] == row
    ensures forall j | j in t.rows && j != id :: r.rows[j] == t.rows[j]
  {
    t.(rows := t.rows[id := row])
  }

  /** The `UPDATE … SET k = ?, …` of the kept entries on one row. */
  function Apply(row: Fields, kept: map<string, Value>): (r: Fields)
    requires forall k | k in kept :: Bindable(kept[k])
    ensures r.Keys == row.Keys + kept.Keys
    ensures forall c | c in row && c !in kept :: r[c] == row[c]
    ensures forall c | c in kept :: r[c] == Stored(kept[c])
  {
    row + map k | k in kept :: Stored(kept[k])
  }

  /** The body entries PATCH keeps: `Object.keys(body).filter(k => allowed.includes(k))`. */
  function Kept(tier: Tier, body: map<string, Value>): (r: map<string, Value>)
    ensures forall k | k in r :: k in body && k in Columns(tier) && r[k] == body[k]
    ensures forall k | k in body && k in Columns(tier) :: k in r
  {
    map k | k in body && k in Columns(tier) :: body[k]
  }

  /** The allow-list filter: nothing is left exactly when no body key is
      allow-listed (the 400 case), filtering twice is filtering once, and
      the filter of a merged body is the merge of the filtered parts. */
  lemma KeptFilters(tier: Tier, a: map<string, Value>, b: map<string, Value>)
    ensures Kept(tier, a) == map[] <==> forall k | k in a :: k !in Columns(tier)
    ensures Kept(tier, Kept(tier, a)) == Kept(tier, a)
    ensures Kept(tier, a + b) == Kept(tier, a) + Kept(tier, b)
  {
    Listing.SameMap(Kept(tier, Kept(tier, a)), Kept(tier, a));
    Listing.SameMap(Kept(tier, a + b), Kept(tier, a) + Kept(tier, b));
  }

  /** DELETE /:id: 404 for an absent id, otherwise exactly that row goes. */
  function Delete(t: Table, id: int): (r: Answer<Table, ()>)
    ensures r.status == NOT_FOUND <==> id !in t.rows
    ensures r.status == OK <==> id in t.rows
    ensures r.status == NOT_FOUND ==> r.state == t
    ensures r.status == OK ==>
      && r.state.lastId == t.lastId
      && r.state.rows.Keys == t.rows.Keys - {id}
      && (forall j | j in r.state.rows :: r.state.rows[j] == t.rows[j])
  {
    if id !in t.rows then Answer(NOT_FOUND, t, None)
    else Answer(OK, t.(rows := t.rows - {id}), None)
  }

  /** Every handler keeps a table valid. */
  lemma HandlersKeepValid(tier: Tier, t: Table, id: int, body: map<string, Value>)
    requires Valid(tier, t)
    ensures Valid(tier, Create(tier, t, body).state)
    ensures Valid(tier, Patch(tier, t, id, body).state)
    ensures Valid(tier, Delete(t, id).state)
  {
    CreateKeepsValid(tier, t, body);
    PatchKeepsValid(tier, t, id, body);
  }

  lemma CreateKeepsValid(tier: Tier, t: Table, body: map<string, Value>)
    requires Valid(tier, t)
    ensures Valid(tier, Create(tier, t, body).state)
  {
  }

  lemma PatchKeepsValid(tier: Tier, t: Table, id: int, body: map<string, Value>)
    requires Valid(tier, t)
    ensures Valid(tier, Patch(tier, t, id, body).state)
  {
  }

  /** A created row reads back with the given values and the defaults. */
  lemma CreateThenFetch(tier: Tier, t: Table, body: map<string, Value>)
    requires Valid(tier, t)
    requires Create(tier, t, body).status == CREATED
    ensures var r := Create(tier, t, body);
      var g := Fetch(r.state, r.data.value);
      && g.status == OK
      && g.data.Some?
      && forall c | c in Columns(tier) :: c in g.data.value && g.data.value[c] == Posted(tier, body, c)
  {
  }

  /** After a delete the id reads as absent. */
  lemma DeleteThenFetch(t: Table, id: int)
    ensures Fetch(Delete(t, id).state, id).status == NOT_FOUND
  {
  }

  /** Patching with the same body twice leaves the table as patching once. */
  lemma PatchIdempotent(tier: Tier, t: Table, id: int, body: map<string, Value>)
    requires Valid(tier, t)
    requires Patch(tier, t, id, body).status == OK
    ensures var t' := Patch(tier, t, id, body).state;
      Patch(tier, t', id, body).status == OK && Patch(tier, t', id, body).state == t'
  {
    var t' := Patch(tier, t, id, body).state;
    var kept := Kept(tier, body);
    var row := t'.rows[id];
    assert row == Apply(t.rows[id], kept);
    Listing.SameMap(Apply(row, kept), row);
    Listing.SameMap(Replace(t', id, row).rows, t'.rows);
  }

  /** Body keys off the allow-list are ignored: patching with them gives the
      same answer as patching with the allow-listed keys alone. */
  lemma PatchIgnoresUnlisted(tier: Tier, t: Table, id: int, body: map<string, Value>)
    requires Valid(tier, t)
    ensures Patch(tier, t, id, body) == Patch(tier, t, id, Kept(tier, body))
  {
    var kept := Kept(tier, body);
    assert Kept(tier, kept) == kept;
    assert (forall k | k in body :: k !in Columns(tier)) <==> (forall k | k in kept :: k !in Columns(tier));
  }
}
