/** The goals table, routes/metas.js: one row per (cargo, metrica) pair with
    the promotion and reward thresholds, served both flat and regrouped as
    `cargo → metrica → {promocao, premiacao}`. */
module Metas {
  import opened Js
  import opened Sql
  import opened Http
  import Listing

  /** The table's composite key. */
  datatype Key = Key(cargo: string, metrica: string)

  /** The two thresholds of one goal. */
  datatype Goal = Goal(promocao: Value, premiacao: Value)

  /** The `metas` table. */
  type Goals = map<Key, Goal>

  /** The nested shape the handlers answer with: cargo, then metrica. */
  type Nested = map<string, map<string, Goal>>

  /** Every threshold holds a value a column can hold. */
  ghost predicate Valid(g: Goals) {
    forall k | k in g :: Storable(g[k].promocao) && Storable(g[k].premiacao)
  }

  /** `v || 0`, what every upsert writes for a threshold. */
  function OrZero(v: Value): (r: Value)
    ensures !Falsy(v) ==> r == v
    ensures Falsy(v) ==> r == Num(0)
    ensures r != Undefined
  {
    Or(v, Num(0))
  }

  /** The nested shape read back as rows. */
  function Flatten(n: Nested): (r: Goals)
    ensures forall k | k in r :: k.cargo in n && k.metrica in n[k.cargo] && r[k] == n[k.cargo][k.metrica]
    ensures forall c, m | c in n && m in n[c] :: Key(c, m) in r
  {
    map c, m | c in n && m in n[c] :: Key(c, m) := n[c][m]
  }

  /** The cargos that have at least one row. */
  function Cargos(g: Goals): set<string> {
    set k | k in g :: k.cargo
  }

  /** One cargo's rows, by metrica. */
  function Slice(g: Goals, c: string): (r: map<string, Goal>)
    ensures forall m | m in r :: Key(c, m) in g && r[m] == g[Key(c, m)]
    ensures forall k | k in g && k.cargo == c :: k.metrica in r
  {
    map k | k in g && k.cargo == c :: k.metrica := g[k]
  }

  /** The rows grouped by cargo: a cargo appears exactly when it has a row,
      and its entry holds exactly its rows. */
  function Group(g: Goals): (r: Nested)
    ensures forall k | k in g :: k.cargo in r
    ensures forall c | c in r :: r[c] == Slice(g, c) && r[c] != map[]
  {
    map c | c in Cargos(g) :: Slice(g, c)
  }

  /** A map that agrees with `b` off `c0`, holds `e` at `c0` and has `b`'s
      keys plus `c0` is `b` with `c0` set to `e`. */
  lemma SameUpdate<K, V>(a: map<K, V>, b: map<K, V>, c0: K, e: V)
    requires a.Keys == b.Keys + {c0}
    requires c0 in a && a[c0] == e
    requires forall c | c in a && c != c0 :: c in b && a[c] == b[c]
    ensures a == b[c0 := e]
  {
    Listing.SameMap(a, b[c0 := e]);
  }

  /** Flattening, one cargo's rows are that cargo's entry. */
  lemma SliceFlatten(n: Nested, c: string)
    requires c in n
    ensures Slice(Flatten(n), c) == n[c]
  {
    var sl := Slice(Flatten(n), c);
    forall m | m in n[c]
      ensures m in sl
    {
      assert Key(c, m) in Flatten(n);
    }
    Listing.SameMap(sl, n[c]);
  }

  /** Flattening, the cargos with a row are those with a non-empty entry. */
  lemma FlattenCargos(n: Nested)
    requires forall c | c in n :: n[c] != map[]
    ensures Cargos(Flatten(n)) == n.Keys
  {
    forall c | c in n
      ensures c in Cargos(Flatten(n))
    {
      var m :| m in n[c];
      assert Key(c, m) in Flatten(n);
    }
  }

  /** Merging in rows over a cargo `g` has no row for, that cargo's rows are the merged ones. */
  lemma SliceMergeOther(g: Goals, h: Goals, c: string)
    requires forall k | k in g :: k.cargo != c
    ensures Slice(g + h, c) == Slice(h, c)
  {
    var a := Slice(g + h, c);
    forall m | m in a
      ensures m in Slice(h, c)
    {
      assert Key(c, m) in h;
    }
    Listing.SameMap(a, Slice(h, c));
  }

  /** Merging in rows of cargo `c` only, over rows of other cargos, keeps every
      old row and adds no row of another cargo. */
  lemma MergeOtherRows(g: Goals, h: Goals, c: string)
    requires forall k | k in g :: k.cargo != c
    requires forall k | k in h :: k.cargo == c
    ensures forall k | k in g :: k in g + h && (g + h)[k] == g[k]
    ensures forall k | k in g + h && k.cargo != c :: k in g
  {
  }

  /** One cargo's group of the flattened rows is its entry. */
  lemma GroupFlattenEntry(n: Nested, c: string)
    requires c in n && n[c] != map[]
    ensures c in Group(Flatten(n)) && Group(Flatten(n))[c] == n[c]
  {
    var m :| m in n[c];
    assert Key(c, m) in Flatten(n);
    SliceFlatten(n, c);
  }

  /** Grouping undoes flattening when no cargo's entry is empty. */
  lemma GroupFlatten(n: Nested)
    requires forall c | c in n :: n[c] != map[]
    ensures Group(Flatten(n)) == n
  {
    var a := Group(Flatten(n));
    GroupFlattenKeys(n);
    forall c | c in a
      ensures a[c] == n[c]
    {
      GroupFlattenEntry(n, c);
    }
    Listing.SameMap(a, n);
  }

  /** Grouping the flattened shape gives back its cargos when no entry is empty. */
  lemma GroupFlattenKeys(n: Nested)
    requires forall c | c in n :: n[c] != map[]
    ensures Group(Flatten(n)).Keys == n.Keys
  {
    FlattenCargos(n);
  }


  /** Every row can be found in the grouping under its cargo and metrica. */
  lemma GroupKeepsRows(g: Goals)
    ensures forall k | k in g :: k in Flatten(Group(g)) && Flatten(Group(g))[k] == g[k]
  {
    var n := Group(g);
    forall k | k in g
      ensures k in Flatten(n) && Flatten(n)[k] == g[k]
    {
      var c, m := k.cargo, k.metrica;
      assert k == Key(c, m);
      assert c in n && n[c] == Slice(g, c);
      assert m in n[c];
    }
  }

  /** The grouping holds nothing that is not a row. */
  lemma GroupAddsNothing(g: Goals)
    ensures forall k | k in Flatten(Group(g)) :: k in g
  {
    var n := Group(g);
    forall k | k in Flatten(n)
      ensures k in g
    {
      var c, m := k.cargo, k.metrica;
      assert k == Key(c, m);
      assert c in n && m in n[c];
      assert n[c] == Slice(g, c);
    }
  }

  /** Grouping is lossless, because (cargo, metrica) is the key: the rows can
      be read back from the nested shape. */
  lemma GroupLossless(g: Goals)
    ensures Flatten(Group(g)) == g
  {
    GroupKeepsRows(g);
    GroupAddsNothing(g);
    Listing.SameMap(Flatten(Group(g)), g);
  }

  /** Writing a row changes its cargo's slice by that one metrica. */
  lemma SliceUpdateSame(g: Goals, k: Key, v: Goal)
    ensures Slice(g[k := v], k.cargo) == Slice(g, k.cargo)[k.metrica := v]
  {
    var a := Slice(g[k := v], k.cargo);
    var b := Slice(g, k.cargo)[k.metrica := v];
    forall m | m in b
      ensures m in a
    {
      if m != k.metrica {
        assert Key(k.cargo, m) in g;
      }
    }
    Listing.SameMap(a, b);
  }

  /** Writing a row leaves the other cargos' slices alone. */
  lemma SliceUpdateOther(g: Goals, k: Key, v: Goal, c: string)
    requires c != k.cargo
    ensures Slice(g[k := v], c) == Slice(g, c)
  {
    Listing.SameMap(Slice(g[k := v], c), Slice(g, c));
  }

  /** A cargo's slice is its grouping entry, or empty when it has no row. */
  lemma SliceIsEntry(g: Goals, c: string)
    ensures Slice(g, c) == (if c in Group(g) then Group(g)[c] else map[])
  {
    if c !in Group(g) {
      var sl := Slice(g, c);
      assert forall j | j in g :: j.cargo != c;
      assert sl.Keys == {};
      Listing.SameMap(sl, map[]);
    }
  }

  /** Writing a row adds its cargo to the grouping's cargos. */
  lemma GroupUpdateCargos(g: Goals, k: Key, v: Goal)
    ensures Group(g[k := v]).Keys == Group(g).Keys + {k.cargo}
  {
    assert Cargos(g[k := v]) == Cargos(g) + {k.cargo};
  }

  /** The entries of the other cargos after the write. */
  lemma GroupUpdateRest(g: Goals, k: Key, v: Goal)
    ensures forall c | c in Group(g[k := v]) && c != k.cargo :: c in Group(g) && Group(g[k := v])[c] == Group(g)[c]
  {
    GroupUpdateCargos(g, k, v);
    forall c | c in Group(g[k := v]) && c != k.cargo
      ensures c in Group(g) && Group(g[k := v])[c] == Group(g)[c]
    {
      SliceUpdateOther(g, k, v, c);
    }
  }

  /** The grouping after writing one row differs only in that row's cargo,
      whose entry gains (or updates) that metrica. */
  lemma GroupUpdate(g: Goals, k: Key, v: Goal)
    ensures Group(g[k := v]) == Group(g)[k.cargo := Slice(g, k.cargo)[k.metrica := v]]
  {
    GroupUpdateCargos(g, k, v);
    GroupUpdateRest(g, k, v);
    SliceUpdateSame(g, k, v);
    SameUpdate(Group(g[k := v]), Group(g), k.cargo, Slice(g, k.cargo)[k.metrica := v]);
  }

  /** What the grouping loop does with one row: set its metrica in its
      cargo's entry, creating the entry on first sight of the cargo. */
  function AddRow(n: Nested, row: (Key, Goal)): Nested {
    var inner := if row.0.cargo in n then n[row.0.cargo] else map[];
    n[row.0.cargo := inner[row.0.metrica := row.1]]
  }

  /** The grouping loop's result on `rows`: each row added in turn. */
  function Grouped(rows: seq<(Key, Goal)>): Nested
    decreases |rows|
  {
    if rows == [] then map[] else AddRow(Grouped(rows[..|rows| - 1]), rows[|rows| - 1])
  }

  /** One step of the grouping loop: adding the next row to the grouping of
      the rows before it gives the grouping of one row more. */
  lemma GroupStep(rows: seq<(Key, Goal)>, i: nat)
    requires i < |rows|
    ensures AddRow(Group(Listing.Collect(rows[..i])), rows[i]) == Group(Listing.Collect(rows[..i + 1]))
  {
    var k, v := rows[i].0, rows[i].1;
    var seen := Listing.Collect(rows[..i]);
    Listing.CollectNext(rows, i);
    SliceIsEntry(seen, k.cargo);
    GroupUpdate(seen, k, v);
  }

  /** Adding the rows one by one, each overriding what an earlier row with
      the same key set, ends in the grouping of the map the rows spell out. */
  lemma {:induction false} GroupedIsGroup(rows: seq<(Key, Goal)>)
    ensures Grouped(rows) == Group(Listing.Collect(rows))
    decreases |rows|
  {
    if rows != [] {
      var i := |rows| - 1;
      GroupedIsGroup(rows[..i]);
      GroupStep(rows, i);
      assert rows[..i + 1] == rows;
    }
  }

  /** GET /api/metas and the metas part of the export: the `forEach` over the
      listed rows that creates a cargo's object on first sight and sets its
      metrica. The result is the grouping of the rows it was given. */
  method GroupRows(rows: seq<(Key, Goal)>) returns (n: Nested)
    ensures n == Group(Listing.Collect(rows))
  {
    n := map[];
    var i := 0;
    while i < |rows|
      invariant 0 <= i <= |rows|
      invariant n == Grouped(rows[..i])
    {
      assert rows[..i + 1][..i] == rows[..i];
      n := AddRow(n, rows[i]);
      i := i + 1;
    }
    assert rows[..i] == rows;
    GroupedIsGroup(rows);
  }

  /** GET /api/metas */
  method List(g: Goals) returns (r: Answer<Goals, Nested>)
    ensures r.status == OK && r.state == g
    ensures r.data == Some(Group(g))
    ensures Flatten(r.data.value) == g
    ensures forall c | c in r.data.value :: r.data.value[c] != map[]
  {
    var rows := Listing.List(g);
    var n := GroupRows(rows);
    Listing.CollectListing(g, rows);
    GroupLossless(g);
    r := Answer(OK, g, Some(n));
  }

  /** GET /api/metas/:cargo: 404 exactly when the cargo has no row, otherwise
      exactly that cargo's rows by metrica. */
  function ByCargo(g: Goals, cargo: string): (r: Answer<Goals, map<string, Goal>>)
    ensures r.state == g
    ensures r.status == NOT_FOUND <==> forall k | k in g :: k.cargo != cargo
    ensures r.status == OK <==> exists k | k in g :: k.cargo == cargo
    ensures r.status == OK ==>
      && r.data.Some?
      && (forall m | m in r.data.value :: Key(cargo, m) in g && r.data.value[m] == g[Key(cargo, m)])
      && (forall m | Key(cargo, m) in g :: m in r.data.value)
    ensures r.status == NOT_FOUND ==> r.data == None
  {
    var s := Slice(g, cargo);
    if s == map[] then Answer(NOT_FOUND, g, None)
    else
      assert exists m :: m in s;
      Answer(OK, g, Some(s))
  }

  /** GET by cargo answers the cargo's entry of the full grouping. */
  lemma ByCargoIsGroupEntry(g: Goals, cargo: string)
    ensures ByCargo(g, cargo).status == OK <==> cargo in Group(g)
    ensures cargo in Group(g) ==> ByCargo(g, cargo).data == Some(Group(g)[cargo])
  {
    if cargo in Group(g) {
      var m :| m in Group(g)[cargo];
      assert Key(cargo, m) in g;
    }
  }

  /** The key a bound (cargo, metrica) pair lands on. */
  function KeyOf(cargo: Value, metrica: Value): Option<Key> {
    match (KeyText(cargo), KeyText(metrica))
    case (Some(c), Some(m)) => Some(Key(c, m))
    case _ => None
  }

  /** POST /api/metas: 400 when `cargo` or `metrica` is falsy, 500 when a
      parameter cannot be bound, otherwise the pair is inserted or updated
      with `promocao || 0` and `premiacao || 0` and every other row is kept. */
  function Post(g: Goals, body: map<string, Value>): (r: Answer<Goals, ()>)
    ensures r.status == BAD_REQUEST <==> Falsy(Get(body, "cargo")) || Falsy(Get(body, "metrica"))
    ensures r.status == SERVER_ERROR <==>
      && !Falsy(Get(body, "cargo")) && !Falsy(Get(body, "metrica"))
      && !(Bindable(Get(body, "cargo")) && Bindable(Get(body, "metrica"))
           && Bindable(OrZero(Get(body, "promocao"))) && Bindable(OrZero(Get(body, "premiacao"))))
    ensures r.status in {CREATED, BAD_REQUEST, SERVER_ERROR}
    ensures r.status != CREATED ==> r.state == g
    ensures r.data == None
    ensures r.status == CREATED ==>
      && KeyOf(Get(body, "cargo"), Get(body, "metrica")).Some?
      && var k := KeyOf(Get(body, "cargo"), Get(body, "metrica")).value;
      && r.state.Keys == g.Keys + {k}
      && r.state[k] == Goal(OrZero(Get(body, "promocao")), OrZero(Get(body, "premiacao")))
      && (forall j | j in g && j != k :: r.state[j] == g[j])
  {
    var cargo := Get(body, "cargo");
    var metrica := Get(body, "metrica");
    var p := OrZero(Get(body, "promocao"));
    var q := OrZero(Get(body, "premiacao"));
    if Falsy(cargo) || Falsy(metrica) then Answer(BAD_REQUEST, g, None)
    else if !(Bindable(cargo) && Bindable(metrica) && Bindable(p) && Bindable(q)) then Answer(SERVER_ERROR, g, None)
    else Answer(CREATED, g[KeyOf(cargo, metrica).value := Goal(p, q)], None)
  }

  /** PATCH /api/metas/:cargo/:metrica: 404 for an absent pair, 400 when
      neither threshold is given, 500 when a given one cannot be bound,
      otherwise the given thresholds are written verbatim (no `|| 0`) and
      the other threshold and every other row are kept. */
  function Patch(g: Goals, cargo: string, metrica: string, body: map<string, Value>): (r: Answer<Goals, ()>)
    ensures r.status == NOT_FOUND <==> Key(cargo, metrica) !in g
    ensures r.status == BAD_REQUEST <==>
      Key(cargo, metrica) in g && Get(body, "promocao") == Undefined && Get(body, "premiacao") == Undefined
    ensures r.status == SERVER_ERROR <==>
      && Key(cargo, metrica) in g
      && (Get(body, "promocao") != Undefined || Get(body, "premiacao") != Undefined)
      && !(Bindable(Get(body, "promocao")) && Bindable(Get(body, "premiacao")))
    ensures r.status in {OK, NOT_FOUND, BAD_REQUEST, SERVER_ERROR}
    ensures r.status != OK ==> r.state == g
    ensures r.data == None
    ensures r.status == OK ==>
      && var k := Key(cargo, metrica);
      && k in g
      && r.state.Keys == g.Keys
      && (forall j | j in g && j != k :: r.state[j] == g[j])
      && r.state[k].promocao == (if Get(body, "promocao") == Undefined then g[k].promocao else Get(body, "promocao"))
      && r.state[k].premiacao == (if Get(body, "premiacao") == Undefined then g[k].premiacao else Get(body, "premiacao"))
  {
    var k := Key(cargo, metrica);
    var p := Get(body, "promocao");
    var q := Get(body, "premiacao");
    if k !in g then Answer(NOT_FOUND, g, None)
    else if p == Undefined && q == Undefined then Answer(BAD_REQUEST, g, None)
    else if !(Bindable(p) && Bindable(q)) then Answer(SERVER_ERROR, g, None)
    else
      var old_ := g[k];
      var row := Goal(if p == Undefined then old_.promocao else p, if q == Undefined then old_.premiacao else q);
      Answer(OK, g[k := row], None)
  }

  /** A metrica's thresholds as the bulk upsert reads them: `valores.promocao
      || 0` and `valores.premiacao || 0`; `None` when `valores` is null or
      undefined (the property read throws) or a threshold cannot be bound. */
  function GoalOf(valores: Value): (r: Option<Goal>)
    ensures r.Some? <==>
      && !valores.Null? && !valores.Undefined?
      && Bindable(OrZero(Prop(valores, "promocao").value)) && Bindable(OrZero(Prop(valores, "premiacao").value))
    ensures r.Some? ==> r.value == Goal(OrZero(Prop(valores, "promocao").value), OrZero(Prop(valores, "premiacao").value))
  {
    match (Prop(valores, "promocao"), Prop(valores, "premiacao"))
    case (Some(p), Some(q)) =>
      if Bindable(OrZero(p)) && Bindable(OrZero(q)) then Some(Goal(OrZero(p), OrZero(q))) else None
    case _ => None
  }

  /** Every cargo's value has entries and every metrica's value gives a goal. */
  predicate Readable(outer: map<string, Value>) {
    forall c | c in outer ::
      && Entries(outer[c]).Some?
      && forall m | m in Entries(outer[c]).value :: GoalOf(Entries(outer[c]).value[m]).Some?
  }

  /** The goals a readable nested document asks for. */
  function Requested(outer: map<string, Value>): (r: Nested)
    requires Readable(outer)
    ensures forall c | c in r :: c in outer
    ensures forall c | c in outer :: c in r && r[c].Keys == Entries(outer[c]).value.Keys
  {
    map c | c in outer ::
      var inner := Entries(outer[c]).value;
      map m | m in inner :: GoalOf(inner[m]).value
  }

  /** The rows the nested upsert loop of the bulk update (and of the import)
      writes for `body`: one per (cargo, metrica) entry, with `|| 0` applied;
      `None` when some step throws, which rolls the whole transaction back. */
  function Upserts(body: Value): (r: Option<Goals>)
    ensures r.Some? <==> Entries(body).Some? && Readable(Entries(body).value)
    ensures r.Some? ==>
      var outer := Entries(body).value;
      && (forall k | k in r.value :: k.cargo in outer && k.metrica in Entries(outer[k.cargo]).value
            && Some(r.value[k]) == GoalOf(Entries(outer[k.cargo]).value[k.metrica]))
      && (forall c, m | c in outer && m in Entries(outer[c]).value :: Key(c, m) in r.value)
  {
    match Entries(body)
    case None => None
    case Some(outer) => if Readable(outer) then Some(Flatten(Requested(outer))) else None
  }

  /** PUT /api/metas: 400 unless the body is a non-null object (an array
      passes), 500 when a step of the upsert throws (nothing is written),
      otherwise every requested (cargo, metrica) is upserted and every row
      not named in the body is kept. */
  function Put(g: Goals, body: Value): (r: Answer<Goals, ()>)
    ensures r.status == BAD_REQUEST <==> Falsy(body) || !IsObject(body)
    ensures r.status == SERVER_ERROR <==> !Falsy(body) && IsObject(body) && Upserts(body).None?
    ensures r.status in {OK, BAD_REQUEST, SERVER_ERROR}
    ensures r.status != OK ==> r.state == g
    ensures r.data == None
    ensures r.status == OK ==>
      && Upserts(body).Some?
      && var u := Upserts(body).value;
      && r.state.Keys == g.Keys + u.Keys
      && (forall k | k in u :: r.state[k] == u[k])
      && (forall k | k in g && k !in u :: r.state[k] == g[k])
  {
    if Falsy(body) || !IsObject(body) then Answer(BAD_REQUEST, g, None)
    else match Upserts(body)
      case None => Answer(SERVER_ERROR, g, None)
      case Some(u) => Answer(OK, g + u, None)
  }

  /** DELETE /api/metas/:cargo/:metrica: 404 for an absent pair, otherwise
      exactly that row goes. */
  function Delete(g: Goals, cargo: string, metrica: string): (r: Answer<Goals, ()>)
    ensures r.status == NOT_FOUND <==> Key(cargo, metrica) !in g
    ensures r.status == OK <==> Key(cargo, metrica) in g
    ensures r.status == NOT_FOUND ==> r.state == g
    ensures r.status == OK ==>
      && r.state.Keys == g.Keys - {Key(cargo, metrica)}
      && forall j | j in r.state :: r.state[j] == g[j]
  {
    if Key(cargo, metrica) !in g then Answer(NOT_FOUND, g, None)
    else Answer(OK, g - {Key(cargo, metrica)}, None)
  }

  /** Every handler keeps the table valid. */
  lemma HandlersKeepValid(g: Goals, cargo: string, metrica: string, body: map<string, Value>, bulk: Value)
    requires Valid(g)
    ensures Valid(Post(g, body).state)
    ensures Valid(Patch(g, cargo, metrica, body).state)
    ensures Valid(Put(g, bulk).state)
    ensures Valid(Delete(g, cargo, metrica).state)
  {
    PostKeepsValid(g, body);
    PatchKeepsValid(g, cargo, metrica, body);
    PutKeepsValid(g, bulk);
  }

  lemma PostKeepsValid(g: Goals, body: map<string, Value>)
    requires Valid(g)
    ensures Valid(Post(g, body).state)
  {
  }

  lemma PatchKeepsValid(g: Goals, cargo: string, metrica: string, body: map<string, Value>)
    requires Valid(g)
    ensures Valid(Patch(g, cargo, metrica, body).state)
  {
  }

  lemma PutKeepsValid(g: Goals, bulk: Value)
    requires Valid(g)
    ensures Valid(Put(g, bulk).state)
  {
  }

  /** A POST of one nonempty (cargo, metrica) pair with bindable thresholds
      writes that pair with `|| 0` applied. */
  lemma PostOne(g: Goals, cargo: string, metrica: string, p: Value, q: Value)
    requires cargo != "" && metrica != ""
    requires Bindable(OrZero(p)) && Bindable(OrZero(q))
    ensures var post := Post(g, map["cargo" := Str(cargo), "metrica" := Str(metrica), "promocao" := p, "premiacao" := q]);
      && post.status == CREATED
      && post.state == g[Key(cargo, metrica) := Goal(OrZero(p), OrZero(q))]
  {
    var body := map["cargo" := Str(cargo), "metrica" := Str(metrica), "promocao" := p, "premiacao" := q];
    assert Get(body, "cargo") == Str(cargo) && Get(body, "metrica") == Str(metrica);
    assert Get(body, "promocao") == p && Get(body, "premiacao") == q;
  }

  /** A nested shape with one cargo and one metrica flattens to one row. */
  lemma FlattenOne(cargo: string, metrica: string, x: Goal)
    ensures Flatten(map[cargo := map[metrica := x]]) == map[Key(cargo, metrica) := x]
  {
    var f := Flatten(map[cargo := map[metrica := x]]);
    assert f.Keys == {Key(cargo, metrica)};
    Listing.SameMap(f, map[Key(cargo, metrica) := x]);
  }

  /** The bulk document naming one pair asks for exactly that pair. */
  lemma UpsertsOne(cargo: string, metrica: string, p: Value, q: Value)
    requires Bindable(OrZero(p)) && Bindable(OrZero(q))
    ensures Upserts(Obj(map[cargo := Obj(map[metrica := Obj(map["promocao" := p, "premiacao" := q])])]))
      == Some(map[Key(cargo, metrica) := Goal(OrZero(p), OrZero(q))])
  {
    var valores := Obj(map["promocao" := p, "premiacao" := q]);
    var x := Goal(OrZero(p), OrZero(q));
    assert Prop(valores, "promocao") == Some(p) && Prop(valores, "premiacao") == Some(q);
    RequestedOne(cargo, metrica, valores, x);
    UpsertsObj(Obj(map[cargo := Obj(map[metrica := valores])]));
    FlattenOne(cargo, metrica, x);
  }

  /** A document with one cargo holding one metrica asks for that one goal. */
  lemma RequestedOne(cargo: string, metrica: string, valores: Value, x: Goal)
    requires GoalOf(valores) == Some(x)
    ensures Readable(map[cargo := Obj(map[metrica := valores])])
    ensures Requested(map[cargo := Obj(map[metrica := valores])]) == map[cargo := map[metrica := x]]
  {
    var outer := map[cargo := Obj(map[metrica := valores])];
    assert Entries(outer[cargo]) == Some(map[metrica := valores]);
    assert Readable(outer);
    Listing.SameMap(Requested(outer)[cargo], map[metrica := x]);
    Listing.SameMap(Requested(outer), map[cargo := map[metrica := x]]);
  }

  /** The bulk update of one (cargo, metrica) pair succeeds and writes that
      pair with `|| 0` applied. */
  lemma PutOne(g: Goals, cargo: string, metrica: string, p: Value, q: Value)
    requires Bindable(OrZero(p)) && Bindable(OrZero(q))
    ensures Put(g, Obj(map[cargo := Obj(map[metrica := Obj(map["promocao" := p, "premiacao" := q])])]))
      == Answer(OK, g[Key(cargo, metrica) := Goal(OrZero(p), OrZero(q))], None)
  {
    var bulk := Obj(map[cargo := Obj(map[metrica := Obj(map["promocao" := p, "premiacao" := q])])]);
    var k, x := Key(cargo, metrica), Goal(OrZero(p), OrZero(q));
    UpsertsOne(cargo, metrica, p, q);
    PutObject(g, bulk);
    Listing.SameMap(g + map[k := x], g[k := x]);
  }

  /** The bulk update of one (cargo, metrica) pair writes what a POST of that
      pair writes, whenever the POST accepts the pair. */
  lemma PutOneIsPost(g: Goals, cargo: string, metrica: string, p: Value, q: Value)
    requires cargo != "" && metrica != ""
    requires Bindable(OrZero(p)) && Bindable(OrZero(q))
    ensures var post := Post(g, map["cargo" := Str(cargo), "metrica" := Str(metrica), "promocao" := p, "premiacao" := q]);
      var put := Put(g, Obj(map[cargo := Obj(map[metrica := Obj(map["promocao" := p, "premiacao" := q])])]));
      && post.status == CREATED
      && put.status == OK
      && put.state == post.state
  {
    PostOne(g, cargo, metrica, p, q);
    PutOne(g, cargo, metrica, p, q);
  }

  /** Repeating a bulk update changes nothing more. */
  lemma PutIdempotent(g: Goals, body: Value)
    ensures Put(Put(g, body).state, body) == Put(g, body)
  {
    if Put(g, body).status == OK {
      var u := Upserts(body).value;
      Listing.SameMap(g + u + u, g + u);
    }
  }

  /** Repeating a partial update changes nothing more. */
  lemma PatchIdempotent(g: Goals, cargo: string, metrica: string, body: map<string, Value>)
    ensures Patch(Patch(g, cargo, metrica, body).state, cargo, metrica, body) == Patch(g, cargo, metrica, body)
  {
    var r := Patch(g, cargo, metrica, body);
    if r.status == OK {
      var k := Key(cargo, metrica);
      assert r.state[k := r.state[k]] == r.state;
    }
  }

  /** Deleting a pair that a POST just created restores the table. */
  lemma PostThenDelete(g: Goals, body: map<string, Value>, cargo: string, metrica: string)
    requires Post(g, body).status == CREATED
    requires KeyOf(Get(body, "cargo"), Get(body, "metrica")) == Some(Key(cargo, metrica))
    requires Key(cargo, metrica) !in g
    ensures Delete(Post(g, body).state, cargo, metrica).state == g
  {
    Listing.SameMap(Delete(Post(g, body).state, cargo, metrica).state, g);
  }

  /** After a delete GET by that pair's cargo no longer lists the metrica. */
  lemma DeleteThenByCargo(g: Goals, cargo: string, metrica: string)
    ensures var r := ByCargo(Delete(g, cargo, metrica).state, cargo);
      r.status == OK ==> metrica !in r.data.value
  {
  }

  /** One goal as the JSON the handlers send: `{ promocao, premiacao }`. */
  function GoalDoc(x: Goal): (r: Value)
    ensures Prop(r, "promocao") == Some(x.promocao) && Prop(r, "premiacao") == Some(x.premiacao)
  {
    Obj(map["promocao" := x.promocao, "premiacao" := x.premiacao])
  }

  /** The grouped goals as the JSON object GET /api/metas sends. */
  function GoalsDoc(n: Nested): (r: Value)
    ensures r.Obj? && r.props.Keys == n.Keys
    ensures forall c | c in n :: r.props[c] == Obj(CargoDoc(n, c))
  {
    Obj(map c | c in n :: Obj(CargoDoc(n, c)))
  }

  /** Every threshold with `|| 0` applied: what a row reads as once an
      upsert has written it back. */
  function Normalized(g: Goals): (r: Goals)
    ensures r.Keys == g.Keys
    ensures forall k | k in g :: !Falsy(g[k].promocao) ==> r[k].promocao == g[k].promocao
    ensures forall k | k in g :: !Falsy(g[k].premiacao) ==> r[k].premiacao == g[k].premiacao
    ensures forall k | k in g :: Falsy(g[k].promocao) ==> r[k].promocao == Num(0)
    ensures forall k | k in g :: Falsy(g[k].premiacao) ==> r[k].premiacao == Num(0)
  {
    map k | k in g :: Goal(OrZero(g[k].promocao), OrZero(g[k].premiacao))
  }

  /** Normalizing twice is normalizing once, and normalizing changes nothing
      exactly when every threshold is truthy or already 0. */
  lemma NormalizedFixes(g: Goals)
    ensures Normalized(Normalized(g)) == Normalized(g)
    ensures Normalized(g) == g <==>
      forall k | k in g ::
        && (!Falsy(g[k].promocao) || g[k].promocao == Num(0))
        && (!Falsy(g[k].premiacao) || g[k].premiacao == Num(0))
  {
    Listing.SameMap(Normalized(Normalized(g)), Normalized(g));
    if forall k | k in g ::
        && (!Falsy(g[k].promocao) || g[k].promocao == Num(0))
        && (!Falsy(g[k].premiacao) || g[k].premiacao == Num(0))
    {
      Listing.SameMap(Normalized(g), g);
    }
  }

  /** A stored goal's document reads back as the goal with `|| 0` applied. */
  lemma GoalOfDoc(x: Goal)
    requires Storable(x.promocao) && Storable(x.premiacao)
    ensures GoalOf(GoalDoc(x)) == Some(Goal(OrZero(x.promocao), OrZero(x.premiacao)))
  {
  }

  /** The entries one cargo's document holds. */
  function CargoDoc(n: Nested, c: string): map<string, Value>
    requires c in n
  {
    map m | m in n[c] :: GoalDoc(n[c][m])
  }

  /** Every goal of the nested shape holds storable thresholds. */
  ghost predicate NestedValid(n: Nested) {
    forall c, m | c in n && m in n[c] :: Storable(n[c][m].promocao) && Storable(n[c][m].premiacao)
  }

  /** The document of nested storable goals can be read back by the bulk update. */
  lemma DocReadable(n: Nested)
    requires NestedValid(n)
    ensures Readable(GoalsDoc(n).props)
  {
    var outer := GoalsDoc(n).props;
    forall c | c in outer
      ensures Entries(outer[c]).Some?
      ensures forall m | m in Entries(outer[c]).value :: GoalOf(Entries(outer[c]).value[m]).Some?
    {
      assert Entries(outer[c]) == Some(CargoDoc(n, c));
      forall m | m in CargoDoc(n, c)
        ensures GoalOf(CargoDoc(n, c)[m]).Some?
      {
        GoalOfDoc(n[c][m]);
      }
    }
  }

  /** The GET document of a valid table can be read back by the bulk update. */
  lemma ListingReadable(g: Goals)
    requires Valid(g)
    ensures Readable(GoalsDoc(Group(g)).props)
  {
    var n: Nested := Group(g);
    forall c, m | c in n && m in n[c]
      ensures Storable(n[c][m].promocao) && Storable(n[c][m].premiacao)
    {
      assert Key(c, m) in g;
    }
    DocReadable(n);
  }

  /** One entry of the GET document reads back as its row, normalized. */
  lemma RequestedEntry(g: Goals, c: string, m: string)
    requires Valid(g)
    requires c in Group(g)
    requires Readable(GoalsDoc(Group(g)).props)
    requires m in Requested(GoalsDoc(Group(g)).props)[c]
    ensures Key(c, m) in g
    ensures Requested(GoalsDoc(Group(g)).props)[c][m] == Normalized(g)[Key(c, m)]
  {
    var n: Nested := Group(g);
    RequestedKeys(n);
    RequestedCargoKeys(n, c);
    assert Key(c, m) in g && n[c][m] == g[Key(c, m)];
    RequestedGoal(n, c, m);
  }

  /** One entry of a nested document reads back as its goal with `|| 0` applied. */
  lemma RequestedGoal(n: Nested, c: string, m: string)
    requires c in n && m in n[c]
    requires Storable(n[c][m].promocao) && Storable(n[c][m].premiacao)
    requires Readable(GoalsDoc(n).props)
    requires c in Requested(GoalsDoc(n).props)
    ensures m in Requested(GoalsDoc(n).props)[c]
    ensures Requested(GoalsDoc(n).props)[c][m] == Goal(OrZero(n[c][m].promocao), OrZero(n[c][m].premiacao))
  {
    assert Entries(GoalsDoc(n).props[c]) == Some(CargoDoc(n, c));
    GoalOfDoc(n[c][m]);
  }

  /** One cargo of the GET document names exactly that cargo's metricas. */
  lemma RequestedCargoKeys(n: Nested, c: string)
    requires c in n
    requires Readable(GoalsDoc(n).props)
    ensures Requested(GoalsDoc(n).props)[c].Keys == n[c].Keys
  {
    assert Entries(GoalsDoc(n).props[c]) == Some(CargoDoc(n, c));
  }

  /** One cargo of the GET document reads back as that cargo's rows, normalized. */
  lemma RequestedCargo(g: Goals, c: string)
    requires Valid(g)
    requires c in Group(g)
    requires Readable(GoalsDoc(Group(g)).props)
    ensures c in Requested(GoalsDoc(Group(g)).props)
    ensures Requested(GoalsDoc(Group(g)).props)[c] == Slice(Normalized(g), c)
  {
    var inner := Requested(GoalsDoc(Group(g)).props)[c];
    var want := Slice(Normalized(g), c);
    forall m | m in inner
      ensures m in want && inner[m] == want[m]
    {
      RequestedEntry(g, c, m);
    }
    RequestedCargoKeys(Group(g), c);
    forall m | m in want
      ensures m in inner
    {
      assert Key(c, m) in g;
    }
    Listing.SameMap(inner, want);
  }

  /** Normalizing keeps every row, so it keeps the cargos. */
  lemma NormalizedCargos(g: Goals)
    ensures Group(Normalized(g)).Keys == Group(g).Keys
  {
    assert Cargos(Normalized(g)) == Cargos(g);
  }

  /** The GET document names exactly the cargos of its grouping. */
  lemma RequestedKeys(n: Nested)
    requires Readable(GoalsDoc(n).props)
    ensures Requested(GoalsDoc(n).props).Keys == n.Keys
  {
  }

  /** The GET document reads back as the normalized table, grouped. */
  lemma RequestedListing(g: Goals)
    requires Valid(g)
    requires Readable(GoalsDoc(Group(g)).props)
    ensures Requested(GoalsDoc(Group(g)).props) == Group(Normalized(g))
  {
    NormalizedCargos(g);
    RequestedKeys(Group(g));
    RequestedValues(g);
    Listing.SameMap(Requested(GoalsDoc(Group(g)).props), Group(Normalized(g)));
  }

  /** Each cargo of the GET document reads back as that cargo's normalized rows. */
  lemma RequestedValues(g: Goals)
    requires Valid(g)
    requires Readable(GoalsDoc(Group(g)).props)
    ensures forall c | c in Requested(GoalsDoc(Group(g)).props) ::
      c in Group(Normalized(g)) && Requested(GoalsDoc(Group(g)).props)[c] == Group(Normalized(g))[c]
  {
    var r := Requested(GoalsDoc(Group(g)).props);
    var want := Group(Normalized(g));
    NormalizedCargos(g);
    forall c | c in r
      ensures c in want && r[c] == want[c]
    {
      RequestedCargo(g, c);
    }
  }

  /** An object document that reads asks for the flattened goals it names. */
  lemma UpsertsObj(body: Value)
    requires body.Obj? && Readable(body.props)
    ensures Upserts(body) == Some(Flatten(Requested(body.props)))
  {
  }

  /** Read back by the bulk update, the GET document of a valid table asks
      for every row, normalized, and nothing else. */
  lemma UpsertsOfListing(g: Goals)
    requires Valid(g)
    ensures Upserts(GoalsDoc(Group(g))) == Some(Normalized(g))
  {
    ListingReadable(g);
    RequestedListing(g);
    UpsertsOfGroup(GoalsDoc(Group(g)), Normalized(g));
  }

  /** A document that asks for the grouping of `h` upserts exactly `h`. */
  lemma UpsertsOfGroup(body: Value, h: Goals)
    requires body.Obj? && Readable(body.props)
    requires Requested(body.props) == Group(h)
    ensures Upserts(body) == Some(h)
  {
    UpsertsObj(body);
    GroupLossless(h);
  }

  /** A map merged with one over the same keys is the latter. */
  lemma Overrides<K, V>(a: map<K, V>, b: map<K, V>)
    requires a.Keys == b.Keys
    ensures a + b == b
  {
    Listing.SameMap(a + b, b);
  }

  /** A bulk update whose document reads succeeds with every row it asks for merged in. */
  lemma PutObject(g: Goals, body: Value)
    requires body.Obj? && Upserts(body).Some?
    ensures Put(g, body) == Answer(OK, g + Upserts(body).value, None)
  {
  }

  /** Saving the GET document back with the bulk update succeeds and leaves
      the table as it was, except that null and empty thresholds read 0. */
  lemma PutOfListing(g: Goals)
    requires Valid(g)
    ensures Put(g, GoalsDoc(Group(g))) == Answer(OK, Normalized(g), None)
  {
    UpsertsOfListing(g);
    PutObject(g, GoalsDoc(Group(g)));
    Overrides(g, Normalized(g));
  }
}
