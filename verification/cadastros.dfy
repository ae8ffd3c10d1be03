/** City registrations, routes/cadastros.js: rows keyed by an id the caller
    chooses, holding a name, a city and a role code. */
module Cadastros {
  import opened Js
  import opened Sql
  import opened Http
  import Listing

  /** One registration's fields; the id is the store's key. */
  datatype Cadastro = Cadastro(nome: Value, cidade: Value, cargo: Value)

  /** The `cadastros` table, by id. */
  type Store = map<string, Cadastro>

  /** The fields PATCH may write. */
  const Allowed: seq<string> := ["nome", "cidade", "cargo"]

  /** Every field holds a value a column can hold. */
  ghost predicate Valid(s: Store) {
    forall id | id in s :: Storable(s[id].nome) && Storable(s[id].cidade) && Storable(s[id].cargo)
  }

  /** The field of `c` a column name stands for. */
  function Field(c: Cadastro, k: string): Value
    requires k in Allowed
  {
    if k == "nome" then c.nome else if k == "cidade" then c.cidade else c.cargo
  }

  /** GET /api/cadastros: every registration, once each. */
  method All(s: Store) returns (rows: seq<(string, Cadastro)>)
    ensures Listing.IsListing(s, rows)
    ensures |rows| == |s|
  {
    rows := Listing.List(s);
  }

  /** GET /api/cadastros/:id */
  function Fetch(s: Store, id: string): (r: Answer<Store, Cadastro>)
    ensures r.state == s
    ensures r.status == OK <==> id in s
    ensures r.status == NOT_FOUND <==> id !in s
    ensures r.data.Some? ==> id in s && r.data.value == s[id]
    ensures r.status == OK ==> r.data == Some(s[id])
  {
    if id in s then Answer(OK, s, Some(s[id])) else Answer(NOT_FOUND, s, None)
  }

  /** The required fields POST checks: `id`, `nome` and `cargo` truthy, and
      `cidade` merely present (an empty or null city passes). */
  predicate Complete(body: map<string, Value>) {
    && !Falsy(Get(body, "id"))
    && !Falsy(Get(body, "nome"))
    && Get(body, "cidade") != Undefined
    && !Falsy(Get(body, "cargo"))
  }

  /** POST /api/cadastros: 400 when a required field is missing, 500 when the
      id cannot be bound for the duplicate lookup, 409 when the id is taken,
      500 when a field cannot be bound for the insert, otherwise 201 with the
      caller's id and exactly the one new row. */
  function Create(s: Store, body: map<string, Value>): (r: Answer<Store, Value>)
    ensures r.status == BAD_REQUEST <==> !Complete(body)
    ensures r.status == CONFLICT <==>
      Complete(body) && Bindable(Get(body, "id")) && KeyText(Get(body, "id")).value in s
    ensures r.status == SERVER_ERROR <==>
      && Complete(body)
      && (|| !Bindable(Get(body, "id"))
          || (&& KeyText(Get(body, "id")).value !in s
              && !(Bindable(Get(body, "nome")) && Bindable(Get(body, "cidade")) && Bindable(Get(body, "cargo")))))
    ensures r.status == CREATED <==>
      && Complete(body)
      && Bindable(Get(body, "id"))
      && KeyText(Get(body, "id")).value !in s
      && Bindable(Get(body, "nome")) && Bindable(Get(body, "cidade")) && Bindable(Get(body, "cargo"))
    ensures r.status in {CREATED, BAD_REQUEST, CONFLICT, SERVER_ERROR}
    ensures r.status != CREATED ==> r.state == s && r.data == None
    ensures r.status == CREATED ==>
      && Complete(body)
      && r.data == Some(Get(body, "id"))
      && KeyText(Get(body, "id")).Some?
      && var key := KeyText(Get(body, "id")).value;
      && key !in s
      && r.state.Keys == s.Keys + {key}
      && (forall id | id in s :: r.state[id] == s[id])
      && r.state[key] == Cadastro(Get(body, "nome"), Get(body, "cidade"), Get(body, "cargo"))
  {
    var id := Get(body, "id");
    var nome := Get(body, "nome");
    var cidade := Get(body, "cidade");
    var cargo := Get(body, "cargo");
    if !Complete(body) then Answer(BAD_REQUEST, s, None)
    else if !Bindable(id) then Answer(SERVER_ERROR, s, None)
    else
      var key := KeyText(id).value;
      if key in s then Answer(CONFLICT, s, None)
      else if !(Bindable(nome) && Bindable(cidade) && Bindable(cargo)) then Answer(SERVER_ERROR, s, None)
      else Answer(CREATED, s[key := Cadastro(Stored(nome), Stored(cidade), Stored(cargo))], Some(id))
  }

  /** `row` with the allow-listed keys of `kept` written over it. */
  function Overwrite(row: Cadastro, kept: map<string, Value>): (r: Cadastro)
    requires forall k | k in kept :: Bindable(kept[k])
    ensures forall k | k in Allowed :: Field(r, k) == (if k in kept then Stored(kept[k]) else Field(row, k))
  {
    Cadastro(
      if "nome" in kept then Stored(kept["nome"]) else row.nome,
      if "cidade" in kept then Stored(kept["cidade"]) else row.cidade,
      if "cargo" in kept then Stored(kept["cargo"]) else row.cargo)
  }

  /** Writing nothing keeps the row; writing `a` and then `b` is writing the
      merge of the two, `b` winning; and a write naming all three fields
      decides the row whatever it held before. */
  lemma OverwriteComposes(row: Cadastro, other: Cadastro, a: map<string, Value>, b: map<string, Value>)
    requires forall k | k in a :: Bindable(a[k])
    requires forall k | k in b :: Bindable(b[k])
    ensures Overwrite(row, map[]) == row
    ensures Overwrite(Overwrite(row, a), b) == Overwrite(row, a + b)
    ensures (forall k | k in Allowed :: k in a) ==> Overwrite(row, a) == Overwrite(other, a)
  {
    if forall k | k in Allowed :: k in a {
      assert "nome" in a && "cidade" in a && "cargo" in a by {
        assert Allowed[0] == "nome" && Allowed[1] == "cidade" && Allowed[2] == "cargo";
      }
    }
  }

  /** PATCH /api/cadastros/:id: 404 for an absent id, 400 when no body key is
      one of `nome`, `cidade`, `cargo`, 500 when a kept value cannot be bound,
      otherwise the kept keys are written verbatim and nothing else changes. */
  function Patch(s: Store, id: string, body: map<string, Value>): (r: Answer<Store, ()>)
    ensures r.status == NOT_FOUND <==> id !in s
    ensures r.status == BAD_REQUEST <==> id in s && forall k | k in body :: k !in Allowed
    ensures r.status == SERVER_ERROR <==>
      && id in s
      && (exists k | k in body :: k in Allowed)
      && (exists k | k in body && k in Allowed :: !Bindable(body[k]))
    ensures r.status in {OK, NOT_FOUND, BAD_REQUEST, SERVER_ERROR}
    ensures r.status != OK ==> r.state == s
    ensures r.data == None
    ensures r.status == OK ==>
      && id in s
      && r.state.Keys == s.Keys
      && (forall j | j in s && j != id :: r.state[j] == s[j])
      && (forall k | k in Allowed && k !in body :: Field(r.state[id], k) == Field(s[id], k))
      && (forall k | k in Allowed && k in body :: Bindable(body[k]) && Field(r.state[id], k) == Stored(body[k]))
  {
    if id !in s then Answer(NOT_FOUND, s, None)
    else if forall k | k in body :: k !in Allowed then Answer(BAD_REQUEST, s, None)
    else
      var kept := map k | k in body && k in Allowed :: body[k];
      if exists k | k in kept :: !Bindable(kept[k]) then Answer(SERVER_ERROR, s, None)
      else Answer(OK, s[id := Overwrite(s[id], kept)], None)
  }

  /** DELETE /api/cadastros/:id: 404 for an absent id, otherwise exactly that row goes. */
  function Delete(s: Store, id: string): (r: Answer<Store, ()>)
    ensures r.status == NOT_FOUND <==> id !in s
    ensures r.status == OK <==> id in s
    ensures r.status == NOT_FOUND ==> r.state == s
    ensures r.status == OK ==> r.state.Keys == s.Keys - {id} && forall j | j in r.state :: r.state[j] == s[j]
  {
    if id !in s then Answer(NOT_FOUND, s, None) else Answer(OK, s - {id}, None)
  }

  /** Every handler keeps the store valid. */
  lemma HandlersKeepValid(s: Store, id: string, body: map<string, Value>)
    requires Valid(s)
    ensures Valid(Create(s, body).state)
    ensures Valid(Patch(s, id, body).state)
    ensures Valid(Delete(s, id).state)
  {
  }

  /** A registration created with an id is found under that id's text with
      the fields as given, and a second POST with the same id is a 409 that
      changes nothing. */
  lemma CreateThenFetchAndRepeat(s: Store, body: map<string, Value>)
    requires Create(s, body).status == CREATED
    ensures var s' := Create(s, body).state;
      var key := KeyText(Get(body, "id")).value;
      && Fetch(s', key).status == OK
      && Fetch(s', key).data == Some(Cadastro(Get(body, "nome"), Get(body, "cidade"), Get(body, "cargo")))
      && Create(s', body).status == CONFLICT
      && Create(s', body).state == s'
  {
  }

  /** With ids read through `KeyText`, the integer id `n` and the string id
      `"n"` name the same registration, so creating one after the other is a
      conflict. */
  lemma NumberAndTextIdCollide(s: Store, n: int, nome: Value, cidade: Value, cargo: Value)
    requires n != 0 && !Falsy(nome) && cidade != Undefined && !Falsy(cargo)
    requires Bindable(nome) && Bindable(cidade) && Bindable(cargo)
    requires IntText(n) !in s
    ensures var first := map["id" := Num(n), "nome" := nome, "cidade" := cidade, "cargo" := cargo];
      var second := first["id" := Str(IntText(n))];
      && Create(s, first).status == CREATED
      && Create(Create(s, first).state, second).status == CONFLICT
  {
    var first := map["id" := Num(n), "nome" := nome, "cidade" := cidade, "cargo" := cargo];
    var second := first["id" := Str(IntText(n))];
    assert Get(first, "id") == Num(n) && Get(first, "nome") == nome;
    assert Get(first, "cidade") == cidade && Get(first, "cargo") == cargo;
    assert Get(second, "id") == Str(IntText(n)) && Get(second, "nome") == nome;
    assert Get(second, "cidade") == cidade && Get(second, "cargo") == cargo;
    assert IntText(n) != "" by { if n < 0 { } }
  }

  /** An empty city is accepted: with the other fields present the answer is
      201 for a new id and 409 for a taken one, never 400. */
  lemma EmptyCidadeAccepted(s: Store, id: string, nome: string, cargo: string)
    requires id != "" && nome != "" && cargo != ""
    ensures var body := map["id" := Str(id), "nome" := Str(nome), "cidade" := Str(""), "cargo" := Str(cargo)];
      Create(s, body).status == (if id in s then CONFLICT else CREATED)
  {
    var body := map["id" := Str(id), "nome" := Str(nome), "cidade" := Str(""), "cargo" := Str(cargo)];
    assert Get(body, "id") == Str(id) && Get(body, "nome") == Str(nome);
    assert Get(body, "cidade") == Str("") && Get(body, "cargo") == Str(cargo);
  }

  /** Patching with the same body twice leaves the store as patching once. */
  lemma PatchIdempotent(s: Store, id: string, body: map<string, Value>)
    requires Patch(s, id, body).status == OK
    ensures Patch(Patch(s, id, body).state, id, body) == Patch(s, id, body)
  {
    var s' := Patch(s, id, body).state;
    var kept := map k | k in body && k in Allowed :: body[k];
    assert forall k | k in kept :: Bindable(kept[k]);
    assert s'[id] == Overwrite(s[id], kept);
    assert Overwrite(s'[id], kept) == s'[id];
    assert s'[id := Overwrite(s'[id], kept)] == s';
  }

  /** After a delete the id reads as absent. */
  lemma DeleteThenFetch(s: Store, id: string)
    ensures Fetch(Delete(s, id).state, id).status == NOT_FOUND
  {
  }
}
