/** The load routes. Recording a load checks that the machine and the
    article exist and that the article has enough `disponibles`, inserts
    the load and debits the article; deleting a load credits the article
    back, never below zero used units. The read routes join loads with
    their machine and article, so a load whose machine or article row is
    gone is not listed. */
module Cargas {
  import opened Common
  import opened Table
  import opened Order
  import opened Db
  import Maquinas

  /** The body of POST /. An id that is missing or 0 is falsy. */
  datatype LoadRequest = LoadRequest(
    maquinaId: Option<int>,
    articuloId: Option<int>,
    cantidad: Option<int>,
    usuario: Option<string>,
    observaciones: Option<string>)

  /** The check made before any lookup. */
  predicate ValidLoad(req: LoadRequest) {
    NonZero(req.maquinaId) && NonZero(req.articuloId) && Positive(req.cantidad)
  }

  /** The row inserted for a valid request. */
  function NewCarga(req: LoadRequest, now: nat): (c: Carga)
    requires ValidLoad(req)
    ensures c.maquinaId == req.maquinaId.value && c.articuloId == req.articuloId.value
    ensures c.cantidadCargada == req.cantidad.value && c.cantidadCargada > 0
    ensures c.fechaCarga == now
    ensures c.usuario == (if Truthy(req.usuario) then req.usuario.value else "")
    ensures c.observaciones == (if Truthy(req.observaciones) then req.observaciones.value else "")
  {
    Carga(req.maquinaId.value, req.articuloId.value, req.cantidad.value, now,
          OrElse(req.usuario, ""), OrElse(req.observaciones, ""))
  }

  /** The article after `q` of its units were loaded into a machine:
      `cantidad` stays, the units count as used, and `disponibles` is
      recomputed from the two. */
  function Debited(a: Article, q: int, now: nat): (r: Article)
    ensures r.cantidad == a.cantidad && r.utilizados == a.utilizados + q
    ensures r.disponibles == r.cantidad - r.utilizados
    ensures a.disponibles == a.cantidad - a.utilizados ==> r.disponibles == a.disponibles - q
    ensures a.disponibles == a.cantidad - a.utilizados && q <= a.disponibles ==> r.disponibles >= 0
    ensures r.nombre == a.nombre && r.imagen == a.imagen && r.empresa == a.empresa
    ensures r.createdAt == a.createdAt && r.updatedAt == now
  {
    var utilizados := a.utilizados + q;
    a.(utilizados := utilizados, disponibles := a.cantidad - utilizados, updatedAt := now)
  }

  /** The article after a load of `q` units was undone: the used units
      drop by `q` but never below zero, and `disponibles` is recomputed. */
  function Credited(a: Article, q: int, now: nat): (r: Article)
    ensures r.cantidad == a.cantidad
    ensures r.utilizados >= 0
    ensures a.utilizados - q >= 0 ==> r.utilizados == a.utilizados - q
    ensures a.utilizados - q < 0 ==> r.utilizados == 0
    ensures r.disponibles == r.cantidad - r.utilizados
    ensures r.nombre == a.nombre && r.imagen == a.imagen && r.empresa == a.empresa
    ensures r.createdAt == a.createdAt && r.updatedAt == now
  {
    var utilizados := if a.utilizados - q > 0 then a.utilizados - q else 0;
    a.(utilizados := utilizados, disponibles := a.cantidad - utilizados, updatedAt := now)
  }

  /** Crediting a load undoes its debit: `cantidad` and a non-negative
      `utilizados` come back exactly, and `disponibles` comes back exactly
      when it agreed with the other two before. */
  lemma CreditUndoesDebit(a: Article, q: int, t1: nat, t2: nat)
    requires q > 0 && a.utilizados >= 0
    ensures Credited(Debited(a, q, t1), q, t2).cantidad == a.cantidad
    ensures Credited(Debited(a, q, t1), q, t2).utilizados == a.utilizados
    ensures Credited(Debited(a, q, t1), q, t2).disponibles == a.disponibles <==> a.disponibles == a.cantidad - a.utilizados
    ensures a.disponibles == a.cantidad - a.utilizados ==> Credited(Debited(a, q, t1), q, t2) == a.(updatedAt := t2)
  {
  }

  /** POST /: validate, look up the machine, look up the article, compare
      with its `disponibles`, then insert the load and debit the article.
      `carga` is the key of the inserted row. */
  method CreateLoad(db: Store, req: LoadRequest, now: nat) returns (status: Status, carga: Option<int>)
    requires db.Valid()
    modifies db`cargas, db`nextCarga, db`articulos
    ensures db.Valid()
    ensures status == Ok || status == BadRequest || status == NotFound || status == InsufficientStock
    ensures !ValidLoad(req) ==> status == BadRequest
    ensures ValidLoad(req) && req.maquinaId.value !in old(db.maquinas) ==> status == NotFound
    ensures ValidLoad(req) && req.maquinaId.value in old(db.maquinas) && req.articuloId.value !in old(db.articulos) ==>
      status == NotFound
    ensures ValidLoad(req) && req.maquinaId.value in old(db.maquinas) && req.articuloId.value in old(db.articulos) ==>
      (status == InsufficientStock <==> old(db.articulos[req.articuloId.value].disponibles) < req.cantidad.value)
    ensures status == Ok <==>
      && ValidLoad(req) && req.maquinaId.value in old(db.maquinas) && req.articuloId.value in old(db.articulos)
      && req.cantidad.value <= old(db.articulos[req.articuloId.value].disponibles)
    ensures carga.Some? <==> status == Ok
    ensures status != Ok ==> unchanged(db)
    ensures status == Ok ==>
      && ValidLoad(req)
      && req.maquinaId.value in db.maquinas
      && req.articuloId.value in old(db.articulos)
      && req.cantidad.value <= old(db.articulos[req.articuloId.value].disponibles)
      && carga.value == old(db.nextCarga) && carga.value !in old(db.cargas)
      && db.cargas == old(db.cargas)[carga.value := NewCarga(req, now)]
      && db.articulos == old(db.articulos)[req.articuloId.value :=
           Debited(old(db.articulos[req.articuloId.value]), req.cantidad.value, now)]
  {
    if !ValidLoad(req) {
      return BadRequest, None;
    }
    var mid, aid, q := req.maquinaId.value, req.articuloId.value, req.cantidad.value;
    if mid !in db.maquinas {
      return NotFound, None;
    }
    if aid !in db.articulos {
      return NotFound, None;
    }
    var articulo := db.articulos[aid];
    if articulo.disponibles < q {
      return InsufficientStock, None;
    }
    var newId := db.nextCarga;
    InsertAtNext(db.cargas, newId, NewCarga(req, now));
    db.cargas := db.cargas[newId := NewCarga(req, now)];
    db.nextCarga := newId + 1;
    db.articulos := db.articulos[aid := Debited(articulo, q, now)];
    return Ok, Some(newId);
  }

  /** DELETE /:id: look up the load, look up its article, credit the
      article, then remove the load. */
  method DeleteLoad(db: Store, id: int, now: nat) returns (status: Status)
    requires db.Valid()
    modifies db`cargas, db`articulos
    ensures db.Valid()
    ensures status == Ok || status == NotFound
    ensures status == NotFound <==> id !in old(db.cargas) || old(db.cargas[id].articuloId) !in old(db.articulos)
    ensures status == NotFound ==> unchanged(db)
    ensures status == Ok ==>
      && id in old(db.cargas)
      && old(db.cargas[id].articuloId) in old(db.articulos)
      && db.articulos == old(db.articulos)[old(db.cargas[id].articuloId) :=
           Credited(old(db.articulos[db.cargas[id].articuloId]), old(db.cargas[id].cantidadCargada), now)]
      && db.cargas == old(db.cargas) - {id}
  {
    if id !in db.cargas {
      return NotFound;
    }
    var c := db.cargas[id];
    if c.articuloId !in db.articulos {
      return NotFound;
    }
    db.articulos := db.articulos[c.articuloId := Credited(db.articulos[c.articuloId], c.cantidadCargada, now)];
    db.cargas := db.cargas - {id};
    return Ok;
  }

  /** Recording a load and deleting it again, with nothing in between,
      leaves the loads as they were and gives the article back its
      `cantidad` and (non-negative) `utilizados`; `disponibles` comes back
      exactly when it agreed with them before, and then the whole row
      comes back but for its update time. */
  method CreateThenDelete(db: Store, req: LoadRequest, t1: nat, t2: nat) returns (created: Status, deleted: Status)
    requires db.Valid()
    modifies db`cargas, db`nextCarga, db`articulos
    ensures db.Valid()
    ensures created == Ok ==> ValidLoad(req) && req.articuloId.value in old(db.articulos)
    ensures created == Ok ==> deleted == Ok
    ensures created == Ok ==> db.cargas == old(db.cargas)
    ensures created == Ok ==>
      var aid := req.articuloId.value;
      var a := old(db.articulos[aid]);
      && db.articulos.Keys == old(db.articulos.Keys)
      && (forall k :: k in db.articulos && k != aid ==> db.articulos[k] == old(db.articulos[k]))
      && db.articulos[aid].cantidad == a.cantidad
      && (a.utilizados >= 0 ==> db.articulos[aid].utilizados == a.utilizados)
      && (a.utilizados >= 0 ==> (db.articulos[aid].disponibles == a.disponibles <==> a.disponibles == a.cantidad - a.utilizados))
      && (a.utilizados >= 0 && a.disponibles == a.cantidad - a.utilizados ==> db.articulos[aid] == a.(updatedAt := t2))
  {
    var carga;
    created, carga := CreateLoad(db, req, t1);
    if created != Ok {
      return created, NotFound;
    }
    ghost var aid := req.articuloId.value;
    ghost var a := old(db.articulos[aid]);
    deleted := DeleteLoad(db, carga.value, t2);
    InsertThenRemove(old(db.cargas), carga.value, NewCarga(req, t1));
    if a.utilizados >= 0 {
      CreditUndoesDebit(a, req.cantidad.value, t1, t2);
    }
  }

  /** A load can be shown by the joined queries only while its machine
      and its article both exist. */
  predicate Visible(maquinas: map<int, Machine>, articulos: map<int, Article>, c: Carga) {
    c.maquinaId in maquinas && c.articuloId in articulos
  }

  /** The query parameters of GET / and GET /agrupadas. An id filter is
      None when absent; day bounds are SQLite day numbers. */
  datatype LoadFilter = LoadFilter(
    maquinaId: Option<int>,
    articuloId: Option<int>,
    empresa: Option<string>,
    desde: Option<int>,
    hasta: Option<int>)

  /** The WHERE clause built from a filter, for a load and its machine. */
  predicate LoadMatches(f: LoadFilter, c: Carga, m: Machine) {
    && (f.maquinaId.Some? ==> c.maquinaId == f.maquinaId.value)
    && (f.articuloId.Some? ==> c.articuloId == f.articuloId.value)
    && (EmpresaGiven(f.empresa) ==> m.empresa == f.empresa.value)
    && InDayRange(c.fechaCarga, f.desde, f.hasta)
  }

  /** The visible loads that pass the filter, in id order. */
  function MatchingLoads(maquinas: map<int, Machine>, articulos: map<int, Article>, cargas: map<int, Carga>,
                         f: LoadFilter): (r: seq<Keyed<Carga>>)
    ensures IncreasingIds(r)
    ensures forall i :: 0 <= i < |r| ==>
      && r[i].id in cargas && r[i].row == cargas[r[i].id]
      && Visible(maquinas, articulos, r[i].row)
      && LoadMatches(f, r[i].row, maquinas[r[i].row.maquinaId])
    ensures forall k ::
      (k in cargas && Visible(maquinas, articulos, cargas[k]) && LoadMatches(f, cargas[k], maquinas[cargas[k].maquinaId]))
      ==> Listed(r, k)
  {
    Select(cargas, (c: Carga) => Visible(maquinas, articulos, c) && LoadMatches(f, c, maquinas[c.maquinaId]))
  }

  /** A row of GET /: the load with its machine and article. */
  datatype LoadRow = LoadRow(carga: Carga, maquina: Machine, articulo: Article)

  /** `x` is the visible load `x.id`, passing the filter, joined with its
      machine and article. */
  ghost predicate LoadShown(maquinas: map<int, Machine>, articulos: map<int, Article>, cargas: map<int, Carga>,
                            f: LoadFilter, x: Keyed<LoadRow>) {
    && x.id in cargas && x.row.carga == cargas[x.id]
    && Visible(maquinas, articulos, x.row.carga)
    && x.row.maquina == maquinas[x.row.carga.maquinaId]
    && x.row.articulo == articulos[x.row.carga.articuloId]
    && LoadMatches(f, x.row.carga, x.row.maquina)
  }

  /** Load `k` exists, is visible and passes the filter. */
  ghost predicate LoadQualifies(maquinas: map<int, Machine>, articulos: map<int, Article>, cargas: map<int, Carga>,
                                f: LoadFilter, k: int) {
    k in cargas && Visible(maquinas, articulos, cargas[k]) && LoadMatches(f, cargas[k], maquinas[cargas[k].maquinaId])
  }

  /** The FROM and WHERE part of GET /, in id order. */
  function JoinedLoads(maquinas: map<int, Machine>, articulos: map<int, Article>, cargas: map<int, Carga>,
                       f: LoadFilter): (r: seq<Keyed<LoadRow>>)
    ensures IncreasingIds(r)
    ensures forall i :: 0 <= i < |r| ==> LoadShown(maquinas, articulos, cargas, f, r[i])
    ensures forall k :: LoadQualifies(maquinas, articulos, cargas, f, k) ==> Listed(r, k)
  {
    var rows := MatchingLoads(maquinas, articulos, cargas, f);
    var r := seq(|rows|, i requires 0 <= i < |rows| && Visible(maquinas, articulos, rows[i].row) =>
      Keyed(rows[i].id, LoadRow(rows[i].row, maquinas[rows[i].row.maquinaId], articulos[rows[i].row.articuloId])));
    forall i | 0 <= i < |r| ensures LoadShown(maquinas, articulos, cargas, f, r[i]) {
      assert r[i].id == rows[i].id && r[i].row.carga == rows[i].row;
    }
    assert SameIds(r, rows);
    SameIdsIncreasing(r, rows);
    forall k | LoadQualifies(maquinas, articulos, cargas, f, k) ensures Listed(r, k) {
      SameIdsListed(r, rows, k);
    }
    r
  }

  /** `ORDER BY c.fecha_carga DESC`. ISO-8601 timestamps of one format sort
      as strings in time order. */
  predicate NewestFirst(x: Keyed<LoadRow>, y: Keyed<LoadRow>) {
    x.row.carga.fechaCarga >= y.row.carga.fechaCarga
  }

  /** GET /: every visible load passing the filter, newest first, with its
      machine and article; nothing else. */
  function ListLoads(maquinas: map<int, Machine>, articulos: map<int, Article>, cargas: map<int, Carga>,
                     f: LoadFilter): (r: seq<Keyed<LoadRow>>)
    ensures SortedBy(r, NewestFirst)
    ensures DistinctIds(r)
    ensures forall i :: 0 <= i < |r| ==> LoadShown(maquinas, articulos, cargas, f, r[i])
    ensures forall k :: LoadQualifies(maquinas, articulos, cargas, f, k) ==> Listed(r, k)
  {
    var joined := JoinedLoads(maquinas, articulos, cargas, f);
    SortBySorted(joined, NewestFirst);
    PermutationKeeps(SortBy(joined, NewestFirst), joined,
      (x: Keyed<LoadRow>) => LoadShown(maquinas, articulos, cargas, f, x));
    PermutationDistinctIds(SortBy(joined, NewestFirst), joined);
    SortBy(joined, NewestFirst)
  }

  /** A load whose machine or article row is gone is never listed, whatever
      the filter. */
  lemma ListLoadsHidesDangling(maquinas: map<int, Machine>, articulos: map<int, Article>, cargas: map<int, Carga>,
                               f: LoadFilter, k: int)
    requires k in cargas && !Visible(maquinas, articulos, cargas[k])
    ensures !Listed(ListLoads(maquinas, articulos, cargas, f), k)
  {
  }

  /** A row of GET /detalles/:maquina_id/:fecha: the load with its article. */
  datatype DetailRow = DetailRow(carga: Carga, articulo: Article)

  /** The WHERE clause of the detail query: the machine, the day and, when
      the query gives a non-empty one, the user. The machine table is not
      joined. */
  predicate InSession(maquinaId: int, dia: int, usuario: Option<string>, c: Carga) {
    c.maquinaId == maquinaId && Day(c.fechaCarga) == dia && (Truthy(usuario) ==> c.usuario == usuario.value)
  }

  /** `x` is load `x.id` of the session, joined with its article. */
  ghost predicate DetailShown(articulos: map<int, Article>, cargas: map<int, Carga>, maquinaId: int, dia: int,
                              usuario: Option<string>, x: Keyed<DetailRow>) {
    && x.id in cargas && x.row.carga == cargas[x.id]
    && x.row.carga.articuloId in articulos && x.row.articulo == articulos[x.row.carga.articuloId]
    && InSession(maquinaId, dia, usuario, x.row.carga)
  }

  /** The FROM and WHERE part of the detail query, in id order. */
  function SessionDetails(articulos: map<int, Article>, cargas: map<int, Carga>, maquinaId: int, dia: int,
                          usuario: Option<string>): (r: seq<Keyed<DetailRow>>)
    ensures IncreasingIds(r)
    ensures forall i :: 0 <= i < |r| ==> DetailShown(articulos, cargas, maquinaId, dia, usuario, r[i])
    ensures forall k :: k in cargas && cargas[k].articuloId in articulos && InSession(maquinaId, dia, usuario, cargas[k]) ==>
      Listed(r, k)
  {
    var rows := Select(cargas, (c: Carga) => c.articuloId in articulos && InSession(maquinaId, dia, usuario, c));
    var r := seq(|rows|, i requires 0 <= i < |rows| && rows[i].row.articuloId in articulos =>
      Keyed(rows[i].id, DetailRow(rows[i].row, articulos[rows[i].row.articuloId])));
    forall i | 0 <= i < |r| ensures DetailShown(articulos, cargas, maquinaId, dia, usuario, r[i]) {
      assert r[i].id == rows[i].id && r[i].row.carga == rows[i].row;
    }
    assert SameIds(r, rows);
    SameIdsIncreasing(r, rows);
    forall k | k in cargas && cargas[k].articuloId in articulos && InSession(maquinaId, dia, usuario, cargas[k])
      ensures Listed(r, k)
    {
      SameIdsListed(r, rows, k);
    }
    r
  }

  /** `ORDER BY c.fecha_carga ASC`. */
  predicate OldestFirst(x: Keyed<DetailRow>, y: Keyed<DetailRow>) {
    x.row.carga.fechaCarga <= y.row.carga.fechaCarga
  }

  /** GET /detalles/:maquina_id/:fecha?usuario=: the loads of one session
      whose article exists, oldest first. */
  function Details(articulos: map<int, Article>, cargas: map<int, Carga>, maquinaId: int, dia: int,
                   usuario: Option<string>): (r: seq<Keyed<DetailRow>>)
    ensures SortedBy(r, OldestFirst)
    ensures DistinctIds(r)
    ensures forall i :: 0 <= i < |r| ==> DetailShown(articulos, cargas, maquinaId, dia, usuario, r[i])
    ensures forall k :: k in cargas && cargas[k].articuloId in articulos && InSession(maquinaId, dia, usuario, cargas[k]) ==>
      Listed(r, k)
  {
    var joined := SessionDetails(articulos, cargas, maquinaId, dia, usuario);
    SortBySorted(joined, OldestFirst);
    PermutationKeeps(SortBy(joined, OldestFirst), joined,
      (x: Keyed<DetailRow>) => DetailShown(articulos, cargas, maquinaId, dia, usuario, x));
    PermutationDistinctIds(SortBy(joined, OldestFirst), joined);
    SortBy(joined, OldestFirst)
  }

  /** The total quantity of some loads, added up from the last one back. */
  function Sum(ms: seq<Keyed<Carga>>): int {
    if ms == [] then 0 else Sum(Init(ms)) + Last(ms).row.cantidadCargada
  }

  /** Adding up from the front gives the same total. */
  lemma {:induction false} SumCons(x: Keyed<Carga>, rest: seq<Keyed<Carga>>)
    ensures Sum([x] + rest) == x.row.cantidadCargada + Sum(rest)
  {
    if rest == [] {
      assert [x] + rest == [x];
      assert Init([x]) == [];
    } else {
      var xs := [x] + rest;
      assert Init(xs) == [x] + Init(rest);
      assert Last(xs) == Last(rest);
      SumCons(x, Init(rest));
    }
  }

  /** `SUM(c.cantidad_cargada)`: NULL over no rows, otherwise the total
      quantity of the rows. */
  function TotalCantidad(rows: seq<Keyed<Carga>>): (r: Option<int>)
    ensures r == if rows == [] then None else Some(Sum(rows))
    ensures (forall i :: 0 <= i < |rows| ==> rows[i].row.cantidadCargada > 0) && rows != [] ==> r.value >= |rows|
  {
    if rows == [] then None
    else
      var rest := TotalCantidad(rows[1..]);
      assert rows == [rows[0]] + rows[1..];
      SumCons(rows[0], rows[1..]);
      Some(rows[0].row.cantidadCargada + (if rest.Some? then rest.value else 0))
  }

  /** `MAX(c.fecha_carga)`: NULL over no rows. */
  function LatestFecha(rows: seq<Keyed<Carga>>): (r: Option<nat>)
    ensures r.Some? <==> rows != []
    ensures r.Some? ==> forall i :: 0 <= i < |rows| ==> rows[i].row.fechaCarga <= r.value
    ensures r.Some? ==> exists i :: 0 <= i < |rows| && rows[i].row.fechaCarga == r.value
  {
    if rows == [] then None
    else
      var rest := LatestFecha(rows[1..]);
      if rest.None? || rest.value <= rows[0].row.fechaCarga then
        Some(rows[0].row.fechaCarga)
      else
        var i :| 0 <= i < |rows[1..]| && rows[1..][i].row.fechaCarga == rest.value;
        assert rows[i + 1].row.fechaCarga == rest.value;
        rest
  }

  /** A row of GET /resumen. */
  datatype MachineTotals = MachineTotals(
    maquina: Keyed<Machine>,
    totalCargas: nat,
    totalCantidad: Option<int>,
    ultimaCarga: Option<nat>)

  /** The latest date over the loads of one machine is the latest date of
      any load naming it. */
  lemma LatestOfMachine(cargas: map<int, Carga>, maquinaId: int)
    ensures var latest := LatestFecha(Maquinas.LoadsOfMachine(cargas, maquinaId));
      && (latest.Some? <==> LoadsOf(cargas, maquinaId) != {})
      && (latest.Some? ==> forall k :: k in LoadsOf(cargas, maquinaId) ==> cargas[k].fechaCarga <= latest.value)
      && (latest.Some? ==> exists k :: k in LoadsOf(cargas, maquinaId) && cargas[k].fechaCarga == latest.value)
  {
    var rows := Maquinas.LoadsOfMachine(cargas, maquinaId);
    var latest := LatestFecha(rows);
    forall k | k in LoadsOf(cargas, maquinaId) ensures latest.Some? && cargas[k].fechaCarga <= latest.value {
      var i :| 0 <= i < |rows| && rows[i].id == k;
    }
    if latest.Some? {
      var i :| 0 <= i < |rows| && rows[i].row.fechaCarga == latest.value;
      assert rows[i].id in LoadsOf(cargas, maquinaId);
    } else if LoadsOf(cargas, maquinaId) != {} {
      NonEmpty(LoadsOf(cargas, maquinaId));
    }
  }

  /** One machine's row: a LEFT JOIN, so a machine without loads counts
      zero loads and has no total and no latest date. The article table is
      not joined, so every load of the machine counts. */
  function Totals(cargas: map<int, Carga>, m: Keyed<Machine>): (r: MachineTotals)
    ensures r.maquina == m
  {
    var rows := Maquinas.LoadsOfMachine(cargas, m.id);
    MachineTotals(m, |rows|, TotalCantidad(rows), LatestFecha(rows))
  }

  /** What a machine's row says about its loads: the count is the number of
      loads naming it, the sum and the latest date are NULL exactly when it
      has none, the sum adds up their quantities and the latest date is the
      largest of their dates. */
  lemma TotalsCorrect(cargas: map<int, Carga>, m: Keyed<Machine>)
    ensures var r := Totals(cargas, m);
      && r.totalCargas == |LoadsOf(cargas, m.id)|
      && (r.totalCantidad.Some? <==> r.totalCargas > 0)
      && (r.totalCantidad.Some? ==> r.totalCantidad.value == Sum(Maquinas.LoadsOfMachine(cargas, m.id)))
      && (r.ultimaCarga.Some? <==> r.totalCargas > 0)
      && (r.ultimaCarga.Some? ==> forall k :: k in LoadsOf(cargas, m.id) ==> cargas[k].fechaCarga <= r.ultimaCarga.value)
      && (r.ultimaCarga.Some? ==> exists k :: k in LoadsOf(cargas, m.id) && cargas[k].fechaCarga == r.ultimaCarga.value)
  {
    LatestOfMachine(cargas, m.id);
  }

  predicate ByBuildingThenName(x: MachineTotals, y: MachineTotals) {
    Maquinas.BuildingThenName(x.maquina, y.maquina)
  }

  /** `r` holds, in order, the totals of the machines of `ms`. */
  ghost predicate TotalsOf(cargas: map<int, Carga>, ms: seq<Keyed<Machine>>, r: seq<MachineTotals>) {
    |r| == |ms| && forall i :: 0 <= i < |r| ==> r[i] == Totals(cargas, ms[i])
  }

  /** GET /resumen?empresa=: one row per machine passing the empresa
      filter, in the machine listing's order (building, then name), each
      with its load totals. */
  function Summary(maquinas: map<int, Machine>, cargas: map<int, Carga>, empresa: Option<string>): (r: seq<MachineTotals>)
    ensures TotalsOf(cargas, Maquinas.List(maquinas, empresa, None), r)
    ensures SortedBy(r, ByBuildingThenName)
  {
    var ms := Maquinas.List(maquinas, empresa, None);
    var r := TotalsFor(cargas, ms);
    TotalsSorted(cargas, ms, r);
    r
  }

  /** The totals of each machine of `ms`, in order. */
  function TotalsFor(cargas: map<int, Carga>, ms: seq<Keyed<Machine>>): (r: seq<MachineTotals>)
    ensures TotalsOf(cargas, ms, r)
  {
    seq(|ms|, i requires 0 <= i < |ms| => Totals(cargas, ms[i]))
  }

  /** Totals listed in the order of a sorted machine listing are sorted the
      same way. */
  lemma TotalsSorted(cargas: map<int, Carga>, ms: seq<Keyed<Machine>>, r: seq<MachineTotals>)
    requires TotalsOf(cargas, ms, r) && SortedBy(ms, Maquinas.BuildingThenName)
    ensures SortedBy(r, ByBuildingThenName)
  {
    forall i, j | 0 <= i < j < |r| ensures ByBuildingThenName(r[i], r[j]) {
      assert r[i].maquina == ms[i] && r[j].maquina == ms[j];
    }
  }

  /** Every machine passing the empresa filter has a summary row. */
  lemma SummaryExact(maquinas: map<int, Machine>, cargas: map<int, Carga>, empresa: Option<string>, k: int)
    requires k in maquinas && Maquinas.Matches(empresa, None, maquinas[k])
    ensures exists i :: 0 <= i < |Summary(maquinas, cargas, empresa)| && Summary(maquinas, cargas, empresa)[i].maquina.id == k
  {
    var ms := Maquinas.List(maquinas, empresa, None);
    var r := Summary(maquinas, cargas, empresa);
    assert Listed(ms, k);
    var i :| 0 <= i < |ms| && ms[i].id == k;
    assert TotalsOf(cargas, ms, r);
    assert r[i] == Totals(cargas, ms[i]);
    assert r[i].maquina.id == k;
  }

  /** No machine has two summary rows: `GROUP BY m.id`. */
  lemma SummaryDistinct(maquinas: map<int, Machine>, cargas: map<int, Carga>, empresa: Option<string>)
    ensures var r := Summary(maquinas, cargas, empresa);
      forall i, j :: 0 <= i < j < |r| ==> r[i].maquina.id != r[j].maquina.id
  {
    var ms := Maquinas.List(maquinas, empresa, None);
    var r := Summary(maquinas, cargas, empresa);
    assert TotalsOf(cargas, ms, r);
    forall i, j | 0 <= i < j < |r| ensures r[i].maquina.id != r[j].maquina.id {
      assert r[i] == Totals(cargas, ms[i]) && r[j] == Totals(cargas, ms[j]);
      assert ms[i].id != ms[j].id;
    }
  }
}
