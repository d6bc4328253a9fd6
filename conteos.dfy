/** The cup-count routes: create, list the latest counts, list one
    machine's counts, update and delete rows of `conteos_vasos`. A count
    names a machine but creating one does not check that the machine
    exists; the read routes join with `maquinas`, so such a count is never
    listed. */
module Conteos {
  import opened Common
  import opened Table
  import opened Order
  import opened Db

  /** The row POST / inserts: a missing or empty note is stored as NULL, a
      missing or empty empresa as "Telecom" (any other value is stored as
      given); the reading time is the insertion time. */
  function NewConteo(maquinaId: int, cantidadVasos: int, observaciones: Option<string>, empresa: Option<string>,
                     now: nat): (c: Conteo)
    ensures c.maquinaId == maquinaId && c.cantidadVasos == cantidadVasos
    ensures c.observaciones.Some? <==> Truthy(observaciones)
    ensures c.observaciones.Some? ==> c.observaciones == observaciones
    ensures c.empresa == (if Truthy(empresa) then empresa.value else TELECOM)
    ensures c.fechaConteo == now
  {
    Conteo(maquinaId, cantidadVasos, now, if Truthy(observaciones) then observaciones else None, OrElse(empresa, TELECOM))
  }

  /** POST /: `maquina_id` and `cantidad_vasos` must be truthy, then
      `cantidad_vasos` positive; success answers 201. */
  method Create(db: Store, maquinaId: Option<int>, cantidadVasos: Option<int>, observaciones: Option<string>,
                empresa: Option<string>, now: nat)
    returns (status: Status, id: Option<int>)
    requires db.Valid()
    modifies db`conteos, db`nextConteo
    ensures db.Valid()
    ensures status == Created || status == BadRequest
    ensures status == Created <==> NonZero(maquinaId) && Positive(cantidadVasos)
    ensures id.Some? <==> status == Created
    ensures status == BadRequest ==> unchanged(db)
    ensures status == Created ==>
      && id.value == old(db.nextConteo) && id.value !in old(db.conteos)
      && db.conteos == old(db.conteos)[id.value :=
           NewConteo(maquinaId.value, cantidadVasos.value, observaciones, empresa, now)]
  {
    if !NonZero(maquinaId) || !NonZero(cantidadVasos) {
      return BadRequest, None;
    }
    if cantidadVasos.value <= 0 {
      return BadRequest, None;
    }
    var newId := db.nextConteo;
    var row := NewConteo(maquinaId.value, cantidadVasos.value, observaciones, empresa, now);
    InsertAtNext(db.conteos, newId, row);
    db.conteos := db.conteos[newId := row];
    db.nextConteo := newId + 1;
    return Created, Some(newId);
  }

  /** PUT /:id: only the count and the note change. */
  method Update(db: Store, id: int, cantidadVasos: Option<int>, observaciones: Option<string>) returns (status: Status)
    requires db.Valid()
    modifies db`conteos
    ensures db.Valid()
    ensures status == Ok || status == BadRequest || status == NotFound
    ensures status == BadRequest <==> !Positive(cantidadVasos)
    ensures status == NotFound <==> Positive(cantidadVasos) && id !in old(db.conteos)
    ensures status != Ok ==> unchanged(db)
    ensures status == Ok ==>
      && id in old(db.conteos)
      && db.conteos == old(db.conteos)[id := old(db.conteos[id]).(
           cantidadVasos := cantidadVasos.value,
           observaciones := if Truthy(observaciones) then observaciones else None)]
  {
    if !NonZero(cantidadVasos) {
      return BadRequest;
    }
    if cantidadVasos.value <= 0 {
      return BadRequest;
    }
    if id !in db.conteos {
      return NotFound;
    }
    var row := db.conteos[id];
    db.conteos := db.conteos[id := row.(
      cantidadVasos := cantidadVasos.value,
      observaciones := if Truthy(observaciones) then observaciones else None)];
    return Ok;
  }

  /** DELETE /:id. */
  method Delete(db: Store, id: int) returns (status: Status)
    requires db.Valid()
    modifies db`conteos
    ensures db.Valid()
    ensures status == Ok || status == NotFound
    ensures status == NotFound <==> id !in old(db.conteos)
    ensures status == NotFound ==> unchanged(db)
    ensures status == Ok ==> db.conteos == old(db.conteos) - {id}
  {
    if id !in db.conteos {
      return NotFound;
    }
    db.conteos := db.conteos - {id};
    return Ok;
  }

  /** A listed count with its machine. */
  datatype CountRow = CountRow(conteo: Conteo, maquina: Machine)

  /** `x` is count `x.id`, whose machine exists, joined with it. */
  ghost predicate CountShown(maquinas: map<int, Machine>, conteos: map<int, Conteo>, x: Keyed<CountRow>) {
    && x.id in conteos && x.row.conteo == conteos[x.id]
    && x.row.conteo.maquinaId in maquinas && x.row.maquina == maquinas[x.row.conteo.maquinaId]
  }

  /** `FROM conteos_vasos cv INNER JOIN maquinas m ON cv.maquina_id = m.id
      WHERE p`, in id order. */
  function JoinedCounts(maquinas: map<int, Machine>, conteos: map<int, Conteo>, p: Conteo -> bool)
    : (r: seq<Keyed<CountRow>>)
    ensures IncreasingIds(r)
    ensures forall i :: 0 <= i < |r| ==> CountShown(maquinas, conteos, r[i]) && p(r[i].row.conteo)
    ensures forall k :: k in conteos && conteos[k].maquinaId in maquinas && p(conteos[k]) ==> Listed(r, k)
  {
    var rows := Select(conteos, (c: Conteo) => c.maquinaId in maquinas && p(c));
    var r := seq(|rows|, i requires 0 <= i < |rows| && rows[i].row.maquinaId in maquinas =>
      Keyed(rows[i].id, CountRow(rows[i].row, maquinas[rows[i].row.maquinaId])));
    forall i | 0 <= i < |r| ensures CountShown(maquinas, conteos, r[i]) && p(r[i].row.conteo) {
      assert r[i].id == rows[i].id && r[i].row.conteo == rows[i].row;
    }
    assert SameIds(r, rows);
    SameIdsIncreasing(r, rows);
    forall k | k in conteos && conteos[k].maquinaId in maquinas && p(conteos[k]) ensures Listed(r, k) {
      SameIdsListed(r, rows, k);
    }
    r
  }

  /** `ORDER BY cv.fecha_conteo DESC`. */
  predicate NewestFirst(x: Keyed<CountRow>, y: Keyed<CountRow>) {
    x.row.conteo.fechaConteo >= y.row.conteo.fechaConteo
  }

  /** The joined counts satisfying `p`, newest first. */
  function NewestCounts(maquinas: map<int, Machine>, conteos: map<int, Conteo>, p: Conteo -> bool)
    : (r: seq<Keyed<CountRow>>)
    ensures SortedBy(r, NewestFirst)
    ensures DistinctIds(r)
    ensures forall i :: 0 <= i < |r| ==> CountShown(maquinas, conteos, r[i]) && p(r[i].row.conteo)
    ensures forall k :: k in conteos && conteos[k].maquinaId in maquinas && p(conteos[k]) ==> Listed(r, k)
  {
    var joined := JoinedCounts(maquinas, conteos, p);
    SortBySorted(joined, NewestFirst);
    PermutationKeeps(SortBy(joined, NewestFirst), joined,
      (x: Keyed<CountRow>) => CountShown(maquinas, conteos, x) && p(x.row.conteo));
    PermutationDistinctIds(SortBy(joined, NewestFirst), joined);
    SortBy(joined, NewestFirst)
  }

  /** The empresa a count query uses: the query value when present, even
      if empty, else "Telecom". */
  function EmpresaOrDefault(empresa: Option<string>): (e: string)
    ensures empresa.Some? ==> e == empresa.value
    ensures empresa.None? ==> e == TELECOM
  {
    if empresa.Some? then empresa.value else TELECOM
  }

  /** Count `k` exists, its machine exists and it has empresa `e`. */
  ghost predicate LatestQualifies(maquinas: map<int, Machine>, conteos: map<int, Conteo>, e: string, k: int) {
    k in conteos && conteos[k].maquinaId in maquinas && conteos[k].empresa == e
  }

  /** The joined counts of empresa `e`, newest first. */
  function CountsOf(maquinas: map<int, Machine>, conteos: map<int, Conteo>, e: string): (r: seq<Keyed<CountRow>>)
    ensures SortedBy(r, NewestFirst)
    ensures DistinctIds(r)
    ensures forall i :: 0 <= i < |r| ==> CountShown(maquinas, conteos, r[i]) && r[i].row.conteo.empresa == e
    ensures forall k :: LatestQualifies(maquinas, conteos, e, k) ==> Listed(r, k)
  {
    NewestCounts(maquinas, conteos, (c: Conteo) => c.empresa == e)
  }

  /** GET /ultimos?empresa=&limit=: at most `limit` counts (10 when absent;
      a negative limit sets no bound) of one empresa whose machine exists,
      newest first. */
  function Latest(maquinas: map<int, Machine>, conteos: map<int, Conteo>, empresa: Option<string>,
                  limit: Option<int>): (r: seq<Keyed<CountRow>>)
    ensures var n := if limit.Some? then limit.value else 10;
      n >= 0 ==> |r| <= n
    ensures SortedBy(r, NewestFirst)
    ensures DistinctIds(r)
    ensures forall i :: 0 <= i < |r| ==>
      CountShown(maquinas, conteos, r[i]) && r[i].row.conteo.empresa == EmpresaOrDefault(empresa)
  {
    var e := EmpresaOrDefault(empresa);
    var all := CountsOf(maquinas, conteos, e);
    var r := Limit(all, if limit.Some? then limit.value else 10);
    PrefixDistinctIds(r, all);
    PrefixKeeps(r, all, NewestFirst, (x: Keyed<CountRow>) => CountShown(maquinas, conteos, x) && x.row.conteo.empresa == e);
    r
  }

  /** Nothing newer is left out of GET /ultimos: a qualifying count is
      listed, or no newer than every listed one; and when fewer rows than
      the limit come back, every qualifying count is listed. */
  lemma LatestIsNewest(maquinas: map<int, Machine>, conteos: map<int, Conteo>, empresa: Option<string>,
                       limit: Option<int>, k: int)
    requires LatestQualifies(maquinas, conteos, EmpresaOrDefault(empresa), k)
    ensures var r := Latest(maquinas, conteos, empresa, limit);
      Listed(r, k) || forall i :: 0 <= i < |r| ==> r[i].row.conteo.fechaConteo >= conteos[k].fechaConteo
    ensures var r := Latest(maquinas, conteos, empresa, limit);
      var n := if limit.Some? then limit.value else 10;
      n < 0 || |r| < n ==> Listed(r, k)
  {
    var all := CountsOf(maquinas, conteos, EmpresaOrDefault(empresa));
    var r := Latest(maquinas, conteos, empresa, limit);
    var p :| 0 <= p < |all| && all[p].id == k;
    assert all[p].row.conteo == conteos[k];
    if p < |r| {
      assert r[p] == all[p];
    } else {
      forall i | 0 <= i < |r| ensures r[i].row.conteo.fechaConteo >= conteos[k].fechaConteo {
        assert r[i] == all[i] && NewestFirst(all[i], all[p]);
      }
    }
  }

  /** The WHERE clause of GET /por-maquina/:maquina_id. */
  predicate OfMachine(maquinaId: int, e: string, desde: Option<int>, hasta: Option<int>, c: Conteo) {
    c.maquinaId == maquinaId && c.empresa == e && InDayRange(c.fechaConteo, desde, hasta)
  }

  /** GET /por-maquina/:maquina_id?fecha_desde=&fecha_hasta=&empresa=: the
      counts of one machine, if it exists, and of one empresa ("Telecom"
      when absent), within the day range, newest first. */
  function ByMachine(maquinas: map<int, Machine>, conteos: map<int, Conteo>, maquinaId: int, empresa: Option<string>,
                     desde: Option<int>, hasta: Option<int>): (r: seq<Keyed<CountRow>>)
    ensures SortedBy(r, NewestFirst)
    ensures DistinctIds(r)
    ensures forall i :: 0 <= i < |r| ==>
      CountShown(maquinas, conteos, r[i]) && OfMachine(maquinaId, EmpresaOrDefault(empresa), desde, hasta, r[i].row.conteo)
    ensures forall k :: (k in conteos && maquinaId in maquinas
      && OfMachine(maquinaId, EmpresaOrDefault(empresa), desde, hasta, conteos[k])) ==> Listed(r, k)
    ensures maquinaId !in maquinas ==> r == []
  {
    var e := EmpresaOrDefault(empresa);
    NewestCounts(maquinas, conteos, (c: Conteo) => OfMachine(maquinaId, e, desde, hasta, c))
  }
}
