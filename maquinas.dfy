/** The machine routes: create, list, list buildings, edit and delete rows
    of `maquinas`. Deleting is the one place where the registry looks at
    `cargas_maquinas`: a machine with loads cannot be removed. */
module Maquinas {
  import opened Common
  import opened Table
  import opened Order
  import opened Db

  /** The status a new machine reports. */
  const ESTADO_INICIAL: string := "activa"

  /** The row POST / inserts for a request that passed validation. */
  function NewMachine(nombre: string, edificio: string, ubicacion: Option<string>, empresa: Option<string>,
                      now: nat): (m: Machine)
    ensures m.nombre == nombre && m.edificio == edificio
    ensures m.ubicacion == (if Truthy(ubicacion) then ubicacion.value else "")
    ensures IsEmpresa(m.empresa)
    ensures EmpresaGiven(empresa) ==> m.empresa == empresa.value
    ensures m.empresa != TELECOM ==> empresa == Some(m.empresa)
    ensures m.estado == ESTADO_INICIAL
    ensures m.createdAt == now && m.updatedAt == now
  {
    Machine(nombre, edificio, OrElse(ubicacion, ""), NormalizeEmpresa(empresa, TELECOM), ESTADO_INICIAL, now, now)
  }

  /** POST /. */
  method Create(db: Store, nombre: Option<string>, edificio: Option<string>, ubicacion: Option<string>,
                empresa: Option<string>, now: nat)
    returns (status: Status, id: Option<int>)
    requires db.Valid()
    modifies db`maquinas, db`nextMaquina
    ensures db.Valid()
    ensures status == Ok || status == BadRequest
    ensures status == Ok <==> Truthy(nombre) && Truthy(edificio)
    ensures id.Some? <==> status == Ok
    ensures status == BadRequest ==> unchanged(db)
    ensures status == Ok ==>
      && id.value == old(db.nextMaquina) && id.value !in old(db.maquinas)
      && db.maquinas == old(db.maquinas)[id.value := NewMachine(nombre.value, edificio.value, ubicacion, empresa, now)]
  {
    if !Truthy(nombre) || !Truthy(edificio) {
      return BadRequest, None;
    }
    var newId := db.nextMaquina;
    var row := NewMachine(nombre.value, edificio.value, ubicacion, empresa, now);
    InsertAtNext(db.maquinas, newId, row);
    db.maquinas := db.maquinas[newId := row];
    db.nextMaquina := newId + 1;
    return Ok, Some(newId);
  }

  /** `ORDER BY edificio, nombre`. */
  predicate BuildingThenName(x: Keyed<Machine>, y: Keyed<Machine>) {
    LexLt(x.row.edificio, y.row.edificio) || (x.row.edificio == y.row.edificio && LexLe(x.row.nombre, y.row.nombre))
  }

  lemma BuildingThenNameIsTotalPreorder()
    ensures TotalPreorder(BuildingThenName)
  {
    forall x, y ensures BuildingThenName(x, y) || BuildingThenName(y, x) {
      LexLeTotal(x.row.edificio, y.row.edificio);
      LexLeTotal(x.row.nombre, y.row.nombre);
    }
    forall x, y, z | BuildingThenName(x, y) && BuildingThenName(y, z) ensures BuildingThenName(x, z) {
      var a, b, c := x.row.edificio, y.row.edificio, z.row.edificio;
      if a == b && b == c {
        LexLeTrans(x.row.nombre, y.row.nombre, z.row.nombre);
      } else if a != b && b != c {
        LexLtLeTrans(a, b, c);
      }
    }
  }

  /** The WHERE clause of GET /: the empresa filter applies only to one of
      the two tags, the building filter to any non-empty value. */
  predicate Matches(empresa: Option<string>, edificio: Option<string>, m: Machine) {
    (EmpresaGiven(empresa) ==> m.empresa == empresa.value) && (Truthy(edificio) ==> m.edificio == edificio.value)
  }

  /** GET /?empresa=&edificio=. */
  function List(maquinas: map<int, Machine>, empresa: Option<string>, edificio: Option<string>): (r: seq<Keyed<Machine>>)
    ensures SortedBy(r, BuildingThenName)
    ensures DistinctIds(r)
    ensures forall i :: 0 <= i < |r| ==>
      r[i].id in maquinas && r[i].row == maquinas[r[i].id] && Matches(empresa, edificio, r[i].row)
    ensures forall k :: k in maquinas && Matches(empresa, edificio, maquinas[k]) ==> Listed(r, k)
  {
    var rows := Select(maquinas, (m: Machine) => Matches(empresa, edificio, m));
    var r := SortBy(rows, BuildingThenName);
    BuildingThenNameIsTotalPreorder();
    SortBySorted(rows, BuildingThenName);
    PermutationKeeps(r, rows,
      (x: Keyed<Machine>) => x.id in maquinas && x.row == maquinas[x.id] && Matches(empresa, edificio, x.row));
    PermutationDistinctIds(r, rows);
    r
  }

  /** Some machine that passes the empresa filter stands in building `b`. */
  ghost predicate HasBuilding(maquinas: map<int, Machine>, empresa: Option<string>, b: string) {
    exists k :: k in maquinas && Matches(empresa, None, maquinas[k]) && maquinas[k].edificio == b
  }

  /** The buildings of a list of rows that holds exactly the machines passing
      the empresa filter are the buildings of those machines. */
  lemma BuildingNames(maquinas: map<int, Machine>, empresa: Option<string>, rows: seq<Keyed<Machine>>, names: seq<string>)
    requires forall i :: 0 <= i < |rows| ==>
      rows[i].id in maquinas && rows[i].row == maquinas[rows[i].id] && Matches(empresa, None, rows[i].row)
    requires forall k :: k in maquinas && Matches(empresa, None, maquinas[k]) ==> Listed(rows, k)
    requires |names| == |rows| && forall i :: 0 <= i < |rows| ==> names[i] == rows[i].row.edificio
    ensures forall b :: b in names <==> HasBuilding(maquinas, empresa, b)
  {
    forall b ensures b in names <==> HasBuilding(maquinas, empresa, b) {
      if b in names {
        var i :| 0 <= i < |names| && names[i] == b;
        assert maquinas[rows[i].id].edificio == b;
      }
      if HasBuilding(maquinas, empresa, b) {
        var k :| k in maquinas && Matches(empresa, None, maquinas[k]) && maquinas[k].edificio == b;
        assert Listed(rows, k);
        var i :| 0 <= i < |rows| && rows[i].id == k;
        assert names[i] == b;
      }
    }
  }

  /** GET /edificios?empresa=: `SELECT DISTINCT edificio ... ORDER BY
      edificio`. Each building of a matching machine appears exactly once,
      in increasing order, and no other value appears. */
  function Edificios(maquinas: map<int, Machine>, empresa: Option<string>): (r: seq<string>)
    ensures StrictlyIncreasing(r)
    ensures forall b :: b in r <==> HasBuilding(maquinas, empresa, b)
  {
    var rows := Select(maquinas, (m: Machine) => Matches(empresa, None, m));
    var names := seq(|rows|, i requires 0 <= i < |rows| => rows[i].row.edificio);
    BuildingNames(maquinas, empresa, rows, names);
    DistinctSorted(names)
  }

  /** The body of PUT /:id. `ubicacion` is None only when absent. */
  datatype MachineEdit = MachineEdit(
    nombre: Option<string>,
    edificio: Option<string>,
    ubicacion: Option<string>,
    empresa: Option<string>,
    estado: Option<string>)

  /** The row after an edit: an empty or missing name, building or status
      keeps the stored one, a given `ubicacion` replaces it even when
      empty, and `empresa` changes only to one of the two tags. */
  function EditedMachine(m: Machine, e: MachineEdit, now: nat): (r: Machine)
    ensures r.nombre == (if Truthy(e.nombre) then e.nombre.value else m.nombre)
    ensures r.edificio == (if Truthy(e.edificio) then e.edificio.value else m.edificio)
    ensures r.estado == (if Truthy(e.estado) then e.estado.value else m.estado)
    ensures r.ubicacion == (if e.ubicacion.Some? then e.ubicacion.value else m.ubicacion)
    ensures r.empresa == (if EmpresaGiven(e.empresa) then e.empresa.value else m.empresa)
    ensures m.nombre != "" ==> r.nombre != ""
    ensures m.edificio != "" ==> r.edificio != ""
    ensures IsEmpresa(m.empresa) ==> IsEmpresa(r.empresa)
    ensures r.createdAt == m.createdAt && r.updatedAt == now
  {
    m.(nombre := OrElse(e.nombre, m.nombre),
       edificio := OrElse(e.edificio, m.edificio),
       ubicacion := if e.ubicacion.Some? then e.ubicacion.value else m.ubicacion,
       empresa := NormalizeEmpresa(e.empresa, m.empresa),
       estado := OrElse(e.estado, m.estado),
       updatedAt := now)
  }

  /** PUT /:id. */
  method Edit(db: Store, id: int, e: MachineEdit, now: nat) returns (status: Status)
    requires db.Valid()
    modifies db`maquinas
    ensures db.Valid()
    ensures status == Ok || status == NotFound
    ensures status == NotFound <==> id !in old(db.maquinas)
    ensures status == NotFound ==> unchanged(db)
    ensures status == Ok ==> db.maquinas == old(db.maquinas)[id := EditedMachine(old(db.maquinas[id]), e, now)]
  {
    if id !in db.maquinas {
      return NotFound;
    }
    var row := db.maquinas[id];
    db.maquinas := db.maquinas[id := EditedMachine(row, e, now)];
    return Ok;
  }

  /** `SELECT * FROM cargas_maquinas WHERE maquina_id = ?`: the loads
      of one machine, in id order. */
  function LoadsOfMachine(cargas: map<int, Carga>, maquinaId: int): (r: seq<Keyed<Carga>>)
    ensures IncreasingIds(r)
    ensures forall i :: 0 <= i < |r| ==>
      r[i].id in cargas && r[i].row == cargas[r[i].id] && r[i].row.maquinaId == maquinaId
    ensures forall k :: k in LoadsOf(cargas, maquinaId) ==> Listed(r, k)
    ensures |r| == |LoadsOf(cargas, maquinaId)|
  {
    var p := (c: Carga) => c.maquinaId == maquinaId;
    SelectCountOf(cargas, p, LoadsOf(cargas, maquinaId));
    Select(cargas, p)
  }

  /** `SELECT COUNT(*) FROM cargas_maquinas WHERE maquina_id = ?`: one
      for each load that names the machine. */
  function LoadCount(cargas: map<int, Carga>, maquinaId: int): (n: nat)
    ensures n == |LoadsOf(cargas, maquinaId)|
  {
    |LoadsOfMachine(cargas, maquinaId)|
  }

  /** The count is positive exactly when some load names the machine. */
  lemma LoadCountPositive(cargas: map<int, Carga>, maquinaId: int)
    ensures LoadCount(cargas, maquinaId) > 0 <==> exists k :: k in cargas && cargas[k].maquinaId == maquinaId
  {
    var s := LoadsOf(cargas, maquinaId);
    if exists k :: k in cargas && cargas[k].maquinaId == maquinaId {
      var k :| k in cargas && cargas[k].maquinaId == maquinaId;
      assert k in s;
    } else {
      assert s == {};
    }
  }

  /** DELETE /:id: refused while any load names the machine; otherwise the
      row is removed, or nothing happens if there is none, and the answer is
      success either way. */
  method Delete(db: Store, id: int) returns (status: Status)
    requires db.Valid()
    modifies db`maquinas
    ensures db.Valid()
    ensures status == Ok || status == HasLoads
    ensures status == HasLoads <==> exists k :: k in db.cargas && db.cargas[k].maquinaId == id
    ensures status == HasLoads ==> unchanged(db)
    ensures status == Ok ==> db.maquinas == old(db.maquinas) - {id}
  {
    var count := LoadCount(db.cargas, id);
    LoadCountPositive(db.cargas, id);
    if count > 0 {
      return HasLoads;
    }
    db.maquinas := db.maquinas - {id};
    return Ok;
  }
}
