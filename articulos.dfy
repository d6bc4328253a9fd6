/** The article routes: create, list, consume, edit and delete rows of
    `articulos`. Consuming shrinks `cantidad` itself and sets `disponibles`
    to the new `cantidad`; editing recomputes `disponibles` from whatever
    `cantidad` and `utilizados` result, with no bound on either. */
module Articulos {
  import opened Common
  import opened Table
  import opened Db

  /** The row POST / inserts for a request that passed validation. */
  function NewArticle(nombre: string, cantidad: int, empresa: Option<string>, imagen: Option<string>, now: nat): (a: Article)
    ensures a.nombre == nombre && a.cantidad == cantidad && a.imagen == imagen
    ensures a.utilizados == 0 && a.disponibles == a.cantidad
    ensures IsEmpresa(a.empresa)
    ensures a.empresa != TELECOM ==> empresa == Some(a.empresa)
    ensures EmpresaGiven(empresa) ==> a.empresa == empresa.value
    ensures a.createdAt == now && a.updatedAt == now
  {
    Article(nombre, cantidad, 0, cantidad, imagen, NormalizeEmpresa(empresa, TELECOM), now, now)
  }

  /** POST /. `cantidad` is None when the field is missing, null, empty or
      not a number. */
  method Create(db: Store, nombre: Option<string>, cantidad: Option<int>, empresa: Option<string>,
                imagen: Option<string>, now: nat)
    returns (status: Status, id: Option<int>)
    requires db.Valid()
    modifies db`articulos, db`nextArticulo
    ensures db.Valid()
    ensures status == Ok || status == BadRequest
    ensures status == Ok <==> Truthy(nombre) && Positive(cantidad)
    ensures id.Some? <==> status == Ok
    ensures status == BadRequest ==> unchanged(db)
    ensures status == Ok ==>
      && id.value == old(db.nextArticulo) && id.value !in old(db.articulos)
      && db.articulos == old(db.articulos)[id.value := NewArticle(nombre.value, cantidad.value, empresa, imagen, now)]
  {
    if !Truthy(nombre) || !Positive(cantidad) {
      return BadRequest, None;
    }
    var newId := db.nextArticulo;
    InsertAtNext(db.articulos, newId, NewArticle(nombre.value, cantidad.value, empresa, imagen, now));
    db.articulos := db.articulos[newId := NewArticle(nombre.value, cantidad.value, empresa, imagen, now)];
    db.nextArticulo := newId + 1;
    return Ok, Some(newId);
  }

  /** GET /?empresa=: every article, or only those of the given empresa
      when the query value is one of the two tags. */
  function List(articulos: map<int, Article>, empresa: Option<string>): (r: seq<Keyed<Article>>)
    ensures IncreasingIds(r)
    ensures forall i :: 0 <= i < |r| ==> r[i].id in articulos && r[i].row == articulos[r[i].id]
    ensures EmpresaGiven(empresa) ==> forall i :: 0 <= i < |r| ==> r[i].row.empresa == empresa.value
    ensures forall k :: k in articulos && (EmpresaGiven(empresa) ==> articulos[k].empresa == empresa.value) ==> Listed(r, k)
  {
    Select(articulos, (a: Article) => !EmpresaGiven(empresa) || a.empresa == empresa.value)
  }

  /** The row after consuming `n` units. */
  function Consumed(a: Article, n: int, now: nat): (r: Article)
    ensures r.cantidad == a.cantidad - n && r.utilizados == a.utilizados + n
    ensures r.cantidad + r.utilizados == a.cantidad + a.utilizados
    ensures r.disponibles == r.cantidad
    ensures n <= a.cantidad ==> r.cantidad >= 0
    ensures r.nombre == a.nombre && r.imagen == a.imagen && r.empresa == a.empresa
    ensures r.createdAt == a.createdAt && r.updatedAt == now
  {
    var cantidad := a.cantidad - n;
    a.(cantidad := cantidad, utilizados := a.utilizados + n, disponibles := cantidad, updatedAt := now)
  }

  /** Consuming does not keep the rule the load routes use: afterwards
      `disponibles == cantidad - utilizados` holds exactly when nothing has
      ever been used. */
  lemma ConsumeBreaksLoadFormula(a: Article, n: int, now: nat)
    ensures var r := Consumed(a, n, now);
      r.disponibles == r.cantidad - r.utilizados <==> a.utilizados + n == 0
  {
  }

  /** POST /:id/utilizar: validate the amount, then read the row, then
      compare against `cantidad` (not `disponibles`), then write. */
  method Consume(db: Store, id: int, cantidadUtilizada: Option<int>, now: nat) returns (status: Status)
    requires db.Valid()
    modifies db`articulos
    ensures db.Valid()
    ensures !Positive(cantidadUtilizada) ==> status == BadRequest
    ensures Positive(cantidadUtilizada) && id !in old(db.articulos) ==> status == NotFound
    ensures Positive(cantidadUtilizada) && id in old(db.articulos) ==>
      (status == InsufficientStock <==> old(db.articulos[id].cantidad) < cantidadUtilizada.value)
    ensures status == Ok || status == BadRequest || status == NotFound || status == InsufficientStock
    ensures status == Ok <==>
      Positive(cantidadUtilizada) && id in old(db.articulos) && cantidadUtilizada.value <= old(db.articulos[id].cantidad)
    ensures status != Ok ==> unchanged(db)
    ensures status == Ok ==>
      && id in old(db.articulos)
      && 0 < cantidadUtilizada.value <= old(db.articulos[id].cantidad)
      && db.articulos == old(db.articulos)[id := Consumed(old(db.articulos[id]), cantidadUtilizada.value, now)]
      && db.articulos[id].cantidad >= 0
  {
    if !Positive(cantidadUtilizada) {
      return BadRequest;
    }
    var n := cantidadUtilizada.value;
    if id !in db.articulos {
      return NotFound;
    }
    var row := db.articulos[id];
    if row.cantidad < n {
      return InsufficientStock;
    }
    db.articulos := db.articulos[id := Consumed(row, n, now)];
    return Ok;
  }

  /** The body of PUT /:id. A numeric field is None only when it is absent
      (`undefined`); `imagen` is the path of a newly uploaded file. */
  datatype ArticleEdit = ArticleEdit(
    nombre: Option<string>,
    cantidad: Option<int>,
    utilizados: Option<int>,
    empresa: Option<string>,
    imagen: Option<string>)

  /** The row after an edit: each field from the request when given,
      otherwise kept, and `disponibles` recomputed from the two results. */
  function Edited(a: Article, e: ArticleEdit, now: nat): (r: Article)
    ensures r.cantidad == (if e.cantidad.Some? then e.cantidad.value else a.cantidad)
    ensures r.utilizados == (if e.utilizados.Some? then e.utilizados.value else a.utilizados)
    ensures r.disponibles == r.cantidad - r.utilizados
    ensures r.nombre == (if Truthy(e.nombre) then e.nombre.value else a.nombre)
    ensures a.nombre != "" ==> r.nombre != ""
    ensures EmpresaGiven(e.empresa) ==> r.empresa == e.empresa.value
    ensures !EmpresaGiven(e.empresa) ==> r.empresa == (if a.empresa == "" then TELECOM else a.empresa)
    ensures IsEmpresa(a.empresa) ==> IsEmpresa(r.empresa)
    ensures r.imagen == (if e.imagen.Some? then e.imagen else a.imagen)
    ensures r.createdAt == a.createdAt && r.updatedAt == now
  {
    var cantidad := if e.cantidad.Some? then e.cantidad.value else a.cantidad;
    var utilizados := if e.utilizados.Some? then e.utilizados.value else a.utilizados;
    a.(nombre := OrElse(e.nombre, a.nombre),
       cantidad := cantidad,
       utilizados := utilizados,
       disponibles := cantidad - utilizados,
       imagen := if e.imagen.Some? then e.imagen else a.imagen,
       empresa := NormalizeEmpresa(e.empresa, OrElse(Some(a.empresa), TELECOM)),
       updatedAt := now)
  }

  /** An edit is not checked against the stock: giving `utilizados` above
      the row's `cantidad` leaves `disponibles` negative. */
  lemma EditCanLeaveNegativeStock(a: Article, n: int, now: nat)
    requires n > a.cantidad
    ensures Edited(a, ArticleEdit(None, None, Some(n), None, None), now).disponibles < 0
  {
  }

  /** PUT /:id. */
  method Edit(db: Store, id: int, e: ArticleEdit, now: nat) returns (status: Status)
    requires db.Valid()
    modifies db`articulos
    ensures db.Valid()
    ensures status == Ok || status == NotFound
    ensures status == NotFound <==> id !in old(db.articulos)
    ensures status == NotFound ==> unchanged(db)
    ensures status == Ok ==> db.articulos == old(db.articulos)[id := Edited(old(db.articulos[id]), e, now)]
  {
    if id !in db.articulos {
      return NotFound;
    }
    var row := db.articulos[id];
    db.articulos := db.articulos[id := Edited(row, e, now)];
    return Ok;
  }

  /** DELETE /:id: removes the row if there is one and always succeeds. It
      does not look at `cargas_maquinas`, so loads of the article remain. */
  method Delete(db: Store, id: int) returns (status: Status)
    requires db.Valid()
    modifies db`articulos
    ensures db.Valid()
    ensures status == Ok
    ensures db.articulos == old(db.articulos) - {id}
    ensures id !in db.articulos
  {
    db.articulos := db.articulos - {id};
    return Ok;
  }
}
