/** The four SQLite tables the routes share, kept in one store object that
    every handler receives, as each router is built from the one database
    handle. A table maps a row id to its row; ids come from a counter per
    table that only grows, so an id is never reused after a delete. The
    `articulos` table is declared AUTOINCREMENT, which gives exactly that;
    for the other three tables the same rule is assumed. */
module Db {
  import opened Common

  /** A row of `articulos`. `disponibles` is stored, not derived: the
      handlers recompute it on every change, by two different rules. */
  datatype Article = Article(
    nombre: string,
    cantidad: int,
    utilizados: int,
    disponibles: int,
    imagen: Option<string>,
    empresa: string,
    createdAt: nat,
    updatedAt: nat)

  /** A row of `maquinas`. */
  datatype Machine = Machine(
    nombre: string,
    edificio: string,
    ubicacion: string,
    empresa: string,
    estado: string,
    createdAt: nat,
    updatedAt: nat)

  /** A row of `cargas_maquinas`: one load of an article into a machine. */
  datatype Carga = Carga(
    maquinaId: int,
    articuloId: int,
    cantidadCargada: int,
    fechaCarga: nat,
    usuario: string,
    observaciones: string)

  /** A row of `conteos_vasos`: one cup-count reading of a machine. */
  datatype Conteo = Conteo(
    maquinaId: int,
    cantidadVasos: int,
    fechaConteo: nat,
    observaciones: Option<string>,
    empresa: string)

  /** Every key of `m` is a positive id below `next`. */
  ghost predicate IdsBelow<T>(m: map<int, T>, next: int) {
    0 < next && forall k :: k in m ==> 0 < k < next
  }

  /** Inserting at the counter and bumping it keeps the counter fresh. */
  lemma InsertAtNext<T>(m: map<int, T>, next: int, v: T)
    requires IdsBelow(m, next)
    ensures next !in m
    ensures IdsBelow(m[next := v], next + 1)
  {
    assert m[next := v].Keys == m.Keys + {next};
  }

  /** Removing a key just inserted restores the table. */
  lemma InsertThenRemove<T>(m: map<int, T>, k: int, v: T)
    requires k !in m
    ensures m[k := v] - {k} == m
  {
  }

  /** The keys of the loads that name machine `maquinaId`. */
  ghost function LoadsOf(cargas: map<int, Carga>, maquinaId: int): set<int> {
    set k | k in cargas && cargas[k].maquinaId == maquinaId
  }

  class Store {
    var articulos: map<int, Article>
    var maquinas: map<int, Machine>
    var cargas: map<int, Carga>
    var conteos: map<int, Conteo>
    var nextArticulo: int
    var nextMaquina: int
    var nextCarga: int
    var nextConteo: int

    /** Every id in use lies below its table's counter, so the counter is a
        fresh id. */
    ghost predicate Valid()
      reads this
    {
      && IdsBelow(articulos, nextArticulo)
      && IdsBelow(maquinas, nextMaquina)
      && IdsBelow(cargas, nextCarga)
      && IdsBelow(conteos, nextConteo)
    }

    constructor ()
      ensures Valid()
      ensures articulos == map[] && maquinas == map[] && cargas == map[] && conteos == map[]
      ensures nextArticulo == 1 && nextMaquina == 1 && nextCarga == 1 && nextConteo == 1
    {
      articulos, maquinas, cargas, conteos := map[], map[], map[], map[];
      nextArticulo, nextMaquina, nextCarga, nextConteo := 1, 1, 1, 1;
    }
  }
}
