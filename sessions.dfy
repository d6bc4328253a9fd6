/** GET /agrupadas: loads grouped into sessions. A session is the set of
    loads of one machine on one calendar day by one user with one note;
    it reports how many loads it holds, their total quantity, its smallest
    load id and its earliest timestamp, and sessions come newest first.

    `GroupAll` folds the loads into sessions one at a time; `Summarize`
    computes a session straight from its members. The fold is proved to
    give every session exactly once, each equal to its `Summarize`. */
module Sessions {
  import opened Common
  import opened Table
  import opened Order
  import opened Db
  import Cargas

  /** `GROUP BY c.maquina_id, DATE(c.fecha_carga), c.usuario, c.observaciones`. */
  datatype SessionKey = SessionKey(maquinaId: int, dia: nat, usuario: string, observaciones: string)

  function KeyOf(c: Carga): SessionKey {
    SessionKey(c.maquinaId, Day(c.fechaCarga), c.usuario, c.observaciones)
  }

  /** `MIN(c.id)`, `MIN(c.fecha_carga)`, `COUNT(*)`, `SUM(c.cantidad_cargada)`. */
  datatype Session = Session(key: SessionKey, minId: int, minFecha: nat, count: nat, total: int)

  /** The loads of `rows` in session `k`, in order. */
  function Members(rows: seq<Keyed<Carga>>, k: SessionKey): (ms: seq<Keyed<Carga>>)
    ensures forall i :: 0 <= i < |ms| ==> KeyOf(ms[i].row) == k
  {
    if rows == [] then []
    else
      var x := Last(rows);
      Members(Init(rows), k) + (if KeyOf(x.row) == k then [x] else [])
  }

  /** Every member of a session is one of the loads. */
  lemma {:induction false} MembersFromRows(rows: seq<Keyed<Carga>>, k: SessionKey, i: int)
    requires 0 <= i < |Members(rows, k)|
    ensures Members(rows, k)[i] in rows
  {
    var init := Members(Init(rows), k);
    if i < |init| {
      MembersFromRows(Init(rows), k, i);
      var j :| 0 <= j < |Init(rows)| && Init(rows)[j] == init[i];
      assert rows[j] == Members(rows, k)[i];
    } else {
      assert Members(rows, k)[i] == Last(rows);
    }
  }

  /** Every load of a session is one of its members. */
  lemma {:induction false} RowsInMembers(rows: seq<Keyed<Carga>>, j: int)
    requires 0 <= j < |rows|
    ensures rows[j] in Members(rows, KeyOf(rows[j].row))
  {
    var k := KeyOf(rows[j].row);
    if j < |rows| - 1 {
      RowsInMembers(Init(rows), j);
      assert Init(rows)[j] == rows[j];
    }
  }

  function MinId(ms: seq<Keyed<Carga>>): (m: int)
    requires ms != []
    ensures forall i :: 0 <= i < |ms| ==> m <= ms[i].id
    ensures exists i :: 0 <= i < |ms| && ms[i].id == m
  {
    if |ms| == 1 then ms[0].id
    else
      var m := MinId(Init(ms));
      assert exists i :: 0 <= i < |ms| && ms[i].id == m by {
        var i :| 0 <= i < |Init(ms)| && Init(ms)[i].id == m;
        assert ms[i].id == m;
      }
      if Last(ms).id < m then Last(ms).id else m
  }

  function MinFecha(ms: seq<Keyed<Carga>>): (m: nat)
    requires ms != []
    ensures forall i :: 0 <= i < |ms| ==> m <= ms[i].row.fechaCarga
    ensures exists i :: 0 <= i < |ms| && ms[i].row.fechaCarga == m
  {
    if |ms| == 1 then ms[0].row.fechaCarga
    else
      var m := MinFecha(Init(ms));
      assert exists i :: 0 <= i < |ms| && ms[i].row.fechaCarga == m by {
        var i :| 0 <= i < |Init(ms)| && Init(ms)[i].row.fechaCarga == m;
        assert ms[i].row.fechaCarga == m;
      }
      if Last(ms).row.fechaCarga < m then Last(ms).row.fechaCarga else m
  }

  /** Session `k` computed from its members. */
  function Summarize(rows: seq<Keyed<Carga>>, k: SessionKey): (s: Session)
    requires Members(rows, k) != []
    ensures s.key == k && s.count == |Members(rows, k)| && s.count > 0
  {
    var ms := Members(rows, k);
    Session(k, MinId(ms), MinFecha(ms), |ms|, Cargas.Sum(ms))
  }

  /** The session a load opens. */
  function Open(x: Keyed<Carga>): Session {
    Session(KeyOf(x.row), x.id, x.row.fechaCarga, 1, x.row.cantidadCargada)
  }

  /** A session after one more of its loads. */
  function Join(s: Session, x: Keyed<Carga>): Session {
    Session(s.key,
            if x.id < s.minId then x.id else s.minId,
            if x.row.fechaCarga < s.minFecha then x.row.fechaCarga else s.minFecha,
            s.count + 1,
            s.total + x.row.cantidadCargada)
  }

  /** The position of the session with key `k`, or -1. */
  function Find(gs: seq<Session>, k: SessionKey): (i: int)
    ensures -1 <= i < |gs|
    ensures i >= 0 ==> gs[i].key == k
    ensures i < 0 ==> forall j :: 0 <= j < |gs| ==> gs[j].key != k
  {
    if gs == [] then -1
    else if Last(gs).key == k then |gs| - 1
    else Find(Init(gs), k)
  }

  /** Adds one load to the sessions found so far. */
  function Add(gs: seq<Session>, x: Keyed<Carga>): seq<Session> {
    var i := Find(gs, KeyOf(x.row));
    if i < 0 then gs + [Open(x)] else gs[i := Join(gs[i], x)]
  }

  ghost predicate DistinctKeys(gs: seq<Session>) {
    forall i, j :: 0 <= i < j < |gs| ==> gs[i].key != gs[j].key
  }

  ghost predicate HasKey(gs: seq<Session>, k: SessionKey) {
    exists i :: 0 <= i < |gs| && gs[i].key == k
  }

  /** `gs` is the grouping of `rows`: one session per key that occurs, and
      each equals its summary. */
  ghost predicate Groups(rows: seq<Keyed<Carga>>, gs: seq<Session>) {
    && DistinctKeys(gs)
    && (forall i :: 0 <= i < |gs| ==> Members(rows, gs[i].key) != [] && gs[i] == Summarize(rows, gs[i].key))
    && (forall k :: Members(rows, k) != [] ==> HasKey(gs, k))
  }

  lemma MembersSnoc(rows: seq<Keyed<Carga>>, x: Keyed<Carga>, k: SessionKey)
    ensures Members(rows + [x], k) == Members(rows, k) + (if KeyOf(x.row) == k then [x] else [])
  {
    assert Init(rows + [x]) == rows;
  }

  lemma SnocParts(ms: seq<Keyed<Carga>>, x: Keyed<Carga>)
    ensures Init(ms + [x]) == ms && Last(ms + [x]) == x
  {
  }

  /** A load of another session leaves session `k` as it was. */
  lemma SummarizeOther(rows: seq<Keyed<Carga>>, x: Keyed<Carga>, k: SessionKey)
    requires KeyOf(x.row) != k && Members(rows, k) != []
    ensures Members(rows + [x], k) != [] && Summarize(rows + [x], k) == Summarize(rows, k)
  {
    MembersSnoc(rows, x, k);
    assert Members(rows + [x], k) == Members(rows, k) + [];
    assert Members(rows, k) + [] == Members(rows, k);
  }

  /** A load of an existing session joins it. */
  lemma SummarizeJoin(rows: seq<Keyed<Carga>>, x: Keyed<Carga>)
    requires Members(rows, KeyOf(x.row)) != []
    ensures Members(rows + [x], KeyOf(x.row)) != []
    ensures Summarize(rows + [x], KeyOf(x.row)) == Join(Summarize(rows, KeyOf(x.row)), x)
  {
    var k := KeyOf(x.row);
    var ms := Members(rows, k);
    MembersSnoc(rows, x, k);
    var ms' := Members(rows + [x], k);
    assert ms' == ms + [x];
    SnocAggregates(ms, x);
    assert Summarize(rows, k) == Session(k, MinId(ms), MinFecha(ms), |ms|, Cargas.Sum(ms));
    assert Summarize(rows + [x], k) == Session(k, MinId(ms'), MinFecha(ms'), |ms'|, Cargas.Sum(ms'));
  }

  /** The aggregates of a session after one more member. */
  lemma SnocAggregates(ms: seq<Keyed<Carga>>, x: Keyed<Carga>)
    requires ms != []
    ensures MinId(ms + [x]) == if x.id < MinId(ms) then x.id else MinId(ms)
    ensures MinFecha(ms + [x]) == if x.row.fechaCarga < MinFecha(ms) then x.row.fechaCarga else MinFecha(ms)
    ensures Cargas.Sum(ms + [x]) == Cargas.Sum(ms) + x.row.cantidadCargada
  {
    SnocParts(ms, x);
    assert |ms + [x]| > 1;
  }

  /** The first load of a session opens it. */
  lemma SummarizeOpen(rows: seq<Keyed<Carga>>, x: Keyed<Carga>)
    requires Members(rows, KeyOf(x.row)) == []
    ensures Members(rows + [x], KeyOf(x.row)) == [x]
    ensures Summarize(rows + [x], KeyOf(x.row)) == Open(x)
  {
    MembersSnoc(rows, x, KeyOf(x.row));
    assert [] + [x] == [x];
    assert Init([x]) == [] && Last([x]) == x;
    assert Cargas.Sum([x]) == x.row.cantidadCargada;
  }

  /** A load of a session not seen yet opens a new one at the end. */
  lemma AddOpens(rows: seq<Keyed<Carga>>, gs: seq<Session>, x: Keyed<Carga>)
    requires Groups(rows, gs) && !HasKey(gs, KeyOf(x.row))
    ensures Groups(rows + [x], gs + [Open(x)])
  {
    var k := KeyOf(x.row);
    var rs := rows + [x];
    var gs' := gs + [Open(x)];
    SummarizeOpen(rows, x);
    assert DistinctKeys(gs') by {
      forall a, b | 0 <= a < b < |gs'| ensures gs'[a].key != gs'[b].key {
        if b == |gs| {
          assert gs'[a] == gs[a];
        } else {
          assert gs'[a] == gs[a] && gs'[b] == gs[b];
        }
      }
    }
    forall g | 0 <= g < |gs'| ensures Members(rs, gs'[g].key) != [] && gs'[g] == Summarize(rs, gs'[g].key) {
      if g < |gs| {
        assert gs'[g] == gs[g];
        SummarizeOther(rows, x, gs[g].key);
      }
    }
    forall k' | Members(rs, k') != [] ensures HasKey(gs', k') {
      MembersSnoc(rows, x, k');
      if k' == k {
        assert gs'[|gs|].key == k;
      } else {
        assert Members(rows, k') != [];
        var g :| 0 <= g < |gs| && gs[g].key == k';
        assert gs'[g].key == k';
      }
    }
  }

  lemma JoinKeepsKeys(gs: seq<Session>, i: int, x: Keyed<Carga>, gs': seq<Session>)
    requires 0 <= i < |gs| && gs' == gs[i := Join(gs[i], x)]
    requires DistinctKeys(gs)
    ensures forall g :: 0 <= g < |gs'| ==> gs'[g].key == gs[g].key
    ensures DistinctKeys(gs')
  {
    assert forall g :: 0 <= g < |gs'| ==> gs'[g].key == gs[g].key;
    forall a, b | 0 <= a < b < |gs'| ensures gs'[a].key != gs'[b].key {
      assert gs'[a].key == gs[a].key && gs'[b].key == gs[b].key;
    }
  }

  lemma JoinKeepsSummaries(rows: seq<Keyed<Carga>>, gs: seq<Session>, x: Keyed<Carga>, i: int, gs': seq<Session>)
    requires Groups(rows, gs) && 0 <= i < |gs| && gs[i].key == KeyOf(x.row)
    requires gs' == gs[i := Join(gs[i], x)]
    ensures forall g :: 0 <= g < |gs'| ==>
      Members(rows + [x], gs'[g].key) != [] && gs'[g] == Summarize(rows + [x], gs'[g].key)
  {
    SummarizeJoin(rows, x);
    forall g | 0 <= g < |gs'| ensures Members(rows + [x], gs'[g].key) != [] && gs'[g] == Summarize(rows + [x], gs'[g].key) {
      if g != i {
        assert gs'[g] == gs[g];
        SummarizeOther(rows, x, gs[g].key);
      }
    }
  }

  lemma JoinKeepsCover(rows: seq<Keyed<Carga>>, gs: seq<Session>, x: Keyed<Carga>, i: int, gs': seq<Session>)
    requires Groups(rows, gs) && 0 <= i < |gs| && gs[i].key == KeyOf(x.row)
    requires gs' == gs[i := Join(gs[i], x)]
    ensures forall k :: Members(rows + [x], k) != [] ==> HasKey(gs', k)
  {
    forall k | Members(rows + [x], k) != [] ensures HasKey(gs', k) {
      MembersSnoc(rows, x, k);
      if k == KeyOf(x.row) {
        assert gs'[i].key == k;
      } else {
        assert Members(rows, k) != [];
        var g :| 0 <= g < |gs| && gs[g].key == k;
        assert gs'[g].key == k;
      }
    }
  }

  /** A load of a session already seen joins it in place. */
  lemma AddJoins(rows: seq<Keyed<Carga>>, gs: seq<Session>, x: Keyed<Carga>, i: int)
    requires Groups(rows, gs) && 0 <= i < |gs| && gs[i].key == KeyOf(x.row)
    ensures Groups(rows + [x], gs[i := Join(gs[i], x)])
  {
    var gs' := gs[i := Join(gs[i], x)];
    JoinKeepsKeys(gs, i, x, gs');
    JoinKeepsSummaries(rows, gs, x, i, gs');
    JoinKeepsCover(rows, gs, x, i, gs');
  }

  /** Adding a load keeps the grouping exact. */
  lemma AddKeepsGroups(rows: seq<Keyed<Carga>>, gs: seq<Session>, x: Keyed<Carga>)
    requires Groups(rows, gs)
    ensures Groups(rows + [x], Add(gs, x))
  {
    var i := Find(gs, KeyOf(x.row));
    if i < 0 {
      AddOpens(rows, gs, x);
    } else {
      AddJoins(rows, gs, x, i);
    }
  }

  /** The sessions of `rows`, in order of first appearance. */
  function GroupAll(rows: seq<Keyed<Carga>>): (gs: seq<Session>)
    ensures Groups(rows, gs)
  {
    if rows == [] then []
    else
      assert rows == Init(rows) + [Last(rows)];
      AddKeepsGroups(Init(rows), GroupAll(Init(rows)), Last(rows));
      Add(GroupAll(Init(rows)), Last(rows))
  }

  /** A row of the response: the session with its machine. */
  datatype SessionRow = SessionRow(session: Session, maquina: Machine)

  /** `ORDER BY MIN(c.fecha_carga) DESC`. */
  predicate NewestFirst(x: Session, y: Session) {
    x.minFecha >= y.minFecha
  }

  predicate NewestRowFirst(x: SessionRow, y: SessionRow) {
    NewestFirst(x.session, y.session)
  }

  /** The loads the query groups: those whose machine and article exist
      and that pass the filter, in id order. */
  function SessionLoads(maquinas: map<int, Machine>, articulos: map<int, Article>, cargas: map<int, Carga>,
                        maquinaId: Option<int>, empresa: Option<string>, desde: Option<int>, hasta: Option<int>)
    : (r: seq<Keyed<Carga>>)
    ensures forall i :: 0 <= i < |r| ==> Cargas.Visible(maquinas, articulos, r[i].row)
  {
    Cargas.MatchingLoads(maquinas, articulos, cargas, Cargas.LoadFilter(maquinaId, None, empresa, desde, hasta))
  }

  /** Each session's machine is present, since its members are visible. */
  lemma SessionMachines(rows: seq<Keyed<Carga>>, gs: seq<Session>, maquinas: map<int, Machine>,
                        articulos: map<int, Article>)
    requires Groups(rows, gs)
    requires forall i :: 0 <= i < |rows| ==> Cargas.Visible(maquinas, articulos, rows[i].row)
    ensures forall i :: 0 <= i < |gs| ==> gs[i].key.maquinaId in maquinas
  {
    forall i | 0 <= i < |gs| ensures gs[i].key.maquinaId in maquinas {
      MembersFromRows(rows, gs[i].key, 0);
      var j :| 0 <= j < |rows| && rows[j] == Members(rows, gs[i].key)[0];
    }
  }

  /** `r` lists the sessions of `rows`: newest first, each exactly once,
      each equal to its summary and paired with its machine, and every
      load's session is there. */
  ghost predicate Grouped(rows: seq<Keyed<Carga>>, maquinas: map<int, Machine>, r: seq<SessionRow>) {
    && SortedBy(r, NewestRowFirst)
    && ExactRows(rows, maquinas, r)
    && DistinctRows(r)
    && CoveringRows(rows, r)
  }

  /** Each row is a session with members, equal to its summary, paired
      with its machine. */
  ghost predicate ExactRows(rows: seq<Keyed<Carga>>, maquinas: map<int, Machine>, r: seq<SessionRow>) {
    forall i :: 0 <= i < |r| ==>
      && Members(rows, r[i].session.key) != []
      && r[i].session == Summarize(rows, r[i].session.key)
      && r[i].session.key.maquinaId in maquinas
      && r[i].maquina == maquinas[r[i].session.key.maquinaId]
  }

  ghost predicate DistinctRows(r: seq<SessionRow>) {
    forall a, b :: 0 <= a < b < |r| ==> r[a].session.key != r[b].session.key
  }

  /** Every load's session has a row. */
  ghost predicate CoveringRows(rows: seq<Keyed<Carga>>, r: seq<SessionRow>) {
    forall j :: 0 <= j < |rows| ==> HasRow(r, KeyOf(rows[j].row))
  }

  ghost predicate HasRow(r: seq<SessionRow>, k: SessionKey) {
    exists i :: 0 <= i < |r| && r[i].session.key == k
  }

  /** GET /agrupadas?maquina_id=&empresa=&fecha_desde=&fecha_hasta=: every
      session of the visible, matching loads exactly once, each with its
      count, total, first id and first timestamp and with its machine,
      newest first. */
  function ListSessions(maquinas: map<int, Machine>, articulos: map<int, Article>, cargas: map<int, Carga>,
                        maquinaId: Option<int>, empresa: Option<string>, desde: Option<int>, hasta: Option<int>)
    : (r: seq<SessionRow>)
    ensures Grouped(SessionLoads(maquinas, articulos, cargas, maquinaId, empresa, desde, hasta), maquinas, r)
  {
    var rows := SessionLoads(maquinas, articulos, cargas, maquinaId, empresa, desde, hasta);
    var gs := GroupAll(rows);
    SessionMachines(rows, gs, maquinas, articulos);
    var sorted := SortBy(gs, NewestFirst);
    SortBySorted(gs, NewestFirst);
    SortedSessions(rows, gs, sorted, maquinas);
    SortedGrouped(rows, sorted, maquinas);
    WithMachines(sorted, maquinas)
  }

  /** Each session with its machine row. */
  function WithMachines(ss: seq<Session>, maquinas: map<int, Machine>): (r: seq<SessionRow>)
    requires forall i :: 0 <= i < |ss| ==> ss[i].key.maquinaId in maquinas
    ensures |r| == |ss|
    ensures forall i :: 0 <= i < |r| ==> r[i].session == ss[i] && r[i].maquina == maquinas[ss[i].key.maquinaId]
  {
    seq(|ss|, i requires 0 <= i < |ss| => SessionRow(ss[i], maquinas[ss[i].key.maquinaId]))
  }

  /** Pairing each session of a sorted copy of the grouping with its
      machine lists the sessions as `Grouped` says. */
  lemma SortedGrouped(rows: seq<Keyed<Carga>>, sorted: seq<Session>, maquinas: map<int, Machine>)
    requires SortedBy(sorted, NewestFirst)
    requires forall i :: 0 <= i < |sorted| ==>
      && Members(rows, sorted[i].key) != [] && sorted[i] == Summarize(rows, sorted[i].key)
      && sorted[i].key.maquinaId in maquinas
    requires DistinctKeys(sorted)
    requires forall j :: 0 <= j < |rows| ==> HasKey(sorted, KeyOf(rows[j].row))
    ensures Grouped(rows, maquinas, WithMachines(sorted, maquinas))
  {
    var r := WithMachines(sorted, maquinas);
    forall a, b | 0 <= a < b < |r| ensures NewestRowFirst(r[a], r[b]) {
      assert NewestFirst(sorted[a], sorted[b]);
    }
    forall i | 0 <= i < |r| ensures
      && Members(rows, r[i].session.key) != []
      && r[i].session == Summarize(rows, r[i].session.key)
      && r[i].session.key.maquinaId in maquinas
      && r[i].maquina == maquinas[r[i].session.key.maquinaId]
    {
      assert r[i].session == sorted[i];
    }
    assert ExactRows(rows, maquinas, r);
    forall a, b | 0 <= a < b < |r| ensures r[a].session.key != r[b].session.key {
      assert r[a].session == sorted[a] && r[b].session == sorted[b];
    }
    assert DistinctRows(r);
    CoveringSorted(rows, sorted, maquinas);
  }

  lemma CoveringSorted(rows: seq<Keyed<Carga>>, sorted: seq<Session>, maquinas: map<int, Machine>)
    requires forall i :: 0 <= i < |sorted| ==> sorted[i].key.maquinaId in maquinas
    requires forall j :: 0 <= j < |rows| ==> HasKey(sorted, KeyOf(rows[j].row))
    ensures CoveringRows(rows, WithMachines(sorted, maquinas))
  {
    var r := WithMachines(sorted, maquinas);
    forall j | 0 <= j < |rows| ensures HasRow(r, KeyOf(rows[j].row)) {
      var key := KeyOf(rows[j].row);
      assert HasKey(sorted, key);
      var i :| 0 <= i < |sorted| && sorted[i].key == key;
      assert r[i].session == sorted[i];
    }
  }

  /** What holds of the grouping holds of its sorted copy. */
  lemma SortedSessions(rows: seq<Keyed<Carga>>, gs: seq<Session>, sorted: seq<Session>, maquinas: map<int, Machine>)
    requires Groups(rows, gs) && multiset(sorted) == multiset(gs)
    requires forall i :: 0 <= i < |gs| ==> gs[i].key.maquinaId in maquinas
    ensures forall i :: 0 <= i < |sorted| ==>
      && Members(rows, sorted[i].key) != [] && sorted[i] == Summarize(rows, sorted[i].key)
      && sorted[i].key.maquinaId in maquinas
    ensures DistinctKeys(sorted)
    ensures forall j :: 0 <= j < |rows| ==> HasKey(sorted, KeyOf(rows[j].row))
  {
    PermutationHolds(sorted, gs, (s: Session) =>
      Members(rows, s.key) != [] && s == Summarize(rows, s.key) && s.key.maquinaId in maquinas);
    assert NoRepeats(gs);
    PermutationNoRepeats(sorted, gs);
    forall j | 0 <= j < |rows| ensures HasKey(sorted, KeyOf(rows[j].row)) {
      RowsInMembers(rows, j);
      var g :| 0 <= g < |gs| && gs[g].key == KeyOf(rows[j].row);
      assert gs[g] in multiset(sorted);
      var i :| 0 <= i < |sorted| && sorted[i] == gs[g];
    }
  }
}
