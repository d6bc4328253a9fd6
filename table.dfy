/** A table is a map from primary key to row. `Select` is the table scan
    with a WHERE clause that every query of the routes starts from: the
    matching rows, each once, in ascending key order. */
module Table {
  import Order

  /** A row together with its primary key. */
  datatype Keyed<T> = Keyed(id: int, row: T)

  ghost predicate Increasing(ks: seq<int>) {
    forall i, j :: 0 <= i < j < |ks| ==> ks[i] < ks[j]
  }

  ghost predicate IncreasingIds<T>(r: seq<Keyed<T>>) {
    forall i, j :: 0 <= i < j < |r| ==> r[i].id < r[j].id
  }

  /** `r` carries the keys of `rows`, position by position. */
  ghost predicate SameIds<T, U>(r: seq<Keyed<T>>, rows: seq<Keyed<U>>) {
    |r| == |rows| && forall i :: 0 <= i < |r| ==> r[i].id == rows[i].id
  }

  /** A join that keeps the keys of its rows keeps their order. */
  lemma SameIdsIncreasing<T, U>(r: seq<Keyed<T>>, rows: seq<Keyed<U>>)
    requires SameIds(r, rows) && IncreasingIds(rows)
    ensures IncreasingIds(r)
  {
    forall i, j | 0 <= i < j < |r| ensures r[i].id < r[j].id {
      assert r[i].id == rows[i].id && r[j].id == rows[j].id;
    }
  }

  /** A join that keeps the keys of its rows lists every key they list. */
  lemma SameIdsListed<T, U>(r: seq<Keyed<T>>, rows: seq<Keyed<U>>, k: int)
    requires SameIds(r, rows) && Listed(rows, k)
    ensures Listed(r, k)
  {
    var i :| 0 <= i < |rows| && rows[i].id == k;
    assert r[i].id == k;
  }

  /** No key occurs twice: each row is listed once. */
  ghost predicate DistinctIds<T>(r: seq<Keyed<T>>) {
    forall i, j :: 0 <= i < j < |r| ==> r[i].id != r[j].id
  }

  /** The last element and all before it: sequences built one row at a
      time are taken apart from the end. */
  function Last<T>(xs: seq<T>): T
    requires xs != []
  {
    xs[|xs| - 1]
  }

  function Init<T>(xs: seq<T>): (r: seq<T>)
    requires xs != []
    ensures |r| == |xs| - 1 && forall i :: 0 <= i < |r| ==> r[i] == xs[i]
  {
    xs[..|xs| - 1]
  }

  /** Some row of `r` has key `k`. */
  ghost predicate Listed<T>(r: seq<Keyed<T>>, k: int) {
    exists i :: 0 <= i < |r| && r[i].id == k
  }

  lemma NonEmpty(s: set<int>)
    requires s != {}
    ensures exists x :: x in s
  {
    if forall x :: x !in s {
      assert false;
    }
  }

  lemma {:induction false} MinExists(s: set<int>)
    requires s != {}
    ensures exists m :: m in s && forall x :: x in s ==> m <= x
  {
    NonEmpty(s);
    var y :| y in s;
    var rest := s - {y};
    if rest == {} {
      forall x | x in s ensures y <= x {
        assert x == y || x in rest;
      }
    } else {
      MinExists(rest);
      var m :| m in rest && forall x :: x in rest ==> m <= x;
      var least := if y < m then y else m;
      forall x | x in s ensures least <= x {
        if x != y { assert x in rest; }
      }
      assert least in s;
    }
  }

  function MinKey(s: set<int>): (m: int)
    requires s != {}
    ensures m in s && forall x :: x in s ==> m <= x
  {
    MinExists(s);
    var m :| m in s && forall x :: x in s ==> m <= x;
    m
  }

  /** The keys of a table in ascending order. */
  function SortedKeys(s: set<int>): (ks: seq<int>)
    ensures Increasing(ks)
    ensures forall k :: k in ks <==> k in s
  {
    if s == {} then []
    else
      var m := MinKey(s);
      [m] + SortedKeys(s - {m})
  }

  function SelectKeys<T>(m: map<int, T>, ks: seq<int>, p: T -> bool): (r: seq<Keyed<T>>)
    requires forall j :: 0 <= j < |ks| ==> ks[j] in m
    ensures forall i :: 0 <= i < |r| ==> r[i].id in m && r[i].row == m[r[i].id] && p(r[i].row)
    ensures forall i :: 0 <= i < |r| ==> r[i].id in ks
    ensures Increasing(ks) ==> IncreasingIds(r)
  {
    if ks == [] then []
    else
      var rest := SelectKeys(m, ks[1..], p);
      if p(m[ks[0]]) then [Keyed(ks[0], m[ks[0]])] + rest else rest
  }

  lemma {:induction false} SelectKeysComplete<T>(m: map<int, T>, ks: seq<int>, p: T -> bool, j: int)
    requires forall j :: 0 <= j < |ks| ==> ks[j] in m
    requires 0 <= j < |ks| && p(m[ks[j]])
    ensures Listed(SelectKeys(m, ks, p), ks[j])
  {
    var r := SelectKeys(m, ks, p);
    var rest := SelectKeys(m, ks[1..], p);
    if j == 0 {
      assert r[0].id == ks[0];
    } else {
      assert ks[1..][j - 1] == ks[j];
      SelectKeysComplete(m, ks[1..], p, j - 1);
      var i :| 0 <= i < |rest| && rest[i].id == ks[j];
      if p(m[ks[0]]) {
        assert r[i + 1].id == ks[j];
      } else {
        assert r[i].id == ks[j];
      }
    }
  }

  lemma SelectKeysCompleteAll<T>(m: map<int, T>, ks: seq<int>, p: T -> bool)
    requires forall j :: 0 <= j < |ks| ==> ks[j] in m
    ensures forall k :: k in ks && k in m && p(m[k]) ==> Listed(SelectKeys(m, ks, p), k)
  {
    forall k | k in ks && k in m && p(m[k])
      ensures Listed(SelectKeys(m, ks, p), k)
    {
      var j :| 0 <= j < |ks| && ks[j] == k;
      SelectKeysComplete(m, ks, p, j);
    }
  }

  /** `SELECT * FROM m WHERE p ORDER BY id`. */
  function Select<T>(m: map<int, T>, p: T -> bool): (r: seq<Keyed<T>>)
    ensures IncreasingIds(r)
    ensures forall i :: 0 <= i < |r| ==> r[i].id in m && r[i].row == m[r[i].id] && p(r[i].row)
    ensures forall k :: k in m && p(m[k]) ==> Listed(r, k)
  {
    var ks := SortedKeys(m.Keys);
    SelectKeysCompleteAll(m, ks, p);
    SelectKeys(m, ks, p)
  }

  function IdSet<T>(r: seq<Keyed<T>>): set<int> {
    set i | 0 <= i < |r| :: r[i].id
  }

  lemma {:induction false} IncreasingIdsCard<T>(r: seq<Keyed<T>>)
    requires IncreasingIds(r)
    ensures |IdSet(r)| == |r|
  {
    if r != [] {
      IncreasingIdsCard(r[1..]);
      assert IdSet(r) == {r[0].id} + IdSet(r[1..]) by {
        forall x | x in IdSet(r) ensures x in {r[0].id} + IdSet(r[1..]) {
          var i :| 0 <= i < |r| && r[i].id == x;
          if i > 0 { assert r[1..][i - 1].id == x; }
        }
        forall x | x in IdSet(r[1..]) ensures x in IdSet(r) {
          var i :| 0 <= i < |r[1..]| && r[1..][i].id == x;
          assert r[i + 1].id == x;
        }
      }
      assert r[0].id !in IdSet(r[1..]);
    }
  }

  /** The number of rows `Select` returns is the number of keys whose row
      matches: the scan neither repeats nor drops a row. */
  lemma {:induction false} SelectCount<T>(m: map<int, T>, p: T -> bool)
    ensures |Select(m, p)| == |set k | k in m && p(m[k])|
  {
    var r := Select(m, p);
    IncreasingIdsCard(r);
    assert IdSet(r) == set k | k in m && p(m[k]) by {
      forall k | k in m && p(m[k]) ensures k in IdSet(r) {
        var i :| 0 <= i < |r| && r[i].id == k;
      }
    }
  }

  /** The same count, for a set described some other way. */
  lemma SelectCountOf<T>(m: map<int, T>, p: T -> bool, s: set<int>)
    requires forall k :: k in s <==> k in m && p(m[k])
    ensures |Select(m, p)| == |s|
  {
    SelectCount(m, p);
    var matching := set k | k in m && p(m[k]);
    forall k | k in s ensures k in matching {
    }
    assert s == matching;
  }

  /** Reordering rows keeps what holds of each row and which keys are
      present. */
  lemma PermutationKeeps<T>(r: seq<Keyed<T>>, rows: seq<Keyed<T>>, P: Keyed<T> -> bool)
    requires multiset(r) == multiset(rows)
    requires forall i :: 0 <= i < |rows| ==> P(rows[i])
    ensures forall i :: 0 <= i < |r| ==> P(r[i])
    ensures forall k :: Listed(rows, k) ==> Listed(r, k)
  {
    forall i | 0 <= i < |r| ensures P(r[i]) {
      assert r[i] in multiset(rows);
      var j :| 0 <= j < |rows| && rows[j] == r[i];
    }
    forall k | Listed(rows, k) ensures Listed(r, k) {
      var j :| 0 <= j < |rows| && rows[j].id == k;
      assert rows[j] in multiset(r);
      var i :| 0 <= i < |r| && r[i] == rows[j];
    }
  }

  /** Reordering rows keeps every key listed once. */
  lemma PermutationDistinctIds<T>(r: seq<Keyed<T>>, rows: seq<Keyed<T>>)
    requires multiset(r) == multiset(rows) && DistinctIds(rows)
    ensures DistinctIds(r)
  {
    assert Order.NoRepeats(rows) by {
      forall i, j | 0 <= i < j < |rows| ensures rows[i] != rows[j] {
        assert rows[i].id != rows[j].id;
      }
    }
    Order.PermutationNoRepeats(r, rows);
    forall a, b | 0 <= a < b < |r| ensures r[a].id != r[b].id {
      assert r[a] in multiset(rows) && r[b] in multiset(rows);
      var p :| 0 <= p < |rows| && rows[p] == r[a];
      var q :| 0 <= q < |rows| && rows[q] == r[b];
      assert r[a] != r[b];
      if p < q {
        assert rows[p].id != rows[q].id;
      } else {
        assert rows[q].id != rows[p].id;
      }
    }
  }

  /** A prefix of rows listed once lists each of its rows once. */
  lemma PrefixDistinctIds<T>(r: seq<Keyed<T>>, rows: seq<Keyed<T>>)
    requires r <= rows && DistinctIds(rows)
    ensures DistinctIds(r)
  {
    forall a, b | 0 <= a < b < |r| ensures r[a].id != r[b].id {
      assert r[a] == rows[a] && r[b] == rows[b];
    }
  }
}
