/** ORDER BY, DISTINCT and LIMIT. Results are sorted by a total preorder
    given as a function (rows with equal sort keys keep the order of the
    scan; SQL leaves that order open, so no lemma promises it), strings
    compare as SQLite's BINARY collation does, and LIMIT keeps a prefix. */
module Order {

  ghost predicate TotalPreorder<T(!new)>(le: (T, T) -> bool) {
    && (forall a, b :: le(a, b) || le(b, a))
    && (forall a, b, c :: le(a, b) && le(b, c) ==> le(a, c))
  }

  ghost predicate SortedBy<T>(xs: seq<T>, le: (T, T) -> bool) {
    forall i, j :: 0 <= i < j < |xs| ==> le(xs[i], xs[j])
  }

  function Insert<T>(x: T, ys: seq<T>, le: (T, T) -> bool): (r: seq<T>)
    ensures multiset(r) == multiset(ys) + multiset{x}
  {
    if ys == [] || le(x, ys[0]) then [x] + ys
    else
      assert ys == [ys[0]] + ys[1..];
      [ys[0]] + Insert(x, ys[1..], le)
  }

  /** Insertion sort; the result is a permutation of the input. */
  function SortBy<T>(xs: seq<T>, le: (T, T) -> bool): (r: seq<T>)
    ensures multiset(r) == multiset(xs)
  {
    if xs == [] then []
    else
      assert xs == [xs[0]] + xs[1..];
      Insert(xs[0], SortBy(xs[1..], le), le)
  }

  lemma {:induction false} InsertSorted<T(!new)>(x: T, ys: seq<T>, le: (T, T) -> bool)
    requires TotalPreorder(le) && SortedBy(ys, le)
    ensures SortedBy(Insert(x, ys, le), le)
  {
    if ys == [] || le(x, ys[0]) {
      var r := [x] + ys;
      forall i, j | 0 <= i < j < |r| ensures le(r[i], r[j]) {
        if i == 0 {
          assert le(x, ys[0]) && le(ys[0], ys[j - 1]);
        } else {
          assert r[i] == ys[i - 1] && r[j] == ys[j - 1];
        }
      }
    } else {
      var tail := Insert(x, ys[1..], le);
      assert SortedBy(ys[1..], le) by {
        forall i, j | 0 <= i < j < |ys[1..]| ensures le(ys[1..][i], ys[1..][j]) {
          assert ys[1..][i] == ys[i + 1] && ys[1..][j] == ys[j + 1];
        }
      }
      InsertSorted(x, ys[1..], le);
      var r := [ys[0]] + tail;
      forall i, j | 0 <= i < j < |r| ensures le(r[i], r[j]) {
        if i == 0 {
          var z := tail[j - 1];
          assert z in multiset(tail);
          assert z in multiset(ys[1..]) + multiset{x};
          if z == x {
            assert le(ys[0], x);
          } else {
            assert z in ys[1..];
            var k :| 0 <= k < |ys[1..]| && ys[1..][k] == z;
            assert le(ys[0], ys[k + 1]);
          }
        } else {
          assert r[i] == tail[i - 1] && r[j] == tail[j - 1];
        }
      }
    }
  }

  lemma {:induction false} SortBySorted<T(!new)>(xs: seq<T>, le: (T, T) -> bool)
    requires TotalPreorder(le)
    ensures SortedBy(SortBy(xs, le), le)
  {
    if xs != [] {
      SortBySorted(xs[1..], le);
      InsertSorted(xs[0], SortBy(xs[1..], le), le);
    }
  }

  /** Reordering keeps what holds of every element. */
  lemma PermutationHolds<T>(r: seq<T>, xs: seq<T>, P: T -> bool)
    requires multiset(r) == multiset(xs)
    requires forall i :: 0 <= i < |xs| ==> P(xs[i])
    ensures forall i :: 0 <= i < |r| ==> P(r[i])
  {
    forall i | 0 <= i < |r| ensures P(r[i]) {
      assert r[i] in multiset(xs);
      var j :| 0 <= j < |xs| && xs[j] == r[i];
    }
  }

  ghost predicate NoRepeats<T>(xs: seq<T>) {
    forall i, j :: 0 <= i < j < |xs| ==> xs[i] != xs[j]
  }

  lemma {:induction false} NoRepeatsOnce<T>(xs: seq<T>, v: T)
    requires NoRepeats(xs)
    ensures multiset(xs)[v] <= 1
  {
    if xs != [] {
      assert NoRepeats(xs[1..]) by {
        forall i, j | 0 <= i < j < |xs[1..]| ensures xs[1..][i] != xs[1..][j] {
          assert xs[1..][i] == xs[i + 1] && xs[1..][j] == xs[j + 1];
        }
      }
      NoRepeatsOnce(xs[1..], v);
      assert xs == [xs[0]] + xs[1..];
      if v == xs[0] {
        assert v !in xs[1..];
      }
    }
  }

  lemma Twice<T>(xs: seq<T>, i: int, j: int)
    requires 0 <= i < j < |xs| && xs[i] == xs[j]
    ensures multiset(xs)[xs[i]] >= 2
  {
    assert xs == xs[..j] + [xs[j]] + xs[j + 1..];
    assert xs[..j][i] == xs[i];
  }

  /** Reordering a list without repeats gives a list without repeats. */
  lemma PermutationNoRepeats<T>(r: seq<T>, xs: seq<T>)
    requires multiset(r) == multiset(xs) && NoRepeats(xs)
    ensures NoRepeats(r)
  {
    forall i, j | 0 <= i < j < |r| ensures r[i] != r[j] {
      if r[i] == r[j] {
        Twice(r, i, j);
        NoRepeatsOnce(xs, r[i]);
        assert false;
      }
    }
  }

  /** SQLite's BINARY collation: compare character by character, a proper
      prefix first. */
  predicate LexLe(a: string, b: string) {
    a == [] || (b != [] && (a[0] < b[0] || (a[0] == b[0] && LexLe(a[1..], b[1..]))))
  }

  lemma {:induction false} LexLeTotal(a: string, b: string)
    ensures LexLe(a, b) || LexLe(b, a)
  {
    if a != [] && b != [] && a[0] == b[0] {
      LexLeTotal(a[1..], b[1..]);
    }
  }

  lemma {:induction false} LexLeTrans(a: string, b: string, c: string)
    requires LexLe(a, b) && LexLe(b, c)
    ensures LexLe(a, c)
  {
    if a != [] && b != [] && c != [] && a[0] == b[0] == c[0] {
      LexLeTrans(a[1..], b[1..], c[1..]);
    }
  }

  lemma {:induction false} LexLeAntisym(a: string, b: string)
    requires LexLe(a, b) && LexLe(b, a)
    ensures a == b
  {
    if a != [] && b != [] {
      LexLeAntisym(a[1..], b[1..]);
      assert a == [a[0]] + a[1..] && b == [b[0]] + b[1..];
    }
  }

  lemma LexLeIsTotalPreorder()
    ensures TotalPreorder(LexLe)
  {
    forall a, b ensures LexLe(a, b) || LexLe(b, a) {
      LexLeTotal(a, b);
    }
    forall a, b, c | LexLe(a, b) && LexLe(b, c) ensures LexLe(a, c) {
      LexLeTrans(a, b, c);
    }
  }

  /** `a` sorts strictly before `b`. */
  predicate LexLt(a: string, b: string) {
    LexLe(a, b) && a != b
  }

  lemma LexLtLeTrans(a: string, b: string, c: string)
    requires LexLt(a, b) && LexLe(b, c)
    ensures LexLt(a, c)
  {
    LexLeTrans(a, b, c);
    if a == c {
      LexLeAntisym(a, b);
      assert false;
    }
  }

  ghost predicate StrictlyIncreasing(xs: seq<string>) {
    forall i, j :: 0 <= i < j < |xs| ==> LexLt(xs[i], xs[j])
  }

  /** Drops each element equal to its predecessor. */
  function DropRepeats(xs: seq<string>): (r: seq<string>)
    ensures forall x :: x in r <==> x in xs
    ensures xs != [] ==> r != [] && r[0] == xs[0]
  {
    if |xs| <= 1 then xs
    else if xs[0] == xs[1] then DropRepeats(xs[1..])
    else [xs[0]] + DropRepeats(xs[1..])
  }

  /** On a sorted list, dropping repeats leaves every value exactly once,
      in strictly increasing order. */
  lemma {:induction false} DropRepeatsStrict(xs: seq<string>)
    requires SortedBy(xs, LexLe)
    ensures StrictlyIncreasing(DropRepeats(xs))
  {
    if |xs| > 1 {
      assert SortedBy(xs[1..], LexLe) by {
        forall i, j | 0 <= i < j < |xs[1..]| ensures LexLe(xs[1..][i], xs[1..][j]) {
          assert xs[1..][i] == xs[i + 1] && xs[1..][j] == xs[j + 1];
        }
      }
      DropRepeatsStrict(xs[1..]);
      if xs[0] != xs[1] {
        var tail := DropRepeats(xs[1..]);
        var r := [xs[0]] + tail;
        forall i, j | 0 <= i < j < |r| ensures LexLt(r[i], r[j]) {
          if i == 0 {
            var z := tail[j - 1];
            assert z in xs[1..];
            var k :| 0 <= k < |xs[1..]| && xs[1..][k] == z;
            assert LexLe(xs[0], xs[k + 1]);
            if z == xs[0] {
              assert LexLe(xs[1], xs[k + 1]);
              LexLeAntisym(xs[0], xs[1]);
            }
          } else {
            assert r[i] == tail[i - 1] && r[j] == tail[j - 1];
          }
        }
      }
    }
  }

  /** `SELECT DISTINCT x ... ORDER BY x` on strings: each value once, in
      strictly increasing order, and no other value. */
  function DistinctSorted(xs: seq<string>): (r: seq<string>)
    ensures StrictlyIncreasing(r)
    ensures forall b :: b in r <==> b in xs
  {
    var sorted := SortBy(xs, LexLe);
    assert forall b :: b in sorted <==> b in xs by {
      forall b ensures b in sorted <==> b in xs {
        assert b in sorted <==> b in multiset(sorted);
        assert b in xs <==> b in multiset(xs);
      }
    }
    LexLeIsTotalPreorder();
    SortBySorted(xs, LexLe);
    DropRepeatsStrict(sorted);
    DropRepeats(sorted)
  }

  /** SQLite `LIMIT n`: the first `n` rows; a negative limit sets no bound. */
  function Limit<T>(xs: seq<T>, n: int): (r: seq<T>)
    ensures n >= 0 ==> |r| == if |xs| <= n then |xs| else n
    ensures n < 0 || |xs| <= n ==> r == xs
    ensures r <= xs
  {
    if n < 0 || |xs| <= n then xs else xs[..n]
  }

  /** A prefix of a sorted sequence is sorted, and what holds of every row
      holds of every row of the prefix. */
  lemma PrefixKeeps<T>(r: seq<T>, xs: seq<T>, le: (T, T) -> bool, P: T -> bool)
    requires r <= xs
    requires SortedBy(xs, le)
    requires forall i :: 0 <= i < |xs| ==> P(xs[i])
    ensures SortedBy(r, le)
    ensures forall i :: 0 <= i < |r| ==> P(r[i])
  {
    assert forall i :: 0 <= i < |r| ==> r[i] == xs[i];
  }
}
