/** `WHERE`, `ORDER BY` and first-row lookup over in-memory rows. A sort key is a sequence of integers compared
    lexicographically: a string becomes its code points, an ascending integer column `[v]`, a
    descending one `[-v]`. SQL leaves the order of rows with equal keys open, so a sort is
    specified only as sorted and a permutation of its input. */
module Query {
  import opened Wrappers

  /** Lexicographic order on integer sequences; a proper prefix comes first. */
  predicate LexLe(a: seq<int>, b: seq<int>) {
    if a == [] then true
    else if b == [] then false
    else a[0] < b[0] || (a[0] == b[0] && LexLe(a[1..], b[1..]))
  }

  lemma {:induction false} LexLeTotal(a: seq<int>, b: seq<int>)
    ensures LexLe(a, b) || LexLe(b, a)
  {
    if a != [] && b != [] && a[0] == b[0] {
      LexLeTotal(a[1..], b[1..]);
    }
  }

  lemma {:induction false} LexLeTransitive(a: seq<int>, b: seq<int>, c: seq<int>)
    requires LexLe(a, b) && LexLe(b, c)
    ensures LexLe(a, c)
  {
    if a != [] && b != [] && c != [] && a[0] == b[0] && b[0] == c[0] {
      LexLeTransitive(a[1..], b[1..], c[1..]);
    }
  }

  /** On one-element keys the order is the integer order. */
  lemma LexLeSingle(x: int, y: int)
    ensures LexLe([x], [y]) <==> x <= y
  {
    assert [x][1..] == [] && [y][1..] == [];
  }

  ghost predicate SortedBy<T>(s: seq<T>, key: T -> seq<int>) {
    forall i, j :: 0 <= i < j < |s| ==> LexLe(key(s[i]), key(s[j]))
  }

  /** Sorted by a one-element key `[f(x)]` is sorted by `f`. */
  lemma SortedBySingle<T>(s: seq<T>, key: T -> seq<int>, f: T -> int)
    requires SortedBy(s, key)
    requires forall x :: key(x) == [f(x)]
    ensures forall i, j :: 0 <= i < j < |s| ==> f(s[i]) <= f(s[j])
  {
    forall i, j | 0 <= i < j < |s| ensures f(s[i]) <= f(s[j]) {
      LexLeSingle(f(s[i]), f(s[j]));
    }
  }

  /** `SELECT ... WHERE p`: the rows satisfying `p`, each as often as in `s`, in table order. */
  function Filter<T(!new)>(s: seq<T>, p: T -> bool): (r: seq<T>)
    ensures forall x :: multiset(r)[x] == if p(x) then multiset(s)[x] else 0
    ensures forall i :: 0 <= i < |r| ==> p(r[i])
  {
    if s == [] then []
    else
      assert s == [s[0]] + s[1..];
      (if p(s[0]) then [s[0]] else []) + Filter(s[1..], p)
  }

  function Insert<T>(x: T, s: seq<T>, key: T -> seq<int>): (r: seq<T>)
    requires SortedBy(s, key)
    ensures SortedBy(r, key)
    ensures multiset(r) == multiset(s) + multiset{x}
  {
    if s == [] then [x]
    else if LexLe(key(x), key(s[0])) then
      assert forall j :: 0 < j < |s| ==> LexLe(key(x), key(s[j])) by {
        forall j | 0 < j < |s| ensures LexLe(key(x), key(s[j])) {
          LexLeTransitive(key(x), key(s[0]), key(s[j]));
        }
      }
      [x] + s
    else
      LexLeTotal(key(x), key(s[0]));
      var rest := Insert(x, s[1..], key);
      assert s == [s[0]] + s[1..];
      assert forall y :: y in rest ==> y == x || y in s[1..] by {
        forall y | y in rest ensures y == x || y in s[1..] {
          assert y in multiset(rest);
        }
      }
      assert forall j :: 0 <= j < |rest| ==> LexLe(key(s[0]), key(rest[j])) by {
        forall j | 0 <= j < |rest| ensures LexLe(key(s[0]), key(rest[j])) {
          assert rest[j] in rest;
          if rest[j] != x {
            var k :| 0 <= k < |s[1..]| && s[1..][k] == rest[j];
            assert s[k + 1] == rest[j];
          }
        }
      }
      [s[0]] + rest
  }

  /** `ORDER BY key`: the same rows, sorted. */
  function SortBy<T>(s: seq<T>, key: T -> seq<int>): (r: seq<T>)
    ensures SortedBy(r, key)
    ensures multiset(r) == multiset(s)
  {
    if s == [] then []
    else
      assert s == [s[0]] + s[1..];
      Insert(s[0], SortBy(s[1..], key), key)
  }

  /** The index of the first row satisfying `p` (`const [row] = await db.select()...where(...)`
      without an `ORDER BY` is taken to see rows in table order). */
  function FirstWhere<T>(s: seq<T>, p: T -> bool): (r: Option<nat>)
    ensures r.Some? ==> r.value < |s| && p(s[r.value])
    ensures r.Some? ==> forall k :: 0 <= k < r.value ==> !p(s[k])
    ensures r.None? ==> forall k :: 0 <= k < |s| ==> !p(s[k])
  {
    if s == [] then None
    else if p(s[0]) then Some(0)
    else match FirstWhere(s[1..], p)
      case Some(k) => Some(k + 1)
      case None => None
  }
}
