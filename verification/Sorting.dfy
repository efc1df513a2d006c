/** Sorting by a comparison, and why the result does not depend on the input order. */
module Sorting {

  /** A comparison that `sort.Slice` can be given: any two elements compare, transitively. */
  ghost predicate Comparison<T(!new)>(le: (T, T) -> bool) {
    && (forall x, y :: le(x, y) || le(y, x))
    && (forall x, y, z :: le(x, y) && le(y, z) ==> le(x, z))
  }

  /** Elements of `s` that compare equal are equal. */
  ghost predicate Decisive<T>(le: (T, T) -> bool, s: seq<T>) {
    forall i, j | 0 <= i < |s| && 0 <= j < |s| :: le(s[i], s[j]) && le(s[j], s[i]) ==> s[i] == s[j]
  }

  ghost predicate SortedBy<T>(le: (T, T) -> bool, s: seq<T>) {
    forall i, j | 0 <= i < j < |s| :: le(s[i], s[j])
  }

  function Insert<T>(le: (T, T) -> bool, x: T, s: seq<T>): seq<T> {
    if s == [] then [x]
    else if le(x, s[0]) then [x] + s
    else [s[0]] + Insert(le, x, s[1..])
  }

  function Sort<T>(le: (T, T) -> bool, s: seq<T>): seq<T> {
    if s == [] then [] else Insert(le, s[0], Sort(le, s[1..]))
  }

  lemma {:induction false} InsertPermutes<T(!new)>(le: (T, T) -> bool, x: T, s: seq<T>)
    ensures multiset(Insert(le, x, s)) == multiset(s) + multiset{x}
  {
    if s != [] && !le(x, s[0]) {
      InsertPermutes(le, x, s[1..]);
      assert s == [s[0]] + s[1..];
    }
  }

  lemma {:induction false} InsertSorts<T(!new)>(le: (T, T) -> bool, x: T, s: seq<T>)
    requires Comparison(le) && SortedBy(le, s)
    ensures SortedBy(le, Insert(le, x, s))
  {
    if s != [] && !le(x, s[0]) {
      InsertSorts(le, x, s[1..]);
      InsertPermutes(le, x, s[1..]);
      var rest := Insert(le, x, s[1..]);
      forall j | 0 <= j < |rest| ensures le(s[0], rest[j]) {
        assert rest[j] in multiset(rest);
        assert rest[j] in multiset(s[1..]) + multiset{x};
        if rest[j] != x {
          assert rest[j] in s[1..];
          var k :| 0 <= k < |s[1..]| && s[1..][k] == rest[j];
          assert s[k + 1] == rest[j];
        }
      }
    }
  }

  lemma {:induction false} SortPermutes<T(!new)>(le: (T, T) -> bool, s: seq<T>)
    ensures multiset(Sort(le, s)) == multiset(s)
  {
    if s != [] {
      SortPermutes(le, s[1..]);
      InsertPermutes(le, s[0], Sort(le, s[1..]));
      assert s == [s[0]] + s[1..];
    }
  }

  lemma {:induction false} DistinctCounts<T>(s: seq<T>, x: T)
    requires forall i, j | 0 <= i < j < |s| :: s[i] != s[j]
    ensures multiset(s)[x] <= 1
  {
    if s != [] {
      var n := |s| - 1;
      DistinctCounts(s[..n], x);
      assert s == s[..n] + [s[n]];
      assert s[n] !in s[..n];
    }
  }

  /** A permutation of distinct elements has distinct elements. */
  lemma DistinctPermutes<T>(a: seq<T>, b: seq<T>)
    requires multiset(a) == multiset(b)
    requires forall i, j | 0 <= i < j < |a| :: a[i] != a[j]
    ensures forall i, j | 0 <= i < j < |b| :: b[i] != b[j]
  {
    forall i, j | 0 <= i < j < |b| ensures b[i] != b[j] {
      DistinctCounts(a, b[i]);
      assert b == b[..j] + [b[j]] + b[j + 1..];
      assert b[..j][i] == b[i] && b[i] in multiset(b[..j]);
    }
  }

  lemma {:induction false} SortSorts<T(!new)>(le: (T, T) -> bool, s: seq<T>)
    requires Comparison(le)
    ensures SortedBy(le, Sort(le, s))
  {
    if s != [] {
      SortSorts(le, s[1..]);
      InsertSorts(le, s[0], Sort(le, s[1..]));
    }
  }

  lemma SortedHead<T>(le: (T, T) -> bool, a: seq<T>, b: seq<T>)
    requires SortedBy(le, a) && SortedBy(le, b) && multiset(a) == multiset(b) && a != []
    requires Decisive(le, a)
    ensures b != [] && a[0] == b[0]
  {
    assert a[0] in multiset(b);
    var i :| 0 <= i < |b| && b[i] == a[0];
    assert b[0] in multiset(a);
    var j :| 0 <= j < |a| && a[j] == b[0];
    assert j > 0 ==> le(a[0], a[j]);
    assert i > 0 ==> le(b[0], b[i]);
  }

  lemma TailIs<T>(s: seq<T>)
    requires s != []
    ensures multiset(s[1..]) == multiset(s) - multiset{s[0]}
  {
    assert s == [s[0]] + s[1..];
  }

  lemma TailSorted<T>(le: (T, T) -> bool, s: seq<T>)
    requires s != [] && SortedBy(le, s)
    ensures SortedBy(le, s[1..])
  {
  }

  lemma TailDecisive<T>(le: (T, T) -> bool, s: seq<T>)
    requires s != [] && Decisive(le, s)
    ensures Decisive(le, s[1..])
  {
  }

  lemma TailsAgree<T>(a: seq<T>, b: seq<T>)
    requires a != [] && b != [] && a[0] == b[0] && multiset(a) == multiset(b)
    ensures multiset(a[1..]) == multiset(b[1..])
  {
    TailIs(a);
    TailIs(b);
  }

  lemma Rejoin<T>(a: seq<T>, b: seq<T>)
    requires a != [] && b != [] && a[0] == b[0] && a[1..] == b[1..]
    ensures a == b
  {
    assert a == [a[0]] + a[1..] && b == [b[0]] + b[1..];
  }

  /** There is only one sorted arrangement of decisive elements. */
  lemma {:induction false} SortedUnique<T>(le: (T, T) -> bool, a: seq<T>, b: seq<T>)
    requires SortedBy(le, a) && SortedBy(le, b) && multiset(a) == multiset(b)
    requires Decisive(le, a)
    ensures a == b
  {
    if a == [] {
      assert |multiset(b)| == |b|;
    } else {
      SortedHead(le, a, b);
      TailsAgree(a, b);
      TailSorted(le, a);
      TailSorted(le, b);
      TailDecisive(le, a);
      SortedUnique(le, a[1..], b[1..]);
      Rejoin(a, b);
    }
  }

  lemma DecisiveUpToOrder<T>(le: (T, T) -> bool, a: seq<T>, b: seq<T>)
    requires Decisive(le, a) && multiset(a) == multiset(b)
    ensures Decisive(le, b)
  {
    forall i, j | 0 <= i < |b| && 0 <= j < |b| && le(b[i], b[j]) && le(b[j], b[i]) ensures b[i] == b[j] {
      assert b[i] in multiset(a) && b[j] in multiset(a);
      var k :| 0 <= k < |a| && a[k] == b[i];
      var l :| 0 <= l < |a| && a[l] == b[j];
    }
  }

  /** Sorting decides equality up to order. */
  lemma SortCanonical<T(!new)>(le: (T, T) -> bool, a: seq<T>, b: seq<T>)
    requires Comparison(le) && Decisive(le, a)
    ensures Sort(le, a) == Sort(le, b) <==> multiset(a) == multiset(b)
  {
    SortPermutes(le, a);
    SortPermutes(le, b);
    if multiset(a) == multiset(b) {
      SortSorts(le, a);
      SortSorts(le, b);
      DecisiveUpToOrder(le, a, Sort(le, a));
      SortedUnique(le, Sort(le, a), Sort(le, b));
    }
  }

  /*************** strings ***************/

  /** Byte-wise string order. */
  predicate Le(a: string, b: string) {
    a == [] || (b != [] && (a[0] < b[0] || (a[0] == b[0] && Le(a[1..], b[1..]))))
  }

  lemma {:induction false} LeTotal(a: string, b: string)
    ensures Le(a, b) || Le(b, a)
    ensures Le(a, b) && Le(b, a) ==> a == b
  {
    if a != [] && b != [] && a[0] == b[0] {
      LeTotal(a[1..], b[1..]);
      assert a == [a[0]] + a[1..] && b == [b[0]] + b[1..];
    }
  }

  lemma {:induction false} LeTransitive(a: string, b: string, c: string)
    requires Le(a, b) && Le(b, c)
    ensures Le(a, c)
  {
    if a != [] && a[0] == b[0] && b[0] == c[0] {
      LeTransitive(a[1..], b[1..], c[1..]);
    }
  }

  lemma LeIsComparison()
    ensures Comparison(Le)
  {
    forall a, b ensures Le(a, b) || Le(b, a) { LeTotal(a, b); }
    forall a, b, c | Le(a, b) && Le(b, c) ensures Le(a, c) { LeTransitive(a, b, c); }
  }

  lemma LeIsDecisive(s: seq<string>)
    ensures Decisive(Le, s)
  {
    forall i, j | 0 <= i < |s| && 0 <= j < |s| && Le(s[i], s[j]) && Le(s[j], s[i]) ensures s[i] == s[j] {
      LeTotal(s[i], s[j]);
    }
  }

  /*************** ORDER BY ***************/

  datatype Atom = Int(n: int) | Text(s: string)

  predicate AtomLe(a: Atom, b: Atom) {
    match (a, b)
    case (Int(m), Int(n)) => m <= n
    case (Text(x), Text(y)) => Le(x, y)
    case (Int(_), Text(_)) => true
    case (Text(_), Int(_)) => false
  }

  lemma AtomLeTotal(a: Atom, b: Atom)
    ensures AtomLe(a, b) || AtomLe(b, a)
    ensures AtomLe(a, b) && AtomLe(b, a) ==> a == b
  {
    if a.Text? && b.Text? { LeTotal(a.s, b.s); }
  }

  lemma AtomLeTransitive(a: Atom, b: Atom, c: Atom)
    requires AtomLe(a, b) && AtomLe(b, c)
    ensures AtomLe(a, c)
  {
    if a.Text? && b.Text? && c.Text? { LeTransitive(a.s, b.s, c.s); }
  }

  /** Several ORDER BY columns. */
  predicate ListLe(a: seq<Atom>, b: seq<Atom>) {
    a == [] || (b != [] && AtomLe(a[0], b[0]) && (a[0] == b[0] ==> ListLe(a[1..], b[1..])))
  }

  lemma {:induction false} ListLeTotal(a: seq<Atom>, b: seq<Atom>)
    ensures ListLe(a, b) || ListLe(b, a)
    ensures ListLe(a, b) && ListLe(b, a) ==> a == b
  {
    if a != [] && b != [] {
      AtomLeTotal(a[0], b[0]);
      if a[0] == b[0] {
        ListLeTotal(a[1..], b[1..]);
        assert a == [a[0]] + a[1..] && b == [b[0]] + b[1..];
      }
    }
  }

  lemma {:induction false} ListLeTransitive(a: seq<Atom>, b: seq<Atom>, c: seq<Atom>)
    requires ListLe(a, b) && ListLe(b, c)
    ensures ListLe(a, c)
  {
    if a != [] {
      AtomLeTransitive(a[0], b[0], c[0]);
      if a[0] == c[0] {
        AtomLeTotal(a[0], b[0]);
        ListLeTransitive(a[1..], b[1..], c[1..]);
      }
    }
  }

  lemma FirstColumn(x: Atom, xs: seq<Atom>, y: Atom, ys: seq<Atom>)
    ensures ListLe([x] + xs, [y] + ys) <==> AtomLe(x, y) && (x == y ==> ListLe(xs, ys))
  {
    assert ([x] + xs)[1..] == xs && ([y] + ys)[1..] == ys;
  }

  lemma LastColumn(x: string, y: string)
    ensures ListLe([Text(x)], [Text(y)]) <==> Le(x, y)
  {
    assert [Text(x)] + [] == [Text(x)] && [Text(y)] + [] == [Text(y)];
    FirstColumn(Text(x), [], Text(y), []);
  }

  lemma ThenText(m: int, x: string, n: int, y: string)
    ensures ListLe([Int(m), Text(x)], [Int(n), Text(y)]) <==> m < n || (m == n && Le(x, y))
  {
    FirstColumn(Int(m), [Text(x)], Int(n), [Text(y)]);
    LastColumn(x, y);
    assert [Int(m)] + [Text(x)] == [Int(m), Text(x)] && [Int(n)] + [Text(y)] == [Int(n), Text(y)];
  }

  lemma TwoTexts(w: string, x: string, y: string, z: string)
    ensures ListLe([Text(w), Text(x)], [Text(y), Text(z)]) <==> Le(w, y) && (w == y ==> Le(x, z))
  {
    FirstColumn(Text(w), [Text(x)], Text(y), [Text(z)]);
    LastColumn(x, z);
    assert [Text(w)] + [Text(x)] == [Text(w), Text(x)] && [Text(y)] + [Text(z)] == [Text(y), Text(z)];
  }

  function By<R>(order: R -> seq<Atom>): (R, R) -> bool {
    (a: R, b: R) => ListLe(order(a), order(b))
  }

  lemma ByIsComparison<R(!new)>(order: R -> seq<Atom>)
    ensures Comparison(By(order))
  {
    var le := By(order);
    forall x, y ensures le(x, y) || le(y, x) { ListLeTotal(order(x), order(y)); }
    forall x, y, z | le(x, y) && le(y, z) ensures le(x, z) { ListLeTransitive(order(x), order(y), order(z)); }
  }
}
