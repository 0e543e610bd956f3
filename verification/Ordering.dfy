/** The ordered containers of the Rust standard library, as strictly ascending sequences.

    `BTreeSet` and `BTreeMap` hold their entries in ascending order, so a container is modelled by
    the sequence its iterator yields, and `FromIterator` by `Collect`: entries are inserted one
    after the other and a later entry replaces an earlier one with an equivalent key. */
module Ordering {

  /** `lt` orders by some key: incomparable elements form equivalence classes. */
  ghost predicate WeakOrder<T(!new)>(lt: (T, T) -> bool) {
    && (forall a :: !lt(a, a))
    && (forall a, b, c :: lt(a, b) && lt(b, c) ==> lt(a, c))
    && (forall a, b, c :: lt(a, c) ==> lt(a, b) || lt(b, c))
  }

  predicate Same<T>(lt: (T, T) -> bool, a: T, b: T) {
    !lt(a, b) && !lt(b, a)
  }

  predicate Ascending<T>(lt: (T, T) -> bool, s: seq<T>) {
    forall i, j | 0 <= i < j < |s| :: lt(s[i], s[j])
  }

  /** Insertion into an ascending sequence, replacing an equivalent entry. */
  function Insert<T>(lt: (T, T) -> bool, s: seq<T>, x: T): seq<T> {
    if s == [] then [x]
    else if lt(s[0], x) then [s[0]] + Insert(lt, s[1..], x)
    else if lt(x, s[0]) then [x] + s
    else [x] + s[1..]
  }

  function Collect<T>(lt: (T, T) -> bool, xs: seq<T>): seq<T> {
    if xs == [] then [] else Insert(lt, Collect(lt, xs[..|xs| - 1]), xs[|xs| - 1])
  }

  /** `xs[i]` is the last entry of its equivalence class. */
  ghost predicate LastOfClass<T(!new)>(lt: (T, T) -> bool, xs: seq<T>, i: nat) {
    i < |xs| && forall j | i < j < |xs| :: !Same(lt, xs[i], xs[j])
  }

  lemma {:induction false} InsertSpec<T(!new)>(lt: (T, T) -> bool, s: seq<T>, x: T)
    requires WeakOrder(lt) && Ascending(lt, s)
    ensures Ascending(lt, Insert(lt, s, x))
    ensures |s| <= |Insert(lt, s, x)| <= |s| + 1
    ensures forall y :: y in Insert(lt, s, x) <==> y == x || (y in s && !Same(lt, y, x))
  {
    if s != [] {
      assert s == [s[0]] + s[1..];
      if lt(s[0], x) {
        InsertSpec(lt, s[1..], x);
        var r := Insert(lt, s[1..], x);
        forall j | 0 <= j < |r| ensures lt(s[0], r[j]) {
          assert r[j] in r;
        }
      } else if !lt(x, s[0]) {
        forall y | y in s[1..] ensures !Same(lt, y, x) && lt(x, y) {
          assert lt(s[0], y);
        }
      } else {
        forall y | y in s ensures lt(x, y) {
          assert y == s[0] || lt(s[0], y);
        }
      }
    }
  }

  /** A collected container is ascending and holds, for each key, exactly the last entry given. */
  lemma {:induction false} CollectSpec<T(!new)>(lt: (T, T) -> bool, xs: seq<T>)
    requires WeakOrder(lt)
    ensures Ascending(lt, Collect(lt, xs))
    ensures |Collect(lt, xs)| <= |xs|
    ensures forall y :: y in Collect(lt, xs) <==> exists i: nat :: LastOfClass(lt, xs, i) && xs[i] == y
  {
    if xs != [] {
      var n := |xs| - 1;
      var init, x := xs[..n], xs[n];
      CollectSpec(lt, init);
      InsertSpec(lt, Collect(lt, init), x);
      forall y ensures y in Collect(lt, xs) <==> exists i: nat :: LastOfClass(lt, xs, i) && xs[i] == y {
        if y in Collect(lt, xs) {
          if y == x {
            assert LastOfClass(lt, xs, n);
          } else {
            var i: nat :| LastOfClass(lt, init, i) && init[i] == y;
            assert forall j | i < j < n :: xs[j] == init[j];
            assert LastOfClass(lt, xs, i);
          }
        }
        if i: nat :| LastOfClass(lt, xs, i) && xs[i] == y {
          if i < n {
            assert !Same(lt, xs[i], xs[n]);
            assert forall j | i < j < n :: init[j] == xs[j];
            assert LastOfClass(lt, init, i) && init[i] == y;
          }
        }
      }
    }
  }

  /** The canonical form: an ascending sequence is determined by its elements. */
  lemma {:induction false} AscendingUnique<T(!new)>(lt: (T, T) -> bool, s: seq<T>, t: seq<T>)
    requires WeakOrder(lt) && Ascending(lt, s) && Ascending(lt, t)
    requires forall y :: y in s <==> y in t
    ensures s == t
  {
    assert s != [] ==> s[0] in t;
    assert t != [] ==> t[0] in s;
    if s != [] {
      assert s[0] == t[0];
      var a, b := s[1..], t[1..];
      assert s == [s[0]] + a && t == [t[0]] + b;
      forall y ensures y in a <==> y in b {
        assert y in a ==> y in s && lt(s[0], y);
        assert y in b ==> y in t && lt(t[0], y);
      }
      AscendingUnique(lt, a, b);
    }
  }

  /** Collecting what an iterator over a container yields rebuilds the container. */
  lemma CollectAscending<T(!new)>(lt: (T, T) -> bool, s: seq<T>)
    requires WeakOrder(lt) && Ascending(lt, s)
    ensures Collect(lt, s) == s
  {
    CollectSpec(lt, s);
    forall y ensures y in Collect(lt, s) <==> y in s {
      if y in s {
        var i: nat :| i < |s| && s[i] == y;
        assert LastOfClass(lt, s, i);
      }
    }
    AscendingUnique(lt, Collect(lt, s), s);
  }

  function Map<T, U>(f: T -> U, xs: seq<T>): seq<U> {
    seq(|xs|, i requires 0 <= i < |xs| => f(xs[i]))
  }

  lemma HeadTail<T>(s: seq<T>, t: seq<T>)
    requires s != [] && t != []
    ensures s == t <==> s[0] == t[0] && s[1..] == t[1..]
  {
    assert s == [s[0]] + s[1..] && t == [t[0]] + t[1..];
  }

  lemma MapCons<T, U>(f: T -> U, xs: seq<T>)
    requires xs != []
    ensures Map(f, xs) == [f(xs[0])] + Map(f, xs[1..])
  {
  }

  /** Collecting twice, with a translation in between that keeps keys apart, is collecting once. */
  lemma CollectMapCollect<T(!new), U(!new)>(lt: (T, T) -> bool, mt: (U, U) -> bool, f: T -> U, xs: seq<T>)
    requires WeakOrder(lt) && WeakOrder(mt)
    requires forall i, j | 0 <= i < |xs| && 0 <= j < |xs| :: Same(mt, f(xs[i]), f(xs[j])) ==> Same(lt, xs[i], xs[j])
    requires forall i, j | 0 <= i < |xs| && 0 <= j < |xs| :: Same(lt, xs[i], xs[j]) ==> Same(mt, f(xs[i]), f(xs[j]))
    ensures Collect(mt, Map(f, Collect(lt, xs))) == Collect(mt, Map(f, xs))
  {
    var c := Collect(lt, xs);
    var fc, fx := Map(f, c), Map(f, xs);
    CollectSpec(lt, xs);
    CollectSpec(mt, fc);
    CollectSpec(mt, fx);
    forall y ensures y in Collect(mt, fc) <==> y in Collect(mt, fx) {
      if y in Collect(mt, fc) {
        var i: nat :| LastOfClass(mt, fc, i) && fc[i] == y;
        assert c[i] in c;
        var k: nat :| LastOfClass(lt, xs, k) && xs[k] == c[i];
        forall j | k < j < |fx| ensures !Same(mt, fx[k], fx[j]) {
          assert !Same(lt, xs[k], xs[j]);
        }
        assert LastOfClass(mt, fx, k) && fx[k] == y;
      }
      if y in Collect(mt, fx) {
        var k: nat :| LastOfClass(mt, fx, k) && fx[k] == y;
        forall j | k < j < |xs| ensures !Same(lt, xs[k], xs[j]) {
          assert !Same(mt, fx[k], fx[j]);
        }
        assert LastOfClass(lt, xs, k);
        assert xs[k] in c;
        var i: nat :| i < |c| && c[i] == xs[k];
        forall j | i < j < |fc| ensures !Same(mt, fc[i], fc[j]) {
          assert c[j] in c && lt(c[i], c[j]);
          var kj: nat :| LastOfClass(lt, xs, kj) && xs[kj] == c[j];
          assert !Same(lt, xs[k], xs[kj]);
          assert !Same(mt, f(xs[k]), f(xs[kj]));
        }
        assert LastOfClass(mt, fc, i) && fc[i] == y;
      }
    }
    AscendingUnique(mt, Collect(mt, fc), Collect(mt, fx));
  }
}
