/** Levenshtein distance, two rows at a time (server/scripts/benchmark.py). */
module EditDistance {
  import opened Basics

  // ---- The reference: fewest single-token edits, anywhere in the list ----

  /** `y` is `x` with at most one token replaced, inserted or deleted. */
  ghost predicate OneEdit<T(!new)>(x: seq<T>, y: seq<T>) {
    exists p, m, n, q :: Differ(x, y, p, m, n, q)
  }

  ghost predicate Differ<T>(x: seq<T>, y: seq<T>, p: seq<T>, m: seq<T>, n: seq<T>, q: seq<T>) {
    |m| <= 1 && |n| <= 1 && x == p + m + q && y == p + n + q
  }

  /** A chain of lists, each one edit from the next. */
  ghost predicate IsPath<T(!new)>(path: seq<seq<T>>, a: seq<T>, b: seq<T>) {
    && path != [] && path[0] == a && path[|path| - 1] == b
    && forall i :: 0 <= i < |path| - 1 ==> OneEdit(path[i], path[i + 1])
  }

  /** The recurrence behind the rows: the diagonal outright on a match, else one more than the best neighbour. */
  function Lev<T(==)>(a: seq<T>, b: seq<T>): nat
    decreases |a| + |b|
  {
    if a == [] then |b|
    else if b == [] then |a|
    else
      var a', b' := a[..|a| - 1], b[..|b| - 1];
      if a[|a| - 1] == b[|b| - 1] then Lev(a', b')
      else 1 + Min(Lev(a', b'), Min(Lev(a', b), Lev(a, b')))
  }

  /** Lists that end in a token each satisfy the recurrence at that token. */
  lemma {:induction false} LevAtEnds<T>(p: seq<T>, x: T, b': seq<T>, y: T)
    ensures Lev(p + [x], b' + [y]) ==
            if x == y then Lev(p, b') else 1 + Min(Lev(p, b'), Min(Lev(p, b' + [y]), Lev(p + [x], b')))
  {
    assert (p + [x])[..|p|] == p && (b' + [y])[..|b'|] == b';
  }

  /** The distance of the first `i` tokens of one list and the first `j` of the other. */
  ghost function Cell<T>(a: seq<T>, b: seq<T>, i: nat, j: nat): nat
    requires i <= |a| && j <= |b|
  {
    Lev(a[..i], b[..j])
  }

  lemma {:induction false} CellEdges<T>(a: seq<T>, b: seq<T>, i: nat, j: nat)
    requires i <= |a| && j <= |b|
    ensures Cell(a, b, 0, j) == j && Cell(a, b, i, 0) == i
    ensures Cell(a, b, |a|, |b|) == Lev(a, b)
  {
    assert a[..|a|] == a && b[..|b|] == b;
  }

  lemma {:induction false} CellStep<T>(a: seq<T>, b: seq<T>, i: nat, j: nat)
    requires 0 < i <= |a| && 0 < j <= |b|
    ensures Cell(a, b, i, j) == if a[i - 1] == b[j - 1] then Cell(a, b, i - 1, j - 1)
            else 1 + Min(Cell(a, b, i - 1, j - 1), Min(Cell(a, b, i, j - 1), Cell(a, b, i - 1, j)))
  {
    assert a[..i] == a[..i - 1] + [a[i - 1]] && b[..j] == b[..j - 1] + [b[j - 1]];
    LevAtEnds(a[..i - 1], a[i - 1], b[..j - 1], b[j - 1]);
  }

  /** The row holds the first cells of column `j`. */
  ghost predicate IsRow<T(!new)>(row: seq<nat>, a: seq<T>, b: seq<T>, j: nat) {
    && |row| <= |a| + 1 && j <= |b|
    && forall i :: 0 <= i < |row| ==> row[i] == Cell(a, b, i, j)
  }

  method EditDistance<T(==, !new)>(reference: seq<T>, hypothesis: seq<T>) returns (d: nat)
    ensures d == Lev(reference, hypothesis)
  {
    if reference == [] {
      return |hypothesis|;
    }
    var previous: seq<nat> := seq(|reference| + 1, i requires 0 <= i => i);
    forall i | 0 <= i < |previous|
      ensures previous[i] == Cell(reference, hypothesis, i, 0)
    {
      CellEdges(reference, hypothesis, i, 0);
    }
    for j := 1 to |hypothesis| + 1
      invariant |previous| == |reference| + 1 && IsRow(previous, reference, hypothesis, j - 1)
    {
      var current: seq<nat> := [j];
      CellEdges(reference, hypothesis, 0, j);
      for i := 1 to |reference| + 1
        invariant |current| == i && IsRow(current, reference, hypothesis, j)
      {
        CellStep(reference, hypothesis, i, j);
        current := current +
          [if reference[i - 1] == hypothesis[j - 1] then previous[i - 1]
           else 1 + Min(previous[i - 1], Min(previous[i], current[i - 1]))];
      }
      previous := current;
    }
    CellEdges(reference, hypothesis, 0, 0);
    return previous[|reference|];
  }

  // ---- One edit changes the distance by at most one ----

  /** Dropping the last token of either list. */
  lemma {:induction false} DropLast<T>(a: seq<T>, b: seq<T>)
    ensures a != [] ==> Lev(a, b) <= Lev(a[..|a| - 1], b) + 1 && Lev(a[..|a| - 1], b) <= Lev(a, b) + 1
    ensures b != [] ==> Lev(a, b) <= Lev(a, b[..|b| - 1]) + 1 && Lev(a, b[..|b| - 1]) <= Lev(a, b) + 1
    decreases |a| + |b|
  {
    if a != [] && b != [] {
      var a', b' := a[..|a| - 1], b[..|b| - 1];
      DropLast(a', b);
      DropLast(a, b');
      DropLast(a', b');
    }
  }

  lemma {:induction false} AppendOne<T>(p: seq<T>, m: seq<T>, b: seq<T>)
    requires |m| == 1
    ensures Lev(p + m, b) <= Lev(p, b) + 1 && Lev(p, b) <= Lev(p + m, b) + 1
  {
    assert (p + m)[..|p + m| - 1] == p;
    DropLast(p + m, b);
  }

  /** Replacing the last token. */
  lemma {:induction false} ReplaceLast<T>(p: seq<T>, m: T, n: T, b: seq<T>)
    ensures Lev(p + [m], b) <= Lev(p + [n], b) + 1
    decreases |b|
  {
    if b != [] {
      var b', y := b[..|b| - 1], b[|b| - 1];
      assert b == b' + [y];
      ReplaceLast(p, m, n, b');
      DropLast(p, b);
      AppendOne(p, [n], b');
      LevAtEnds(p, m, b', y);
      LevAtEnds(p, n, b', y);
    }
  }

  /** The lists differ in one place, at their end. */
  lemma {:induction false} EditAtEnd<T>(p: seq<T>, m: seq<T>, n: seq<T>, b: seq<T>)
    requires |m| <= 1 && |n| <= 1
    ensures Lev(p + m, b) <= Lev(p + n, b) + 1
  {
    assert p + [] == p;
    if m == [] && n != [] {
      AppendOne(p, n, b);
    } else if m != [] && n == [] {
      AppendOne(p, m, b);
    } else if m != [] {
      assert m == [m[0]] && n == [n[0]];
      ReplaceLast(p, m[0], n[0], b);
    }
  }

  lemma {:induction false} EditAnywhere<T>(p: seq<T>, m: seq<T>, n: seq<T>, q: seq<T>, b: seq<T>)
    requires |m| <= 1 && |n| <= 1
    ensures Lev(p + m + q, b) <= Lev(p + n + q, b) + 1
    decreases |q| + |b|
  {
    if q == [] {
      assert p + m + q == p + m && p + n + q == p + n;
      EditAtEnd(p, m, n, b);
    } else {
      var q', c := q[..|q| - 1], q[|q| - 1];
      assert p + m + q == (p + m + q') + [c] && p + n + q == (p + n + q') + [c];
      if b != [] {
        var b', y := b[..|b| - 1], b[|b| - 1];
        assert b == b' + [y];
        EditAnywhere(p, m, n, q', b');
        EditAnywhere(p, m, n, q', b);
        EditAnywhere(p, m, n, q, b');
        LevAtEnds(p + m + q', c, b', y);
        LevAtEnds(p + n + q', c, b', y);
      }
    }
  }

  lemma {:induction false} LevOfSelf<T>(a: seq<T>)
    ensures Lev(a, a) == 0
  {
    if a != [] {
      LevOfSelf(a[..|a| - 1]);
    }
  }

  /** No chain of edits is shorter than the distance. */
  lemma {:induction false} NoShorterPath<T(!new)>(path: seq<seq<T>>, a: seq<T>, b: seq<T>)
    requires IsPath(path, a, b)
    ensures Lev(a, b) <= |path| - 1
    decreases |path|
  {
    if |path| == 1 {
      LevOfSelf(b);
    } else {
      assert OneEdit(path[0], path[0 + 1]);
      var p, m, n, q :| Differ(a, path[1], p, m, n, q);
      EditAnywhere(p, m, n, q, b);
      var rest := path[1..];
      forall i | 0 <= i < |rest| - 1
        ensures OneEdit(rest[i], rest[i + 1])
      {
        assert OneEdit(path[i + 1], path[(i + 1) + 1]);
      }
      NoShorterPath(rest, path[1], b);
    }
  }

  // ---- And there is a chain that long ----

  function Appended<T>(path: seq<seq<T>>, c: seq<T>): seq<seq<T>> {
    seq(|path|, i requires 0 <= i < |path| => path[i] + c)
  }

  lemma {:induction false} AppendedPath<T(!new)>(path: seq<seq<T>>, a: seq<T>, b: seq<T>, c: seq<T>)
    requires IsPath(path, a, b)
    ensures IsPath(Appended(path, c), a + c, b + c)
  {
    var longer := Appended(path, c);
    forall i | 0 <= i < |longer| - 1
      ensures OneEdit(longer[i], longer[i + 1])
    {
      assert OneEdit(path[i], path[i + 1]);
      var p, m, n, q :| Differ(path[i], path[i + 1], p, m, n, q);
      assert p + m + q + c == p + m + (q + c) && p + n + q + c == p + n + (q + c);
      assert Differ(longer[i], longer[i + 1], p, m, n, q + c);
    }
  }

  lemma {:induction false} LongerPath<T(!new)>(path: seq<seq<T>>, a: seq<T>, b: seq<T>, c: seq<T>)
    requires IsPath(path, a, b) && OneEdit(b, c)
    ensures IsPath(path + [c], a, c)
  {
    var longer := path + [c];
    forall i | 0 <= i < |longer| - 1
      ensures OneEdit(longer[i], longer[i + 1])
    {
      if i < |path| - 1 {
        assert OneEdit(path[i], path[i + 1]);
      }
    }
  }

  /** Editing at the end of a list. */
  lemma {:induction false} EndIsOneEdit<T(!new)>(p: seq<T>, m: seq<T>, n: seq<T>)
    requires |m| <= 1 && |n| <= 1
    ensures OneEdit(p + m, p + n)
  {
    assert p + m + [] == p + m && p + n + [] == p + n;
    assert Differ(p + m, p + n, p, m, n, []);
  }

  lemma {:induction false} ShortestPath<T(!new)>(a: seq<T>, b: seq<T>) returns (path: seq<seq<T>>)
    ensures IsPath(path, a, b) && |path| == Lev(a, b) + 1
    decreases |a| + |b|
  {
    if a == [] && b == [] {
      path := [a];
    } else if a == [] {
      var b' := b[..|b| - 1];
      var shorter := ShortestPath(a, b');
      EndIsOneEdit(b', [], [b[|b| - 1]]);
      assert b' + [] == b' && b' + [b[|b| - 1]] == b;
      LongerPath(shorter, a, b', b);
      path := shorter + [b];
    } else if b == [] {
      path := DeleteLastThen(a, b);
    } else {
      var a', x := a[..|a| - 1], a[|a| - 1..];
      var b', y := b[..|b| - 1], b[|b| - 1..];
      assert a' + x == a && b' + y == b;
      if a[|a| - 1] == b[|b| - 1] {
        var shorter := ShortestPath(a', b');
        AppendedPath(shorter, a', b', x);
        path := Appended(shorter, x);
      } else if Lev(a, b) == 1 + Lev(a', b') {
        var shorter := ShortestPath(a', b');
        AppendedPath(shorter, a', b', x);
        EndIsOneEdit(b', x, y);
        LongerPath(Appended(shorter, x), a, b' + x, b);
        path := Appended(shorter, x) + [b];
      } else if Lev(a, b) == 1 + Lev(a', b) {
        path := DeleteLastThen(a, b);
      } else {
        var shorter := ShortestPath(a, b');
        EndIsOneEdit(b', [], y);
        assert b' + [] == b';
        LongerPath(shorter, a, b', b);
        path := shorter + [b];
      }
    }
  }

  lemma {:induction false} DeleteLastThen<T(!new)>(a: seq<T>, b: seq<T>) returns (path: seq<seq<T>>)
    requires a != []
    ensures IsPath(path, a, b) && |path| == Lev(a[..|a| - 1], b) + 2
    decreases |a| + |b|, 0
  {
    var a', x := a[..|a| - 1], a[|a| - 1..];
    assert a' + x == a && a' + [] == a';
    var shorter := ShortestPath(a', b);
    EndIsOneEdit(a', x, []);
    path := [a] + shorter;
    forall i | 0 <= i < |path| - 1
      ensures OneEdit(path[i], path[i + 1])
    {
      if i > 0 {
        assert OneEdit(shorter[i - 1], shorter[(i - 1) + 1]);
      }
    }
  }

  /** The distance is the length of the shortest chain of edits. */
  lemma {:induction false} LevIsFewestEdits<T(!new)>(a: seq<T>, b: seq<T>)
    ensures exists path :: IsPath(path, a, b) && |path| - 1 == Lev(a, b)
    ensures forall path :: IsPath(path, a, b) ==> Lev(a, b) <= |path| - 1
  {
    var shortest := ShortestPath(a, b);
    forall path | IsPath(path, a, b)
      ensures Lev(a, b) <= |path| - 1
    {
      NoShorterPath(path, a, b);
    }
  }

  // ---- Hence a metric ----

  lemma {:induction false} OneEditBackwards<T(!new)>(x: seq<T>, y: seq<T>)
    requires OneEdit(x, y)
    ensures OneEdit(y, x)
  {
    var p, m, n, q :| Differ(x, y, p, m, n, q);
    assert Differ(y, x, p, n, m, q);
  }

  lemma {:induction false} PathBackwards<T(!new)>(path: seq<seq<T>>, a: seq<T>, b: seq<T>) returns (back: seq<seq<T>>)
    requires IsPath(path, a, b)
    ensures IsPath(back, b, a) && |back| == |path|
  {
    var n := |path|;
    back := seq(n, i requires 0 <= i < n => path[n - 1 - i]);
    forall i | 0 <= i < n - 1
      ensures OneEdit(back[i], back[i + 1])
    {
      var k := n - 2 - i;
      assert OneEdit(path[k], path[k + 1]);
      OneEditBackwards(path[k], path[k + 1]);
    }
  }

  lemma {:induction false} Symmetric<T(!new)>(a: seq<T>, b: seq<T>)
    ensures Lev(a, b) == Lev(b, a)
  {
    var there := ShortestPath(a, b);
    var back := PathBackwards(there, a, b);
    NoShorterPath(back, b, a);
    var there' := ShortestPath(b, a);
    var back' := PathBackwards(there', b, a);
    NoShorterPath(back', a, b);
  }

  lemma {:induction false} Triangle<T(!new)>(a: seq<T>, b: seq<T>, c: seq<T>)
    ensures Lev(a, c) <= Lev(a, b) + Lev(b, c)
  {
    var first := ShortestPath(a, b);
    var second := ShortestPath(b, c);
    var path := first + second[1..];
    forall i | 0 <= i < |path| - 1
      ensures OneEdit(path[i], path[i + 1])
    {
      if i < |first| - 1 {
        assert OneEdit(first[i], first[i + 1]);
      } else {
        var k := i - (|first| - 1);
        assert path[i] == second[k] && path[i + 1] == second[k + 1];
        assert OneEdit(second[k], second[k + 1]);
      }
    }
    NoShorterPath(path, a, c);
  }

  lemma {:induction false} ZeroIffEqual<T(!new)>(a: seq<T>, b: seq<T>)
    ensures Lev(a, b) == 0 <==> a == b
  {
    LevOfSelf(a);
    if Lev(a, b) == 0 {
      var path := ShortestPath(a, b);
    }
  }
}
