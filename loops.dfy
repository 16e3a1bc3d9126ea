/**
 * The shapes of the searches' loops, independent of what one iteration contributes: a loop
 * over a list, the index pairs `i < j < n` and the index triples `i < j < k < n`, each
 * collecting what its iterations push, in iteration order.
 */
module Loops {

  /** `for (const x of xs) results.push(...body(x))`, over the prefix `xs`. */
  function Concat<X, T>(body: X -> seq<T>, xs: seq<X>): seq<T>
    decreases |xs|
  {
    if xs == [] then [] else Concat(body, xs[..|xs| - 1]) + body(xs[|xs| - 1])
  }

  /** One more iteration appends its contribution. */
  lemma ConcatStep<X, T>(body: X -> seq<T>, xs: seq<X>, n: nat)
    requires n < |xs|
    ensures Concat(body, xs[..n + 1]) == Concat(body, xs[..n]) + body(xs[n])
  {
    assert xs[..n + 1][..n] == xs[..n];
  }

  /** Iterations that contribute nothing collect nothing. */
  lemma {:induction false} ConcatNil<X, T>(body: X -> seq<T>, xs: seq<X>)
    requires forall k :: 0 <= k < |xs| ==> body(xs[k]) == []
    ensures Concat(body, xs) == []
    decreases |xs|
  {
    if xs != [] {
      ConcatNil(body, xs[..|xs| - 1]);
    }
  }

  lemma {:induction false} ConcatMembers<X, T>(body: X -> seq<T>, xs: seq<X>)
    ensures forall c :: c in Concat(body, xs) <==> exists k :: 0 <= k < |xs| && c in body(xs[k])
    decreases |xs|
  {
    if xs != [] {
      var init := xs[..|xs| - 1];
      ConcatMembers(body, init);
      assert forall k :: 0 <= k < |init| ==> init[k] == xs[k];
    }
  }

  /** An element of the collection comes from one iteration. */
  lemma ConcatWitness<X, T>(body: X -> seq<T>, xs: seq<X>, c: T) returns (k: nat)
    requires c in Concat(body, xs)
    ensures k < |xs| && c in body(xs[k])
  {
    ConcatMembers(body, xs);
    k :| k < |xs| && c in body(xs[k]);
  }

  /** What one iteration contributes is in the collection. */
  lemma ConcatHas<X, T>(body: X -> seq<T>, xs: seq<X>, k: nat, c: T)
    requires k < |xs| && c in body(xs[k])
    ensures c in Concat(body, xs)
  {
    ConcatMembers(body, xs);
  }

  /** `for (j = i + 1; j < jEnd; j++)`. */
  function Row<T>(body: (nat, nat) -> seq<T>, i: nat, jEnd: nat): seq<T>
    decreases jEnd
  {
    if jEnd <= i + 1 then [] else Row(body, i, jEnd - 1) + body(i, jEnd - 1)
  }

  /** `for (i = 0; i < iEnd; i++) for (j = i + 1; j < n; j++)`. */
  function Table<T>(body: (nat, nat) -> seq<T>, n: nat, iEnd: nat): seq<T>
  {
    if iEnd == 0 then [] else Table(body, n, iEnd - 1) + Row(body, iEnd - 1, n)
  }

  /** One more outer iteration appends its row. */
  lemma TableStep<T>(body: (nat, nat) -> seq<T>, n: nat, i: nat)
    ensures Table(body, n, i + 1) == Table(body, n, i) + Row(body, i, n)
  {
  }

  /** One more inner iteration appends its cell. */
  lemma RowStep<T>(body: (nat, nat) -> seq<T>, i: nat, j: nat)
    requires i < j
    ensures Row(body, i, j + 1) == Row(body, i, j) + body(i, j)
  {
  }

  /** The row of the last index is empty, so the outer loop may stop one index early. */
  lemma TableTail<T>(body: (nat, nat) -> seq<T>, n: nat)
    requires n > 0
    ensures Table(body, n, n) == Table(body, n, n - 1)
  {
    assert Row(body, n - 1, n) == [];
  }

  /** The pair loops' inner loop, `for (j = i + 1; j < n; j++) results.push(...body(i, j))`. */
  method RowLoop<T>(body: (nat, nat) -> seq<T>, i: nat, n: nat) returns (row: seq<T>)
    requires i < n
    ensures row == Row(body, i, n)
  {
    row := [];
    var j := i + 1;
    while j < n
      invariant i + 1 <= j <= n
      invariant row == Row(body, i, j)
    {
      RowStep(body, i, j);
      row := row + body(i, j);
      j := j + 1;
    }
  }

  /** The pair loops, `for (i = 0; i < n - 1; i++)` around `RowLoop`. */
  method TableLoop<T>(body: (nat, nat) -> seq<T>, n: nat) returns (rs: seq<T>)
    requires n > 0
    ensures rs == Table(body, n, n)
  {
    rs := [];
    var i := 0;
    while i < n - 1
      invariant 0 <= i <= n - 1
      invariant rs == Table(body, n, i)
    {
      var row := RowLoop(body, i, n);
      TableStep(body, n, i);
      rs := rs + row;
      i := i + 1;
    }
    TableTail(body, n);
  }

  lemma {:induction false} RowMembers<T>(body: (nat, nat) -> seq<T>, i: nat, jEnd: nat)
    ensures forall c :: c in Row(body, i, jEnd) <==> exists j: nat :: i < j < jEnd && c in body(i, j)
    decreases jEnd
  {
    if jEnd > i + 1 {
      RowMembers(body, i, jEnd - 1);
    }
  }

  lemma {:induction false} TableMembers<T>(body: (nat, nat) -> seq<T>, n: nat, iEnd: nat)
    ensures forall c :: c in Table(body, n, iEnd) <==>
              exists i: nat, j: nat :: i < iEnd && i < j < n && c in body(i, j)
  {
    if iEnd > 0 {
      TableMembers(body, n, iEnd - 1);
      RowMembers(body, iEnd - 1, n);
    }
  }

  /** `for (k = j + 1; k < kEnd; k++)`. */
  function Col<T>(body: (nat, nat, nat) -> seq<T>, i: nat, j: nat, kEnd: nat): seq<T>
    decreases kEnd
  {
    if kEnd <= j + 1 then [] else Col(body, i, j, kEnd - 1) + body(i, j, kEnd - 1)
  }

  /** `for (j = i + 1; j < jEnd; j++) for (k = j + 1; k < n; k++)`. */
  function Plane<T>(body: (nat, nat, nat) -> seq<T>, n: nat, i: nat, jEnd: nat): seq<T>
    decreases jEnd
  {
    if jEnd <= i + 1 then [] else Plane(body, n, i, jEnd - 1) + Col(body, i, jEnd - 1, n)
  }

  /** `for (i = 0; i < iEnd; i++)`, then the two inner loops up to `n`. */
  function Cube<T>(body: (nat, nat, nat) -> seq<T>, n: nat, iEnd: nat): seq<T>
  {
    if iEnd == 0 then [] else Cube(body, n, iEnd - 1) + Plane(body, n, iEnd - 1, n)
  }

  /** One more inner iteration appends its cell. */
  lemma ColStep<T>(body: (nat, nat, nat) -> seq<T>, i: nat, j: nat, k: nat)
    requires j < k
    ensures Col(body, i, j, k + 1) == Col(body, i, j, k) + body(i, j, k)
  {
  }

  /** One more middle iteration appends its column. */
  lemma PlaneStep<T>(body: (nat, nat, nat) -> seq<T>, n: nat, i: nat, j: nat)
    requires i < j
    ensures Plane(body, n, i, j + 1) == Plane(body, n, i, j) + Col(body, i, j, n)
  {
  }

  /** The column of the last middle index is empty, so the middle loop may stop one index early. */
  lemma PlaneTail<T>(body: (nat, nat, nat) -> seq<T>, n: nat, i: nat)
    requires i + 1 < n
    ensures Plane(body, n, i, n) == Plane(body, n, i, n - 1)
  {
    assert Col(body, i, n - 1, n) == [];
  }

  /** One more outer iteration appends its plane. */
  lemma CubeStep<T>(body: (nat, nat, nat) -> seq<T>, n: nat, i: nat)
    ensures Cube(body, n, i + 1) == Cube(body, n, i) + Plane(body, n, i, n)
  {
  }

  /** The planes of the last two outer indices are empty, so the outer loop may stop two indices early. */
  lemma CubeTail<T>(body: (nat, nat, nat) -> seq<T>, n: nat)
    requires n >= 2
    ensures Cube(body, n, n) == Cube(body, n, n - 2)
  {
    assert Plane(body, n, n - 1, n) == [];
    assert Col(body, n - 2, n - 1, n) == [];
    assert Plane(body, n, n - 2, n - 1) == [];
    assert Plane(body, n, n - 2, n) == [];
  }

  /** The triple loops' inner loop, `for (k = j + 1; k < n; k++) results.push(...body(i, j, k))`. */
  method ColLoop<T>(body: (nat, nat, nat) -> seq<T>, i: nat, j: nat, n: nat) returns (col: seq<T>)
    requires j < n
    ensures col == Col(body, i, j, n)
  {
    col := [];
    var k := j + 1;
    while k < n
      invariant j + 1 <= k <= n
      invariant col == Col(body, i, j, k)
    {
      ColStep(body, i, j, k);
      col := col + body(i, j, k);
      k := k + 1;
    }
  }

  /** The triple loops' middle loop, `for (j = i + 1; j < n - 1; j++)` around `ColLoop`. */
  method PlaneLoop<T>(body: (nat, nat, nat) -> seq<T>, n: nat, i: nat) returns (plane: seq<T>)
    requires i + 2 < n
    ensures plane == Plane(body, n, i, n)
  {
    plane := [];
    var j := i + 1;
    while j < n - 1
      invariant i + 1 <= j <= n - 1
      invariant plane == Plane(body, n, i, j)
    {
      var col := ColLoop(body, i, j, n);
      PlaneStep(body, n, i, j);
      plane := plane + col;
      j := j + 1;
    }
    PlaneTail(body, n, i);
  }

  /** The triple loops, `for (i = 0; i < n - 2; i++)` around `PlaneLoop`. */
  method CubeLoop<T>(body: (nat, nat, nat) -> seq<T>, n: nat) returns (rs: seq<T>)
    requires n >= 2
    ensures rs == Cube(body, n, n)
  {
    rs := [];
    var i := 0;
    while i < n - 2
      invariant 0 <= i <= n - 2
      invariant rs == Cube(body, n, i)
    {
      var plane := PlaneLoop(body, n, i);
      CubeStep(body, n, i);
      rs := rs + plane;
      i := i + 1;
    }
    CubeTail(body, n);
  }

  lemma {:induction false} ColMembers<T>(body: (nat, nat, nat) -> seq<T>, i: nat, j: nat, kEnd: nat)
    ensures forall c :: c in Col(body, i, j, kEnd) <==> exists k: nat :: j < k < kEnd && c in body(i, j, k)
    decreases kEnd
  {
    if kEnd > j + 1 {
      ColMembers(body, i, j, kEnd - 1);
    }
  }

  lemma {:induction false} PlaneMembers<T>(body: (nat, nat, nat) -> seq<T>, n: nat, i: nat, jEnd: nat)
    ensures forall c :: c in Plane(body, n, i, jEnd) <==>
              exists j: nat, k: nat :: i < j < jEnd && j < k < n && c in body(i, j, k)
    decreases jEnd
  {
    if jEnd > i + 1 {
      PlaneMembers(body, n, i, jEnd - 1);
      ColMembers(body, i, jEnd - 1, n);
    }
  }

  lemma {:induction false} CubeMembers<T>(body: (nat, nat, nat) -> seq<T>, n: nat, iEnd: nat)
    ensures forall c :: c in Cube(body, n, iEnd) <==>
              exists i: nat, j: nat, k: nat :: i < iEnd && i < j < k < n && c in body(i, j, k)
  {
    if iEnd > 0 {
      CubeMembers(body, n, iEnd - 1);
      PlaneMembers(body, n, iEnd - 1, n);
    }
  }
}
