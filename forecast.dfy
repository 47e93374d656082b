/**
 * The control logic of `fit_forecast`: the `_grid` enumeration of SARIMA orders, the
 * best-AIC selection that skips failed fits, the deterministic fallback bands used when
 * every fit fails, the non-negativity clips, and the forecast dates. Each SARIMAX fit
 * (with its back-transformed forecast) is the input `fit`.
 */
module Forecast {
  import opened Wrappers
  import opened Frames

  /** `(p, d, q, P, D, Q)`: non-seasonal and seasonal SARIMA orders. */
  datatype Order = Order(p: int, d: int, q: int, P: int, D: int, Q: int)

  /** The six ranges `_grid` takes. */
  datatype Ranges = Ranges(p: seq<int>, d: seq<int>, q: seq<int>, P: seq<int>, D: seq<int>, Q: seq<int>)

  /**
   * The default ranges. Both `d` and the seasonal `D` are {0, 1}; the doc comment of `_grid`
   * says {0, 1, 2} for each.
   */
  const DefaultRanges: Ranges := Ranges([0, 1, 2], [0, 1], [0, 1, 2], [0, 1, 2], [0, 1], [0, 1, 2])

  function Last<T>(s: seq<T>): T
    requires |s| > 0
  {
    s[|s| - 1]
  }

  predicate NoDup<T(==)>(s: seq<T>)
  {
    forall i, j :: 0 <= i < j < |s| ==> s[i] != s[j]
  }

  predicate DistinctRanges(rs: Ranges)
  {
    NoDup(rs.p) && NoDup(rs.d) && NoDup(rs.q) && NoDup(rs.P) && NoDup(rs.D) && NoDup(rs.Q)
  }

  predicate NonEmptyRanges(rs: Ranges)
  {
    |rs.p| > 0 && |rs.d| > 0 && |rs.q| > 0 && |rs.P| > 0 && |rs.D| > 0 && |rs.Q| > 0
  }

  // `_grid` is six nested `for` loops: P outermost, then D, Q, p, d and q innermost.
  // `Level(xs, k, body)` is what a loop over `xs` yields in its first `k` iterations,
  // `body(x)` being what the loops nested in it yield for the entry `x`.

  function Level<T>(xs: seq<int>, k: nat, body: int -> seq<T>): seq<T>
    requires k <= |xs|
  {
    if k == 0 then [] else Level(xs, k - 1, body) + body(xs[k - 1])
  }

  /** The body of the q loop: `yield (p, d, q, P, D, Q)`. */
  function Yield(P: int, D: int, Q: int, p: int, d: int): int -> seq<Order>
  {
    q => [Order(p, d, q, P, D, Q)]
  }

  /** The body of the d loop: the q loop. */
  function LoopQ(rs: Ranges, P: int, D: int, Q: int, p: int): int -> seq<Order>
  {
    d => Level(rs.q, |rs.q|, Yield(P, D, Q, p, d))
  }

  /** The body of the p loop: the d loop. */
  function LoopD(rs: Ranges, P: int, D: int, Q: int): int -> seq<Order>
  {
    p => Level(rs.d, |rs.d|, LoopQ(rs, P, D, Q, p))
  }

  /** The body of the seasonal Q loop: the p loop. */
  function LoopP(rs: Ranges, P: int, D: int): int -> seq<Order>
  {
    Q => Level(rs.p, |rs.p|, LoopD(rs, P, D, Q))
  }

  /** The body of the seasonal D loop: the seasonal Q loop. */
  function LoopSeasonalQ(rs: Ranges, P: int): int -> seq<Order>
  {
    D => Level(rs.Q, |rs.Q|, LoopP(rs, P, D))
  }

  /** The body of the seasonal P loop: the seasonal D loop. */
  function LoopSeasonalD(rs: Ranges): int -> seq<Order>
  {
    P => Level(rs.D, |rs.D|, LoopSeasonalQ(rs, P))
  }

  /** Everything `_grid` yields, in order. */
  function Grid(rs: Ranges): seq<Order>
  {
    Level(rs.P, |rs.P|, LoopSeasonalD(rs))
  }

  lemma NoDupConcat<T>(a: seq<T>, b: seq<T>)
    requires NoDup(a) && NoDup(b)
    requires forall x :: x in a ==> x !in b
    ensures NoDup(a + b)
  {
    forall i, j | 0 <= i < j < |a + b| ensures (a + b)[i] != (a + b)[j] {
      if i < |a| && j >= |a| {
        assert (a + b)[i] in a && (a + b)[j] in b;
      }
    }
  }

  /** `(k - 1) * m + m == k * m`, the step of every length proof below. */
  lemma StepLength(k: nat, m: nat)
    requires k > 0
    ensures (k - 1) * m + m == k * m
    ensures k > 1 ==> (k - 1) * m >= m
  {
  }

  // ----- one loop -----

  /** A loop whose every body yields `m` items yields `k * m` in `k` iterations. */
  lemma {:induction false} LevelLength<T>(xs: seq<int>, k: nat, body: int -> seq<T>, m: nat)
    requires k <= |xs|
    requires forall x :: |body(x)| == m
    ensures |Level(xs, k, body)| == k * m
  {
    if k > 0 {
      LevelLength(xs, k - 1, body, m);
      StepLength(k, m);
    }
  }

  /** A loop yields exactly what its bodies yield. */
  lemma {:induction false} LevelMember<T>(xs: seq<int>, k: nat, body: int -> seq<T>, o: T)
    requires k <= |xs|
    ensures o in Level(xs, k, body) <==> exists i :: 0 <= i < k && o in body(xs[i])
  {
    if k > 0 {
      LevelMember(xs, k - 1, body, o);
    }
  }

  /**
   * A loop over distinct entries yields no item twice when no body does and every item
   * of the body for `x` carries `x` (as `key`).
   */
  lemma {:induction false} LevelNoDup<T>(xs: seq<int>, k: nat, body: int -> seq<T>, key: T -> int)
    requires k <= |xs| && NoDup(xs)
    requires forall x :: NoDup(body(x))
    requires forall x, o :: o in body(x) ==> key(o) == x
    ensures NoDup(Level(xs, k, body))
  {
    if k > 0 {
      var prev, last := Level(xs, k - 1, body), body(xs[k - 1]);
      LevelNoDup(xs, k - 1, body, key);
      forall o | o in prev ensures o !in last {
        LevelMember(xs, k - 1, body, o);
        var i :| 0 <= i < k - 1 && o in body(xs[i]);
        assert key(o) == xs[i];
      }
      NoDupConcat(prev, last);
    }
  }

  /** A loop with non-empty bodies starts with its first body's first item and ends with its last body's last item. */
  lemma {:induction false} LevelEnds<T>(xs: seq<int>, k: nat, body: int -> seq<T>)
    requires 0 < k <= |xs|
    requires forall i :: 0 <= i < |xs| ==> |body(xs[i])| > 0
    ensures |Level(xs, k, body)| > 0
    ensures Level(xs, k, body)[0] == body(xs[0])[0]
    ensures Last(Level(xs, k, body)) == Last(body(xs[k - 1]))
  {
    if k > 1 {
      LevelEnds(xs, k - 1, body);
    }
  }

  lemma MulNonNeg(a: int, b: int)
    requires a >= 0 && b >= 0
    ensures a * b >= 0
  {
  }

  lemma MulLe(a: int, b: int, m: int)
    requires a <= b && m >= 0
    ensures a * m <= b * m
  {
    MulNonNeg(b - a, m);
    assert b * m - a * m == (b - a) * m;
  }

  /** Index `i * m + j` of a block of `n` rows of `m` lies inside it. */
  lemma IndexBound(i: int, n: int, j: int, m: int)
    requires 0 <= i < n && 0 <= j < m
    ensures 0 <= i * m + j < n * m
    ensures i < n - 1 ==> i * m + j < (n - 1) * m
  {
    MulNonNeg(i, m);
    assert (i + 1) * m == i * m + m;
    MulLe(i + 1, n, m);
    if i < n - 1 {
      MulLe(i + 1, n - 1, m);
    }
  }

  /**
   * When every body yields `m` items, item `j` of the body for the `i`-th entry is item
   * `i * m + j` of the loop.
   */
  lemma {:induction false} LevelAt<T>(xs: seq<int>, k: nat, body: int -> seq<T>, m: nat, i: int, j: int)
    requires k <= |xs|
    requires forall x :: |body(x)| == m
    requires 0 <= i < k && 0 <= j < m
    ensures 0 <= i * m + j < |Level(xs, k, body)| && |body(xs[i])| == m
    ensures Level(xs, k, body)[i * m + j] == body(xs[i])[j]
  {
    LevelLength(xs, k - 1, body, m);
    LevelLength(xs, k, body, m);
    IndexBound(i, k, j, m);
    StepLength(k, m);
    if i < k - 1 {
      LevelAt(xs, k - 1, body, m, i, j);
    }
  }

  // ----- the six loops -----

  /** What each of the five inner loops yields for one entry of its range. */
  lemma BlockLengths(rs: Ranges)
    ensures forall P, D, Q, p, d :: |LoopQ(rs, P, D, Q, p)(d)| == |rs.q|
    ensures forall P, D, Q, p :: |LoopD(rs, P, D, Q)(p)| == |rs.d| * |rs.q|
    ensures forall P, D, Q :: |LoopP(rs, P, D)(Q)| == |rs.p| * (|rs.d| * |rs.q|)
    ensures forall P, D :: |LoopSeasonalQ(rs, P)(D)| == |rs.Q| * (|rs.p| * (|rs.d| * |rs.q|))
    ensures forall P :: |LoopSeasonalD(rs)(P)| == |rs.D| * (|rs.Q| * (|rs.p| * (|rs.d| * |rs.q|)))
  {
    forall P, D, Q, p, d ensures |LoopQ(rs, P, D, Q, p)(d)| == |rs.q| {
      LevelLength(rs.q, |rs.q|, Yield(P, D, Q, p, d), 1);
    }
    forall P, D, Q, p ensures |LoopD(rs, P, D, Q)(p)| == |rs.d| * |rs.q| {
      LevelLength(rs.d, |rs.d|, LoopQ(rs, P, D, Q, p), |rs.q|);
    }
    forall P, D, Q ensures |LoopP(rs, P, D)(Q)| == |rs.p| * (|rs.d| * |rs.q|) {
      LevelLength(rs.p, |rs.p|, LoopD(rs, P, D, Q), |rs.d| * |rs.q|);
    }
    forall P, D ensures |LoopSeasonalQ(rs, P)(D)| == |rs.Q| * (|rs.p| * (|rs.d| * |rs.q|)) {
      LevelLength(rs.Q, |rs.Q|, LoopP(rs, P, D), |rs.p| * (|rs.d| * |rs.q|));
    }
    forall P ensures |LoopSeasonalD(rs)(P)| == |rs.D| * (|rs.Q| * (|rs.p| * (|rs.d| * |rs.q|))) {
      LevelLength(rs.D, |rs.D|, LoopSeasonalQ(rs, P), |rs.Q| * (|rs.p| * (|rs.d| * |rs.q|)));
    }
  }

  lemma GridLength(rs: Ranges)
    ensures |Grid(rs)| == |rs.P| * (|rs.D| * (|rs.Q| * (|rs.p| * (|rs.d| * |rs.q|))))
  {
    BlockLengths(rs);
    LevelLength(rs.P, |rs.P|, LoopSeasonalD(rs), |rs.D| * (|rs.Q| * (|rs.p| * (|rs.d| * |rs.q|))));
  }

  lemma LoopQMember(rs: Ranges)
    ensures forall P, D, Q, p, d, o :: o in LoopQ(rs, P, D, Q, p)(d) <==>
      o.p == p && o.d == d && o.q in rs.q && o.P == P && o.D == D && o.Q == Q
  {
    forall P, D, Q, p, d, o ensures o in LoopQ(rs, P, D, Q, p)(d) <==>
      o.p == p && o.d == d && o.q in rs.q && o.P == P && o.D == D && o.Q == Q
    {
      LevelMember(rs.q, |rs.q|, Yield(P, D, Q, p, d), o);
      if o.p == p && o.d == d && o.q in rs.q && o.P == P && o.D == D && o.Q == Q {
        var i :| 0 <= i < |rs.q| && rs.q[i] == o.q;
        assert o in Yield(P, D, Q, p, d)(rs.q[i]);
      }
    }
  }

  lemma LoopDMember(rs: Ranges)
    ensures forall P, D, Q, p, o :: o in LoopD(rs, P, D, Q)(p) <==>
      o.p == p && o.d in rs.d && o.q in rs.q && o.P == P && o.D == D && o.Q == Q
  {
    LoopQMember(rs);
    forall P, D, Q, p, o ensures o in LoopD(rs, P, D, Q)(p) <==>
      o.p == p && o.d in rs.d && o.q in rs.q && o.P == P && o.D == D && o.Q == Q
    {
      LevelMember(rs.d, |rs.d|, LoopQ(rs, P, D, Q, p), o);
      if o.p == p && o.d in rs.d && o.q in rs.q && o.P == P && o.D == D && o.Q == Q {
        var i :| 0 <= i < |rs.d| && rs.d[i] == o.d;
        assert o in LoopQ(rs, P, D, Q, p)(rs.d[i]);
      }
    }
  }

  lemma LoopPMember(rs: Ranges)
    ensures forall P, D, Q, o :: o in LoopP(rs, P, D)(Q) <==>
      o.p in rs.p && o.d in rs.d && o.q in rs.q && o.P == P && o.D == D && o.Q == Q
  {
    LoopDMember(rs);
    forall P, D, Q, o ensures o in LoopP(rs, P, D)(Q) <==>
      o.p in rs.p && o.d in rs.d && o.q in rs.q && o.P == P && o.D == D && o.Q == Q
    {
      LevelMember(rs.p, |rs.p|, LoopD(rs, P, D, Q), o);
      if o.p in rs.p && o.d in rs.d && o.q in rs.q && o.P == P && o.D == D && o.Q == Q {
        var i :| 0 <= i < |rs.p| && rs.p[i] == o.p;
        assert o in LoopD(rs, P, D, Q)(rs.p[i]);
      }
    }
  }

  lemma LoopSeasonalQMember(rs: Ranges)
    ensures forall P, D, o :: o in LoopSeasonalQ(rs, P)(D) <==>
      o.p in rs.p && o.d in rs.d && o.q in rs.q && o.P == P && o.D == D && o.Q in rs.Q
  {
    LoopPMember(rs);
    forall P, D, o ensures o in LoopSeasonalQ(rs, P)(D) <==>
      o.p in rs.p && o.d in rs.d && o.q in rs.q && o.P == P && o.D == D && o.Q in rs.Q
    {
      LevelMember(rs.Q, |rs.Q|, LoopP(rs, P, D), o);
      if o.p in rs.p && o.d in rs.d && o.q in rs.q && o.P == P && o.D == D && o.Q in rs.Q {
        var i :| 0 <= i < |rs.Q| && rs.Q[i] == o.Q;
        assert o in LoopP(rs, P, D)(rs.Q[i]);
      }
    }
  }

  lemma LoopSeasonalDMember(rs: Ranges)
    ensures forall P, o :: o in LoopSeasonalD(rs)(P) <==>
      o.p in rs.p && o.d in rs.d && o.q in rs.q && o.P == P && o.D in rs.D && o.Q in rs.Q
  {
    LoopSeasonalQMember(rs);
    forall P, o ensures o in LoopSeasonalD(rs)(P) <==>
      o.p in rs.p && o.d in rs.d && o.q in rs.q && o.P == P && o.D in rs.D && o.Q in rs.Q
    {
      LevelMember(rs.D, |rs.D|, LoopSeasonalQ(rs, P), o);
      if o.p in rs.p && o.d in rs.d && o.q in rs.q && o.P == P && o.D in rs.D && o.Q in rs.Q {
        var i :| 0 <= i < |rs.D| && rs.D[i] == o.D;
        assert o in LoopSeasonalQ(rs, P)(rs.D[i]);
      }
    }
  }

  lemma GridMember(rs: Ranges)
    ensures forall o :: o in Grid(rs) <==>
      o.p in rs.p && o.d in rs.d && o.q in rs.q && o.P in rs.P && o.D in rs.D && o.Q in rs.Q
  {
    LoopSeasonalDMember(rs);
    forall o ensures o in Grid(rs) <==>
      o.p in rs.p && o.d in rs.d && o.q in rs.q && o.P in rs.P && o.D in rs.D && o.Q in rs.Q
    {
      LevelMember(rs.P, |rs.P|, LoopSeasonalD(rs), o);
      if o.p in rs.p && o.d in rs.d && o.q in rs.q && o.P in rs.P && o.D in rs.D && o.Q in rs.Q {
        var i :| 0 <= i < |rs.P| && rs.P[i] == o.P;
        assert o in LoopSeasonalD(rs)(rs.P[i]);
      }
    }
  }

  lemma GridNoDup(rs: Ranges)
    requires DistinctRanges(rs)
    ensures NoDup(Grid(rs))
  {
    LoopQMember(rs);
    LoopDMember(rs);
    LoopPMember(rs);
    LoopSeasonalQMember(rs);
    LoopSeasonalDMember(rs);
    forall P, D, Q, p, d ensures NoDup(LoopQ(rs, P, D, Q, p)(d)) {
      LevelNoDup(rs.q, |rs.q|, Yield(P, D, Q, p, d), (o: Order) => o.q);
    }
    forall P, D, Q, p ensures NoDup(LoopD(rs, P, D, Q)(p)) {
      LevelNoDup(rs.d, |rs.d|, LoopQ(rs, P, D, Q, p), (o: Order) => o.d);
    }
    forall P, D, Q ensures NoDup(LoopP(rs, P, D)(Q)) {
      LevelNoDup(rs.p, |rs.p|, LoopD(rs, P, D, Q), (o: Order) => o.p);
    }
    forall P, D ensures NoDup(LoopSeasonalQ(rs, P)(D)) {
      LevelNoDup(rs.Q, |rs.Q|, LoopP(rs, P, D), (o: Order) => o.Q);
    }
    forall P ensures NoDup(LoopSeasonalD(rs)(P)) {
      LevelNoDup(rs.D, |rs.D|, LoopSeasonalQ(rs, P), (o: Order) => o.D);
    }
    LevelNoDup(rs.P, |rs.P|, LoopSeasonalD(rs), (o: Order) => o.P);
  }

  lemma LoopQEnds(rs: Ranges)
    requires |rs.q| > 0
    ensures forall P, D, Q, p, d ::
      && |LoopQ(rs, P, D, Q, p)(d)| > 0
      && LoopQ(rs, P, D, Q, p)(d)[0] == Order(p, d, rs.q[0], P, D, Q)
      && Last(LoopQ(rs, P, D, Q, p)(d)) == Order(p, d, Last(rs.q), P, D, Q)
  {
    forall P, D, Q, p, d ensures
      && |LoopQ(rs, P, D, Q, p)(d)| > 0
      && LoopQ(rs, P, D, Q, p)(d)[0] == Order(p, d, rs.q[0], P, D, Q)
      && Last(LoopQ(rs, P, D, Q, p)(d)) == Order(p, d, Last(rs.q), P, D, Q)
    {
      LevelEnds(rs.q, |rs.q|, Yield(P, D, Q, p, d));
    }
  }

  lemma LoopDEnds(rs: Ranges)
    requires |rs.d| > 0 && |rs.q| > 0
    ensures forall P, D, Q, p ::
      && |LoopD(rs, P, D, Q)(p)| > 0
      && LoopD(rs, P, D, Q)(p)[0] == Order(p, rs.d[0], rs.q[0], P, D, Q)
      && Last(LoopD(rs, P, D, Q)(p)) == Order(p, Last(rs.d), Last(rs.q), P, D, Q)
  {
    LoopQEnds(rs);
    forall P, D, Q, p ensures
      && |LoopD(rs, P, D, Q)(p)| > 0
      && LoopD(rs, P, D, Q)(p)[0] == Order(p, rs.d[0], rs.q[0], P, D, Q)
      && Last(LoopD(rs, P, D, Q)(p)) == Order(p, Last(rs.d), Last(rs.q), P, D, Q)
    {
      LevelEnds(rs.d, |rs.d|, LoopQ(rs, P, D, Q, p));
    }
  }

  lemma LoopPEnds(rs: Ranges)
    requires |rs.p| > 0 && |rs.d| > 0 && |rs.q| > 0
    ensures forall P, D, Q ::
      && |LoopP(rs, P, D)(Q)| > 0
      && LoopP(rs, P, D)(Q)[0] == Order(rs.p[0], rs.d[0], rs.q[0], P, D, Q)
      && Last(LoopP(rs, P, D)(Q)) == Order(Last(rs.p), Last(rs.d), Last(rs.q), P, D, Q)
  {
    LoopDEnds(rs);
    forall P, D, Q ensures
      && |LoopP(rs, P, D)(Q)| > 0
      && LoopP(rs, P, D)(Q)[0] == Order(rs.p[0], rs.d[0], rs.q[0], P, D, Q)
      && Last(LoopP(rs, P, D)(Q)) == Order(Last(rs.p), Last(rs.d), Last(rs.q), P, D, Q)
    {
      LevelEnds(rs.p, |rs.p|, LoopD(rs, P, D, Q));
    }
  }

  lemma LoopSeasonalQEnds(rs: Ranges)
    requires |rs.Q| > 0 && |rs.p| > 0 && |rs.d| > 0 && |rs.q| > 0
    ensures forall P, D ::
      && |LoopSeasonalQ(rs, P)(D)| > 0
      && LoopSeasonalQ(rs, P)(D)[0] == Order(rs.p[0], rs.d[0], rs.q[0], P, D, rs.Q[0])
      && Last(LoopSeasonalQ(rs, P)(D)) == Order(Last(rs.p), Last(rs.d), Last(rs.q), P, D, Last(rs.Q))
  {
    LoopPEnds(rs);
    forall P, D ensures
      && |LoopSeasonalQ(rs, P)(D)| > 0
      && LoopSeasonalQ(rs, P)(D)[0] == Order(rs.p[0], rs.d[0], rs.q[0], P, D, rs.Q[0])
      && Last(LoopSeasonalQ(rs, P)(D)) == Order(Last(rs.p), Last(rs.d), Last(rs.q), P, D, Last(rs.Q))
    {
      LevelEnds(rs.Q, |rs.Q|, LoopP(rs, P, D));
    }
  }

  lemma LoopSeasonalDEnds(rs: Ranges)
    requires |rs.D| > 0 && |rs.Q| > 0 && |rs.p| > 0 && |rs.d| > 0 && |rs.q| > 0
    ensures forall P ::
      && |LoopSeasonalD(rs)(P)| > 0
      && LoopSeasonalD(rs)(P)[0] == Order(rs.p[0], rs.d[0], rs.q[0], P, rs.D[0], rs.Q[0])
      && Last(LoopSeasonalD(rs)(P)) == Order(Last(rs.p), Last(rs.d), Last(rs.q), P, Last(rs.D), Last(rs.Q))
  {
    LoopSeasonalQEnds(rs);
    forall P ensures
      && |LoopSeasonalD(rs)(P)| > 0
      && LoopSeasonalD(rs)(P)[0] == Order(rs.p[0], rs.d[0], rs.q[0], P, rs.D[0], rs.Q[0])
      && Last(LoopSeasonalD(rs)(P)) == Order(Last(rs.p), Last(rs.d), Last(rs.q), P, Last(rs.D), Last(rs.Q))
    {
      LevelEnds(rs.D, |rs.D|, LoopSeasonalQ(rs, P));
    }
  }

  lemma GridEnds(rs: Ranges)
    requires NonEmptyRanges(rs)
    ensures |Grid(rs)| > 0
    ensures Grid(rs)[0] == Order(rs.p[0], rs.d[0], rs.q[0], rs.P[0], rs.D[0], rs.Q[0])
    ensures Last(Grid(rs)) == Order(Last(rs.p), Last(rs.d), Last(rs.q), Last(rs.P), Last(rs.D), Last(rs.Q))
  {
    LoopSeasonalDEnds(rs);
    LevelEnds(rs.P, |rs.P|, LoopSeasonalD(rs));
  }

  // Where each order sits: nested loops number their iterations in mixed radix, the
  // outermost loop's index being the most significant digit.

  lemma LoopQAt(rs: Ranges, P: int, D: int, Q: int, p: int, d: int, iq: int)
    requires 0 <= iq < |rs.q|
    ensures 0 <= iq < |LoopQ(rs, P, D, Q, p)(d)|
    ensures LoopQ(rs, P, D, Q, p)(d)[iq] == Order(p, d, rs.q[iq], P, D, Q)
  {
    LevelAt(rs.q, |rs.q|, Yield(P, D, Q, p, d), 1, iq, 0);
    assert iq * 1 + 0 == iq;
  }

  lemma LoopDAt(rs: Ranges, P: int, D: int, Q: int, p: int, id: int, iq: int)
    requires 0 <= id < |rs.d| && 0 <= iq < |rs.q|
    ensures 0 <= id * |rs.q| + iq < |LoopD(rs, P, D, Q)(p)|
    ensures LoopD(rs, P, D, Q)(p)[id * |rs.q| + iq] == Order(p, rs.d[id], rs.q[iq], P, D, Q)
  {
    BlockLengths(rs);
    LevelAt(rs.d, |rs.d|, LoopQ(rs, P, D, Q, p), |rs.q|, id, iq);
    LoopQAt(rs, P, D, Q, p, rs.d[id], iq);
  }

  lemma LoopPAt(rs: Ranges, P: int, D: int, Q: int, ip: int, id: int, iq: int)
    requires 0 <= ip < |rs.p| && 0 <= id < |rs.d| && 0 <= iq < |rs.q|
    ensures var n := ip * (|rs.d| * |rs.q|) + (id * |rs.q| + iq);
      0 <= n < |LoopP(rs, P, D)(Q)| && LoopP(rs, P, D)(Q)[n] == Order(rs.p[ip], rs.d[id], rs.q[iq], P, D, Q)
  {
    var m, inner := |rs.d| * |rs.q|, id * |rs.q| + iq;
    LoopDAt(rs, P, D, Q, rs.p[ip], id, iq);
    BlockLengths(rs);
    assert 0 <= inner < m;
    LevelAt(rs.p, |rs.p|, LoopD(rs, P, D, Q), m, ip, inner);
  }

  lemma LoopSeasonalQAt(rs: Ranges, P: int, D: int, iQ: int, ip: int, id: int, iq: int)
    requires 0 <= iQ < |rs.Q| && 0 <= ip < |rs.p| && 0 <= id < |rs.d| && 0 <= iq < |rs.q|
    ensures var n := iQ * (|rs.p| * (|rs.d| * |rs.q|)) + (ip * (|rs.d| * |rs.q|) + (id * |rs.q| + iq));
      0 <= n < |LoopSeasonalQ(rs, P)(D)| &&
      LoopSeasonalQ(rs, P)(D)[n] == Order(rs.p[ip], rs.d[id], rs.q[iq], P, D, rs.Q[iQ])
  {
    var m, inner := |rs.p| * (|rs.d| * |rs.q|), ip * (|rs.d| * |rs.q|) + (id * |rs.q| + iq);
    LoopPAt(rs, P, D, rs.Q[iQ], ip, id, iq);
    BlockLengths(rs);
    assert 0 <= inner < m;
    LevelAt(rs.Q, |rs.Q|, LoopP(rs, P, D), m, iQ, inner);
  }

  lemma LoopSeasonalDAt(rs: Ranges, P: int, iD: int, iQ: int, ip: int, id: int, iq: int)
    requires 0 <= iD < |rs.D| && 0 <= iQ < |rs.Q|
    requires 0 <= ip < |rs.p| && 0 <= id < |rs.d| && 0 <= iq < |rs.q|
    ensures var n := iD * (|rs.Q| * (|rs.p| * (|rs.d| * |rs.q|))) +
        (iQ * (|rs.p| * (|rs.d| * |rs.q|)) + (ip * (|rs.d| * |rs.q|) + (id * |rs.q| + iq)));
      0 <= n < |LoopSeasonalD(rs)(P)| &&
      LoopSeasonalD(rs)(P)[n] == Order(rs.p[ip], rs.d[id], rs.q[iq], P, rs.D[iD], rs.Q[iQ])
  {
    var m := |rs.Q| * (|rs.p| * (|rs.d| * |rs.q|));
    var inner := iQ * (|rs.p| * (|rs.d| * |rs.q|)) + (ip * (|rs.d| * |rs.q|) + (id * |rs.q| + iq));
    LoopSeasonalQAt(rs, P, rs.D[iD], iQ, ip, id, iq);
    BlockLengths(rs);
    assert 0 <= inner < m;
    LevelAt(rs.D, |rs.D|, LoopSeasonalQ(rs, P), m, iD, inner);
  }

  lemma GridAt(rs: Ranges, iP: int, iD: int, iQ: int, ip: int, id: int, iq: int)
    requires 0 <= iP < |rs.P| && 0 <= iD < |rs.D| && 0 <= iQ < |rs.Q|
    requires 0 <= ip < |rs.p| && 0 <= id < |rs.d| && 0 <= iq < |rs.q|
    ensures var n := iP * (|rs.D| * (|rs.Q| * (|rs.p| * (|rs.d| * |rs.q|)))) +
        (iD * (|rs.Q| * (|rs.p| * (|rs.d| * |rs.q|))) +
        (iQ * (|rs.p| * (|rs.d| * |rs.q|)) + (ip * (|rs.d| * |rs.q|) + (id * |rs.q| + iq))));
      0 <= n < |Grid(rs)| && Grid(rs)[n] == Order(rs.p[ip], rs.d[id], rs.q[iq], rs.P[iP], rs.D[iD], rs.Q[iQ])
  {
    var m := |rs.D| * (|rs.Q| * (|rs.p| * (|rs.d| * |rs.q|)));
    var inner := iD * (|rs.Q| * (|rs.p| * (|rs.d| * |rs.q|))) +
      (iQ * (|rs.p| * (|rs.d| * |rs.q|)) + (ip * (|rs.d| * |rs.q|) + (id * |rs.q| + iq)));
    LoopSeasonalDAt(rs, rs.P[iP], iD, iQ, ip, id, iq);
    BlockLengths(rs);
    assert 0 <= inner < m;
    LevelAt(rs.P, |rs.P|, LoopSeasonalD(rs), m, iP, inner);
  }

  /** `(a * b + c) * m == a * (b * m) + c * m`: one step of unfolding a mixed-radix index. */
  lemma RadixStep(a: int, b: int, c: int, m: int)
    ensures (a * b + c) * m == a * (b * m) + c * m
  {
    calc {
      (a * b + c) * m;
      a * b * m + c * m;
      a * (b * m) + c * m;
    }
  }

  /**
   * The order built from the `iP`-th seasonal P, ..., the `iq`-th q is item
   * `((((iP·|D| + iD)·|Q| + iQ)·|p| + ip)·|d| + id)·|q| + iq` of the grid: P varies
   * slowest and q fastest.
   */
  lemma GridPosition(rs: Ranges, iP: int, iD: int, iQ: int, ip: int, id: int, iq: int)
    requires 0 <= iP < |rs.P| && 0 <= iD < |rs.D| && 0 <= iQ < |rs.Q|
    requires 0 <= ip < |rs.p| && 0 <= id < |rs.d| && 0 <= iq < |rs.q|
    ensures var n := ((((iP * |rs.D| + iD) * |rs.Q| + iQ) * |rs.p| + ip) * |rs.d| + id) * |rs.q| + iq;
      0 <= n < |Grid(rs)| && Grid(rs)[n] == Order(rs.p[ip], rs.d[id], rs.q[iq], rs.P[iP], rs.D[iD], rs.Q[iQ])
  {
    var nq, nd, np, nQ, nD := |rs.q|, |rs.d|, |rs.p|, |rs.Q|, |rs.D|;
    var h1 := iP * nD + iD;
    var h2 := h1 * nQ + iQ;
    var h3 := h2 * np + ip;
    var h4 := h3 * nd + id;
    RadixStep(h3, nd, id, nq);
    RadixStep(h2, np, ip, nd * nq);
    RadixStep(h1, nQ, iQ, np * (nd * nq));
    RadixStep(iP, nD, iD, nQ * (np * (nd * nq)));
    assert h4 * nq + iq == iP * (nD * (nQ * (np * (nd * nq)))) +
      (iD * (nQ * (np * (nd * nq))) + (iQ * (np * (nd * nq)) + (ip * (nd * nq) + (id * nq + iq))));
    GridAt(rs, iP, iD, iQ, ip, id, iq);
  }

  /**
   * `_grid` yields the product of the range sizes, every combination of range entries and
   * nothing else, each once when no range repeats a value, starting with the first entries
   * and ending with the last ones.
   */
  lemma GridFacts(rs: Ranges)
    ensures |Grid(rs)| == |rs.P| * (|rs.D| * (|rs.Q| * (|rs.p| * (|rs.d| * |rs.q|))))
    ensures forall o :: o in Grid(rs) <==>
      o.p in rs.p && o.d in rs.d && o.q in rs.q && o.P in rs.P && o.D in rs.D && o.Q in rs.Q
    ensures DistinctRanges(rs) ==> NoDup(Grid(rs))
    ensures NonEmptyRanges(rs) ==>
      && |Grid(rs)| > 0
      && Grid(rs)[0] == Order(rs.p[0], rs.d[0], rs.q[0], rs.P[0], rs.D[0], rs.Q[0])
      && Last(Grid(rs)) == Order(Last(rs.p), Last(rs.d), Last(rs.q), Last(rs.P), Last(rs.D), Last(rs.Q))
  {
    GridLength(rs);
    GridMember(rs);
    if DistinctRanges(rs) {
      GridNoDup(rs);
    }
    if NonEmptyRanges(rs) {
      GridEnds(rs);
    }
  }

  /**
   * With the default ranges (`DefaultRanges` has them), 3·2·3·3·2·3 = 324 distinct orders, from (0,0,0,0,0,0) to
   * (2,1,2,2,1,2), each component within its range (the seasonal D never reaches 2).
   */
  lemma DefaultGrid(rs: Ranges)
    requires rs.p == [0, 1, 2] && rs.d == [0, 1] && rs.q == [0, 1, 2]
    requires rs.P == [0, 1, 2] && rs.D == [0, 1] && rs.Q == [0, 1, 2]
    ensures |Grid(rs)| == 324
    ensures NoDup(Grid(rs))
    ensures Grid(rs)[0] == Order(0, 0, 0, 0, 0, 0)
    ensures Last(Grid(rs)) == Order(2, 1, 2, 2, 1, 2)
    ensures forall o :: o in Grid(rs) <==>
      0 <= o.p <= 2 && 0 <= o.d <= 1 && 0 <= o.q <= 2 && 0 <= o.P <= 2 && 0 <= o.D <= 1 && 0 <= o.Q <= 2
  {
    GridFacts(rs);
    assert DistinctRanges(rs);
    forall o ensures o in Grid(rs) <==>
      0 <= o.p <= 2 && 0 <= o.d <= 1 && 0 <= o.q <= 2 && 0 <= o.P <= 2 && 0 <= o.D <= 1 && 0 <= o.Q <= 2
    {
      InRange(o.p, rs.p, 3); InRange(o.d, rs.d, 2); InRange(o.q, rs.q, 3);
      InRange(o.P, rs.P, 3); InRange(o.D, rs.D, 2); InRange(o.Q, rs.Q, 3);
    }
  }

  lemma InRange(x: int, r: seq<int>, n: int)
    requires (n == 2 && r == [0, 1]) || (n == 3 && r == [0, 1, 2])
    ensures x in r <==> 0 <= x < n
  {
  }

  /**
   * The three inner loops of `_grid` (over p, d and q) for one seasonal order (P, D, Q),
   * appending one order per innermost iteration.
   */
  method EnumerateNonSeasonal(rs: Ranges, P: int, D: int, Q: int) returns (orders: seq<Order>)
    ensures orders == LoopP(rs, P, D)(Q)
  {
    orders := [];
    for ip := 0 to |rs.p|
      invariant orders == Level(rs.p, ip, LoopD(rs, P, D, Q))
    {
      var p := rs.p[ip];
      var overD := [];
      for id := 0 to |rs.d|
        invariant overD == Level(rs.d, id, LoopQ(rs, P, D, Q, p))
      {
        var d := rs.d[id];
        var overQ := [];
        for iq := 0 to |rs.q|
          invariant overQ == Level(rs.q, iq, Yield(P, D, Q, p, d))
        {
          overQ := overQ + [Order(p, d, rs.q[iq], P, D, Q)];
        }
        overD := overD + overQ;
      }
      orders := orders + overD;
    }
  }

  /** The loop of `_grid` over Q for one seasonal (P, D), around the three inner ones. */
  method EnumerateSeasonalQ(rs: Ranges, P: int, D: int) returns (orders: seq<Order>)
    ensures orders == LoopSeasonalQ(rs, P)(D)
  {
    orders := [];
    for iQ := 0 to |rs.Q|
      invariant orders == Level(rs.Q, iQ, LoopP(rs, P, D))
    {
      var block := EnumerateNonSeasonal(rs, P, D, rs.Q[iQ]);
      orders := orders + block;
    }
  }

  /** The loops of `_grid` over D and Q for one seasonal P. */
  method EnumerateSeasonal(rs: Ranges, P: int) returns (orders: seq<Order>)
    ensures orders == LoopSeasonalD(rs)(P)
  {
    orders := [];
    for iD := 0 to |rs.D|
      invariant orders == Level(rs.D, iD, LoopSeasonalQ(rs, P))
    {
      var block := EnumerateSeasonalQ(rs, P, rs.D[iD]);
      orders := orders + block;
    }
  }

  /** `_grid`: the outermost loop, over the seasonal P. */
  method EnumerateGrid(rs: Ranges) returns (orders: seq<Order>)
    ensures orders == Grid(rs)
  {
    orders := [];
    for iP := 0 to |rs.P|
      invariant orders == Level(rs.P, iP, LoopSeasonalD(rs))
    {
      var block := EnumerateSeasonal(rs, rs.P[iP]);
      orders := orders + block;
    }
  }

  // ----- model selection -----

  /**
   * `k` is the model the selection loop keeps: a successful fit whose AIC is no larger than
   * any other successful fit's and strictly smaller than every earlier one's.
   */
  ghost predicate IsFirstMinimum(aics: seq<Option<real>>, k: int)
  {
    && 0 <= k < |aics| && aics[k].Some?
    && (forall j :: 0 <= j < |aics| && aics[j].Some? ==> aics[k].value <= aics[j].value)
    && (forall j :: 0 <= j < k && aics[j].Some? ==> aics[k].value < aics[j].value)
  }

  /** At most one fit is the first minimum. */
  lemma FirstMinimumUnique(aics: seq<Option<real>>, k1: int, k2: int)
    requires IsFirstMinimum(aics, k1) && IsFirstMinimum(aics, k2)
    ensures k1 == k2
  {
  }

  /**
   * The loop over the grid keeping `best_aic` and `best_model`: a failed fit (`None`) is
   * skipped, and a fit replaces the best one only when its AIC is strictly smaller
   * (`best_aic` starts at infinity, so the first successful fit is always taken).
   */
  method SelectBest(aics: seq<Option<real>>) returns (best: Option<nat>)
    ensures best.None? <==> forall j :: 0 <= j < |aics| ==> aics[j].None?
    ensures best.Some? ==> IsFirstMinimum(aics, best.value)
  {
    best := None;
    var bestAic := 0.0;
    for k := 0 to |aics|
      invariant best.None? <==> forall j :: 0 <= j < k ==> aics[j].None?
      invariant best.Some? ==> best.value < k && aics[best.value] == Some(bestAic)
      invariant best.Some? ==> forall j :: 0 <= j < k && aics[j].Some? ==> bestAic <= aics[j].value
      invariant best.Some? ==> forall j :: 0 <= j < best.value && aics[j].Some? ==> bestAic < aics[j].value
    {
      match aics[k]
      case None =>
      case Some(aic) =>
        if best.None? || aic < bestAic {
          best := Some(k);
          bestAic := aic;
        }
    }
  }

  // ----- forecast frames -----

  /** The five forecast columns. */
  datatype Bands = Bands(mean: seq<real>, lower80: seq<real>, upper80: seq<real>, lower95: seq<real>, upper95: seq<real>)

  predicate HasLength(b: Bands, horizon: nat)
  {
    |b.mean| == horizon && |b.lower80| == horizon && |b.upper80| == horizon &&
    |b.lower95| == horizon && |b.upper95| == horizon
  }

  /** `lower_95 <= lower_80 <= mean <= upper_80 <= upper_95` at every step. */
  predicate Ordered(b: Bands)
  {
    && |b.mean| == |b.lower80| == |b.upper80| == |b.lower95| == |b.upper95|
    && forall i :: 0 <= i < |b.mean| ==>
         b.lower95[i] <= b.lower80[i] <= b.mean[i] <= b.upper80[i] <= b.upper95[i]
  }

  predicate NonNegative(b: Bands)
  {
    && (forall i :: 0 <= i < |b.mean| ==> b.mean[i] >= 0.0)
    && (forall i :: 0 <= i < |b.lower80| ==> b.lower80[i] >= 0.0)
    && (forall i :: 0 <= i < |b.upper80| ==> b.upper80[i] >= 0.0)
    && (forall i :: 0 <= i < |b.lower95| ==> b.lower95[i] >= 0.0)
    && (forall i :: 0 <= i < |b.upper95| ==> b.upper95[i] >= 0.0)
  }

  /** One SARIMAX fit: its AIC and its forecast, already mapped back by `_inv_boxcox`. */
  datatype Fit = Fit(aic: real, forecast: Bands)

  datatype ForecastFrame = ForecastFrame(dates: seq<int>, bands: Bands)

  /** `pd.date_range` receives `NaT` when the input has no dates, and raises. */
  datatype ForecastError = NoDates

  function Constant(x: real, n: nat): (s: seq<real>)
    ensures |s| == n && forall i :: 0 <= i < n ==> s[i] == x
  {
    seq(n, _ => x)
  }

  /** The bands used when no fit succeeded: constant multiples of the last value. */
  function Fallback(last: real, horizon: nat): (b: Bands)
    ensures HasLength(b, horizon)
  {
    Bands(Constant(last, horizon), Constant(Max0(last * 0.8), horizon), Constant(last * 1.2, horizon),
          Constant(Max0(last * 0.6), horizon), Constant(last * 1.4, horizon))
  }

  /**
   * The fallback's mean is the last value, its lower bounds are never negative, and for a
   * non-negative last value the five columns are ordered at every step.
   */
  lemma FallbackBands(last: real, horizon: nat)
    ensures var b := Fallback(last, horizon);
      && (forall i :: 0 <= i < horizon ==> b.mean[i] == last)
      && (forall i :: 0 <= i < horizon ==> b.lower80[i] >= 0.0 && b.lower95[i] >= 0.0)
    ensures last >= 0.0 ==> Ordered(Fallback(last, horizon)) && NonNegative(Fallback(last, horizon))
  {
  }

  /** `np.clip(column, 0, None)` on every column. */
  function ClipBands(b: Bands): (r: Bands)
    ensures NonNegative(r)
    ensures |r.mean| == |b.mean| && |r.lower80| == |b.lower80| && |r.upper80| == |b.upper80|
    ensures |r.lower95| == |b.lower95| && |r.upper95| == |b.upper95|
  {
    Bands(ClipNonNeg(b.mean), ClipNonNeg(b.lower80), ClipNonNeg(b.upper80),
          ClipNonNeg(b.lower95), ClipNonNeg(b.upper95))
  }

  /** Clipped bands are non-negative, keep their lengths and keep an ordering they had. */
  lemma ClipBandsFacts(b: Bands, horizon: nat)
    ensures NonNegative(ClipBands(b))
    ensures HasLength(b, horizon) ==> HasLength(ClipBands(b), horizon)
    ensures Ordered(b) ==> Ordered(ClipBands(b))
  {
    if Ordered(b) {
      ClipMonotone(b.lower95, b.lower80);
      ClipMonotone(b.lower80, b.mean);
      ClipMonotone(b.mean, b.upper80);
      ClipMonotone(b.upper80, b.upper95);
    }
  }

  /** `df['date'].max()`. */
  function MaxDate(rows: seq<Row<real>>): (m: int)
    requires |rows| > 0
    ensures exists i :: 0 <= i < |rows| && rows[i].date == m
    ensures forall i :: 0 <= i < |rows| ==> rows[i].date <= m
  {
    if |rows| == 1 then rows[0].date
    else
      var m := MaxDate(rows[1..]);
      assert forall i :: 1 <= i < |rows| ==> rows[i] == rows[1..][i - 1];
      if rows[0].date > m then rows[0].date else m
  }

  /** `pd.date_range(latest + 1 day, periods=horizon, freq='D')`. */
  function ForecastDates(latest: int, horizon: nat): (ds: seq<int>)
    ensures |ds| == horizon
    ensures horizon > 0 ==> ds[0] == latest + 1
    ensures forall i :: 0 <= i < horizon - 1 ==> ds[i + 1] == ds[i] + 1
  {
    seq(horizon, i => latest + 1 + i)
  }

  /** The case column in date order, `df.sort_values('date')['cases']`. */
  function SortedCases(rows: seq<Row<real>>): (y: seq<real>)
    ensures |y| == |rows|
  {
    Values(SortByDate(rows))
  }

  /** `y[-1] if len(y) else 0.0`. */
  function LastValue(rows: seq<Row<real>>): (v: real)
    ensures rows == [] ==> v == 0.0
    ensures rows != [] ==> v == SortByDate(rows)[|rows| - 1].value
  {
    var y := SortedCases(rows);
    if |y| > 0 then y[|y| - 1] else 0.0
  }

  /** A row dated no earlier than every other row carries `MaxDate`. */
  lemma MaxDateAt(rows: seq<Row<real>>, i: int)
    requires 0 <= i < |rows|
    requires forall e :: e in rows ==> e.date <= rows[i].date
    ensures MaxDate(rows) == rows[i].date
  {
    var j :| 0 <= j < |rows| && rows[j].date == MaxDate(rows);
    assert rows[j] in rows;
  }

  /** The last value is the case count of a row dated on the latest date. */
  lemma LastValueIsLatest(rows: seq<Row<real>>)
    requires |rows| > 0
    ensures exists i :: 0 <= i < |rows| && rows[i].date == MaxDate(rows) && rows[i].value == LastValue(rows)
  {
    var sorted := SortByDate(rows);
    var e := sorted[|rows| - 1];
    SortedLast(sorted, rows);
    var i :| 0 <= i < |rows| && rows[i] == e;
    MaxDateAt(rows, i);
    assert rows[i].date == MaxDate(rows) && rows[i].value == LastValue(rows);
  }

  /** The model input before `log1p`: the sorted cases clipped at 0 (`_safe_boxcox`). */
  function ModelInput(rows: seq<Row<real>>): (y: seq<real>)
    ensures |y| == |rows|
    ensures forall i :: 0 <= i < |y| ==> y[i] >= 0.0
    ensures forall i :: 0 <= i < |y| ==>
      y[i] == if SortedCases(rows)[i] < 0.0 then 0.0 else SortedCases(rows)[i]
  {
    ClipNonNeg(SortedCases(rows))
  }

  /** The AIC of every order of the grid, missing where the fit failed. */
  function Aics(y: seq<real>, fit: (seq<real>, Order) -> Option<Fit>, grid: seq<Order>): (a: seq<Option<real>>)
    ensures |a| == |grid|
    ensures forall k :: 0 <= k < |grid| ==> (a[k].Some? <==> fit(y, grid[k]).Some?)
    ensures forall k :: 0 <= k < |grid| && a[k].Some? ==> a[k].value == fit(y, grid[k]).value.aic
  {
    seq(|grid|, k requires 0 <= k < |grid| => match fit(y, grid[k]) case None => None case Some(f) => Some(f.aic))
  }

  /**
   * `fit_forecast`. `fit(y, order)` stands for fitting SARIMAX of that order to `log1p(y)`
   * and mapping its forecast back; `None` is a fit that raised.
   */
  method FitForecast(rows: seq<Row<real>>, horizon: nat, fit: (seq<real>, Order) -> Option<Fit>)
    returns (r: Result<ForecastFrame, ForecastError>)
    requires forall y, o :: fit(y, o).Some? ==> HasLength(fit(y, o).value.forecast, horizon)
    ensures r.Err? <==> rows == []
    ensures r.Ok? ==> r.value.dates == ForecastDates(MaxDate(rows), horizon)
    ensures r.Ok? ==> HasLength(r.value.bands, horizon)
    ensures r.Ok? && (forall k :: 0 <= k < |Grid(DefaultRanges)| ==> fit(ModelInput(rows), Grid(DefaultRanges)[k]).None?) ==>
      r.value.bands == Fallback(LastValue(rows), horizon)
    ensures r.Ok? ==> forall k :: IsFirstMinimum(Aics(ModelInput(rows), fit, Grid(DefaultRanges)), k) ==>
      r.value.bands == ClipBands(fit(ModelInput(rows), Grid(DefaultRanges)[k]).value.forecast)
  {
    var y := ModelInput(rows);
    var grid := EnumerateGrid(DefaultRanges);
    var aics := Aics(y, fit, grid);
    var best := SelectBest(aics);
    if rows == [] {
      return Err(NoDates);
    }
    var dates := ForecastDates(MaxDate(rows), horizon);
    match best
    case None =>
      r := Ok(ForecastFrame(dates, Fallback(LastValue(rows), horizon)));
    case Some(k) =>
      var model := fit(y, grid[k]).value;
      ClipBandsFacts(model.forecast, horizon);
      r := Ok(ForecastFrame(dates, ClipBands(model.forecast)));
      forall k' | IsFirstMinimum(aics, k') ensures k' == k {
        FirstMinimumUnique(aics, k, k');
      }
  }
}
