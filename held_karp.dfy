/**
 * solveTSP of the route service: the Held-Karp bitmask dynamic programme
 * over a distance matrix, a table dp[mask][v] of the cheapest walk that
 * starts at station 0, visits exactly the stations of mask and ends at v,
 * and the walk back along the parent table.
 *
 * The table is specified by Cost / Relaxed, which replay the programme's
 * pull form: the entry for (m, v) is its initial value improved, in the
 * order u = 0, 1, .., n-1, by every strictly cheaper `dp[m - 2^v][u] + d[u][v]`.
 * Lemmas then show that Cost is the cheapest route through exactly the
 * stations of m (a lower bound over every route, and a route that attains it).
 */
module HeldKarp {
  import opened Bitmask

  /** Number.MAX_SAFE_INTEGER, the "unreached" entry of the table. */
  const MaxSafeInteger: real := 9007199254740991.0

  /** An n x n distance matrix. */
  predicate IsMatrix(d: seq<seq<real>>, n: nat)
  {
    |d| == n && forall i :: 0 <= i < n ==> |d[i]| == n
  }

  predicate NonNegative(d: seq<seq<real>>, n: nat)
    requires IsMatrix(d, n)
  {
    forall i, j :: 0 <= i < n && 0 <= j < n ==> d[i][j] >= 0.0
  }

  /** The table before any relaxation: 0 for the start state ({0}, 0), else INF. */
  function Init(m: nat, v: nat): real
  {
    if m == 1 && v == 0 then 0.0 else MaxSafeInteger
  }

  /** The final entry dp[m][v]. */
  ghost function Cost(d: seq<seq<real>>, n: nat, m: nat, v: nat): real
    requires IsMatrix(d, n) && v < n
    decreases m, 0, 0
  {
    if Has(m, v) && m >= Pow2(v) then Relaxed(d, n, m - Pow2(v), v, n) else Init(m, v)
  }

  /**
   * dp[q + 2^v][v] after the predecessors u < k of mask q have been tried,
   * with the programme's strict `cost < dp[newMask][v]`.
   */
  ghost function Relaxed(d: seq<seq<real>>, n: nat, q: nat, v: nat, k: nat): real
    requires IsMatrix(d, n) && v < n && k <= n
    decreases q, 1, k
  {
    if k == 0 then Init(q + Pow2(v), v)
    else
      var prev := Relaxed(d, n, q, v, k - 1);
      var u := k - 1;
      if Has(q, u) && Cost(d, n, q, u) + d[u][v] < prev then Cost(d, n, q, u) + d[u][v] else prev
  }

  /** (m, w) is an entry that processing mask q writes to. */
  predicate Target(q: nat, m: nat, w: nat)
  {
    Has(m, w) && m >= Pow2(w) && m - Pow2(w) == q
  }

  /** The table once every mask below `mask` has been processed. */
  ghost function Stage(d: seq<seq<real>>, n: nat, mask: nat, m: nat, w: nat): real
    requires IsMatrix(d, n) && w < n
  {
    if Has(m, w) && m >= Pow2(w) && m - Pow2(w) < mask then Cost(d, n, m, w) else Init(m, w)
  }

  /**
   * What the parent table records about an entry: -1 exactly while the
   * entry holds its initial value, otherwise the predecessor whose
   * relaxation wrote the value.
   */
  ghost predicate ParentOk(d: seq<seq<real>>, n: nat, m: nat, w: nat, value: real, p: int)
    requires IsMatrix(d, n) && w < n
  {
    value <= Init(m, w)
    && (p == -1 <==> value == Init(m, w))
    && (p != -1 ==>
          0 <= p < n && Has(m, w) && m >= Pow2(w) && Has(m - Pow2(w), p)
          && value == Cost(d, n, m - Pow2(w), p) + d[p][w])
  }

  lemma {:induction false} RelaxedAtMostInit(d: seq<seq<real>>, n: nat, q: nat, v: nat, k: nat)
    requires IsMatrix(d, n) && v < n && k <= n
    ensures Relaxed(d, n, q, v, k) <= Init(q + Pow2(v), v)
    decreases k
  {
    if k > 0 {
      RelaxedAtMostInit(d, n, q, v, k - 1);
    }
  }

  /** Before mask 1 is processed every entry holds its initial value. */
  lemma StageOneIsInit(d: seq<seq<real>>, n: nat, m: nat, w: nat)
    requires IsMatrix(d, n) && w < n
    ensures Stage(d, n, 1, m, w) == Init(m, w)
  {
    if Has(m, w) && m >= Pow2(w) && m - Pow2(w) < 1 {
      ZeroMaskRelaxed(d, n, w, n);
    }
  }

  lemma {:induction false} ZeroMaskRelaxed(d: seq<seq<real>>, n: nat, w: nat, k: nat)
    requires IsMatrix(d, n) && w < n && k <= n
    ensures Relaxed(d, n, 0, w, k) == Init(Pow2(w), w)
    decreases k
  {
    if k > 0 {
      NoBitsInZero(k - 1);
      ZeroMaskRelaxed(d, n, w, k - 1);
    }
  }

  /**
   * The three nested loops of solveTSP: afterwards dp[m][v] is Cost(m, v)
   * for every entry, and parent[m][v] names the predecessor that produced it
   * (or -1 where the entry was never improved).
   */
  method FillTable(d: seq<seq<real>>, n: nat) returns (dp: array2<real>, parent: array2<int>)
    requires n >= 1 && IsMatrix(d, n)
    ensures dp.Length0 == Pow2(n) && dp.Length1 == n
    ensures parent.Length0 == Pow2(n) && parent.Length1 == n
    ensures forall m, w :: 0 <= m < Pow2(n) && 0 <= w < n ==> dp[m, w] == Cost(d, n, m, w)
    ensures forall m, w :: 0 <= m < Pow2(n) && 0 <= w < n ==> ParentOk(d, n, m, w, dp[m, w], parent[m, w])
  {
    var size := Pow2(n);
    dp := new real[size, n]((m, w) => MaxSafeInteger);
    parent := new int[size, n]((m, w) => -1);
    dp[1, 0] := 0.0;
    forall m, w | 0 <= m < size && 0 <= w < n
      ensures dp[m, w] == Stage(d, n, 1, m, w)
    {
      StageOneIsInit(d, n, m, w);
    }
    var mask := 1;
    while mask < size
      invariant 1 <= mask <= size
      invariant forall m, w :: 0 <= m < size && 0 <= w < n ==> dp[m, w] == Stage(d, n, mask, m, w)
      invariant forall m, w :: 0 <= m < size && 0 <= w < n ==> ParentOk(d, n, m, w, dp[m, w], parent[m, w])
    {
      ProcessMask(d, n, mask, dp, parent);
      mask := mask + 1;
    }
  }

  /** One round of the outer loop: every predecessor u of mask, every v outside it. */
  method ProcessMask(d: seq<seq<real>>, n: nat, mask: nat, dp: array2<real>, parent: array2<int>)
    requires n >= 1 && IsMatrix(d, n) && 1 <= mask < Pow2(n)
    requires dp.Length0 == Pow2(n) && dp.Length1 == n
    requires parent.Length0 == Pow2(n) && parent.Length1 == n
    requires forall m, w :: 0 <= m < Pow2(n) && 0 <= w < n ==> dp[m, w] == Stage(d, n, mask, m, w)
    requires forall m, w :: 0 <= m < Pow2(n) && 0 <= w < n ==> ParentOk(d, n, m, w, dp[m, w], parent[m, w])
    modifies dp, parent
    ensures forall m, w :: 0 <= m < Pow2(n) && 0 <= w < n ==> dp[m, w] == Stage(d, n, mask + 1, m, w)
    ensures forall m, w :: 0 <= m < Pow2(n) && 0 <= w < n ==> ParentOk(d, n, m, w, dp[m, w], parent[m, w])
  {
    var u := 0;
    while u < n
      invariant 0 <= u <= n
      invariant forall m, w :: 0 <= m < Pow2(n) && 0 <= w < n ==>
                  dp[m, w] == (if Target(mask, m, w) then Relaxed(d, n, mask, w, u) else Stage(d, n, mask, m, w))
      invariant forall m, w :: 0 <= m < Pow2(n) && 0 <= w < n ==> ParentOk(d, n, m, w, dp[m, w], parent[m, w])
    {
      if Has(mask, u) {
        RelaxFrom(d, n, mask, u, dp, parent);
      }
      u := u + 1;
    }
  }

  /** The table while u's row is being relaxed: targets below v already see u. */
  ghost function During(d: seq<seq<real>>, n: nat, mask: nat, u: nat, v: nat, m: nat, w: nat): real
    requires IsMatrix(d, n) && w < n && u < n
  {
    if Target(mask, m, w) then Relaxed(d, n, mask, w, if w < v then u + 1 else u)
    else Stage(d, n, mask, m, w)
  }

  /** The innermost loop: relax every v outside mask through u. */
  method RelaxFrom(d: seq<seq<real>>, n: nat, mask: nat, u: nat, dp: array2<real>, parent: array2<int>)
    requires n >= 1 && IsMatrix(d, n) && 1 <= mask < Pow2(n) && u < n && Has(mask, u)
    requires dp.Length0 == Pow2(n) && dp.Length1 == n
    requires parent.Length0 == Pow2(n) && parent.Length1 == n
    requires forall m, w :: 0 <= m < Pow2(n) && 0 <= w < n ==>
               dp[m, w] == (if Target(mask, m, w) then Relaxed(d, n, mask, w, u) else Stage(d, n, mask, m, w))
    requires forall m, w :: 0 <= m < Pow2(n) && 0 <= w < n ==> ParentOk(d, n, m, w, dp[m, w], parent[m, w])
    modifies dp, parent
    ensures forall m, w :: 0 <= m < Pow2(n) && 0 <= w < n ==>
              dp[m, w] == (if Target(mask, m, w) then Relaxed(d, n, mask, w, u + 1) else Stage(d, n, mask, m, w))
    ensures forall m, w :: 0 <= m < Pow2(n) && 0 <= w < n ==> ParentOk(d, n, m, w, dp[m, w], parent[m, w])
  {
    HasAtLeast(mask, u);
    var own := dp[mask, u];
    assert own == Cost(d, n, mask, u);
    var v := 0;
    while v < n
      invariant 0 <= v <= n
      invariant forall m, w :: 0 <= m < Pow2(n) && 0 <= w < n ==> dp[m, w] == During(d, n, mask, u, v, m, w)
      invariant forall m, w :: 0 <= m < Pow2(n) && 0 <= w < n ==> ParentOk(d, n, m, w, dp[m, w], parent[m, w])
    {
      RelaxEdge(d, n, mask, u, v, own, dp, parent);
      v := v + 1;
    }
  }

  /** One step of the innermost loop: the edge u -> v out of mask. */
  method RelaxEdge(d: seq<seq<real>>, n: nat, mask: nat, u: nat, v: nat, own: real,
                   dp: array2<real>, parent: array2<int>)
    requires n >= 1 && IsMatrix(d, n) && 1 <= mask < Pow2(n) && u < n && v < n && Has(mask, u)
    requires own == Cost(d, n, mask, u)
    requires dp.Length0 == Pow2(n) && dp.Length1 == n
    requires parent.Length0 == Pow2(n) && parent.Length1 == n
    requires forall m, w :: 0 <= m < Pow2(n) && 0 <= w < n ==> dp[m, w] == During(d, n, mask, u, v, m, w)
    requires forall m, w :: 0 <= m < Pow2(n) && 0 <= w < n ==> ParentOk(d, n, m, w, dp[m, w], parent[m, w])
    modifies dp, parent
    ensures forall m, w :: 0 <= m < Pow2(n) && 0 <= w < n ==> dp[m, w] == During(d, n, mask, u, v + 1, m, w)
    ensures forall m, w :: 0 <= m < Pow2(n) && 0 <= w < n ==> ParentOk(d, n, m, w, dp[m, w], parent[m, w])
  {
    if !Has(mask, v) {
      var newMask := mask + Pow2(v);
      AddBitBound(mask, v, n);
      AddBit(mask, v, v);
      assert Target(mask, newMask, v);
      var cost := own + d[u][v];
      if cost < dp[newMask, v] {
        dp[newMask, v] := cost;
        parent[newMask, v] := u;
      }
    } else {
      forall m | Target(mask, m, v) ensures false {
        RemoveBit(m, v);
      }
    }
  }

  // ---------------------------------------------------------------------------
  // Routes and what the table means
  // ---------------------------------------------------------------------------

  predicate InRange(p: seq<nat>, n: nat)
  {
    forall i :: 0 <= i < |p| ==> p[i] < n
  }

  /** The length of a walk along the matrix. */
  function PathCost(d: seq<seq<real>>, n: nat, p: seq<nat>): real
    requires IsMatrix(d, n) && InRange(p, n)
  {
    if |p| <= 1 then 0.0 else d[p[0]][p[1]] + PathCost(d, n, p[1..])
  }

  /** A route from station 0 to v through exactly the stations of m, each once. */
  ghost predicate IsRoute(n: nat, p: seq<nat>, m: nat, v: nat)
  {
    |p| >= 1 && p[0] == 0 && p[|p| - 1] == v && m < Pow2(n) && InRange(p, n)
    && (forall i, j :: 0 <= i < j < |p| ==> p[i] != p[j])
    && (forall w :: 0 <= w < n ==> (Has(m, w) <==> w in p))
  }

  /** A route from station 0 through every one of the n stations. */
  ghost predicate VisitsAll(n: nat, p: seq<nat>)
  {
    |p| >= 1 && IsRoute(n, p, FullMask(n), p[|p| - 1])
  }

  /** Array.prototype.reverse, on a value. */
  function Reverse(s: seq<nat>): (r: seq<nat>)
    ensures |r| == |s| && forall i :: 0 <= i < |s| ==> r[i] == s[|s| - 1 - i]
  {
    if s == [] then [] else [s[|s| - 1]] + Reverse(s[..|s| - 1])
  }

  lemma {:induction false} PathCostNonNegative(d: seq<seq<real>>, n: nat, p: seq<nat>)
    requires IsMatrix(d, n) && NonNegative(d, n) && InRange(p, n)
    ensures PathCost(d, n, p) >= 0.0
    decreases |p|
  {
    if |p| > 1 {
      PathCostNonNegative(d, n, p[1..]);
    }
  }

  /** Extending a route by one leg adds that leg's length. */
  lemma {:induction false} PathCostSnoc(d: seq<seq<real>>, n: nat, p: seq<nat>, v: nat)
    requires IsMatrix(d, n) && InRange(p, n) && |p| >= 1 && v < n
    ensures PathCost(d, n, p + [v]) == PathCost(d, n, p) + d[p[|p| - 1]][v]
    decreases |p|
  {
    if |p| > 1 {
      assert (p + [v])[1..] == p[1..] + [v];
      PathCostSnoc(d, n, p[1..], v);
    }
  }

  lemma OneHasOnlyZero(w: nat)
    ensures Has(1, w) <==> w == 0
  {
    if w > 0 {
      NoBitsInZero(w - 1);
    }
  }

  /** A relaxed entry is at most each candidate it has tried. */
  lemma {:induction false} RelaxedAtMostCandidate(d: seq<seq<real>>, n: nat, q: nat, v: nat, k: nat, u: nat)
    requires IsMatrix(d, n) && v < n && k <= n && u < k && Has(q, u)
    ensures Relaxed(d, n, q, v, k) <= Cost(d, n, q, u) + d[u][v]
    decreases k
  {
    if u < k - 1 {
      RelaxedAtMostCandidate(d, n, q, v, k - 1, u);
    }
  }

  /** Lower bound: no route through exactly the stations of m is shorter than Cost(m, v). */
  lemma {:induction false} CostLowerBound(d: seq<seq<real>>, n: nat, m: nat, v: nat, p: seq<nat>)
    requires IsMatrix(d, n) && v < n && IsRoute(n, p, m, v)
    ensures Cost(d, n, m, v) <= PathCost(d, n, p)
    decreases |p|
  {
    if |p| == 1 {
      forall w | 0 <= w < n ensures Has(m, w) <==> Has(1, w) {
        OneHasOnlyZero(w);
      }
      assert Pow2(n) >= 2 by { assert n >= 1; }
      SameBits(m, 1, n);
      ZeroMaskRelaxed(d, n, 0, n);
    } else {
      var p' := p[..|p| - 1];
      var u := p'[|p'| - 1];
      assert p == p' + [v];
      assert v in p;
      RemoveBit(m, v);
      var m' := m - Pow2(v);
      forall w | 0 <= w < n ensures Has(m', w) <==> w in p' {
        RemoveBitMembers(m, v, w);
        if w in p && w != v {
          var i :| 0 <= i < |p| && p[i] == w;
          assert p'[i] == w;
        }
      }
      assert IsRoute(n, p', m', u);
      CostLowerBound(d, n, m', u, p');
      assert Has(m', u);
      RelaxedAtMostCandidate(d, n, m', v, n, u);
      PathCostSnoc(d, n, p', v);
    }
  }

  /** The predecessor a relaxed entry took its value from, or -1 for its initial value. */
  lemma {:induction false} RelaxedWitness(d: seq<seq<real>>, n: nat, q: nat, v: nat, k: nat) returns (u: int)
    requires IsMatrix(d, n) && v < n && k <= n
    ensures u == -1 ==> Relaxed(d, n, q, v, k) == Init(q + Pow2(v), v)
    ensures u != -1 ==> 0 <= u < k && Has(q, u) && Relaxed(d, n, q, v, k) == Cost(d, n, q, u) + d[u][v]
    decreases k
  {
    if k == 0 {
      u := -1;
    } else {
      var prev := Relaxed(d, n, q, v, k - 1);
      if Has(q, k - 1) && Cost(d, n, q, k - 1) + d[k - 1][v] < prev {
        u := k - 1;
      } else {
        u := RelaxedWitness(d, n, q, v, k - 1);
      }
    }
  }

  /**
   * The bound is attained: with non-negative distances, every finite
   * entry is the length of some route through exactly the stations of m.
   */
  lemma {:induction false} CostAttained(d: seq<seq<real>>, n: nat, m: nat, v: nat) returns (p: seq<nat>)
    requires IsMatrix(d, n) && NonNegative(d, n) && v < n && m < Pow2(n)
    requires Cost(d, n, m, v) < MaxSafeInteger
    ensures IsRoute(n, p, m, v) && PathCost(d, n, p) == Cost(d, n, m, v)
    decreases m
  {
    RemoveBit(m, v);
    var q := m - Pow2(v);
    var u := RelaxedWitness(d, n, q, v, n);
    if u == -1 {
      assert q == 0 && v == 0;
      p := [0];
      forall w | 0 <= w < n ensures Has(m, w) <==> w in p {
        OneHasOnlyZero(w);
      }
    } else {
      var p' := CostAttained(d, n, q, u);
      p := p' + [v];
      forall w | 0 <= w < n ensures Has(m, w) <==> w in p {
        RemoveBitMembers(m, v, w);
        assert w in p <==> w in p' || w == v;
      }
      forall i, j | 0 <= i < j < |p| ensures p[i] != p[j] {
        if j == |p| - 1 {
          assert p[i] == p'[i] && p[i] in p';
          RemoveBitMembers(m, v, v);
        }
      }
      PathCostSnoc(d, n, p', v);
    }
  }

  /** Without station 0 no entry is ever reached (non-negative distances). */
  lemma {:induction false} NoStartUnreached(d: seq<seq<real>>, n: nat, m: nat, v: nat)
    requires IsMatrix(d, n) && NonNegative(d, n) && v < n && !Has(m, 0)
    ensures Cost(d, n, m, v) >= MaxSafeInteger
    decreases m, 0, 0
  {
    if Has(m, v) && m >= Pow2(v) {
      RemoveBitMembers(m, v, 0);
      NoStartRelaxed(d, n, m - Pow2(v), v, n);
    }
  }

  lemma {:induction false} NoStartRelaxed(d: seq<seq<real>>, n: nat, q: nat, v: nat, k: nat)
    requires IsMatrix(d, n) && NonNegative(d, n) && v < n && k <= n
    requires !Has(q, 0) && !Has(q + Pow2(v), 0)
    ensures Relaxed(d, n, q, v, k) >= MaxSafeInteger
    decreases q, 1, k
  {
    if k > 0 {
      NoStartRelaxed(d, n, q, v, k - 1);
      if Has(q, k - 1) {
        NoStartUnreached(d, n, q, k - 1);
      }
    }
  }

  /**
   * Entries that end back at station 0 are never improved: the only way in
   * is from a mask without station 0, and those are all unreached.
   */
  lemma {:induction false} ReturnToStartKeepsInit(d: seq<seq<real>>, n: nat, q: nat, k: nat)
    requires IsMatrix(d, n) && NonNegative(d, n) && n >= 1 && k <= n && !Has(q, 0)
    ensures Relaxed(d, n, q, 0, k) == Init(q + 1, 0)
    decreases k
  {
    if k > 0 {
      ReturnToStartKeepsInit(d, n, q, k - 1);
      if Has(q, k - 1) {
        NoStartUnreached(d, n, q, k - 1);
      }
    }
  }

  /** The full-mask entry ending at station 0 is 0 for one station and INF otherwise. */
  lemma ClosedAtStartUnreached(d: seq<seq<real>>, n: nat)
    requires IsMatrix(d, n) && NonNegative(d, n) && n >= 1
    ensures Cost(d, n, FullMask(n), 0) == (if n == 1 then 0.0 else MaxSafeInteger)
  {
    var full := FullMask(n);
    FullHasAll(n, 0);
    RemoveBit(full, 0);
    ReturnToStartKeepsInit(d, n, full - 1, n);
  }

  // ---------------------------------------------------------------------------
  // Walking back along the parent table
  // ---------------------------------------------------------------------------

  /**
   * The reconstruction loop of solveTSP from (full, last): push the current
   * station, stop at a -1 parent, else drop the station from the mask and
   * move to its parent. The `mask !== 0` guard never stops the walk (the
   * current station is always in the mask), so the loop below tests only
   * the parent. The stations come out last first; when the entry is finite
   * and distances are non-negative, their reverse is a route of exactly
   * that length.
   */
  method WalkBack(d: seq<seq<real>>, n: nat, dp: array2<real>, parent: array2<int>, full: nat, last: nat)
    returns (walk: seq<nat>)
    requires n >= 1 && IsMatrix(d, n)
    requires dp.Length0 == Pow2(n) && dp.Length1 == n
    requires parent.Length0 == Pow2(n) && parent.Length1 == n
    requires forall m, w :: 0 <= m < Pow2(n) && 0 <= w < n ==> dp[m, w] == Cost(d, n, m, w)
    requires forall m, w :: 0 <= m < Pow2(n) && 0 <= w < n ==> ParentOk(d, n, m, w, dp[m, w], parent[m, w])
    requires full < Pow2(n) && last < n && Has(full, last)
    ensures |walk| >= 1 && walk[0] == last && InRange(walk, n)
    ensures parent[full, last] == -1 ==> walk == [last]
    ensures NonNegative(d, n) && Cost(d, n, full, last) < MaxSafeInteger ==>
              IsRoute(n, Reverse(walk), full, last)
              && PathCost(d, n, Reverse(walk)) == Cost(d, n, full, last)
  {
    walk := [last];
    var mask: nat, pos: nat := full, last;
    var p := parent[full, last];
    while p != -1
      invariant mask < Pow2(n) && pos < n
      invariant p == parent[mask, pos]
      invariant WalkOk(d, n, full, last, walk, mask, pos)
      invariant walk == [last] <==> mask == full
      invariant |walk| > 1 ==> parent[full, last] != -1
      decreases mask
    {
      assert ParentOk(d, n, mask, pos, dp[mask, pos], p);
      var next := p as nat;
      WalkStep(d, n, full, last, walk, mask, pos, next);
      walk, mask, pos := walk + [next], mask - Pow2(pos), next;
      p := parent[mask, pos];
    }
    if NonNegative(d, n) && Cost(d, n, full, last) < MaxSafeInteger {
      assert ParentOk(d, n, mask, pos, dp[mask, pos], p);
      WalkEnd(d, n, full, last, walk, mask, pos);
    }
  }

  /**
   * The walk so far (last station first, the current station `pos` last):
   * distinct stations that, with the mask still to go, make up `full`, and
   * whose length plus the table entry of (mask, pos) is the entry walked from.
   */
  ghost predicate WalkOk(d: seq<seq<real>>, n: nat, full: nat, last: nat, walk: seq<nat>, mask: nat, pos: nat)
    requires IsMatrix(d, n) && last < n && pos < n
  {
    |walk| >= 1 && walk[0] == last && walk[|walk| - 1] == pos && InRange(walk, n)
    && Has(mask, pos)
    && (forall i, j :: 0 <= i < j < |walk| ==> walk[i] != walk[j])
    && (forall i :: 0 <= i < |walk| - 1 ==> !Has(mask, walk[i]))
    && (forall w :: 0 <= w < n ==> (Has(full, w) <==> Has(mask, w) || w in walk))
    && PathCost(d, n, Reverse(walk)) + Cost(d, n, mask, pos) == Cost(d, n, full, last)
  }

  /** Following a parent link keeps the walk consistent. */
  lemma WalkStep(d: seq<seq<real>>, n: nat, full: nat, last: nat, walk: seq<nat>, mask: nat, pos: nat, next: nat)
    requires IsMatrix(d, n) && last < n && pos < n && next < n
    requires WalkOk(d, n, full, last, walk, mask, pos)
    requires mask >= Pow2(pos) && Has(mask - Pow2(pos), next)
    requires Cost(d, n, mask, pos) == Cost(d, n, mask - Pow2(pos), next) + d[next][pos]
    ensures WalkOk(d, n, full, last, walk + [next], mask - Pow2(pos), next)
  {
    var mask' := mask - Pow2(pos);
    forall w | 0 <= w < n ensures Has(mask', w) <==> Has(mask, w) && w != pos {
      RemoveBitMembers(mask, pos, w);
    }
    var walk' := walk + [next];
    assert Reverse(walk') == [next] + Reverse(walk) by {
      assert walk'[..|walk'| - 1] == walk;
    }
    assert ([next] + Reverse(walk))[1..] == Reverse(walk);
    forall w | 0 <= w < n ensures Has(full, w) <==> Has(mask', w) || w in walk' {
      assert w in walk' <==> w in walk || w == next;
    }
    forall i | 0 <= i < |walk'| - 1 ensures !Has(mask', walk'[i]) {
      assert walk'[i] == walk[i];
    }
  }

  /** A walk that stops at a finite initial entry has reached ({0}, 0) and is a route. */
  lemma WalkEnd(d: seq<seq<real>>, n: nat, full: nat, last: nat, walk: seq<nat>, mask: nat, pos: nat)
    requires IsMatrix(d, n) && NonNegative(d, n) && last < n && pos < n && full < Pow2(n)
    requires WalkOk(d, n, full, last, walk, mask, pos)
    requires Cost(d, n, mask, pos) == Init(mask, pos)
    requires Cost(d, n, full, last) < MaxSafeInteger
    ensures IsRoute(n, Reverse(walk), full, last)
    ensures PathCost(d, n, Reverse(walk)) == Cost(d, n, full, last)
  {
    PathCostNonNegative(d, n, Reverse(walk));
    assert mask == 1 && pos == 0;
    forall w | 0 <= w < n ensures Has(full, w) <==> w in Reverse(walk) {
      OneHasOnlyZero(w);
      if w in walk {
        var i :| 0 <= i < |walk| && walk[i] == w;
        assert Reverse(walk)[|walk| - 1 - i] == w;
      }
    }
  }

  // ---------------------------------------------------------------------------
  // solveTSP as written, and with the closing station chosen
  // ---------------------------------------------------------------------------

  /**
   * solveTSP as written: it reports dp[full][0] and walks back from station
   * 0. With non-negative distances that entry is never improved, so for two
   * or more stations the answer is path [0] at distance INF.
   */
  method SolveTsp(d: seq<seq<real>>, n: nat) returns (path: seq<nat>, distance: real)
    requires n >= 1 && IsMatrix(d, n)
    ensures distance == Cost(d, n, FullMask(n), 0)
    ensures |path| >= 1 && path[|path| - 1] == 0 && InRange(path, n)
    ensures NonNegative(d, n) ==> path == [0] && distance == (if n == 1 then 0.0 else MaxSafeInteger)
  {
    var dp, parent := FillTable(d, n);
    var full := FullMask(n);
    FullHasAll(n, 0);
    var walk := WalkBack(d, n, dp, parent, full, 0);
    path := Reverse(walk);
    distance := dp[full, 0];
    if NonNegative(d, n) {
      ClosedAtStartUnreached(d, n);
      assert ParentOk(d, n, full, 0, dp[full, 0], parent[full, 0]);
    }
  }

  /** Two stations one unit apart: the route [0, 1] exists, solveTSP reports INF. */
  lemma SolveTspMissesRoute()
    ensures var d := [[0.0, 1.0], [1.0, 0.0]];
            IsRoute(2, [0, 1], 3, 1) && PathCost(d, 2, [0, 1]) == 1.0
            && Cost(d, 2, FullMask(2), 0) == MaxSafeInteger
  {
    var d := [[0.0, 1.0], [1.0, 0.0]];
    ClosedAtStartUnreached(d, 2);
    forall w | 0 <= w < 2 ensures Has(3, w) <==> w in [0, 1] {
      if w == 1 {
        assert Has(3, 1) == Has(1, 0);
      }
    }
  }

  /**
   * The evident intent: the shortest route from station 0 through every
   * station, closing at whichever station makes it shortest (the first
   * such station on a tie).
   */
  method SolveTspCorrected(d: seq<seq<real>>, n: nat) returns (path: seq<nat>, distance: real)
    requires n >= 1 && IsMatrix(d, n)
    ensures forall v :: 0 <= v < n ==> distance <= Cost(d, n, FullMask(n), v)
    ensures |path| >= 1 && InRange(path, n) && distance == Cost(d, n, FullMask(n), path[|path| - 1])
    ensures forall p: seq<nat> :: VisitsAll(n, p) ==> distance <= PathCost(d, n, p)
    ensures NonNegative(d, n) && distance < MaxSafeInteger ==> VisitsAll(n, path) && PathCost(d, n, path) == distance
  {
    var dp, parent := FillTable(d, n);
    var full := FullMask(n);
    var best := 0;
    var v := 1;
    while v < n
      invariant 1 <= v <= n && best < v
      invariant forall w :: 0 <= w < v ==> dp[full, best] <= dp[full, w]
    {
      if dp[full, v] < dp[full, best] {
        best := v;
      }
      v := v + 1;
    }
    FullHasAll(n, best);
    var walk := WalkBack(d, n, dp, parent, full, best);
    path := Reverse(walk);
    distance := dp[full, best];
    forall p: seq<nat> | VisitsAll(n, p) ensures distance <= PathCost(d, n, p) {
      CostLowerBound(d, n, full, p[|p| - 1], p);
    }
  }
}
