/** The 16-state Viterbi search of the V.34 receiver (nf_v34.c: v34_topk_insert,
    nf_v34_trellis_step, nf_v34_viterbi_decode) over real distances: candidate lists pruned to
    the nearest points, path metrics renormalised at every step, survivors traced back. */
module V34Viterbi {

  const STATES: nat := 16
  const MAX_KEEP: nat := 8
  const INF: real := 1000000000000000000.0

  // ---------------------------------------------------------------- the nearest few

  datatype Entry = Entry(idx: nat, d: real)

  /** Where `e` goes: behind the last entry as near. */
  function Slot(l: seq<Entry>, e: Entry): (j: nat)
    ensures j <= |l| && (j > 0 ==> l[j - 1].d <= e.d) && forall i :: j <= i < |l| ==> l[i].d > e.d
  {
    var n := |l|;
    if n == 0 || l[n - 1].d <= e.d then n else Slot(l[..n - 1], e)
  }

  function Place(l: seq<Entry>, e: Entry): (r: seq<Entry>)
    ensures |r| == |l| + 1
  {
    l[..Slot(l, e)] + [e] + l[Slot(l, e)..]
  }

  function Insert(l: seq<Entry>, e: Entry, k: nat): (r: seq<Entry>)
    requires 1 <= k && |l| <= k
    ensures |r| <= k
  {
    if |l| < k then Place(l, e)
    else if e.d < l[k - 1].d then Place(l[..k - 1], e)
    else l
  }

  /** The list after all candidates. */
  function Nearest(c: seq<Entry>, k: nat): (r: seq<Entry>)
    requires 1 <= k
    ensures |r| <= k
  {
    if c == [] then [] else Insert(Nearest(c[..|c| - 1], k), c[|c| - 1], k)
  }

  ghost predicate Sorted(l: seq<Entry>) {
    forall i, j :: 0 <= i < j < |l| ==> l[i].d <= l[j].d
  }

  ghost predicate Distinct(l: seq<Entry>) {
    forall i, j :: 0 <= i < j < |l| ==> l[i].idx != l[j].idx
  }

  /** `l` holds the k nearest of `c`, nearest first and each once: whatever of `c` is missing
      is no nearer than any of them. */
  ghost predicate IsNearest(l: seq<Entry>, c: seq<Entry>, k: nat) {
    && Sorted(l) && Distinct(l) && |l| == (if |c| < k then |c| else k)
    && (forall i :: 0 <= i < |l| ==> l[i] in c)
    && (forall i :: 0 <= i < |c| ==> c[i] in l || (|l| == k > 0 && l[k - 1].d <= c[i].d))
  }

  lemma PlaceSorts(l: seq<Entry>, e: Entry)
    requires Sorted(l) && Distinct(l) && forall i :: 0 <= i < |l| ==> l[i].idx != e.idx
    ensures var p := Place(l, e);
            && Sorted(p) && Distinct(p) && e in p
            && (forall x :: x in p <==> x == e || x in l)
            && (forall i :: 0 <= i < |p| ==> p[i] == e || p[i] in l)
  {
    hide Place, Sorted, Distinct;
    var j, p := Slot(l, e), Place(l, e);
    PlacedAt(l, e);
    PlacedSorted(l, e, j, p);
    PlacedDistinct(l, e, j, p);
    assert p[j] == e;
    forall x | x in l ensures x in p {
      var i :| 0 <= i < |l| && l[i] == x;
      if i >= j { assert p[i + 1] == l[(i + 1) - 1]; }
    }
    forall i | 0 <= i < |p| ensures p[i] == e || p[i] in l {
      if i > j { assert p[i] == l[i - 1]; }
    }
  }

  /** `p` is `l` with `e` at `j`. */
  ghost predicate Placed(l: seq<Entry>, e: Entry, j: nat, p: seq<Entry>) {
    && j <= |l| && |p| == |l| + 1 && p[j] == e
    && (forall i :: 0 <= i < j ==> p[i] == l[i])
    && (forall i :: j < i < |p| ==> p[i] == l[i - 1])
  }

  lemma PlacedAt(l: seq<Entry>, e: Entry)
    ensures var j := Slot(l, e); var p := Place(l, e);
            j <= |l| && Placed(l, e, j, p)
  {
    hide Slot;
  }

  lemma PlacedSorted(l: seq<Entry>, e: Entry, j: nat, p: seq<Entry>)
    requires Sorted(l) && Placed(l, e, j, p) && (j > 0 ==> l[j - 1].d <= e.d) && (forall i :: j <= i < |l| ==> l[i].d > e.d)
    ensures Sorted(p)
  {
    forall a, b | 0 <= a < b < |p| ensures p[a].d <= p[b].d {
      if b < j { assert l[a].d <= l[b].d; }
      if a < j == b && a < j - 1 { assert l[a].d <= l[j - 1].d; }
      if a < j < b { assert p[b] == l[b - 1] && l[a].d <= l[b - 1].d; }
      if j == a { assert p[b] == l[b - 1]; }
      if j < a { assert p[a] == l[a - 1] && p[b] == l[b - 1] && l[a - 1].d <= l[b - 1].d; }
    }
  }

  lemma PlacedDistinct(l: seq<Entry>, e: Entry, j: nat, p: seq<Entry>)
    requires Distinct(l) && Placed(l, e, j, p) && (forall i :: 0 <= i < |l| ==> l[i].idx != e.idx)
    ensures Distinct(p)
  {
    forall a, b | 0 <= a < b < |p| ensures p[a].idx != p[b].idx {
      if b > j { assert p[b] == l[b - 1]; }
      if a > j { assert p[a] == l[a - 1] && l[a - 1].idx != l[b - 1].idx; }
    }
  }

  /** Insertion keeps the k smallest distances, sorted. */
  lemma {:induction false} NearestAreNearest(c: seq<Entry>, k: nat)
    requires 1 <= k && Distinct(c)
    ensures IsNearest(Nearest(c, k), c, k)
  {
    if c != [] {
      var n := |c| - 1;
      NearestAreNearest(c[..n], k);
      InsertKeeps(Nearest(c[..n], k), c[..n], k, c[n]);
      assert c[..n] + [c[n]] == c;
    }
  }

  lemma InsertKeeps(l: seq<Entry>, c: seq<Entry>, k: nat, e: Entry)
    requires 1 <= k && IsNearest(l, c, k) && forall i :: 0 <= i < |c| ==> c[i].idx != e.idx
    ensures |l| <= k && IsNearest(Insert(l, e, k), c + [e], k)
  {
    hide Place;
    forall i | 0 <= i < |l| ensures l[i].idx != e.idx { assert l[i] in c; }
    if |l| < k {
      PlaceSorts(l, e);
      Grown(l, c, k, e, Place(l, e));
    } else if e.d < l[k - 1].d {
      PlaceSorts(l[..k - 1], e);
      Replaced(l, c, k, e, Place(l[..k - 1], e));
    } else {
      Unchanged(l, c, k, e);
    }
  }

  lemma Grown(l: seq<Entry>, c: seq<Entry>, k: nat, e: Entry, q: seq<Entry>)
    requires IsNearest(l, c, k) && |l| < k && |q| == |l| + 1 && Sorted(q) && Distinct(q)
    requires (forall x :: x in q <==> x == e || x in l) && forall i :: 0 <= i < |q| ==> q[i] == e || q[i] in l
    ensures IsNearest(q, c + [e], k)
  {
    var d := c + [e];
    forall i | 0 <= i < |q| ensures q[i] in d { if q[i] != e { assert q[i] in c; } else { assert d[|c|] == e; } }
    forall i | 0 <= i < |d| ensures d[i] in q { if i < |c| { assert c[i] in l; } }
  }

  lemma Replaced(l: seq<Entry>, c: seq<Entry>, k: nat, e: Entry, q: seq<Entry>)
    requires 1 <= k && IsNearest(l, c, k) && |l| == k && e.d < l[k - 1].d && |q| == k && Sorted(q) && Distinct(q)
    requires var m := l[..k - 1]; (forall x :: x in q <==> x == e || x in m) && forall i :: 0 <= i < |q| ==> q[i] == e || q[i] in m
    ensures IsNearest(q, c + [e], k)
  {
    var d, m := c + [e], l[..k - 1];
    forall i | 0 <= i < k ensures q[i] in d {
      if q[i] != e { assert q[i] in l && q[i] in c; } else { assert d[|c|] == e; }
    }
    assert q[k - 1].d <= l[k - 1].d by {
      if q[k - 1] != e { assert q[k - 1] in m; var i :| 0 <= i < k - 1 && m[i] == q[k - 1]; assert l[i].d <= l[k - 1].d; }
    }
    forall i | 0 <= i < |d| ensures d[i] in q || q[k - 1].d <= d[i].d {
      if i < |c| && c[i] in l {
        var j :| 0 <= j < k && l[j] == c[i];
        if j < k - 1 { assert m[j] == c[i]; }
      }
    }
  }

  lemma Unchanged(l: seq<Entry>, c: seq<Entry>, k: nat, e: Entry)
    requires 1 <= k && IsNearest(l, c, k) && |l| == k && e.d >= l[k - 1].d
    ensures IsNearest(l, c + [e], k)
  {
    var d := c + [e];
    forall i | 0 <= i < k ensures l[i] in d { assert l[i] in c; }
  }

  lemma PlaceIs(l: seq<Entry>, e: Entry, j: nat)
    requires j <= |l| && (j > 0 ==> l[j - 1].d <= e.d) && (forall i :: j <= i < |l| ==> l[i].d > e.d)
    ensures Place(l, e) == l[..j] + [e] + l[j..]
  {
    hide Place;
    SlotIs(l, e, j);
    PlaceAtSlot(l, e);
  }

  lemma PlaceAtSlot(l: seq<Entry>, e: Entry)
    ensures Place(l, e) == l[..Slot(l, e)] + [e] + l[Slot(l, e)..]
  {
  }

  lemma {:induction false} SlotIs(l: seq<Entry>, e: Entry, j: nat)
    requires j <= |l| && (j > 0 ==> l[j - 1].d <= e.d) && (forall i :: j <= i < |l| ==> l[i].d > e.d)
    ensures Slot(l, e) == j
  {
    if j < |l| { SlotIs(l[..|l| - 1], e, j); }
  }

  /** v34_topk_t: two small arrays kept in step. */
  class TopK {
    const idx: array<nat>
    const d: array<real>
    var n: nat

    ghost predicate Valid()
      reads this
    {
      idx.Length == MAX_KEEP && d.Length == MAX_KEEP && n <= MAX_KEEP
    }

    ghost function Repr(): set<object> {
      {this as object, idx, d}
    }

    ghost function List(): (l: seq<Entry>)
      reads this, idx, d
      requires Valid()
      ensures |l| == n
    {
      Entries(idx[..n], d[..n])
    }

    constructor ()
      ensures Valid() && List() == [] && fresh(idx) && fresh(d)
    {
      idx := new nat[MAX_KEEP];
      d := new real[MAX_KEEP];
      n := 0;
    }

    method Reset()
      requires Valid()
      modifies this
      ensures Valid() && List() == []
    {
      n := 0;
    }

    /** v34_topk_insert. */
    method Offer(index: nat, dist: real, maxk: nat)
      requires Valid() && 1 <= maxk <= MAX_KEEP && n <= maxk
      modifies this, idx, d
      ensures Valid() && n <= maxk && List() == Insert(old(List()), Entry(index, dist), maxk)
    {
      hide Place, List;
      ghost var l := List();
      ListIs();
      var i := n;
      if n < maxk {
        n := n + 1;
      } else if dist < d[n - 1] {
        i := n - 1;
      } else {
        return;
      }
      var j := i;
      while j > 0 && d[j - 1] > dist
        invariant 0 <= j <= i && n == i + 1
        invariant forall m :: 0 <= m < j ==> idx[m] == l[m].idx && d[m] == l[m].d
        invariant forall m :: j < m <= i ==> idx[m] == l[m - 1].idx && d[m] == l[m - 1].d && d[m] > dist
      {
        d[j] := d[j - 1];
        idx[j] := idx[j - 1];
        j := j - 1;
      }
      d[j] := dist;
      idx[j] := index;
      Shifted(l[..i], index, dist, j);
      assert |l| < maxk ==> l[..i] == l;
    }

    lemma ListIs()
      requires Valid()
      ensures |List()| == n && forall m :: 0 <= m < n ==> List()[m] == Entry(idx[m], d[m])
    {
    }

    /** The arrays after shifting hold the list with the new entry in its slot. */
    lemma Shifted(l: seq<Entry>, index: nat, dist: real, j: nat)
      requires Valid() && n == |l| + 1 && j <= |l| && d[j] == dist && idx[j] == index
      requires j > 0 ==> d[j - 1] <= dist
      requires forall m :: 0 <= m < j ==> idx[m] == l[m].idx && d[m] == l[m].d
      requires forall m :: j < m <= |l| ==> idx[m] == l[m - 1].idx && d[m] == l[m - 1].d && d[m] > dist
      ensures List() == Place(l, Entry(index, dist))
    {
      hide Place;
      var e := Entry(index, dist);
      forall i | j <= i < |l| ensures l[i].d > dist { assert d[i + 1] == l[(i + 1) - 1].d; }
      PlaceIs(l, e, j);
      var r := l[..j] + [e] + l[j..];
      forall m | 0 <= m < n ensures List()[m] == r[m] {
        if m > j { assert r[m] == l[m - 1]; }
      }
    }
  }

  function Entries(idx: seq<nat>, d: seq<real>): (l: seq<Entry>)
    requires |idx| == |d|
    ensures |l| == |d|
  {
    seq(|d|, i requires 0 <= i < |d| => Entry(idx[i], d[i]))
  }

  // ---------------------------------------------------------------- the trellis

  /** Table 13 of V.34: Y4 Y3 Y2 Y1 for two subset labels. */
  function Table13(s0: nat, s1: nat): nat
    requires s0 < 8 && s1 < 8
  {
    (match s0
     case 0 => [0x0, 0x0, 0x1, 0x1, 0x8, 0x8, 0x9, 0x9]
     case 1 => [0x3, 0x2, 0x2, 0x3, 0xB, 0xA, 0xA, 0xB]
     case 2 => [0x5, 0x5, 0x4, 0x4, 0xD, 0xD, 0xC, 0xC]
     case 3 => [0x6, 0x7, 0x7, 0x6, 0xE, 0xF, 0xF, 0xE]
     case 4 => [0x8, 0x8, 0x9, 0x9, 0x0, 0x0, 0x1, 0x1]
     case 5 => [0xB, 0xA, 0xA, 0xB, 0x3, 0x2, 0x2, 0x3]
     case 6 => [0xD, 0xD, 0xC, 0xC, 0x5, 0x5, 0x4, 0x4]
     case _ => [0xE, 0xF, 0xF, 0xE, 0x6, 0x7, 0x7, 0x6])[s1]
  }

  function Bit(v: nat, i: nat): nat
    requires i < 4
  {
    match i case 0 => v % 2 case 1 => v / 2 % 2 case 2 => v / 4 % 2 case _ => v / 8 % 2
  }

  /** nf_v34_trellis_step. */
  function TrellisStep(state: nat, y2: nat, y1: nat): (next: nat)
    requires state < STATES && y2 < 2 && y1 < 2
    ensures next < STATES
  {
    var t1, t2, t3, t4 := Bit(state, 0), Bit(state, 1), Bit(state, 2), Bit(state, 3);
    (t2 + y1) % 2 + 2 * ((t3 + y2) % 2) + 4 * ((t4 + t1 + y2) % 2) + 8 * t1
  }

  /** A search: the subset labels of the alphabet, the distance of every alphabet point to
      every received symbol, the candidates kept.  Point i is turned by i mod 4. */
  datatype Search = Search(sub: seq<nat>, d0: seq<seq<real>>, d1: seq<seq<real>>, keep: nat, keep0: nat)

  ghost predicate Sound(p: Search, most: real) {
    && |p.sub| >= 4 && |p.sub| % 4 == 0 && (forall i :: 0 <= i < |p.sub| ==> p.sub[i] < 8)
    && 1 <= p.keep <= MAX_KEEP && 1 <= p.keep0 <= MAX_KEEP
    && |p.d0| == |p.d1| >= 1
    && (forall m :: 0 <= m < |p.d0| ==> |p.d0[m]| == |p.sub| && |p.d1[m]| == |p.sub|)
    && (forall m, i :: 0 <= m < |p.d0| && 0 <= i < |p.sub| ==> 0.0 <= p.d0[m][i] <= most && 0.0 <= p.d1[m][i] <= most)
    && 2.0 * (|p.d0| as real) * most < INF
  }

  /** The rotation parity of point `i` against a first symbol turned by `z`. */
  function Parity(i: nat, z: nat): nat {
    (i % 4 - z) % 4 % 2
  }

  function Candidates0(d: seq<real>, n: nat): (c: seq<Entry>)
    requires n <= |d|
    ensures |c| == n && forall i :: 0 <= i < n ==> c[i] == Entry(i, d[i])
  {
    seq(n, i requires 0 <= i < n => Entry(i, d[i]))
  }

  function Candidates1(d: seq<real>, z: nat, u: nat, n: nat): (c: seq<Entry>)
    requires n <= |d|
    ensures forall i :: 0 <= i < |c| ==> c[i].idx < n && c[i].d == d[c[i].idx] && Parity(c[i].idx, z) == u
  {
    if n == 0 then []
    else Candidates1(d, z, u, n - 1) + (if Parity(n - 1, z) == u then [Entry(n - 1, d[n - 1])] else [])
  }

  function Top0(p: Search, m: nat): seq<Entry>
    requires m < |p.d0| && 1 <= p.keep0
  {
    Nearest(Candidates0(p.d0[m], |p.d0[m]|), p.keep0)
  }

  function Top1(p: Search, m: nat, z: nat, u: nat): seq<Entry>
    requires m < |p.d1| && 1 <= p.keep
  {
    Nearest(Candidates1(p.d1[m], z, u, |p.d1[m]|), p.keep)
  }

  /** From a state, two alphabet points. */
  datatype Branch = Branch(st: nat, a0: nat, a1: nat)

  ghost predicate InRange(p: Search, m: nat, b: Branch) {
    m < |p.d0| == |p.d1| && b.st < STATES && b.a0 < |p.sub| && b.a1 < |p.sub|
    && |p.d0[m]| == |p.sub| && |p.d1[m]| == |p.sub| && 1 <= p.keep && 1 <= p.keep0
    && p.sub[b.a0] < 8 && p.sub[b.a1] < 8
  }

  /** A branch of the pruned trellis: a kept first point and a kept second point of the parity
      that the state's U0 demands. */
  ghost predicate Allowed(p: Search, m: nat, b: Branch) {
    && InRange(p, m, b)
    && Entry(b.a0, p.d0[m][b.a0]) in Top0(p, m)
    && Entry(b.a1, p.d1[m][b.a1]) in Top1(p, m, b.a0 % 4, b.st % 2)
  }

  function Next(p: Search, b: Branch): (s: nat)
    requires b.st < STATES && b.a0 < |p.sub| && b.a1 < |p.sub| && p.sub[b.a0] < 8 && p.sub[b.a1] < 8
    ensures s < STATES
  {
    var y := Table13(p.sub[b.a0], p.sub[b.a1]);
    TrellisStep(b.st, Bit(y, 1), Bit(y, 0))
  }

  ghost function BranchCost(p: Search, m: nat, b: Branch): real {
    if InRange(p, m, b) then p.d0[m][b.a0] + p.d1[m][b.a1] else 0.0
  }

  /** `q` is a path of the pruned trellis that ends in state `st`. */
  ghost predicate PathTo(p: Search, q: seq<Branch>, st: nat)
    decreases |q|
  {
    q == [] ||
    (var n := |q| - 1;
     Allowed(p, n, q[n]) && Next(p, q[n]) == st && PathTo(p, q[..n], q[n].st))
  }

  ghost function Cost(p: Search, q: seq<Branch>): real
    decreases |q|
  {
    if q == [] then 0.0 else Cost(p, q[..|q| - 1]) + BranchCost(p, |q| - 1, q[|q| - 1])
  }

  lemma PathStep(p: Search, q: seq<Branch>, b: Branch)
    ensures Cost(p, q + [b]) == Cost(p, q) + BranchCost(p, |q|, b)
    ensures Allowed(p, |q|, b) && PathTo(p, q, b.st) ==> PathTo(p, q + [b], Next(p, b))
  {
    assert (q + [b])[..|q|] == q;
    hide Allowed, BranchCost;
  }

  // ---------------------------------------------------------------- one step

  /** The winners into each state among the branches `done`. */
  ghost predicate Winners(p: Search, m: nat, metric: seq<real>, done: iset<Branch>,
                          path: seq<real>, prev: seq<int>, p0: seq<nat>, p1: seq<nat>)
  {
    && |metric| == |path| == |prev| == |p0| == |p1| == STATES
    && (forall s :: 0 <= s < STATES ==> path[s] <= INF && -1 <= prev[s] < STATES)
    && (forall s :: 0 <= s < STATES && path[s] < INF ==>
          && 0 <= prev[s] < STATES && metric[prev[s]] < INF
          && Allowed(p, m, Branch(prev[s], p0[s], p1[s])) && Next(p, Branch(prev[s], p0[s], p1[s])) == s
          && path[s] == metric[prev[s]] + BranchCost(p, m, Branch(prev[s], p0[s], p1[s])))
    && (forall b :: b in done ==> Allowed(p, m, b) && path[Next(p, b)] <= metric[b.st] + BranchCost(p, m, b))
  }

  lemma NextIs(p: Search, b: Branch)
    requires b.st < STATES && b.a0 < |p.sub| && b.a1 < |p.sub| && p.sub[b.a0] < 8 && p.sub[b.a1] < 8
    ensures var y := Table13(p.sub[b.a0], p.sub[b.a1]); Next(p, b) == TrellisStep(b.st, Bit(y, 1), Bit(y, 0))
  {
  }

  lemma Considered(p: Search, m: nat, metric: seq<real>, done: iset<Branch>, path: seq<real>, prev: seq<int>, p0: seq<nat>, p1: seq<nat>,
                   b: Branch, next: nat, cost: real)
    requires |metric| == |path| == |prev| == |p0| == |p1| == STATES && InRange(p, m, b) && next == Next(p, b) < STATES
    requires Winners(p, m, metric, done, path, prev, p0, p1)
    requires Allowed(p, m, b) && metric[b.st] < INF && cost == metric[b.st] + p.d0[m][b.a0] + p.d1[m][b.a1]
    ensures if cost < path[next]
            then Winners(p, m, metric, done + iset{b}, path[next := cost], prev[next := b.st], p0[next := b.a0], p1[next := b.a1])
            else Winners(p, m, metric, done + iset{b}, path, prev, p0, p1)
  {
    hide Allowed, Next;
    assert cost == metric[b.st] + BranchCost(p, m, b);
  }

  lemma {:induction false} Candidates1Distinct(d: seq<real>, z: nat, u: nat, n: nat)
    requires n <= |d|
    ensures Distinct(Candidates1(d, z, u, n))
    ensures forall i :: 0 <= i < n && Parity(i, z) == u ==> Entry(i, d[i]) in Candidates1(d, z, u, n)
  {
    hide Parity;
    if n > 0 { Candidates1Distinct(d, z, u, n - 1); }
  }

  /** Kept entries are alphabet points with their distances; there is one unless no point has
      the parity. */
  lemma TopsAreCandidates(p: Search, m: nat, z: nat, u: nat)
    requires m < |p.d0| == |p.d1| && 1 <= p.keep && 1 <= p.keep0
    ensures forall x :: x in Top0(p, m) ==> x.idx < |p.d0[m]| && x.d == p.d0[m][x.idx]
    ensures forall x :: x in Top1(p, m, z, u) ==> x.idx < |p.d1[m]| && x.d == p.d1[m][x.idx] && Parity(x.idx, z) == u
    ensures |p.d0[m]| > 0 ==> Top0(p, m) != []
    ensures (exists i :: 0 <= i < |p.d1[m]| && Parity(i, z) == u) ==> Top1(p, m, z, u) != []
  {
    hide Nearest, Parity;
    var c0, c1 := Candidates0(p.d0[m], |p.d0[m]|), Candidates1(p.d1[m], z, u, |p.d1[m]|);
    Candidates1Distinct(p.d1[m], z, u, |p.d1[m]|);
    NearestAreNearest(c0, p.keep0);
    NearestAreNearest(c1, p.keep);
  }

  /** The two candidate lists of a step, built in a TopK. */
  method KeepNearest0(p: Search, m: nat, top: TopK)
    requires top.Valid() && m < |p.d0| && 1 <= p.keep0 <= MAX_KEEP
    modifies top, top.idx, top.d
    ensures top.Valid() && top.List() == Top0(p, m)
  {
    hide TopK.List, Insert;
    top.Reset();
    for i := 0 to |p.d0[m]|
      invariant top.Valid() && top.n <= p.keep0 && top.List() == Nearest(Candidates0(p.d0[m], i), p.keep0)
    {
      assert Candidates0(p.d0[m], i + 1)[..i] == Candidates0(p.d0[m], i);
      top.Offer(i, p.d0[m][i], p.keep0);
    }
  }

  method KeepNearest1(p: Search, m: nat, z: nat, u: nat, top: TopK)
    requires top.Valid() && m < |p.d1| && 1 <= p.keep <= MAX_KEEP
    modifies top, top.idx, top.d
    ensures top.Valid() && top.List() == Top1(p, m, z, u)
  {
    hide TopK.List, Insert, Parity;
    top.Reset();
    for i := 0 to |p.d1[m]|
      invariant top.Valid() && top.n <= p.keep && top.List() == Nearest(Candidates1(p.d1[m], z, u, i), p.keep)
    {
      ghost var c := Candidates1(p.d1[m], z, u, i);
      if Parity(i, z) == u {
        assert (c + [Entry(i, p.d1[m][i])])[..|c|] == c;
        top.Offer(i, p.d1[m][i], p.keep);
      } else {
        assert c + [] == c;
      }
    }
  }

  /** new_path, new_prev, new_p0, new_p1: the best way found into each state. */
  class Frontier {
    const path: array<real>
    const prev: array<int>
    const p0: array<nat>
    const p1: array<nat>

    ghost predicate Valid() {
      path.Length == prev.Length == p0.Length == p1.Length == STATES && p0 != p1
    }

    ghost function Repr(): set<object> {
      {path as object, prev, p0, p1}
    }

    ghost predicate Holds(p: Search, m: nat, metric: seq<real>, done: iset<Branch>)
      reads path, prev, p0, p1
      requires Valid() && |metric| == STATES
    {
      Winners(p, m, metric, done, path[..], prev[..], p0[..], p1[..])
    }

    constructor ()
      ensures Valid() && fresh(path) && fresh(prev) && fresh(p0) && fresh(p1)
    {
      path := new real[STATES];
      prev := new int[STATES];
      p0 := new nat[STATES];
      p1 := new nat[STATES];
      new;
    }

    method Clear(ghost p: Search, ghost m: nat, ghost metric: seq<real>)
      requires Valid() && |metric| == STATES
      modifies path, prev
      ensures Holds(p, m, metric, iset{})
    {
      hide Allowed, BranchCost;
      for st := 0 to STATES
        invariant forall s :: 0 <= s < st ==> path[s] == INF && prev[s] == -1
      {
        path[st] := INF;
        prev[st] := -1;
      }
    }

    /** One branch more: a strictly cheaper way into its state wins. */
    method Consider(p: Search, m: nat, metric: seq<real>, ghost done: iset<Branch>, st: nat, a0: nat, d0: real, a1: nat, d1: real)
      requires Valid() && |metric| == STATES && Holds(p, m, metric, done)
      requires Allowed(p, m, Branch(st, a0, a1)) && metric[st] < INF && d0 == p.d0[m][a0] && d1 == p.d1[m][a1]
      modifies path, prev, p0, p1
      ensures Holds(p, m, metric, done + iset{Branch(st, a0, a1)})
    {
      hide Winners, Top0, Top1, Table13, TrellisStep, Next;
      ghost var b := Branch(st, a0, a1);
      NextIs(p, b);
      var y := Table13(p.sub[a0], p.sub[a1]);
      var next := TrellisStep(st, Bit(y, 1), Bit(y, 0));
      var cost := metric[st] + d0 + d1;
      Considered(p, m, metric, done, path[..], prev[..], p0[..], p1[..], b, next, cost);
      ghost var v, vp, v0, v1 := path[..], prev[..], p0[..], p1[..];
      if cost < path[next] {
        path[next] := cost;
        prev[next] := st;
        p0[next] := a0;
        p1[next] := a1;
        assert path[..] == v[next := cost] && prev[..] == vp[next := st] && p0[..] == v0[next := a0] && p1[..] == v1[next := a1];
      }
    }

    /** All branches out of one state. */
    method Relax(p: Search, m: nat, metric: seq<real>, ghost done: iset<Branch>, st: nat, sym1: TopK, sym2: TopK, ghost most: real)
      returns (ghost all: iset<Branch>)
      requires Valid() && |metric| == STATES && Holds(p, m, metric, done)
      requires Sound(p, most) && m < |p.d0| && st < STATES && metric[st] < INF
      requires sym1.Valid() && sym2.Valid() && sym1.List() == Top0(p, m)
      requires sym1.Repr() !! sym2.Repr() !! Repr()
      modifies path, prev, p0, p1, sym2, sym2.idx, sym2.d
      ensures sym2.Valid() && Holds(p, m, metric, all) && done <= all
      ensures forall b :: Allowed(p, m, b) && b.st == st ==> b in all
    {
      hide Holds, Allowed, Top0, Top1, TopK.List, Sound;
      SoundStep(p, most, m);
      all := done;
      for h := 0 to sym1.n
        invariant sym1.Valid() && sym2.Valid() && sym1.List() == Top0(p, m) && done <= all && Holds(p, m, metric, all)
        invariant forall b :: InRange(p, m, b) && Allowed(p, m, b) && b.st == st && Entry(b.a0, p.d0[m][b.a0]) in sym1.List()[..h] ==> b in all
      {
        sym1.ListIs();
        var a0, d0 := sym1.idx[h], sym1.d[h];
        assert sym1.List()[h] in Top0(p, m);
        TopsAreCandidates(p, m, a0 % 4, st % 2);
        KeepNearest1(p, m, a0 % 4, st % 2, sym2);
        all := RelaxFirst(p, m, metric, all, st, a0, d0, sym2);
        forall b | InRange(p, m, b) && Allowed(p, m, b) && b.st == st && Entry(b.a0, p.d0[m][b.a0]) in sym1.List()[..h + 1]
          ensures b in all
        {
          assert Entry(b.a0, p.d0[m][b.a0]) in sym1.List()[..h] || b.a0 == a0;
        }
      }
      forall b | Allowed(p, m, b) && b.st == st ensures b in all {
        AllowedMeans(p, m, b);
        assert sym1.List()[..sym1.n] == sym1.List();
      }
    }

    /** All branches out of one state with one first point. */
    method RelaxFirst(p: Search, m: nat, metric: seq<real>, ghost done: iset<Branch>, st: nat, a0: nat, d0: real, sym2: TopK)
      returns (ghost all: iset<Branch>)
      requires Valid() && |metric| == STATES && Holds(p, m, metric, done)
      requires st < STATES && metric[st] < INF && InRange(p, m, Branch(st, a0, a0)) && d0 == p.d0[m][a0]
      requires Entry(a0, d0) in Top0(p, m) && forall i :: 0 <= i < |p.sub| ==> p.sub[i] < 8
      requires sym2.Valid() && sym2.List() == Top1(p, m, a0 % 4, st % 2) && sym2.Repr() !! Repr()
      modifies path, prev, p0, p1
      ensures Holds(p, m, metric, all) && done <= all
      ensures forall b :: Allowed(p, m, b) && b.st == st && b.a0 == a0 ==> b in all
    {
      hide Holds, Top0, Top1, TopK.List;
      all := done;
      TopsAreCandidates(p, m, a0 % 4, st % 2);
      for j := 0 to sym2.n
        invariant sym2.Valid() && sym2.List() == Top1(p, m, a0 % 4, st % 2) && done <= all && Holds(p, m, metric, all)
        invariant forall i :: 0 <= i < j ==> Branch(st, a0, sym2.List()[i].idx) in all
      {
        sym2.ListIs();
        var a1, d1 := sym2.idx[j], sym2.d[j];
        assert sym2.List()[j] in Top1(p, m, a0 % 4, st % 2);
        Consider(p, m, metric, all, st, a0, d0, a1, d1);
        all := all + iset{Branch(st, a0, a1)};
      }
    }

    /** The least new metric is taken off all of them. */
    method Normalise(metric: array<real>) returns (ghost least: real)
      requires Valid() && metric.Length == STATES && metric !in Repr()
      requires forall s :: 0 <= s < STATES ==> path[s] <= INF
      modifies metric
      ensures Normalised(path[..], least, metric[..])
    {
      var mn := INF;
      for st := 0 to STATES
        invariant mn <= INF && (forall s :: 0 <= s < st ==> mn <= path[s])
        invariant mn == INF || exists s :: 0 <= s < st && path[s] == mn
      {
        if path[st] < mn { mn := path[st]; }
      }
      least := mn;
      assert exists s :: 0 <= s < STATES && path[s] == mn by { assert mn <= path[0]; }
      for st := 0 to STATES
        invariant forall s :: 0 <= s < st ==> metric[s] == if path[s] < INF then path[s] - mn else INF
      {
        metric[st] := if path[st] < INF then path[st] - mn else INF;
      }
    }
  }

  lemma SoundStep(p: Search, most: real, m: nat)
    requires Sound(p, most) && m < |p.d0|
    ensures |p.d0| == |p.d1| && |p.sub| >= 4 && |p.d0[m]| == |p.d1[m]| == |p.sub| && 1 <= p.keep <= MAX_KEEP && 1 <= p.keep0 <= MAX_KEEP
    ensures forall i :: 0 <= i < |p.sub| ==> p.sub[i] < 8
    ensures forall i :: 0 <= i < |p.sub| ==> 0.0 <= p.d0[m][i] <= most && 0.0 <= p.d1[m][i] <= most
  {
  }

  lemma AllowedMeans(p: Search, m: nat, b: Branch)
    requires Allowed(p, m, b)
    ensures InRange(p, m, b) && Entry(b.a0, p.d0[m][b.a0]) in Top0(p, m)
    ensures Entry(b.a1, p.d1[m][b.a1]) in Top1(p, m, b.a0 % 4, b.st % 2)
  {
  }

  // ---------------------------------------------------------------- optimality, step by step

  /** The records of one step: previous state and points for every state. */
  datatype Rec = Rec(prev: seq<int>, p0: seq<nat>, p1: seq<nat>)

  predicate Shaped(recs: seq<Rec>) {
    forall i :: 0 <= i < |recs| ==> |recs[i].prev| == |recs[i].p0| == |recs[i].p1| == STATES
  }

  /** The survivor into a state, traced back; an unreached state counts as state 0. */
  function Back(recs: seq<Rec>, st: nat): (q: seq<Branch>)
    requires Shaped(recs) && st < STATES
    ensures |q| == |recs|
    decreases |recs|
  {
    if recs == [] then []
    else
      var n := |recs| - 1;
      var r := recs[n];
      var from := if 0 <= r.prev[st] < STATES then r.prev[st] else 0;
      Back(recs[..n], from) + [Branch(from, r.p0[st], r.p1[st])]
  }

  /** Path metrics, up to `base`, are the least costs of the pruned trellis, and the records
      trace paths of these costs. */
  ghost predicate Exact(p: Search, most: real, metric: seq<real>, base: real, recs: seq<Rec>)
  {
    && |metric| == STATES && Shaped(recs) && base >= 0.0
    && (forall st :: 0 <= st < STATES ==> metric[st] >= 0.0)
    && (exists st :: 0 <= st < STATES && metric[st] < INF)
    && (forall st :: 0 <= st < STATES && metric[st] < INF ==>
          PathTo(p, Back(recs, st), st) && Cost(p, Back(recs, st)) == metric[st] + base)
    && (forall st, q: seq<Branch> :: 0 <= st < STATES && |q| == |recs| && PathTo(p, q, st) ==>
          metric[st] < INF && metric[st] + base <= Cost(p, q))
  }

  /** What normalisation leaves: the least new metric taken off. */
  ghost predicate Normalised(path: seq<real>, mn: real, metric: seq<real>)
  {
    && |path| == |metric| == STATES
    && (forall st :: 0 <= st < STATES ==> mn <= path[st])
    && (exists st :: 0 <= st < STATES && path[st] == mn)
    && (forall st :: 0 <= st < STATES ==> metric[st] == if path[st] < INF then path[st] - mn else INF)
  }

  /** All branches of the step have been considered. */
  ghost predicate Complete(p: Search, m: nat, metric: seq<real>, done: iset<Branch>)
  {
    |metric| == STATES && forall b :: Allowed(p, m, b) && metric[b.st] < INF ==> b in done
  }

  /** What a path of n steps can cost at most. */
  function Most(n: nat, most: real): real {
    2.0 * (n as real) * most
  }

  lemma MostStep(n: nat, most: real)
    ensures Most(n + 1, most) == Most(n, most) + 2.0 * most
    ensures Most(0, most) == 0.0
  {
    assert ((n + 1) as real) == (n as real) + 1.0;
  }

  lemma {:induction false} CostBound(p: Search, most: real, q: seq<Branch>, st: nat)
    requires Sound(p, most) && PathTo(p, q, st) && |q| <= |p.d0|
    ensures 0.0 <= Cost(p, q) <= Most(|q|, most)
    decreases |q|
  {
    hide Sound, Allowed, Most;
    if q == [] {
      MostStep(0, most);
    } else {
      var n := |q| - 1;
      CostBound(p, most, q[..n], q[n].st);
      SoundStep(p, most, n);
      AllowedMeans(p, n, q[n]);
      MostStep(n, most);
    }
  }

  lemma UnderInfinity(p: Search, most: real, n: nat)
    requires Sound(p, most) && n <= |p.d0|
    ensures 0.0 <= most && Most(n, most) < INF
  {
    assert 0.0 <= p.d0[0][0] <= most;
    assert (n as real) * most <= (|p.d0| as real) * most;
  }

  /** From every state some branch is kept. */
  lemma SomeBranch(p: Search, most: real, m: nat, st: nat) returns (b: Branch)
    requires Sound(p, most) && m < |p.d0| && st < STATES
    ensures Allowed(p, m, b) && b.st == st
  {
    hide Top0, Top1, Sound;
    SoundStep(p, most, m);
    TopsAreCandidates(p, m, 0, 0);
    var x := Top0(p, m)[0];
    var z, u := x.idx % 4, st % 2;
    assert x in Top0(p, m);
    assert Parity((z + u) % 4, z) == u;
    TopsAreCandidates(p, m, z, u);
    var y := Top1(p, m, z, u)[0];
    assert y in Top1(p, m, z, u);
    b := Branch(st, x.idx, y.idx);
  }

  /** One step of dynamic programming keeps the metrics exact, whatever is taken off. */
  lemma StepKeepsExact(p: Search, most: real, metric: seq<real>, base: real, recs: seq<Rec>, done: iset<Branch>,
                       path: seq<real>, r: Rec, mn: real, next: seq<real>)
    requires Sound(p, most) && |recs| < |p.d0| && Exact(p, most, metric, base, recs)
    requires Winners(p, |recs|, metric, done, path, r.prev, r.p0, r.p1) && Complete(p, |recs|, metric, done)
    requires Normalised(path, mn, next)
    ensures Exact(p, most, next, base + mn, recs + [r])
  {
    hide Sound, Allowed, PathTo, Cost, BranchCost, Back;
    var m := |recs|;
    Reached(p, most, metric, base, recs, done, path, r);
    LeastIsSmall(p, most, metric, base, recs, done, path, r, mn, next);
    forall st | 0 <= st < STATES && next[st] < INF
      ensures PathTo(p, Back(recs + [r], st), st) && Cost(p, Back(recs + [r], st)) == next[st] + (base + mn)
    {
      SurvivorExact(p, most, metric, base, recs, done, path, r, st);
    }
    forall st, q: seq<Branch> | 0 <= st < STATES && |q| == m + 1 && PathTo(p, q, st)
      ensures next[st] < INF && next[st] + (base + mn) <= Cost(p, q)
    {
      PathBeaten(p, most, metric, base, recs, done, path, r, st, q);
    }
  }

  /** New metrics are not negative, and a state that is reached is reached below infinity. */
  lemma Reached(p: Search, most: real, metric: seq<real>, base: real, recs: seq<Rec>, done: iset<Branch>, path: seq<real>, r: Rec)
    requires Sound(p, most) && |recs| < |p.d0| && Exact(p, most, metric, base, recs)
    requires Winners(p, |recs|, metric, done, path, r.prev, r.p0, r.p1)
    ensures forall s :: 0 <= s < STATES ==> path[s] >= 0.0
  {
    hide Sound, PathTo, Cost, Back;
    forall s | 0 <= s < STATES ensures path[s] >= 0.0 {
      if path[s] < INF {
        SoundStep(p, most, |recs|);
        AllowedMeans(p, |recs|, Branch(r.prev[s], r.p0[s], r.p1[s]));
      }
    }
  }

  lemma PathBeaten(p: Search, most: real, metric: seq<real>, base: real, recs: seq<Rec>, done: iset<Branch>, path: seq<real>, r: Rec,
                   st: nat, q: seq<Branch>)
    requires Sound(p, most) && |recs| < |p.d0| && Exact(p, most, metric, base, recs)
    requires Winners(p, |recs|, metric, done, path, r.prev, r.p0, r.p1) && Complete(p, |recs|, metric, done)
    requires st < STATES && |q| == |recs| + 1 && PathTo(p, q, st)
    ensures path[st] < INF && path[st] + base <= Cost(p, q)
  {
    hide Sound, Allowed, BranchCost, Back;
    var m := |recs|;
    var b := q[m];
    AllowedMeans(p, m, b);
    assert PathTo(p, q[..m], b.st) && metric[b.st] + base <= Cost(p, q[..m]);
    assert b in done && path[st] <= metric[b.st] + BranchCost(p, m, b);
    CostBound(p, most, q, st);
    UnderInfinity(p, most, m + 1);
  }

  lemma SurvivorExact(p: Search, most: real, metric: seq<real>, base: real, recs: seq<Rec>, done: iset<Branch>, path: seq<real>, r: Rec, st: nat)
    requires |path| == STATES && st < STATES && path[st] < INF && Shaped(recs + [r])
    requires Exact(p, most, metric, base, recs) && Winners(p, |recs|, metric, done, path, r.prev, r.p0, r.p1)
    ensures PathTo(p, Back(recs + [r], st), st) && Cost(p, Back(recs + [r], st)) == path[st] + base
  {
    hide Allowed, BranchCost, PathTo, Cost;
    var b := Branch(r.prev[st], r.p0[st], r.p1[st]);
    assert (recs + [r])[..|recs|] == recs;
    PathStep(p, Back(recs, b.st), b);
  }

  lemma LeastIsSmall(p: Search, most: real, metric: seq<real>, base: real, recs: seq<Rec>, done: iset<Branch>,
                     path: seq<real>, r: Rec, mn: real, next: seq<real>)
    requires Sound(p, most) && |recs| < |p.d0| && Exact(p, most, metric, base, recs)
    requires Winners(p, |recs|, metric, done, path, r.prev, r.p0, r.p1) && Complete(p, |recs|, metric, done)
    requires Normalised(path, mn, next) && forall s :: 0 <= s < STATES ==> path[s] >= 0.0
    ensures mn >= 0.0 && exists st :: 0 <= st < STATES && next[st] < INF
  {
    hide Sound, Allowed, BranchCost, PathTo, Cost, Back;
    var m := |recs|;
    var s :| 0 <= s < STATES && metric[s] < INF;
    var b := SomeBranch(p, most, m, s);
    var q := Back(recs, s);
    PathStep(p, q, b);
    AllowedMeans(p, m, b);
    PathBeaten(p, most, metric, base, recs, done, path, r, Next(p, b), q + [b]);
    var least :| 0 <= least < STATES && path[least] == mn;
    assert path[least] <= path[Next(p, b)] < INF;
    assert next[least] == 0.0;
  }

  lemma NothingYet(p: Search, most: real, metric: seq<real>)
    requires |metric| == STATES && forall st :: 0 <= st < STATES ==> metric[st] == 0.0
    ensures Exact(p, most, metric, 0.0, [])
  {
    hide Allowed;
    assert metric[0] < INF;
  }

  // ---------------------------------------------------------------- the decoder

  /** One received pair of symbols. */
  method Step(p: Search, ghost most: real, m: nat, metric: array<real>, ghost base: real, ghost recs: seq<Rec>,
              f: Frontier, sym1: TopK, sym2: TopK) returns (r: Rec, ghost least: real)
    requires Sound(p, most) && m == |recs| < |p.d0| && metric.Length == STATES && Exact(p, most, metric[..], base, recs)
    requires f.Valid() && sym1.Valid() && sym2.Valid()
    requires f.Repr() !! sym1.Repr() !! sym2.Repr() !! {metric as object}
    modifies metric, f.Repr(), sym1.Repr(), sym2.Repr()
    ensures sym1.Valid() && sym2.Valid()
    ensures |r.prev| == |r.p0| == |r.p1| == STATES && forall s :: 0 <= s < STATES ==> -1 <= r.prev[s] < STATES
    ensures Exact(p, most, metric[..], base + least, recs + [r])
  {
    hide Sound, Exact, Allowed, Winners, Top0, TopK.List, Normalised;
    SoundStep(p, most, m);
    ghost var before := metric[..];
    KeepNearest0(p, m, sym1);
    f.Clear(p, m, before);
    ghost var done: iset<Branch> := iset{};
    for st := 0 to STATES
      invariant sym1.Valid() && sym2.Valid() && sym1.List() == Top0(p, m)
      invariant metric[..] == before && f.Holds(p, m, before, done)
      invariant forall b :: Allowed(p, m, b) && b.st < st && before[b.st] < INF ==> b in done
    {
      if metric[st] < INF {
        done := f.Relax(p, m, metric[..], done, st, sym1, sym2, most);
      }
    }
    WinnersShape(p, m, before, done, f.path[..], f.prev[..], f.p0[..], f.p1[..]);
    least := f.Normalise(metric);
    r := Rec(f.prev[..], f.p0[..], f.p1[..]);
    AllDone(p, m, before, done);
    StepKeepsExact(p, most, before, base, recs, done, f.path[..], r, least, metric[..]);
  }

  lemma AllDone(p: Search, m: nat, metric: seq<real>, done: iset<Branch>)
    requires |metric| == STATES && forall b :: Allowed(p, m, b) && b.st < STATES && metric[b.st] < INF ==> b in done
    ensures Complete(p, m, metric, done)
  {
    hide Top0, Top1;
  }

  lemma WinnersShape(p: Search, m: nat, metric: seq<real>, done: iset<Branch>, path: seq<real>, prev: seq<int>, p0: seq<nat>, p1: seq<nat>)
    requires Winners(p, m, metric, done, path, prev, p0, p1)
    ensures |path| == |prev| == STATES
    ensures forall s :: 0 <= s < STATES ==> path[s] <= INF && -1 <= prev[s] < STATES
  {
    hide Allowed;
  }

  /** Sixteen-state paths: every branch leads to where the next one starts, and the rotation
      parity of the second symbol against the first is U0, the low bit of the state. */
  ghost predicate Legal(p: Search, q: seq<Branch>, st: nat) {
    forall k :: 0 <= k < |q| ==> LegalAt(p, q, st, k)
  }

  ghost predicate LegalAt(p: Search, q: seq<Branch>, st: nat, k: nat)
    requires k < |q|
  {
    && InRange(p, k, q[k]) && Parity(q[k].a1, q[k].a0 % 4) == q[k].st % 2
    && Next(p, q[k]) == if k + 1 < |q| then q[k + 1].st else st
  }

  lemma {:induction false} PathIsLegal(p: Search, q: seq<Branch>, st: nat)
    requires PathTo(p, q, st)
    ensures Legal(p, q, st)
    decreases |q|
  {
    hide Allowed, Parity, Next, InRange;
    if q != [] {
      var n := |q| - 1;
      PathIsLegal(p, q[..n], q[n].st);
      forall k | 0 <= k < n ensures LegalAt(p, q, st, k) {
        assert LegalAt(p, q[..n], q[n].st, k);
      }
      AllowedParity(p, n, q[n]);
    }
  }

  lemma AllowedParity(p: Search, m: nat, b: Branch)
    requires Allowed(p, m, b)
    ensures InRange(p, m, b) && Parity(b.a1, b.a0 % 4) == b.st % 2
  {
    hide Top0, Top1, Parity;
    AllowedMeans(p, m, b);
    TopsAreCandidates(p, m, b.a0 % 4, b.st % 2);
  }

  /** No path of the pruned trellis as long as `q`, into whatever state, costs less. */
  ghost predicate Cheapest(p: Search, q: seq<Branch>) {
    forall x: seq<Branch>, st :: 0 <= st < STATES && |x| == |q| && PathTo(p, x, st) ==> Cost(p, q) <= Cost(p, x)
  }

  /** The inputs the search is meant for; how many, and how many candidates, is checked. */
  ghost predicate Received(p: Search, most: real) {
    |p.d0| >= 1 && 1 <= p.keep <= MAX_KEEP && 1 <= p.keep0 <= MAX_KEEP ==> Sound(p, most)
  }

  /** nf_v34_viterbi_decode: the decoded points are those of a legal path, and no path of the
      pruned trellis, into whatever state, is nearer to the received symbols. */
  method Decode(p: Search, ghost most: real)
    returns (ok: bool, decoded0: seq<nat>, decoded1: seq<nat>, ghost q: seq<Branch>, ghost last: nat)
    requires Received(p, most)
    ensures ok == (|p.d0| >= 1 && 1 <= p.keep <= MAX_KEEP && 1 <= p.keep0 <= MAX_KEEP)
    ensures ok ==> |q| == |decoded0| == |decoded1| == |p.d0|
    ensures ok ==> forall k :: 0 <= k < |q| ==> decoded0[k] == q[k].a0 && decoded1[k] == q[k].a1
    ensures ok ==> PathTo(p, q, last) && Legal(p, q, last) && Cheapest(p, q)
  {
    hide Sound, Exact, PathTo, Cost, Legal, Cheapest, Back;
    if |p.d0| == 0 || p.keep == 0 || p.keep0 == 0 || p.keep > MAX_KEEP || p.keep0 > MAX_KEEP {
      return false, [], [], [], 0;
    }
    var n := |p.d0|;
    var metric := new real[STATES](_ => 0.0);
    var f := new Frontier();
    var sym1 := new TopK();
    var sym2 := new TopK();
    var recs: seq<Rec> := [];
    ghost var base := 0.0;
    NothingYet(p, most, metric[..]);
    for m := 0 to n
      invariant |recs| == m && Shaped(recs) && Traceable(recs) && Exact(p, most, metric[..], base, recs)
      invariant sym1.Valid() && sym2.Valid()
    {
      var r, least := Step(p, most, m, metric, base, recs, f, sym1, sym2);
      base := base + least;
      recs := recs + [r];
    }
    var final := 0;
    for st := 1 to STATES
      invariant final < STATES && forall s :: 0 <= s < st ==> metric[final] <= metric[s]
    {
      if metric[st] < metric[final] { final := st; }
    }
    decoded0, decoded1 := TraceBack(recs, final);
    q, last, ok := Back(recs, final), final, true;
    LeastIsBest(p, most, metric[..], base, recs, final);
    PathIsLegal(p, q, last);
  }

  ghost predicate Traceable(recs: seq<Rec>) {
    forall i, s :: 0 <= i < |recs| && 0 <= s < |recs[i].prev| ==> -1 <= recs[i].prev[s] < STATES
  }

  lemma LeastIsBest(p: Search, most: real, metric: seq<real>, base: real, recs: seq<Rec>, final: nat)
    requires |metric| == STATES && Shaped(recs) && final < STATES && forall s :: 0 <= s < STATES ==> metric[final] <= metric[s]
    requires Exact(p, most, metric, base, recs)
    ensures PathTo(p, Back(recs, final), final) && Cheapest(p, Back(recs, final))
  {
    hide PathTo, Cost, Back;
    forall x: seq<Branch>, st | 0 <= st < STATES && |x| == |recs| && PathTo(p, x, st)
      ensures Cost(p, Back(recs, final)) <= Cost(p, x)
    {
      assert metric[final] <= metric[st];
    }
  }

  /** The states back from the final one, then the points along them. */
  method TraceBack(recs: seq<Rec>, final: nat) returns (decoded0: seq<nat>, decoded1: seq<nat>)
    requires Shaped(recs) && Traceable(recs) && |recs| > 0 && final < STATES
    ensures |decoded0| == |decoded1| == |recs|
    ensures forall k :: 0 <= k < |recs| ==> decoded0[k] == Back(recs, final)[k].a0 && decoded1[k] == Back(recs, final)[k].a1
  {
    hide Back;
    var n := |recs|;
    var states := new nat[n];
    states[n - 1] := final;
    assert recs[..n] == recs;
    var m := n - 1;
    while m > 0
      invariant 0 <= m < n
      invariant forall k :: m <= k < n ==> states[k] < STATES
      invariant forall k :: m <= k < n ==> Back(recs[..k + 1], states[k]) == Back(recs, final)[..k + 1]
    {
      BackStep(recs, m, states[m]);
      var prev := recs[m].prev[states[m]];
      states[m - 1] := if prev >= 0 then prev else 0;
      assert Back(recs[..m], states[m - 1]) == Back(recs, final)[..m + 1][..m];
      m := m - 1;
    }
    decoded0, decoded1 := [], [];
    ghost var trace := states[..];
    for k := 0 to n
      invariant |decoded0| == |decoded1| == k && states[..] == trace
      invariant forall i :: 0 <= i < k ==> decoded0[i] == Back(recs, final)[i].a0 && decoded1[i] == Back(recs, final)[i].a1
    {
      assert states[k] == trace[k];
      BackStep(recs, k, states[k]);
      assert Back(recs, final)[k] == Back(recs[..k + 1], states[k])[k];
      decoded0 := decoded0 + [recs[k].p0[states[k]]];
      decoded1 := decoded1 + [recs[k].p1[states[k]]];
    }
  }

  lemma BackStep(recs: seq<Rec>, k: nat, st: nat)
    requires Shaped(recs) && k < |recs| && st < STATES
    ensures Shaped(recs[..k + 1]) && Shaped(recs[..k])
    ensures var from := if 0 <= recs[k].prev[st] < STATES then recs[k].prev[st] else 0;
            Back(recs[..k + 1], st) == Back(recs[..k], from) + [Branch(from, recs[k].p0[st], recs[k].p1[st])]
  {
    assert recs[..k + 1][..k] == recs[..k];
  }
}
