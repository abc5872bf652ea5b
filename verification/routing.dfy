/**
 * Partitioning a sequence by a routing index and writing a group back:
 * the boolean-mask indexing `xs[route == k]` and the masked assignment
 * `xs[route == k] = ys` that the meta-operators use on rows and columns.
 */
module Routing {

  /** Number of positions of `route` that hold `k`. */
  function Count(route: seq<int>, k: int): (c: nat)
    ensures c <= |route|
    ensures c == 0 <==> k !in route
  {
    if |route| == 0 then 0
    else
      assert route == [route[0]] + route[1..];
      (if route[0] == k then 1 else 0) + Count(route[1..], k)
  }

  /** Some entry of `route` names one of the `n` children, so the loop over the children does some work. */
  predicate NamesChild(route: seq<int>, n: nat) {
    exists i :: 0 <= i < |route| && 0 <= route[i] < n
  }

  /** For each of the `n` children, whether some position is routed to it: the children the loop calls. */
  function Due(route: seq<int>, n: nat): (due: seq<bool>)
    ensures |due| == n && forall j {:trigger due[j]} :: 0 <= j < n ==> (due[j] <==> j in route)
  {
    seq(n, j => j in route)
  }

  /** The elements of `xs` whose routing index is `k`, in their original order. */
  function Select<T>(xs: seq<T>, route: seq<int>, k: int): (r: seq<T>)
    requires |xs| == |route|
    ensures |r| == Count(route, k)
  {
    if |xs| == 0 then []
    else if route[0] == k then [xs[0]] + Select(xs[1..], route[1..], k)
    else Select(xs[1..], route[1..], k)
  }

  /** `xs` with the positions routed to `k` overwritten, in order, by `ys`. */
  function Scatter<T>(xs: seq<T>, route: seq<int>, k: int, ys: seq<T>): (r: seq<T>)
    requires |xs| == |route| && |ys| == Count(route, k)
    ensures |r| == |xs|
  {
    if |xs| == 0 then []
    else if route[0] == k then [ys[0]] + Scatter(xs[1..], route[1..], k, ys[1..])
    else [xs[0]] + Scatter(xs[1..], route[1..], k, ys)
  }

  /** Counting in a prefix of length `i > 0` looks at the head and then at `i - 1` entries of the tail. */
  lemma CountPrefixStep(route: seq<int>, k: int, i: nat)
    requires 0 < i <= |route|
    ensures Count(route[..i], k) == (if route[0] == k then 1 else 0) + Count(route[1..][..i - 1], k)
  {
    assert route[..i][1..] == route[1..][..i - 1];
  }

  /** Position `i` is the `Count(route[..i], route[i])`-th member of its own group. */
  lemma {:induction false} SelectAt<T>(xs: seq<T>, route: seq<int>, i: int)
    requires |xs| == |route| && 0 <= i < |xs|
    ensures Count(route[..i], route[i]) < Count(route, route[i])
    ensures Select(xs, route, route[i])[Count(route[..i], route[i])] == xs[i]
  {
    var k := route[i];
    if i == 0 {
      assert route[..0] == [];
      assert Select(xs, route, k) == [xs[0]] + Select(xs[1..], route[1..], k);
    } else {
      CountPrefixStep(route, k, i);
      SelectAt(xs[1..], route[1..], i - 1);
      SelectAtStep(xs, route, i);
    }
  }

  /** The step of `SelectAt`: position `i` of `xs` is position `i - 1` of its tail, one group member later when the head shares its group. */
  lemma SelectAtStep<T>(xs: seq<T>, route: seq<int>, i: int)
    requires |xs| == |route| && 0 < i < |xs|
    requires Count(route[..i], route[i]) == (if route[0] == route[i] then 1 else 0) + Count(route[1..][..i - 1], route[i])
    requires Count(route[1..][..i - 1], route[i]) < Count(route[1..], route[i])
    requires Select(xs[1..], route[1..], route[i])[Count(route[1..][..i - 1], route[i])] == xs[i]
    ensures Count(route[..i], route[i]) < Count(route, route[i])
    ensures Select(xs, route, route[i])[Count(route[..i], route[i])] == xs[i]
  {
    var k := route[i];
    var c := Count(route[1..][..i - 1], k);
    var tail := Select(xs[1..], route[1..], k);
    var n := Count(route[..i], k);
    var whole := Select(xs, route, k);
    if route[0] == k {
      assert whole == [xs[0]] + tail;
      assert n == c + 1;
      assert whole[n] == tail[c];
    } else {
      assert whole == tail;
      assert n == c;
    }
  }

  /** Writing a group back touches only that group's positions, in order. */
  lemma {:induction false} ScatterAt<T>(xs: seq<T>, route: seq<int>, k: int, ys: seq<T>, i: int)
    requires |xs| == |route| && |ys| == Count(route, k) && 0 <= i < |xs|
    ensures route[i] == k ==> Count(route[..i], k) < |ys| && Scatter(xs, route, k, ys)[i] == ys[Count(route[..i], k)]
    ensures route[i] != k ==> Scatter(xs, route, k, ys)[i] == xs[i]
  {
    if i == 0 {
      assert route[..0] == [];
    } else {
      CountPrefixStep(route, k, i);
      assert route[1..][i - 1] == route[i];
      var c := Count(route[1..][..i - 1], k);
      var n := Count(route[..i], k);
      var whole := Scatter(xs, route, k, ys);
      if route[0] == k {
        ScatterAt(xs[1..], route[1..], k, ys[1..], i - 1);
        var tail := Scatter(xs[1..], route[1..], k, ys[1..]);
        assert whole == [ys[0]] + tail;
        assert whole[i] == tail[i - 1];
        assert n == c + 1;
        assert route[i] == k ==> ys[1..][c] == ys[n];
      } else {
        ScatterAt(xs[1..], route[1..], k, ys, i - 1);
        var tail := Scatter(xs[1..], route[1..], k, ys);
        assert whole == [xs[0]] + tail;
        assert whole[i] == tail[i - 1];
        assert n == c;
      }
    }
  }

  /**
   * Reading a group after a write-back: group `k` is exactly what was
   * written, every other group is as it was.
   */
  lemma {:induction false} SelectOfScatter<T>(xs: seq<T>, route: seq<int>, k: int, ys: seq<T>, j: int)
    requires |xs| == |route| && |ys| == Count(route, k)
    ensures Select(Scatter(xs, route, k, ys), route, j) == if j == k then ys else Select(xs, route, j)
  {
    if |xs| > 0 {
      if route[0] == k {
        SelectOfScatter(xs[1..], route[1..], k, ys[1..], j);
        assert ys == [ys[0]] + ys[1..];
      } else {
        SelectOfScatter(xs[1..], route[1..], k, ys, j);
      }
    }
  }

  /** Writing a group back unchanged leaves the sequence as it was. */
  lemma {:induction false} ScatterOfSelect<T>(xs: seq<T>, route: seq<int>, k: int)
    requires |xs| == |route|
    ensures Scatter(xs, route, k, Select(xs, route, k)) == xs
  {
    if |xs| > 0 {
      ScatterOfSelect(xs[1..], route[1..], k);
      assert xs == [xs[0]] + xs[1..];
    }
  }

  /** The groups of a partition determine the partitioned sequence. */
  lemma {:induction false} SelectDetermines<T>(xs: seq<T>, ys: seq<T>, route: seq<int>)
    requires |xs| == |ys| == |route|
    requires forall k :: Select(xs, route, k) == Select(ys, route, k)
    ensures xs == ys
  {
    if |xs| > 0 {
      assert Select(xs, route, route[0])[0] == Select(ys, route, route[0])[0];
      forall k ensures Select(xs[1..], route[1..], k) == Select(ys[1..], route[1..], k) {
        if k == route[0] {
          assert Select(xs, route, k)[1..] == Select(ys, route, k)[1..];
        } else {
          assert Select(xs, route, k) == Select(ys, route, k);
        }
      }
      SelectDetermines(xs[1..], ys[1..], route[1..]);
      assert xs == [xs[0]] + xs[1..];
      assert ys == [ys[0]] + ys[1..];
    }
  }

  /** Selecting a group from a constant routing takes everything or nothing. */
  lemma {:induction false} SelectConstant<T>(xs: seq<T>, route: seq<int>, c: int, k: int)
    requires |xs| == |route|
    requires forall i :: 0 <= i < |route| ==> route[i] == c
    ensures Select(xs, route, k) == if k == c then xs else []
  {
    if |xs| > 0 {
      SelectConstant(xs[1..], route[1..], c, k);
      assert xs == [xs[0]] + xs[1..];
    }
  }

  /** Sequences that agree on the positions routed to `k` have the same group `k`. */
  lemma {:induction false} SelectAgrees<T>(xs: seq<T>, ys: seq<T>, route: seq<int>, k: int)
    requires |xs| == |ys| == |route|
    requires forall i :: 0 <= i < |route| && route[i] == k ==> xs[i] == ys[i]
    ensures Select(xs, route, k) == Select(ys, route, k)
  {
    if |xs| > 0 {
      forall i | 0 <= i < |route| - 1 && route[1..][i] == k ensures xs[1..][i] == ys[1..][i] {
        assert route[i + 1] == k;
      }
      SelectAgrees(xs[1..], ys[1..], route[1..], k);
    }
  }

  /** Per-element lengths agree in two row lists, so they agree in the selected groups. */
  lemma {:induction false} SelectRowLengths<T>(a: seq<seq<T>>, b: seq<seq<T>>, route: seq<int>, k: int)
    requires |a| == |b| == |route|
    requires forall i :: 0 <= i < |a| ==> |a[i]| == |b[i]|
    ensures forall j :: 0 <= j < Count(route, k) ==> |Select(a, route, k)[j]| == |Select(b, route, k)[j]|
  {
    if |a| > 0 {
      SelectRowLengths(a[1..], b[1..], route[1..], k);
    }
  }

  /**
   * `cur` is `orig` with groups `0 .. k-1` replaced by `outs[0] .. outs[k-1]`
   * and every other group as it was.
   */
  ghost predicate GroupsAre<T>(cur: seq<T>, orig: seq<T>, route: seq<int>, outs: seq<seq<T>>, k: nat) {
    && k <= |outs| && |cur| == |route| && |orig| == |route|
    && forall j {:trigger Select(cur, route, j)} :: Select(cur, route, j) == if 0 <= j < k then outs[j] else Select(orig, route, j)
  }

  /** Before the loop, no group is replaced. */
  lemma GroupsStart<T>(orig: seq<T>, route: seq<int>, outs: seq<seq<T>>)
    requires |orig| == |route|
    ensures GroupsAre(orig, orig, route, outs, 0)
  {
  }

  /** Writing group `k` back extends the replaced groups by one. */
  lemma GroupsStep<T>(cur: seq<T>, orig: seq<T>, route: seq<int>, outs: seq<seq<T>>, k: nat)
    requires GroupsAre(cur, orig, route, outs, k) && k < |outs| && |outs[k]| == Count(route, k)
    ensures GroupsAre(Scatter(cur, route, k, outs[k]), orig, route, outs, k + 1)
  {
    var next := Scatter(cur, route, k, outs[k]);
    forall j ensures Select(next, route, j) == if 0 <= j < k + 1 then outs[j] else Select(orig, route, j) {
      SelectOfScatter(cur, route, k, outs[k], j);
      assert Select(cur, route, j) == if 0 <= j < k then outs[j] else Select(orig, route, j);
    }
  }

  /** A group no position is routed to is already the (empty) replacement. */
  lemma GroupsSkip<T>(cur: seq<T>, orig: seq<T>, route: seq<int>, outs: seq<seq<T>>, k: nat)
    requires GroupsAre(cur, orig, route, outs, k) && k < |outs| && |outs[k]| == Count(route, k) && k !in route
    ensures GroupsAre(cur, orig, route, outs, k + 1)
  {
    assert Select(cur, route, k) == Select(orig, route, k);
  }

  /** Every group `j < n` of `outs` fits the positions `route` gives to `j`. */
  predicate OutputsFit<T>(route: seq<int>, outs: seq<seq<T>>) {
    forall j :: 0 <= j < |outs| ==> |outs[j]| == Count(route, j)
  }

  /**
   * The loop over the children: `orig` with the groups of children
   * `0 .. k-1` written back from `outs`, one child at a time, skipping a
   * child that no position names.
   */
  function ScatterAll<T>(orig: seq<T>, route: seq<int>, outs: seq<seq<T>>, k: nat): (g: seq<T>)
    requires |orig| == |route| && k <= |outs| && OutputsFit(route, outs)
    ensures |g| == |route|
  {
    if k == 0 then orig
    else
      var prev := ScatterAll(orig, route, outs, k - 1);
      if k - 1 in route then Scatter(prev, route, k - 1, outs[k - 1]) else prev
  }

  /** Positions whose index is not below `k` keep their value. */
  lemma GroupsKeepRest<T>(cur: seq<T>, orig: seq<T>, route: seq<int>, outs: seq<seq<T>>, k: nat)
    requires GroupsAre(cur, orig, route, outs, k)
    ensures forall i :: 0 <= i < |route| && !(0 <= route[i] < k) ==> cur[i] == orig[i]
  {
    forall i | 0 <= i < |route| && !(0 <= route[i] < k) ensures cur[i] == orig[i] {
      assert Select(cur, route, route[i]) == Select(orig, route, route[i]);
      SelectAt(cur, route, i);
      SelectAt(orig, route, i);
    }
  }

  /** One more child: the replaced groups extend from `k - 1` to `k`. */
  lemma ScatterAllStep<T>(orig: seq<T>, route: seq<int>, outs: seq<seq<T>>, k: nat)
    requires |orig| == |route| && 0 < k <= |outs| && OutputsFit(route, outs)
    requires GroupsAre(ScatterAll(orig, route, outs, k - 1), orig, route, outs, k - 1)
    ensures GroupsAre(ScatterAll(orig, route, outs, k), orig, route, outs, k)
  {
    var prev := ScatterAll(orig, route, outs, k - 1);
    var j := k - 1;
    assert |outs[j]| == Count(route, j);
    if j in route {
      assert ScatterAll(orig, route, outs, k) == Scatter(prev, route, j, outs[j]);
      GroupsStep(prev, orig, route, outs, j);
      assert j + 1 == k;
    } else {
      assert ScatterAll(orig, route, outs, k) == prev;
      GroupsSkip(prev, orig, route, outs, j);
      assert j + 1 == k;
    }
  }

  /** After `k` children, groups below `k` are their outputs and the others are as in `orig`. */
  lemma {:induction false} ScatterAllGroups<T>(orig: seq<T>, route: seq<int>, outs: seq<seq<T>>, k: nat)
    requires |orig| == |route| && k <= |outs| && OutputsFit(route, outs)
    ensures GroupsAre(ScatterAll(orig, route, outs, k), orig, route, outs, k)
  {
    if k == 0 {
      GroupsStart(orig, route, outs);
    } else {
      ScatterAllGroups(orig, route, outs, k - 1);
      ScatterAllStep(orig, route, outs, k);
    }
  }
}
