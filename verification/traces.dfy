/**
 * The record of which children a routing loop hands work to. The loops of
 * BRANCH, PICK and SPLIT visit the children in order and call child `j`
 * only when some row (or column) is routed to it; the trace lets the
 * contracts say so.
 */
module Traces {
  import opened Populations

  /** One invocation of child `child` on the population `input`. */
  datatype Call = Call(child: nat, input: Population)

  /** The recombined population and the child invocations that produced it, in order. */
  datatype Routed = Routed(population: Population, calls: seq<Call>)

  /**
   * The calls a loop over the first `k` children makes when child `j` is
   * called exactly if `called[j]`, and then on `inputs[j]`.
   */
  function TraceOf(called: seq<bool>, inputs: seq<Population>, k: nat): seq<Call>
    requires k <= |called| && |inputs| == |called|
  {
    if k == 0 then []
    else TraceOf(called, inputs, k - 1) + (if called[k - 1] then [Call(k - 1, inputs[k - 1])] else [])
  }

  /**
   * Only children among the first `k` that are due are called, once each,
   * in increasing order, each on its own input; and every due child is.
   */
  ghost predicate CallsAre(calls: seq<Call>, called: seq<bool>, inputs: seq<Population>, k: nat) {
    && k <= |called| && |inputs| == |called|
    && (forall c :: 0 <= c < |calls| ==>
          && calls[c].child < k
          && called[calls[c].child]
          && calls[c].input == inputs[calls[c].child])
    && (forall a, b :: 0 <= a < b < |calls| ==> calls[a].child < calls[b].child)
    && (forall j :: 0 <= j < k && called[j] ==> exists c :: 0 <= c < |calls| && calls[c].child == j)
  }

  lemma CallsStepSkip(calls: seq<Call>, called: seq<bool>, inputs: seq<Population>, k: nat)
    requires CallsAre(calls, called, inputs, k) && k < |called| && !called[k]
    ensures CallsAre(calls, called, inputs, k + 1)
  {
  }

  lemma CallsStepCall(calls: seq<Call>, called: seq<bool>, inputs: seq<Population>, k: nat)
    requires CallsAre(calls, called, inputs, k) && k < |called| && called[k]
    ensures CallsAre(calls + [Call(k, inputs[k])], called, inputs, k + 1)
  {
    var next := calls + [Call(k, inputs[k])];
    forall c | 0 <= c < |next|
      ensures next[c].child < k + 1 && called[next[c].child] && next[c].input == inputs[next[c].child]
    {
      if c < |calls| { assert next[c] == calls[c]; }
    }
    forall a, b | 0 <= a < b < |next| ensures next[a].child < next[b].child {
      assert next[a] == calls[a];
      if b < |calls| { assert next[b] == calls[b]; }
    }
    forall j | 0 <= j < k + 1 && called[j]
      ensures exists c :: 0 <= c < |next| && next[c].child == j
    {
      if j == k {
        assert next[|next| - 1].child == j;
      } else {
        var c :| 0 <= c < |calls| && calls[c].child == j;
        assert next[c] == calls[c];
      }
    }
  }

  /** One more turn of the loop keeps the trace in shape. */
  lemma TraceStep(called: seq<bool>, inputs: seq<Population>, k: nat)
    requires k < |called| && |inputs| == |called|
    requires CallsAre(TraceOf(called, inputs, k), called, inputs, k)
    ensures CallsAre(TraceOf(called, inputs, k + 1), called, inputs, k + 1)
  {
    var prev := TraceOf(called, inputs, k);
    if called[k] {
      assert TraceOf(called, inputs, k + 1) == prev + [Call(k, inputs[k])];
      CallsStepCall(prev, called, inputs, k);
    } else {
      assert TraceOf(called, inputs, k + 1) == prev;
      CallsStepSkip(prev, called, inputs, k);
    }
  }

  /** The trace of the loop has the shape `CallsAre` describes. */
  lemma {:induction false} TraceShape(called: seq<bool>, inputs: seq<Population>, k: nat)
    requires k <= |called| && |inputs| == |called|
    ensures CallsAre(TraceOf(called, inputs, k), called, inputs, k)
  {
    if k > 0 {
      var j := k - 1;
      TraceShape(called, inputs, j);
      TraceStep(called, inputs, j);
      assert j + 1 == k;
    }
  }

  /** A loop whose children are none of them due makes no call. */
  lemma {:induction false} TraceEmpty(called: seq<bool>, inputs: seq<Population>, k: nat)
    requires k <= |called| && |inputs| == |called|
    requires forall j :: 0 <= j < k ==> !called[j]
    ensures TraceOf(called, inputs, k) == []
  {
    if k > 0 {
      TraceEmpty(called, inputs, k - 1);
    }
  }
}
