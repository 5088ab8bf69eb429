// The `toolInvocations` list of the tools-chat response: every tool call of
// the generation result, paired with the first tool result that carries the
// same call id. Arguments and results are opaque to the route, so they are
// type parameters here.
module ToolInvocations {

  import opened Wrappers

  datatype ToolCall<A> = ToolCall(toolCallId: string, toolName: string, args: A)

  datatype ToolResult<V> = ToolResult(toolCallId: string, result: V)

  /** One entry of the response; `result` is `None` where the route yields
      `undefined`. */
  datatype Invocation<A, V> = Invocation(toolName: string, args: A, result: Option<V>)

  /** `results.findIndex(r => r.toolCallId === id)`, `None` for -1. */
  function FirstIndex<V>(results: seq<ToolResult<V>>, id: string): (k: Option<nat>)
    ensures k.None? <==> forall j :: 0 <= j < |results| ==> results[j].toolCallId != id
    ensures k.Some? ==> k.value < |results| && results[k.value].toolCallId == id
    ensures k.Some? ==> forall j :: 0 <= j < k.value ==> results[j].toolCallId != id
  {
    if |results| == 0 then None
    else if results[0].toolCallId == id then Some(0)
    else match FirstIndex(results[1..], id)
      case None => None
      case Some(k) => Some(k + 1)
  }

  /** `results?.find(r => r.toolCallId === id)?.result`: absent when there is
      no list or no result with the id, otherwise the earliest such result. */
  function FindResult<V>(results: Option<seq<ToolResult<V>>>, id: string): (r: Option<V>)
    ensures r.None? <==> (results.None? || forall j :: 0 <= j < |results.value| ==> results.value[j].toolCallId != id)
    ensures r.Some? ==> exists k :: 0 <= k < |results.value| && results.value[k].toolCallId == id
                                    && results.value[k].result == r.value
                                    && forall j :: 0 <= j < k ==> results.value[j].toolCallId != id
  {
    match results
    case None => None
    case Some(rs) =>
      match FirstIndex(rs, id)
      case None => None
      case Some(k) => Some(rs[k].result)
  }

  /** `toolCalls?.map(call => ({ toolName, args, result })) || []`. */
  function Assemble<A, V>(calls: Option<seq<ToolCall<A>>>, results: Option<seq<ToolResult<V>>>)
    : (inv: seq<Invocation<A, V>>)
    ensures calls.None? ==> inv == []
    ensures calls.Some? ==> |inv| == |calls.value|
    ensures calls.Some? ==> forall i :: 0 <= i < |inv| ==>
      && inv[i].toolName == calls.value[i].toolName
      && inv[i].args == calls.value[i].args
  {
    match calls
    case None => []
    case Some(cs) =>
      seq(|cs|, i requires 0 <= i < |cs| =>
        Invocation(cs[i].toolName, cs[i].args, FindResult(results, cs[i].toolCallId)))
  }

  /** Each entry's result is present exactly when some tool result carries
      the call's id, and then it is the earliest such result. */
  lemma AssembledResultIsFirstMatch<A, V>(calls: seq<ToolCall<A>>, results: seq<ToolResult<V>>, i: nat)
    requires i < |calls|
    ensures var r := Assemble(Some(calls), Some(results))[i].result;
      && (r.None? <==> forall j :: 0 <= j < |results| ==> results[j].toolCallId != calls[i].toolCallId)
      && (r.Some? ==> exists k :: 0 <= k < |results| && results[k].toolCallId == calls[i].toolCallId
                        && results[k].result == r.value
                        && forall j :: 0 <= j < k ==> results[j].toolCallId != calls[i].toolCallId)
  {
  }

  /** When the call ids of the results are distinct, each call gets the
      result recorded for its own id. */
  lemma AssembledResultWithUniqueIds<A, V>(calls: seq<ToolCall<A>>, results: seq<ToolResult<V>>, i: nat, k: nat)
    requires i < |calls| && k < |results|
    requires results[k].toolCallId == calls[i].toolCallId
    requires forall j :: 0 <= j < |results| && j != k ==> results[j].toolCallId != results[k].toolCallId
    ensures Assemble(Some(calls), Some(results))[i].result == Some(results[k].result)
  {
  }

  /** Without a results list every entry's result is absent. */
  lemma NoResultsMeansNoResult<A, V>(calls: seq<ToolCall<A>>, i: nat)
    requires i < |calls|
    ensures Assemble<A, V>(Some(calls), None)[i].result.None?
  {
  }

  /** Later results never override an earlier one for the same id; only ids
      that are missing from the first batch are looked up in the second. */
  lemma {:induction false} FirstIndexAppend<V>(r1: seq<ToolResult<V>>, r2: seq<ToolResult<V>>, id: string)
    ensures FindResult(Some(r1 + r2), id) ==
      if FindResult(Some(r1), id).Some? then FindResult(Some(r1), id) else FindResult(Some(r2), id)
  {
    if |r1| > 0 {
      assert (r1 + r2)[0] == r1[0];
      assert (r1 + r2)[1..] == r1[1..] + r2;
      FirstIndexAppend(r1[1..], r2, id);
    } else {
      assert r1 + r2 == r2;
    }
  }

  /** The trace is assembled call by call: splitting the calls splits it. */
  lemma AssembleAppend<A, V>(c1: seq<ToolCall<A>>, c2: seq<ToolCall<A>>, results: Option<seq<ToolResult<V>>>)
    ensures Assemble(Some(c1 + c2), results) == Assemble(Some(c1), results) + Assemble(Some(c2), results)
  {
    var whole := Assemble(Some(c1 + c2), results);
    var parts := Assemble(Some(c1), results) + Assemble(Some(c2), results);
    assert |whole| == |parts|;
    forall i | 0 <= i < |whole|
      ensures whole[i] == parts[i]
    {
      if i < |c1| {
        assert (c1 + c2)[i] == c1[i];
      } else {
        assert (c1 + c2)[i] == c2[i - |c1|];
      }
    }
  }
}
