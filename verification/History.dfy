/** Replaying a stored conversation to a model provider, which refuses a history in which a tool call
    is left unanswered. */
module History {
  import opened Basics

  datatype Role = User | Assistant | Tool | OtherRole(roleName: string)

  datatype ToolCall = ToolCall(id: string, name: string, arguments: string)

  datatype Message = Message(
    role: Role,
    content: string,
    toolCalls: seq<ToolCall>,
    toolCallId: string,
    toolName: string)

  const UNANSWERED := "No result was recorded for this call; it did not run."

  function StandIn(call: ToolCall): Message {
    Message(Tool, UNANSWERED, [], call.id, call.name)
  }

  function StandIns(calls: seq<ToolCall>): seq<Message> {
    if calls == [] then [] else [StandIn(calls[0])] + StandIns(calls[1..])
  }

  /** The pending calls once one with this id is answered. */
  function Answer(pending: seq<ToolCall>, id: string): seq<ToolCall> {
    if pending == [] then []
    else if pending[0].id == id then pending[1..]
    else [pending[0]] + Answer(pending[1..], id)
  }

  function CallsOf(m: Message): seq<ToolCall> {
    if m.role.Assistant? then m.toolCalls else []
  }

  /** What one message adds to the history: before any message but a tool's, stand-ins for the calls
      still pending. */
  function StepOutput(pending: seq<ToolCall>, m: Message): seq<Message> {
    if m.role.Tool? then [m] else StandIns(pending) + [m]
  }

  function PendingAfter(pending: seq<ToolCall>, m: Message): seq<ToolCall> {
    if m.role.Tool? then Answer(pending, m.toolCallId) else CallsOf(m)
  }

  /** The history for the stored messages, with calls still pending from before them. */
  function RepairFrom(msgs: seq<Message>, pending: seq<ToolCall>): seq<Message> {
    if msgs == [] then StandIns(pending)
    else StepOutput(pending, msgs[0]) + RepairFrom(msgs[1..], PendingAfter(pending, msgs[0]))
  }

  function Repair(msgs: seq<Message>): seq<Message> {
    RepairFrom(msgs, [])
  }

  lemma RepairCons(m: Message, rest: seq<Message>, pending: seq<ToolCall>)
    ensures RepairFrom([m] + rest, pending) == StepOutput(pending, m) + RepairFrom(rest, PendingAfter(pending, m))
  {
    assert ([m] + rest)[1..] == rest;
  }

  /** Answering removes the first call with the id. */
  lemma {:induction false} AnswerAt(pending: seq<ToolCall>, i: nat, id: string)
    requires i <= |pending| && (forall k :: 0 <= k < i ==> pending[k].id != id)
    requires i < |pending| ==> pending[i].id == id
    ensures Answer(pending, id) == if i < |pending| then pending[..i] + pending[i + 1..] else pending
  {
    if i > 0 {
      var rest := pending[1..];
      assert forall k :: 0 <= k < i - 1 ==> rest[k] == pending[k + 1];
      AnswerAt(rest, i - 1, id);
      if i < |pending| {
        assert [pending[0]] + (rest[..i - 1] + rest[i..]) == pending[..i] + pending[i + 1..];
      }
    }
  }

  /** The scan for the pending call a tool message answers. */
  method AnswerPending(pending: seq<ToolCall>, id: string) returns (rest: seq<ToolCall>)
    ensures rest == Answer(pending, id)
  {
    for i := 0 to |pending|
      invariant forall k :: 0 <= k < i ==> pending[k].id != id
    {
      if pending[i].id == id {
        AnswerAt(pending, i, id);
        return pending[..i] + pending[i + 1..];
      }
    }
    AnswerAt(pending, |pending|, id);
    return pending;
  }

  method MessagesToProviderHistory(msgs: seq<Message>) returns (out: seq<Message>)
    ensures out == Repair(msgs)
    ensures forall p :: 0 <= p < |out| && out[p].role.Assistant? ==> exists n :: CoveredBy(out, p, n)
  {
    forall p | 0 <= p < |Repair(msgs)| && Repair(msgs)[p].role.Assistant?
      ensures exists n :: CoveredBy(Repair(msgs), p, n)
    {
      EveryCallIsAnswered(msgs, p);
    }
    out := [];
    var pending: seq<ToolCall> := [];
    for n := 0 to |msgs|
      invariant out + RepairFrom(msgs[n..], pending) == Repair(msgs)
    {
      var m := msgs[n];
      assert msgs[n..] == [m] + msgs[n + 1..];
      RepairCons(m, msgs[n + 1..], pending);
      Regroup(out, StepOutput(pending, m), RepairFrom(msgs[n + 1..], PendingAfter(pending, m)));
      out, pending := Step(m, out, pending);
    }
    assert msgs[|msgs|..] == [];
    out := out + StandIns(pending);
  }

  /** One turn of the loop: answer a pending call or flush them all, append the message, and take up
      an assistant's calls. */
  method Step(m: Message, out0: seq<Message>, pending0: seq<ToolCall>)
    returns (out: seq<Message>, pending: seq<ToolCall>)
    ensures out == out0 + StepOutput(pending0, m)
    ensures pending == PendingAfter(pending0, m)
  {
    out, pending := out0, pending0;
    if m.role.Tool? {
      pending := AnswerPending(pending, m.toolCallId);
    } else {
      out := out + StandIns(pending);
      pending := [];
    }
    out := out + [m];
    if m.role.Assistant? {
      pending := pending + m.toolCalls;
    }
  }

  // ---- the provider's rule ----

  function Ids(calls: seq<ToolCall>): multiset<string> {
    if calls == [] then multiset{} else multiset{calls[0].id} + Ids(calls[1..])
  }

  function AnswerIds(msgs: seq<Message>): multiset<string> {
    if msgs == [] then multiset{} else multiset{msgs[0].toolCallId} + AnswerIds(msgs[1..])
  }

  /** The tool messages a history opens with. */
  function ToolRun(h: seq<Message>): seq<Message> {
    if h == [] || !h[0].role.Tool? then [] else [h[0]] + ToolRun(h[1..])
  }

  /** Every assistant message's tool calls are all answered, call for call, before the next message
      that is not a tool's. */
  ghost predicate WellFormed(h: seq<Message>) {
    forall p :: 0 <= p < |h| ==> AnsweredAt(h, p)
  }

  ghost predicate AnsweredAt(h: seq<Message>, p: nat)
    requires p < |h|
  {
    h[p].role.Assistant? ==> Ids(h[p].toolCalls) <= AnswerIds(ToolRun(h[p + 1..]))
  }

  lemma {:induction false} AnswerIdsOf(pending: seq<ToolCall>, id: string)
    ensures Ids(Answer(pending, id)) == Ids(pending) - multiset{id}
  {
    if pending != [] && pending[0].id != id {
      AnswerIdsOf(pending[1..], id);
      assert ([pending[0]] + Answer(pending[1..], id))[1..] == Answer(pending[1..], id);
    }
  }

  lemma ToolRunCons(m: Message, rest: seq<Message>)
    requires m.role.Tool?
    ensures ToolRun([m] + rest) == [m] + ToolRun(rest)
  {
    assert ([m] + rest)[1..] == rest;
  }

  lemma AnswerIdsCons(m: Message, rest: seq<Message>)
    ensures AnswerIds([m] + rest) == multiset{m.toolCallId} + AnswerIds(rest)
  {
    assert ([m] + rest)[1..] == rest;
  }

  lemma {:induction false} StandInsAnswerAll(calls: seq<ToolCall>, rest: seq<Message>)
    requires rest == [] || !rest[0].role.Tool?
    ensures ToolRun(StandIns(calls) + rest) == StandIns(calls)
    ensures AnswerIds(StandIns(calls)) == Ids(calls)
  {
    if calls == [] {
      assert StandIns(calls) + rest == rest;
    } else {
      var m := StandIn(calls[0]);
      StandInsAnswerAll(calls[1..], rest);
      Regroup([m], StandIns(calls[1..]), rest);
      ToolRunCons(m, StandIns(calls[1..]) + rest);
      AnswerIdsCons(m, StandIns(calls[1..]));
    }
  }

  /** The repaired history opens with answers to everything pending. */
  lemma {:induction false} PendingIsAnswered(msgs: seq<Message>, pending: seq<ToolCall>)
    ensures Ids(pending) <= AnswerIds(ToolRun(RepairFrom(msgs, pending)))
  {
    if msgs == [] {
      StandInsAnswerAll(pending, []);
      assert StandIns(pending) + [] == StandIns(pending);
    } else {
      var m := msgs[0];
      var tail := RepairFrom(msgs[1..], PendingAfter(pending, m));
      if m.role.Tool? {
        PendingIsAnswered(msgs[1..], PendingAfter(pending, m));
        AnswerIdsOf(pending, m.toolCallId);
        ToolRunCons(m, tail);
        AnswerIdsCons(m, ToolRun(tail));
      } else {
        Regroup(StandIns(pending), [m], tail);
        StandInsAnswerAll(pending, [m] + tail);
      }
    }
  }

  lemma AnsweredShift(m: Message, rest: seq<Message>, p: nat)
    requires p < |rest|
    ensures AnsweredAt([m] + rest, p + 1) <==> AnsweredAt(rest, p)
  {
    assert ([m] + rest)[p + 2..] == rest[p + 1..];
  }

  lemma WellFormedCons(m: Message, rest: seq<Message>)
    requires WellFormed(rest) && (m.role.Assistant? ==> Ids(m.toolCalls) <= AnswerIds(ToolRun(rest)))
    ensures WellFormed([m] + rest)
  {
    var h := [m] + rest;
    assert AnsweredAt(h, 0) by {
      assert h[1..] == rest;
    }
    forall p | 0 < p < |h|
      ensures AnsweredAt(h, p)
    {
      AnsweredShift(m, rest, p - 1);
    }
  }

  lemma {:induction false} WellFormedAfter(calls: seq<ToolCall>, rest: seq<Message>)
    requires WellFormed(rest)
    ensures WellFormed(StandIns(calls) + rest)
  {
    if calls == [] {
      assert StandIns(calls) + rest == rest;
    } else {
      WellFormedAfter(calls[1..], rest);
      WellFormedCons(StandIn(calls[0]), StandIns(calls[1..]) + rest);
      Regroup([StandIn(calls[0])], StandIns(calls[1..]), rest);
    }
  }

  lemma {:induction false} RepairFromWellFormed(msgs: seq<Message>, pending: seq<ToolCall>)
    ensures WellFormed(RepairFrom(msgs, pending))
  {
    if msgs == [] {
      WellFormedAfter(pending, []);
      assert StandIns(pending) + [] == StandIns(pending);
    } else {
      var m, next := msgs[0], PendingAfter(pending, msgs[0]);
      var tail := RepairFrom(msgs[1..], next);
      RepairFromWellFormed(msgs[1..], next);
      PendingIsAnswered(msgs[1..], next);
      WellFormedCons(m, tail);
      if !m.role.Tool? {
        WellFormedAfter(pending, [m] + tail);
        Regroup(StandIns(pending), [m], tail);
      }
    }
  }

  /** Whatever was stored, the replayed history leaves no tool call unanswered. */
  lemma RepairIsWellFormed(msgs: seq<Message>)
    ensures WellFormed(Repair(msgs))
  {
    RepairFromWellFormed(msgs, []);
  }

  /** The ids of calls, and the ids tool messages answer, one by one. */
  function CallIds(calls: seq<ToolCall>): (r: seq<string>)
    ensures |r| == |calls| && forall i :: 0 <= i < |calls| ==> r[i] == calls[i].id
  {
    seq(|calls|, i requires 0 <= i < |calls| => calls[i].id)
  }

  function AnsweredIds(msgs: seq<Message>): (r: seq<string>)
    ensures |r| == |msgs| && forall i :: 0 <= i < |msgs| ==> r[i] == msgs[i].toolCallId
  {
    seq(|msgs|, i requires 0 <= i < |msgs| => msgs[i].toolCallId)
  }

  lemma {:induction false} IdsAreCounted(calls: seq<ToolCall>)
    ensures Ids(calls) == multiset(CallIds(calls))
  {
    if calls != [] {
      IdsAreCounted(calls[1..]);
      assert CallIds(calls) == [calls[0].id] + CallIds(calls[1..]);
    }
  }

  lemma {:induction false} AnswersAreCounted(msgs: seq<Message>)
    ensures AnswerIds(msgs) == multiset(AnsweredIds(msgs))
  {
    if msgs != [] {
      AnswersAreCounted(msgs[1..]);
      assert AnsweredIds(msgs) == [msgs[0].toolCallId] + AnsweredIds(msgs[1..]);
    }
  }

  lemma {:induction false} ToolRunIs(h: seq<Message>)
    ensures ToolRun(h) <= h && forall k :: 0 <= k < |ToolRun(h)| ==> h[k].role.Tool?
  {
    if h != [] && h[0].role.Tool? {
      ToolRunIs(h[1..]);
      assert h == [h[0]] + h[1..];
      assert forall k :: 0 < k < |ToolRun(h)| ==> h[k] == h[1..][k - 1];
    }
  }

  /** The n messages right after p are tools', and their ids cover the ids of p's calls, each as often as
      it is called. */
  ghost predicate CoveredBy(h: seq<Message>, p: nat, n: nat) {
    && p + n < |h|
    && (forall k :: p < k <= p + n ==> h[k].role.Tool?)
    && multiset(CallIds(h[p].toolCalls)) <= multiset(AnsweredIds(h[p + 1..p + 1 + n]))
  }

  lemma AnsweredIsCovered(h: seq<Message>, p: nat)
    requires p < |h| && h[p].role.Assistant? && AnsweredAt(h, p)
    ensures exists n :: CoveredBy(h, p, n)
  {
    var after := h[p + 1..];
    var tools := ToolRun(after);
    var n := |tools|;
    ToolRunIs(after);
    IdsAreCounted(h[p].toolCalls);
    AnswersAreCounted(tools);
    assert h[p + 1..p + 1 + n] == after[..n] == tools;
    forall k | p < k <= p + n
      ensures h[k].role.Tool?
    {
      assert h[k] == after[k - p - 1];
    }
    assert CoveredBy(h, p, n);
  }

  /** Said of the messages themselves: the tool messages right after an assistant's message answer every
      one of its calls. */
  lemma EveryCallIsAnswered(msgs: seq<Message>, p: nat)
    requires p < |Repair(msgs)| && Repair(msgs)[p].role.Assistant?
    ensures exists n :: CoveredBy(Repair(msgs), p, n)
  {
    RepairIsWellFormed(msgs);
    assert AnsweredAt(Repair(msgs), p);
    AnsweredIsCovered(Repair(msgs), p);
  }

  // ---- what repair adds ----

  /** The calls a run of tool messages leaves unanswered. */
  function Unanswered(calls: seq<ToolCall>, tools: seq<Message>): seq<ToolCall>
    decreases tools
  {
    if tools == [] then calls else Unanswered(Answer(calls, tools[0].toolCallId), tools[1..])
  }

  lemma {:induction false} UnansweredIds(calls: seq<ToolCall>, tools: seq<Message>)
    ensures Ids(Unanswered(calls, tools)) == Ids(calls) - AnswerIds(tools)
    decreases tools
  {
    if tools != [] {
      AnswerIdsOf(calls, tools[0].toolCallId);
      UnansweredIds(Answer(calls, tools[0].toolCallId), tools[1..]);
    }
  }

  lemma RepairFlushes(post: seq<Message>, pending: seq<ToolCall>)
    requires post == [] || !post[0].role.Tool?
    ensures RepairFrom(post, pending) == StandIns(pending) + Repair(post)
  {
    if post == [] {
      assert StandIns(pending) + [] == StandIns(pending);
    } else {
      var m := post[0];
      assert StandIns([]) + [m] == [m];
      Regroup(StandIns(pending), [m], RepairFrom(post[1..], CallsOf(m)));
    }
  }

  lemma {:induction false} RepairToolRun(tools: seq<Message>, post: seq<Message>, pending: seq<ToolCall>)
    requires forall i :: 0 <= i < |tools| ==> tools[i].role.Tool?
    requires post == [] || !post[0].role.Tool?
    ensures RepairFrom(tools + post, pending) == tools + (StandIns(Unanswered(pending, tools)) + Repair(post))
  {
    if tools == [] {
      assert tools + post == post;
      RepairFlushes(post, pending);
      assert [] + (StandIns(pending) + Repair(post)) == StandIns(pending) + Repair(post);
    } else {
      var m, rest := tools[0], tools[1..];
      RepairToolRun(rest, post, Answer(pending, m.toolCallId));
      assert tools + post == [m] + (rest + post);
      RepairCons(m, rest + post, pending);
      assert tools == [m] + rest;
      Regroup([m], rest, StandIns(Unanswered(pending, tools)) + Repair(post));
    }
  }

  lemma {:induction false} RepairSplits(pre: seq<Message>, post: seq<Message>, pending: seq<ToolCall>)
    requires post != [] && !post[0].role.Tool?
    ensures RepairFrom(pre + post, pending) == RepairFrom(pre, pending) + Repair(post)
  {
    if pre == [] {
      assert pre + post == post;
      RepairFlushes(post, pending);
    } else {
      var m, rest := pre[0], pre[1..];
      RepairSplits(rest, post, PendingAfter(pending, m));
      assert pre + post == [m] + (rest + post);
      RepairCons(m, rest + post, pending);
      Regroup(StepOutput(pending, m), RepairFrom(rest, PendingAfter(pending, m)), Repair(post));
    }
  }

  /** The calls left unanswered are calls, in their order. */
  lemma {:induction false} AnswerKeepsOrder(calls: seq<ToolCall>, id: string) returns (places: seq<nat>)
    ensures Picks(calls, places, Answer(calls, id))
  {
    if calls == [] {
      places := [];
    } else if calls[0].id == id {
      places := seq(|calls| - 1, i => i + 1);
    } else {
      var rest := AnswerKeepsOrder(calls[1..], id);
      places := [0] + seq(|rest|, i requires 0 <= i < |rest| => rest[i] + 1);
      assert Answer(calls, id) == [calls[0]] + Answer(calls[1..], id);
    }
  }

  /** Those at the given places, in order. */
  ghost predicate Picks<T>(from: seq<T>, places: seq<nat>, picked: seq<T>) {
    && |places| == |picked|
    && (forall i :: 0 <= i < |places| ==> places[i] < |from| && picked[i] == from[places[i]])
    && (forall i, j :: 0 <= i < j < |places| ==> places[i] < places[j])
  }

  lemma {:induction false} UnansweredInOrder(calls: seq<ToolCall>, tools: seq<Message>) returns (places: seq<nat>)
    ensures Picks(calls, places, Unanswered(calls, tools))
    decreases tools
  {
    if tools == [] {
      places := seq(|calls|, i => i);
    } else {
      var first := AnswerKeepsOrder(calls, tools[0].toolCallId);
      var rest := UnansweredInOrder(Answer(calls, tools[0].toolCallId), tools[1..]);
      places := seq(|rest|, i requires 0 <= i < |rest| => first[rest[i]]);
    }
  }

  lemma {:induction false} StandInsAre(calls: seq<ToolCall>)
    ensures |StandIns(calls)| == |calls|
    ensures forall i :: 0 <= i < |calls| ==>
      StandIns(calls)[i] == Message(Tool, "No result was recorded for this call; it did not run.", [], calls[i].id, calls[i].name)
  {
    if calls != [] { StandInsAre(calls[1..]); }
  }

  /** What stands in for missing answers: one message of a tool for each call, with the fixed text and the
      call's id and name. */
  ghost predicate StandsInFor(added: seq<Message>, missing: seq<ToolCall>) {
    && |added| == |missing|
    && forall i :: 0 <= i < |missing| ==>
         added[i] == Message(Tool, "No result was recorded for this call; it did not run.", [], missing[i].id, missing[i].name)
  }

  /** One message with the tool messages stored after it: repair keeps both and adds, right after
      them, stand-ins for exactly the missing answers, in the order of the calls; what comes before and
      after is repaired on its own. */
  lemma GroupRepaired(pre: seq<Message>, m: Message, tools: seq<Message>, post: seq<Message>)
    returns (added: seq<Message>, missing: seq<ToolCall>, places: seq<nat>)
    requires !m.role.Tool? && (forall i :: 0 <= i < |tools| ==> tools[i].role.Tool?)
    requires post == [] || !post[0].role.Tool?
    ensures Repair(pre + ([m] + (tools + post))) == Repair(pre) + ([m] + (tools + (added + Repair(post))))
    ensures StandsInFor(added, missing)
    ensures var calls := if m.role.Assistant? then m.toolCalls else [];
      && Picks(calls, places, missing)
      && multiset(CallIds(missing)) == multiset(CallIds(calls)) - multiset(AnsweredIds(tools))
  {
    var calls := if m.role.Assistant? then m.toolCalls else [];
    RepairSplits(pre, [m] + (tools + post), []);
    RepairCons(m, tools + post, []);
    assert StepOutput([], m) == [m];
    RepairToolRun(tools, post, calls);
    missing := Unanswered(calls, tools);
    added := StandIns(missing);
    StandInsAre(missing);
    places := UnansweredInOrder(calls, tools);
    UnansweredIds(calls, tools);
    IdsAreCounted(missing);
    IdsAreCounted(calls);
    AnswersAreCounted(tools);
  }

  /** A history with the origin of each message: stored, or standing in for a call. */
  datatype Item = Stored(message: Message) | Added(call: ToolCall)

  function AddedItems(calls: seq<ToolCall>): seq<Item> {
    if calls == [] then [] else [Added(calls[0])] + AddedItems(calls[1..])
  }

  function Items(msgs: seq<Message>, pending: seq<ToolCall>): seq<Item> {
    if msgs == [] then AddedItems(pending)
    else (if msgs[0].role.Tool? then [] else AddedItems(pending))
         + ([Stored(msgs[0])] + Items(msgs[1..], PendingAfter(pending, msgs[0])))
  }

  function Shown(item: Item): Message {
    match item
    case Stored(m) => m
    case Added(call) => StandIn(call)
  }

  function ShownAll(items: seq<Item>): seq<Message> {
    if items == [] then [] else [Shown(items[0])] + ShownAll(items[1..])
  }

  function StoredOf(items: seq<Item>): seq<Message> {
    if items == [] then []
    else if items[0].Stored? then [items[0].message] + StoredOf(items[1..])
    else StoredOf(items[1..])
  }

  lemma {:induction false} AddedThen(calls: seq<ToolCall>, rest: seq<Item>)
    ensures StoredOf(AddedItems(calls) + rest) == StoredOf(rest)
    ensures ShownAll(AddedItems(calls) + rest) == StandIns(calls) + ShownAll(rest)
  {
    if calls == [] {
      assert AddedItems(calls) + rest == rest;
    } else {
      AddedThen(calls[1..], rest);
      var items := AddedItems(calls) + rest;
      Regroup([Added(calls[0])], AddedItems(calls[1..]), rest);
      assert items[0] == Added(calls[0]) && items[1..] == AddedItems(calls[1..]) + rest;
      Regroup([StandIn(calls[0])], StandIns(calls[1..]), ShownAll(rest));
    }
  }

  lemma StoredThen(m: Message, rest: seq<Item>)
    ensures StoredOf([Stored(m)] + rest) == [m] + StoredOf(rest)
    ensures ShownAll([Stored(m)] + rest) == [m] + ShownAll(rest)
  {
    assert ([Stored(m)] + rest)[1..] == rest;
  }

  /** The history is its items shown, and deleting the stand-ins gives back the stored messages, in
      order. */
  lemma {:induction false} DeletingStandIns(msgs: seq<Message>, pending: seq<ToolCall>)
    ensures ShownAll(Items(msgs, pending)) == RepairFrom(msgs, pending)
    ensures StoredOf(Items(msgs, pending)) == msgs
  {
    if msgs == [] {
      AddedThen(pending, []);
      assert AddedItems(pending) + [] == AddedItems(pending);
    } else {
      var m, rest, next := msgs[0], msgs[1..], PendingAfter(pending, msgs[0]);
      DeletingStandIns(rest, next);
      StoredThen(m, Items(rest, next));
      var items := [Stored(m)] + Items(rest, next);
      if m.role.Tool? {
        assert Items(msgs, pending) == items;
      } else {
        AddedThen(pending, items);
        Regroup(StandIns(pending), [m], RepairFrom(rest, next));
      }
    }
  }

  // ---- repairing twice ----

  lemma {:induction false} StandInsNeedNoMore(calls: seq<ToolCall>, rest: seq<Message>)
    requires rest == [] || !rest[0].role.Tool?
    ensures RepairFrom(StandIns(calls) + rest, calls) == StandIns(calls) + Repair(rest)
  {
    if calls == [] {
      assert StandIns(calls) + rest == rest;
    } else {
      var m := StandIn(calls[0]);
      StandInsNeedNoMore(calls[1..], rest);
      Regroup([m], StandIns(calls[1..]), rest);
      RepairCons(m, StandIns(calls[1..]) + rest, calls);
      Regroup([m], StandIns(calls[1..]), Repair(rest));
    }
  }

  lemma {:induction false} RepairFromIdempotent(msgs: seq<Message>, pending: seq<ToolCall>)
    ensures RepairFrom(RepairFrom(msgs, pending), pending) == RepairFrom(msgs, pending)
  {
    if msgs == [] {
      StandInsNeedNoMore(pending, []);
      assert StandIns(pending) + [] == StandIns(pending);
    } else {
      var m, next := msgs[0], PendingAfter(pending, msgs[0]);
      var tail := RepairFrom(msgs[1..], next);
      RepairFromIdempotent(msgs[1..], next);
      if m.role.Tool? {
        RepairCons(m, tail, pending);
      } else {
        Regroup(StandIns(pending), [m], tail);
        StandInsNeedNoMore(pending, [m] + tail);
        RepairCons(m, tail, []);
        assert StepOutput([], m) == [m];
      }
    }
  }

  /** Repair is idempotent. */
  lemma RepairIsIdempotent(msgs: seq<Message>)
    ensures Repair(Repair(msgs)) == Repair(msgs)
  {
    RepairFromIdempotent(msgs, []);
  }
}
