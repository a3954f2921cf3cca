/** Shortening the older turns of a conversation before it is replayed. Text is a byte string, one
    char per byte, as Go's len and slicing see it. */
module Compaction {
  import opened Basics
  import opened History
  import opened Text

  const KEPT_TURNS := 2
  const COMPACT_ABOVE := 1500
  const COMPACT_KEEP := 400

  // ---- cutting text between runes ----

  predicate Continuation(b: char) {
    0x80 <= b as int < 0xC0
  }

  predicate RuneStart(b: char) {
    !Continuation(b)
  }

  /** The last rune start at or before n. */
  function Boundary(s: string, n: nat): (k: nat)
    requires n < |s|
    ensures k <= n
  {
    if n > 0 && !RuneStart(s[n]) then Boundary(s, n - 1) else n
  }

  function Clip(s: string, n: nat): (r: string)
    ensures |r| <= n && r <= s
  {
    if |s| <= n then s else s[..Boundary(s, n)]
  }

  method ClipRunes(s: string, n: nat) returns (r: string)
    ensures r == Clip(s, n)
  {
    if |s| <= n {
      return s;
    }
    var k := n;
    while k > 0 && !RuneStart(s[k])
      invariant 0 <= k <= n && Boundary(s, n) == Boundary(s, k)
    {
      k := k - 1;
    }
    return s[..k];
  }

  /** How many bytes the rune starting with b has; 0 when b starts none. */
  function RuneLength(b: char): nat {
    var c := b as int;
    if c < 0x80 then 1
    else if 0xC0 <= c < 0xE0 then 2
    else if 0xE0 <= c < 0xF0 then 3
    else if 0xF0 <= c < 0xF8 then 4
    else 0
  }

  /** Whole runes: each start byte is followed by its continuation bytes. */
  predicate WholeRunes(s: string) {
    s == "" ||
    var n := RuneLength(s[0]);
    0 < n <= |s| && (forall i :: 1 <= i < n ==> Continuation(s[i])) && WholeRunes(s[n..])
  }

  lemma {:induction false} BoundaryInTail(s: string, k: nat, n: nat)
    requires k <= n < |s| && RuneStart(s[k])
    ensures Boundary(s, n) == k + Boundary(s[k..], n - k)
    decreases n
  {
    if n > k && !RuneStart(s[n]) {
      BoundaryInTail(s, k, n - 1);
    }
  }

  lemma {:induction false} BoundaryOfFirst(s: string, n: nat)
    requires n < |s| && forall i :: 1 <= i <= n ==> Continuation(s[i])
    ensures Boundary(s, n) == 0
  {
    if n > 0 { BoundaryOfFirst(s, n - 1); }
  }

  /** Clipping past the first rune clips the rest. */
  lemma ClipTail(s: string, k: nat, n: nat, b: nat)
    requires 0 < k <= n < |s| && b <= n - k && Boundary(s, n) == k + b && b == Boundary(s[k..], n - k)
    ensures Clip(s, n) == s[..k] + Clip(s[k..], n - k) && |Clip(s, n)| == k + |Clip(s[k..], n - k)|
  {
    assert s[..k + b] == s[..k] + s[k..][..b];
  }

  lemma RuneThenRunes(s: string, k: nat, rest: string)
    requires s != "" && k == RuneLength(s[0]) && 0 < k <= |s| && (forall i :: 1 <= i < k ==> Continuation(s[i]))
    requires WholeRunes(rest)
    ensures WholeRunes(s[..k] + rest)
  {
    var r := s[..k] + rest;
    assert r[k..] == rest;
    assert forall i :: 0 <= i < k ==> r[i] == s[i];
  }

  lemma ClipPast(s: string, k: nat, n: nat, rest: string)
    requires s != "" && WholeRunes(s) && k == RuneLength(s[0]) && k <= n < |s|
    requires rest == Clip(s[k..], n - k) && WholeRunes(rest)
    ensures WholeRunes(Clip(s, n)) && |Clip(s, n)| == k + |rest|
  {
    StartsAfterFirst(s, k, n);
    BoundaryInTail(s, k, n);
    ClipTail(s, k, n, Boundary(s[k..], n - k));
    RuneThenRunes(s, k, rest);
  }

  /** Clipped text is still whole runes, and at most three bytes short of the limit. */
  lemma {:induction false} ClipKeepsRunes(s: string, n: nat)
    requires WholeRunes(s)
    ensures WholeRunes(Clip(s, n))
    ensures |s| > n ==> n - |Clip(s, n)| <= 3
    decreases |s|
  {
    if |s| > n {
      var k := RuneLength(s[0]);
      if n < k {
        BoundaryOfFirst(s, n);
      } else {
        ClipKeepsRunes(s[k..], n - k);
        ClipPast(s, k, n, Clip(s[k..], n - k));
      }
    }
  }

  lemma StartsAfterFirst(s: string, k: nat, n: nat)
    requires s != "" && WholeRunes(s) && k == RuneLength(s[0]) && k <= n < |s|
    ensures k > 0 && RuneStart(s[k])
  {
    assert s[k..][0] == s[k];
  }

  // ---- the notes left in place of what was cut ----

  const RESULT_A := "\n\U{E2}\U{80}\U{A6} (an earlier result of "
  const RESULT_B := " characters, shortened \U{E2}\U{80}\U{94} call the tool again if you need it)"
  const CALL_A := "{\"omitted\":\"an earlier "
  const CALL_B := " call of "
  const CALL_C := " characters, decided\"}"

  function ShortResult(content: string): string {
    Clip(content, COMPACT_KEEP) + RESULT_A + Decimal(|content|) + RESULT_B
  }

  function HexDigit(d: nat): char
    requires d < 16
  {
    "0123456789abcdef"[d]
  }

  /** json.Marshal's escapes for one byte of a string. */
  function EscapeChar(c: char): (r: string)
    ensures 1 <= |r| <= 6
  {
    if c == '"' then "\\\""
    else if c == '\\' then "\\\\"
    else if c == '\n' then "\\n"
    else if c == '\r' then "\\r"
    else if c == '\t' then "\\t"
    else if c == '\U{08}' then "\\b"
    else if c == '\U{0C}' then "\\f"
    else if c as int < 0x20 || c in {'<', '>', '&'} then
      "\\u00" + [HexDigit(c as int / 16), HexDigit(c as int % 16)]
    else [c]
  }

  function Escape(s: string): (r: string)
    ensures |s| <= |r| <= 6 * |s|
  {
    if s == "" then "" else EscapeChar(s[0]) + Escape(s[1..])
  }

  /** The JSON put in place of a call's arguments of the given length. */
  function CallNote(name: string, length: nat): string {
    CALL_A + Escape(name) + CALL_B + Decimal(length) + CALL_C
  }

  // ---- compaction ----

  function CompactCall(call: ToolCall): ToolCall {
    if |call.arguments| > COMPACT_ABOVE then call.(arguments := CallNote(call.name, |call.arguments|)) else call
  }

  function CompactCalls(calls: seq<ToolCall>): (r: seq<ToolCall>)
    ensures |r| == |calls| && forall i :: 0 <= i < |calls| ==> r[i] == CompactCall(calls[i])
  {
    seq(|calls|, i requires 0 <= i < |calls| => CompactCall(calls[i]))
  }

  function CompactMessage(m: Message): Message {
    m.(content := if m.role.Tool? && |m.content| > COMPACT_ABOVE then ShortResult(m.content) else m.content,
       toolCalls := CompactCalls(m.toolCalls))
  }

  /** How many turns a history holds: a turn starts at a user's message. */
  function Turns(msgs: seq<Message>): nat {
    if msgs == [] then 0 else (if msgs[0].role.User? then 1 else 0) + Turns(msgs[1..])
  }

  /** Where the last two turns start, scanning back from i with `seen` turns found; -1 when there are
      fewer. */
  function CutFrom(msgs: seq<Message>, i: nat, seen: nat): int
    requires i <= |msgs|
  {
    if i == 0 then -1
    else if msgs[i - 1].role.User? then
      if seen + 1 == KEPT_TURNS then i - 1 else CutFrom(msgs, i - 1, seen + 1)
    else CutFrom(msgs, i - 1, seen)
  }

  function Cut(msgs: seq<Message>): int {
    CutFrom(msgs, |msgs|, 0)
  }

  function Compact(msgs: seq<Message>): (r: seq<Message>)
    ensures |r| == |msgs|
    ensures forall i :: 0 <= i < |msgs| ==> r[i] == if i < Cut(msgs) then CompactMessage(msgs[i]) else msgs[i]
  {
    seq(|msgs|, i requires 0 <= i < |msgs| => if i < Cut(msgs) then CompactMessage(msgs[i]) else msgs[i])
  }

  method CompactOne(m: Message) returns (r: Message)
    ensures r == CompactMessage(m)
  {
    r := m;
    if m.role.Tool? && |m.content| > COMPACT_ABOVE {
      var kept := ClipRunes(m.content, COMPACT_KEEP);
      r := r.(content := kept + RESULT_A + Decimal(|m.content|) + RESULT_B);
    }
    if |m.toolCalls| > 0 {
      var calls := m.toolCalls;
      for k := 0 to |calls|
        invariant |calls| == |m.toolCalls|
        invariant forall i :: 0 <= i < |calls| ==> calls[i] == if i < k then CompactCall(m.toolCalls[i]) else m.toolCalls[i]
      {
        var call := calls[k];
        if |call.arguments| > COMPACT_ABOVE {
          calls := calls[k := call.(arguments := CallNote(call.name, |call.arguments|))];
        }
      }
      assert calls == CompactCalls(m.toolCalls);
      r := r.(toolCalls := calls);
    } else {
      assert CompactCalls(m.toolCalls) == m.toolCalls;
    }
  }

  method CompactHistory(msgs: seq<Message>) returns (out: seq<Message>)
    ensures out == Compact(msgs)
    ensures forall i :: 0 <= i < |msgs| && |msgs[i].content| <= MAX_INT ==>
      CompactedTo(msgs[i], TwoTurnsAfter(msgs, i), out[i])
  {
    forall i | 0 <= i < |msgs| && |msgs[i].content| <= MAX_INT
      ensures CompactedTo(msgs[i], TwoTurnsAfter(msgs, i), Compact(msgs)[i])
    {
      CompactIs(msgs, i);
    }
    var turnsSeen, cut := 0, -1;
    var i := |msgs|;
    while i > 0
      invariant 0 <= i <= |msgs| && cut == -1 && turnsSeen < KEPT_TURNS
      invariant Cut(msgs) == CutFrom(msgs, i, turnsSeen)
    {
      i := i - 1;
      if msgs[i].role.User? {
        turnsSeen := turnsSeen + 1;
        if turnsSeen == KEPT_TURNS {
          cut := i;
          break;
        }
      }
    }
    assert cut == Cut(msgs);
    if cut <= 0 {
      assert Compact(msgs) == msgs;
      return msgs;
    }
    out := msgs;
    for k := 0 to cut
      invariant |out| == |msgs|
      invariant forall j :: 0 <= j < |msgs| ==> out[j] == if j < k then CompactMessage(msgs[j]) else msgs[j]
    {
      var m := CompactOne(out[k]);
      out := out[k := m];
    }
  }

  // ---- what stays ----

  lemma {:induction false} CutFromIsCut(msgs: seq<Message>, i: nat, seen: nat)
    requires i <= |msgs| && seen < KEPT_TURNS && Turns(msgs[i..]) == seen
    ensures var c := CutFrom(msgs, i, seen);
      -1 <= c < i && (c == -1 ==> Turns(msgs) < KEPT_TURNS)
      && (c >= 0 ==> msgs[c].role.User? && Turns(msgs[c..]) == KEPT_TURNS)
  {
    if i == 0 {
      assert msgs[0..] == msgs;
    } else {
      assert msgs[i - 1..][1..] == msgs[i..];
      if msgs[i - 1].role.User? {
        if seen + 1 < KEPT_TURNS { CutFromIsCut(msgs, i - 1, seen + 1); }
      } else {
        CutFromIsCut(msgs, i - 1, seen);
      }
    }
  }

  /** The cut is where the last two turns start, and there is one exactly when there are two turns. */
  lemma CutKeepsTwoTurns(msgs: seq<Message>)
    ensures -1 <= Cut(msgs) < |msgs| || msgs == []
    ensures Cut(msgs) < 0 <==> Turns(msgs) < KEPT_TURNS
    ensures Cut(msgs) >= 0 ==> msgs[Cut(msgs)].role.User? && Turns(msgs[Cut(msgs)..]) == KEPT_TURNS
  {
    assert msgs[|msgs|..] == [];
    CutFromIsCut(msgs, |msgs|, 0);
    if Cut(msgs) >= 0 {
      TurnsSuffix(msgs, Cut(msgs));
    }
  }

  lemma {:induction false} TurnsSuffix(msgs: seq<Message>, c: nat)
    requires c <= |msgs|
    ensures Turns(msgs) >= Turns(msgs[c..])
  {
    if c == 0 {
      assert msgs[0..] == msgs;
    } else {
      TurnsSuffix(msgs[1..], c - 1);
      assert msgs[1..][c - 1..] == msgs[c..];
    }
  }

  /** A message without the text compaction may shorten. */
  function BlankCalls(calls: seq<ToolCall>): (r: seq<ToolCall>)
    ensures |r| == |calls| && forall i :: 0 <= i < |calls| ==> r[i] == calls[i].(arguments := "")
  {
    seq(|calls|, i requires 0 <= i < |calls| => calls[i].(arguments := ""))
  }

  function Blank(m: Message): Message {
    m.(content := "", toolCalls := BlankCalls(m.toolCalls))
  }

  /** The skeleton of a history: roles, call ids and names, in order. */
  function Skeleton(msgs: seq<Message>): seq<Message> {
    if msgs == [] then [] else [Blank(msgs[0])] + Skeleton(msgs[1..])
  }

  lemma SkeletonCons(m: Message, rest: seq<Message>)
    ensures Skeleton([m] + rest) == [Blank(m)] + Skeleton(rest)
  {
    assert ([m] + rest)[1..] == rest;
  }

  lemma {:induction false} SkeletonConcat(a: seq<Message>, b: seq<Message>)
    ensures Skeleton(a + b) == Skeleton(a) + Skeleton(b)
  {
    if a == [] {
      assert a + b == b;
    } else {
      SkeletonConcat(a[1..], b);
      assert a + b == [a[0]] + (a[1..] + b);
      SkeletonCons(a[0], a[1..] + b);
      Regroup([Blank(a[0])], Skeleton(a[1..]), Skeleton(b));
    }
  }

  lemma {:induction false} SkeletonPointwise(a: seq<Message>, b: seq<Message>)
    requires |a| == |b| && forall i :: 0 <= i < |a| ==> Blank(a[i]) == Blank(b[i])
    ensures Skeleton(a) == Skeleton(b)
  {
    if a != [] { SkeletonPointwise(a[1..], b[1..]); }
  }

  lemma CompactMessageSkeleton(m: Message)
    ensures Blank(CompactMessage(m)) == Blank(m)
  {
    assert BlankCalls(CompactCalls(m.toolCalls)) == BlankCalls(m.toolCalls);
  }

  lemma CompactBlanks(msgs: seq<Message>, i: nat)
    requires i < |msgs|
    ensures Blank(Compact(msgs)[i]) == Blank(msgs[i])
  {
    CompactMessageSkeleton(msgs[i]);
  }

  /** Compaction keeps the skeleton, and everything from the last two turns on. */
  lemma CompactKeepsSkeleton(msgs: seq<Message>)
    ensures Skeleton(Compact(msgs)) == Skeleton(msgs)
    ensures forall i :: 0 <= i < |msgs| && i >= Cut(msgs) ==> Compact(msgs)[i] == msgs[i]
  {
    var once := Compact(msgs);
    forall i | 0 <= i < |msgs|
      ensures Blank(once[i]) == Blank(msgs[i])
    {
      CompactBlanks(msgs, i);
    }
    SkeletonPointwise(once, msgs);
  }

  // ---- repair sees only the skeleton ----

  lemma {:induction false} StandInsSkeleton(p: seq<ToolCall>, q: seq<ToolCall>)
    requires BlankCalls(p) == BlankCalls(q)
    ensures StandIns(p) == StandIns(q)
  {
    assert |p| == |q|;
    if p != [] {
      assert BlankCalls(p)[0] == BlankCalls(q)[0];
      BlankCallsTail(p, q);
      StandInsSkeleton(p[1..], q[1..]);
    }
  }

  lemma BlankCallsTail(p: seq<ToolCall>, q: seq<ToolCall>)
    requires BlankCalls(p) == BlankCalls(q) && p != []
    ensures |q| == |p| && p[0].id == q[0].id && p[0].name == q[0].name
    ensures BlankCalls(p[1..]) == BlankCalls(q[1..])
  {
    assert |BlankCalls(p)| == |BlankCalls(q)|;
    assert BlankCalls(p)[0] == BlankCalls(q)[0];
    assert BlankCalls(p[1..]) == BlankCalls(p)[1..];
    assert BlankCalls(q[1..]) == BlankCalls(q)[1..];
  }

  lemma {:induction false} AnswerSkeleton(p: seq<ToolCall>, q: seq<ToolCall>, id: string)
    requires BlankCalls(p) == BlankCalls(q)
    ensures BlankCalls(Answer(p, id)) == BlankCalls(Answer(q, id))
  {
    assert |BlankCalls(p)| == |BlankCalls(q)|;
    if p != [] {
      BlankCallsTail(p, q);
      AnswerSkeleton(p[1..], q[1..], id);
      if p[0].id != id {
        BlankCallsCons(p[0], Answer(p[1..], id));
        BlankCallsCons(q[0], Answer(q[1..], id));
      }
    }
  }

  lemma BlankCallsCons(c: ToolCall, rest: seq<ToolCall>)
    ensures BlankCalls([c] + rest) == [c.(arguments := "")] + BlankCalls(rest)
  {
  }

  lemma {:induction false} RepairSkeleton(a: seq<Message>, b: seq<Message>, p: seq<ToolCall>, q: seq<ToolCall>)
    requires |a| == |b| && (forall i :: 0 <= i < |a| ==> Blank(a[i]) == Blank(b[i]))
    requires BlankCalls(p) == BlankCalls(q)
    ensures Skeleton(RepairFrom(a, p)) == Skeleton(RepairFrom(b, q))
    decreases a
  {
    StandInsSkeleton(p, q);
    if a != [] {
      var m, n := a[0], b[0];
      assert Blank(m) == Blank(n);
      AnswerSkeleton(p, q, m.toolCallId);
      RepairSkeleton(a[1..], b[1..], PendingAfter(p, m), PendingAfter(q, n));
      StepSkeleton(m, n, p, q);
      SkeletonConcat(StepOutput(p, m), RepairFrom(a[1..], PendingAfter(p, m)));
      SkeletonConcat(StepOutput(q, n), RepairFrom(b[1..], PendingAfter(q, n)));
    }
  }

  lemma StepSkeleton(m: Message, n: Message, p: seq<ToolCall>, q: seq<ToolCall>)
    requires Blank(m) == Blank(n) && StandIns(p) == StandIns(q)
    ensures Skeleton(StepOutput(p, m)) == Skeleton(StepOutput(q, n))
  {
    SkeletonPointwise([m], [n]);
    SkeletonConcat(StandIns(p), [m]);
    SkeletonConcat(StandIns(q), [n]);
  }

  /** Repairing the compacted history gives the same roles, ids and names, stand-ins included, as
      repairing the original. */
  lemma RepairOfCompacted(msgs: seq<Message>)
    ensures Skeleton(Repair(Compact(msgs))) == Skeleton(Repair(msgs))
  {
    forall i | 0 <= i < |msgs|
      ensures Blank(Compact(msgs)[i]) == Blank(msgs[i])
    {
      CompactMessageSkeleton(msgs[i]);
    }
    RepairSkeleton(Compact(msgs), msgs, [], []);
  }

  // ---- shortening ----

  function Pow10(k: nat): nat {
    if k == 0 then 1 else 10 * Pow10(k - 1)
  }

  lemma {:induction false} DecimalLength(n: nat, k: nat)
    requires k > 0 && n < Pow10(k)
    ensures |Decimal(n)| <= k
  {
    if n >= 10 {
      DecimalLength(n / 10, k - 1);
    }
  }

  lemma DecimalOfInt(n: nat)
    requires n <= MAX_INT
    ensures |Decimal(n)| <= 19
  {
    assert Pow10(3) == 1000;
    assert Pow10(6) == 1000000;
    assert Pow10(9) == 1000000000;
    assert Pow10(12) == 1000000000000;
    assert Pow10(15) == 1000000000000000;
    assert Pow10(19) == 10000000000000000000;
    DecimalLength(n, 19);
  }

  lemma NoteLengths()
    ensures |RESULT_A| == 27 && |RESULT_B| == 62
    ensures |CALL_A| == 23 && |CALL_B| == 9 && |CALL_C| == 22
  {
  }

  /** A shortened result is strictly shorter, and short enough to be left alone next time. */
  lemma ResultShrinks(content: string)
    requires COMPACT_ABOVE < |content| <= MAX_INT
    ensures |ShortResult(content)| < |content| && |ShortResult(content)| <= COMPACT_ABOVE
  {
    NoteLengths();
    DecimalOfInt(|content|);
  }

  /** What the note around a tool's name takes. */
  function NoteLength(call: ToolCall): nat {
    |Escape(call.name)| + |Decimal(|call.arguments|)| + 54
  }

  /** A call's arguments are shortened, and to within the limit, exactly when the tool's escaped name
      leaves room for it. */
  lemma CallShrinksIff(call: ToolCall)
    requires COMPACT_ABOVE < |call.arguments|
    ensures |CompactCall(call).arguments| < |call.arguments| <==> NoteLength(call) < |call.arguments|
    ensures |CompactCall(call).arguments| <= COMPACT_ABOVE <==> NoteLength(call) <= COMPACT_ABOVE
  {
    NoteLengths();
  }

  /** It does for every name whose escaped form has at most 1427 bytes. */
  lemma CallShrinks(call: ToolCall)
    requires COMPACT_ABOVE < |call.arguments| <= MAX_INT && |Escape(call.name)| <= COMPACT_ABOVE - 73
    ensures |CompactCall(call).arguments| < |call.arguments| && |CompactCall(call).arguments| <= COMPACT_ABOVE
  {
    CallShrinksIff(call);
    DecimalOfInt(|call.arguments|);
  }

  // ---- compacting twice ----

  /** Lengths Go's int can hold. */
  ghost predicate Storable(m: Message) {
    |m.content| <= MAX_INT && forall i :: 0 <= i < |m.toolCalls| ==> |m.toolCalls[i].arguments| <= MAX_INT
  }

  /** The note for this call is not itself rewritten into something else. */
  predicate NoteStays(call: ToolCall) {
    |call.arguments| > COMPACT_ABOVE ==>
      var note := CallNote(call.name, |call.arguments|);
      |note| <= COMPACT_ABOVE || |note| == |call.arguments|
  }

  predicate NotesStay(m: Message) {
    forall i :: 0 <= i < |m.toolCalls| ==> NoteStays(m.toolCalls[i])
  }

  lemma CallNoteInjective(name: string, m: nat, n: nat)
    requires CallNote(name, m) == CallNote(name, n)
    ensures m == n
  {
    var a, b := CALL_A + Escape(name) + CALL_B, |CallNote(name, m)| - |CALL_C|;
    assert CallNote(name, m)[|a|..b] == Decimal(m);
    assert CallNote(name, n)[|a|..b] == Decimal(n);
    DecimalInjective(m, n);
  }

  lemma CompactCallTwice(call: ToolCall)
    ensures CompactCall(CompactCall(call)) == CompactCall(call) <==> NoteStays(call)
  {
    if |call.arguments| > COMPACT_ABOVE {
      var note := CallNote(call.name, |call.arguments|);
      if |note| > COMPACT_ABOVE && CallNote(call.name, |note|) == note {
        CallNoteInjective(call.name, |note|, |call.arguments|);
      }
    }
  }

  lemma CompactMessageTwice(m: Message)
    requires Storable(m)
    ensures CompactMessage(CompactMessage(m)) == CompactMessage(m) <==> NotesStay(m)
  {
    var once := CompactMessage(m);
    if m.role.Tool? && |m.content| > COMPACT_ABOVE { ResultShrinks(m.content); }
    assert CompactMessage(once).content == once.content;
    forall i | 0 <= i < |m.toolCalls|
      ensures CompactMessage(once).toolCalls[i] == once.toolCalls[i] <==> NoteStays(m.toolCalls[i])
    {
      CompactCallTwice(m.toolCalls[i]);
    }
    if NotesStay(m) {
      assert CompactMessage(once).toolCalls == once.toolCalls;
    }
  }

  lemma {:induction false} CutFromSkeleton(a: seq<Message>, b: seq<Message>, i: nat, seen: nat)
    requires |a| == |b| && i <= |a| && forall k :: 0 <= k < |a| ==> a[k].role == b[k].role
    ensures CutFrom(a, i, seen) == CutFrom(b, i, seen)
  {
    if i > 0 {
      CutFromSkeleton(a, b, i - 1, seen + 1);
      CutFromSkeleton(a, b, i - 1, seen);
    }
  }

  /** Compacting twice is compacting once exactly when every note left in the older turns either fits
      the limit or happens to have the length of the arguments it replaced. */
  lemma CompactTwice(msgs: seq<Message>)
    requires forall i :: 0 <= i < |msgs| ==> Storable(msgs[i])
    ensures Compact(Compact(msgs)) == Compact(msgs) <==>
      forall i :: 0 <= i < |msgs| && i < Cut(msgs) ==> NotesStay(msgs[i])
  {
    var once := Compact(msgs);
    CutFromSkeleton(once, msgs, |msgs|, 0);
    forall i | 0 <= i < |msgs|
      ensures Compact(once)[i] == once[i] <==> (i < Cut(msgs) ==> NotesStay(msgs[i]))
    {
      CompactMessageTwice(msgs[i]);
    }
    if forall i :: 0 <= i < |msgs| && i < Cut(msgs) ==> NotesStay(msgs[i]) {
      assert Compact(once) == once;
    }
  }

  /** In particular for tool names of up to 200 bytes. */
  lemma ShortNamesCompactOnce(msgs: seq<Message>)
    requires forall i :: 0 <= i < |msgs| ==> Storable(msgs[i])
    requires forall i, k :: 0 <= i < |msgs| && 0 <= k < |msgs[i].toolCalls| ==> |msgs[i].toolCalls[k].name| <= 200
    ensures Compact(Compact(msgs)) == Compact(msgs)
  {
    forall i | 0 <= i < |msgs|
      ensures NotesStay(msgs[i])
    {
      forall k | 0 <= k < |msgs[i].toolCalls|
        ensures NoteStays(msgs[i].toolCalls[k])
      {
        var call := msgs[i].toolCalls[k];
        if |call.arguments| > COMPACT_ABOVE { CallShrinks(call); }
      }
    }
    CompactTwice(msgs);
  }

  // ---- what compaction makes of each message, told from the messages ----

  /** Two of the developer's messages come after message i. */
  ghost predicate TwoTurnsAfter(msgs: seq<Message>, i: int) {
    exists j, k :: i < j < k < |msgs| && IsUsers(msgs, j) && IsUsers(msgs, k)
  }

  predicate IsUsers(msgs: seq<Message>, j: int) {
    0 <= j < |msgs| && msgs[j].role.User?
  }

  /** Scanning back from i with one turn found or none, the cut is at the next developer's message, or the
      one before that. */
  lemma {:induction false} CutFromIs(msgs: seq<Message>, i: nat, seen: nat, c: int)
    requires i <= |msgs| && seen < KEPT_TURNS && c == CutFrom(msgs, i, seen)
    ensures c >= 0 ==> c < i && IsUsers(msgs, c)
    ensures seen == 1 ==> forall j :: c < j < i ==> !IsUsers(msgs, j)
    ensures seen == 0 && c >= 0 ==>
      exists k :: c < k < i && IsUsers(msgs, k) && forall j :: c < j < i && IsUsers(msgs, j) ==> j == k
    ensures seen == 0 && c < 0 ==> forall j, k :: 0 <= j < k < i ==> !(IsUsers(msgs, j) && IsUsers(msgs, k))
  {
    if i > 0 {
      if msgs[i - 1].role.User? {
        if seen == 0 {
          CutFromIs(msgs, i - 1, 1, c);
          assert IsUsers(msgs, i - 1);
        }
      } else {
        CutFromIs(msgs, i - 1, seen, c);
      }
    }
  }

  /** Compaction reaches exactly the messages with two turns after them. */
  lemma BeforeCutIff(msgs: seq<Message>, i: nat)
    requires i < |msgs|
    ensures i < Cut(msgs) <==> TwoTurnsAfter(msgs, i)
  {
    var c := Cut(msgs);
    CutFromIs(msgs, |msgs|, 0, c);
    if i < c {
      var k :| c < k < |msgs| && IsUsers(msgs, k);
      assert IsUsers(msgs, c);
    }
  }

  /** Text spells the number n: digits, the first of them no zero but for 0 itself. */
  ghost predicate Spells(text: string, n: nat) {
    && text != "" && (forall i :: 0 <= i < |text| ==> '0' <= text[i] <= '9')
    && (|text| > 1 ==> text[0] != '0') && Number(text) == n
  }

  lemma {:induction false} DecimalStarts(n: nat)
    ensures n > 0 ==> Decimal(n)[0] != '0'
  {
    if n >= 10 { DecimalStarts(n / 10); }
  }

  lemma DecimalSpells(n: nat)
    ensures Spells(Decimal(n), n)
  {
    DecimalDigits(n);
    DecimalStarts(n);
    NumberOfDecimal(n);
  }

  /** k bytes of text are kept: at most 400, ending where a rune starts, and no later one does up to there. */
  ghost predicate KeepsRunes(text: string, k: nat) {
    && k <= 400 < |text|
    && (k > 0 ==> !(0x80 <= text[k] as int < 0xC0))
    && forall j :: k < j <= 400 ==> 0x80 <= text[j] as int < 0xC0
  }

  lemma {:induction false} BoundaryKeeps(s: string, n: nat)
    requires n < |s|
    ensures Boundary(s, n) > 0 ==> !(0x80 <= s[Boundary(s, n)] as int < 0xC0)
    ensures forall j :: Boundary(s, n) < j <= n ==> 0x80 <= s[j] as int < 0xC0
  {
    if n > 0 && !RuneStart(s[n]) { BoundaryKeeps(s, n - 1); }
  }

  lemma {:induction false} RunesEndAtStart(s: string, j: nat)
    requires WholeRunes(s) && j < |s| && WholeRunes(s[..j])
    ensures RuneStart(s[j])
    decreases j
  {
    if j > 0 {
      var n := RuneLength(s[0]);
      assert s[..j][0] == s[0] && s[..j][n..] == s[n..][..j - n];
      RunesEndAtStart(s[n..], j - n);
      assert s[n..][j - n] == s[j];
    }
  }

  /** In valid text that is the longest part of at most 400 bytes that is whole runes. */
  lemma KeptIsLongest(text: string, k: nat)
    requires WholeRunes(text) && KeepsRunes(text, k)
    ensures WholeRunes(text[..k])
    ensures forall j :: k < j <= 400 ==> !WholeRunes(text[..j])
  {
    BoundaryIs(text, 400, k);
    ClipKeepsRunes(text, 400);
    forall j | k < j <= 400
      ensures !WholeRunes(text[..j])
    {
      if WholeRunes(text[..j]) { RunesEndAtStart(text, j); }
    }
  }

  lemma {:induction false} BoundaryIs(s: string, n: nat, k: nat)
    requires k <= n < |s| && (k > 0 ==> RuneStart(s[k])) && forall j :: k < j <= n ==> !RuneStart(s[j])
    ensures Boundary(s, n) == k
  {
    if k < n { BoundaryIs(s, n - 1, k); }
  }

  /** A tool's result with only its beginning left, and a note that tells its length. */
  ghost predicate ResultCut(was: string, now: string) {
    && |now| < |was| && |now| <= 1500
    && exists k: nat, digits :: KeepsRunes(was, k) && Spells(digits, |was|) && now == was[..k] + ResultNote(digits)
  }

  function ResultNote(digits: string): string {
    "\n\U{E2}\U{80}\U{A6} (an earlier result of " + digits +
    " characters, shortened \U{E2}\U{80}\U{94} call the tool again if you need it)"
  }

  lemma NoteAfter(kept: string, a: string, digits: string, b: string)
    ensures kept + a + digits + b == kept + (a + digits + b)
  {
  }

  lemma NoteIs(digits: string)
    ensures RESULT_A + digits + RESULT_B == ResultNote(digits)
  {
  }

  lemma ResultIsCut(was: string)
    requires 1500 < |was| <= MAX_INT
    ensures ResultCut(was, ShortResult(was))
  {
    var k, digits := Boundary(was, 400), Decimal(|was|);
    ResultShrinks(was);
    BoundaryKeeps(was, 400);
    DecimalSpells(|was|);
    NoteIs(digits);
    NoteAfter(was[..k], RESULT_A, digits, RESULT_B);
    assert ShortResult(was) == was[..k] + ResultNote(digits);
  }

  /** A call's arguments replaced by a note that names the tool and tells their length. */
  ghost predicate ArgumentsNoted(was: ToolCall, now: string) {
    exists digits :: Spells(digits, |was.arguments|) && now ==
      "{\"omitted\":\"an earlier " + Escape(was.name) + " call of " + digits + " characters, decided\"}"
  }

  lemma CallIsNoted(was: ToolCall)
    ensures ArgumentsNoted(was, CallNote(was.name, |was.arguments|))
  {
    DecimalSpells(|was.arguments|);
  }

  /** The message as compaction leaves it: a long tool result cut and long arguments noted if two turns come
      after it, and nothing else changed. */
  ghost predicate CompactedTo(was: Message, older: bool, now: Message) {
    && now.role == was.role && now.toolCallId == was.toolCallId && now.toolName == was.toolName
    && (if older && was.role.Tool? && |was.content| > 1500 then ResultCut(was.content, now.content)
        else now.content == was.content)
    && |now.toolCalls| == |was.toolCalls|
    && forall c :: 0 <= c < |was.toolCalls| ==> CallCompactedTo(was.toolCalls[c], older, now.toolCalls[c])
  }

  ghost predicate CallCompactedTo(was: ToolCall, older: bool, now: ToolCall) {
    && now.id == was.id && now.name == was.name
    && (if older && |was.arguments| > 1500 then ArgumentsNoted(was, now.arguments) else now.arguments == was.arguments)
  }

  lemma MessageIsCompacted(was: Message)
    requires |was.content| <= MAX_INT
    ensures CompactedTo(was, true, CompactMessage(was))
  {
    if was.role.Tool? && |was.content| > 1500 { ResultIsCut(was.content); }
    forall c | 0 <= c < |was.toolCalls|
      ensures CallCompactedTo(was.toolCalls[c], true, CompactMessage(was).toolCalls[c])
    {
      CallIsNoted(was.toolCalls[c]);
    }
  }

  /** What every message becomes. */
  lemma CompactIs(msgs: seq<Message>, i: nat)
    requires i < |msgs| && |msgs[i].content| <= MAX_INT
    ensures CompactedTo(msgs[i], TwoTurnsAfter(msgs, i), Compact(msgs)[i])
  {
    BeforeCutIff(msgs, i);
    MessageIsCompacted(msgs[i]);
  }

  // ---- the name in the note ----

  /** What a JSON reader makes of the inside of a string; it refuses a bare quote or control character. */
  function Unescape(r: string): Option<string> {
    if r == "" then Some("")
    else if r[0] == '\\' && |r| > 5 && r[1] == 'u' then
      Prepend((16 * HexValue(r[4]) + HexValue(r[5])) as char, Unescape(r[6..]))
    else if r[0] == '\\' && |r| > 1 then Prepend(Unescaped(r[1]), Unescape(r[2..]))
    else if r[0] == '\\' || r[0] == '"' || r[0] as int < 0x20 then None
    else Prepend(r[0], Unescape(r[1..]))
  }

  function Prepend(c: char, rest: Option<string>): Option<string> {
    if rest.None? then None else Some([c] + rest.value)
  }

  function Unescaped(c: char): char {
    if c == 'n' then '\n' else if c == 'r' then '\r' else if c == 't' then '\t'
    else if c == 'b' then '\U{08}' else if c == 'f' then '\U{0C}' else c
  }

  function HexValue(c: char): (v: nat)
    ensures v < 16
  {
    if '0' <= c <= '9' then (c as int - '0' as int) else if 'a' <= c <= 'f' then (c as int - 'a' as int + 10) else 0
  }

  lemma HexReads(d: nat)
    requires d < 16
    ensures HexValue(HexDigit(d)) == d
  {
  }

  lemma OneReads(c: char, rest: string)
    requires c != '\\' && c != '"' && c as int >= 0x20
    ensures Unescape([c] + rest) == Prepend(c, Unescape(rest))
  {
    assert ([c] + rest)[1..] == rest;
  }

  lemma TwoReads(e: string, rest: string)
    requires |e| == 2 && e[0] == '\\' && e[1] != 'u'
    ensures Unescape(e + rest) == Prepend(Unescaped(e[1]), Unescape(rest))
  {
    assert (e + rest)[2..] == rest;
  }

  lemma SixReads(e: string, rest: string)
    requires |e| == 6 && e[0] == '\\' && e[1] == 'u'
    ensures Unescape(e + rest) == Prepend((16 * HexValue(e[4]) + HexValue(e[5])) as char, Unescape(rest))
  {
    assert (e + rest)[6..] == rest;
  }

  lemma EscapeCharReads(c: char, rest: string)
    ensures Unescape(EscapeChar(c) + rest) == Prepend(c, Unescape(rest))
  {
    var e := EscapeChar(c);
    if |e| == 6 {
      HexReads(c as int / 16);
      HexReads(c as int % 16);
      SixReads(e, rest);
    } else if |e| == 2 {
      TwoReads(e, rest);
    } else {
      OneReads(c, rest);
    }
  }

  /** The escaped name is read back as the name. */
  lemma {:induction false} EscapeReadsBack(s: string)
    ensures Unescape(Escape(s)) == Some(s)
  {
    if s != "" {
      EscapeReadsBack(s[1..]);
      EscapeCharReads(s[0], Escape(s[1..]));
      assert s == [s[0]] + s[1..];
    }
  }

  // ---- a name too long for its note ----

  function Letters(n: nat): string {
    seq(n, i => 'a')
  }

  function LongCall(): ToolCall {
    ToolCall("c", Letters(1501), Letters(1501))
  }

  /** A call, two turns ago. */
  function OlderCall(call: ToolCall): seq<Message> {
    [Message(Assistant, "", [call], "", ""), Message(User, "", [], "", ""), Message(User, "", [], "", "")]
  }

  lemma OlderCallCut(msgs: seq<Message>)
    requires |msgs| == 3 && msgs[1].role.User? && msgs[2].role.User?
    ensures Cut(msgs) == 1
  {
    assert CutFrom(msgs, 2, 1) == 1;
  }

  lemma OlderCallTwice(call: ToolCall, msgs: seq<Message>)
    requires msgs == OlderCall(call) && |call.arguments| <= MAX_INT && !NoteStays(call)
    ensures Compact(Compact(msgs)) != Compact(msgs)
  {
    OlderCallCut(msgs);
    assert msgs[0].toolCalls[0] == call;
    assert !NotesStay(msgs[0]);
    CompactTwice(msgs);
  }

  lemma LongNote(call: ToolCall)
    requires |call.name| > COMPACT_ABOVE && |call.arguments| == COMPACT_ABOVE + 1
    ensures |CompactCall(call).arguments| > |call.arguments| && !NoteStays(call)
  {
    NoteLengths();
  }

  /** For a tool whose name has 1501 letters the note is longer than the arguments it replaces, and
      compacting again writes another. */
  lemma LongNameCompactsTwice()
    ensures |CompactCall(LongCall()).arguments| > |LongCall().arguments|
    ensures Compact(Compact(OlderCall(LongCall()))) != Compact(OlderCall(LongCall()))
  {
    LongNote(LongCall());
    OlderCallTwice(LongCall(), OlderCall(LongCall()));
  }
}
