/**
 * The conversation view of one session log: the `POST` handler reads the
 * JSON-lines file, keeps the user messages, agent messages and agent
 * reasonings among its `event_msg` records, orders them by timestamp (records
 * whose timestamp does not parse go last, ties keep file order) and groups
 * them into turns.
 */
module Conversation {
  import opened Wrappers
  import opened Text
  import opened Json
  import opened FileSystem
  import opened Sorting

  datatype EntryKind = UserMessage | AgentMessage | AgentReasoning

  /** A `SessionConversationEntry`. */
  datatype Entry = Entry(timestamp: string, kind: EntryKind, text: string)

  /** A `SessionConversationTurn`: an optional user message, the reasonings after it, an optional reply. */
  datatype Turn = Turn(user: Option<Entry>, reasonings: seq<Entry>, agent: Option<Entry>)

  /** The response: `{ turns }` with status 200, or `{ error }` with the given status. */
  datatype ConversationResponse =
    | Turns(turns: seq<Turn>)
    | ErrorResponse(status: nat, error: string)

  const FailedMessage := "Failed to load session conversation"

  /** The payload types the view keeps. */
  function KindOf(t: Option<Json>): Option<EntryKind> {
    match t
    case Some(JStr(s)) =>
      if s == "user_message" then Some(UserMessage)
      else if s == "agent_message" then Some(AgentMessage)
      else if s == "agent_reasoning" then Some(AgentReasoning)
      else None
    case _ => None
  }

  /** The payload field a kept record takes its text from: `text` for a reasoning, `message` otherwise. */
  function TextField(kind: EntryKind): string {
    if kind == AgentReasoning then "text" else "message"
  }

  /** `typeof v === 'string' ? v : fallback`. */
  function StringOr(v: Option<Json>, fallback: string): string {
    match v
    case Some(JStr(s)) => s
    case _ => fallback
  }

  /**
   * The entry an `event_msg` record yields, or `None` when it is skipped: the
   * payload must carry one of the kept types (only an object can, so the
   * `!payload` guard is subsumed) and the matching text field must be a string.
   */
  function EntryOf(parsed: Json): (r: Option<Entry>)
    ensures var payload := Get(parsed, "payload");
      var kind := KindOf(GetOpt(payload, "type"));
      r.Some? <==>
        && Get(parsed, "type") == Some(JStr("event_msg"))
        && kind.Some?
        && GetOpt(payload, TextField(kind.value)).Some?
        && GetOpt(payload, TextField(kind.value)).value.JStr?
    ensures r.Some? ==> parsed.JObj? && IsObject(Get(parsed, "payload"))
    ensures r.Some? ==>
              var payload := Get(parsed, "payload");
              && Some(r.value.kind) == KindOf(GetOpt(payload, "type"))
              && GetOpt(payload, TextField(r.value.kind)) == Some(JStr(r.value.text))
              && r.value.timestamp == StringOr(Get(parsed, "timestamp"), "")
  {
    if Get(parsed, "type") != Some(JStr("event_msg")) then None
    else
      var payload := Get(parsed, "payload");
      match KindOf(GetOpt(payload, "type"))
      case None => None
      case Some(kind) =>
        match GetOpt(payload, TextField(kind))
        case Some(JStr(text)) => Some(Entry(StringOr(Get(parsed, "timestamp"), ""), kind, text))
        case _ => None
  }

  /** What one line does to the extraction loop as written. */
  datatype LineOutcome = Skip | Keep(entry: Entry) | ReadOfNull

  /**
   * One iteration of the extraction loop as written: a blank or unparsable
   * line is skipped, but a line that parses to `null` reaches `parsed.type`,
   * which throws a `TypeError`.
   */
  function LineOutcomeAsWritten(rt: Runtime, line: string): LineOutcome {
    var trimmed := Trim(line);
    if trimmed == "" then Skip
    else
      match rt.parse(trimmed)
      case None => Skip
      case Some(JNull) => ReadOfNull
      case Some(parsed) => if EntryOf(parsed).Some? then Keep(EntryOf(parsed).value) else Skip
  }

  /** One iteration of the extraction loop with a `null` record skipped like any other non-event. */
  function EventOf(rt: Runtime, line: string): (r: Option<Entry>)
    ensures r.Some? ==> !IsBlank(line) && rt.parse(Trim(line)).Some?
    ensures r.Some? ==> EntryOf(rt.parse(Trim(line)).value) == r
  {
    var trimmed := Trim(line);
    TrimEmptyIffBlank(line);
    if trimmed == "" then None
    else
      match rt.parse(trimmed)
      case None => None
      case Some(parsed) => EntryOf(parsed)
  }

  /** The two agree on every line except one that parses to `null`. */
  lemma LineOutcomesAgree(rt: Runtime, line: string)
    ensures LineOutcomeAsWritten(rt, line) == ReadOfNull <==> !IsBlank(line) && rt.parse(Trim(line)) == Some(JNull)
    ensures LineOutcomeAsWritten(rt, line) != ReadOfNull ==>
              (LineOutcomeAsWritten(rt, line) == Skip <==> EventOf(rt, line).None?)
    ensures LineOutcomeAsWritten(rt, line).Keep? ==> EventOf(rt, line) == Some(LineOutcomeAsWritten(rt, line).entry)
    ensures rt.parse(Trim(line)) == Some(JNull) ==> EventOf(rt, line).None?
  {
    TrimEmptyIffBlank(line);
  }

  /** The entries of `lines` in file order, as written: `None` when the loop throws. */
  function ExtractAsWritten(rt: Runtime, lines: seq<string>): Option<seq<Entry>>
    decreases |lines|
  {
    if lines == [] then Some([])
    else
      match ExtractAsWritten(rt, lines[..|lines| - 1])
      case None => None
      case Some(events) =>
        match LineOutcomeAsWritten(rt, lines[|lines| - 1])
        case Skip => Some(events)
        case Keep(e) => Some(events + [e])
        case ReadOfNull => None
  }

  /** The entries of `lines` in file order, `null` records skipped. */
  function Extract(rt: Runtime, lines: seq<string>): seq<Entry>
    decreases |lines|
  {
    if lines == [] then []
    else
      var events := Extract(rt, lines[..|lines| - 1]);
      match EventOf(rt, lines[|lines| - 1])
      case None => events
      case Some(e) => events + [e]
  }

  /** A non-blank line that parses to `null`. */
  predicate IsNullLine(rt: Runtime, line: string) {
    !IsBlank(line) && rt.parse(Trim(line)) == Some(JNull)
  }

  /** Some line parses to `null`. */
  predicate HasNullLine(rt: Runtime, lines: seq<string>)
    decreases |lines|
  {
    lines != [] && (HasNullLine(rt, lines[..|lines| - 1]) || IsNullLine(rt, lines[|lines| - 1]))
  }

  /** The loop as written throws exactly when some line parses to `null`, and otherwise agrees with `Extract`. */
  lemma {:induction false} ExtractAsWrittenThrowsOnNull(rt: Runtime, lines: seq<string>)
    ensures ExtractAsWritten(rt, lines).None? <==> HasNullLine(rt, lines)
    ensures ExtractAsWritten(rt, lines).Some? ==> ExtractAsWritten(rt, lines).value == Extract(rt, lines)
    decreases |lines|
  {
    if lines != [] {
      var init := lines[..|lines| - 1];
      var last := lines[|lines| - 1];
      ExtractAsWrittenThrowsOnNull(rt, init);
      LineOutcomesAgree(rt, last);
    }
  }

  /** Extraction distributes over concatenation: every line contributes on its own. */
  lemma {:induction false} ExtractAppend(rt: Runtime, a: seq<string>, b: seq<string>)
    ensures Extract(rt, a + b) == Extract(rt, a) + Extract(rt, b)
    decreases |b|
  {
    if b != [] {
      var b' := b[..|b| - 1];
      ExtractAppend(rt, a, b');
      assert (a + b)[..|a + b| - 1] == a + b';
      assert (a + b)[|a + b| - 1] == b[|b| - 1];
    } else {
      assert a + b == a;
    }
  }

  /** A line that parses to `null` contributes nothing: the corrected loop skips it. */
  lemma NullLineSkipped(rt: Runtime, before: seq<string>, line: string, after: seq<string>)
    requires rt.parse(Trim(line)) == Some(JNull)
    ensures Extract(rt, before + [line] + after) == Extract(rt, before) + Extract(rt, after)
  {
    ExtractAppend(rt, before + [line], after);
    ExtractAppend(rt, before, [line]);
    LineOutcomesAgree(rt, line);
    assert [line][..0] == [];
  }

  /** Every extracted entry comes from an `event_msg` line of the file. */
  lemma {:induction false} ExtractFromLines(rt: Runtime, lines: seq<string>)
    ensures |Extract(rt, lines)| <= |lines|
    ensures forall e | e in Extract(rt, lines) :: exists i | 0 <= i < |lines| :: EventOf(rt, lines[i]) == Some(e)
    decreases |lines|
  {
    if lines != [] {
      var init := lines[..|lines| - 1];
      ExtractFromLines(rt, init);
      forall e | e in Extract(rt, lines)
        ensures exists i | 0 <= i < |lines| :: EventOf(rt, lines[i]) == Some(e)
      {
        if e in Extract(rt, init) {
          var i :| 0 <= i < |init| && EventOf(rt, init[i]) == Some(e);
          assert lines[i] == init[i];
        } else {
          assert EventOf(rt, lines[|lines| - 1]) == Some(e);
        }
      }
    }
  }

  /** One more line of the file extends the extraction by that line's entry, if any. */
  lemma ExtractPrefix(rt: Runtime, lines: seq<string>, i: nat)
    requires i < |lines|
    ensures Extract(rt, lines[..i + 1]) == Extract(rt, lines[..i]) + OptEntry(EventOf(rt, lines[i]))
  {
    assert lines[..i + 1][..i] == lines[..i];
    assert lines[..i + 1][i] == lines[i];
  }

  /** The extraction loop (`for (const line of lines)`), with `null` records skipped. */
  method ExtractEvents(rt: Runtime, content: string) returns (events: seq<Entry>)
    ensures events == Extract(rt, SplitLines(content))
  {
    var lines := SplitLines(content);
    events := [];
    var i := 0;
    while i < |lines|
      invariant 0 <= i <= |lines|
      invariant events == Extract(rt, lines[..i])
    {
      ExtractPrefix(rt, lines, i);
      var e := EventOf(rt, lines[i]);
      if e.Some? {
        events := events + [e.value];
      }
      i := i + 1;
    }
    assert lines[..|lines|] == lines;
  }

  /** An entry paired with its position in file order. */
  datatype Indexed = Indexed(entry: Entry, index: nat)

  /**
   * The comparator of the chronological sort, as "strictly before": entries
   * whose timestamp parses come first, by time; equal times and unparsable
   * timestamps keep file order.
   */
  function Before(rt: Runtime, a: Indexed, b: Indexed): bool {
    var ta := rt.time(JStr(a.entry.timestamp));
    var tb := rt.time(JStr(b.entry.timestamp));
    if ta.None? && tb.None? then a.index < b.index
    else if ta.None? then false
    else if tb.None? then true
    else if ta.value == tb.value then a.index < b.index
    else ta.value < tb.value
  }

  /** The comparator is consistent: a strict order on indexed entries. */
  lemma BeforeIsStrictOrder(rt: Runtime)
    ensures StrictOrder((a: Indexed, b: Indexed) => Before(rt, a, b))
  {
    var lt := (a: Indexed, b: Indexed) => Before(rt, a, b);
    forall a: Indexed, b: Indexed, c: Indexed | lt(a, b) && lt(b, c) ensures lt(a, c) {
      assert Before(rt, a, b) && Before(rt, b, c);
    }
  }

  /** `events.map((event, index) => ({ event, index }))`. */
  function WithIndex(events: seq<Entry>): (r: seq<Indexed>)
    ensures |r| == |events|
    ensures forall i | 0 <= i < |r| :: r[i] == Indexed(events[i], i)
  {
    seq(|events|, i requires 0 <= i < |events| => Indexed(events[i], i))
  }

  /** `.map((entry) => entry.event)`. */
  function Entries(s: seq<Indexed>): (r: seq<Entry>)
    ensures |r| == |s|
    ensures forall i | 0 <= i < |r| :: r[i] == s[i].entry
  {
    seq(|s|, i requires 0 <= i < |s| => s[i].entry)
  }

  /** The indexed entries in chronological order. */
  function SortedIndexed(rt: Runtime, events: seq<Entry>): seq<Indexed> {
    Sort(WithIndex(events), (a: Indexed, b: Indexed) => Before(rt, a, b))
  }

  /** `chronologicalEvents`. */
  function Chronological(rt: Runtime, events: seq<Entry>): seq<Entry> {
    Entries(SortedIndexed(rt, events))
  }

  /**
   * The chronological order is a permutation of the file order in which an
   * entry with an unparsable timestamp is never followed by a parsable one,
   * times never decrease, and entries the times do not separate keep file order.
   */
  lemma ChronologicalOrder(rt: Runtime, events: seq<Entry>)
    ensures multiset(SortedIndexed(rt, events)) == multiset(WithIndex(events))
    ensures var s := SortedIndexed(rt, events);
      forall i, j | 0 <= i < j < |s| ::
        var ti := rt.time(JStr(s[i].entry.timestamp));
        var tj := rt.time(JStr(s[j].entry.timestamp));
        && (ti.None? ==> tj.None?)
        && (ti.Some? && tj.Some? ==> ti.value <= tj.value)
        && ((ti.None? && tj.None?) || (ti.Some? && tj.Some? && ti.value == tj.value) ==> s[i].index <= s[j].index)
  {
    var lt := (a: Indexed, b: Indexed) => Before(rt, a, b);
    BeforeIsStrictOrder(rt);
    SortSorted(WithIndex(events), lt);
    var s := SortedIndexed(rt, events);
    assert SortedBy(s, lt);
    forall i, j | 0 <= i < j < |s|
      ensures !Before(rt, s[j], s[i])
    {
      assert !lt(s[j], s[i]);
    }
  }

  /** Projecting to entries commutes with concatenation. */
  lemma EntriesAppend(a: seq<Indexed>, b: seq<Indexed>)
    ensures Entries(a + b) == Entries(a) + Entries(b)
  {
  }

  /** Two arrangements of the same indexed entries carry the same entries. */
  lemma {:induction false} EntriesOfPermutation(s: seq<Indexed>, w: seq<Indexed>)
    requires multiset(s) == multiset(w)
    ensures multiset(Entries(s)) == multiset(Entries(w))
    decreases |s|
  {
    if s != [] {
      var x := s[0];
      assert x in multiset(w);
      var k :| 0 <= k < |w| && w[k] == x;
      var rest := w[..k] + w[k + 1..];
      assert w == w[..k] + [x] + w[k + 1..];
      assert s == [x] + s[1..];
      assert multiset(w) == multiset(w[..k]) + multiset{x} + multiset(w[k + 1..]);
      assert multiset(rest) == multiset(w[..k]) + multiset(w[k + 1..]);
      assert multiset(s) == multiset{x} + multiset(s[1..]);
      assert multiset(s[1..]) == multiset(s) - multiset{x};
      assert multiset(rest) == multiset(w) - multiset{x};
      EntriesOfPermutation(s[1..], rest);
      EntriesAppend([x], s[1..]);
      EntriesAppend(w[..k] + [x], w[k + 1..]);
      EntriesAppend(w[..k], [x]);
      EntriesAppend(w[..k], w[k + 1..]);
    }
  }

  /** The sort keeps every entry exactly once. */
  lemma ChronologicalIsPermutation(rt: Runtime, events: seq<Entry>)
    ensures multiset(Chronological(rt, events)) == multiset(events)
  {
    var w := WithIndex(events);
    assert Entries(w) == events;
    EntriesOfPermutation(SortedIndexed(rt, events), w);
  }

  /** The last turn with `e` appended to its reasonings. */
  function AddReasoning(t: Turn, e: Entry): Turn {
    t.(reasonings := t.reasonings + [e])
  }

  /** One iteration of the grouping loop. */
  function Step(turns: seq<Turn>, e: Entry): (r: seq<Turn>)
    ensures |turns| <= |r| <= |turns| + 1
  {
    match e.kind
    case UserMessage => turns + [Turn(Some(e), [], None)]
    case AgentReasoning =>
      if turns == [] then [Turn(None, [e], None)]
      else turns[|turns| - 1 := AddReasoning(turns[|turns| - 1], e)]
    case AgentMessage =>
      if turns == [] || turns[|turns| - 1].agent.Some? then turns + [Turn(None, [], Some(e))]
      else turns[|turns| - 1 := turns[|turns| - 1].(agent := Some(e))]
  }

  /** The turns of `events`, grouped in order. */
  function Group(events: seq<Entry>): seq<Turn>
    decreases |events|
  {
    if events == [] then [] else Step(Group(events[..|events| - 1]), events[|events| - 1])
  }

  /** An optional entry as a sequence of at most one. */
  function OptEntry(o: Option<Entry>): seq<Entry> {
    if o.Some? then [o.value] else []
  }

  /** The entries a turn holds, user message first. */
  function TurnEntries(t: Turn): seq<Entry> {
    OptEntry(t.user) + t.reasonings + OptEntry(t.agent)
  }

  /** The entries of all turns, turn by turn. */
  function AllEntries(turns: seq<Turn>): seq<Entry>
    decreases |turns|
  {
    if turns == [] then [] else AllEntries(turns[..|turns| - 1]) + TurnEntries(turns[|turns| - 1])
  }

  /** Each slot of a turn holds entries of its own kind, and no turn is empty. */
  predicate WellFormed(t: Turn) {
    && (t.user.Some? ==> t.user.value.kind == UserMessage)
    && (forall k | 0 <= k < |t.reasonings| :: t.reasonings[k].kind == AgentReasoning)
    && (t.agent.Some? ==> t.agent.value.kind == AgentMessage)
    && TurnEntries(t) != []
  }

  /** The number of turns with a user message. */
  function UserTurns(turns: seq<Turn>): nat
    decreases |turns|
  {
    if turns == [] then 0 else UserTurns(turns[..|turns| - 1]) + (if turns[|turns| - 1].user.Some? then 1 else 0)
  }

  /** The number of user messages. */
  function UserEvents(events: seq<Entry>): nat
    decreases |events|
  {
    if events == [] then 0 else UserEvents(events[..|events| - 1]) + (if events[|events| - 1].kind == UserMessage then 1 else 0)
  }

  /** The turn invariant: well-formed turns, and every turn after the first opens with a user message or a reply. */
  predicate TurnsInvariant(turns: seq<Turn>) {
    && (forall i | 0 <= i < |turns| :: WellFormed(turns[i]))
    && (forall i | 0 < i < |turns| :: turns[i].user.Some? || turns[i].agent.Some?)
  }

  /** A step that opens a turn leaves the earlier turns alone; one that does not only rewrites the last. */
  lemma StepShape(turns: seq<Turn>, e: Entry)
    ensures var r := Step(turns, e);
      && (|r| == |turns| + 1 ==> r[..|turns|] == turns)
      && (|r| == |turns| ==> turns != [] && r[..|r| - 1] == turns[..|turns| - 1])
  {
  }

  /** The entries of turns whose last turn is replaced. */
  lemma AllEntriesReplaceLast(turns: seq<Turn>, t: Turn)
    requires turns != []
    ensures AllEntries(turns[|turns| - 1 := t]) == AllEntries(turns[..|turns| - 1]) + TurnEntries(t)
  {
    var r := turns[|turns| - 1 := t];
    assert r[..|r| - 1] == turns[..|turns| - 1];
  }

  /** The entries of turns with one more turn at the end. */
  lemma AllEntriesSnoc(turns: seq<Turn>, t: Turn)
    ensures AllEntries(turns + [t]) == AllEntries(turns) + TurnEntries(t)
  {
    assert (turns + [t])[..|turns|] == turns;
  }

  /** A reasoning added to a turn is one more entry of that turn. */
  lemma AddReasoningEntries(t: Turn, e: Entry)
    ensures multiset(TurnEntries(AddReasoning(t, e))) == multiset(TurnEntries(t)) + multiset{e}
  {
    assert TurnEntries(AddReasoning(t, e)) == OptEntry(t.user) + (t.reasonings + [e]) + OptEntry(t.agent);
  }

  /** Adding a turn that holds only `e` adds `e` once. */
  lemma StepOpensTurn(turns: seq<Turn>, t: Turn, e: Entry)
    requires TurnEntries(t) == [e]
    ensures multiset(AllEntries(turns + [t])) == multiset(AllEntries(turns)) + multiset{e}
  {
    AllEntriesSnoc(turns, t);
  }

  /** Replacing the last turn by one holding `e` as well adds `e` once. */
  lemma StepExtendsTurn(turns: seq<Turn>, t: Turn, e: Entry)
    requires turns != []
    requires multiset(TurnEntries(t)) == multiset(TurnEntries(turns[|turns| - 1])) + multiset{e}
    ensures multiset(AllEntries(turns[|turns| - 1 := t])) == multiset(AllEntries(turns)) + multiset{e}
  {
    var init := turns[..|turns| - 1];
    assert turns == init + [turns[|turns| - 1]];
    AllEntriesSnoc(init, turns[|turns| - 1]);
    AllEntriesReplaceLast(turns, t);
  }

  /** One step adds the new entry once and keeps every other. */
  lemma StepKeepsEntries(turns: seq<Turn>, e: Entry)
    ensures multiset(AllEntries(Step(turns, e))) == multiset(AllEntries(turns)) + multiset{e}
  {
    match e.kind
    case UserMessage =>
      StepOpensTurn(turns, Turn(Some(e), [], None), e);
    case AgentReasoning =>
      if turns == [] {
        StepOpensTurn([], Turn(None, [e], None), e);
      } else {
        var last := turns[|turns| - 1];
        AddReasoningEntries(last, e);
        StepExtendsTurn(turns, AddReasoning(last, e), e);
      }
    case AgentMessage =>
      if turns == [] || turns[|turns| - 1].agent.Some? {
        StepOpensTurn(turns, Turn(None, [], Some(e)), e);
      } else {
        var last := turns[|turns| - 1];
        assert TurnEntries(last.(agent := Some(e))) == TurnEntries(last) + [e];
        StepExtendsTurn(turns, last.(agent := Some(e)), e);
      }
  }

  /** A well-formed turn that opens with a user message or a reply can follow any turns. */
  lemma InvariantSnoc(turns: seq<Turn>, t: Turn)
    requires TurnsInvariant(turns) && WellFormed(t)
    requires turns != [] ==> t.user.Some? || t.agent.Some?
    ensures TurnsInvariant(turns + [t])
  {
  }

  /** The last turn may be replaced by a well-formed turn with the same opening. */
  lemma InvariantReplaceLast(turns: seq<Turn>, t: Turn)
    requires TurnsInvariant(turns) && turns != [] && WellFormed(t)
    requires t.user == turns[|turns| - 1].user && (turns[|turns| - 1].agent.Some? ==> t.agent.Some?)
    ensures TurnsInvariant(turns[|turns| - 1 := t])
  {
  }

  /** A reasoning added to a well-formed turn keeps it well formed. */
  lemma AddReasoningWellFormed(t: Turn, e: Entry)
    requires WellFormed(t) && e.kind == AgentReasoning
    ensures WellFormed(AddReasoning(t, e))
  {
    var t' := AddReasoning(t, e);
    assert forall k | 0 <= k < |t.reasonings| :: t'.reasonings[k] == t.reasonings[k];
    assert t'.reasonings[|t.reasonings|] == e;
    assert |TurnEntries(t')| == |OptEntry(t.user)| + |t.reasonings| + 1 + |OptEntry(t.agent)|;
  }

  /** A reasoning joins the last turn, or opens the first one. */
  lemma ReasoningKeepsInvariant(turns: seq<Turn>, e: Entry)
    requires TurnsInvariant(turns) && e.kind == AgentReasoning
    ensures TurnsInvariant(Step(turns, e))
    ensures turns == [] ==> Step(turns, e) == [Turn(None, [e], None)]
    ensures turns != [] ==>
              var r := Step(turns, e);
              var last := turns[|turns| - 1];
              && |r| == |turns|
              && (forall i | 0 <= i < |turns| - 1 :: r[i] == turns[i])
              && r[|r| - 1].user == last.user && r[|r| - 1].agent == last.agent
              && r[|r| - 1].reasonings == last.reasonings + [e]
  {
    if turns == [] {
      assert TurnEntries(Turn(None, [e], None)) == [e];
      InvariantSnoc(turns, Turn(None, [e], None));
    } else {
      var last := turns[|turns| - 1];
      var t := AddReasoning(last, e);
      assert WellFormed(last);
      AddReasoningWellFormed(last, e);
      InvariantReplaceLast(turns, t);
    }
  }

  /** A reply completes the last turn, or opens a turn of its own. */
  lemma ReplyKeepsInvariant(turns: seq<Turn>, e: Entry)
    requires TurnsInvariant(turns) && e.kind == AgentMessage
    ensures TurnsInvariant(Step(turns, e))
    ensures var r := Step(turns, e);
      |r| == |turns| <==> turns != [] && turns[|turns| - 1].agent.None?
    ensures var r := Step(turns, e);
      |r| == |turns| ==>
        && (forall i | 0 <= i < |turns| - 1 :: r[i] == turns[i])
        && r[|r| - 1] == turns[|turns| - 1].(agent := Some(e))
    ensures var r := Step(turns, e);
      |r| != |turns| ==> r == turns + [Turn(None, [], Some(e))]
  {
    if turns == [] || turns[|turns| - 1].agent.Some? {
      assert TurnEntries(Turn(None, [], Some(e))) == [e];
      InvariantSnoc(turns, Turn(None, [], Some(e)));
    } else {
      var last := turns[|turns| - 1];
      var t := last.(agent := Some(e));
      assert WellFormed(last);
      assert TurnEntries(t) == TurnEntries(last) + [e];
      InvariantReplaceLast(turns, t);
      assert Step(turns, e) == turns[|turns| - 1 := t];
    }
  }

  /** One step keeps the turn invariant. */
  lemma StepKeepsInvariant(turns: seq<Turn>, e: Entry)
    requires TurnsInvariant(turns)
    ensures TurnsInvariant(Step(turns, e))
  {
    match e.kind
    case UserMessage =>
      InvariantSnoc(turns, Turn(Some(e), [], None));
    case AgentReasoning =>
      ReasoningKeepsInvariant(turns, e);
    case AgentMessage =>
      ReplyKeepsInvariant(turns, e);
  }

  /** One step opens a user turn exactly for a user message. */
  lemma StepCountsUsers(turns: seq<Turn>, e: Entry)
    ensures UserTurns(Step(turns, e)) == UserTurns(turns) + (if e.kind == UserMessage then 1 else 0)
  {
    var r := Step(turns, e);
    StepShape(turns, e);
    assert UserTurns(r) == UserTurns(r[..|r| - 1]) + (if r[|r| - 1].user.Some? then 1 else 0);
  }

  /** The multiset of a non-empty sequence: its elements but the last, plus the last. */
  lemma SnocMultiset(events: seq<Entry>)
    requires events != []
    ensures multiset(events) == multiset(events[..|events| - 1]) + multiset{events[|events| - 1]}
  {
    assert events == events[..|events| - 1] + [events[|events| - 1]];
  }

  /** Grouping keeps every entry exactly once. */
  lemma {:induction false} GroupKeepsEntries(events: seq<Entry>)
    ensures multiset(AllEntries(Group(events))) == multiset(events)
    decreases |events|
  {
    if events != [] {
      var init := events[..|events| - 1];
      var e := events[|events| - 1];
      GroupKeepsEntries(init);
      StepKeepsEntries(Group(init), e);
      SnocMultiset(events);
    }
  }

  /** Every turn of a grouping is well formed and every turn after the first has a user message or a reply. */
  lemma {:induction false} GroupKeepsInvariant(events: seq<Entry>)
    ensures TurnsInvariant(Group(events))
    decreases |events|
  {
    if events != [] {
      var init := events[..|events| - 1];
      GroupKeepsInvariant(init);
      StepKeepsInvariant(Group(init), events[|events| - 1]);
    }
  }

  /** Each user message opens a turn of its own, and no other entry does so with a user message. */
  lemma {:induction false} GroupCountsUsers(events: seq<Entry>)
    ensures UserTurns(Group(events)) == UserEvents(events)
    decreases |events|
  {
    if events != [] {
      var init := events[..|events| - 1];
      GroupCountsUsers(init);
      StepCountsUsers(Group(init), events[|events| - 1]);
    }
  }

  /** The grouping loop (`for (const event of chronologicalEvents)`). */
  method GroupTurns(events: seq<Entry>) returns (turns: seq<Turn>)
    ensures turns == Group(events)
  {
    turns := [];
    var i := 0;
    while i < |events|
      invariant 0 <= i <= |events|
      invariant turns == Group(events[..i])
    {
      assert events[..i + 1][..i] == events[..i] && events[..i + 1][i] == events[i];
      var e := events[i];
      ghost var before := turns;
      if e.kind == UserMessage {
        turns := turns + [Turn(Some(e), [], None)];
      } else if e.kind == AgentReasoning {
        if |turns| == 0 {
          turns := [Turn(None, [], None)];
        }
        var target := turns[|turns| - 1];
        turns := turns[|turns| - 1 := target.(reasonings := target.reasonings + [e])];
        if |before| == 0 {
          assert target == Turn(None, [], None);
          assert target.reasonings + [e] == [e];
          assert |turns| == 1 && turns[0] == Turn(None, [e], None);
          assert turns == [Turn(None, [e], None)];
        }
      } else {
        if |turns| == 0 || turns[|turns| - 1].agent.Some? {
          turns := turns + [Turn(None, [], Some(e))];
          assert turns == Step(before, e);
        } else {
          turns := turns[|turns| - 1 := turns[|turns| - 1].(agent := Some(e))];
        }
      }
      assert turns == Step(before, e);
      i := i + 1;
    }
    assert events[..|events|] == events;
  }

  /** `body.sessionPath` when it is a string, else empty; `None` is a missing or unparsable body. */
  function SessionPathOf(body: Option<Json>): string {
    StringOr(GetOpt(body, "sessionPath"), "")
  }

  /** What `readFile(path, 'utf-8')` gives: the content, an `ENOENT` failure, or any other failure. */
  datatype ReadResult = Read(content: string) | NotFound | ReadError

  function ReadFile(fs: Tree, p: string): ReadResult {
    if p !in fs then NotFound
    else match fs[p]
      case File(_, Some(content)) => Read(content)
      case _ => ReadError
  }

  /** The handler's answer for a file whose content is `content`. */
  function TurnsOf(rt: Runtime, content: string): seq<Turn> {
    Group(Chronological(rt, Extract(rt, SplitLines(content))))
  }

  /** `POST /api/session-conversation`. */
  function ConversationOf(fs: Tree, rt: Runtime, body: Option<Json>): (r: ConversationResponse)
    ensures r.ErrorResponse? ==> r.status in {400, 404, 500}
  {
    var sessionPath := Trim(SessionPathOf(body));
    if sessionPath == "" then ErrorResponse(400, "sessionPath is required")
    else
      match ReadFile(fs, sessionPath)
      case NotFound => ErrorResponse(404, "Session file not found at " + sessionPath)
      case ReadError => ErrorResponse(500, FailedMessage)
      case Read(content) => Turns(TurnsOf(rt, content))
  }

  /** The handler as written, where a `null` record throws inside the extraction loop. */
  function ConversationOfAsWritten(fs: Tree, rt: Runtime, body: Option<Json>): ConversationResponse {
    var sessionPath := Trim(SessionPathOf(body));
    if sessionPath == "" then ErrorResponse(400, "sessionPath is required")
    else
      match ReadFile(fs, sessionPath)
      case NotFound => ErrorResponse(404, "Session file not found at " + sessionPath)
      case ReadError => ErrorResponse(500, FailedMessage)
      case Read(content) =>
        match ExtractAsWritten(rt, SplitLines(content))
        case None => ErrorResponse(500, FailedMessage)
        case Some(events) => Turns(Group(Chronological(rt, events)))
  }

  /**
   * As written, one record that parses to `null` turns the whole file into a
   * 500; without such a record it answers as the corrected handler does.
   */
  lemma NullRecordFailsConversationAsWritten(fs: Tree, rt: Runtime, body: Option<Json>)
    ensures var p := Trim(SessionPathOf(body));
      p != "" && ReadFile(fs, p).Read? ==>
        (ConversationOfAsWritten(fs, rt, body) == ErrorResponse(500, FailedMessage) <==>
           HasNullLine(rt, SplitLines(ReadFile(fs, p).content)))
    ensures var p := Trim(SessionPathOf(body));
      !(p != "" && ReadFile(fs, p).Read? && HasNullLine(rt, SplitLines(ReadFile(fs, p).content))) ==>
        ConversationOfAsWritten(fs, rt, body) == ConversationOf(fs, rt, body)
  {
    var p := Trim(SessionPathOf(body));
    if p != "" && ReadFile(fs, p).Read? {
      ExtractAsWrittenThrowsOnNull(rt, SplitLines(ReadFile(fs, p).content));
    }
  }

  /**
   * The handler answers 400 without a session path, 404 when no file is
   * there, 500 when it cannot be read, and otherwise the turns of every kept
   * record, each exactly once.
   */
  lemma ConversationResponses(fs: Tree, rt: Runtime, body: Option<Json>)
    ensures var p := Trim(SessionPathOf(body));
      && (ConversationOf(fs, rt, body).ErrorResponse? && ConversationOf(fs, rt, body).status == 400 <==> p == "")
      && (ConversationOf(fs, rt, body).ErrorResponse? && ConversationOf(fs, rt, body).status == 404 <==> p != "" && p !in fs)
      && (ConversationOf(fs, rt, body).Turns? <==> p != "" && ReadFile(fs, p).Read?)
    ensures var r := ConversationOf(fs, rt, body);
      r.Turns? ==>
        var events := Extract(rt, SplitLines(ReadFile(fs, Trim(SessionPathOf(body))).content));
        && multiset(AllEntries(r.turns)) == multiset(events)
        && TurnsInvariant(r.turns)
        && UserTurns(r.turns) == UserEvents(Chronological(rt, events))
  {
    var r := ConversationOf(fs, rt, body);
    if r.Turns? {
      var events := Extract(rt, SplitLines(ReadFile(fs, Trim(SessionPathOf(body))).content));
      GroupKeepsEntries(Chronological(rt, events));
      GroupKeepsInvariant(Chronological(rt, events));
      GroupCountsUsers(Chronological(rt, events));
      ChronologicalIsPermutation(rt, events);
    }
  }

  /** The handler, step by step. */
  method HandleConversation(fs: Tree, rt: Runtime, body: Option<Json>) returns (r: ConversationResponse)
    ensures r == ConversationOf(fs, rt, body)
  {
    var sessionPath := Trim(SessionPathOf(body));
    if sessionPath == "" {
      return ErrorResponse(400, "sessionPath is required");
    }
    var read := ReadFile(fs, sessionPath);
    if read.NotFound? {
      return ErrorResponse(404, "Session file not found at " + sessionPath);
    } else if read.ReadError? {
      return ErrorResponse(500, FailedMessage);
    }
    var events := ExtractEvents(rt, read.content);
    var turns := GroupTurns(Chronological(rt, events));
    return Turns(turns);
  }
}
