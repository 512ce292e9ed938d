/**
 * The reshaping of counselling-dialogue records into fine-tuning samples:
 * the (HSxx, SSxx) pairs of a record's talk, the counsellor persona built
 * from its profile, and the per-format conversion of every parsed line.
 */
module FineTune {
  import opened Wrappers
  import opened Text

  /** The emotion part of a profile; each value stands for its rendering by `str()`. */
  datatype Emotion = Emotion(kind: Option<string>, situation: Option<string>)

  datatype Profile = Profile(emotion: Option<Emotion>)

  /** The talk part of a record: `content` maps utterance keys such as "HS01" to their text. */
  datatype Talk = Talk(content: Option<map<string, string>>)

  /** One parsed input line; a missing key is None. */
  datatype Record = Record(talk: Option<Talk>, profile: Option<Profile>)

  /** One exchange: what the person said and what the counsellor answered. */
  datatype Turn = Turn(human: string, assistant: string)

  datatype Message = Message(role: string, content: string)

  /** One output sample, in the shape its format prescribes. */
  datatype Sample =
    | Chat(messages: seq<Message>)                                   // openai and multi_turn
    | Instruction(instruction: string, input: string, output: string) // alpaca
    | Exchange(context: string, question: string, answer: string)     // conversation

  /** The key of the person's i-th utterance, `f"HS{i:02d}"`. */
  function HumanKey(i: nat): (r: string)
    ensures |r| >= 4 && r[..2] == "HS"
    ensures AllDigits(r[2..]) && DecimalValue(r[2..]) == i
    ensures i < 100 ==> |r| == 4
  {
    Pad2RoundTrip(i);
    var r := "HS" + Pad2(i);
    assert r[2..] == Pad2(i);
    r
  }

  /** The key of the counsellor's i-th utterance, `f"SS{i:02d}"`. */
  function SystemKey(i: nat): (r: string)
    ensures |r| >= 4 && r[..2] == "SS"
    ensures AllDigits(r[2..]) && DecimalValue(r[2..]) == i
    ensures i < 100 ==> |r| == 4
  {
    Pad2RoundTrip(i);
    var r := "SS" + Pad2(i);
    assert r[2..] == Pad2(i);
    r
  }

  /** Different indices give different keys, and a person's key is never a counsellor's. */
  lemma KeysDistinct(i: nat, j: nat)
    ensures HumanKey(i) == HumanKey(j) ==> i == j
    ensures SystemKey(i) == SystemKey(j) ==> i == j
    ensures HumanKey(i) != SystemKey(j)
  {
    if HumanKey(i) == HumanKey(j) {
      assert HumanKey(i)[2..] == Pad2(i) && HumanKey(j)[2..] == Pad2(j);
      Pad2Injective(i, j);
    }
    if SystemKey(i) == SystemKey(j) {
      assert SystemKey(i)[2..] == Pad2(i) && SystemKey(j)[2..] == Pad2(j);
      Pad2Injective(i, j);
    }
    assert HumanKey(i)[0] == 'H' && SystemKey(j)[0] == 'S';
  }

  /** `data.get('talk', {}).get('content', {})`: an absent talk or content reads as empty. */
  function ContentOf(rec: Record): (c: map<string, string>)
    ensures rec.talk.None? || rec.talk.value.content.None? ==> c == map[]
    ensures rec.talk.Some? && rec.talk.value.content.Some? ==> c == rec.talk.value.content.value
  {
    match rec.talk
    case None => map[]
    case Some(t) =>
      match t.content
      case None => map[]
      case Some(c) => c
  }

  /** Both utterances of turn `i` are present. */
  predicate HasTurn(content: map<string, string>, i: nat)
  {
    HumanKey(i) in content && SystemKey(i) in content
  }

  function TurnAt(content: map<string, string>, i: nat): Turn
    requires HasTurn(content, i)
  {
    Turn(content[HumanKey(i)], content[SystemKey(i)])
  }

  /** The turns with indices `i` through 3, in increasing order, each kept when both its keys are present. */
  function ConversationFrom(content: map<string, string>, i: nat): (r: seq<Turn>)
    requires 1 <= i <= 4
    ensures |r| <= 4 - i
    decreases 4 - i
  {
    if i == 4 then []
    else TurnIfPresent(content, i) + ConversationFrom(content, i + 1)
  }

  /** What `extract_conversation` returns for a content map. */
  function Conversation(content: map<string, string>): (r: seq<Turn>)
    ensures |r| <= 3
  {
    ConversationFrom(content, 1)
  }

  /** Turn `i` as a list of at most one element: present exactly when both its keys are. */
  function TurnIfPresent(content: map<string, string>, i: nat): (r: seq<Turn>)
    ensures |r| <= 1
    ensures r != [] <==> HasTurn(content, i)
    ensures r != [] ==> r[0] == TurnAt(content, i)
  {
    if HasTurn(content, i) then [TurnAt(content, i)] else []
  }

  /**
   * The conversation lists, in increasing order of the index, exactly the
   * turns 1, 2 and 3 whose two keys are both present.
   */
  lemma ConversationByIndex(content: map<string, string>)
    ensures Conversation(content) == TurnIfPresent(content, 1) + TurnIfPresent(content, 2) + TurnIfPresent(content, 3)
  {
    var t1, t2, t3 := TurnIfPresent(content, 1), TurnIfPresent(content, 2), TurnIfPresent(content, 3);
    assert ConversationFrom(content, 4) == [];
    assert ConversationFrom(content, 3) == t3 + [];
    assert ConversationFrom(content, 2) == t2 + ConversationFrom(content, 3);
    assert ConversationFrom(content, 1) == t1 + ConversationFrom(content, 2);
    assert t3 + [] == t3;
    assert t1 + (t2 + t3) == t1 + t2 + t3;
  }

  /** `extract_conversation(data)`: the turns HS01/SS01 to HS03/SS03 that have both keys. */
  method ExtractConversation(rec: Record) returns (conversations: seq<Turn>)
    ensures conversations == Conversation(ContentOf(rec))
  {
    var content := ContentOf(rec);
    conversations := [];
    for i := 1 to 4
      invariant conversations + ConversationFrom(content, i) == Conversation(content)
    {
      ghost var before := conversations;
      if HasTurn(content, i) {
        conversations := conversations + [TurnAt(content, i)];
      }
      assert conversations == before + TurnIfPresent(content, i);
      AppendAssoc(before, TurnIfPresent(content, i), ConversationFrom(content, i + 1));
    }
    assert conversations + [] == conversations;
  }

  /** A record without talk or without content has no turns. */
  lemma NoContentNoTurns(rec: Record)
    requires rec.talk.None? || rec.talk.value.content.None?
    ensures Conversation(ContentOf(rec)) == []
  {
    assert ConversationFrom(map[], 3) == [];
  }

  const Preamble: string := "당신은 공감적이고 도움이 되는 상담사입니다. "
  const MoodOpen: string := "상대방의 감정 상태는 '"
  const MoodClose: string := "'이며, "
  const SituationOpen: string := "상황은 '"
  const SituationClose: string := "'입니다. "
  const Closing: string := "상대방의 감정을 이해하고 적절한 조언을 제공해주세요."

  /** `emotion.get('type', '')`, through an absent profile or emotion. */
  function EmotionKind(rec: Record): (r: string)
    ensures r != "" ==> rec.profile.Some? && rec.profile.value.emotion.Some? && rec.profile.value.emotion.value.kind == Some(r)
    ensures rec.profile.Some? && rec.profile.value.emotion.Some? && rec.profile.value.emotion.value.kind.Some?
      ==> r == rec.profile.value.emotion.value.kind.value
  {
    if rec.profile.Some? && rec.profile.value.emotion.Some? && rec.profile.value.emotion.value.kind.Some?
    then rec.profile.value.emotion.value.kind.value
    else ""
  }

  /** `emotion.get('situation', [])` as the f-string renders it; the empty-list default renders as "[]". */
  function EmotionSituation(rec: Record): (r: string)
    ensures r != "[]" ==> rec.profile.Some? && rec.profile.value.emotion.Some? && rec.profile.value.emotion.value.situation == Some(r)
    ensures rec.profile.Some? && rec.profile.value.emotion.Some? && rec.profile.value.emotion.value.situation.Some?
      ==> r == rec.profile.value.emotion.value.situation.value
  {
    if rec.profile.Some? && rec.profile.value.emotion.Some? && rec.profile.value.emotion.value.situation.Some?
    then rec.profile.value.emotion.value.situation.value
    else "[]"
  }

  /** A string framed by a head and a tail: it starts with the head, ends with the tail, and holds the middle right after the head. */
  lemma Framed(h: string, m: string, t: string)
    ensures h <= h + m + t
    ensures IsSuffix(t, h + m + t)
    ensures (h + m + t)[|h|..|h| + |m|] == m
  {
  }

  /**
   * `get_persona_context(data)`: the fixed counsellor instruction with the
   * emotion type and the situation quoted in it.
   */
  function PersonaContext(rec: Record): (r: string)
    ensures Preamble <= r
    ensures IsSuffix(Closing, r)
    ensures |Preamble| + |MoodOpen| + |EmotionKind(rec)| <= |r|
    ensures r[|Preamble| + |MoodOpen|..|Preamble| + |MoodOpen| + |EmotionKind(rec)|] == EmotionKind(rec)
  {
    var kind, situation := EmotionKind(rec), EmotionSituation(rec);
    var head := Preamble + MoodOpen;
    var rest := MoodClose + SituationOpen + situation + SituationClose;
    Framed(Preamble, MoodOpen + kind + rest, Closing);
    Framed(head, kind, rest + Closing);
    AppendAssoc(Preamble, MoodOpen + kind, rest);
    AppendAssoc(Preamble, MoodOpen, kind);
    AppendAssoc(head + kind, rest, Closing);
    Preamble + (MoodOpen + kind + rest) + Closing
  }

  /** Without a profile the type is empty and the situation is the empty list. */
  lemma PersonaWithoutProfile(rec: Record)
    requires rec.profile.None?
    ensures PersonaContext(rec) == Preamble + MoodOpen + MoodClose + SituationOpen + "[]" + SituationClose + Closing
  {
    var head, z := Preamble + MoodOpen, MoodClose + SituationOpen;
    assert MoodOpen + "" == MoodOpen;
    AppendAssoc(Preamble, MoodOpen, z + "[]" + SituationClose);
    AppendAssoc(head, z + "[]", SituationClose);
    AppendAssoc(head, z, "[]");
    AppendAssoc(head, MoodClose, SituationOpen);
  }

  /** For one situation, the context tells the emotion types apart. */
  lemma PersonaDeterminesKind(a: Record, b: Record)
    requires EmotionSituation(a) == EmotionSituation(b)
    requires PersonaContext(a) == PersonaContext(b)
    ensures EmotionKind(a) == EmotionKind(b)
  {
    var fixed := |Preamble| + |MoodOpen| + |MoodClose| + |SituationOpen| + |EmotionSituation(a)| + |SituationClose| + |Closing|;
    assert |PersonaContext(a)| == fixed + |EmotionKind(a)|;
    assert |PersonaContext(b)| == fixed + |EmotionKind(b)|;
  }

  /** The output formats `format_type` can name; any other name is Unknown. */
  datatype Format = OpenAI | Alpaca | Conversational | MultiTurn | Unknown

  function FormatOf(formatType: string): (r: Format)
    ensures r == Unknown <==> formatType !in FormatNames
    ensures r != Unknown ==> FormatNames[FormatIndex(r)] == formatType
  {
    if formatType == "openai" then OpenAI
    else if formatType == "alpaca" then Alpaca
    else if formatType == "conversation" then Conversational
    else if formatType == "multi_turn" then MultiTurn
    else Unknown
  }

  /** The names `format_type` is compared against, in the order of the comparisons. */
  const FormatNames: seq<string> := ["openai", "alpaca", "conversation", "multi_turn"]

  /** The position of a known format's name among the names. */
  function FormatIndex(format: Format): nat
  {
    match format
    case OpenAI => 0
    case Alpaca => 1
    case Conversational => 2
    case MultiTurn => 3
    case Unknown => 4
  }

  /** The formats that turn every pair into a sample of its own. */
  predicate IsPerTurn(format: Format)
  {
    format == OpenAI || format == Alpaca || format == Conversational
  }

  /** The sample one turn becomes in the openai, alpaca or conversation format. */
  function TurnSample(format: Format, context: string, t: Turn): (s: Sample)
    requires IsPerTurn(format)
    ensures format == OpenAI ==> s == Chat([Message("system", context), Message("user", t.human), Message("assistant", t.assistant)])
    ensures format == Alpaca ==> s == Instruction(context, t.human, t.assistant)
    ensures format == Conversational ==> s == Exchange(context, t.human, t.assistant)
  {
    match format
    case OpenAI => Chat([Message("system", context), Message("user", t.human), Message("assistant", t.assistant)])
    case Alpaca => Instruction(context, t.human, t.assistant)
    case Conversational => Exchange(context, t.human, t.assistant)
  }

  /** One sample per turn, in turn order. */
  function PerTurn(format: Format, context: string, turns: seq<Turn>): (r: seq<Sample>)
    requires IsPerTurn(format)
    ensures |r| == |turns|
    ensures forall k :: 0 <= k < |turns| ==> r[k] == TurnSample(format, context, turns[k])
    decreases |turns|
  {
    if turns == [] then []
    else PerTurn(format, context, turns[..|turns| - 1]) + [TurnSample(format, context, turns[|turns| - 1])]
  }

  /** The user and assistant messages of the turns, alternating, in turn order. */
  function Exchanges(turns: seq<Turn>): (r: seq<Message>)
    ensures |r| == 2 * |turns|
    ensures forall k :: 0 <= k < |turns| ==> r[2 * k] == Message("user", turns[k].human)
    ensures forall k :: 0 <= k < |turns| ==> r[2 * k + 1] == Message("assistant", turns[k].assistant)
    decreases |turns|
  {
    if turns == [] then []
    else
      var last := turns[|turns| - 1];
      Exchanges(turns[..|turns| - 1]) + [Message("user", last.human), Message("assistant", last.assistant)]
  }

  /** The messages of a multi_turn sample: the system message, then every turn's exchange. */
  function MultiTurnMessages(context: string, turns: seq<Turn>): (r: seq<Message>)
    ensures |r| == 1 + 2 * |turns|
    ensures r[0] == Message("system", context)
    ensures r[1..] == Exchanges(turns)
  {
    [Message("system", context)] + Exchanges(turns)
  }

  /** In a multi_turn sample the roles run system, then user and assistant in strict alternation. */
  lemma MultiTurnRoles(context: string, turns: seq<Turn>)
    ensures var r := MultiTurnMessages(context, turns);
      r[0].role == "system"
      && (forall j :: 1 <= j < |r| && j % 2 == 1 ==> r[j].role == "user")
      && (forall j :: 1 <= j < |r| && j % 2 == 0 ==> r[j].role == "assistant")
  {
    var r := MultiTurnMessages(context, turns);
    var e := Exchanges(turns);
    forall j | 1 <= j < |r| && j % 2 == 1
      ensures r[j].role == "user"
    {
      var k := (j - 1) / 2;
      assert j == 2 * k + 1;
      assert r[j] == r[1..][j - 1] == e[2 * k] == Message("user", turns[k].human);
    }
    forall j | 1 <= j < |r| && j % 2 == 0
      ensures r[j].role == "assistant"
    {
      var k := (j - 2) / 2;
      assert j == 2 * k + 2;
      assert r[j] == r[1..][j - 1] == e[2 * k + 1] == Message("assistant", turns[k].assistant);
    }
  }

  /** What one record contributes in the given format; an unknown format contributes nothing. */
  function RecordSamples(format: Format, context: string, turns: seq<Turn>): (r: seq<Sample>)
    ensures IsPerTurn(format) ==> |r| == |turns|
    ensures format == MultiTurn ==> |r| == (if turns == [] then 0 else 1)
    ensures format == Unknown ==> r == []
  {
    match format
    case MultiTurn => if turns == [] then [] else [Chat(MultiTurnMessages(context, turns))]
    case Unknown => []
    case _ => PerTurn(format, context, turns)
  }

  /** What one input line contributes: nothing when it failed to parse. */
  function LineSamples(format: Format, line: Option<Record>): (r: seq<Sample>)
    ensures line.None? ==> r == []
  {
    match line
    case None => []
    case Some(rec) => RecordSamples(format, PersonaContext(rec), Conversation(ContentOf(rec)))
  }

  /** The samples of all lines, in line order. */
  function ConvertAll(format: Format, lines: seq<Option<Record>>): seq<Sample>
    decreases |lines|
  {
    if lines == [] then []
    else ConvertAll(format, lines[..|lines| - 1]) + LineSamples(format, lines[|lines| - 1])
  }

  /** Converting two runs of lines one after the other gives the two conversions one after the other. */
  lemma {:induction false} ConvertAllAppend(format: Format, a: seq<Option<Record>>, b: seq<Option<Record>>)
    ensures ConvertAll(format, a + b) == ConvertAll(format, a) + ConvertAll(format, b)
    decreases |b|
  {
    if b == [] {
      assert a + b == a;
    } else {
      var b', last := b[..|b| - 1], b[|b| - 1];
      assert (a + b)[..|a + b| - 1] == a + b';
      ConvertAllAppend(format, a, b');
      AppendAssoc(ConvertAll(format, a), ConvertAll(format, b'), LineSamples(format, last));
    }
  }

  /** A line that failed to parse is skipped, and the lines after it are still converted. */
  lemma SkippedLine(format: Format, a: seq<Option<Record>>, b: seq<Option<Record>>)
    ensures ConvertAll(format, a + [None] + b) == ConvertAll(format, a + b)
  {
    ConvertAllAppend(format, a + [None], b);
    ConvertAllAppend(format, a, [None]);
    ConvertAllAppend(format, a, b);
    var skipped: seq<Option<Record>> := [None];
    assert skipped[..0] == [];
    assert ConvertAll(format, skipped) == [];
    assert ConvertAll(format, a) + [] == ConvertAll(format, a);
  }

  /** How many samples one line yields, counted from its turns alone. */
  function LineCount(format: Format, line: Option<Record>): nat
  {
    if line.None? then 0
    else
      var n := |Conversation(ContentOf(line.value))|;
      match format
      case MultiTurn => if n == 0 then 0 else 1
      case Unknown => 0
      case _ => n
  }

  function TotalCount(format: Format, lines: seq<Option<Record>>): nat
    decreases |lines|
  {
    if lines == [] then 0 else TotalCount(format, lines[..|lines| - 1]) + LineCount(format, lines[|lines| - 1])
  }

  /** The number of samples is the sum of what each line yields. */
  lemma {:induction false} CountIsSum(format: Format, lines: seq<Option<Record>>)
    ensures |ConvertAll(format, lines)| == TotalCount(format, lines)
    decreases |lines|
  {
    if lines != [] {
      CountIsSum(format, lines[..|lines| - 1]);
      var line := lines[|lines| - 1];
      assert |LineSamples(format, line)| == LineCount(format, line);
    }
  }

  /** An unknown format yields no samples at all. */
  lemma {:induction false} UnknownFormatYieldsNothing(lines: seq<Option<Record>>)
    ensures ConvertAll(Unknown, lines) == []
    decreases |lines|
  {
    if lines != [] {
      UnknownFormatYieldsNothing(lines[..|lines| - 1]);
    }
  }

  /** A record without talk or content contributes nothing, in any format. */
  lemma NoContentNoSamples(format: Format, rec: Record)
    requires rec.talk.None? || rec.talk.value.content.None?
    ensures LineSamples(format, Some(rec)) == []
  {
    NoContentNoTurns(rec);
  }

  /** Growing the turns by one adds that turn's sample at the end. */
  lemma PerTurnStep(format: Format, context: string, turns: seq<Turn>, j: nat)
    requires IsPerTurn(format) && j < |turns|
    ensures PerTurn(format, context, turns[..j + 1]) == PerTurn(format, context, turns[..j]) + [TurnSample(format, context, turns[j])]
  {
    assert turns[..j + 1][..j] == turns[..j];
  }

  /** Growing the turns by one adds that turn's user and assistant messages at the end. */
  lemma MultiTurnStep(context: string, turns: seq<Turn>, j: nat)
    requires j < |turns|
    ensures MultiTurnMessages(context, turns[..j + 1])
         == MultiTurnMessages(context, turns[..j]) + [Message("user", turns[j].human)] + [Message("assistant", turns[j].assistant)]
  {
    var sys, u, a := [Message("system", context)], Message("user", turns[j].human), Message("assistant", turns[j].assistant);
    assert turns[..j + 1][..j] == turns[..j];
    assert Exchanges(turns[..j + 1]) == Exchanges(turns[..j]) + [u, a];
    AppendAssoc(sys, Exchanges(turns[..j]), [u, a]);
    assert [u, a] == [u] + [a];
    AppendAssoc(sys + Exchanges(turns[..j]), [u], [a]);
  }

  /**
   * The format dispatch of the conversion loop: the samples one record's
   * turns and persona become in the chosen format.
   */
  method Reshape(formatType: string, context: string, conversations: seq<Turn>) returns (samples: seq<Sample>)
    ensures samples == RecordSamples(FormatOf(formatType), context, conversations)
  {
    ghost var format := FormatOf(formatType);
    samples := [];
    if formatType == "openai" {
      for j := 0 to |conversations|
        invariant samples == PerTurn(format, context, conversations[..j])
      {
        var conv := conversations[j];
        samples := samples + [Chat([Message("system", context), Message("user", conv.human), Message("assistant", conv.assistant)])];
        PerTurnStep(format, context, conversations, j);
      }
    } else if formatType == "alpaca" {
      for j := 0 to |conversations|
        invariant samples == PerTurn(format, context, conversations[..j])
      {
        var conv := conversations[j];
        samples := samples + [Instruction(context, conv.human, conv.assistant)];
        PerTurnStep(format, context, conversations, j);
      }
    } else if formatType == "conversation" {
      for j := 0 to |conversations|
        invariant samples == PerTurn(format, context, conversations[..j])
      {
        var conv := conversations[j];
        samples := samples + [Exchange(context, conv.human, conv.assistant)];
        PerTurnStep(format, context, conversations, j);
      }
    } else if formatType == "multi_turn" {
      if conversations != [] {
        var messages := [Message("system", context)];
        for j := 0 to |conversations|
          invariant messages == MultiTurnMessages(context, conversations[..j])
        {
          var conv := conversations[j];
          messages := messages + [Message("user", conv.human)];
          messages := messages + [Message("assistant", conv.assistant)];
          MultiTurnStep(context, conversations, j);
        }
        assert conversations[..|conversations|] == conversations;
        samples := samples + [Chat(messages)];
      }
    }
    assert conversations[..|conversations|] == conversations;
  }

  /** The body of the conversion loop for one parsed line. */
  method ConvertRecord(data: Record, formatType: string) returns (samples: seq<Sample>)
    ensures samples == LineSamples(FormatOf(formatType), Some(data))
  {
    var conversations := ExtractConversation(data);
    var context := PersonaContext(data);
    samples := Reshape(formatType, context, conversations);
  }

  /**
   * The conversion loop of `convert_to_finetune_format` over already-parsed
   * lines: a line that failed to parse is skipped, every other one adds
   * the samples of its record in the chosen format.
   */
  method ConvertToFinetuneFormat(lines: seq<Option<Record>>, formatType: string) returns (converted: seq<Sample>)
    ensures converted == ConvertAll(FormatOf(formatType), lines)
  {
    converted := [];
    for n := 0 to |lines|
      invariant converted == ConvertAll(FormatOf(formatType), lines[..n])
    {
      assert lines[..n + 1][..n] == lines[..n];
      if lines[n].Some? {
        var samples := ConvertRecord(lines[n].value, formatType);
        converted := converted + samples;
      }
    }
    assert lines[..|lines|] == lines;
  }
}
