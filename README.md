# Emotion diary: chat-log day extraction and fine-tune reshaping

This project models the two text and record transformations of the emotion-diary
repository and proves properties of them in Dafny.

- **Day extraction** (`emotion_diary_app_test.py`). The app takes a KakaoTalk chat
  export and the label of today's date (`"2025년 6월 12일"`). It keeps what was said
  after that day's separator line and hands the latest 30 messages to the diary prompt.
  - A separator is any stripped line that is a run of dashes and whitespace followed by
    the label.
  - A message line is `[author] 오전/오후 h:mm text` or `오전/오후 h:mm [author] text`.
  - Noise lines are dropped: photos, emoticons, someone joining, someone leaving.
  - The prompt shows an empty field as `"없음"`. It is refused when the chat log, the
    search history and the summary are all empty.
- **Fine-tune reshaping** (`Functionmodule.py`). Every parsed JSON line of the
  counselling corpus yields its `(HS0i, SS0i)` utterance pairs and a counsellor persona
  built from the profile's emotion. These become `openai`, `alpaca`, `conversation` or
  `multi_turn` training samples.

Modules:

- `Wrappers` (`wrappers.dfy`): `Option`.
- `Text` (`text.dfy`): the Python string operations the core relies on. These are
  `str.isspace`, `str.strip`, `str.splitlines`, decimal and `02d` rendering,
  `str.join` and `in` on strings. The core never calls `str.split`. `Text.Split`
  models it only as the inverse of `str.join`, for `ExtractedTextSplitsBack`.
- `ChatLog` (`chat_log.dfy`):
  - the date label;
  - the separator and message patterns as hand-written matchers;
  - the specification `Scan` of the collecting loop;
  - the imperative `ExtractToday`.
- `DiaryPrompt` (`diary_prompt.dfy`): the `"없음"` placeholder and the all-empty guard.
- `FineTune` (`finetune.dfy`):
  - the record shapes;
  - `ExtractConversation` and `PersonaContext`;
  - the specification `ConvertAll` of the conversion;
  - the imperative conversion loop `ConvertToFinetuneFormat`.

The code is modelled as written. In two places it does not do what its comments
suggest:

- **The `break` never runs.** The `break` at `emotion_diary_app_test.py:49` sits behind
  the header test at line 45, which has already caught every header line. Once
  collection starts, it never stops (`CollectingNeverStops`).
- **Other days are collected.** A separator for another day matches neither message
  pattern and is dropped. The messages after it are still collected
  (`OtherDayDoesNotStop`).

Two further behaviours are worth knowing:

- **Bracketed times are dropped.** A line that writes the time in brackets,
  `[민수] [오후 1:30] 안녕!`, matches neither pattern and is dropped
  (`BracketedTimeIsNoMessage`).
- **Empty messages are kept.** A message line with nothing after the time yields the
  empty message. That message is not noise, so the line adds `""` to the entries
  (`EmptyMessageKept`).

## Model

| member | source | states |
|---|---|---|
| ChatLog.DateLabel | emotion_diary_app_test.py:28 | the label is non-empty, starts with a digit of the year and ends with "일" |
| ChatLog.DateLabelDeterminesDate | emotion_diary_app_test.py:28 | a day's label is a prefix of another day's label (plus any text) only when the two days are equal, so "2025년 7월 1일" never begins "2025년 7월 12일" |
| ChatLog.LabelParts | emotion_diary_app_test.py:28 | the definition of the label, regrouped for the prefix proof: year digits, "년 ", month digits, "월 ", day digits, "일" |
| ChatLog.DigitsThenSeparator | emotion_diary_app_test.py:28 | two digit runs each closed by the same non-digit separator, one a prefix of the other, are equal |
| Text.Decimal | emotion_diary_app_test.py:28 | an unpadded rendering is a non-empty string of digits with a leading '0' exactly for zero |
| Text.DecimalRoundTrip | emotion_diary_app_test.py:28 | reading back a rendered number gives the number |
| Text.DecimalInjective | emotion_diary_app_test.py:28 | different numbers render differently |
| ChatLog.IsHeaderIff | emotion_diary_app_test.py:37 | a stripped line is a header exactly when some prefix of dashes and whitespace is followed by the label |
| ChatLog.HeaderSplit | emotion_diary_app_test.py:37 | every header has a dash/space prefix after which the label begins |
| ChatLog.HeaderJoin | emotion_diary_app_test.py:37 | any dash/space prefix followed by the label is a header |
| ChatLog.HeaderAfterDecoration | emotion_diary_app_test.py:37 | after a dash/space decoration, the header test is a prefix test on the rest of the line |
| ChatLog.HeaderOfDay | emotion_diary_app_test.py:37-45 | a decorated separator of day e is a header for the label of day d exactly when d = e |
| ChatLog.MeridiemAt | emotion_diary_app_test.py:40-41 | `(오전\|오후)` matches at i exactly when the two characters there are 오전 or 오후, and then ends two characters later |
| ChatLog.ClockAt | emotion_diary_app_test.py:40-41 | what `\d{1,2}:\d{2}` consumes is a clock: one or two digits, ':', two digits, four or five characters in all; and whenever a clock starts at i, the match ends exactly where that clock ends |
| ChatLog.TimeAt | emotion_diary_app_test.py:40-41 | a time match consumes a meridiem, then whitespace, then a clock that begins at the first non-whitespace after the meridiem |
| ChatLog.TimeAtAccepts | emotion_diary_app_test.py:40-41 | a meridiem, any whitespace and a clock are always matched as a time, ending after the clock |
| ChatLog.AfterAuthor | emotion_diary_app_test.py:40 | the rest of msg1 after the author ends strictly after where it starts and within the line |
| ChatLog.AfterAuthorSound | emotion_diary_app_test.py:40 | whatever the rest of msg1 matched is whitespace, a meridiem, whitespace, a clock and whitespace, and group 3 starts at the first non-whitespace after them |
| ChatLog.AfterAuthorAccepts | emotion_diary_app_test.py:40 | whitespace, a meridiem, whitespace, a clock and whitespace behind the author are matched, and group 3 starts at the first non-whitespace after them |
| ChatLog.AuthorClose | emotion_diary_app_test.py:40 | the lazy author group ends at the earliest `]` behind which the rest of msg1 matches, and is absent only when no such `]` exists |
| ChatLog.Msg1 | emotion_diary_app_test.py:40 | a msg1 match needs a leading '[' and its group 3 is a suffix of the line |
| ChatLog.Msg1Matches | emotion_diary_app_test.py:40 | msg1 matches iff the line starts with '[' and some `]` closes the author; group 3 then follows the earliest such `]` |
| ChatLog.Msg1At | emotion_diary_app_test.py:40 | with '[' first and the first `]` at j, behind which the rest of msg1 matches, group 3 is the line from where that rest ends |
| ChatLog.Msg1Accepts | emotion_diary_app_test.py:40 | a line laid out as msg1 asks, given by positions, matches with group 3 the rest of the line |
| ChatLog.Msg1Form | emotion_diary_app_test.py:40 | every line "[" + author + "]" + meridiem + clock + text, with any whitespace between the parts, an author without `]` and text not opening with whitespace, matches msg1 with group 3 the text |
| ChatLog.FirstClose | emotion_diary_app_test.py:41 | the first `]` at or after an index, and none before it; absent iff the rest has no `]` |
| ChatLog.Msg2 | emotion_diary_app_test.py:41 | a msg2 match needs the line to start with '오' and its group 3 is a suffix of the line |
| ChatLog.Msg2Open | emotion_diary_app_test.py:41 | where the msg2 author bracket opens: a '[' inside a line that starts with '오' |
| ChatLog.Msg2OpenSound | emotion_diary_app_test.py:41 | the msg2 author bracket, when found, stands right after the opening meridiem, whitespace, a clock and whitespace |
| ChatLog.Msg2OpenAccepts | emotion_diary_app_test.py:41 | a line that opens with a meridiem, whitespace, a clock and whitespace has its msg2 author bracket at the first '[' after them |
| ChatLog.Msg2From | emotion_diary_app_test.py:41 | what msg2 captures behind its '[' is always a suffix of the line |
| ChatLog.Msg2Matches | emotion_diary_app_test.py:41 | msg2 matches iff the author bracket opens after the time and some `]` stands behind it |
| ChatLog.Msg2Group | emotion_diary_app_test.py:41 | group 3 of msg2 is what follows the first `]` behind the '[', less its leading whitespace |
| ChatLog.Msg2Accepts | emotion_diary_app_test.py:41 | a line laid out as msg2 asks, given by positions, matches with group 3 the rest of the line |
| ChatLog.Msg2Form | emotion_diary_app_test.py:41 | every line meridiem + clock + "[" + author + "]" + text, with any whitespace between the parts, an author without `]` and text not opening with whitespace, matches msg2 with group 3 the text |
| ChatLog.Content | emotion_diary_app_test.py:52-54 | a line has content exactly when msg1 or msg2 matches; such a line opens with '[' or '오'; the content has no whitespace at either end |
| ChatLog.SeparatorIsNoMessage | emotion_diary_app_test.py:40-52 | a line opening with a dash or a digit, as every separator does, has no message |
| ChatLog.BracketedTimeIsNoMessage | emotion_diary_app_test.py:40-53 | `[author] [time] text`, with no other `]` and a text that does not open with whitespace or '오', matches neither pattern |
| ChatLog.EmptyMessageKept | emotion_diary_app_test.py:52-57 | "[a] 오후 1:00" yields the empty message, and the line adds `""` to the entries |
| Text.Strip | emotion_diary_app_test.py:44 | the result is a slice of the input with only whitespace cut from both ends, and neither end of it is whitespace |
| Text.SplitLines | emotion_diary_app_test.py:32 | no line holds a line break, and there are no lines exactly for the empty text |
| Text.SplitLinesJoin | emotion_diary_app_test.py:32 | lines without breaks, the last one non-empty, joined by "\n" and split again come back unchanged |
| Text.IsSpace | emotion_diary_app_test.py:40-44 | the whitespace set shared by `str.strip` and `\s`: Python's `str.isspace` characters, listed one by one |
| Text.SkipSpaces | emotion_diary_app_test.py:40-41 | a greedy `\s*` from i skips only whitespace and stops at the first non-whitespace or at the end |
| Text.AllSpaceUpTo | emotion_diary_app_test.py:40-41 | what a greedy `\s*` skips is all whitespace |
| Text.SkipSpacesTo | emotion_diary_app_test.py:40-41 | skipping `\s*` from i stops at the first non-whitespace k |
| Text.Contains | emotion_diary_app_test.py:56 | `k in s` holds when s starts with k, and needs k to be no longer than s |
| Text.ContainsAt | emotion_diary_app_test.py:56 | `k in s` holds exactly when k occurs at some index of s |
| ChatLog.IsNoise | emotion_diary_app_test.py:56 | a noise message has at least four characters, the length of the shortest marker |
| ChatLog.MarkerIsNoise | emotion_diary_app_test.py:56 | a message that holds any of "[사진]", "이모티콘", "님이 입장", "님이 나갔", anywhere, is noise |
| ChatLog.IsHeader | emotion_diary_app_test.py:37 | a line that starts with the label is a header, and a header is at least as long as the label |
| ChatLog.Appended | emotion_diary_app_test.py:45-57 | one pass of the loop body: a header or a line met before collecting adds nothing, any other line adds what it keeps |
| ChatLog.Kept | emotion_diary_app_test.py:52-57 | a collecting non-header line adds at most one entry; it adds one exactly when it has non-noise content, and that entry is the content |
| ChatLog.KeptOfMatch | emotion_diary_app_test.py:52-57 | a proof helper tying the loop's `m` to `Kept`: the entry is the stripped group 3 of msg1, or of msg2 when msg1 fails, unless it is noise |
| ChatLog.Scan | emotion_diary_app_test.py:43-57 | the loop appends at most one entry per line |
| ChatLog.CollectingNeverStops | emotion_diary_app_test.py:45-50 | once collecting, every later non-header line is judged on its own: collection never ends |
| ChatLog.ScanFromFirstHeader | emotion_diary_app_test.py:43-48 | the entries are the messages of the lines after the first header; earlier lines and the header add nothing |
| ChatLog.ScanWithoutHeader | emotion_diary_app_test.py:34-48 | with no header, nothing is collected |
| ChatLog.ScanKeepsOnlyMessages | emotion_diary_app_test.py:52-57 | every entry is non-noise and is the stripped group 3 of msg1, or of msg2 where msg1 fails, on some non-header line |
| ChatLog.OtherDayDoesNotStop | emotion_diary_app_test.py:45-50 | a separator for another day, met while collecting, adds nothing and does not stop the collection, even with whitespace around it in the export |
| ChatLog.Recent | emotion_diary_app_test.py:58 | `chat[-30:]` keeps min(n, 30) entries, and they are the last ones in order |
| ChatLog.ExtractToday | emotion_diary_app_test.py:31-58 | the loop returns the last 30 entries of the scan, joined by "\n" |
| ChatLog.NoHeaderNoText | emotion_diary_app_test.py:34-58 | a log without the day's separator yields the empty string |
| ChatLog.ExtractedTextSplitsBack | emotion_diary_app_test.py:58 | when anything is retained, splitting the result at "\n" gives back exactly the retained entries |
| ChatLog.ScanHasNoLineBreak | emotion_diary_app_test.py:32-57 | no entry holds a line break |
| ChatLog.ContentHasNoLineBreak | emotion_diary_app_test.py:52-54 | the content of a single line holds no line break |
| Text.Join | emotion_diary_app_test.py:58 | joining starts with the first part, and joining no parts gives the empty string |
| Text.SplitJoin | emotion_diary_app_test.py:58 | joining parts that do not contain the separator and splitting again gives the parts back |
| DiaryPrompt.OrNone | emotion_diary_app_test.py:103-105 | an empty field shows as "없음"; any other field shows as itself; the result is never empty |
| DiaryPrompt.PlaceholderExactlyWhenEmpty | emotion_diary_app_test.py:103-105 | a field shows as "없음" exactly when it is empty or already reads "없음" |
| DiaryPrompt.ChosenSummary | emotion_diary_app_test.py:93 | the generated summary is used whenever it is non-empty; otherwise the manual one is used |
| DiaryPrompt.DiaryRequest | emotion_diary_app_test.py:97-105 | refused iff all three inputs are empty; otherwise every field is non-empty and is its input or the placeholder |
| DiaryPrompt.RequestCarriesAnInput | emotion_diary_app_test.py:97-105 | an accepted request shows at least one of its inputs verbatim |
| DiaryPrompt.NotAllPlaceholders | emotion_diary_app_test.py:97-105 | an accepted request never shows the placeholder in all three fields, unless an input literally reads "없음" |
| FineTune.HumanKey | Functionmodule.py:53 | the person's key for turn i is "HS" followed by digits that read back as i, exactly two of them for i below 100 |
| FineTune.SystemKey | Functionmodule.py:54 | the counsellor's key for turn i is "SS" followed by digits that read back as i, exactly two of them for i below 100 |
| FineTune.KeysDistinct | Functionmodule.py:53-54 | keys of different turns differ, and a person's key is never a counsellor's |
| Text.Pad2 | Functionmodule.py:53-54 | `02d` gives at least two digits, a leading zero exactly below 10, and exactly two digits below 100 |
| Text.Pad2RoundTrip | Functionmodule.py:53-54 | the zero-padded rendering reads back as the number |
| FineTune.ContentOf | Functionmodule.py:48 | an absent talk or content reads as the empty map; otherwise the content itself |
| FineTune.HasTurn | Functionmodule.py:53-56 | the test of line 56: both the person's and the counsellor's key of turn i are present |
| FineTune.TurnAt | Functionmodule.py:57-60 | the pair appended for turn i: the person's words under "human", the counsellor's under "assistant" |
| FineTune.TurnIfPresent | Functionmodule.py:56-60 | turn i is listed exactly when both of its keys are present, with the two values |
| FineTune.ConversationByIndex | Functionmodule.py:51-62 | the conversation is turns 1, 2, 3 in that order, each present iff both keys are |
| FineTune.Conversation | Functionmodule.py:51-62 | at most three turns |
| FineTune.ExtractConversation | Functionmodule.py:46-62 | the loop over i = 1..3 returns the conversation of the record's content |
| FineTune.NoContentNoTurns | Functionmodule.py:48 | a record without talk or content has no turns |
| FineTune.EmotionKind | Functionmodule.py:66-70 | `emotion.get('type', '')` is the type when profile, emotion and type are present; any non-empty result is that type |
| FineTune.EmotionSituation | Functionmodule.py:66-71 | `emotion.get('situation', [])` is the situation when present; any result other than "[]" is that situation |
| FineTune.PersonaContext | Functionmodule.py:64-74 | the context starts with the counsellor preamble, ends with the closing request, and quotes the emotion type right after "상대방의 감정 상태는 '" |
| FineTune.PersonaWithoutProfile | Functionmodule.py:66-71 | without a profile, the type is '' and the situation is '[]' |
| FineTune.PersonaDeterminesKind | Functionmodule.py:69-72 | for one situation, different emotion types give different contexts |
| FineTune.FormatOf | Functionmodule.py:86-115 | a format name is unknown exactly when it is none of "openai", "alpaca", "conversation", "multi_turn"; a known format's name is the name given |
| FineTune.TurnSample | Functionmodule.py:88-113 | openai gives system/user/assistant messages; alpaca gives instruction/input/output; conversation gives context/question/answer; the fields come from the persona and the turn |
| FineTune.PerTurn | Functionmodule.py:88-113 | one sample per turn, the k-th from the k-th turn |
| FineTune.Exchanges | Functionmodule.py:119-121 | two messages per turn: user with the person's words at 2k, assistant with the answer at 2k+1 |
| FineTune.MultiTurnMessages | Functionmodule.py:118-121 | 1 + 2k messages: the system message with the context, then the exchanges |
| FineTune.MultiTurnRoles | Functionmodule.py:118-121 | roles run system, then user and assistant in strict alternation |
| FineTune.RecordSamples | Functionmodule.py:86-122 | per-turn formats give one sample per turn; multi_turn gives one sample iff there is a turn; unknown formats give none |
| FineTune.LineSamples | Functionmodule.py:124-126 | a line that failed to parse contributes nothing |
| FineTune.ConvertAll | Functionmodule.py:80-126 | the reference the conversion loop is proved equal to: every line's samples, in line order; ConvertAllAppend, SkippedLine and CountIsSum state its properties |
| FineTune.ConvertAllAppend | Functionmodule.py:80-126 | the output follows the input line order: converting two runs of lines concatenates their outputs |
| FineTune.SkippedLine | Functionmodule.py:124-126 | an unparseable line is skipped and the lines after it are still converted |
| FineTune.CountIsSum | Functionmodule.py:80-133 | the number of samples is the sum of per-line counts computed from the turns alone |
| FineTune.UnknownFormatYieldsNothing | Functionmodule.py:86-122 | an unrecognised format produces no samples |
| FineTune.NoContentNoSamples | Functionmodule.py:48-83 | a record without talk or content contributes nothing in any format |
| FineTune.PerTurnStep | Functionmodule.py:88-113 | adding a turn appends exactly its sample |
| FineTune.MultiTurnStep | Functionmodule.py:119-121 | adding a turn appends its user message and then its assistant message |
| FineTune.Reshape | Functionmodule.py:86-122 | the format dispatch with its loops yields the record's samples |
| FineTune.ConvertRecord | Functionmodule.py:83-122 | one parsed line yields the samples of its record |
| FineTune.ConvertToFinetuneFormat | Functionmodule.py:80-126 | the loop over all lines yields the conversion of the whole input |

## Left out

- The Streamlit interface is left out: upload, text areas, spinners, buttons and the
  result display.
- The OpenAI calls and the `json.loads` of their replies are left out. They are an
  external service.
- File reading is left out, including `decode("utf-8", errors="ignore")`. The text is a
  parameter.
- `datetime.now()` is left out. The date is a parameter of `DateLabel`.
- File reading, `json.loads` of input lines, `json.dumps`, file writing and the prints
  in `Functionmodule.py` are left out, as is `json_to_jsonl`. Each input line is given
  already parsed: `None` stands for a line that raised `JSONDecodeError`.
- JSON of another shape is left out; `content` is always a map of strings here. In the
  source, a line that is not an object, or whose `talk`, `profile` or `emotion` is
  present but not an object, raises an error other than `JSONDecodeError`, and the
  outer handler then abandons the whole conversion. A `content` that is a list or a
  string does not raise at the `in` tests of `Functionmodule.py:56`: the record just
  gets no turns, unless both keys turn up as elements or substrings, and then the
  indexing at line 58 raises. A `content` that is a number or null raises at line 56.
- JSON values are not modelled. Utterances stand for the JSON values of `content` as
  they are: they go into the samples unconverted, and `json.dumps` later serialises
  them. Only the emotion type and the situation pass through an f-string. They are
  strings standing for their `str()` rendering, including the Python repr of a list
  situation.
- The matchers `IsHeader`, `Msg1`, `Msg2` (and so `Content`, `Msg1Form`, `Msg2Form`)
  read the regular expression's `.` as any character. Python's `.` does not match
  '\n', so they are faithful only on strings without '\n'. Every line `splitlines`
  yields, and so every line the scan tests, is such a string. On a string holding '\n'
  they can match where Python does not, or capture more than Python's group 3.
- Unicode digits are left out: `\d` is modelled as ASCII 0-9.
- `IsSpace` is the exact set Python's `str.isspace` and `\s` accept. `splitlines`
  breaks on exactly Python's line-break set, with "\r\n" as one break.
- `emotion_diary_app.py` and `main.py` are not part of this model. They hold a UI and
  hard-coded completion requests with no logic of their own.
- The choice at `emotion_diary_app_test.py:61` is left out. It uses the extracted
  chat log when a file was uploaded and the empty string otherwise. The upload is UI
  state.
