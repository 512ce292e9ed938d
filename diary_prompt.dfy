/**
 * The input block of the diary request: each of the three fields is shown
 * as itself, or as the placeholder "없음" when it is empty, and the request
 * is refused when all three are empty.
 */
module DiaryPrompt {
  import opened Wrappers

  /** What an empty field is shown as ("none"). */
  const NonePlaceholder: string := "없음"

  /** `field or "없음"`: Python's `or` keeps a non-empty string and replaces the empty one. */
  function OrNone(field: string): (r: string)
    ensures r != []
    ensures field != [] ==> r == field
    ensures field == [] ==> r == NonePlaceholder
  {
    if field == [] then NonePlaceholder else field
  }

  /** The placeholder shows up exactly for an empty field, or for a field that already reads "없음". */
  lemma PlaceholderExactlyWhenEmpty(field: string)
    ensures OrNone(field) == NonePlaceholder <==> (field == [] || field == NonePlaceholder)
    ensures field != NonePlaceholder ==> (OrNone(field) == NonePlaceholder <==> field == [])
  {
  }

  /** `auto_summary or <manual summary>`: the generated summary wins whenever there is one. */
  function ChosenSummary(autoSummary: string, manualSummary: string): (r: string)
    ensures autoSummary != [] ==> r == autoSummary
    ensures autoSummary == [] ==> r == manualSummary
  {
    if autoSummary == [] then manualSummary else autoSummary
  }

  /** The three fields as the request shows them. */
  datatype DiaryInputs = DiaryInputs(searchLog: string, chatLog: string, userSummary: string)

  /**
   * The diary request for the day's conversation, search history and
   * summary: refused (None) when all three are empty, otherwise the three
   * fields with "없음" standing for each empty one.
   */
  function DiaryRequest(chatLog: string, searchLog: string, userSummary: string): (r: Option<DiaryInputs>)
    ensures r.None? <==> chatLog == [] && searchLog == [] && userSummary == []
    ensures r.Some? ==> r.value.searchLog != [] && r.value.chatLog != [] && r.value.userSummary != []
    ensures r.Some? ==> r.value == DiaryInputs(OrNone(searchLog), OrNone(chatLog), OrNone(userSummary))
  {
    if chatLog == [] && searchLog == [] && userSummary == [] then None
    else Some(DiaryInputs(OrNone(searchLog), OrNone(chatLog), OrNone(userSummary)))
  }

  /** A request that goes through shows at least one of its inputs verbatim and non-empty. */
  lemma RequestCarriesAnInput(chatLog: string, searchLog: string, userSummary: string)
    requires DiaryRequest(chatLog, searchLog, userSummary).Some?
    ensures var v := DiaryRequest(chatLog, searchLog, userSummary).value;
      (searchLog != [] && v.searchLog == searchLog)
      || (chatLog != [] && v.chatLog == chatLog)
      || (userSummary != [] && v.userSummary == userSummary)
  {
  }

  /** With every input literally different from "없음", a request showing the placeholder in all three fields cannot exist. */
  lemma NotAllPlaceholders(chatLog: string, searchLog: string, userSummary: string)
    requires chatLog != NonePlaceholder && searchLog != NonePlaceholder && userSummary != NonePlaceholder
    requires DiaryRequest(chatLog, searchLog, userSummary).Some?
    ensures var v := DiaryRequest(chatLog, searchLog, userSummary).value;
      !(v.searchLog == NonePlaceholder && v.chatLog == NonePlaceholder && v.userSummary == NonePlaceholder)
  {
  }
}
