/**
 * The mention node of the rich-text editor: how a mention of a person is
 * labelled (`getSafeLabel`), the three renderings built from that label
 * (`renderLabel`, `renderText`, `renderHTML`), and the empty-query guard of
 * the person search behind the suggestion list.
 *
 * The search itself is a foreign call: it is a function parameter, and its
 * failure (swallowed by `fetchItems`) is one of its results.
 */
module Mention {
  import opened Text
  import opened Actors

  /** The attributes of a mention node (`labelAttr` is its `label`). */
  datatype MentionAttrs = MentionAttrs(
    id: Option<string>,
    labelAttr: Option<string>,
    mentionSuggestionChar: Option<string>)

  /** `options.suggestion?.char`: the trigger character configured for suggestions, if any. */
  datatype RenderOptions = RenderOptions(suggestionChar: Option<string>)

  /** The `[tag, attributes, text]` triple `renderHTML` returns. */
  datatype MentionHtml = MentionHtml(tag: string, className: string, dataId: Option<string>, text: string)

  /** A label `getSafeLabel` shows: truthy, not the text "undefined", and not blank. */
  predicate UsableLabel(l: Option<string>) {
    Truthy(l) && l.value != "undefined" && !IsBlank(l.value)
  }

  /** The test `getSafeLabel` writes with `trim()`, which is `UsableLabel`. */
  function PassesLabelTest(l: Option<string>): (b: bool)
    ensures b <==> UsableLabel(l)
  {
    TrimEmptyIffBlank(OrEmpty(l));
    Truthy(l) && l.value != "undefined" && Trim(l.value) != ""
  }

  /**
   * `getSafeLabel(node)`: the node's label when it is usable, otherwise its
   * id, or "" without one.
   */
  function GetSafeLabel(attrs: MentionAttrs): (r: string)
    ensures UsableLabel(attrs.labelAttr) ==> r == attrs.labelAttr.value
    ensures !UsableLabel(attrs.labelAttr) ==> r == OrEmpty(attrs.id)
  {
    if PassesLabelTest(attrs.labelAttr) then attrs.labelAttr.value else OrEmpty(attrs.id)
  }

  /**
   * What the safe label can be: the text "undefined" or a blank text only
   * when it came from the id, and "" only when neither the label nor the id
   * can be shown.
   */
  lemma SafeLabelSources(attrs: MentionAttrs)
    ensures var r := GetSafeLabel(attrs);
            && (r == "undefined" ==> attrs.id == Some("undefined"))
            && (IsBlank(r) ==> r == OrEmpty(attrs.id))
            && (r == "" <==> !UsableLabel(attrs.labelAttr) && !Truthy(attrs.id))
  {
  }

  /**
   * The mention character: the node's own `mentionSuggestionChar` when
   * truthy, else the configured suggestion character when truthy, else "@".
   */
  function MentionChar(attrs: MentionAttrs, options: RenderOptions): (r: string)
    ensures Truthy(attrs.mentionSuggestionChar) ==> r == attrs.mentionSuggestionChar.value
    ensures !Truthy(attrs.mentionSuggestionChar) && Truthy(options.suggestionChar) ==>
              r == options.suggestionChar.value
    ensures !Truthy(attrs.mentionSuggestionChar) && !Truthy(options.suggestionChar) ==> r == "@"
    // a mention is never rendered without a leading character
    ensures r != ""
  {
    if Truthy(attrs.mentionSuggestionChar) then attrs.mentionSuggestionChar.value
    else if Truthy(options.suggestionChar) then options.suggestionChar.value
    else "@"
  }

  /** `renderLabel({options, node})`. */
  function RenderLabel(attrs: MentionAttrs, options: RenderOptions): (r: string)
    // the safe label, always preceded by at least one mention character
    ensures |r| > |GetSafeLabel(attrs)|
    ensures r[|r| - |GetSafeLabel(attrs)|..] == GetSafeLabel(attrs)
  {
    MentionChar(attrs, options) + GetSafeLabel(attrs)
  }

  /** `renderText({options, node})`, which repeats the composition of `renderLabel`. */
  function RenderText(attrs: MentionAttrs, options: RenderOptions): (r: string)
    ensures |r| > |GetSafeLabel(attrs)|
    ensures r[|r| - |GetSafeLabel(attrs)|..] == GetSafeLabel(attrs)
  {
    MentionChar(attrs, options) + GetSafeLabel(attrs)
  }

  /** `renderHTML({options, node})`: a "mention" span carrying the node id. */
  function RenderHtml(attrs: MentionAttrs, options: RenderOptions): (h: MentionHtml)
    ensures h.tag == "span" && h.className == "mention" && h.dataId == attrs.id
  {
    MentionHtml("span", "mention", attrs.id, MentionChar(attrs, options) + GetSafeLabel(attrs))
  }

  /**
   * The three renderings agree: label, plain text and the span's text are
   * one string, which is the mention character followed by the safe label,
   * and the label is recovered by dropping the character.
   */
  lemma RenderingsAgree(attrs: MentionAttrs, options: RenderOptions)
    ensures RenderLabel(attrs, options) == RenderText(attrs, options) == RenderHtml(attrs, options).text
    ensures var c, t := MentionChar(attrs, options), RenderText(attrs, options);
            |t| >= |c| && t[..|c|] == c && t[|c|..] == GetSafeLabel(attrs)
  {
  }

  /** A usable label shows as itself; otherwise the node's id shows instead. */
  lemma RenderedLabelSource(attrs: MentionAttrs, options: RenderOptions)
    ensures UsableLabel(attrs.labelAttr) ==>
              RenderText(attrs, options) == MentionChar(attrs, options) + attrs.labelAttr.value
    ensures !UsableLabel(attrs.labelAttr) ==>
              RenderText(attrs, options) == MentionChar(attrs, options) + OrEmpty(attrs.id)
  {
  }

  // ---------------------------------------------------------------------
  // The suggestion search
  // ---------------------------------------------------------------------

  /** How the person search settles: the page's elements, or a rejection. */
  datatype SearchResult = Found(elements: seq<ActorRecord>) | Failed

  /** The search query `SEARCH_PERSONS` with its `searchText`, as a foreign call. */
  type PersonSearch = string -> SearchResult

  /** The suggestions and the search text sent to the server, if a search was issued. */
  datatype Fetch = Fetch(items: seq<ActorRecord>, request: Option<string>)

  /**
   * `fetchItems(query)`: nothing for the empty query; otherwise the search
   * for the query, whose rejection is swallowed into an empty list.
   */
  function FetchItems(query: string, search: PersonSearch): (f: Fetch)
    ensures query == "" ==> f == Fetch([], None)
    ensures query != "" ==> f.request == Some(query)
    ensures query != "" && search(query).Found? ==> f.items == search(query).elements
    ensures query != "" && search(query).Failed? ==> f.items == []
  {
    if query == "" then Fetch([], None)
    else
      match search(query)
      case Found(elements) => Fetch(elements, Some(query))
      case Failed => Fetch([], Some(query))
  }

  /**
   * `suggestion.items({query})` for a call that no other call follows
   * within the debounce delay: the same guard, then `fetchItems`.
   */
  function SuggestionItems(query: string, search: PersonSearch): (f: Fetch)
    // a search is issued exactly for a non-empty query, and it is a search for that query
    ensures f.request.None? <==> query == ""
    ensures f.request.Some? ==> f.request.value == query
    ensures query == "" ==> f.items == []
  {
    if query == "" then Fetch([], None) else FetchItems(query, search)
  }

  /**
   * The guard in `suggestion.items` repeats the one in `fetchItems`: for
   * every query, a call on its own gives the same suggestions and issues
   * the same request, and the empty query issues none.
   */
  lemma SuggestionsAreFetchedItems(query: string, search: PersonSearch)
    ensures SuggestionItems(query, search) == FetchItems(query, search)
    ensures SuggestionItems(query, search).request.None? <==> query == ""
  {
  }

  // ---------------------------------------------------------------------
  // Debounced bursts of suggestion calls
  // ---------------------------------------------------------------------

  /**
   * The position of the last non-empty query of a burst: the last call
   * that reaches the debounced `fetchItems` (empty queries return before
   * reaching it).
   */
  function LastSearchIndex(queries: seq<string>): (j: Option<nat>)
    ensures j.None? <==> forall i :: 0 <= i < |queries| ==> queries[i] == ""
    ensures j.Some? ==> j.value < |queries| && queries[j.value] != ""
    ensures j.Some? ==> forall i :: j.value < i < |queries| ==> queries[i] == ""
  {
    if queries == [] then None
    else if queries[|queries| - 1] != "" then Some(|queries| - 1)
    else LastSearchIndex(queries[..|queries| - 1])
  }

  /** What each call of a burst resolves to, and the searches the burst issues. */
  datatype Burst = Burst(items: seq<seq<ActorRecord>>, requests: seq<string>)

  /**
   * A burst of `suggestion.items` calls, each made within 200 ms of the
   * previous one that reached `pDebounce(fetchItems, 200)`: the debounced
   * function runs `fetchItems` once, for the last of those calls, and
   * settles every one of them with that result. A call with the empty
   * query returns [] at once and takes no part in the burst.
   */
  function SuggestionBurst(queries: seq<string>, search: PersonSearch): (b: Burst)
    ensures |b.items| == |queries|
    ensures forall i :: 0 <= i < |queries| && queries[i] == "" ==> b.items[i] == []
    // at most one search, and none exactly when every query is empty
    ensures |b.requests| <= 1
    ensures b.requests == [] <==> forall i :: 0 <= i < |queries| ==> queries[i] == ""
    // the search is for the last non-empty query, and every non-empty call gets its result
    ensures b.requests != [] ==>
              LastSearchIndex(queries).Some? && b.requests[0] == queries[LastSearchIndex(queries).value]
    ensures b.requests != [] ==>
              forall i :: 0 <= i < |queries| && queries[i] != "" ==>
                b.items[i] == SuggestionItems(b.requests[0], search).items
  {
    match LastSearchIndex(queries)
    case None => Burst(seq(|queries|, i => []), [])
    case Some(j) =>
      var last := SuggestionItems(queries[j], search);
      Burst(seq(|queries|, i requires 0 <= i < |queries| => if queries[i] == "" then [] else last.items),
            [queries[j]])
  }

  /** A call alone in its burst is the isolated call `SuggestionItems` describes. */
  lemma LoneCallIsSuggestionItems(query: string, search: PersonSearch)
    ensures SuggestionBurst([query], search).items == [SuggestionItems(query, search).items]
    ensures SuggestionBurst([query], search).requests ==
              if query == "" then [] else [query]
  {
  }

  /**
   * A query typed on within the delay is never searched for: both calls
   * of the burst `[a, b]` settle with the suggestions for `b`, and only `b`
   * is sent to the server.
   */
  lemma SupersededQueryNotSearched(a: string, b: string, search: PersonSearch)
    requires a != "" && b != ""
    ensures SuggestionBurst([a, b], search).requests == [b]
    ensures SuggestionBurst([a, b], search).items ==
              [FetchItems(b, search).items, FetchItems(b, search).items]
  {
  }
}
