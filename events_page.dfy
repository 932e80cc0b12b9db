/** The public event list page. `fetchEvents` builds the list URL from the (debounced)
    search text and the selected category and shows the events of the answer. The
    event service's base URL is a parameter; the HTTP call is a function from the URL to
    its answer. */
module EventsPage {
  import opened Common
  import opened JsString
  import opened UriEncoding
  import opened EventModel

  /** The query string: `search` (percent-encoded) and then `category` (verbatim), each
      only when non-empty, joined by '&'. */
  function Query(search: string, category: string): string {
    if category == "" then "search=" + EncodeURIComponent(search)
    else if search == "" then "category=" + category
    else "search=" + EncodeURIComponent(search) + "&category=" + category
  }

  /** The list URL: the collection path, followed by '?' and the query string when a
      filter is set. */
  function ListUrl(base: string, search: string, category: string): (url: string)
    ensures url == base + "/events" <==> search == "" && category == ""
  {
    var path := base + "/events";
    if search == "" && category == "" then path else path + "?" + Query(search, category)
  }

  /** `fetchEvents`' URL construction: collect the parameters, then append them after a
      '?' joined by '&' when there are any. */
  method BuildListUrl(base: string, search: string, category: string) returns (url: string)
    ensures url == ListUrl(base, search, category)
  {
    url := base + "/events";
    var params: seq<string> := [];
    if search != "" {
      params := params + ["search=" + EncodeURIComponent(search)];
    }
    if category != "" {
      params := params + ["category=" + category];
    }
    JoinedParameters(search, category, params);
    if |params| > 0 {
      url := url + "?" + Join(params, '&');
    }
  }

  /** The parameters `fetchEvents` collects, joined by '&', are the query string. */
  lemma JoinedParameters(search: string, category: string, params: seq<string>)
    requires params == (if search != "" then ["search=" + EncodeURIComponent(search)] else [])
                       + (if category != "" then ["category=" + category] else [])
    ensures |params| > 0 <==> search != "" || category != ""
    ensures |params| > 0 ==> Join(params, '&') == Query(search, category)
  {
    if search != "" && category != "" {
      JoinPair(params[0], params[1], '&');
    }
  }

  /** With neither filter the URL is the bare collection path. */
  lemma NoFiltersNoQuery(base: string)
    ensures ListUrl(base, "", "") == base + "/events"
  {
  }

  /** The URL always starts with the collection path. */
  lemma PathComesFirst(base: string, search: string, category: string)
    ensures var url := ListUrl(base, search, category);
      |url| >= |base| + 7 && url[..|base| + 7] == base + "/events"
  {
    var path := base + "/events";
    var url := ListUrl(base, search, category);
    assert url == path + url[|path|..];
  }

  /** One '?' between two strings without one. */
  lemma OneMark(a: string, b: string)
    requires '?' !in a && '?' !in b
    ensures CountChar(a + "?" + b, '?') == 1
  {
    CountCharAppend(a + "?", b, '?');
    CountCharAppend(a, "?", '?');
    CountCharAbsent(a, '?');
    CountCharAbsent(b, '?');
  }

  /** A parameter `name=value` holds no '?' or '&' when its value holds none. */
  lemma ParameterClean(name: string, value: string, c: char)
    requires c !in name && c !in value
    ensures c !in name + value
  {
    assert forall i :: |name| <= i < |name + value| ==> (name + value)[i] == value[i - |name|];
  }

  /** The query string holds no '?' when the category holds none. */
  lemma QueryHasNoMark(search: string, category: string)
    requires '?' !in category
    ensures '?' !in Query(search, category)
  {
    NoQuerySeparators(search);
    var enc := EncodeURIComponent(search);
    ParameterClean("search=", enc, '?');
    ParameterClean("category=", category, '?');
    ParameterClean("&category=", category, '?');
    ParameterClean("search=" + enc, "&category=" + category, '?');
    assert "search=" + enc + "&category=" + category == ("search=" + enc) + ("&category=" + category);
  }

  /** When neither the base nor the category holds a '?', the URL holds exactly one '?'
      if a filter is set and none otherwise: the encoded search text cannot add one. */
  lemma OneQueryMark(base: string, search: string, category: string)
    requires '?' !in base && '?' !in category
    ensures CountChar(ListUrl(base, search, category), '?') ==
      if search != "" || category != "" then 1 else 0
  {
    var path := base + "/events";
    ParameterClean(base, "/events", '?');
    if search == "" && category == "" {
      CountCharAbsent(path, '?');
    } else {
      QueryHasNoMark(search, category);
      OneMark(path, Query(search, category));
    }
  }

  /** The query string after the '?' splits on '&' back into the parameters, the search
      parameter first, provided the category holds no '&'. */
  lemma QuerySplitsIntoParameters(search: string, category: string)
    requires search != "" && category != "" && '&' !in category
    ensures Split("search=" + EncodeURIComponent(search) + "&category=" + category, '&') ==
      ["search=" + EncodeURIComponent(search), "category=" + category]
  {
    var enc := EncodeURIComponent(search);
    var first, second := "search=" + enc, "category=" + category;
    NoQuerySeparators(search);
    ParameterClean("search=", enc, '&');
    ParameterClean("category=", category, '&');
    assert first + "&category=" + category == first + ['&'] + second;
    SplitAtSeparator(first, second, '&');
    SplitNoSeparator(second, '&');
  }

  /** What the list request produced: the `events` field of the answer (possibly absent),
      or a failure (network error or non-2xx status). */
  datatype ListAnswer = ListFailed | Listed(events: Option<seq<EventRecord>>)

  /** The list the page shows for an answer: `response.data.events || []`, and `[]` after
      a failure. */
  function Shown(answer: ListAnswer): (events: seq<EventRecord>)
    ensures answer.ListFailed? ==> events == []
    ensures answer.Listed? && answer.events.Some? ==> events == answer.events.value
    ensures answer.Listed? && answer.events.None? ==> events == []
  {
    match answer
    case ListFailed => []
    case Listed(listed) => if listed.Some? then listed.value else []
  }

  /** The page's state. */
  class ListPage {
    var events: seq<EventRecord>
    var loading: bool

    constructor ()
      ensures events == [] && loading
    {
      events := [];
      loading := true;
    }

    /** `fetchEvents`: requests the list URL and shows what came back; `loading` is
        cleared on every path. */
    method FetchEvents(base: string, search: string, category: string, get: string -> ListAnswer)
      returns (url: string)
      modifies this
      ensures url == ListUrl(base, search, category)
      ensures events == Shown(get(url))
      ensures !loading
    {
      loading := true;
      url := BuildListUrl(base, search, category);
      var answer := get(url);
      if answer.ListFailed? {
        events := [];
      } else {
        events := if answer.events.Some? then answer.events.value else [];
      }
      loading := false;
    }
  }
}
