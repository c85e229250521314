/**
 * The log table: one run per page, a page button per run, three filter
 * tabs that choose which pipeline's logs are fetched, and per-entry
 * "Show More"/"Show Less" toggles keyed by `"<logIndex>-<entryIndex>"`.
 */
module LogTableView {
  import opened Wrappers
  import opened Text
  import opened LogParsing

  const LogsPerPage: nat := 1
  const NoLogsMessage: string := "No logs available."
  const Tabs: seq<string> := ["ALL", "RAG", "INGESTION"]

  // ---------------------------------------------------------------- pagination

  /** `Math.ceil(count / perPage)`. */
  function TotalPages(count: nat, perPage: nat): (r: nat)
    requires perPage > 0
    ensures count <= r * perPage
    ensures r > 0 ==> (r - 1) * perPage < count
    ensures perPage == 1 ==> r == count
  {
    (count + perPage - 1) / perPage
  }

  /** A JavaScript `slice` bound: negative counts from the end, then clamped to `0..len`. */
  function SliceBound(len: nat, k: int): (r: nat)
    ensures r <= len
    ensures 0 <= k <= len ==> r == k
    ensures k > len ==> r == len
  {
    if k < 0 then (if len + k < 0 then 0 else len + k) else if k > len then len else k
  }

  /** `s.slice(start, end)`: empty when the clamped end does not lie past the clamped start. */
  function JsSlice<T>(s: seq<T>, start: int, end: int): (r: seq<T>)
    ensures 0 <= start <= end <= |s| ==> r == s[start..end]
    ensures |r| <= |s|
  {
    var b, e := SliceBound(|s|, start), SliceBound(|s|, end);
    if e <= b then [] else s[b..e]
  }

  /** `currentLogs`: the runs on page `page` (pages count from 1). */
  function CurrentLogs(logs: seq<Run>, page: int): seq<Run> {
    JsSlice(logs, (page - 1) * LogsPerPage, page * LogsPerPage)
  }

  /** The text of the empty-table row: shown exactly when the page holds no run. */
  function EmptyRow(current: seq<Run>): (r: Option<string>)
    ensures r.Some? <==> |current| == 0
    ensures r.Some? ==> r.value == NoLogsMessage
  {
    if |current| > 0 then None else Some(NoLogsMessage)
  }

  /** Page `p` of `1..|logs|` shows exactly run `p - 1`. */
  lemma PageShowsOneRun(logs: seq<Run>, p: int)
    requires 1 <= p <= |logs|
    ensures CurrentLogs(logs, p) == [logs[p - 1]]
  {
  }

  /** A page of 0 or past the last run shows no run and the empty-table row. */
  lemma PageOutsideRangeIsEmpty(logs: seq<Run>, p: int)
    requires p == 0 || p > |logs|
    ensures CurrentLogs(logs, p) == []
    ensures EmptyRow(CurrentLogs(logs, p)) == Some(NoLogsMessage)
  {
  }

  /** No page ever shows more than one run. */
  lemma AtMostOneRunPerPage(logs: seq<Run>, p: int)
    ensures |CurrentLogs(logs, p)| <= LogsPerPage
  {
  }

  /**
   * A negative page would count from the end, as `slice` does (page -1
   * shows the second-to-last run). No handler sets such a page.
   */
  lemma NegativePageCountsFromEnd(logs: seq<Run>, p: int)
    requires p < 0 && |logs| + p - 1 >= 0
    ensures CurrentLogs(logs, p) == [logs[|logs| + p - 1]]
  {
  }

  // ---------------------------------------------------------------- collapse keys

  function DigitChar(d: nat): char
    requires d < 10
  {
    ('0' as int + d) as char
  }

  /** The decimal numeral of `n`, as a template literal prints a non-negative integer. */
  function NatToString(n: nat): (r: string)
    ensures |r| > 0
    ensures AllDigits(r)
  {
    if n < 10 then [DigitChar(n)] else NatToString(n / 10) + [DigitChar(n % 10)]
  }

  /** The value of a decimal numeral. */
  function NumeralValue(s: string): nat
    requires AllDigits(s)
  {
    if s == [] then 0
    else
      assert IsDigit(s[|s| - 1]);
      NumeralValue(s[..|s| - 1]) * 10 + (s[|s| - 1] as int - '0' as int)
  }

  /** Reading a printed number back gives the number. */
  lemma {:induction false} NumeralRoundTrip(n: nat)
    ensures NumeralValue(NatToString(n)) == n
  {
    if n >= 10 {
      var s := NatToString(n);
      assert s[..|s| - 1] == NatToString(n / 10);
      NumeralRoundTrip(n / 10);
    }
  }

  /** The collapse-state key of entry `entryIndex` of the run at `logIndex`. */
  function CollapseKey(logIndex: nat, entryIndex: nat): string {
    NatToString(logIndex) + "-" + NatToString(entryIndex)
  }

  /** The first '-' of a key made of a '-'-free part, '-' and a rest is right after the part. */
  lemma DashSplit(x: string, y: string)
    requires '-' !in x
    ensures IndexOf(x + "-" + y, "-") == Some(|x|)
  {
    NotContainsWithoutLead(x, "-");
    FirstOccurrence(x, "-", y);
  }

  /** Distinct (run, entry) index pairs have distinct keys. */
  lemma CollapseKeyInjective(a: nat, b: nat, c: nat, d: nat)
    requires CollapseKey(a, b) == CollapseKey(c, d)
    ensures a == c && b == d
  {
    var x1, y1, x2, y2 := NatToString(a), NatToString(b), NatToString(c), NatToString(d);
    var k := CollapseKey(a, b);
    DashSplit(x1, y1);
    DashSplit(x2, y2);
    assert |x1| == |x2|;
    assert x1 == k[..|x1|] == x2;
    assert y1 == k[|x1| + 1..] == y2;
    NumeralRoundTrip(a);
    NumeralRoundTrip(b);
    NumeralRoundTrip(c);
    NumeralRoundTrip(d);
  }

  // ---------------------------------------------------------------- collapse states

  /** `collapsedStates[key]`: a key never toggled reads as `undefined`, which is falsy. */
  function IsCollapsed(states: map<string, bool>, key: string): bool {
    key in states && states[key]
  }

  /** `toggleCollapse`: the state at `key` is negated; every other key keeps its value. */
  function ToggleCollapse(states: map<string, bool>, key: string): (r: map<string, bool>)
    ensures key in r && r[key] == !IsCollapsed(states, key)
    ensures forall k :: k != key ==> (k in r <==> k in states)
    ensures forall k :: k in states && k != key ==> r[k] == states[k]
  {
    states[key := !IsCollapsed(states, key)]
  }

  /** Toggling the same entry twice restores how every entry is shown. */
  lemma ToggleTwiceRestores(states: map<string, bool>, key: string, other: string)
    ensures IsCollapsed(ToggleCollapse(ToggleCollapse(states, key), key), other) == IsCollapsed(states, other)
  {
  }

  // ---------------------------------------------------------------- filter tabs

  /** ASCII lower-casing of one character. */
  function LowerChar(c: char): char {
    if 'A' <= c <= 'Z' then (c as int + 32) as char else c
  }

  /** ASCII lower-casing, the part of `toLowerCase` the tab names need. */
  function ToLower(s: string): (r: string)
    ensures |r| == |s|
    ensures forall i :: 0 <= i < |r| ==> !('A' <= r[i] <= 'Z')
    ensures forall i :: 0 <= i < |s| && !('A' <= s[i] <= 'Z') ==> r[i] == s[i]
  {
    seq(|s|, i requires 0 <= i < |s| => LowerChar(s[i]))
  }

  /** The pipeline type passed to `getLogs`: none for `ALL`, else the lower-cased tab name. */
  function PipelineFilter(tab: string): (r: Option<string>)
    ensures r.None? <==> tab == "ALL"
    ensures r.Some? ==> r.value == ToLower(tab)
  {
    if tab == "ALL" then None else Some(ToLower(tab))
  }

  /** The three tabs request all logs, the `rag` pipeline and the `ingestion` pipeline. */
  lemma TabFilters()
    ensures PipelineFilter(Tabs[0]) == None
    ensures PipelineFilter(Tabs[1]) == Some("rag")
    ensures PipelineFilter(Tabs[2]) == Some("ingestion")
  {
    LowerRag();
    LowerIngestion();
  }

  lemma LowerRag()
    ensures ToLower("RAG") == "rag"
  {
    var r := ToLower("RAG");
    assert r[0] == 'r' && r[1] == 'a' && r[2] == 'g';
  }

  lemma LowerIngestion()
    ensures ToLower("INGESTION") == "ingestion"
  {
    var r := ToLower("INGESTION");
    assert r[0] == 'i' && r[1] == 'n' && r[2] == 'g' && r[3] == 'e' && r[4] == 's';
    assert r[5] == 't' && r[6] == 'i' && r[7] == 'o' && r[8] == 'n';
  }

  // ---------------------------------------------------------------- component state

  /**
   * The component's state hooks. `requests` records, in order, the pipeline
   * filter of every `getLogs` request `fetchLogs` has issued; the responses
   * arrive through `ReceiveLogs`.
   */
  class LogTable {
    var collapsed: map<string, bool>
    var currentPage: int
    var selectedLogs: string
    var logs: seq<Run>
    var logFetchId: string
    var requests: seq<Option<string>>

    /** Pages are numbered from 1; every handler keeps the page at least 1. */
    predicate Valid()
      reads this
    {
      currentPage >= 1
    }

    /** The runs of the current page: the run numbered by the page, or none past the last page. */
    function Shown(): (r: seq<Run>)
      reads this
      ensures Valid() && currentPage <= |logs| ==> r == [logs[currentPage - 1]]
      ensures currentPage > |logs| ==> r == []
    {
      CurrentLogs(logs, currentPage)
    }

    /** The first render: initial state, then both effects run once (each resets the page and fetches). */
    constructor (fetchId: string)
      ensures Valid()
      ensures collapsed == map[] && currentPage == 1 && selectedLogs == "ALL" && logs == []
      ensures logFetchId == fetchId
      ensures requests == [None, None]
    {
      collapsed := map[];
      currentPage := 1;
      selectedLogs := "ALL";
      logs := [];
      logFetchId := fetchId;
      requests := [PipelineFilter("ALL"), PipelineFilter("ALL")];
    }

    /**
     * A tab click: the selection changes and, only when it differs from the
     * previous one, the `[selectedLogs]` effect resets the page and fetches.
     */
    method SelectTab(tab: string)
      requires Valid()
      modifies this
      ensures Valid()
      ensures selectedLogs == tab
      ensures tab != old(selectedLogs) ==> currentPage == 1 && requests == old(requests) + [PipelineFilter(tab)]
      ensures tab == old(selectedLogs) ==> currentPage == old(currentPage) && requests == old(requests)
      ensures collapsed == old(collapsed) && logs == old(logs) && logFetchId == old(logFetchId)
    {
      if tab != selectedLogs {
        selectedLogs := tab;
        currentPage := 1;
        requests := requests + [PipelineFilter(tab)];
      }
    }

    /** A new `logFetchID` prop: the `[logFetchID]` effect resets the page and fetches with the current tab. */
    method FetchIdChanged(fetchId: string)
      requires Valid()
      modifies this
      ensures Valid()
      ensures logFetchId == fetchId
      ensures fetchId != old(logFetchId) ==> currentPage == 1 && requests == old(requests) + [PipelineFilter(selectedLogs)]
      ensures fetchId == old(logFetchId) ==> currentPage == old(currentPage) && requests == old(requests)
      ensures collapsed == old(collapsed) && logs == old(logs) && selectedLogs == old(selectedLogs)
    {
      if fetchId != logFetchId {
        logFetchId := fetchId;
        currentPage := 1;
        requests := requests + [PipelineFilter(selectedLogs)];
      }
    }

    /** A `getLogs` response arriving: the runs are replaced; the page is left as it is. */
    method ReceiveLogs(data: seq<Run>)
      requires Valid()
      modifies this
      ensures Valid()
      ensures logs == data
      ensures currentPage == old(currentPage) && collapsed == old(collapsed) && requests == old(requests)
      ensures selectedLogs == old(selectedLogs) && logFetchId == old(logFetchId)
    {
      logs := data;
    }

    /** A click on page button `index` (buttons exist for `0 <= index < totalPages`) selects page `index + 1`. */
    method ClickPage(index: nat)
      requires Valid() && index < TotalPages(|logs|, LogsPerPage)
      modifies this
      ensures Valid()
      ensures collapsed == old(collapsed) && logs == old(logs) && requests == old(requests)
      ensures currentPage == index + 1
      ensures index < |logs| && Shown() == [logs[index]]
      ensures selectedLogs == old(selectedLogs) && logFetchId == old(logFetchId)
    {
      currentPage := index + 1;
      PageShowsOneRun(logs, currentPage);
    }

    /** A "Show More"/"Show Less" click on entry `entryIndex` of the run at `logIndex` of the page. */
    method Toggle(logIndex: nat, entryIndex: nat)
      requires Valid()
      modifies this
      ensures Valid()
      ensures collapsed == ToggleCollapse(old(collapsed), CollapseKey(logIndex, entryIndex))
      ensures IsCollapsed(collapsed, CollapseKey(logIndex, entryIndex)) == !IsCollapsed(old(collapsed), CollapseKey(logIndex, entryIndex))
      ensures forall i: nat, j: nat :: (i, j) != (logIndex, entryIndex) ==>
        IsCollapsed(collapsed, CollapseKey(i, j)) == IsCollapsed(old(collapsed), CollapseKey(i, j))
      ensures currentPage == old(currentPage) && logs == old(logs) && requests == old(requests)
      ensures selectedLogs == old(selectedLogs) && logFetchId == old(logFetchId)
    {
      var key := CollapseKey(logIndex, entryIndex);
      collapsed := ToggleCollapse(collapsed, key);
      forall i: nat, j: nat | (i, j) != (logIndex, entryIndex)
        ensures IsCollapsed(collapsed, CollapseKey(i, j)) == IsCollapsed(old(collapsed), CollapseKey(i, j))
      {
        if CollapseKey(i, j) == key {
          CollapseKeyInjective(i, j, logIndex, entryIndex);
        }
      }
    }
  }
}
