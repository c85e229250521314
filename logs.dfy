/**
 * `parseLogs`, the normaliser the client applies to the pipeline logs it
 * fetches: every entry value is parsed as JSON where possible, and the
 * elements of a `search_results` array are parsed one by one as well.
 * `JSON.parse` is a parameter: `parse(v)` is `None` exactly when it throws.
 */
module LogParsing {
  import opened Wrappers

  /** A JSON value. Numbers are kept abstract as integers; only their identity matters here. */
  datatype JsValue =
    | JsNull
    | JsBool(b: bool)
    | JsNumber(n: int)
    | JsString(s: string)
    | JsArray(items: seq<JsValue>)
    | JsObject(fields: seq<(string, JsValue)>)

  /** One log entry `{key, value}`, before and after normalisation. */
  datatype Entry = Entry(key: string, value: JsValue)

  /** One pipeline run `{run_id, run_type, entries}`. */
  datatype Run = Run(runId: string, runType: string, entries: seq<Entry>)

  const SearchResultsKey: string := "search_results"

  /** `try { JSON.parse(v) } catch { v }`: the parsed value, or `v` itself when parsing throws. */
  function ParseOrKeep(parse: JsValue -> Option<JsValue>, v: JsValue): JsValue {
    match parse(v)
    case Some(p) => p
    case None => v
  }

  /** The `search_results` element map: each element parsed on its own, falling back to itself. */
  function ParseElements(parse: JsValue -> Option<JsValue>, items: seq<JsValue>): (r: seq<JsValue>)
    ensures |r| == |items|
    ensures forall i :: 0 <= i < |items| ==> r[i] == ParseOrKeep(parse, items[i])
  {
    if items == [] then [] else [ParseOrKeep(parse, items[0])] + ParseElements(parse, items[1..])
  }

  /**
   * One entry: the key is kept; the value is parsed once; a `search_results`
   * value that parsed to an array then has its elements parsed.
   */
  function ParseEntry(parse: JsValue -> Option<JsValue>, e: Entry): (r: Entry)
    ensures r.key == e.key
    ensures e.key != SearchResultsKey ==> r.value == ParseOrKeep(parse, e.value)
    ensures !ParseOrKeep(parse, e.value).JsArray? ==> r.value == ParseOrKeep(parse, e.value)
    ensures e.key == SearchResultsKey && ParseOrKeep(parse, e.value).JsArray? ==>
      && r.value.JsArray?
      && |r.value.items| == |ParseOrKeep(parse, e.value).items|
      && forall i :: 0 <= i < |r.value.items| ==>
           r.value.items[i] == ParseOrKeep(parse, ParseOrKeep(parse, e.value).items[i])
  {
    var parsed := ParseOrKeep(parse, e.value);
    if e.key == SearchResultsKey && parsed.JsArray? then Entry(e.key, JsArray(ParseElements(parse, parsed.items)))
    else Entry(e.key, parsed)
  }

  /** The entries of one run, normalised one by one. */
  function ParseEntries(parse: JsValue -> Option<JsValue>, entries: seq<Entry>): (r: seq<Entry>)
    ensures |r| == |entries|
    ensures forall j :: 0 <= j < |entries| ==> r[j] == ParseEntry(parse, entries[j])
    ensures forall j :: 0 <= j < |entries| ==> r[j].key == entries[j].key
  {
    if entries == [] then [] else [ParseEntry(parse, entries[0])] + ParseEntries(parse, entries[1..])
  }

  /** `parseLogs(logs)` over `logs.results`: one record per run, in order, ids and types copied. */
  function ParseLogs(parse: JsValue -> Option<JsValue>, results: seq<Run>): (r: seq<Run>)
    ensures |r| == |results|
    ensures forall i :: 0 <= i < |results| ==>
      && r[i].runId == results[i].runId
      && r[i].runType == results[i].runType
      && r[i].entries == ParseEntries(parse, results[i].entries)
  {
    if results == [] then []
    else
      var run := results[0];
      [Run(run.runId, run.runType, ParseEntries(parse, run.entries))] + ParseLogs(parse, results[1..])
  }

  /** An entry whose string value does not parse is returned exactly as it came. */
  lemma UnparsableEntryKept(parse: JsValue -> Option<JsValue>, e: Entry)
    requires e.value.JsString? && parse(e.value).None?
    ensures ParseEntry(parse, e) == e
  {
  }

  /** Every entry of every run keeps its key, at the same run and position. */
  lemma KeysPreserved(parse: JsValue -> Option<JsValue>, results: seq<Run>, i: nat, j: nat)
    requires i < |results| && j < |results[i].entries|
    ensures j < |ParseLogs(parse, results)[i].entries|
    ensures ParseLogs(parse, results)[i].entries[j].key == results[i].entries[j].key
  {
  }

  /** Normalisation works run by run: the records of `a + b` are those of `a` followed by those of `b`. */
  lemma {:induction false} ParseLogsConcat(parse: JsValue -> Option<JsValue>, a: seq<Run>, b: seq<Run>)
    ensures ParseLogs(parse, a + b) == ParseLogs(parse, a) + ParseLogs(parse, b)
  {
    if a != [] {
      assert (a + b)[1..] == a[1..] + b;
      ParseLogsConcat(parse, a[1..], b);
    } else {
      assert a + b == b;
    }
  }

  /** With a parser that rejects every value, normalisation is the identity on the elements. */
  lemma RejectingParserKeepsElements(parse: JsValue -> Option<JsValue>, items: seq<JsValue>)
    requires forall v :: parse(v).None?
    ensures ParseElements(parse, items) == items
  {
  }

  /** With a parser that rejects every value, `parseLogs` returns the logs unchanged. */
  lemma RejectingParserKeepsLogs(parse: JsValue -> Option<JsValue>, results: seq<Run>)
    requires forall v :: parse(v).None?
    ensures ParseLogs(parse, results) == results
  {
    forall i | 0 <= i < |results| ensures ParseLogs(parse, results)[i] == results[i] {
      var es := results[i].entries;
      forall j | 0 <= j < |es| ensures ParseEntry(parse, es[j]) == es[j] {
        if es[j].key == SearchResultsKey && es[j].value.JsArray? {
          RejectingParserKeepsElements(parse, es[j].value.items);
        }
      }
    }
  }
}
