/**
 The scan driver: the output file name, the site-restricted query for each
 dork, the findings gathered from the search provider's answers, and the rows
 written to the result file. The provider is not part of this model: the
 answer to the i-th request is the i-th `SearchOutcome` given to the scan,
 either `Failure` (the call raised) or `Success` with the items it returned.
 */
module Scan {
  import opened Wrappers
  import opened Strings

  /** One item of a search answer; `href` is what `result.get("href")` gives. */
  datatype SearchItem = SearchItem(href: Option<string>)

  /** The outcome of one provider call. */
  datatype SearchOutcome = Failure | Success(items: seq<SearchItem>)

  /** A matched URL together with the dork whose search returned it. */
  datatype Finding = Finding(dork: string, url: string)

  /** The provider call made for one dork: the query text and the result cap. */
  datatype SearchRequest = SearchRequest(query: string, maxResults: int)

  /** A clock reading, as `datetime.now()` gives it. */
  datatype Timestamp = Timestamp(year: int, month: int, day: int, hour: int, minute: int, second: int)

  /** The ranges `datetime` keeps its fields in, with a four-digit year. */
  predicate ValidTimestamp(t: Timestamp) {
    && 1000 <= t.year <= 9999
    && 1 <= t.month <= 12
    && 1 <= t.day <= 31
    && 0 <= t.hour <= 23
    && 0 <= t.minute <= 59
    && 0 <= t.second <= 59
  }

  /** The clock reading formatted with `%Y%m%d_%H%M%S`: fifteen characters, digits around one `_`. */
  function FormatTimestamp(t: Timestamp): (r: string)
    requires ValidTimestamp(t)
    ensures |r| == 15 && r[8] == '_'
    ensures forall k :: 0 <= k < 15 && k != 8 ==> IsDigit(r[k])
  {
    Padded(t.year, 4) + Padded(t.month, 2) + Padded(t.day, 2) + "_"
    + Padded(t.hour, 2) + Padded(t.minute, 2) + Padded(t.second, 2)
  }

  /** Each field of the clock reading can be read back from its place in the formatted text. */
  lemma FormatTimestampFields(t: Timestamp)
    requires ValidTimestamp(t)
    ensures var r := FormatTimestamp(t);
      && DigitsValue(r[0..4]) == t.year
      && DigitsValue(r[4..6]) == t.month
      && DigitsValue(r[6..8]) == t.day
      && DigitsValue(r[9..11]) == t.hour
      && DigitsValue(r[11..13]) == t.minute
      && DigitsValue(r[13..15]) == t.second
  {
    var y, mo, d := Padded(t.year, 4), Padded(t.month, 2), Padded(t.day, 2);
    var h, mi, se := Padded(t.hour, 2), Padded(t.minute, 2), Padded(t.second, 2);
    var r := FormatTimestamp(t);
    assert r == y + mo + d + "_" + h + mi + se;
    assert r[0..4] == y && r[4..6] == mo && r[6..8] == d;
    assert r[9..11] == h && r[11..13] == mi && r[13..15] == se;
    PaddedValue(t.year, 4);
    PaddedValue(t.month, 2);
    PaddedValue(t.day, 2);
    PaddedValue(t.hour, 2);
    PaddedValue(t.minute, 2);
    PaddedValue(t.second, 2);
  }

  /** The host part of the output name: the target's netloc with every `.` turned into `_`. */
  function HostName(netloc: string): (h: string)
    ensures |h| == |netloc|
    ensures forall k :: 0 <= k < |netloc| ==> h[k] != '.'
    ensures forall k :: 0 <= k < |netloc| ==> h[k] == (if netloc[k] == '.' then '_' else netloc[k])
  {
    Replace(netloc, '.', '_')
  }

  /**
   The output file name `<host>_scan_<timestamp>.csv`: a host part as long as
   the netloc, then `_scan_`, the fifteen characters of the timestamp, and the
   `.csv` extension.
   */
  function OutputFileName(netloc: string, now: Timestamp): (name: string)
    requires ValidTimestamp(now)
    ensures |name| == |netloc| + 25
    ensures name[..|netloc|] == HostName(netloc)
    ensures name[|netloc|..|netloc| + 6] == "_scan_"
    ensures name[|netloc| + 6..|netloc| + 21] == FormatTimestamp(now)
    ensures EndsWith(name, ".csv")
  {
    HostName(netloc) + "_scan_" + FormatTimestamp(now) + ".csv"
  }

  lemma MidnightStamp(t: Timestamp)
    requires t == Timestamp(2024, 1, 1, 0, 0, 0)
    ensures FormatTimestamp(t) == "20240101_000000"
  {
    assert Padded(2024, 4) == "2024";
    assert Padded(1, 2) == "01";
    assert Padded(0, 2) == "00";
  }

  lemma ExampleHost(netloc: string)
    requires netloc == "example.com"
    ensures HostName(netloc) == "example_com"
  {
  }

  /** The target `example.com` scanned at midnight on 1 January 2024. */
  lemma OutputFileNameExample(netloc: string, t: Timestamp)
    requires netloc == "example.com" && t == Timestamp(2024, 1, 1, 0, 0, 0)
    ensures OutputFileName(netloc, t) == "example_com_scan_20240101_000000.csv"
  {
    MidnightStamp(t);
    ExampleHost(netloc);
  }

  /**
   The search text for a dork, `site:<netloc> <dork>`. It splits back into its
   parts: the `site:` prefix, the netloc, one space, and then the dork, which
   is everything after it.
   */
  function SearchQuery(netloc: string, dork: string): (q: string)
    ensures |q| == |netloc| + |dork| + 6
    ensures q[..5] == "site:"
    ensures q[5..5 + |netloc|] == netloc
    ensures q[5 + |netloc|] == ' '
    ensures q[6 + |netloc|..] == dork
  {
    "site:" + netloc + " " + dork
  }

  /** For one target, different dorks give different queries. */
  lemma SearchQueryInjective(netloc: string, d1: string, d2: string)
    requires SearchQuery(netloc, d1) == SearchQuery(netloc, d2)
    ensures d1 == d2
  {
  }

  /** The provider calls for a list of dorks, one per dork in order. */
  function Requests(netloc: string, dorks: seq<string>, maxResults: int): seq<SearchRequest> {
    if dorks == [] then []
    else Requests(netloc, dorks[..|dorks| - 1], maxResults) + [SearchRequest(SearchQuery(netloc, dorks[|dorks| - 1]), maxResults)]
  }

  /** The i-th call searches `site:<netloc> <dork i>` with the result cap. */
  lemma {:induction false} RequestsAt(netloc: string, dorks: seq<string>, maxResults: int)
    ensures |Requests(netloc, dorks, maxResults)| == |dorks|
    ensures forall i :: 0 <= i < |dorks| ==>
      Requests(netloc, dorks, maxResults)[i] == SearchRequest(SearchQuery(netloc, dorks[i]), maxResults)
    decreases |dorks|
  {
    if dorks != [] {
      var front := dorks[..|dorks| - 1];
      RequestsAt(netloc, front, maxResults);
      assert forall i :: 0 <= i < |front| ==> front[i] == dorks[i];
    }
  }

  /** The item carries a URL the scanner keeps: an `href` that is present and non-empty. */
  predicate HasUrl(item: SearchItem) {
    item.href.Some? && item.href.value != ""
  }

  /** The findings one item adds for a dork. */
  function ItemFinding(dork: string, item: SearchItem): seq<Finding> {
    if HasUrl(item) then [Finding(dork, item.href.value)] else []
  }

  /** The findings a successful search adds, in item order. */
  function ItemFindings(dork: string, items: seq<SearchItem>): seq<Finding> {
    if items == [] then []
    else ItemFindings(dork, items[..|items| - 1]) + ItemFinding(dork, items[|items| - 1])
  }

  /** The findings one dork's search adds: none when the call failed. */
  function OutcomeFindings(dork: string, outcome: SearchOutcome): seq<Finding> {
    match outcome
    case Failure => []
    case Success(items) => ItemFindings(dork, items)
  }

  /** The findings of a whole scan, dork after dork. */
  function Findings(dorks: seq<string>, responses: seq<SearchOutcome>): seq<Finding>
    requires |dorks| == |responses|
  {
    if dorks == [] then []
    else
      Findings(dorks[..|dorks| - 1], responses[..|responses| - 1])
      + OutcomeFindings(dorks[|dorks| - 1], responses[|responses| - 1])
  }

  /** The number of items that carry a kept URL, counted from the front. */
  function UrlCount(items: seq<SearchItem>): nat {
    if items == [] then 0 else (if HasUrl(items[0]) then 1 else 0) + UrlCount(items[1..])
  }

  /** The number of URLs a search outcome carries: zero for a failed call. */
  function OutcomeCount(outcome: SearchOutcome): nat {
    match outcome
    case Failure => 0
    case Success(items) => UrlCount(items)
  }

  /** The sum of the per-dork counts. */
  function TotalCount(responses: seq<SearchOutcome>): nat {
    if responses == [] then 0 else OutcomeCount(responses[0]) + TotalCount(responses[1..])
  }

  /**
   Appends the findings of one successful search: a finding for each item
   with a non-empty `href`, in item order; the earlier findings stay as they are.
   */
  method AppendItemFindings(results: seq<Finding>, dork: string, items: seq<SearchItem>)
    returns (extended: seq<Finding>)
    ensures extended == results + ItemFindings(dork, items)
  {
    extended := results;
    var j := 0;
    while j < |items|
      invariant 0 <= j <= |items|
      invariant extended == results + ItemFindings(dork, items[..j])
    {
      var url := items[j].href;
      if url.Some? && url.value != "" {
        extended := extended + [Finding(dork, url.value)];
      }
      assert items[..j + 1][..j] == items[..j];
      j := j + 1;
    }
    assert items[..j] == items;
  }

  /**
   Runs the searches for the dorks in order and gathers the findings. Each
   request is the dork's site query with the result cap. A failed call adds
   nothing; a successful one adds a finding for each item with a non-empty
   `href`, in item order.
   */
  method CollectFindings(netloc: string, dorks: seq<string>, maxResults: int, responses: seq<SearchOutcome>)
    returns (results: seq<Finding>, requests: seq<SearchRequest>)
    requires |responses| == |dorks|
    ensures results == Findings(dorks, responses)
    ensures requests == Requests(netloc, dorks, maxResults)
  {
    results, requests := [], [];
    var i := 0;
    while i < |dorks|
      invariant 0 <= i <= |dorks|
      invariant results == Findings(dorks[..i], responses[..i])
      invariant requests == Requests(netloc, dorks[..i], maxResults)
    {
      var dork := dorks[i];
      var query := SearchQuery(netloc, dork);
      requests := requests + [SearchRequest(query, maxResults)];
      ghost var before := results;
      match responses[i] {
        case Failure =>
        case Success(items) =>
          results := AppendItemFindings(results, dork, items);
      }
      assert results == before + OutcomeFindings(dork, responses[i]);
      FindingsSnoc(dorks[..i], responses[..i], dork, responses[i]);
      assert dorks[..i + 1] == dorks[..i] + [dork];
      assert dorks[..i + 1][..i] == dorks[..i];
      assert responses[..i + 1] == responses[..i] + [responses[i]];
      i := i + 1;
    }
    assert dorks[..i] == dorks;
    assert responses[..i] == responses;
  }

  const ResultHeader: seq<string> := ["dork", "matched_url"]

  /** The rows of the result file: the header, then one `[dork, url]` row per finding in order. */
  method ResultRows(results: seq<Finding>) returns (rows: seq<seq<string>>)
    ensures |rows| == |results| + 1
    ensures rows[0] == ResultHeader
    ensures forall k :: 0 <= k < |results| ==> rows[k + 1] == [results[k].dork, results[k].url]
  {
    rows := [ResultHeader];
    var k := 0;
    while k < |results|
      invariant 0 <= k <= |results|
      invariant |rows| == k + 1 && rows[0] == ResultHeader
      invariant forall m :: 0 <= m < k ==> rows[m + 1] == [results[m].dork, results[m].url]
    {
      rows := rows + [[results[k].dork, results[k].url]];
      k := k + 1;
    }
  }

  /**
   One scan of a target: the output name is fixed from the netloc and the clock
   reading, the searches are run, and the rows for the result file are built.
   */
  method ScanWithProgress(netloc: string, now: Timestamp, dorks: seq<string>, maxResults: int,
                          responses: seq<SearchOutcome>)
    returns (results: seq<Finding>, outputFile: string, requests: seq<SearchRequest>, rows: seq<seq<string>>)
    requires ValidTimestamp(now)
    requires |responses| == |dorks|
    ensures outputFile == OutputFileName(netloc, now)
    ensures results == Findings(dorks, responses)
    ensures requests == Requests(netloc, dorks, maxResults)
    ensures |rows| == |results| + 1 && rows[0] == ResultHeader
    ensures forall k :: 0 <= k < |results| ==> rows[k + 1] == [results[k].dork, results[k].url]
  {
    outputFile := OutputFileName(netloc, now);
    results, requests := CollectFindings(netloc, dorks, maxResults, responses);
    rows := ResultRows(results);
  }

  /** Splitting an answer's items splits its findings in the same order. */
  lemma {:induction false} ItemFindingsAppend(dork: string, a: seq<SearchItem>, b: seq<SearchItem>)
    ensures ItemFindings(dork, a + b) == ItemFindings(dork, a) + ItemFindings(dork, b)
    decreases |b|
  {
    if b == [] {
      assert a + b == a;
    } else {
      var b' := b[..|b| - 1];
      assert (a + b)[..|a + b| - 1] == a + b';
      assert (a + b)[|a + b| - 1] == b[|b| - 1];
      ItemFindingsAppend(dork, a, b');
    }
  }

  /** One more dork appends its own findings after the earlier ones. */
  lemma FindingsSnoc(dorks: seq<string>, responses: seq<SearchOutcome>, dork: string, outcome: SearchOutcome)
    requires |dorks| == |responses|
    ensures Findings(dorks + [dork], responses + [outcome]) == Findings(dorks, responses) + OutcomeFindings(dork, outcome)
  {
    assert (dorks + [dork])[..|dorks|] == dorks;
    assert (responses + [outcome])[..|responses|] == responses;
  }

  /** Splitting the dork list splits the findings: the scan is a concatenation, dork by dork. */
  lemma {:induction false} FindingsAppend(d1: seq<string>, r1: seq<SearchOutcome>, d2: seq<string>, r2: seq<SearchOutcome>)
    requires |d1| == |r1| && |d2| == |r2|
    ensures Findings(d1 + d2, r1 + r2) == Findings(d1, r1) + Findings(d2, r2)
    decreases |d2|
  {
    if d2 == [] {
      assert d1 + d2 == d1 && r1 + r2 == r1;
    } else {
      var n := |d2| - 1;
      var d2', r2' := d2[..n], r2[..n];
      var last := OutcomeFindings(d2[n], r2[n]);
      assert d2 == d2' + [d2[n]] && r2 == r2' + [r2[n]];
      assert d1 + d2 == (d1 + d2') + [d2[n]] && r1 + r2 == (r1 + r2') + [r2[n]];
      calc {
        Findings(d1 + d2, r1 + r2);
        { FindingsSnoc(d1 + d2', r1 + r2', d2[n], r2[n]); }
        Findings(d1 + d2', r1 + r2') + last;
        { FindingsAppend(d1, r1, d2', r2'); }
        (Findings(d1, r1) + Findings(d2', r2')) + last;
        Findings(d1, r1) + (Findings(d2', r2') + last);
        { FindingsSnoc(d2', r2', d2[n], r2[n]); }
        Findings(d1, r1) + Findings(d2, r2);
      }
    }
  }

  /** The findings of a single dork. */
  lemma FindingsSingle(dork: string, outcome: SearchOutcome)
    ensures Findings([dork], [outcome]) == OutcomeFindings(dork, outcome)
  {
    assert [dork][..0] == [] && [outcome][..0] == [];
  }

  /** Later searches only append: the findings after the first `i` dorks stay a prefix of the final list. */
  lemma FindingsPrefix(dorks: seq<string>, responses: seq<SearchOutcome>, i: nat)
    requires |dorks| == |responses| && i <= |dorks|
    ensures Findings(dorks[..i], responses[..i]) <= Findings(dorks, responses)
  {
    assert dorks == dorks[..i] + dorks[i..];
    assert responses == responses[..i] + responses[i..];
    FindingsAppend(dorks[..i], responses[..i], dorks[i..], responses[i..]);
  }

  /** A failed search can be dropped from the scan without changing its findings. */
  lemma FailedSearchAddsNothing(d1: seq<string>, r1: seq<SearchOutcome>, dork: string, d2: seq<string>, r2: seq<SearchOutcome>)
    requires |d1| == |r1| && |d2| == |r2|
    ensures Findings(d1 + [dork] + d2, r1 + [Failure] + r2) == Findings(d1 + d2, r1 + r2)
  {
    FindingsAppend(d1 + [dork], r1 + [Failure], d2, r2);
    FindingsAppend(d1, r1, [dork], [Failure]);
    FindingsSingle(dork, Failure);
    FindingsAppend(d1, r1, d2, r2);
  }

  /** A successful search appends exactly its own findings, after those of the earlier dorks. */
  lemma SuccessfulSearchAppends(dorks: seq<string>, responses: seq<SearchOutcome>, dork: string, items: seq<SearchItem>)
    requires |dorks| == |responses|
    ensures Findings(dorks + [dork], responses + [Success(items)]) == Findings(dorks, responses) + ItemFindings(dork, items)
  {
    FindingsAppend(dorks, responses, [dork], [Success(items)]);
    FindingsSingle(dork, Success(items));
  }

  /** Counting from the back gives the same number as counting from the front. */
  lemma {:induction false} UrlCountSnoc(items: seq<SearchItem>, item: SearchItem)
    ensures UrlCount(items + [item]) == UrlCount(items) + (if HasUrl(item) then 1 else 0)
    decreases |items|
  {
    if items == [] {
      assert [] + [item] == [item];
      assert [item][1..] == [];
    } else {
      assert (items + [item])[1..] == items[1..] + [item];
      UrlCountSnoc(items[1..], item);
    }
  }

  /** A successful search adds as many findings as it has items with a kept URL. */
  lemma {:induction false} ItemFindingsCount(dork: string, items: seq<SearchItem>)
    ensures |ItemFindings(dork, items)| == UrlCount(items)
    decreases |items|
  {
    if items != [] {
      var front := items[..|items| - 1];
      ItemFindingsCount(dork, front);
      assert items == front + [items[|items| - 1]];
      UrlCountSnoc(front, items[|items| - 1]);
    }
  }

  lemma {:induction false} TotalCountSnoc(responses: seq<SearchOutcome>, outcome: SearchOutcome)
    ensures TotalCount(responses + [outcome]) == TotalCount(responses) + OutcomeCount(outcome)
    decreases |responses|
  {
    if responses == [] {
      assert [] + [outcome] == [outcome];
      assert [outcome][1..] == [];
    } else {
      assert (responses + [outcome])[1..] == responses[1..] + [outcome];
      TotalCountSnoc(responses[1..], outcome);
    }
  }

  /** The number of findings is the sum, over the dorks, of the URLs each search returned. */
  lemma {:induction false} FindingsCount(dorks: seq<string>, responses: seq<SearchOutcome>)
    requires |dorks| == |responses|
    ensures |Findings(dorks, responses)| == TotalCount(responses)
    decreases |dorks|
  {
    if dorks != [] {
      var n := |dorks| - 1;
      FindingsCount(dorks[..n], responses[..n]);
      assert responses == responses[..n] + [responses[n]];
      TotalCountSnoc(responses[..n], responses[n]);
      match responses[n] {
        case Failure =>
        case Success(items) => ItemFindingsCount(dorks[n], items);
      }
    }
  }

  /** When every outcome carries `n` URLs, the sum over `k` outcomes is `k * n`. */
  lemma {:induction false} TotalCountUniform(responses: seq<SearchOutcome>, n: nat)
    requires forall i :: 0 <= i < |responses| ==> OutcomeCount(responses[i]) == n
    ensures TotalCount(responses) == |responses| * n
    decreases |responses|
  {
    if responses != [] {
      var rest := responses[1..];
      assert forall i :: 0 <= i < |rest| ==> rest[i] == responses[i + 1];
      TotalCountUniform(rest, n);
      assert |responses| * n == n + |rest| * n;
    }
  }

  /** When every search succeeds with `n` URLs, `k` dorks give `k * n` findings. */
  lemma UniformScan(dorks: seq<string>, responses: seq<SearchOutcome>, n: nat)
    requires |dorks| == |responses|
    requires forall i :: 0 <= i < |responses| ==> responses[i].Success? && UrlCount(responses[i].items) == n
    ensures |Findings(dorks, responses)| == |dorks| * n
  {
    FindingsCount(dorks, responses);
    TotalCountUniform(responses, n);
  }

  /**
   A finding belongs to an answer exactly when one of its items has that
   non-empty URL and the finding names the dork searched for.
   */
  lemma {:induction false} ItemFindingsMember(dork: string, items: seq<SearchItem>, f: Finding)
    ensures f in ItemFindings(dork, items) <==>
      f.dork == dork && f.url != "" && exists k :: 0 <= k < |items| && items[k].href == Some(f.url)
    decreases |items|
  {
    if items != [] {
      var front := items[..|items| - 1];
      ItemFindingsMember(dork, front, f);
      if exists k :: 0 <= k < |front| && front[k].href == Some(f.url) {
        var k :| 0 <= k < |front| && front[k].href == Some(f.url);
        assert items[k] == front[k];
      }
      if exists k :: 0 <= k < |items| && items[k].href == Some(f.url) {
        var k :| 0 <= k < |items| && items[k].href == Some(f.url);
        if k < |front| {
          assert front[k] == items[k];
        }
      }
    }
  }

  /** Every finding names one of the scanned dorks, whose search succeeded, and a non-empty URL. */
  lemma {:induction false} FindingSource(dorks: seq<string>, responses: seq<SearchOutcome>, f: Finding) returns (i: nat)
    requires |dorks| == |responses|
    requires f in Findings(dorks, responses)
    ensures i < |dorks| && f.dork == dorks[i] && f.url != "" && responses[i].Success?
    ensures exists k :: 0 <= k < |responses[i].items| && responses[i].items[k].href == Some(f.url)
    decreases |dorks|
  {
    var n := |dorks| - 1;
    if f in Findings(dorks[..n], responses[..n]) {
      i := FindingSource(dorks[..n], responses[..n], f);
      assert dorks[..n][i] == dorks[i] && responses[..n][i] == responses[i];
    } else {
      i := n;
      match responses[n] {
        case Success(items) => ItemFindingsMember(dorks[n], items, f);
      }
    }
  }

  /** Every item with a non-empty `href` in a successful answer yields a finding for its dork. */
  lemma FindingComplete(dorks: seq<string>, responses: seq<SearchOutcome>, i: nat, k: nat)
    requires |dorks| == |responses| && i < |dorks|
    requires responses[i].Success? && k < |responses[i].items| && HasUrl(responses[i].items[k])
    ensures Finding(dorks[i], responses[i].items[k].href.value) in Findings(dorks, responses)
  {
    var f := Finding(dorks[i], responses[i].items[k].href.value);
    ItemFindingsMember(dorks[i], responses[i].items, f);
    assert dorks == dorks[..i] + [dorks[i]] + dorks[i + 1..];
    assert responses == responses[..i] + [responses[i]] + responses[i + 1..];
    FindingsAppend(dorks[..i] + [dorks[i]], responses[..i] + [responses[i]], dorks[i + 1..], responses[i + 1..]);
    FindingsSnoc(dorks[..i], responses[..i], dorks[i], responses[i]);
  }
}
