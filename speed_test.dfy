/**
 * The `/api/speed-test` handler: every test file is downloaded (Promise.all), the report sums
 * the sizes and takes the longest download time, and a failure of any download sends the handler
 * to its error branch, which maps the error to an HTTP status by a fixed chain of checks.
 * Each download's outcome is an input, taken in the order of the test files.
 */
module SpeedTest {
  import opened Wrappers

  const TestFiles: seq<string> := [
    "https://cdn.jsdelivr.net/npm/bootstrap@5.3.2/dist/css/bootstrap.min.css",
    "https://cdn.jsdelivr.net/npm/jquery@3.7.1/dist/jquery.min.js",
    "https://cdn.jsdelivr.net/npm/axios@1.6.7/dist/axios.min.js"
  ]

  /** The parts of an error that the handler looks at. */
  datatype HttpReply = HttpReply(status: int, statusText: string)
  datatype AxiosError = AxiosError(code: Option<string>, response: Option<HttpReply>, hasRequest: bool, message: string)
  datatype FetchError = Axios(axios: AxiosError) | NonAxios

  /** One download: either its elapsed milliseconds and byte count, or the error it threw. */
  datatype Outcome = Downloaded(downloadTime: nat, fileSize: nat) | Failed(error: FetchError)

  /** One entry of `details` (the floating-point speed is not modelled). */
  datatype ProbeResult = ProbeResult(url: string, downloadTime: nat, fileSize: nat)

  /** The integer part of the JSON report. */
  datatype Report = Report(downloadTime: nat, fileSize: nat, details: seq<ProbeResult>)

  datatype Response =
    | Success(report: Report)
    | ErrorResponse(status: int, error: string, details: Option<string>)

  /** `await Promise.all(testFiles.map(...))`, taken in list order: every result, or the first error. */
  function ProbeAll(urls: seq<string>, outcomes: seq<Outcome>): (r: Result<seq<ProbeResult>, FetchError>)
    requires |urls| == |outcomes|
    ensures r.Ok? <==> forall i :: 0 <= i < |outcomes| ==> outcomes[i].Downloaded?
    ensures r.Ok? ==> |r.value| == |urls|
    ensures r.Ok? ==> forall i :: 0 <= i < |urls| ==>
              r.value[i] == ProbeResult(urls[i], outcomes[i].downloadTime, outcomes[i].fileSize)
    ensures r.Err? ==> exists i :: (0 <= i < |outcomes| && outcomes[i] == Failed(r.error) &&
                                    forall j :: 0 <= j < i ==> outcomes[j].Downloaded?)
  {
    if urls == [] then Ok([])
    else
      match outcomes[0]
      case Failed(e) => Err(e)
      case Downloaded(t, n) =>
        match ProbeAll(urls[1..], outcomes[1..])
        case Err(e) =>
          ghost var i :| 0 <= i < |outcomes| - 1 && outcomes[1..][i] == Failed(e) &&
                         forall j :: 0 <= j < i ==> outcomes[1..][j].Downloaded?;
          assert outcomes[i + 1] == Failed(e);
          Err(e)
        case Ok(rest) => Ok([ProbeResult(urls[0], t, n)] + rest)
  }

  /** `results.reduce((sum, r) => sum + r.fileSize, 0)`. */
  function TotalSize(results: seq<ProbeResult>): (total: nat)
    ensures forall i :: 0 <= i < |results| ==> results[i].fileSize <= total
  {
    if results == [] then 0 else results[0].fileSize + TotalSize(results[1..])
  }

  /** The total of two lists laid end to end is the sum of their totals. */
  lemma {:induction false} TotalSizeAppend(a: seq<ProbeResult>, b: seq<ProbeResult>)
    ensures TotalSize(a + b) == TotalSize(a) + TotalSize(b)
  {
    if a != [] {
      assert (a + b)[0] == a[0];
      assert (a + b)[1..] == a[1..] + b;
      TotalSizeAppend(a[1..], b);
    } else {
      assert a + b == b;
    }
  }

  /** `Math.max(...results.map(r => r.downloadTime))` for a non-empty list. */
  function MaxTime(results: seq<ProbeResult>): (longest: nat)
    requires |results| > 0
    ensures forall i :: 0 <= i < |results| ==> results[i].downloadTime <= longest
    ensures exists i :: 0 <= i < |results| && results[i].downloadTime == longest
  {
    if |results| == 1 then results[0].downloadTime
    else
      var rest := MaxTime(results[1..]);
      if results[0].downloadTime >= rest then results[0].downloadTime else rest
  }

  /** The axios error chain, in order: ECONNABORTED (timeout), a reply, a request with no reply,
      any other axios error; then anything that is not an axios error. */
  function Classify(e: FetchError): (r: Response)
    ensures r.ErrorResponse?
    ensures e.Axios? && e.axios.code == Some("ECONNABORTED") ==>
              r == ErrorResponse(408, "Speed test timed out", None)
    ensures e.Axios? && e.axios.code != Some("ECONNABORTED") && e.axios.response.Some? ==>
              r == ErrorResponse(e.axios.response.value.status, "Failed to perform speed test",
                                 Some(e.axios.response.value.statusText))
    ensures e.Axios? && e.axios.code != Some("ECONNABORTED") && e.axios.response.None? && e.axios.hasRequest ==>
              r == ErrorResponse(503, "No response received from test server", Some("Please check your internet connection"))
    ensures e.Axios? && e.axios.code != Some("ECONNABORTED") && e.axios.response.None? && !e.axios.hasRequest ==>
              r == ErrorResponse(500, "Failed to perform speed test", Some(e.axios.message))
    ensures e.NonAxios? ==> r == ErrorResponse(500, "Failed to perform speed test", Some("An unexpected error occurred"))
  {
    match e
    case NonAxios => ErrorResponse(500, "Failed to perform speed test", Some("An unexpected error occurred"))
    case Axios(a) =>
      if a.code == Some("ECONNABORTED") then ErrorResponse(408, "Speed test timed out", None)
      else if a.response.Some? then
        ErrorResponse(a.response.value.status, "Failed to perform speed test", Some(a.response.value.statusText))
      else if a.hasRequest then
        ErrorResponse(503, "No response received from test server", Some("Please check your internet connection"))
      else ErrorResponse(500, "Failed to perform speed test", Some(a.message))
  }

  /** A status other than 408, 503 and 500 can only be a remote reply's own status, and then
      the error was an axios error with that reply and no timeout code. */
  lemma ClassifiedStatus(e: FetchError)
    ensures var st := Classify(e).status;
            st == 408 || st == 503 || st == 500 ||
            (e.Axios? && e.axios.code != Some("ECONNABORTED") && e.axios.response.Some? &&
             st == e.axios.response.value.status)
  {
  }

  /** The `/api/speed-test` handler over the outcomes of the three downloads. */
  function RunSpeedTest(outcomes: seq<Outcome>): (r: Response)
    requires |outcomes| == |TestFiles|
    ensures r.Success? <==> forall i :: 0 <= i < |outcomes| ==> outcomes[i].Downloaded?
    ensures r.Success? ==>
              |r.report.details| == |TestFiles| &&
              (forall i :: 0 <= i < |TestFiles| ==>
                 r.report.details[i] == ProbeResult(TestFiles[i], outcomes[i].downloadTime, outcomes[i].fileSize)) &&
              r.report.fileSize == TotalSize(r.report.details) &&
              r.report.downloadTime == MaxTime(r.report.details)
    ensures r.ErrorResponse? ==> exists i :: (0 <= i < |outcomes| && outcomes[i].Failed? &&
                                              (forall j :: 0 <= j < i ==> outcomes[j].Downloaded?) &&
                                              r == Classify(outcomes[i].error))
  {
    match ProbeAll(TestFiles, outcomes)
    case Err(e) => Classify(e)
    case Ok(results) => Success(Report(MaxTime(results), TotalSize(results), results))
  }

  /** Three downloads of 100, 200 and 300 bytes taking 50, 100 and 150 ms: 600 bytes in all,
      150 ms for the longest. */
  lemma ExampleReport()
    ensures var r := RunSpeedTest([Downloaded(50, 100), Downloaded(100, 200), Downloaded(150, 300)]);
            r.Success? && r.report.fileSize == 600 && r.report.downloadTime == 150
  {
    var outcomes := [Downloaded(50, 100), Downloaded(100, 200), Downloaded(150, 300)];
    var results := ProbeAll(TestFiles, outcomes).value;
    assert results == [ProbeResult(TestFiles[0], 50, 100), ProbeResult(TestFiles[1], 100, 200), ProbeResult(TestFiles[2], 150, 300)];
    assert results[1..][1..] == [results[2]];
    assert TotalSize(results[1..][1..]) == 300;
    assert TotalSize(results[1..]) == 500;
    assert MaxTime(results[1..][1..]) == 150;
    assert MaxTime(results[1..]) == 150;
  }

  /** One failed download fails the whole test, whatever the others did. */
  lemma AnyFailureFailsAll(outcomes: seq<Outcome>, i: nat)
    requires |outcomes| == |TestFiles| && i < |outcomes| && outcomes[i].Failed?
    ensures RunSpeedTest(outcomes).ErrorResponse?
  {
  }
}
