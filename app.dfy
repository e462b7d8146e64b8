/** `parseText` (src/App.jsx:109-115): the whole file's text becomes records, a summary and
    the anomaly report. The three results are what the component hands to `setRecords`,
    `setSummary` and, through `detectAnomalies`, `setAnomalies`. */
module App {
  import opened Text
  import opened JsValues
  import opened Records
  import opened LineParser
  import opened Detector

  /** `parseText(text)`, with the browser's date and JSON facilities in `host` and the
      `Date.now()` that `detectAnomalies` reads in `now`. `anomalies` is None when filing the
      records by source address throws. */
  method ParseText(host: Host, text: string, now: int) returns (records: seq<LogRecord>, total: nat, anomalies: Option<Anomalies>)
    ensures records == ParseRecords(host, text)
    ensures total == |records| && total <= Occurrences(text, '\n') + 1
    ensures anomalies == AnomaliesOf(records, now)
  {
    records := ParseRecords(host, text);
    total := |records|;
    anomalies := DetectAnomalies(records, now);
  }
}
