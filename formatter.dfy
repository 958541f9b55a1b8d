/**
 * main: the lines read by read_file are passed through
 * extract_candidate_strings, and the `candidates` list of every resulting
 * record is printed.
 */
module Formatter {
  import opened Wrappers
  import opened Py
  import Loader
  import Extractor

  /**
   * The values main prints, one per record that read_file yields, in
   * order, up to the first record whose extraction raises.
   */
  method Run(lines: seq<Record>) returns (printed: seq<Value>, failure: Option<Exception>)
    ensures |printed| <= |Loader.Admitted(lines)|
    ensures failure.None? <==> |printed| == |Loader.Admitted(lines)|
    ensures forall i :: 0 <= i < |printed| ==>
      Extractor.Extracted(Loader.Admitted(lines)[i]).Ok? &&
      printed[i] == Extractor.Extracted(Loader.Admitted(lines)[i]).value["candidates"]
    ensures failure.Some? ==>
      Extractor.Extracted(Loader.Admitted(lines)[|printed|]) == Err(failure.value)
  {
    var records := Loader.ReadFile(lines);
    var extracted;
    extracted, failure := Extractor.ExtractAll(records);
    printed := [];
    for i := 0 to |extracted|
      invariant |printed| == i
      invariant forall j :: 0 <= j < i ==> printed[j] == extracted[j]["candidates"]
    {
      printed := printed + [extracted[i]["candidates"]];
    }
  }
}
