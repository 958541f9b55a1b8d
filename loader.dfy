/**
 * read_file: every decoded line is checked for the required keys; a line
 * that lacks one is skipped, every other line is passed on unchanged.
 */
module Loader {
  import opened Py
  import Seqs

  /** The keys a record must carry, in the order they are checked. */
  const RequiredFields: seq<string> :=
    ["example_id", "question_text", "document_text", "long_answer_candidates"]

  predicate HasRequired(obj: Record)
  {
    forall f :: f in RequiredFields ==> f in obj
  }

  /** The four keys read_file insists on, spelled out. */
  lemma RequiredKeys(obj: Record)
    ensures HasRequired(obj) <==>
      && "example_id" in obj
      && "question_text" in obj
      && "document_text" in obj
      && "long_answer_candidates" in obj
  {
  }

  /** The test `field not in obj`, as a value `Seqs.Filter` can use. */
  function NotIn(obj: Record): (test: string -> bool)
    ensures forall field :: test(field) <==> field !in obj
  {
    field => field !in obj
  }

  /** The `missing` list for `obj` if it were checked against `fields`. */
  function Absent(fields: seq<string>, obj: Record): (missing: seq<string>)
    ensures forall i :: 0 <= i < |missing| ==> missing[i] in fields && missing[i] !in obj
    ensures forall i :: 0 <= i < |fields| && fields[i] !in obj ==> fields[i] in missing
  {
    Seqs.Filter(fields, NotIn(obj))
  }

  /**
   * The inner loop of read_file: collects, in the order of
   * `RequiredFields`, exactly the required keys `obj` lacks; the list is
   * empty exactly when the record is kept.
   */
  method MissingFields(obj: Record) returns (missing: seq<string>)
    ensures missing == Absent(RequiredFields, obj)
    ensures forall f :: f in missing <==> f in RequiredFields && f !in obj
    ensures missing == [] <==> HasRequired(obj)
  {
    missing := [];
    for i := 0 to |RequiredFields|
      invariant missing == Absent(RequiredFields[..i], obj)
    {
      var field := RequiredFields[i];
      if field !in obj {
        missing := missing + [field];
      }
      AbsentStep(RequiredFields[..i], field, obj);
      assert RequiredFields[..i + 1] == RequiredFields[..i] + [field];
    }
    assert RequiredFields[..|RequiredFields|] == RequiredFields;
  }

  lemma AbsentStep(fields: seq<string>, field: string, obj: Record)
    ensures Absent(fields + [field], obj)
         == Absent(fields, obj) + (if field !in obj then [field] else [])
  {
    Seqs.FilterAppend(fields, [field], NotIn(obj));
    assert NotIn(obj)(field) == (field !in obj);
    assert [field][1..] == [];
  }

  /**
   * What read_file yields from the decoded lines `lines`: only lines that
   * carry every required key, and every such line.
   */
  function Admitted(lines: seq<Record>): (records: seq<Record>)
    ensures |records| <= |lines|
    ensures forall i :: 0 <= i < |records| ==> records[i] in lines && HasRequired(records[i])
    ensures forall i :: 0 <= i < |lines| && HasRequired(lines[i]) ==> lines[i] in records
  {
    Seqs.Filter(lines, HasRequired)
  }

  /** read_file over an already decoded sequence of lines. */
  method ReadFile(lines: seq<Record>) returns (records: seq<Record>)
    ensures records == Admitted(lines)
  {
    records := [];
    for i := 0 to |lines|
      invariant records == Admitted(lines[..i])
    {
      var obj := lines[i];
      var missing := MissingFields(obj);
      if missing == [] {
        records := records + [obj];
      }
      assert lines[..i + 1] == lines[..i] + [obj];
      Seqs.FilterAppend(lines[..i], [obj], HasRequired);
    }
    assert lines[..|lines|] == lines;
  }

  /**
   * A line is yielded iff it has every required key; the yielded lines are
   * the input lines themselves, unchanged and in input order.
   */
  lemma AdmittedExactly(lines: seq<Record>)
    ensures |Seqs.Positions(lines, HasRequired, 0)| == |Admitted(lines)|
    ensures forall j :: 0 <= j < |Admitted(lines)| ==>
      Seqs.Positions(lines, HasRequired, 0)[j] < |lines| &&
      Admitted(lines)[j] == lines[Seqs.Positions(lines, HasRequired, 0)[j]]
    ensures forall j, k :: 0 <= j < k < |Admitted(lines)| ==>
      Seqs.Positions(lines, HasRequired, 0)[j] < Seqs.Positions(lines, HasRequired, 0)[k]
    ensures forall i :: 0 <= i < |lines| ==>
      (HasRequired(lines[i]) <==> i in Seqs.Positions(lines, HasRequired, 0))
  {
    Seqs.FilterPositions(lines, HasRequired, 0);
    assert lines[0..] == lines;
  }

  /** Whether one line is skipped never affects what is yielded for the others. */
  lemma AdmittedAround(before: seq<Record>, line: Record, after: seq<Record>)
    ensures Admitted(before + [line] + after)
         == Admitted(before) + (if HasRequired(line) then [line] else []) + Admitted(after)
  {
    Seqs.FilterAppend(before + [line], after, HasRequired);
    Seqs.FilterAppend(before, [line], HasRequired);
  }

  /** A file whose every line has the required keys is yielded unchanged. */
  lemma AdmittedAll(lines: seq<Record>)
    requires forall i :: 0 <= i < |lines| ==> HasRequired(lines[i])
    ensures Admitted(lines) == lines
  {
    Seqs.FilterKeepsAll(lines, HasRequired);
  }
}
