/**
 * extract_candidate_strings: for every record, the document text is split
 * into whitespace tokens, every candidate span `{start_token, end_token}`
 * gains a `text` field holding the tokens of the span joined by single
 * spaces, and `long_answer_candidates` is replaced by `candidates`.
 */
module Extractor {
  import opened Wrappers
  import opened Py
  import Text

  /**
   * `candidate_offsets.get(key)` used as a slice bound: a missing key and
   * JSON null give `None`, `true`/`false` index as 1/0, and any other value
   * makes the slice raise TypeError.
   */
  function Offset(candidate: map<string, Value>, key: string): (r: Result<Option<int>, Exception>)
    ensures key !in candidate ==> r == Ok(None)
    ensures key in candidate && candidate[key].Null? ==> r == Ok(None)
    ensures key in candidate && candidate[key].Num? ==> r == Ok(Some(candidate[key].n))
    ensures key in candidate && candidate[key].Bool? ==>
      r == Ok(Some(if candidate[key].b then 1 else 0))
    ensures r.Err? <==> key in candidate && (candidate[key].Str? || candidate[key].Arr? || candidate[key].Obj?)
    ensures r.Err? ==> r.error.TypeError?
  {
    if key !in candidate then Ok(None)
    else match candidate[key]
      case Null => Ok(None)
      case Bool(b) => Ok(Some(if b then 1 else 0))
      case Num(n) => Ok(Some(n))
      case _ => Err(TypeError("slice indices must be integers or None"))
  }

  /**
   * `" ".join(document[start:stop])` for one candidate: it fails only on an
   * offset that cannot index, and over a tokenised document the text splits
   * back into exactly the tokens of the slice.
   */
  function CandidateText(document: seq<string>, candidate: map<string, Value>): (r: Result<string, Exception>)
    ensures r.Ok? <==> Offset(candidate, "start_token").Ok? && Offset(candidate, "end_token").Ok?
    ensures r.Err? ==> r.error.TypeError?
    ensures r.Ok? && Text.AllWords(document) ==>
      Text.Split(r.value)
      == Slice(document, Offset(candidate, "start_token").value, Offset(candidate, "end_token").value)
  {
    SliceOfWords(document, candidate);
    match Offset(candidate, "start_token")
    case Err(e) => Err(e)
    case Ok(start) =>
      match Offset(candidate, "end_token")
      case Err(e) => Err(e)
      case Ok(stop) => Ok(Text.Join(Slice(document, start, stop)))
  }

  lemma SliceOfWords(document: seq<string>, candidate: map<string, Value>)
    ensures Offset(candidate, "start_token").Ok? && Offset(candidate, "end_token").Ok?
            && Text.AllWords(document) ==>
      var tokens := Slice(document, Offset(candidate, "start_token").value, Offset(candidate, "end_token").value);
      Text.Split(Text.Join(tokens)) == tokens
  {
    if Offset(candidate, "start_token").Ok? && Offset(candidate, "end_token").Ok? && Text.AllWords(document) {
      var tokens := Slice(document, Offset(candidate, "start_token").value, Offset(candidate, "end_token").value);
      Text.SplitJoin(tokens);
    }
  }

  /**
   * One pass of the inner loop: the candidate, which must be a dict, with
   * its `text` field set; every other field is kept as it was.
   */
  function Enrich(document: seq<string>, candidate: Value): (r: Result<Value, Exception>)
    ensures r.Ok? <==> candidate.Obj? && CandidateText(document, candidate.fields).Ok?
    ensures !candidate.Obj? ==> r == Err(AttributeError("get"))
    ensures candidate.Obj? && CandidateText(document, candidate.fields).Err? ==>
      r == Err(CandidateText(document, candidate.fields).error)
    ensures r.Ok? ==> r.value.Obj? && r.value.fields.Keys == candidate.fields.Keys + {"text"}
    ensures r.Ok? ==> r.value.fields["text"] == Str(CandidateText(document, candidate.fields).value)
    ensures r.Ok? ==> forall k :: k in candidate.fields && k != "text" ==>
      r.value.fields[k] == candidate.fields[k]
  {
    match candidate
    case Obj(fields) =>
      (match CandidateText(document, fields)
       case Err(e) => Err(e)
       case Ok(text) => Ok(Obj(fields["text" := Str(text)])))
    case _ => Err(AttributeError("get"))
  }

  /**
   * The enriched candidate list: one entry per candidate, in order, or the
   * exception the first bad candidate raises.
   */
  function Enriched(document: seq<string>, candidates: seq<Value>): (r: Result<seq<Value>, Exception>)
    ensures r.Ok? <==> forall i :: 0 <= i < |candidates| ==> Enrich(document, candidates[i]).Ok?
    ensures r.Ok? ==> |r.value| == |candidates|
    ensures r.Ok? ==> forall i :: 0 <= i < |candidates| ==>
      r.value[i] == Enrich(document, candidates[i]).value
  {
    if candidates == [] then Ok([])
    else match Enrich(document, candidates[0])
      case Err(e) => Err(e)
      case Ok(first) =>
        match Enriched(document, candidates[1..])
        case Err(e) => Err(e)
        case Ok(rest) => Ok([first] + rest)
  }

  /** The exception of a failed enrichment is the one of the first bad candidate. */
  lemma {:induction false} EnrichedFirstError(document: seq<string>, candidates: seq<Value>, i: nat)
    requires i < |candidates|
    requires forall j :: 0 <= j < i ==> Enrich(document, candidates[j]).Ok?
    requires Enrich(document, candidates[i]).Err?
    ensures Enriched(document, candidates) == Err(Enrich(document, candidates[i]).error)
  {
    if i > 0 {
      EnrichedFirstError(document, candidates[1..], i - 1);
    }
  }

  /** The inner loop of extract_candidate_strings. */
  method EnrichCandidates(document: seq<string>, candidates: seq<Value>)
    returns (res: Result<seq<Value>, Exception>)
    ensures res == Enriched(document, candidates)
  {
    var outputCandidates: seq<Value> := [];
    for i := 0 to |candidates|
      invariant |outputCandidates| == i
      invariant forall j :: 0 <= j < i ==>
        Enrich(document, candidates[j]).Ok? && outputCandidates[j] == Enrich(document, candidates[j]).value
    {
      var candidateOffsets := candidates[i];
      if !candidateOffsets.Obj? {
        EnrichedFirstError(document, candidates, i);
        return Err(AttributeError("get"));
      }
      var text := CandidateText(document, candidateOffsets.fields);
      if text.Err? {
        EnrichedFirstError(document, candidates, i);
        return Err(text.error);
      }
      var enriched := Obj(candidateOffsets.fields["text" := Str(text.value)]);
      outputCandidates := outputCandidates + [enriched];
    }
    assert Enriched(document, candidates).Ok?;
    assert Enriched(document, candidates).value == outputCandidates;
    res := Ok(outputCandidates);
  }

  /**
   * `for candidate_offsets in candidates`: a list yields its items; an empty
   * string or dict yields nothing; a non-empty one yields strings, on which
   * the first `.get` raises AttributeError; anything else is not iterable.
   */
  function Iterate(v: Value): (r: Result<seq<Value>, Exception>)
    ensures v.Arr? ==> r == Ok(v.items)
    ensures !v.Arr? && r.Ok? ==> r.value == []
    ensures r.Ok? <==> v.Arr? || v == Str("") || (v.Obj? && |v.fields| == 0)
    ensures r.Err? ==> (r.error.TypeError? <==> v.Null? || v.Bool? || v.Num?)
    ensures r.Err? && !(v.Null? || v.Bool? || v.Num?) ==> r == Err(AttributeError("get"))
  {
    match v
    case Arr(items) => Ok(items)
    case Str(s) => if s == [] then Ok([]) else Err(AttributeError("get"))
    case Obj(m) => if |m| == 0 then Ok([]) else Err(AttributeError("get"))
    case _ => Err(TypeError("object is not iterable"))
  }

  /** One record through extract_candidate_strings. */
  function Extracted(line: Record): (r: Result<Record, Exception>)
    ensures r.Ok? ==> "document_text" in line && line["document_text"].Str?
    ensures r.Ok? ==> "long_answer_candidates" in line
    ensures r.Ok? ==> r.value.Keys == line.Keys - {"long_answer_candidates"} + {"candidates"}
    ensures r.Ok? <==>
      && "document_text" in line && line["document_text"].Str?
      && "long_answer_candidates" in line
      && Iterate(line["long_answer_candidates"]).Ok?
      && Enriched(Text.Split(line["document_text"].s), Iterate(line["long_answer_candidates"]).value).Ok?
    ensures "document_text" in line && line["document_text"].Str? && "long_answer_candidates" in line
            && Iterate(line["long_answer_candidates"]).Err? ==>
      r == Err(Iterate(line["long_answer_candidates"]).error)
    ensures "document_text" in line && line["document_text"].Str? && "long_answer_candidates" in line
            && Iterate(line["long_answer_candidates"]).Ok?
            && Enriched(Text.Split(line["document_text"].s), Iterate(line["long_answer_candidates"]).value).Err? ==>
      r == Err(Enriched(Text.Split(line["document_text"].s), Iterate(line["long_answer_candidates"]).value).error)
    ensures r.Ok? ==> r.value["candidates"].Arr?
    ensures r.Ok? ==> Iterate(line["long_answer_candidates"]).Ok?
    ensures r.Ok? && !line["long_answer_candidates"].Arr? ==> r.value["candidates"] == Arr([])
    ensures r.Ok? && line["long_answer_candidates"].Arr? ==>
      var spans, out := line["long_answer_candidates"].items, r.value["candidates"].items;
      |out| == |spans| &&
      forall i :: 0 <= i < |spans| ==>
        Enrich(Text.Split(line["document_text"].s), spans[i]) == Ok(out[i])
    ensures "document_text" !in line || !line["document_text"].Str? ==> r == Err(AttributeError("split"))
    ensures "document_text" in line && line["document_text"].Str? && "long_answer_candidates" !in line ==>
      r == Err(KeyError("long_answer_candidates"))
    ensures r.Ok? ==> forall k :: k in line && k != "long_answer_candidates" && k != "candidates" ==>
      r.value[k] == line[k]
  {
    if "document_text" !in line || !line["document_text"].Str? then Err(AttributeError("split"))
    else if "long_answer_candidates" !in line then Err(KeyError("long_answer_candidates"))
    else
      var document := Text.Split(line["document_text"].s);
      match Iterate(line["long_answer_candidates"])
      case Err(e) => Err(e)
      case Ok(candidates) =>
        match Enriched(document, candidates)
        case Err(e) => Err(e)
        case Ok(outputCandidates) =>
          Ok((line - {"long_answer_candidates"})["candidates" := Arr(outputCandidates)])
  }

  /** The body of the outer loop of extract_candidate_strings, updating `line` in place. */
  method ExtractRecord(line: Record) returns (res: Result<Record, Exception>)
    ensures res == Extracted(line)
  {
    if "document_text" !in line || !line["document_text"].Str? {
      return Err(AttributeError("split"));
    }
    var document := Text.Split(line["document_text"].s);
    if "long_answer_candidates" !in line {
      return Err(KeyError("long_answer_candidates"));
    }
    var candidates := line["long_answer_candidates"];
    var updated := line - {"long_answer_candidates"};
    var items := Iterate(candidates);
    if items.Err? {
      return Err(items.error);
    }
    var outputCandidates := EnrichCandidates(document, items.value);
    if outputCandidates.Err? {
      return Err(outputCandidates.error);
    }
    updated := updated["candidates" := Arr(outputCandidates.value)];
    res := Ok(updated);
  }

  /**
   * extract_candidate_strings over a sequence of records: one output record
   * per input record, in order, up to the first record that raises; `out`
   * holds the records yielded before that.
   */
  method ExtractAll(lines: seq<Record>) returns (out: seq<Record>, failure: Option<Exception>)
    ensures |out| <= |lines|
    ensures forall i :: 0 <= i < |out| ==> Extracted(lines[i]) == Ok(out[i])
    ensures failure.None? <==> |out| == |lines|
    ensures failure.Some? ==> Extracted(lines[|out|]) == Err(failure.value)
  {
    out := [];
    var i := 0;
    while i < |lines|
      invariant i == |out| <= |lines|
      invariant forall j :: 0 <= j < i ==> Extracted(lines[j]) == Ok(out[j])
    {
      var line := ExtractRecord(lines[i]);
      if line.Err? {
        return out, Some(line.error);
      }
      out := out + [line.value];
      i := i + 1;
    }
    failure := None;
  }

  // ----- The dataset's own shape -----

  /** A key holding a non-negative JSON integer. */
  predicate NaturalAt(m: map<string, Value>, key: string)
  {
    key in m && m[key].Num? && m[key].n >= 0
  }

  /** A candidate span as the dataset writes it. */
  predicate IsSpan(v: Value)
  {
    v.Obj? && NaturalAt(v.fields, "start_token") && NaturalAt(v.fields, "end_token")
  }

  /**
   * The reference text of a span: the tokens at positions
   * `[start, min(stop, n))` joined by single spaces, or "" when there are none.
   */
  function SpanText(document: seq<string>, start: nat, stop: nat): (text: string)
  {
    if start < stop && start < |document| then Text.Join(document[start..Min(stop, |document|)])
    else ""
  }

  /**
   * For a span with natural offsets the extracted text is its reference text;
   * it is empty exactly when `start >= stop` or `start >= n`, and splitting
   * it again gives back the tokens of the span.
   */
  lemma SpanTextOfCandidate(document: seq<string>, candidate: Value)
    requires Text.AllWords(document)
    requires IsSpan(candidate)
    ensures var start, stop := candidate.fields["start_token"].n, candidate.fields["end_token"].n;
      && CandidateText(document, candidate.fields) == Ok(SpanText(document, start, stop))
      && (SpanText(document, start, stop) == "" <==> start >= stop || start >= |document|)
      && Text.Split(SpanText(document, start, stop)) == Slice(document, Some(start), Some(stop))
  {
    var start, stop := candidate.fields["start_token"].n, candidate.fields["end_token"].n;
    SliceOfNaturals(document, start, stop);
    var tokens := Slice(document, Some(start), Some(stop));
    assert Text.AllWords(tokens);
    Text.SplitJoin(tokens);
  }

  /**
   * `out` is `span` with its offsets and every other field kept and the
   * span's reference text added as `text`.
   */
  predicate SpanWithText(document: seq<string>, span: Value, out: Value)
    requires IsSpan(span)
  {
    && out.Obj?
    && out.fields.Keys == span.fields.Keys + {"text"}
    && (forall k :: k in span.fields && k != "text" ==> out.fields[k] == span.fields[k])
    && out.fields["text"]
       == Str(SpanText(document, span.fields["start_token"].n, span.fields["end_token"].n))
  }

  /**
   * A record of the dataset's shape is always extracted: the candidate list
   * keeps its length and order, and every entry keeps its offsets and every
   * other field and gains the span's reference text.
   */
  lemma ExtractedSpans(line: Record)
    requires "document_text" in line && line["document_text"].Str?
    requires "long_answer_candidates" in line && line["long_answer_candidates"].Arr?
    requires forall i :: 0 <= i < |line["long_answer_candidates"].items| ==>
      IsSpan(line["long_answer_candidates"].items[i])
    ensures Extracted(line).Ok?
    ensures |Extracted(line).value["candidates"].items| == |line["long_answer_candidates"].items|
    ensures forall i :: 0 <= i < |line["long_answer_candidates"].items| ==>
      SpanWithText(Text.Split(line["document_text"].s),
                   line["long_answer_candidates"].items[i],
                   Extracted(line).value["candidates"].items[i])
  {
  }
}
