# ASNQ data formatter, modelled in Dafny

This project models `examples/asnq_data_formatter.py`, a script that turns
Natural Questions style records (a question, a document, and candidate
answer spans given as token offsets into the document) into records whose
candidates carry their text. The script has three working parts, and the
model follows them module by module:

- **read_file** (`Loader`): every decoded line (a JSON object) is checked
  for the four keys of `REQUIRED_FIELDS`; a line that lacks one is skipped,
  the others are yielded unchanged and in order. The `missing` list is
  built by a loop, modelled as the method `MissingFields`; the outer loop is
  `ReadFile`. Both are proved against `Seqs.Filter`, an order-preserving
  filter.
- **extract_candidate_strings** (`Extractor`): the document text is split
  into whitespace tokens (`Text.Split`, Python's `str.split()` with its full
  set of whitespace characters); every candidate dict gains a `text` field
  holding `" ".join(document[start:stop])` (`Text.Join`, and `Py.Slice` with
  CPython's slice rules: `None` from `.get` on a missing key, negative
  indices, clamping); `long_answer_candidates` is popped and replaced by
  `candidates`. The inner and outer loops are the methods `EnrichCandidates`
  and `ExtractAll`, the per-record update is `ExtractRecord`; each is proved
  against a specification function (`Enriched`, `Extracted`).
- **the default output path** (`OutputPath`): without `--output_file`, the
  path is `DATA_DIR` joined with the text after the last `.` of the last
  `/` segment of `--file`, plus `_ansq_formatted.tsv`. The script names that
  piece `file_name_no_suffix`, but it is the extension: for
  `nq/simplified-nq-train.jsonl` the name is `jsonl_ansq_formatted.tsv`. The
  model keeps this behaviour.

`Formatter.Run` composes the two stages as `main` does and returns the
values `main` prints.

Every Python exception the code can raise on the records it is given is
modelled as an error value (`Py.Exception`) instead of a precondition: a
`document_text` that is missing or not a string (AttributeError on
`split`), a missing `long_answer_candidates` (KeyError on `pop`), a
candidate list that cannot be iterated (TypeError), a candidate that is not
a dict (AttributeError on `get`), and an offset that is not an integer,
boolean or null (TypeError from slicing). The exception ends the run;
`ExtractAll` returns the records yielded before it.

Three points of the code are modelled as written rather than as their
names suggest: `clean_lines` and `write_asnq_format` are stubs whose calls
in `main` are commented out, so no cleaning or writing is modelled;
`file_name_no_suffix` holds the extension of the input file rather than
its base name; and the offsets `start_token`/`end_token` are used through
Python's slice rules, so offsets that are missing, negative, reversed or
past the end of the document are all accepted.

Input and output (the jsonlines reader, argparse, the printing) are not
modelled: the decoded lines are a parameter, the command-line arguments
are an optional `file`/`output_file` pair, and what is printed is
returned.

## Model

| member | source | states |
|---|---|---|
| `Loader.RequiredKeys` | examples/asnq_data_formatter.py:7-11 | a record has the required fields iff it has `example_id`, `question_text`, `document_text` and `long_answer_candidates` |
| `Loader.Admitted` | examples/asnq_data_formatter.py:14-26 | read_file yields no more lines than it reads, only lines with every required key, and every such line |
| `Loader.MissingFields` | examples/asnq_data_formatter.py:18-22 | the `missing` list holds exactly the required keys the record lacks, in `REQUIRED_FIELDS` order, and is empty iff the record has all four keys |
| `Loader.ReadFile` | examples/asnq_data_formatter.py:14-26 | read_file yields exactly the order-preserving filter of the lines by "has every required key" |
| `Loader.AdmittedExactly` | examples/asnq_data_formatter.py:17-26 | a line is yielded iff it has all four keys; each yielded record is the input line itself, and yielded lines keep their input order (strictly increasing positions) |
| `Loader.AdmittedAround` | examples/asnq_data_formatter.py:17-26 | skipping or keeping one line never changes what is yielded for the lines before and after it |
| `Loader.AdmittedAll` | examples/asnq_data_formatter.py:22-26 | a file whose every line has the required keys passes through unchanged |
| `Text.WordLength` | examples/asnq_data_formatter.py:39 | the length of the longest whitespace-free prefix: no whitespace before it, whitespace right after it |
| `Text.Split` | examples/asnq_data_formatter.py:39 | every token of `str.split()` is non-empty and contains no whitespace, where whitespace (`Text.IsSpace`) is exactly the set of characters for which `str.isspace()` holds in CPython |
| `Text.SplitAtSpace` | examples/asnq_data_formatter.py:39 | every whitespace character separates tokens: splitting around it splits the two sides independently, so tokens are maximal runs of non-whitespace |
| `Text.SplitWord` | examples/asnq_data_formatter.py:39 | a non-empty text without whitespace is a single token |
| `Text.SplitKeepsText` | examples/asnq_data_formatter.py:39 | the tokens, concatenated, are the non-whitespace characters of the document in order: splitting drops whitespace and nothing else |
| `Text.Join` | examples/asnq_data_formatter.py:45 | a single-space join of tokens is empty iff there are no tokens |
| `Text.SplitJoin` | examples/asnq_data_formatter.py:39-45 | splitting a single-space join of tokens gives the same tokens back |
| `Py.Bound` | examples/asnq_data_formatter.py:43-45 | a slice bound is clamped into `0..n`; `None` gives the default (0 for the start, `n` for the stop); a natural bound becomes `min(bound, n)`; a negative one counts from the end, and one below `-n` becomes 0 |
| `Py.Slice` | examples/asnq_data_formatter.py:45 | `xs[start:stop]` is a contiguous run of `xs` beginning at the normalised start; with both bounds `None` it is `xs`, with only a natural stop it is the prefix up to `min(stop, n)`, with only a natural start the suffix from `min(start, n)`; its length is the normalised stop minus the normalised start, or 0 when that is not positive, for any bounds including negative ones |
| `Py.SliceOfNaturals` | examples/asnq_data_formatter.py:45 | for natural offsets `document[start:stop]` is the tokens at `[start, min(stop, n))`, empty iff `start >= stop` or `start >= n` |
| `Extractor.Offset` | examples/asnq_data_formatter.py:43-44 | `.get` of a missing key or a `null` gives `None`; an integer is used as is; a boolean is 1 or 0; a string, list or dict raises TypeError when sliced, and nothing else fails |
| `Extractor.CandidateText` | examples/asnq_data_formatter.py:43-45 | the candidate's text is computed iff both offsets can index, the only failure is TypeError, and on a tokenised document the text splits back into exactly the tokens of `document[start:stop]` |
| `Extractor.Iterate` | examples/asnq_data_formatter.py:42 | iterating a list gives its items; an empty string or dict gives no candidates; a non-empty string or dict fails (AttributeError on `get` of its first element); `null`, a boolean or a number raises TypeError |
| `Extractor.Enrich` | examples/asnq_data_formatter.py:43-46 | a candidate is enriched iff it is a dict with usable offsets; a non-dict raises AttributeError on `get`, and an offset's TypeError is passed on; the result has the candidate's keys plus `text`, every other field unchanged, and `text` is the joined slice |
| `Extractor.Enriched` | examples/asnq_data_formatter.py:41-46 | the output candidate list succeeds iff every candidate is enriched, has the input list's length, and its i-th entry is the i-th candidate enriched |
| `Extractor.EnrichedFirstError` | examples/asnq_data_formatter.py:42-46 | when the list fails, the exception is the one raised by the first bad candidate |
| `Extractor.EnrichCandidates` | examples/asnq_data_formatter.py:41-46 | the appending loop over the candidates computes exactly the enriched list, or the first candidate's exception |
| `Extractor.Extracted` | examples/asnq_data_formatter.py:38-48 | a record is extracted iff it has a string `document_text`, a `long_answer_candidates` that can be iterated, and candidates that can all be enriched; otherwise a record without a string `document_text` raises AttributeError, one without `long_answer_candidates` raises KeyError, and a bad candidate list or candidate raises the exception of iterating or enriching it; an extracted record had the `long_answer_candidates` key holding a list, an empty string or an empty dict; it has the input's keys without `long_answer_candidates` and with `candidates`, whose i-th entry is the i-th candidate enriched over the split document (empty for an empty string or dict), and every other field unchanged |
| `Extractor.ExtractRecord` | examples/asnq_data_formatter.py:38-48 | the in-place update of one record (split, pop, loop, assignment) computes exactly the extracted record or the exception it raises |
| `Extractor.ExtractAll` | examples/asnq_data_formatter.py:37-48 | exactly one output record per input record, in order, each the extraction of its input; on an exception, the records before it are yielded and the exception is the failing record's |
| `Extractor.SpanTextOfCandidate` | examples/asnq_data_formatter.py:43-45 | a candidate's `text` is the tokens at `[start, min(stop, n))` joined by single spaces; it is empty iff `start >= stop` or `start >= n`; splitting it gives back the span's tokens |
| `Extractor.ExtractedSpans` | examples/asnq_data_formatter.py:38-48 | a record with a string document and a list of spans with natural offsets is always extracted; its `candidates` list has the spans' length and order, each entry keeps `start_token`, `end_token` and every other field and gains the span's text |
| `Text.SplitOn` | examples/asnq_data_formatter.py:68-69 | `str.split(sep)` yields at least one piece and no piece contains the separator |
| `Text.JoinOnSplitOn` | examples/asnq_data_formatter.py:68-69 | joining the pieces of `str.split(sep)` with the separator gives the string back |
| `Text.LastPieceOfSplit` | examples/asnq_data_formatter.py:68-69 | the last piece of `str.split(sep)` is a suffix of the string, preceded by the separator unless it is the whole string |
| `Text.LastPiece` | examples/asnq_data_formatter.py:68-69 | `s.split(sep)[-1]` is the longest suffix of `s` free of the separator |
| `OutputPath.FileNameNoSuffix` | examples/asnq_data_formatter.py:68-69 | the piece kept is the longest suffix of the input path containing neither '/' nor '.' |
| `OutputPath.PathJoin` | examples/asnq_data_formatter.py:70 | `os.path.join(a, b)`: an absolute `b` replaces `a`; otherwise `a` then `b`, with one '/' inserted exactly when `a` is non-empty and does not end in '/' |
| `OutputPath.DefaultOutputFile` | examples/asnq_data_formatter.py:70 | `os.path.join(DATA_DIR, piece + '_ansq_formatted.tsv')` is plain concatenation here |
| `OutputPath.ResolveOutputFile` | examples/asnq_data_formatter.py:67-71 | a non-empty `output_file` is used untouched; an absent or empty one is derived from `file`, and a missing `file` raises AttributeError on `split` |
| `OutputPath.DefaultOutputFileOfLastPiece` | examples/asnq_data_formatter.py:68-70 | for `stem.ext` the derived path is `DATA_DIR + ext + '_ansq_formatted.tsv'` (the extension is kept, not the base name), and for `dir/base` with no '.' in `base` it is built from `base` whole |
| `Formatter.Run` | examples/asnq_data_formatter.py:51-57 | main prints, in order, the `candidates` list of the extraction of every record read_file yields, up to the first record whose extraction raises |

## Left out

- Reading the input with `jsonlines` (line 16) and decoding JSON: the decoded lines are a parameter. A line that is not valid JSON, or whose value is not a JSON object, is not modelled; nor are JSON floating-point numbers (all numbers are integers here).
- The `print` diagnostics (lines 15, 23, 55): what line 55 prints is returned by `Formatter.Run`; the other two messages are not modelled.
- argparse (lines 61-66): its result is modelled as an optional `file` and an optional `output_file`.
- `clean_lines` and `write_asnq_format` (lines 29-34): stubs whose calls in `main` are commented out (lines 56-57), so they are not modelled; the derived output path is therefore never used by `main`.
- Generator laziness: the stages are methods over finite sequences. In the script, reading and extraction interleave, so an exception in extraction also stops the reading (and its skip messages) for later lines; since those messages are not modelled, the values produced are the same.
- Object identity: the script updates the record dicts and candidate dicts in place; the model builds new values. Each dict is used once and nothing else refers to it, so no caller can tell the difference.
- The order of keys in a dict (Python keeps insertion order): records are maps, so `candidates` is not modelled as the last key.
