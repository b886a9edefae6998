# A verified model of the mapper

`mapper.py` reads a whitespace-separated data file and extracts a
(key, value) pair from every line. It does the extraction in a process
pool sized by a heuristic over the file size. This project models its
sequential core in Dafny and proves properties of it:

- **Record extraction** (`get_key_val_from_str`). The line is split the way
  Python's `str.split()` with no arguments splits it. The key and the value
  are then picked with Python's list subscript rules.
- **The mapping pass** (`parse_and_map`). The worker-count guard is modelled.
  The pool's chunked dispatch is modelled as a plain sequential computation:
  the lines are cut into chunks of `maps_per_node`, every chunk is mapped in
  order, and the chunk results are drained into `data`.
- **The sizing heuristic** (`calculate_num_processes_needed`). This is the
  ceiling of the file size in megabytes, divided by the node size and by the
  maps per node.
- **The main block's composition** of the two (lines 61-62).

Exceptions become a `Result` whose failure names the Python exception class
(`IndexError`, `TypeError`, `ValueError`, `ZeroDivisionError`).

Modules:

| file | module | what |
|---|---|---|
| exceptions.dfy | `Exceptions` | `PyError`, `Result` |
| whitespace.dfy | `Whitespace` | `str.isspace()`, `str.split()`, its layout characterisation |
| indexing.dfy | `Indexing` | `xs[i]` with negative indices and `IndexError` |
| extract.dfy | `Extract` | `get_key_val_from_str` |
| mapping.dfy | `Mapping` | worker guard, chunking, ordered map, `parse_and_map` |
| sizing.dfy | `Sizing` | `calculate_num_processes_needed` |
| pipeline.dfy | `Pipeline` | the main block's size-then-map composition |

Notes on the code's behaviour:

- A non-positive estimate crashes in `int(None)` on line 37. The pool never
  gets to pick its own size, although the comment on line 27 says it should
  (see Findings).
- Negative field indices are valid and count from the end.
- A failing line makes the whole call fail. It is never skipped.
- No partial result is returned on a timeout.

## Model

| member | source | states |
|---|---|---|
| Whitespace.Split | mapper.py:10 | every token `line.split()` returns is non-empty and contains no whitespace character |
| Whitespace.SplitCharacterization | mapper.py:10 | `line.split() == tokens` exactly when the line is the tokens separated by whitespace: optional blank text at both ends and non-empty blank runs between tokens (both directions) |
| Whitespace.SplitIgnoresSurroundingBlank | mapper.py:10 | adding or removing leading or trailing whitespace, such as the line's `\n`, does not change the tokens |
| Whitespace.SplitJoinSpaced | mapper.py:10 | round trip: splitting `" ".join(tokens)` returns the tokens, for any list of proper tokens |
| Indexing.Index | mapper.py:11 | a subscript succeeds exactly when `-len <= i < len` and then selects element `i mod len`; anything else raises `IndexError` |
| Indexing.IndexAlias | mapper.py:11 | a negative index `i - len` selects the same element as the valid index `i` |
| Indexing.NegativeIndexCountsFromEnd | mapper.py:11 | `xs[-(k+1)]` is `reversed(xs)[k]`, with failure on both sides for the same `k` |
| Extract.GetKeyVal | mapper.py:8-11 | the result is `(tokens[k], tokens[v])` of the whitespace split exactly when both indices are in range for the line's token count; otherwise it is `IndexError`; both fields are proper tokens |
| Extract.GetKeyValIgnoresSurroundingBlank | mapper.py:8-11 | surrounding whitespace, such as the trailing newline read from the file, does not change the extracted pair or the failure |
| Extract.GetKeyValOfJoined | mapper.py:8-11 | a line written as space-joined tokens plus `\n` yields the tokens at the two (possibly negative) indices |
| Mapping.WorkerGuard | mapper.py:26-27 | a count `<= 0` becomes the `None` sentinel, and a positive count passes through unchanged |
| Mapping.Chunks | mapper.py:38 | `chunksize` grouping: the chunks concatenate back to the input, none is empty or longer than the chunk size, and all but the last have exactly that size |
| Mapping.MapAll | mapper.py:38-40 | the ordered map of the items: when it completes it holds exactly one result per item |
| Mapping.MapAllMeaning | mapper.py:38-40 | an ordered map completes exactly when every call does and then holds the i-th call's result at position i; on failure it raises the first failing item's exception |
| Mapping.MapChunks | mapper.py:37-40 | draining the chunk results in submission order equals the ordered map over all the chunks' items, concatenated |
| Mapping.ChunkedMapIsMap | mapper.py:37-38 | mapping chunk by chunk and concatenating gives the same result as mapping the lines one by one, for every chunk size |
| Mapping.CollectPairs | mapper.py:38-40 | the append loop over the chunk results returns exactly the drain `MapChunks`, so the ordered map of all lines, or the first failure with no partial list |
| Mapping.MapLines | mapper.py:29-40 | a completed pass holds one pair per line, in file order, each the extraction of its line; it completes exactly when every line's extraction does, and otherwise fails with `IndexError` |
| Mapping.ParseAndMapAsWritten | mapper.py:26-44 | as written: a non-positive count raises `TypeError`, a chunk size below 1 raises `ValueError`, and otherwise the result is the ordered map of the lines |
| Mapping.ParseAndMap | mapper.py:13-44 | as intended: for every process count the result is the ordered map of the lines; a chunk size below 1 raises `ValueError` |
| Mapping.PoolShapeIrrelevant | mapper.py:37-38 | the result does not depend on the process count or the chunk size |
| Mapping.OneBadLineFailsAll | mapper.py:38-43 | one line whose extraction fails makes the whole call fail |
| Mapping.ParseFormattedLines | mapper.py:13-44 | round trip: a file of `key value` lines maps back to exactly its pairs, in order |
| Mapping.ThreeLineExample | mapper.py:38-40 | the lines `a 1`, `b 2`, `a 3` map to `[("a","1"), ("b","2"), ("a","3")]` |
| Sizing.NumProcessesNeeded | mapper.py:46-49 | with non-zero divisors the result is the least integer at or above `bytes / 2^20 / size_of_node / maps_per_node`; a zero divisor raises `ZeroDivisionError` |
| Sizing.ZeroExactlyForEmptyFile | mapper.py:46-49 | with positive divisors the estimate is 0 exactly for an empty file and at least 1 otherwise |
| Sizing.MonotoneInFileSize | mapper.py:46-49 | a bigger file never gets a smaller estimate |
| Sizing.IntegerCeilingDivision | mapper.py:48-49 | for a whole number of MB per node the estimate is integer ceiling division `(bytes + d - 1) / d` with `d = 2^20 * size_of_node * maps_per_node` |
| Pipeline.SentinelExactlyForEmptyFile | mapper.py:61-62 | with positive divisors the estimate reaches the `None` sentinel exactly when the file is empty |
| Pipeline.EmptyFileCrashesAsWritten | mapper.py:26-37 | for an empty file the written code raises `TypeError`, where the intended code returns the empty list |
| Pipeline.RunAsWritten | mapper.py:61-62 | as written: a zero divisor raises `ZeroDivisionError`; with positive divisors an empty file raises `TypeError` and every other file gets the ordered map of its lines |
| Pipeline.Run | mapper.py:61-62 | as intended: with a non-zero node size and a chunk size of at least 1, every file, the empty one included, gets the ordered map of its lines; a zero divisor raises `ZeroDivisionError` and a negative chunk size `ValueError` |

## Left out

- The process pool, worker processes and parallel dispatch (mapper.py:37-38) are concurrency machinery. The run is modelled as the sequential computation it is equivalent to: chunks mapped in order and drained in submission order.
- Opening and reading the file, and `path.getsize` (mapper.py:35, 47), are I/O. The file is given as its lines (any strings) and as its byte count, a `nat`. The model does not check that the two agree.
- The `timeout=1` bound and the `except TimeoutError` path (mapper.py:38, 41-43) depend on the wall clock, which the model cannot see. No partial result on timeout is claimed. The handler names `multiprocessing.TimeoutError`, which is not the class `concurrent.futures` raises, so a timeout would most likely propagate anyway.
- Sizing.NumProcessesNeeded: Python floats are modelled as exact reals. Rounding in `/ 1024.0` and `//` on very large or badly conditioned inputs is not modelled. The result is an `int` where Python returns an integral `float`.
- `int(num_processes)` on a non-integral float, and the platform limit on `max_workers`, are left out. The process count is an `int` and only its sign matters to the model.
- The `ValueError` for a chunk size below 1 is raised by `concurrent.futures`, not by mapper.py. It is modelled as the documented library behaviour.
- `argparse`, the `__main__` block's printing and its defaults (mapper.py:52-65) are CLI glue. Only the composition on lines 61-62 is modelled.
- The count-by-key variant of the mapper is not part of this model.

## Findings

| source | as written | input that shows it | evidently intended | confidence | as-written member | corrected member |
|---|---|---|---|---|---|---|
| mapper.py:26-37 | a count `<= 0` is replaced by `None`, then line 37 calls `int(num_processes)`, which raises `TypeError` on `None` | an empty file: the estimate is 0, the guard makes it `None`, and the run raises `TypeError` instead of returning `[]` (`Pipeline.EmptyFileCrashesAsWritten`) | pass `None` to the pool so that it uses the machine's processor count, as the comment on line 27 says | high; not executed | Mapping.ParseAndMapAsWritten | Mapping.ParseAndMap |

`Pipeline.Run` uses the corrected `Mapping.ParseAndMap`. Its contract states that it returns the ordered map of the lines for every file, the empty one included.
