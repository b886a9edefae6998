/** Lines 61-62: the process count is computed from the file size and then
    handed to `parse_and_map` together with the same maps-per-node. The
    file is given twice: as its byte count and as its lines. */
module Pipeline {
  import opened Exceptions
  import opened Extract
  import opened Sizing
  import opened Mapping

  /** The run as written, with the `int(None)` crash on the sentinel path:
      a zero divisor raises `ZeroDivisionError`; with positive divisors an
      empty file raises `TypeError` and any other file gets the ordered map
      of its lines. */
  function RunAsWritten(lines: seq<string>, bytes: nat, keyInd: int, valInd: int, sizeOfNode: real, mapsPerNode: int)
    : (r: Result<seq<Pair>>)
    ensures sizeOfNode == 0.0 || mapsPerNode == 0 ==> r == Failure(ZeroDivisionError)
    ensures sizeOfNode > 0.0 && mapsPerNode >= 1 && bytes == 0 ==> r == Failure(TypeError)
    ensures sizeOfNode > 0.0 && mapsPerNode >= 1 && bytes > 0 ==> r == MapLines(keyInd, valInd, lines)
  {
    assert sizeOfNode > 0.0 && mapsPerNode >= 1 ==>
      (NumProcessesNeeded(bytes, sizeOfNode, mapsPerNode).value == 0 <==> bytes == 0) by {
      if sizeOfNode > 0.0 && mapsPerNode >= 1 {
        ZeroExactlyForEmptyFile(bytes, sizeOfNode, mapsPerNode);
      }
    }
    var n :- NumProcessesNeeded(bytes, sizeOfNode, mapsPerNode);
    ParseAndMapAsWritten(lines, keyInd, valInd, n, mapsPerNode)
  }

  /** The run with the sentinel handled as the comment on line 27 intends:
      whenever the estimate can be computed and the chunk size is at least 1,
      every file, the empty one included, gets the ordered map of its lines. */
  function Run(lines: seq<string>, bytes: nat, keyInd: int, valInd: int, sizeOfNode: real, mapsPerNode: int)
    : (r: Result<seq<Pair>>)
    ensures sizeOfNode == 0.0 || mapsPerNode == 0 ==> r == Failure(ZeroDivisionError)
    ensures sizeOfNode != 0.0 && mapsPerNode < 0 ==> r == Failure(ValueError)
    ensures sizeOfNode != 0.0 && mapsPerNode >= 1 ==> r == MapLines(keyInd, valInd, lines)
  {
    var n :- NumProcessesNeeded(bytes, sizeOfNode, mapsPerNode);
    ParseAndMap(lines, keyInd, valInd, n, mapsPerNode)
  }

  /** For an empty file the estimate is 0, the guard turns it into the
      sentinel, and the written code raises `TypeError` instead of returning
      the empty list the intended code returns. */
  lemma EmptyFileCrashesAsWritten(keyInd: int, valInd: int, sizeOfNode: real, mapsPerNode: int)
    requires sizeOfNode > 0.0 && mapsPerNode >= 1
    ensures WorkerGuard(NumProcessesNeeded(0, sizeOfNode, mapsPerNode).value) == Auto
    ensures RunAsWritten([], 0, keyInd, valInd, sizeOfNode, mapsPerNode) == Failure(TypeError)
    ensures Run([], 0, keyInd, valInd, sizeOfNode, mapsPerNode) == Success([])
  {
    ZeroExactlyForEmptyFile(0, sizeOfNode, mapsPerNode);
  }

  /** With a positive node size the sentinel is chosen exactly for an empty file. */
  lemma SentinelExactlyForEmptyFile(bytes: nat, sizeOfNode: real, mapsPerNode: int)
    requires sizeOfNode > 0.0 && mapsPerNode >= 1
    ensures WorkerGuard(NumProcessesNeeded(bytes, sizeOfNode, mapsPerNode).value) == Auto <==> bytes == 0
  {
    ZeroExactlyForEmptyFile(bytes, sizeOfNode, mapsPerNode);
  }
}
