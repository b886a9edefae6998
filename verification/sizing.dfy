/** `calculate_num_processes_needed`: the file size in megabytes, divided by
    the node size and by the maps per node, rounded up with `-(-x // m)`.
    Python floats are modelled as exact reals. */
module Sizing {
  import opened Exceptions

  /** Bytes per megabyte as the source converts them: two divisions by 1024. */
  const BytesPerMB: real := 1048576.0

  /** The exact quotient the heuristic rounds up. */
  function Quota(bytes: nat, sizeOfNode: real, mapsPerNode: int): real
    requires sizeOfNode != 0.0 && mapsPerNode != 0
  {
    bytes as real / (BytesPerMB * sizeOfNode * mapsPerNode as real)
  }

  /** `c` is the least integer at or above `q`. */
  predicate IsCeiling(c: int, q: real) {
    (c - 1) as real < q <= c as real
  }

  lemma CeilingUnique(a: int, b: int, q: real)
    requires IsCeiling(a, q) && IsCeiling(b, q)
    ensures a == b
  {
  }

  /** `-(-x // 1)` rounds `x` up. */
  lemma NegatedFloorIsCeiling(x: real)
    ensures IsCeiling(-((-x).Floor), x)
  {
  }

  /** `(bytes / 1024 / 1024 / size) / m` is the single quotient `Quota`. */
  lemma StepwiseQuota(bytes: nat, sizeOfNode: real, mapsPerNode: int)
    requires sizeOfNode != 0.0 && mapsPerNode != 0
    ensures ((bytes as real / 1024.0) / 1024.0 / sizeOfNode) / mapsPerNode as real
         == Quota(bytes, sizeOfNode, mapsPerNode)
  {
    var b := bytes as real;
    var m := mapsPerNode as real;
    assert (b / 1024.0) / 1024.0 == b / BytesPerMB;
    assert b / BytesPerMB / sizeOfNode == b / (BytesPerMB * sizeOfNode);
    assert b / (BytesPerMB * sizeOfNode) / m == b / (BytesPerMB * sizeOfNode * m);
  }

  /** Lines 47-49: a zero node size or maps-per-node raises
      `ZeroDivisionError`; otherwise the result is the ceiling of `Quota`. */
  function NumProcessesNeeded(bytes: nat, sizeOfNode: real, mapsPerNode: int): (r: Result<int>)
    ensures r.Failure? <==> sizeOfNode == 0.0 || mapsPerNode == 0
    ensures r.Failure? ==> r.error == ZeroDivisionError
    ensures r.Success? ==> IsCeiling(r.value, Quota(bytes, sizeOfNode, mapsPerNode))
  {
    if sizeOfNode == 0.0 then Failure(ZeroDivisionError)
    else
      var nodes := (bytes as real / 1024.0) / 1024.0 / sizeOfNode;
      if mapsPerNode == 0 then Failure(ZeroDivisionError)
      else
        StepwiseQuota(bytes, sizeOfNode, mapsPerNode);
        // Python's float `//` rounds the quotient down.
        var down := (-nodes / mapsPerNode as real).Floor;
        assert -nodes / mapsPerNode as real == -(nodes / mapsPerNode as real);
        NegatedFloorIsCeiling(nodes / mapsPerNode as real);
        Success(-down)
  }

  lemma QuotaSign(bytes: nat, sizeOfNode: real, mapsPerNode: int)
    requires sizeOfNode > 0.0 && mapsPerNode > 0
    ensures Quota(bytes, sizeOfNode, mapsPerNode) >= 0.0
    ensures Quota(bytes, sizeOfNode, mapsPerNode) == 0.0 <==> bytes == 0
  {
    var d := BytesPerMB * sizeOfNode * mapsPerNode as real;
    assert d > 0.0;
    assert Quota(bytes, sizeOfNode, mapsPerNode) * d == bytes as real;
  }

  /** No processes for an empty file, at least one for any other file. */
  lemma ZeroExactlyForEmptyFile(bytes: nat, sizeOfNode: real, mapsPerNode: int)
    requires sizeOfNode > 0.0 && mapsPerNode > 0
    ensures NumProcessesNeeded(bytes, sizeOfNode, mapsPerNode).value == 0 <==> bytes == 0
    ensures bytes > 0 ==> NumProcessesNeeded(bytes, sizeOfNode, mapsPerNode).value >= 1
  {
    QuotaSign(bytes, sizeOfNode, mapsPerNode);
  }

  lemma QuotaMonotone(b1: nat, b2: nat, sizeOfNode: real, mapsPerNode: int)
    requires sizeOfNode > 0.0 && mapsPerNode > 0
    requires b1 <= b2
    ensures Quota(b1, sizeOfNode, mapsPerNode) <= Quota(b2, sizeOfNode, mapsPerNode)
  {
    var d := BytesPerMB * sizeOfNode * mapsPerNode as real;
    assert d > 0.0;
    assert Quota(b2, sizeOfNode, mapsPerNode) - Quota(b1, sizeOfNode, mapsPerNode) == (b2 - b1) as real / d;
  }

  /** A bigger file never needs fewer processes. */
  lemma MonotoneInFileSize(b1: nat, b2: nat, sizeOfNode: real, mapsPerNode: int)
    requires sizeOfNode > 0.0 && mapsPerNode > 0
    requires b1 <= b2
    ensures NumProcessesNeeded(b1, sizeOfNode, mapsPerNode).value <= NumProcessesNeeded(b2, sizeOfNode, mapsPerNode).value
  {
    QuotaMonotone(b1, b2, sizeOfNode, mapsPerNode);
  }

  /** The integer quotient `(b + d - 1) / d` brackets `b` between multiples of `d`. */
  lemma CeilingDivisionBounds(b: nat, d: int)
    requires d > 0
    ensures ((b + d - 1) / d - 1) * d < b <= ((b + d - 1) / d) * d
  {
    var c := (b + d - 1) / d;
    var rem := (b + d - 1) % d;
    assert b + d - 1 == c * d + rem;
    assert (c - 1) * d == c * d - d;
  }

  /** Integer bracketing carries over to the real quotient. */
  lemma RealCeilingOfBracket(b: nat, d: int, c: int)
    requires d > 0
    requires (c - 1) * d < b <= c * d
    ensures IsCeiling(c, b as real / d as real)
  {
    var q := b as real / d as real;
    var dr := d as real;
    assert q * dr == b as real;
    assert ((c - 1) * d) as real == (c - 1) as real * dr;
    assert (c * d) as real == c as real * dr;
    assert (c - 1) as real * dr < q * dr;
    assert q * dr <= c as real * dr;
  }

  /** For a whole number of megabytes per node the heuristic is integer
      ceiling division of the byte count by the bytes all maps of one node cover. */
  lemma IntegerCeilingDivision(bytes: nat, nodeMB: nat, mapsPerNode: nat)
    requires nodeMB > 0 && mapsPerNode > 0
    ensures var d := 1048576 * nodeMB * mapsPerNode;
            NumProcessesNeeded(bytes, nodeMB as real, mapsPerNode).value == (bytes + d - 1) / d
  {
    var d := 1048576 * nodeMB * mapsPerNode;
    var c := (bytes + d - 1) / d;
    assert d > 0;
    assert d as real == BytesPerMB * nodeMB as real * mapsPerNode as real;
    assert Quota(bytes, nodeMB as real, mapsPerNode) == bytes as real / d as real;
    CeilingDivisionBounds(bytes, d);
    RealCeilingOfBracket(bytes, d, c);
    CeilingUnique(NumProcessesNeeded(bytes, nodeMB as real, mapsPerNode).value, c, bytes as real / d as real);
  }
}
