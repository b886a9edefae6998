/** `parse_and_map`, read sequentially. `executor.map` cuts the lines into
    chunks of `maps_per_node` lines, each worker extracts every line of its
    chunk in order, and the caller drains the chunk results in submission
    order, appending each pair to `data`. */
module Mapping {
  import opened Exceptions
  import opened Whitespace
  import opened Extract

  /** The `max_workers` argument of the pool: a count, or `None` ("auto"). */
  datatype PoolSize = Auto | Workers(count: int)

  /** Lines 26-27: a non-positive process count becomes the `None` sentinel. */
  function WorkerGuard(numProcesses: int): (p: PoolSize)
    ensures p.Auto? <==> numProcesses <= 0
    ensures p.Workers? ==> p.count == numProcesses && p.count > 0
  {
    if numProcesses <= 0 then Auto else Workers(numProcesses)
  }

  /** `fn` applied to every item, in order; the first item whose call raises
      makes the whole map raise that exception, and no list is returned. */
  function MapAll<A, B>(fn: A -> Result<B>, xs: seq<A>): (r: Result<seq<B>>)
    ensures r.Success? ==> |r.value| == |xs|
    decreases |xs|
  {
    if |xs| == 0 then Success([])
    else
      var head :- fn(xs[0]);
      var rest :- MapAll(fn, xs[1..]);
      Success([head] + rest)
  }

  /** What a completed map returns: one result per item, the i-th being
      `fn` of the i-th item; it completes exactly when no call raises, and
      an exception it raises is the one the first failing item's call raised. */
  lemma {:induction false} MapAllMeaning<A, B>(fn: A -> Result<B>, xs: seq<A>)
    ensures MapAll(fn, xs).Success? <==> forall i :: 0 <= i < |xs| ==> fn(xs[i]).Success?
    ensures MapAll(fn, xs).Success? ==>
      && |MapAll(fn, xs).value| == |xs|
      && forall i :: 0 <= i < |xs| ==> fn(xs[i]) == Success(MapAll(fn, xs).value[i])
    ensures MapAll(fn, xs).Failure? ==>
      exists i :: 0 <= i < |xs| && fn(xs[i]) == Failure(MapAll(fn, xs).error)
                  && forall j :: 0 <= j < i ==> fn(xs[j]).Success?
    decreases |xs|
  {
    if |xs| > 0 {
      MapAllMeaning(fn, xs[1..]);
      var rest := MapAll(fn, xs[1..]);
      assert forall i :: 0 < i < |xs| ==> xs[i] == xs[1..][i - 1];
      if fn(xs[0]).Success? && rest.Failure? {
        var j :| 0 <= j < |xs[1..]| && fn(xs[1..][j]) == Failure(rest.error)
                 && forall k :: 0 <= k < j ==> fn(xs[1..][k]).Success?;
        assert fn(xs[j + 1]) == Failure(rest.error);
        assert forall k :: 0 <= k < j + 1 ==> fn(xs[k]).Success?;
      }
    }
  }

  /** Mapping a concatenation: the first part's failure wins, then the
      second part's, otherwise the two lists are appended. */
  lemma {:induction false} MapAllAppend<A, B>(fn: A -> Result<B>, a: seq<A>, b: seq<A>)
    ensures MapAll(fn, a + b)
         == if MapAll(fn, a).Failure? then MapAll(fn, a)
            else if MapAll(fn, b).Failure? then MapAll(fn, b)
            else Success(MapAll(fn, a).value + MapAll(fn, b).value)
    decreases |a|
  {
    if |a| == 0 {
      assert a + b == b;
      if MapAll(fn, b).Success? {
        assert [] + MapAll(fn, b).value == MapAll(fn, b).value;
      }
    } else {
      var ab := a + b;
      assert ab[0] == a[0];
      assert ab[1..] == a[1..] + b;
      MapAllAppend(fn, a[1..], b);
      var head := fn(a[0]);
      if head.Success? {
        var ra := MapAll(fn, a[1..]);
        var rab := MapAll(fn, a[1..] + b);
        assert MapAll(fn, ab) == (if rab.Failure? then Failure(rab.error) else Success([head.value] + rab.value));
        assert MapAll(fn, a) == (if ra.Failure? then Failure(ra.error) else Success([head.value] + ra.value));
        var rb := MapAll(fn, b);
        if ra.Success? && rb.Success? {
          assert [head.value] + (ra.value + rb.value) == ([head.value] + ra.value) + rb.value;
        }
      }
    }
  }

  /** Concatenation of a sequence of sequences. */
  function Flatten<T>(xss: seq<seq<T>>): seq<T>
    decreases |xss|
  {
    if |xss| == 0 then [] else xss[0] + Flatten(xss[1..])
  }

  lemma {:induction false} FlattenAppend<T>(a: seq<seq<T>>, b: seq<seq<T>>)
    ensures Flatten(a + b) == Flatten(a) + Flatten(b)
    decreases |a|
  {
    if |a| == 0 {
      assert a + b == b;
    } else {
      assert (a + b)[1..] == a[1..] + b;
      FlattenAppend(a[1..], b);
    }
  }

  lemma FlattenStep<T>(xss: seq<seq<T>>, c: nat)
    requires c < |xss|
    ensures Flatten(xss[..c + 1]) == Flatten(xss[..c]) + xss[c]
    ensures Flatten(xss[c..]) == xss[c] + Flatten(xss[c + 1..])
  {
    FlattenAppend(xss[..c], [xss[c]]);
    assert xss[..c + 1] == xss[..c] + [xss[c]];
    assert xss[c..][1..] == xss[c + 1..];
  }

  /** How `executor.map` groups its inputs for `chunksize = size`: consecutive
      runs of `size` items, the last one possibly shorter, none empty. */
  function Chunks<T>(xs: seq<T>, size: nat): (cs: seq<seq<T>>)
    requires size >= 1
    ensures Flatten(cs) == xs
    ensures forall k :: 0 <= k < |cs| ==> 0 < |cs[k]| <= size
    ensures forall k :: 0 <= k < |cs| - 1 ==> |cs[k]| == size
    decreases |xs|
  {
    if |xs| == 0 then []
    else if |xs| <= size then
      assert Flatten([xs]) == xs + [];
      [xs]
    else
      var rest := Chunks(xs[size..], size);
      assert ([xs[..size]] + rest)[1..] == rest;
      assert xs[..size] + xs[size..] == xs;
      [xs[..size]] + rest
  }

  /** Every worker's chunk result, drained in submission order: the same as
      mapping the items of all chunks one by one. */
  function MapChunks<A, B>(fn: A -> Result<B>, chunks: seq<seq<A>>): (r: Result<seq<B>>)
    ensures r == MapAll(fn, Flatten(chunks))
    decreases |chunks|
  {
    if |chunks| == 0 then Success([])
    else
      MapAllAppend(fn, chunks[0], Flatten(chunks[1..]));
      var head :- MapAll(fn, chunks[0]);
      var rest :- MapChunks(fn, chunks[1..]);
      Success(head + rest)
  }

  /** The chunk size changes how items are dispatched, never the result. */
  lemma ChunkedMapIsMap<A, B>(fn: A -> Result<B>, xs: seq<A>, chunkSize: nat)
    requires chunkSize >= 1
    ensures MapChunks(fn, Chunks(xs, chunkSize)) == MapAll(fn, xs)
  {
  }

  /** Lines 38-40: the caller iterates over the pool's results and appends
      each pair to `data`, one worker chunk after the other; an exception
      from a chunk leaves the loop and the call, so no partial `data` is
      returned. The loop computes exactly the drain `MapChunks`. */
  method CollectPairs<A, B>(fn: A -> Result<B>, chunks: seq<seq<A>>) returns (r: Result<seq<B>>)
    ensures r == MapChunks(fn, chunks)
  {
    var data: seq<B> := [];
    var c := 0;
    while c < |chunks|
      invariant 0 <= c <= |chunks|
      invariant MapAll(fn, Flatten(chunks[..c])) == Success(data)
      invariant Flatten(chunks) == Flatten(chunks[..c]) + Flatten(chunks[c..])
    {
      var out := MapAll(fn, chunks[c]);
      FlattenStep(chunks, c);
      MapAllAppend(fn, Flatten(chunks[..c]), chunks[c]);
      if out.Failure? {
        assert Flatten(chunks) == Flatten(chunks[..c + 1]) + Flatten(chunks[c + 1..]);
        MapAllAppend(fn, Flatten(chunks[..c + 1]), Flatten(chunks[c + 1..]));
        return Failure(out.error);
      }
      var k := 0;
      ghost var before := data;
      while k < |out.value|
        invariant 0 <= k <= |out.value|
        invariant data == before + out.value[..k]
      {
        data := data + [out.value[k]];
        k := k + 1;
      }
      assert out.value[..k] == out.value;
      c := c + 1;
    }
    assert chunks[..c] == chunks;
    r := Success(data);
  }

  /** `get_key_val_from_str` with the key and value indices fixed, as the
      two `repeat` iterators supply them to every call. */
  function Extractor(keyInd: int, valInd: int): string -> Result<Pair> {
    line => GetKeyVal(keyInd, valInd, line)
  }

  /** The extraction of every line, in order. A completed pass holds one
      pair per line, in file order, the i-th being the extraction of the
      i-th line; it completes exactly when every line's extraction does,
      and otherwise raises `IndexError`. */
  function MapLines(keyInd: int, valInd: int, lines: seq<string>): (r: Result<seq<Pair>>)
    ensures r.Success? <==> forall i :: 0 <= i < |lines| ==> GetKeyVal(keyInd, valInd, lines[i]).Success?
    ensures r.Success? ==> |r.value| == |lines|
    ensures r.Success? ==> forall i :: 0 <= i < |lines| ==> GetKeyVal(keyInd, valInd, lines[i]) == Success(r.value[i])
    ensures r.Failure? ==> r.error == IndexError
  {
    MapAllMeaning(Extractor(keyInd, valInd), lines);
    MapAll(Extractor(keyInd, valInd), lines)
  }

  /** `parse_and_map` as written: the `None` sentinel reaches `int(None)`
      on line 37 and raises `TypeError`; a chunk size below 1 makes
      `executor.map` raise `ValueError`; otherwise the chunked map runs. */
  function ParseAndMapAsWritten(lines: seq<string>, keyInd: int, valInd: int, numProcesses: int, mapsPerNode: int)
    : (r: Result<seq<Pair>>)
    ensures numProcesses <= 0 ==> r == Failure(TypeError)
    ensures numProcesses > 0 && mapsPerNode < 1 ==> r == Failure(ValueError)
    ensures numProcesses > 0 && mapsPerNode >= 1 ==> r == MapLines(keyInd, valInd, lines)
  {
    match WorkerGuard(numProcesses)
    case Auto => Failure(TypeError)
    case Workers(_) =>
      if mapsPerNode < 1 then Failure(ValueError)
      else
        ChunkedMapIsMap(Extractor(keyInd, valInd), lines, mapsPerNode);
        MapChunks(Extractor(keyInd, valInd), Chunks(lines, mapsPerNode))
  }

  /** `parse_and_map` as its comment on line 27 intends: the `None` sentinel
      lets the pool pick its own size, and the run goes ahead. */
  function ParseAndMap(lines: seq<string>, keyInd: int, valInd: int, numProcesses: int, mapsPerNode: int)
    : (r: Result<seq<Pair>>)
    ensures mapsPerNode < 1 ==> r == Failure(ValueError)
    ensures mapsPerNode >= 1 ==> r == MapLines(keyInd, valInd, lines)
  {
    // Both `Auto` and `Workers(n)` go on to build the pool; its size never
    // reaches the result.
    match WorkerGuard(numProcesses)
    case _ =>
      if mapsPerNode < 1 then Failure(ValueError)
      else
        ChunkedMapIsMap(Extractor(keyInd, valInd), lines, mapsPerNode);
        MapChunks(Extractor(keyInd, valInd), Chunks(lines, mapsPerNode))
  }

  /** The result depends on neither the process count nor the chunk size. */
  lemma PoolShapeIrrelevant(lines: seq<string>, keyInd: int, valInd: int, n1: int, m1: int, n2: int, m2: int)
    requires m1 >= 1 && m2 >= 1
    ensures ParseAndMap(lines, keyInd, valInd, n1, m1) == ParseAndMap(lines, keyInd, valInd, n2, m2)
    ensures n1 > 0 && n2 > 0 ==>
      ParseAndMapAsWritten(lines, keyInd, valInd, n1, m1) == ParseAndMapAsWritten(lines, keyInd, valInd, n2, m2)
  {
  }

  /** One line whose extraction fails makes the whole call fail. */
  lemma OneBadLineFailsAll(lines: seq<string>, keyInd: int, valInd: int, numProcesses: int, mapsPerNode: int, i: int)
    requires 0 <= i < |lines| && GetKeyVal(keyInd, valInd, lines[i]).Failure?
    ensures ParseAndMap(lines, keyInd, valInd, numProcesses, mapsPerNode).Failure?
    ensures ParseAndMapAsWritten(lines, keyInd, valInd, numProcesses, mapsPerNode).Failure?
  {
    MapAllMeaning(Extractor(keyInd, valInd), lines);
  }

  /** A line `key value\n` yields the pair `(key, value)` for indices 0 and 1. */
  lemma TwoTokenLine(key: string, val: string)
    requires IsToken(key) && IsToken(val)
    ensures GetKeyVal(0, 1, key + " " + val + "\n") == Success((key, val))
  {
    var tokens := [key, val];
    assert JoinSpaced(tokens) == key + " " + val by {
      assert JoinSpaced(tokens[1..]) == val;
    }
    GetKeyValOfJoined(0, 1, tokens);
  }

  /** A two-column line: key, one space, value, newline. */
  function FormatLine(p: Pair): string {
    p.0 + " " + p.1 + "\n"
  }

  /** Round trip: a file of two-column lines maps back to its pairs, whatever
      the process count and chunk size. */
  lemma ParseFormattedLines(rows: seq<Pair>, numProcesses: int, mapsPerNode: int)
    requires mapsPerNode >= 1
    requires forall i :: 0 <= i < |rows| ==> IsToken(rows[i].0) && IsToken(rows[i].1)
    ensures ParseAndMap(seq(|rows|, i requires 0 <= i < |rows| => FormatLine(rows[i])), 0, 1, numProcesses, mapsPerNode)
         == Success(rows)
  {
    var lines := seq(|rows|, i requires 0 <= i < |rows| => FormatLine(rows[i]));
    forall i | 0 <= i < |rows|
      ensures GetKeyVal(0, 1, lines[i]) == Success(rows[i])
    {
      TwoTokenLine(rows[i].0, rows[i].1);
    }
    var r := MapLines(0, 1, lines);
    assert r.value == rows;
  }

  lemma ThreeLinesFormatted()
    ensures var rows := [("a", "1"), ("b", "2"), ("a", "3")];
            seq(|rows|, i requires 0 <= i < |rows| => FormatLine(rows[i])) == ["a 1\n", "b 2\n", "a 3\n"]
  {
    var rows := [("a", "1"), ("b", "2"), ("a", "3")];
    var lines := seq(|rows|, i requires 0 <= i < |rows| => FormatLine(rows[i]));
    assert lines[0] == "a 1\n" && lines[1] == "b 2\n" && lines[2] == "a 3\n";
  }

  lemma ThreeLinesTokens()
    ensures var rows := [("a", "1"), ("b", "2"), ("a", "3")];
            forall i :: 0 <= i < |rows| ==> IsToken(rows[i].0) && IsToken(rows[i].1)
  {
  }

  /** The three-line file `a 1`, `b 2`, `a 3` with key 0 and value 1. */
  lemma ThreeLineExample(numProcesses: int, mapsPerNode: int)
    requires mapsPerNode >= 1
    ensures ParseAndMap(["a 1\n", "b 2\n", "a 3\n"], 0, 1, numProcesses, mapsPerNode)
         == Success([("a", "1"), ("b", "2"), ("a", "3")])
  {
    ThreeLinesTokens();
    ThreeLinesFormatted();
    ParseFormattedLines([("a", "1"), ("b", "2"), ("a", "3")], numProcesses, mapsPerNode);
  }
}
