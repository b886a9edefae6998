/** `get_key_val_from_str`: split a line on whitespace and pick the key
    and the value token by their Python indices. */
module Extract {
  import opened Exceptions
  import opened Whitespace
  import opened Indexing

  /** An extracted (key, value) pair. */
  type Pair = (string, string)

  /** The line's whitespace tokens at the key index and at the value index.
      The key subscript is evaluated first; both failures are `IndexError`. */
  function GetKeyVal(keyInd: int, valInd: int, line: string): (r: Result<Pair>)
    ensures r.Success? <==> InRange(|Split(line)|, keyInd) && InRange(|Split(line)|, valInd)
    ensures r.Success? ==> r.value == (Split(line)[keyInd % |Split(line)|], Split(line)[valInd % |Split(line)|])
    ensures r.Success? ==> IsToken(r.value.0) && IsToken(r.value.1)
    ensures r.Failure? ==> r.error == IndexError
  {
    var tokens := Split(line);
    var key :- Index(tokens, keyInd);
    var val :- Index(tokens, valInd);
    Success((key, val))
  }

  /** Whitespace around the line, such as its trailing `\n`, does not change the extraction. */
  lemma GetKeyValIgnoresSurroundingBlank(keyInd: int, valInd: int, w1: string, line: string, w2: string)
    requires Blank(w1) && Blank(w2)
    ensures GetKeyVal(keyInd, valInd, w1 + line + w2) == GetKeyVal(keyInd, valInd, line)
  {
    SplitIgnoresSurroundingBlank(w1, line, w2);
  }

  /** A line written as its tokens joined by single spaces yields exactly the
      tokens at the two indices. */
  lemma GetKeyValOfJoined(keyInd: int, valInd: int, tokens: seq<string>)
    requires forall k :: 0 <= k < |tokens| ==> IsToken(tokens[k])
    requires InRange(|tokens|, keyInd) && InRange(|tokens|, valInd)
    ensures GetKeyVal(keyInd, valInd, JoinSpaced(tokens) + "\n")
         == Success((tokens[keyInd % |tokens|], tokens[valInd % |tokens|]))
  {
    SplitJoinedLine(tokens);
  }

  lemma SplitJoinedLine(tokens: seq<string>)
    requires forall k :: 0 <= k < |tokens| ==> IsToken(tokens[k])
    ensures Split(JoinSpaced(tokens) + "\n") == tokens
  {
    assert Blank("\n") by {
      assert "\n"[0] == '\n';
    }
    SplitIgnoresTrailingBlank(JoinSpaced(tokens), "\n");
    SplitJoinSpaced(tokens);
  }
}
