/** CalcDuv's `parse` and `put`: a present input is tokenised, every token is
    offered to a number parser, rejected tokens are dropped, accepted values
    are rescaled and appended to the buffer in token order.  The number parser
    is a parameter `num`: a token maps to `Some(value)` when the parser accepts
    it and to `None` when it throws `ParseException`. */
module Parsing {

  import opened Wrappers
  import Text
  import Numbers

  /** The values one token contributes: none when it is rejected, its rescaled
      value otherwise. */
  function TokenValues(t: string, num: string -> Option<real>): (r: seq<real>)
    ensures |r| == if num(t).Some? then 1 else 0
  {
    match num(t)
    case None => []
    case Some(v) => [Numbers.Scale(v)]
  }

  /** The values a token sequence contributes, in token order. */
  function ParsedValues(tokens: seq<string>, num: string -> Option<real>): (r: seq<real>)
    ensures |r| <= |tokens|
  {
    if tokens == [] then []
    else TokenValues(tokens[0], num) + ParsedValues(tokens[1..], num)
  }

  /** When the parser accepts every token, each token yields exactly its
      rescaled value, at its own position. */
  lemma {:induction false} AllAccepted(tokens: seq<string>, num: string -> Option<real>)
    requires forall i :: 0 <= i < |tokens| ==> num(tokens[i]).Some?
    ensures |ParsedValues(tokens, num)| == |tokens|
    ensures forall i :: 0 <= i < |tokens| ==> ParsedValues(tokens, num)[i] == Numbers.Scale(num(tokens[i]).value)
  {
    if tokens != [] {
      AllAccepted(tokens[1..], num);
    }
  }

  /** When the parser rejects every token, nothing is appended. */
  lemma {:induction false} AllRejected(tokens: seq<string>, num: string -> Option<real>)
    requires forall i :: 0 <= i < |tokens| ==> num(tokens[i]).None?
    ensures ParsedValues(tokens, num) == []
  {
    if tokens != [] {
      AllRejected(tokens[1..], num);
    }
  }

  /** Parsing distributes over concatenation of token sequences. */
  lemma {:induction false} ParsedValuesAppend(a: seq<string>, b: seq<string>, num: string -> Option<real>)
    ensures ParsedValues(a + b, num) == ParsedValues(a, num) + ParsedValues(b, num)
  {
    if a == [] {
      assert a + b == b;
    } else {
      assert (a + b)[1..] == a[1..] + b;
      ParsedValuesAppend(a[1..], b, num);
    }
  }

  /** A token the parser rejects is dropped without shifting the values
      around it. */
  lemma RejectedTokenDropped(a: seq<string>, t: string, b: seq<string>, num: string -> Option<real>)
    requires num(t).None?
    ensures ParsedValues(a + [t] + b, num) == ParsedValues(a + b, num)
  {
    ParsedValuesAppend(a + [t], b, num);
    ParsedValuesAppend(a, [t], num);
    ParsedValuesAppend(a, b, num);
    assert ParsedValues([t], num) == [] by {
      assert [t][1..] == [];
    }
  }

  /** The values an input chunk contributes; an absent chunk contributes
      nothing. */
  function Values(input: Option<string>, num: string -> Option<real>): (r: seq<real>)
    ensures input.None? ==> r == []
    ensures input.Some? ==> |r| <= |Text.Tokens(input.value)|
  {
    match input
    case None => []
    case Some(s) => ParsedValues(Text.Tokens(s), num)
  }

  /** `put`: one value appended at the tail of the buffer. */
  function Put(buffer: seq<real>, item: real): (r: seq<real>)
    ensures |r| == |buffer| + 1 && r[..|buffer|] == buffer && r[|buffer|] == item
  {
    buffer + [item]
  }

  /** The `forEach(put)` at the end of `parse`: the values are put one at a
      time, oldest first. */
  function PutAll(buffer: seq<real>, items: seq<real>): (r: seq<real>)
    ensures r == buffer + items
    decreases |items|
  {
    if items == [] then buffer
    else
      assert buffer + items == Put(buffer, items[0]) + items[1..];
      PutAll(Put(buffer, items[0]), items[1..])
  }

  /** `parse`: the buffer after a chunk has been read.  The old contents stay
      as a prefix, the chunk's values follow in token order, and an absent
      chunk leaves the buffer as it was. */
  function Parse(buffer: seq<real>, input: Option<string>, num: string -> Option<real>): (r: seq<real>)
    ensures |buffer| <= |r| && r[..|buffer|] == buffer
    ensures r[|buffer|..] == Values(input, num)
    ensures input.None? ==> r == buffer
  {
    PutAll(buffer, Values(input, num))
  }

  /** Comma and dot are interchangeable as decimal separators: a chunk and
      the same chunk with its commas turned into dots leave the same buffer. */
  lemma {:induction false} ParseCommaDot(buffer: seq<real>, s: string, num: string -> Option<real>)
    ensures Parse(buffer, Some(Text.ReplaceCommas(s)), num) == Parse(buffer, Some(s), num)
  {
    Text.TokensCommaDot(s);
  }

}
