/** CalcDuv's persistent FIFO buffer and its drain loop.  The buffer is threaded
    through the operations as a value: each operation takes the buffer as it
    was and returns it as it becomes.  `calc` is not modelled; instead the
    operations return the pairs handed to it, in the order it receives them. */
module PairBuffer {

  import opened Wrappers
  import Text
  import Parsing

  /** The two-element array `pop` returns: `x` is the older value. */
  datatype Pair = Pair(x: real, y: real)

  /** The values of the pairs, each pair contributing `x` then `y`. */
  function Flatten(ps: seq<Pair>): (r: seq<real>)
    ensures |r| == 2 * |ps|
  {
    if ps == [] then [] else [ps[0].x, ps[0].y] + Flatten(ps[1..])
  }

  lemma {:induction false} FlattenAppend(a: seq<Pair>, b: seq<Pair>)
    ensures Flatten(a + b) == Flatten(a) + Flatten(b)
  {
    if a == [] {
      assert a + b == b;
    } else {
      assert (a + b)[1..] == a[1..] + b;
      FlattenAppend(a[1..], b);
    }
  }

  /** Pair `i` of a flattened sequence sits at positions `2i` and `2i+1`. */
  lemma {:induction false} FlattenIndex(ps: seq<Pair>, i: nat)
    requires i < |ps|
    ensures Flatten(ps)[2 * i] == ps[i].x && Flatten(ps)[2 * i + 1] == ps[i].y
  {
    if i > 0 {
      FlattenIndex(ps[1..], i - 1);
    }
  }

  /** What `pop` returns (absent when fewer than two values are buffered) and
      the buffer it leaves. */
  datatype Popped = Popped(pair: Option<Pair>, rest: seq<real>)

  /** `pop`: the two oldest values, removed, when at least two are buffered;
      otherwise nothing, and the buffer is left as it was. */
  function Pop(buffer: seq<real>): (p: Popped)
    ensures p.pair.Some? <==> |buffer| >= 2
    ensures p.pair.None? ==> p.rest == buffer
    ensures p.pair.Some? ==> [p.pair.value.x, p.pair.value.y] + p.rest == buffer
  {
    if |buffer| >= 2 then Popped(Some(Pair(buffer[0], buffer[1])), buffer[2..])
    else Popped(None, buffer)
  }

  /** The pairs a drain hands to `calc`, in order, and the buffer it leaves. */
  datatype Drained = Drained(emitted: seq<Pair>, rest: seq<real>)

  /** The `while (pop(buffer) != null)` loop as a function: every complete
      pair is emitted oldest first, no value is lost or duplicated, and at
      most one value stays behind. */
  function Drain(buffer: seq<real>): (d: Drained)
    ensures Flatten(d.emitted) + d.rest == buffer
    ensures |d.rest| < 2
    decreases |buffer|
  {
    var p := Pop(buffer);
    if p.pair.None? then Drained([], buffer)
    else
      var d := Drain(p.rest);
      assert [p.pair.value] + d.emitted == [p.pair.value] + d.emitted;
      assert ([p.pair.value] + d.emitted)[1..] == d.emitted;
      Drained([p.pair.value] + d.emitted, d.rest)
  }

  /** A drain emits half as many pairs as there are values, rounded down. */
  lemma {:induction false} DrainCount(buffer: seq<real>)
    ensures |Drain(buffer).emitted| == |buffer| / 2
    ensures |Drain(buffer).rest| == |buffer| % 2
  {
    var d := Drain(buffer);
    assert |Flatten(d.emitted) + d.rest| == |buffer|;
  }

  /** Drained pairs are consecutive, non-overlapping windows of the buffer:
      pair `i` is (buffer[2i], buffer[2i+1]), and what stays is the tail past
      the last pair. */
  lemma {:induction false} DrainWindows(buffer: seq<real>)
    ensures var d := Drain(buffer);
      && (forall i :: 0 <= i < |d.emitted| ==> d.emitted[i] == Pair(buffer[2 * i], buffer[2 * i + 1]))
      && d.rest == buffer[2 * |d.emitted|..]
  {
    var d := Drain(buffer);
    forall i | 0 <= i < |d.emitted|
      ensures d.emitted[i] == Pair(buffer[2 * i], buffer[2 * i + 1])
    {
      FlattenIndex(d.emitted, i);
    }
  }

  /** One `onInput` call as a function: parse the chunk, then drain. */
  function Step(buffer: seq<real>, input: Option<string>, num: string -> Option<real>): (d: Drained)
    ensures Flatten(d.emitted) + d.rest == buffer + Parsing.Values(input, num)
    ensures |d.rest| < 2
  {
    Drain(Parsing.Parse(buffer, input, num))
  }

  /** One round of the drain loop: a buffer of two or more values drains its
      first pair, then whatever draining the rest yields. */
  lemma {:induction false} DrainUnfold(buffer: seq<real>)
    requires |buffer| >= 2
    ensures Drain(buffer).emitted == [Pop(buffer).pair.value] + Drain(Pop(buffer).rest).emitted
    ensures Drain(buffer).rest == Drain(Pop(buffer).rest).rest
  {
  }

  /** The loop invariant of the drain survives one pop. */
  lemma {:induction false} DrainLoopStep(all: seq<real>, emitted: seq<Pair>, rest: seq<real>)
    requires |rest| >= 2
    requires Drain(all).emitted == emitted + Drain(rest).emitted
    requires Drain(all).rest == Drain(rest).rest
    ensures Drain(all).emitted == (emitted + [Pair(rest[0], rest[1])]) + Drain(rest[2..]).emitted
    ensures Drain(all).rest == Drain(rest[2..]).rest
  {
    var pair := Pair(rest[0], rest[1]);
    var tail := Drain(rest[2..]);
    assert Pop(rest) == Popped(Some(pair), rest[2..]);
    DrainUnfold(rest);
    assert Drain(rest).emitted == [pair] + tail.emitted;
    assert emitted + ([pair] + tail.emitted) == (emitted + [pair]) + tail.emitted;
  }

  lemma {:induction false} PopFlatten(emitted: seq<Pair>, rest: seq<real>)
    requires |rest| >= 2
    ensures Flatten(emitted + [Pair(rest[0], rest[1])]) + rest[2..] == Flatten(emitted) + rest
  {
    var pair := Pair(rest[0], rest[1]);
    FlattenAppend(emitted, [pair]);
    assert Flatten([pair]) == [pair.x, pair.y] + Flatten([]);
    assert rest == [pair.x, pair.y] + rest[2..];
  }

  /** `onInput`: parse the chunk into the buffer, then pop and emit pairs
      until fewer than two values remain. */
  method OnInput(buffer: seq<real>, input: Option<string>, num: string -> Option<real>)
    returns (emitted: seq<Pair>, rest: seq<real>)
    ensures |rest| < 2
    ensures Flatten(emitted) + rest == buffer + Parsing.Values(input, num)
    ensures |emitted| == (|buffer| + |Parsing.Values(input, num)|) / 2
    ensures Drained(emitted, rest) == Step(buffer, input, num)
  {
    var all := Parsing.Parse(buffer, input, num);
    emitted, rest := DrainLoop(all);
  }

  /** The drain loop of `onInput`, popping until `pop` returns nothing. */
  method DrainLoop(all: seq<real>) returns (emitted: seq<Pair>, rest: seq<real>)
    ensures |rest| < 2
    ensures Flatten(emitted) + rest == all
    ensures Drained(emitted, rest) == Drain(all)
  {
    emitted := [];
    rest := all;
    var popped := Pop(rest);
    while popped.pair.Some?
      invariant popped == Pop(rest)
      invariant Flatten(emitted) + rest == all
      invariant Drain(all).emitted == emitted + Drain(rest).emitted
      invariant Drain(all).rest == Drain(rest).rest
      decreases |rest|
    {
      var pair := popped.pair.value;
      DrainLoopStep(all, emitted, rest);
      PopFlatten(emitted, rest);
      emitted := emitted + [pair];
      rest := popped.rest;
      popped := Pop(rest);
    }
    assert Drain(rest) == Drained([], rest);
    assert emitted + [] == emitted;
  }

  /** Commas and dots are interchangeable decimal separators: a chunk and the
      same chunk with its commas turned into dots emit the same pairs and leave
      the same buffer. */
  lemma StepCommaDot(buffer: seq<real>, s: string, num: string -> Option<real>)
    ensures Step(buffer, Some(Text.ReplaceCommas(s)), num) == Step(buffer, Some(s), num)
  {
    Parsing.ParseCommaDot(buffer, s, num);
  }

  /** An absent chunk adds nothing: it only drains what is already there. */
  lemma AbsentInput(buffer: seq<real>, num: string -> Option<real>)
    requires |buffer| < 2
    ensures Step(buffer, None, num) == Drained([], buffer)
  {
  }

  /** A waiting value pairs with the first value appended after it: draining
      one leftover followed by new values emits the leftover as x and the first
      new value as y. */
  lemma {:induction false} LeftoverPairsFirst(buffer: seq<real>, values: seq<real>)
    requires |buffer| == 1 && |values| >= 1
    ensures var d := Drain(buffer + values);
      |d.emitted| >= 1 && d.emitted[0] == Pair(buffer[0], values[0])
  {
    var all := buffer + values;
    assert all[0] == buffer[0] && all[1] == values[0];
    DrainCount(all);
    DrainWindows(all);
  }

  /** An odd leftover is carried: when one value is waiting and the next chunk
      supplies at least one value, the first pair emitted is the waiting value
      followed by the chunk's first value. */
  lemma {:induction false} CarryLeftover(buffer: seq<real>, input: Option<string>, num: string -> Option<real>)
    requires |buffer| == 1
    requires |Parsing.Values(input, num)| >= 1
    ensures var d := Step(buffer, input, num);
      |d.emitted| >= 1 && d.emitted[0] == Pair(buffer[0], Parsing.Values(input, num)[0])
  {
    assert Parsing.Parse(buffer, input, num) == buffer + Parsing.Values(input, num);
    LeftoverPairsFirst(buffer, Parsing.Values(input, num));
  }

  /** The values a sequence of chunks contributes, chunk after chunk. */
  function AllValues(inputs: seq<Option<string>>, num: string -> Option<real>): seq<real> {
    if inputs == [] then [] else Parsing.Values(inputs[0], num) + AllValues(inputs[1..], num)
  }

  /** A session: `onInput` applied to each chunk in turn, starting from the
      given buffer.  Over the whole session the emitted pairs followed by the
      final buffer are exactly the starting buffer followed by every value
      read, and after at least one chunk at most one value is left. */
  function Run(buffer: seq<real>, inputs: seq<Option<string>>, num: string -> Option<real>): (d: Drained)
    ensures Flatten(d.emitted) + d.rest == buffer + AllValues(inputs, num)
    ensures |inputs| > 0 || |buffer| < 2 ==> |d.rest| < 2
    decreases |inputs|
  {
    if inputs == [] then Drained([], buffer)
    else
      var first := Step(buffer, inputs[0], num);
      var later := Run(first.rest, inputs[1..], num);
      FlattenAppend(first.emitted, later.emitted);
      Regroup(Flatten(first.emitted), first.rest, buffer, Parsing.Values(inputs[0], num),
              Flatten(later.emitted), later.rest, AllValues(inputs[1..], num));
      Drained(first.emitted + later.emitted, later.rest)
  }

  /** A session over a first chunk and more: the first `onInput`, then the
      rest of the session on the buffer it left. */
  lemma {:induction false} RunUnfold(buffer: seq<real>, inputs: seq<Option<string>>, num: string -> Option<real>)
    requires |inputs| > 0
    ensures var first := Step(buffer, inputs[0], num);
      var later := Run(first.rest, inputs[1..], num);
      Run(buffer, inputs, num) == Drained(first.emitted + later.emitted, later.rest)
  {
  }

  /** Sequence bookkeeping for two drains in a row. */
  lemma Regroup<T>(f1: seq<T>, r1: seq<T>, b: seq<T>, v: seq<T>, f2: seq<T>, r2: seq<T>, tail: seq<T>)
    requires f1 + r1 == b + v
    requires f2 + r2 == r1 + tail
    ensures (f1 + f2) + r2 == b + (v + tail)
  {
    calc {
      (f1 + f2) + r2;
      f1 + (f2 + r2);
      f1 + (r1 + tail);
      (f1 + r1) + tail;
      (b + v) + tail;
    }
  }

  /** The number of pairs a session hands to `calc` is half the number of
      values it has seen, rounded down. */
  lemma {:induction false} RunCount(buffer: seq<real>, inputs: seq<Option<string>>, num: string -> Option<real>)
    requires |inputs| > 0 || |buffer| < 2
    ensures |Run(buffer, inputs, num).emitted| == (|buffer| + |AllValues(inputs, num)|) / 2
  {
    var d := Run(buffer, inputs, num);
    assert |Flatten(d.emitted) + d.rest| == |buffer + AllValues(inputs, num)|;
  }

}
