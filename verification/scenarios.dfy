/** Worked inputs from the program's usage notes, stated as lemmas about the
    model with the stand-in decimal parser `Numbers.ParseDecimal`. */
module Scenarios {

  import opened Wrappers
  import Text
  import Numbers
  import Parsing
  import PairBuffer

  /** A natural number's digits are a plain word that parses to it. */
  lemma ReadsInteger(s: string, n: nat)
    requires Numbers.ShowNat(n) == s
    ensures Numbers.ParseDecimal(s) == Some(n as real)
    ensures Text.IsPlainWord(s)
  {
    Numbers.ParseShowNat(n);
  }

  lemma ReadsInteger4356() ensures Numbers.ParseDecimal("4356") == Some(4356.0)
  {
    assert Numbers.ShowNat(4356) == "4356";
    ReadsInteger("4356", 4356);
  }

  lemma ReadsInteger4118() ensures Numbers.ParseDecimal("4118") == Some(4118.0)
  {
    assert Numbers.ShowNat(4118) == "4118";
    ReadsInteger("4118", 4118);
  }

  lemma ReadsInteger4377() ensures Numbers.ParseDecimal("4377") == Some(4377.0)
  {
    assert Numbers.ShowNat(4377) == "4377";
    ReadsInteger("4377", 4377);
  }

  lemma ReadsInteger4101() ensures Numbers.ParseDecimal("4101") == Some(4101.0)
  {
    assert Numbers.ShowNat(4101) == "4101";
    ReadsInteger("4101", 4101);
  }

  /** "0." followed by four digits is read as those digits over 10^4. */
  lemma ReadsFourPlaces(z: string, f: string, n: nat)
    requires z == "0" && Numbers.AllDigits(f) && |f| == 4 && Numbers.DigitsValue(f) == n
    ensures Numbers.ParseDecimal(z + ['.'] + f) == Some(n as real / 10000.0)
  {
    var p := Numbers.Pow10(|f|);
    assert p == 10000 by {
      assert |f| == 4;
    }
    assert Numbers.AllDigits(z) && Numbers.DigitsValue(z) == 0;
    var v := Numbers.DigitsValue(z) as real + Numbers.DigitsValue(f) as real / p as real;
    assert v == n as real / 10000.0;
    assert Numbers.ParseDecimal(z + ['.'] + f) == Some(v) by {
      Numbers.ParseFraction(z, f);
    }
  }

  lemma DigitsOf4525() ensures Numbers.DigitsValue("4525") == 4525
  {
    assert Numbers.ShowNat(4525) == "4525";
    Numbers.DigitsValueShowNat(4525);
  }

  lemma DigitsOf4037() ensures Numbers.DigitsValue("4037") == 4037
  {
    assert Numbers.ShowNat(4037) == "4037";
    Numbers.DigitsValueShowNat(4037);
  }

  /** "0.4525" is read as 0.4525. */
  lemma ReadsFraction4525()
    ensures Numbers.ParseDecimal("0.4525") == Some(0.4525)
  {
    DigitsOf4525();
    ReadsFourPlaces("0", "4525", 4525);
    assert "0" + ['.'] + "4525" == "0.4525";
  }

  /** "0.4037" is read as 0.4037. */
  lemma ReadsFraction4037()
    ensures Numbers.ParseDecimal("0.4037") == Some(0.4037)
  {
    DigitsOf4037();
    ReadsFourPlaces("0", "4037", 4037);
    assert "0" + ['.'] + "4037" == "0.4037";
  }

  /** The threshold is strictly above one, and negative values are never
      rescaled. */
  lemma ScaleThreshold()
    ensures Numbers.Scale(1.0) == 1.0
    ensures Numbers.Scale(1.0001) == 0.00010001
    ensures Numbers.Scale(-4525.0) == -4525.0
  {
  }

  /** Draining four values yields the first two and the last two as pairs. */
  lemma DrainFour(a: real, b: real, c: real, d: real)
    ensures PairBuffer.Drain([a, b, c, d])
            == PairBuffer.Drained([PairBuffer.Pair(a, b), PairBuffer.Pair(c, d)], [])
  {
    var all := [a, b, c, d];
    PairBuffer.DrainCount(all);
    PairBuffer.DrainWindows(all);
  }

  /** Draining two values yields them as one pair. */
  lemma DrainTwo(a: real, b: real)
    ensures PairBuffer.Drain([a, b]) == PairBuffer.Drained([PairBuffer.Pair(a, b)], [])
  {
    PairBuffer.DrainCount([a, b]);
    PairBuffer.DrainWindows([a, b]);
  }

  lemma TokensOfRows()
    ensures Text.Tokens("4356 4118 4377 4101") == ["4356", "4118", "4377", "4101"]
  {
    var ws := ["4356", "4118", "4377", "4101"];
    assert Text.JoinSpace(ws) == "4356 4118 4377 4101";
    assert Text.IsPlainWord("4356") && Text.IsPlainWord("4118");
    assert Text.IsPlainWord("4377") && Text.IsPlainWord("4101");
    Text.TokensOfJoined(ws);
  }

  /** Four tokens that the parser all accepts contribute their four rescaled
      values, in order. */
  lemma FourAccepted(t1: string, t2: string, t3: string, t4: string,
                     v1: real, v2: real, v3: real, v4: real, num: string -> Option<real>)
    requires num(t1) == Some(v1) && num(t2) == Some(v2) && num(t3) == Some(v3) && num(t4) == Some(v4)
    ensures Parsing.ParsedValues([t1, t2, t3, t4], num)
            == [Numbers.Scale(v1), Numbers.Scale(v2), Numbers.Scale(v3), Numbers.Scale(v4)]
  {
    Parsing.AllAccepted([t1, t2, t3, t4], num);
  }

  lemma RowsRescaled()
    ensures Numbers.Scale(4356.0) == 0.4356 && Numbers.Scale(4118.0) == 0.4118
    ensures Numbers.Scale(4377.0) == 0.4377 && Numbers.Scale(4101.0) == 0.4101
  {
  }

  /** Two rows pasted as one chunk, "4356 4118 4377 4101": two pairs are
      emitted in row order and the buffer is left empty. */
  lemma MultiPairDrainWith(num: string -> Option<real>)
    requires num("4356") == Some(4356.0) && num("4118") == Some(4118.0)
    requires num("4377") == Some(4377.0) && num("4101") == Some(4101.0)
    ensures PairBuffer.Step([], Some("4356 4118 4377 4101"), num)
            == PairBuffer.Drained([PairBuffer.Pair(0.4356, 0.4118), PairBuffer.Pair(0.4377, 0.4101)], [])
  {
    TokensOfRows();
    FourAccepted("4356", "4118", "4377", "4101", 4356.0, 4118.0, 4377.0, 4101.0, num);
    RowsRescaled();
    assert Parsing.Parse([], Some("4356 4118 4377 4101"), num) == [0.4356, 0.4118, 0.4377, 0.4101];
    DrainFour(0.4356, 0.4118, 0.4377, 0.4101);
  }

  lemma MultiPairDrain()
    ensures PairBuffer.Step([], Some("4356 4118 4377 4101"), Numbers.ParseDecimal)
            == PairBuffer.Drained([PairBuffer.Pair(0.4356, 0.4118), PairBuffer.Pair(0.4377, 0.4101)], [])
  {
    ReadsInteger4356();
    ReadsInteger4118();
    ReadsInteger4377();
    ReadsInteger4101();
    MultiPairDrainWith(Numbers.ParseDecimal);
  }

  /** A session of two chunks is the first `onInput` followed by the second
      on the buffer the first one left. */
  lemma RunTwo(buffer: seq<real>, a: Option<string>, b: Option<string>, num: string -> Option<real>,
                first: PairBuffer.Drained, second: PairBuffer.Drained)
    requires PairBuffer.Step(buffer, a, num) == first
    requires PairBuffer.Step(first.rest, b, num) == second
    ensures PairBuffer.Run(buffer, [a, b], num) == PairBuffer.Drained(first.emitted + second.emitted, second.rest)
  {
    var inputs := [a, b];
    PairBuffer.RunUnfold(buffer, inputs, num);
    assert inputs[1..] == [b];
    PairBuffer.RunUnfold(first.rest, [b], num);
    assert [b][1..] == [];
    assert PairBuffer.Run(second.rest, [], num) == PairBuffer.Drained([], second.rest);
    assert second.emitted + [] == second.emitted;
  }

  /** A single value of at most one, read into an empty buffer, waits there
      and nothing is emitted. */
  lemma OddValueWaits(chunk: string, w: string, v: real, num: string -> Option<real>)
    requires Text.Tokens(chunk) == [w] && num(w) == Some(v) && v <= 1.0
    ensures PairBuffer.Step([], Some(chunk), num) == PairBuffer.Drained([], [v])
  {
    OneValue(chunk, w, v, num);
    assert Parsing.Parse([], Some(chunk), num) == [v];
  }

  /** A value waiting in the buffer is completed by the next chunk's value and
      emitted as x, the new value as y. */
  lemma PartnerCompletes(chunk: string, w: string, u: real, v: real, num: string -> Option<real>)
    requires Text.Tokens(chunk) == [w] && num(w) == Some(v) && v <= 1.0
    ensures PairBuffer.Step([u], Some(chunk), num) == PairBuffer.Drained([PairBuffer.Pair(u, v)], [])
  {
    var all := Parsing.Parse([u], Some(chunk), num);
    assert all == [u, v] by {
      OneValue(chunk, w, v, num);
      assert all[..1] == [u] && all[1..] == [v];
      assert all == all[..1] + all[1..];
    }
    DrainTwo(u, v);
  }

  /** A single value waits in the buffer; the next chunk supplies its partner
      and the pair is emitted with the waiting value as x. */
  lemma OddValueCarriedWith(first: string, a: string, u: real, second: string, b: string, v: real,
                            num: string -> Option<real>)
    requires Text.Tokens(first) == [a] && num(a) == Some(u) && u <= 1.0
    requires Text.Tokens(second) == [b] && num(b) == Some(v) && v <= 1.0
    ensures PairBuffer.Step([], Some(first), num) == PairBuffer.Drained([], [u])
    ensures PairBuffer.Run([], [Some(first), Some(second)], num)
            == PairBuffer.Drained([PairBuffer.Pair(u, v)], [])
  {
    OddValueWaits(first, a, u, num);
    PartnerCompletes(second, b, u, v, num);
    RunTwo([], Some(first), Some(second), num, PairBuffer.Drained([], [u]),
           PairBuffer.Drained([PairBuffer.Pair(u, v)], []));
    assert [] + [PairBuffer.Pair(u, v)] == [PairBuffer.Pair(u, v)];
  }

  /** A chunk whose one token is read as a value of at most one contributes
      that value. */
  lemma OneValue(chunk: string, w: string, v: real, num: string -> Option<real>)
    requires Text.Tokens(chunk) == [w] && num(w) == Some(v) && v <= 1.0
    ensures Parsing.Values(Some(chunk), num) == [v]
  {
    Parsing.AllAccepted([w], num);
  }

  /** A chunk that is one plain word tokenizes to that word. */
  lemma TokensOfWord(w: string)
    requires Text.IsPlainWord(w)
    ensures Text.Tokens(w) == [w]
  {
    assert Text.JoinSpace([w]) == w;
    Text.TokensOfJoined([w]);
  }

  lemma TokensOfCoordinates()
    ensures Text.Tokens("0.4525") == ["0.4525"]
    ensures Text.Tokens("0.4037") == ["0.4037"]
  {
    assert Text.IsPlainWord("0.4525") && Text.IsPlainWord("0.4037");
    TokensOfWord("0.4525");
    TokensOfWord("0.4037");
  }

  lemma OddValueCarried()
    ensures PairBuffer.Step([], Some("0.4525"), Numbers.ParseDecimal) == PairBuffer.Drained([], [0.4525])
    ensures PairBuffer.Run([], [Some("0.4525"), Some("0.4037")], Numbers.ParseDecimal)
            == PairBuffer.Drained([PairBuffer.Pair(0.4525, 0.4037)], [])
  {
    ReadsFraction4525();
    ReadsFraction4037();
    TokensOfCoordinates();
    OddValueCarriedWith("0.4525", "0.4525", 0.4525, "0.4037", "0.4037", 0.4037, Numbers.ParseDecimal);
  }

  lemma TokensWithGarbage()
    ensures Text.Tokens("abc 0.4525 0.4037") == ["abc", "0.4525", "0.4037"]
  {
    var ws := ["abc", "0.4525", "0.4037"];
    assert Text.JoinSpace(ws) == "abc 0.4525 0.4037";
    assert Text.IsPlainWord("abc") && Text.IsPlainWord("0.4525") && Text.IsPlainWord("0.4037");
    Text.TokensOfJoined(ws);
  }

  lemma TokensOfPair()
    ensures Text.Tokens("0.4525 0.4037") == ["0.4525", "0.4037"]
  {
    var ws := ["0.4525", "0.4037"];
    assert Text.JoinSpace(ws) == "0.4525 0.4037";
    assert Text.IsPlainWord("0.4525") && Text.IsPlainWord("0.4037");
    Text.TokensOfJoined(ws);
  }

  /** An unparseable token is dropped and does not shift the pairing of the
      values around it, whatever the parser makes of the other tokens. */
  lemma RejectedTokenKeepsPairingWith(withGarbage: string, clean: string, g: string, a: string, b: string,
                                      num: string -> Option<real>)
    requires Text.Tokens(withGarbage) == [g, a, b]
    requires Text.Tokens(clean) == [a, b]
    requires num(g) == None
    ensures Parsing.Values(Some(withGarbage), num) == Parsing.Values(Some(clean), num)
  {
    var ws := [a, b];
    assert Parsing.ParsedValues([g, a, b], num) == Parsing.ParsedValues(ws, num) by {
      Parsing.RejectedTokenDropped([], g, ws, num);
      assert [] + [g] + ws == [g, a, b];
      assert [] + ws == ws;
    }
  }

  lemma RejectedTokenKeepsPairing()
    ensures Parsing.Values(Some("abc 0.4525 0.4037"), Numbers.ParseDecimal)
            == Parsing.Values(Some("0.4525 0.4037"), Numbers.ParseDecimal)
  {
    assert Numbers.ParseDecimal("abc") == None;
    TokensWithGarbage();
    TokensOfPair();
    RejectedTokenKeepsPairingWith("abc 0.4525 0.4037", "0.4525 0.4037", "abc", "0.4525", "0.4037", Numbers.ParseDecimal);
  }

  /** A row of two plain words separated by a tab, as a spreadsheet copies
      it, tokenizes to the two words. */
  lemma TokensOfTabbedRow(row: string, a: string, b: string)
    requires Text.IsPlainWord(a) && Text.IsPlainWord(b) && row == a + ['\t'] + b
    ensures Text.Tokens(row) == [a, b]
  {
    TabbedRowJoined(row, a, b);
    TwoWords(a, b);
    Text.TokensOfSplit(row, [a, b]);
  }

  lemma TwoWords(a: string, b: string)
    requires Text.IsPlainWord(a) && Text.IsPlainWord(b)
    ensures forall i :: 0 <= i < |[a, b]| ==> Text.NoSeparator([a, b][i]) && [a, b][i] != []
  {
    assert Text.NoSeparator(a) && Text.NoSeparator(b);
  }

  /** The tabbed row, once trimmed, comma-replaced and blanked, is its two
      words joined by a space. */
  lemma TabbedRowJoined(row: string, a: string, b: string)
    requires Text.IsPlainWord(a) && Text.IsPlainWord(b) && row == a + ['\t'] + b
    ensures Text.JoinSpace([a, b]) == Text.Blank(Text.ReplaceCommas(Text.Trim(row)))
  {
    Text.JoinSpaceCons(a, [b]);
    TabBlanked(row, a, b);
    TabbedRowNormal(row, a, b);
  }

  /** Blanking turns the tab between two plain words into a space. */
  lemma TabBlanked(row: string, a: string, b: string)
    requires Text.IsPlainWord(a) && Text.IsPlainWord(b) && row == a + ['\t'] + b
    ensures Text.Blank(row) == a + [' '] + b
  {
    var r := Text.Blank(row);
    var j := a + [' '] + b;
    forall k | 0 <= k < |row|
      ensures r[k] == j[k]
    {
      if k < |a| {
        assert row[k] == a[k];
      } else if k > |a| {
        assert row[k] == b[k - |a| - 1];
      }
    }
  }

  /** A tabbed row of plain words is left alone by trimming and by the comma
      substitution. */
  lemma TabbedRowNormal(row: string, a: string, b: string)
    requires Text.IsPlainWord(a) && Text.IsPlainWord(b) && row == a + ['\t'] + b
    ensures Text.ReplaceCommas(Text.Trim(row)) == row
  {
    assert row[0] == a[0] && row[|row| - 1] == b[|b| - 1];
    Text.TrimUntrimmableEnds(row);
    forall k | 0 <= k < |row|
      ensures row[k] != ','
    {
      if k < |a| {
        assert row[k] == a[k];
      } else if k > |a| {
        assert row[k] == b[k - |a| - 1];
      }
    }
    Text.ReplaceCommasNoComma(row);
  }

  /** A row of two coordinates, both read as values above one, is emitted as
      one rescaled pair and leaves an empty buffer behind. */
  lemma RowPairWith(row: string, a: string, b: string, u: real, v: real, num: string -> Option<real>)
    requires Text.Tokens(row) == [a, b] && num(a) == Some(u) && num(b) == Some(v)
    ensures PairBuffer.Step([], Some(row), num)
            == PairBuffer.Drained([PairBuffer.Pair(Numbers.Scale(u), Numbers.Scale(v))], [])
  {
    assert Parsing.ParsedValues([a, b], num) == [Numbers.Scale(u), Numbers.Scale(v)] by {
      Parsing.AllAccepted([a, b], num);
    }
    assert Parsing.Parse([], Some(row), num) == [Numbers.Scale(u), Numbers.Scale(v)];
    DrainTwo(Numbers.Scale(u), Numbers.Scale(v));
  }

  /** Two lines that each emit one pair from an empty buffer, read one
      after the other, emit both pairs in line order. */
  lemma TwoRowsWith(r1: string, r2: string, p1: PairBuffer.Pair, p2: PairBuffer.Pair,
                    num: string -> Option<real>)
    requires PairBuffer.Step([], Some(r1), num) == PairBuffer.Drained([p1], [])
    requires PairBuffer.Step([], Some(r2), num) == PairBuffer.Drained([p2], [])
    ensures PairBuffer.Run([], [Some(r1), Some(r2)], num) == PairBuffer.Drained([p1, p2], [])
  {
    var first := PairBuffer.Drained([p1], []);
    assert PairBuffer.Run([], [Some(r1), Some(r2)], num) == PairBuffer.Drained([p1] + [p2], []) by {
      assert first.rest == [];
      RunTwo([], Some(r1), Some(r2), num, first, PairBuffer.Drained([p2], []));
    }
    TwoSingletons(p1, p2);
  }

  lemma TwoSingletons<T>(a: T, b: T)
    ensures [a] + [b] == [a, b]
  {
  }

  lemma TokensOfRow4356()
    ensures Text.Tokens("4356\t4118") == ["4356", "4118"]
  {
    WordsOfDigits("4356", "4118");
    TokensOfTabbedRow("4356\t4118", "4356", "4118");
  }

  lemma TokensOfRow4377()
    ensures Text.Tokens("4377\t4101") == ["4377", "4101"]
  {
    WordsOfDigits("4377", "4101");
    TokensOfTabbedRow("4377\t4101", "4377", "4101");
  }

  /** Digit strings are plain words. */
  lemma WordsOfDigits(a: string, b: string)
    requires |a| > 0 && |b| > 0 && Numbers.AllDigits(a) && Numbers.AllDigits(b)
    ensures Text.IsPlainWord(a) && Text.IsPlainWord(b)
  {
  }

  /** The first row of the usage example, "4356<TAB>4118", emits one pair. */
  lemma FirstRow()
    ensures PairBuffer.Step([], Some("4356\t4118"), Numbers.ParseDecimal)
            == PairBuffer.Drained([PairBuffer.Pair(0.4356, 0.4118)], [])
  {
    ReadsInteger4356();
    ReadsInteger4118();
    assert Numbers.Scale(4356.0) == 0.4356 && Numbers.Scale(4118.0) == 0.4118;
    TokensOfRow4356();
    RowPairWith("4356\t4118", "4356", "4118", 4356.0, 4118.0, Numbers.ParseDecimal);
  }

  /** The second row of the usage example, "4377<TAB>4101", emits one pair. */
  lemma SecondRow()
    ensures PairBuffer.Step([], Some("4377\t4101"), Numbers.ParseDecimal)
            == PairBuffer.Drained([PairBuffer.Pair(0.4377, 0.4101)], [])
  {
    ReadsInteger4377();
    ReadsInteger4101();
    assert Numbers.Scale(4377.0) == 0.4377 && Numbers.Scale(4101.0) == 0.4101;
    TokensOfRow4377();
    RowPairWith("4377\t4101", "4377", "4101", 4377.0, 4101.0, Numbers.ParseDecimal);
  }

  /** The usage example: two rows pasted from a spreadsheet arrive as two
      lines, "4356<TAB>4118" then "4377<TAB>4101", each line one `onInput`
      call; the pairs (0.4356, 0.4118) and (0.4377, 0.4101) are handed to
      `calc`, in that order, and nothing is left over. */
  lemma SpreadsheetRows()
    ensures PairBuffer.Run([], [Some("4356\t4118"), Some("4377\t4101")], Numbers.ParseDecimal)
            == PairBuffer.Drained([PairBuffer.Pair(0.4356, 0.4118), PairBuffer.Pair(0.4377, 0.4101)], [])
  {
    FirstRow();
    SecondRow();
    TwoRowsWith("4356\t4118", "4377\t4101", PairBuffer.Pair(0.4356, 0.4118), PairBuffer.Pair(0.4377, 0.4101),
                Numbers.ParseDecimal);
  }

  /** The substitution treats the two sides of a space separately. */
  lemma SpaceJoinedCommas(x: string, y: string)
    ensures Text.ReplaceCommas(x + [' '] + y) == Text.ReplaceCommas(x) + [' '] + Text.ReplaceCommas(y)
  {
    Text.ReplaceCommasAppend(x + [' '], y);
    Text.ReplaceCommasAppend(x, [' ']);
    assert Text.ReplaceCommas([' ']) == [' '];
  }

  /** One decimal-comma number becomes the same number with a decimal dot. */
  lemma CommaNumber(a: string, b: string)
    requires Numbers.AllDigits(a) && Numbers.AllDigits(b)
    ensures Text.ReplaceCommas(a + [','] + b) == a + ['.'] + b
  {
    Text.ReplaceCommasNoComma(a);
    Text.ReplaceCommasNoComma(b);
    Text.ReplaceCommasAppend(a + [','], b);
    Text.ReplaceCommasAppend(a, [',']);
    assert Text.ReplaceCommas([',']) == ['.'];
  }

  lemma CommasOfPair()
    ensures Text.ReplaceCommas("0,4525 0,4037") == "0.4525 0.4037"
  {
    CommaOf4525();
    CommaOf4037();
    SpacedPair();
    SpaceJoinedCommas("0,4525", "0,4037");
  }

  lemma SpacedPair()
    ensures "0,4525 0,4037" == "0,4525" + [' '] + "0,4037"
    ensures "0.4525 0.4037" == "0.4525" + [' '] + "0.4037"
  {
  }

  lemma CommaOf4525() ensures Text.ReplaceCommas("0,4525") == "0.4525"
  {
    assert "0,4525" == "0" + [','] + "4525";
    CommaNumber("0", "4525");
  }

  lemma CommaOf4037() ensures Text.ReplaceCommas("0,4037") == "0.4037"
  {
    assert "0,4037" == "0" + [','] + "4037";
    CommaNumber("0", "4037");
  }

  /** The dot form of the usage example's arguments, "0.4525 0.4037", emits
      the one pair (0.4525, 0.4037). */
  lemma DotArguments()
    ensures PairBuffer.Step([], Some("0.4525 0.4037"), Numbers.ParseDecimal)
            == PairBuffer.Drained([PairBuffer.Pair(0.4525, 0.4037)], [])
  {
    ReadsFraction4525();
    ReadsFraction4037();
    assert Numbers.Scale(0.4525) == 0.4525 && Numbers.Scale(0.4037) == 0.4037;
    TokensOfPair();
    RowPairWith("0.4525 0.4037", "0.4525", "0.4037", 0.4525, 0.4037, Numbers.ParseDecimal);
  }

  /** The usage example `java CalcDuv.java 0,4525 0,4037`: the arguments,
      joined by a space and written with decimal commas, hand the one pair
      (0.4525, 0.4037) to `calc`. */
  lemma CommaArguments()
    ensures PairBuffer.Step([], Some("0,4525 0,4037"), Numbers.ParseDecimal)
            == PairBuffer.Drained([PairBuffer.Pair(0.4525, 0.4037)], [])
  {
    CommasOfPair();
    DotArguments();
    PairBuffer.StepCommaDot([], "0,4525 0,4037", Numbers.ParseDecimal);
  }

  lemma ReadsInteger4525() ensures Numbers.ParseDecimal("4525") == Some(4525.0)
  {
    assert Numbers.ShowNat(4525) == "4525";
    ReadsInteger("4525", 4525);
  }

  lemma ReadsInteger4037() ensures Numbers.ParseDecimal("4037") == Some(4037.0)
  {
    assert Numbers.ShowNat(4037) == "4037";
    ReadsInteger("4037", 4037);
  }

  lemma TokensOfIntegerPair()
    ensures Text.Tokens("4525 4037") == ["4525", "4037"]
  {
    var ws := ["4525", "4037"];
    assert Text.JoinSpace(ws) == "4525 4037";
    WordsOfDigits("4525", "4037");
    Text.TokensOfJoined(ws);
  }

  /** The usage example `java CalcDuv.java 4525 4037`: both values are above
      one, so both are divided by 10000 and `calc` receives the same pair
      (0.4525, 0.4037) as for the fractional arguments. */
  lemma IntegerArguments()
    ensures PairBuffer.Step([], Some("4525 4037"), Numbers.ParseDecimal)
            == PairBuffer.Drained([PairBuffer.Pair(0.4525, 0.4037)], [])
  {
    ReadsInteger4525();
    ReadsInteger4037();
    assert Numbers.Scale(4525.0) == 0.4525 && Numbers.Scale(4037.0) == 0.4037;
    TokensOfIntegerPair();
    RowPairWith("4525 4037", "4525", "4037", 4525.0, 4037.0, Numbers.ParseDecimal);
  }

}
