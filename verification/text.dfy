/** The text half of CalcDuv's input pipeline: Java's `String.trim`, the
    comma-to-dot substitution, the split on runs of `[ \s]` and the removal of
    empty pieces.  Characters are Unicode scalar values; Java's `\s` without
    UNICODE_CHARACTER_CLASS is the space and U+0009 through U+000D. */
module Text {

  /** A character the split pattern `[ \s]+` matches. */
  predicate IsSeparator(c: char) {
    c == ' ' || ('\t' <= c <= '\r')
  }

  /** A character `String.trim` strips: any code point up to U+0020. */
  predicate IsTrimmable(c: char) {
    c <= ' '
  }

  predicate NoSeparator(s: string) {
    forall k :: 0 <= k < |s| ==> !IsSeparator(s[k])
  }

  /** `s` without its leading run of trimmable characters. */
  function TrimStart(s: string): (r: string)
    ensures |r| <= |s| && r == s[|s| - |r|..]
    ensures forall k :: 0 <= k < |s| - |r| ==> IsTrimmable(s[k])
    ensures r == [] || !IsTrimmable(r[0])
  {
    if |s| > 0 && IsTrimmable(s[0]) then TrimStart(s[1..]) else s
  }

  /** `s` without its trailing run of trimmable characters. */
  function TrimEnd(s: string): (r: string)
    ensures |r| <= |s| && r == s[..|r|]
    ensures forall k :: |r| <= k < |s| ==> IsTrimmable(s[k])
    ensures r == [] || !IsTrimmable(r[|r| - 1])
  {
    if |s| > 0 && IsTrimmable(s[|s| - 1]) then TrimEnd(s[..|s| - 1]) else s
  }

  /** Java's `String.trim`: the infix of `s` left after removing every
      character up to U+0020 from both ends. */
  function Trim(s: string): (r: string)
    ensures |r| <= |s|
  {
    TrimEnd(TrimStart(s))
  }

  function DecimalPoint(c: char): char {
    if c == ',' then '.' else c
  }

  /** `replace(',', '.')`: every comma becomes a dot, nothing else changes. */
  function ReplaceCommas(s: string): (r: string)
    ensures |r| == |s|
    ensures forall k :: 0 <= k < |s| ==> r[k] == DecimalPoint(s[k])
    ensures ',' !in r
  {
    if s == [] then [] else [DecimalPoint(s[0])] + ReplaceCommas(s[1..])
  }

  function BlankChar(c: char): char {
    if IsSeparator(c) then ' ' else c
  }

  /** `s` with every separator character replaced by a plain space. */
  function Blank(s: string): (r: string)
    ensures |r| == |s|
    ensures forall k :: 0 <= k < |s| ==> r[k] == BlankChar(s[k])
  {
    if s == [] then [] else [BlankChar(s[0])] + Blank(s[1..])
  }

  /** The characters of `s` that are not separators, in order. */
  function Visible(s: string): string {
    if s == [] then []
    else if IsSeparator(s[0]) then Visible(s[1..])
    else [s[0]] + Visible(s[1..])
  }

  /** The pieces joined back together with one space between neighbours. */
  function JoinSpace(ps: seq<string>): string {
    if |ps| == 0 then []
    else if |ps| == 1 then ps[0]
    else ps[0] + [' '] + JoinSpace(ps[1..])
  }

  function Concat(ps: seq<string>): string {
    if ps == [] then [] else ps[0] + Concat(ps[1..])
  }

  lemma JoinSpaceCons(p: string, ps: seq<string>)
    requires |ps| >= 1
    ensures JoinSpace([p] + ps) == p + [' '] + JoinSpace(ps)
  {
    assert ([p] + ps)[1..] == ps;
  }

  lemma ConcatCons(p: string, ps: seq<string>)
    ensures Concat([p] + ps) == p + Concat(ps)
  {
    assert ([p] + ps)[1..] == ps;
  }

  /** `r` is a split of `s` at its separators: at least one piece, no piece
      holds a separator or a character foreign to `s`, joining the pieces with
      single spaces gives `s` with every separator blanked, and concatenating
      them gives `s` with every separator removed. */
  predicate SplitOf(s: string, r: seq<string>) {
    && |r| >= 1
    && (forall i :: 0 <= i < |r| ==> NoSeparator(r[i]))
    && (forall i, k :: 0 <= i < |r| && 0 <= k < |r[i]| ==> r[i][k] in s)
    && JoinSpace(r) == Blank(s)
    && Concat(r) == Visible(s)
  }

  /** Split at every single separator character.  A run of separators yields
      empty pieces between its characters; once empty pieces are dropped the
      result is the same as splitting on the runs `[ \s]+` (`SeparatorRun`). */
  function Pieces(s: string): (r: seq<string>)
    ensures SplitOf(s, r)
    decreases |s|
  {
    if s == [] then [[]]
    else
      var rest := Pieces(s[1..]);
      if IsSeparator(s[0]) then
        SplitAtSeparator(s, rest);
        [[]] + rest
      else
        SplitAtVisible(s, rest);
        [[s[0]] + rest[0]] + rest[1..]
  }

  /** A leading separator starts a new, empty, first piece. */
  lemma SplitAtSeparator(s: string, rest: seq<string>)
    requires s != [] && IsSeparator(s[0]) && SplitOf(s[1..], rest)
    ensures SplitOf(s, [[]] + rest)
  {
    assert s == [s[0]] + s[1..];
    JoinSpaceCons([], rest);
    ConcatCons([], rest);
  }

  /** A leading visible character extends the first piece. */
  lemma SplitAtVisible(s: string, rest: seq<string>)
    requires s != [] && !IsSeparator(s[0]) && SplitOf(s[1..], rest)
    ensures SplitOf(s, [[s[0]] + rest[0]] + rest[1..])
  {
    assert s == [s[0]] + s[1..];
    ExtendFirstPiece(s[0], rest);
  }

  /** Prepending a visible character to the first piece prepends it to both
      the joined and the concatenated text. */
  lemma ExtendFirstPiece(c: char, ps: seq<string>)
    requires |ps| >= 1
    ensures JoinSpace([[c] + ps[0]] + ps[1..]) == [c] + JoinSpace(ps)
    ensures Concat([[c] + ps[0]] + ps[1..]) == [c] + Concat(ps)
  {
    ExtendFirstJoined(c, ps);
    ExtendFirstConcat(c, ps);
  }

  lemma {:induction false} ExtendFirstJoined(c: char, ps: seq<string>)
    requires |ps| >= 1
    ensures JoinSpace([[c] + ps[0]] + ps[1..]) == [c] + JoinSpace(ps)
  {
    if |ps| > 1 {
      var tail := ps[1..];
      assert ps == [ps[0]] + tail;
      JoinSpaceCons(ps[0], tail);
      JoinSpaceCons([c] + ps[0], tail);
    }
  }

  lemma {:induction false} ExtendFirstConcat(c: char, ps: seq<string>)
    requires |ps| >= 1
    ensures Concat([[c] + ps[0]] + ps[1..]) == [c] + Concat(ps)
  {
    var tail := ps[1..];
    assert ps == [ps[0]] + tail;
    ConcatCons(ps[0], tail);
    ConcatCons([c] + ps[0], tail);
  }

  /** The non-empty pieces, in order (`filter(not(String::isEmpty))`). */
  function NonEmpty(ps: seq<string>): (r: seq<string>)
    ensures |r| <= |ps|
    ensures forall i :: 0 <= i < |r| ==> r[i] != [] && r[i] in ps
    ensures Concat(r) == Concat(ps)
  {
    if ps == [] then []
    else if ps[0] == [] then
      ConcatCons([], ps[1..]);
      assert ps == [ps[0]] + ps[1..];
      NonEmpty(ps[1..])
    else
      ConcatCons(ps[0], NonEmpty(ps[1..]));
      assert ps == [ps[0]] + ps[1..];
      [ps[0]] + NonEmpty(ps[1..])
  }

  /** On one piece the filter keeps it exactly when it is non-empty. */
  lemma NonEmptySingleton(p: string)
    ensures NonEmpty([p]) == (if p == [] then [] else [p])
  {
    assert [p][1..] == [];
  }

  /** The filter distributes over concatenation.  With `NonEmptySingleton`
      this determines it: the result is the non-empty pieces in their order. */
  lemma {:induction false} NonEmptyAppend(a: seq<string>, b: seq<string>)
    ensures NonEmpty(a + b) == NonEmpty(a) + NonEmpty(b)
  {
    if a == [] {
      assert a + b == b;
    } else {
      assert (a + b)[0] == a[0];
      assert (a + b)[1..] == a[1..] + b;
      NonEmptyAppend(a[1..], b);
    }
  }

  /** Splitting is unambiguous: separator-free pieces are determined by their
      space-joined text, so `Pieces` is the one split its contract describes. */
  lemma {:induction false} JoinSpaceInjective(ps: seq<string>, qs: seq<string>)
    requires |ps| >= 1 && |qs| >= 1
    requires forall i :: 0 <= i < |ps| ==> NoSeparator(ps[i])
    requires forall i :: 0 <= i < |qs| ==> NoSeparator(qs[i])
    requires JoinSpace(ps) == JoinSpace(qs)
    ensures ps == qs
  {
    if |ps| == 1 && |qs| == 1 {
    } else if |ps| == 1 {
      FirstSpace(qs);
      assert false;
    } else if |qs| == 1 {
      FirstSpace(ps);
      assert false;
    } else {
      FirstSpace(ps);
      FirstSpace(qs);
      var j := JoinSpace(ps);
      if |ps[0]| != |qs[0]| {
        assert false;
      }
      assert ps[0] == j[..|ps[0]|] == qs[0];
      assert JoinSpace(ps[1..]) == j[|ps[0]| + 1..] == JoinSpace(qs[1..]);
      JoinSpaceInjective(ps[1..], qs[1..]);
    }
  }

  /** In the space-joined text the first space ends the first piece. */
  lemma FirstSpace(ps: seq<string>)
    requires |ps| >= 1
    requires forall i :: 0 <= i < |ps| ==> NoSeparator(ps[i])
    ensures |ps| == 1 ==> JoinSpace(ps) == ps[0]
    ensures |ps| > 1 ==> JoinSpace(ps) == ps[0] + [' '] + JoinSpace(ps[1..])
    ensures |ps| > 1 ==> JoinSpace(ps)[|ps[0]|] == ' '
    ensures forall k :: 0 <= k < |ps[0]| && k < |JoinSpace(ps)| ==> JoinSpace(ps)[k] != ' '
  {
    assert NoSeparator(ps[0]);
    if |ps| > 1 {
      JoinSpaceCons(ps[0], ps[1..]);
      assert ps == [ps[0]] + ps[1..];
    }
  }

  /** Two non-empty runs of pieces join with one space between them. */
  lemma {:induction false} JoinSpaceAppend(ps: seq<string>, qs: seq<string>)
    requires |ps| >= 1 && |qs| >= 1
    ensures JoinSpace(ps + qs) == JoinSpace(ps) + [' '] + JoinSpace(qs)
  {
    assert ps + qs == [ps[0]] + (ps[1..] + qs);
    JoinSpaceCons(ps[0], ps[1..] + qs);
    if |ps| > 1 {
      JoinSpaceAppend(ps[1..], qs);
      assert ps == [ps[0]] + ps[1..];
      JoinSpaceCons(ps[0], ps[1..]);
    }
  }

  /** Blanking a text with one separator inside blanks each side and puts a
      space in between. */
  lemma BlankAround(a: string, c: char, b: string)
    requires IsSeparator(c)
    ensures Blank(a + [c] + b) == Blank(a) + [' '] + Blank(b)
  {
  }

  /** Every single separator cuts the text: the pieces of `a c b` are the
      pieces of `a` followed by the pieces of `b`. */
  lemma PiecesAround(a: string, c: char, b: string)
    requires IsSeparator(c)
    ensures Pieces(a + [c] + b) == Pieces(a) + Pieces(b)
  {
    var pa, pb := Pieces(a), Pieces(b);
    AppendNoSeparator(pa, pb);
    assert JoinSpace(pa + pb) == Blank(a + [c] + b) by {
      JoinSpaceAppend(pa, pb);
      BlankAround(a, c, b);
    }
    JoinSpaceInjective(Pieces(a + [c] + b), pa + pb);
  }

  lemma AppendNoSeparator(ps: seq<string>, qs: seq<string>)
    requires forall i :: 0 <= i < |ps| ==> NoSeparator(ps[i])
    requires forall i :: 0 <= i < |qs| ==> NoSeparator(qs[i])
    ensures forall i :: 0 <= i < |ps + qs| ==> NoSeparator((ps + qs)[i])
  {
    forall i | 0 <= i < |ps + qs|
      ensures NoSeparator((ps + qs)[i])
    {
      if i < |ps| {
        assert (ps + qs)[i] == ps[i];
      } else {
        assert (ps + qs)[i] == qs[i - |ps|];
      }
    }
  }

  /** The non-empty pieces of `a c b` are those of `a` followed by those of
      `b`: every separator ends a token. */
  lemma SplitsAround(a: string, c: char, b: string)
    requires IsSeparator(c)
    ensures NonEmpty(Pieces(a + [c] + b)) == NonEmpty(Pieces(a)) + NonEmpty(Pieces(b))
  {
    PiecesAround(a, c, b);
    NonEmptyAppend(Pieces(a), Pieces(b));
  }

  /** Two separators in a row split like one, so splitting on single
      separators and dropping empty pieces splits on runs `[ \s]+`. */
  lemma SeparatorRun(a: string, c: char, d: char, b: string)
    requires IsSeparator(c) && IsSeparator(d)
    ensures NonEmpty(Pieces(a + [c, d] + b)) == NonEmpty(Pieces(a + [c] + b))
  {
    var tail := [d] + b;
    assert a + [c, d] + b == a + [c] + tail;
    assert NonEmpty(Pieces(tail)) == NonEmpty(Pieces(b)) by {
      assert tail == [] + [d] + b;
      SplitsAround([], d, b);
      NonEmptySingleton([]);
    }
    SplitsAround(a, c, tail);
    SplitsAround(a, c, b);
  }

  /** The tokens `parse` hands to the number parser for a present input. */
  function Tokens(s: string): (r: seq<string>)
    ensures forall i :: 0 <= i < |r| ==> r[i] != [] && NoSeparator(r[i]) && ',' !in r[i]
    ensures Concat(r) == Visible(ReplaceCommas(Trim(s)))
  {
    var normalised := ReplaceCommas(Trim(s));
    var r := NonEmpty(Pieces(normalised));
    forall i | 0 <= i < |r|
      ensures NoSeparator(r[i]) && ',' !in r[i]
    {
      var ps := Pieces(normalised);
      var j :| 0 <= j < |ps| && ps[j] == r[i];
      assert forall k :: 0 <= k < |r[i]| ==> r[i][k] in normalised;
    }
    r
  }

  /** The tokens of a chunk are the non-empty pieces of any separator-free
      split of its trimmed, comma-replaced text. */
  lemma {:induction false} TokensCharacterised(s: string, ps: seq<string>)
    requires |ps| >= 1
    requires forall i :: 0 <= i < |ps| ==> NoSeparator(ps[i])
    requires JoinSpace(ps) == Blank(ReplaceCommas(Trim(s)))
    ensures Tokens(s) == NonEmpty(ps)
  {
    JoinSpaceInjective(Pieces(ReplaceCommas(Trim(s))), ps);
  }

  /** Non-empty, separator-free words that, joined by single spaces, give a
      chunk's trimmed, comma-replaced and blanked text are its tokens. */
  lemma {:induction false} TokensOfSplit(s: string, ws: seq<string>)
    requires |ws| >= 1
    requires forall i :: 0 <= i < |ws| ==> NoSeparator(ws[i]) && ws[i] != []
    requires JoinSpace(ws) == Blank(ReplaceCommas(Trim(s)))
    ensures Tokens(s) == ws
  {
    TokensCharacterised(s, ws);
    NonEmptyOfNonEmpty(ws);
  }

  /** A word the tokenizer passes through untouched: non-empty, with no
      trimmable character (so no separator) and no comma. */
  predicate IsPlainWord(w: string) {
    |w| > 0 && forall k :: 0 <= k < |w| ==> !IsTrimmable(w[k]) && w[k] != ','
  }

  lemma {:induction false} NonEmptyOfNonEmpty(ps: seq<string>)
    requires forall i :: 0 <= i < |ps| ==> ps[i] != []
    ensures NonEmpty(ps) == ps
  {
    if ps != [] {
      NonEmptyOfNonEmpty(ps[1..]);
      assert ps == [ps[0]] + ps[1..];
    }
  }

  /** Every character of words joined by single spaces is a space or a
      character of a plain word; the text starts and ends with a word
      character. */
  lemma {:induction false} JoinSpacePlain(ws: seq<string>)
    requires |ws| >= 1
    requires forall i :: 0 <= i < |ws| ==> IsPlainWord(ws[i])
    ensures var j := JoinSpace(ws);
      && |j| > 0
      && !IsTrimmable(j[0]) && !IsTrimmable(j[|j| - 1])
      && forall k :: 0 <= k < |j| ==> j[k] == ' ' || (!IsTrimmable(j[k]) && j[k] != ',')
  {
    if |ws| > 1 {
      JoinSpacePlain(ws[1..]);
      JoinSpaceCons(ws[0], ws[1..]);
      assert ws == [ws[0]] + ws[1..];
      var j := JoinSpace(ws);
      var tail := JoinSpace(ws[1..]);
      assert j == ws[0] + [' '] + tail;
      assert j[|j| - 1] == tail[|tail| - 1];
      forall k | 0 <= k < |j|
        ensures j[k] == ' ' || (!IsTrimmable(j[k]) && j[k] != ',')
      {
        if k < |ws[0]| {
          assert j[k] == ws[0][k];
        } else if k > |ws[0]| {
          assert j[k] == tail[k - |ws[0]| - 1];
        }
      }
    }
  }

  /** Plain words joined by single spaces are left alone by trimming, by the
      comma substitution and by blanking of separators. */
  lemma {:induction false} JoinedIsNormal(ws: seq<string>)
    requires |ws| >= 1
    requires forall i :: 0 <= i < |ws| ==> IsPlainWord(ws[i])
    ensures Trim(JoinSpace(ws)) == JoinSpace(ws)
    ensures ReplaceCommas(JoinSpace(ws)) == JoinSpace(ws)
    ensures Blank(JoinSpace(ws)) == JoinSpace(ws)
  {
    JoinSpacePlain(ws);
    var j := JoinSpace(ws);
    TrimUntrimmableEnds(j);
    ReplaceCommasNoComma(j);
    BlankNoOtherSeparator(j);
  }

  lemma {:induction false} TrimUntrimmableEnds(s: string)
    requires |s| > 0 && !IsTrimmable(s[0]) && !IsTrimmable(s[|s| - 1])
    ensures Trim(s) == s
  {
  }

  /** Text without commas is left alone by the substitution. */
  lemma {:induction false} ReplaceCommasNoComma(s: string)
    requires forall k :: 0 <= k < |s| ==> s[k] != ','
    ensures ReplaceCommas(s) == s
  {
    var r := ReplaceCommas(s);
    assert forall k :: 0 <= k < |s| ==> r[k] == s[k];
  }

  lemma {:induction false} BlankNoOtherSeparator(s: string)
    requires forall k :: 0 <= k < |s| ==> s[k] == ' ' || !IsTrimmable(s[k])
    ensures Blank(s) == s
  {
    var r := Blank(s);
    assert forall k :: 0 <= k < |s| ==> r[k] == s[k];
  }

  /** Plain words joined by single spaces tokenize back into those words. */
  lemma {:induction false} TokensOfJoined(ws: seq<string>)
    requires |ws| >= 1
    requires forall i :: 0 <= i < |ws| ==> IsPlainWord(ws[i])
    ensures Tokens(JoinSpace(ws)) == ws
  {
    JoinedIsNormal(ws);
    forall i | 0 <= i < |ws|
      ensures NoSeparator(ws[i]) && ws[i] != []
    {
      assert IsPlainWord(ws[i]);
    }
    TokensCharacterised(JoinSpace(ws), ws);
    NonEmptyOfNonEmpty(ws);
  }

  /** Replacing commas twice is replacing them once. */
  lemma ReplaceCommasIdempotent(s: string)
    ensures ReplaceCommas(ReplaceCommas(s)) == ReplaceCommas(s)
  {
  }

  /** Leading trimming commutes with the comma substitution. */
  lemma {:induction false} TrimStartReplace(s: string)
    ensures TrimStart(ReplaceCommas(s)) == ReplaceCommas(TrimStart(s))
  {
    if s != [] {
      var c := ReplaceCommas(s);
      assert c[1..] == ReplaceCommas(s[1..]);
      if IsTrimmable(s[0]) {
        TrimStartReplace(s[1..]);
      }
    }
  }

  /** Trailing trimming commutes with the comma substitution. */
  lemma {:induction false} TrimEndReplace(s: string)
    ensures TrimEnd(ReplaceCommas(s)) == ReplaceCommas(TrimEnd(s))
  {
    if s != [] {
      var c := ReplaceCommas(s);
      assert c[..|s| - 1] == ReplaceCommas(s[..|s| - 1]) by {
        ReplaceCommasSlice(s, 0, |s| - 1);
        assert s[0..|s| - 1] == s[..|s| - 1];
      }
      if IsTrimmable(s[|s| - 1]) {
        TrimEndReplace(s[..|s| - 1]);
      }
    }
  }

  /** Trimming commutes with the comma substitution: neither `,` nor `.` is
      trimmable. */
  lemma {:induction false} TrimReplaceCommute(s: string)
    ensures Trim(ReplaceCommas(s)) == ReplaceCommas(Trim(s))
  {
    TrimStartReplace(s);
    TrimEndReplace(TrimStart(s));
  }

  /** The substitution of a slice is the slice of the substitution. */
  /** The comma substitution works character by character, so it
      distributes over concatenation. */
  lemma ReplaceCommasAppend(a: string, b: string)
    ensures ReplaceCommas(a + b) == ReplaceCommas(a) + ReplaceCommas(b)
  {
    var l, r := ReplaceCommas(a + b), ReplaceCommas(a) + ReplaceCommas(b);
    forall k | 0 <= k < |l|
      ensures l[k] == r[k]
    {
      if k < |a| {
        assert (a + b)[k] == a[k];
      } else {
        assert (a + b)[k] == b[k - |a|];
      }
    }
  }

  lemma {:induction false} ReplaceCommasSlice(s: string, i: nat, j: nat)
    requires i <= j <= |s|
    ensures ReplaceCommas(s)[i..j] == ReplaceCommas(s[i..j])
  {
    var l := ReplaceCommas(s)[i..j];
    var r := ReplaceCommas(s[i..j]);
    forall k | 0 <= k < j - i
      ensures l[k] == r[k]
    {
      assert s[i..j][k] == s[i + k];
    }
  }

  /** Comma and dot are interchangeable: an input and the same input with its
      commas already turned into dots produce the same tokens. */
  lemma {:induction false} TokensCommaDot(s: string)
    ensures Tokens(ReplaceCommas(s)) == Tokens(s)
  {
    TrimReplaceCommute(s);
    ReplaceCommasIdempotent(Trim(s));
  }

}
