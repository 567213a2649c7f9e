# CalcDuv input pipeline in Dafny

CalcDuv reads CIE 1931 chromaticity coordinates as text and computes Duv for
each (x, y) pair. Input arrives in chunks: the command-line arguments joined
by spaces, or one console line at a time. Each chunk goes to `onInput`:

1. `parse` trims the chunk and turns every comma into a dot.
2. It splits the text on runs of spaces and `\s` characters and drops empty
   pieces.
3. It hands each piece to a `DecimalFormat`, drops pieces the format rejects,
   and divides every value greater than one by 10000.
4. It appends the values to a persistent FIFO buffer.
5. `onInput` then pops the two oldest values as long as at least two are
   buffered, and hands each pair to `calc`.

This project models that pipeline: `parse`, `put`, `pop` and the `onInput`
drain loop, with the buffer carried from one call to the next. `calc`, the
colour-science formula, stays uninterpreted. Instead, every operation returns
the pairs it would hand to `calc`, in order.

Modules:

- `Text` holds Java's `String.trim`, the comma substitution and the split.
  The split follows Java's `\s`: the space and U+0009 to U+000D.
- `Numbers` holds the `value > 1 ? value / 10000 : value` rule. It also holds
  `ParseDecimal`, a stand-in for `DecimalFormat.parse`.
- `Parsing` holds `parse` and `put`.
- `PairBuffer` holds `pop`, the drain loop, `onInput` and whole sessions of
  several chunks.
- `Scenarios` states the usage examples from the file's header as lemmas
  about the model.

How the model is set up:

- The number parser is a parameter `num: string -> Option<real>`. `None`
  stands for a `ParseException`. Every general property holds for any parser.
- The usage examples use `Numbers.ParseDecimal`.
- Doubles are exact reals.
- The mutable buffer is a `seq<real>` passed in and returned.

## Model

| member | source | states |
|---|---|---|
| Text.TrimStart | CalcDuv.java:86 | The result is a suffix of the input. Every character dropped is at most U+0020. The result is empty or starts with a character above U+0020. |
| Text.TrimEnd | CalcDuv.java:86 | The result is a prefix of the input. Every character dropped is at most U+0020. The result is empty or ends with a character above U+0020. |
| Text.Trim | CalcDuv.java:86 | `trim` never lengthens its input. The full characterisation is the two strips above. |
| Text.ReplaceCommas | CalcDuv.java:87 | Length is kept. Each comma becomes a dot and every other character is unchanged. No comma remains. |
| Text.ReplaceCommasAppend | CalcDuv.java:87 | The comma substitution of two texts back to back is the substitution of each, back to back. |
| Text.ReplaceCommasIdempotent | CalcDuv.java:87 | Replacing commas a second time changes nothing. |
| Text.TrimReplaceCommute | CalcDuv.java:86-87 | Trimming then replacing commas is the same as replacing then trimming. |
| Text.TrimStartReplace | CalcDuv.java:86-87 | Leading trimming commutes with the comma substitution. |
| Text.TrimEndReplace | CalcDuv.java:86-87 | Trailing trimming commutes with the comma substitution. |
| Text.Pieces | CalcDuv.java:88 | The split yields at least one piece, and no piece holds a separator. Joining the pieces with single spaces gives the text with each separator blanked. Concatenating them gives the text with all separators removed. |
| Text.SplitAtSeparator | CalcDuv.java:88 | A leading separator starts a new, empty piece. |
| Text.SplitAtVisible | CalcDuv.java:88 | A leading non-separator extends the first piece. |
| Text.JoinSpaceInjective | CalcDuv.java:88 | Two separator-free splits with the same space-joined text are equal, so the split is unambiguous. |
| Text.NonEmpty | CalcDuv.java:91 | The empty-string filter keeps only non-empty pieces, drawn from its input, and loses no character. |
| Text.NonEmptySingleton | CalcDuv.java:91 | A single piece is kept exactly when it is non-empty. |
| Text.NonEmptyAppend | CalcDuv.java:91 | Filtering two runs of pieces back to back gives the first run's kept pieces followed by the second's. With the singleton case, this fixes the result as the non-empty pieces in their original order. |
| Text.PiecesAround | CalcDuv.java:88 | A separator anywhere in the text cuts it: the pieces of `a c b` are the pieces of `a` followed by the pieces of `b`. |
| Text.SplitsAround | CalcDuv.java:88-91 | After empty pieces are dropped, the words of `a c b` are the words of `a` followed by the words of `b`. |
| Text.SeparatorRun | CalcDuv.java:88-91 | Two adjacent separators give the same words as one, so splitting on single separators and dropping empty pieces splits on runs `[ \s]+`. |
| Text.NonEmptyOfNonEmpty | CalcDuv.java:91 | The filter leaves a sequence of non-empty pieces unchanged. |
| Text.Tokens | CalcDuv.java:85-91 | Every token is non-empty and holds no separator and no comma. Together the tokens hold exactly the non-separator characters of the trimmed, comma-replaced chunk. |
| Text.TokensCharacterised | CalcDuv.java:85-91 | The tokens are the non-empty pieces of any separator-free split of the normalised chunk. |
| Text.TokensOfSplit | CalcDuv.java:85-91 | Non-empty, separator-free words whose space-joined text is the normalised chunk are exactly its tokens. |
| Text.TokensOfJoined | CalcDuv.java:85-91 | Round trip: the tokens of plain words joined by single spaces are those words. |
| Text.TokensCommaDot | CalcDuv.java:87 | A chunk and the same chunk with its commas already turned into dots give the same tokens. |
| Numbers.ParseDecimal | CalcDuv.java:94 | A token is accepted exactly when it starts with an optional minus sign and then a digit, or a dot followed by a digit. An unsigned token gives a non-negative value and a signed one a non-positive value. |
| Numbers.ParseShowNat | CalcDuv.java:94 | Round trip: the decimal digits of a natural number parse back to that number. |
| Numbers.ParseFraction | CalcDuv.java:94 | `i.f`, with digit strings i and f, parses to i + f / 10^n, where n is the number of digits in f. |
| Numbers.Scale | CalcDuv.java:102 | A value above one comes back as the value whose product with 10000 is the input, and it is smaller. One and every smaller value, including every negative one, are unchanged. |
| Parsing.ParsedValues | CalcDuv.java:92-102 | The token stream never yields more values than tokens. |
| Parsing.AllAccepted | CalcDuv.java:92-102 | When every token is accepted, the i-th value is the scaled parse of the i-th token. |
| Parsing.AllRejected | CalcDuv.java:92-100 | When every token is rejected, no value is produced. |
| Parsing.ParsedValuesAppend | CalcDuv.java:92-103 | The values of two token runs back to back are the first run's values followed by the second's. |
| Parsing.RejectedTokenDropped | CalcDuv.java:93-100 | A rejected token is dropped without shifting the values around it. |
| Parsing.Values | CalcDuv.java:84-103 | A null chunk yields no value. A present chunk yields at most one value per token. |
| Parsing.Put | CalcDuv.java:73-75 | `put` appends one value at the tail and keeps everything before it. |
| Parsing.PutAll | CalcDuv.java:103 | Putting values one at a time leaves the old buffer followed by the values in order. |
| Parsing.Parse | CalcDuv.java:84-104 | The old buffer stays as a prefix and the chunk's values follow it in token order. A null chunk leaves the buffer unchanged. |
| Parsing.ParseCommaDot | CalcDuv.java:87 | A chunk and its comma-replaced form leave the same buffer. |
| PairBuffer.Pop | CalcDuv.java:77-82 | `pop` returns a pair exactly when at least two values are buffered. The pair is the two oldest values, x first, and the rest stays in order. Otherwise the buffer is unchanged. |
| PairBuffer.FlattenAppend | CalcDuv.java:113-115 | The values of two pair sequences back to back are the first sequence's values followed by the second's. |
| PairBuffer.Drain | CalcDuv.java:113-115 | The emitted pairs, flattened, followed by what is left, are exactly the buffer, so nothing is lost or duplicated. At most one value is left. |
| PairBuffer.DrainCount | CalcDuv.java:113-115 | A drain emits half as many pairs as there are values, rounded down, and leaves the parity. |
| PairBuffer.DrainWindows | CalcDuv.java:113-115 | Pair i is (buffer[2i], buffer[2i+1]). What is left is the tail after the last pair. |
| PairBuffer.DrainUnfold | CalcDuv.java:113-115 | A buffer of two or more values drains its popped pair first, then whatever the rest drains to. |
| PairBuffer.Step | CalcDuv.java:110-116 | After one `onInput`, the emitted pairs flattened, followed by the buffer, equal the old buffer followed by the chunk's values. At most one value stays. |
| PairBuffer.OnInput | CalcDuv.java:110-116 | At most one value stays buffered, and values are conserved in order. There are (old size + new values) / 2 pairs. The result equals `Step`. |
| PairBuffer.DrainLoop | CalcDuv.java:112-115 | The `while` loop over `pop` computes exactly `Drain`. |
| PairBuffer.StepCommaDot | CalcDuv.java:87 | A chunk and the same chunk with its commas turned into dots emit the same pairs and leave the same buffer. |
| PairBuffer.AbsentInput | CalcDuv.java:85 | A null chunk on a buffer of fewer than two values emits nothing and keeps the buffer. |
| PairBuffer.LeftoverPairsFirst | CalcDuv.java:113-115 | Draining one waiting value followed by new values emits the waiting value as x and the first new value as y. |
| PairBuffer.CarryLeftover | CalcDuv.java:110-116 | One waiting value and a chunk with at least one value: the first pair is the waiting value as x and the chunk's first value as y. |
| PairBuffer.Run | CalcDuv.java:110-116 | Over a session of chunks, the emitted pairs flattened, followed by the final buffer, equal the starting buffer followed by every value read. After at least one chunk, at most one value is left. |
| PairBuffer.RunUnfold | CalcDuv.java:110-116 | A session is its first `onInput`, then the rest of the session on the buffer that call left. |
| PairBuffer.RunCount | CalcDuv.java:110-116 | A session emits (starting values + values read) / 2 pairs. |
| Scenarios.ScaleThreshold | CalcDuv.java:8-10 | 1.0 and -4525.0 are unchanged, while 1.0001 is divided by 10000. |
| Scenarios.ReadsFraction4525 | CalcDuv.java:94 | "0.4525" is read as 0.4525. |
| Scenarios.CommaArguments | CalcDuv.java:5-7 | The arguments "0,4525 0,4037", joined into one chunk, emit the one pair (0.4525, 0.4037) and leave nothing behind. |
| Scenarios.IntegerArguments | CalcDuv.java:8-10 | The arguments "4525 4037" are both above one and are rescaled, so they emit the same pair (0.4525, 0.4037). |
| Scenarios.ReadsInteger4356 | CalcDuv.java:15 | "4356" is read as 4356. |
| Scenarios.MultiPairDrain | CalcDuv.java:110-116 | One chunk "4356 4118 4377 4101" emits (0.4356, 0.4118) then (0.4377, 0.4101) and empties the buffer. |
| Scenarios.SpreadsheetRows | CalcDuv.java:13-16 | The lines "4356<TAB>4118" and "4377<TAB>4101", read one after the other, emit (0.4356, 0.4118) then (0.4377, 0.4101). |
| Scenarios.TokensOfTabbedRow | CalcDuv.java:88 | A tab separates two words like a space does. |
| Scenarios.OddValueCarried | CalcDuv.java:110-116 | "0.4525" alone emits nothing and waits. The next chunk "0.4037" completes the pair (0.4525, 0.4037). |
| Scenarios.RejectedTokenKeepsPairing | CalcDuv.java:92-100 | "abc 0.4525 0.4037" gives the same values as "0.4525 0.4037". |

## Left out

- `calc` (CalcDuv.java:55-71): the Duv formula is floating-point trigonometry. The model returns the pairs handed to it instead of its results.
- `print` (CalcDuv.java:106-108) and the `System.err` message for a rejected token (CalcDuv.java:96) are output only. They change no state.
- `main` (CalcDuv.java:118-128): the argument joining and the `Scanner` line loop are I/O. A session of chunks is modelled by `PairBuffer.Run`.
- The constructor (CalcDuv.java:47-53) and the mutable `LinkedList` field are replaced by a buffer value threaded through the calls.
- Numbers.ParseDecimal: a simplified stand-in for `DecimalFormat.parse` with `.` as the decimal separator. It reads the longest prefix `-? digit* ('.' digit*)?` that holds a digit. It does not model the following:
  - grouping separators;
  - exponents;
  - the locale's NaN and infinity symbols;
  - the `Long` versus `Double` result;
  - negative zero;
  - digits outside ASCII: `DecimalFormat` reads any Unicode decimal digit, through `Character.digit`, while the stand-in reads only `0` to `9`;
  - the locale's own minus sign and zero digit: the stand-in uses `-` and `0`.
  The pipeline itself takes any number parser as a parameter.
- Numbers.Scale: works on exact reals. Java's double rounding in `value / 10000` is not modelled.
- Text.Trim: its own contract only bounds the length. The characterisation is stated on `Text.TrimStart` and `Text.TrimEnd`, which it composes.
- Parsing.ParsedValues: its own contract only bounds the count. Its meaning is stated by `Parsing.AllAccepted`, `Parsing.AllRejected`, `Parsing.ParsedValuesAppend` and `Parsing.RejectedTokenDropped`.
- The rescaling threshold follows the code, `value > 1`. Negative values are never rescaled, whatever their magnitude. `Scenarios.ScaleThreshold` shows -4525.0 passing through unchanged.
- The split: `split("[ \\s]+")` splits on runs of separators. The model splits on each single separator. After empty pieces are dropped the two give the same tokens: `Text.SeparatorRun` shows that two adjacent separators give the same words as one, and `Text.SplitsAround` that every separator ends a word.
- Text.NonEmpty: its own contract does not fix the order or the multiplicity of the kept pieces. Its full characterisation is `Text.NonEmptySingleton` together with `Text.NonEmptyAppend`.
