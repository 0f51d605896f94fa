# Verified models of the native Android client

The native part of the client (`client/android/jni`) is mostly glue around other libraries, but eleven of its pieces are
algorithms of their own. This project models them in Dafny and proves what they are for. Code that works in place is
modelled in place, with arrays, classes and loops; the two multi-threaded pieces are state machines whose steps interleave
freely, and their results hold for every run of any number of threads.

| file | piece |
|---|---|
| `WindowSum.dfy`, `PackedColors.dfy`, `StackBlur.dfy`, `FastBlur.dfy` | the stack blur on three colours packed into one 64-bit word (`image.c`) |
| `Clahe.dfy` | clipping and equalising a tile histogram (`image.c`) |
| `Ranking.dfy`, `Completer.dfy` | the emoji completer: backtracking matcher, collapsing, ranking (`emoji_suggestions.cpp`) |
| `Numbers.dfy` | bytes, powers of two, quotients and exclusive or, for several of the others |
| `BitWords.dfy`, `Crc32.dfy`, `Crc32Numbers.dfy` | the table-driven checksum, on bits and as numbers (`emoji_suggestions.cpp`) |
| `Waveform.dfy` | the five-bit waveform stream (`audio.c`) |
| `Utf8.dfy` | the UTF-8 validator (`TgNetWrapper.cpp`) |
| `Layout.dfy`, `Genann.dfy`, `Learning.dfy` | the neural network in flat buffers, and what a training step does to it (`genann.c`) |
| `BlockingQueue.dfy` | the queue over a mutex and a semaphore (`BlockingQueue.h`) |
| `CtrStream.dfy` | random access into a CTR stream (`jni.c`) |
| `CoffeeCatch.dfy` | the crash-handler life cycle (`coffeecatch.c`) |
| `Hysteresis.dfy` | edge tracing (`fast-edge.cpp`) |

`dafny verify dfyconfig.toml` checks the whole project.

## Main results

- **Blur.** For radius 1, 3, 7 and 15, `fastBlur` and `fastBlur565` leave in every pixel exactly the clamped-edge triangular
  average, rows first and then columns, with alpha untouched. The proof carries the two accumulators through all three border
  phases: `rgbsum` is at every step the exact packing of three window sums, although `rgballsum` borrows across lanes modulo
  2^64. For the pictures that `fastBlurMore` accepts, its quotients fit into a byte if and only if the radius is at most 7; at 7
  it agrees with `fastBlur`. A picture of one colour is a fixed point, also in the 565 form.
- **Completer.** The matcher says yes if and only if the query is a concatenation of non-empty prefixes of distinct unused
  words, and what it counts are the pieces of the first such split, in the order of the words and from the longest prefix down.
  Of a run of hits of one emoji the one that survives is followed by no better one. The four partitions of the ranking are the
  one stable sort by the lexicographic key, and no exact match comes behind another suggestion.
- **Checksum.** The table built between two bit reversals makes the table-driven loop equal to the bit-serial CRC-32,
  which is also given on numbers, with its polynomial, its start value and the checksum of one message.
- **UTF-8.** The validator accepts exactly the encodings of sequences of Unicode scalar values, and the encoding loses nothing.
- **Neural network.** The forward pass computes the layered network and ends exactly at the end of both buffers. One training
  step raises every weight exactly once, by rate times delta times input, with all deltas taken over the weights before the step.
  For a linear network the error of each output is afterwards `1 - rate * (1 + sum of squared inputs)` times what it was;
  otherwise each output delta is the error times the slope of the activation, and a hidden one that slope times the deltas of
  the next layer, each at the rate at which its neuron follows this one.
- **Queue.** Over every interleaving, elements are accounted for one by one, nothing is lost, invented or reordered, and with
  an overflow callback a run fails if and only if a `Get` found the queue empty and went on. A `Get` can block for good while it
  holds the mutex. For each of these failures a run that gets there is given, and a whole `Put`, `Get` or `GetBlocking` is
  followed from any state with the mutex free.
- **CTR.** Decrypting chunks at any offsets gives the slices of the whole decrypted stream.
- **Crash handlers.** Over every run, a thread jumps at most once for each setup and never with the mutex. Inside a section,
  every caught signal, SIGABRT included, ends its whole handler in that jump and at its default action. An assertion of the
  library fails only in a `COFFEE_END`, and exactly if the thread's jumps from between the two stores that close a section are
  not outnumbered by its open and its skipped sections; without such a jump no assertion fails, and the reference count is the
  number of threads between global setup and global cleanup. The saved handlers are the original ones, unless a thread is already bound to abort. The table of old
  handlers is read while there is none exactly if a handler that was entered outside of all sections goes on after the last
  one has closed, and the thread key is queried in vain exactly outside of its life time. When all threads are out, the handlers
  are restored if and only if no jump has ever skipped sections or left from between the two stores.
- **Edge tracing.** Every seed is marked, and every marked pixel is joined to a seed by a chain of marked neighbours at or
  above the low threshold. The trace is a walk, always to the first open neighbour in scan order, and not a flood: the result is complete on every image if and only if the
  thresholds leave nothing to trace.
- **Histogram.** Clipping and redistributing keeps the total, and bounds how far the tone map can drive neighbouring tones apart.
  The reported minimum is that of the first used bin if and only if bin 0 is used or the first used bin gets no tone.
- **Waveform.** Every level reads back from the packed stream, which is the number whose base-32 digits they are and holds
  nothing else; the spare bytes stay zero.

## Where the code differs from what its text suggests

- `fastBlurMore` cuts each quotient to a byte, which wraps for a radius above 7, as on a white picture (`NoWrapUpToRadius7`,
  `WhiteOverflows`).
- The search for the first used bin in `calcCDT` tests the row pointers in place of the counts, so it always ends at bin 0
  (`FirstBin`); the map is the same, but the reported minimum is that of bin 0 (`MinimumIsIntendedIff`, `MinimumMayDiffer`).
- `trace` tests `y` where an offset was probably meant, so row 0 never looks straight down (`TopRowSkipsItsColumn`), and it
  returns after its first successful neighbour (`NotAFlood`). So it is not a flood (`CompleteIff`).
- The completer counts one more than the number of pieces for an item of several words, and one for an item of a single word
  (`WordsUsed`, `SeveralWordsCountTwo`).
- `COFFEE_END` takes `reenter` to zero before it clears `ctx_is_set`. A signal between the two jumps back into the catch block
  of the section that is being closed, whose `COFFEE_END` then fails its assertion (`FaultsIff`, `FaultIsReachable`); a section
  opened there counts the same thread twice (`DoubleCountIsReachable`).
- Nested `COFFEE_TRY` sections: a jump closes all of them but `COFFEE_END` then runs only once, so the thread's structure and
  the handlers stay for good (`NestedJumpLeaks`, `LeakIsReachable`). A signal that was caught once keeps its default action
  for every thread until the last section has closed (`EnteredIff`).
- A handler in a thread outside of all sections may go on after the last section has closed. It then reads the table of old
  handlers while there is none (`TableMissedIff`, `BadTableIsReachable`, `BadTableBeforeAllocation`), or overwrites the original
  handler that has just been restored (`OverwriteIsReachable`), before it aborts the process. The first `COFFEE_TRY` of all, and
  every one until the handlers are installed, queries a thread key that does not exist (`KeyMissedIff`,
  `KeyMissedDuringInstall`).
- `Get` removes from an empty queue, and `Put` without a callback aborts (`CrashIsReachable`, `AbortIsReachable`).

## Model

| member | source | states |
|---|---|---|
| `WindowSums.SecondDifference` | client/android/jni/image.c:197-201 | The clamped triangular window sum has a second difference of just three samples, the ones at the two ends of the window and twice its middle, which is why two running sums suffice. |
| `WindowSums.WindowSumIsTriangular` | client/android/jni/image.c:184-207 | The window sum adds up, over all distances up to r, r + 1 less the distance times the sample there, or the end sample past an end of the line. |
| `WindowSums.WindowSumBounds` | client/android/jni/image.c:186-193 | The window weights add up to (r+1) squared: the window sum lies between that many times the least and the greatest sample under it. |
| `WindowSums.WindowLinear` | client/android/jni/image.c:184-193 | The window sum of packed samples is the packing of the three window sums. |
| `PackedColors.ShiftedLanes` | client/android/jni/image.c:198-198 | Shifting a word of exact lanes right by a blur shift divides each lane by itself: no bit of a neighbouring lane reaches the low byte. |
| `PackedColors.MaskedLanes` | client/android/jni/image.c:198-198 | The mask keeps exactly the low bytes of the lanes. |
| `StackBlur.ColorsPackChannels` | client/android/jni/image.c:58-65 | Both pixel readers give the packing of the three 8-bit channels, the 565 fields scaled to 0..255. |
| `StackBlur.ExpandRoundsDown` | client/android/jni/image.c:62-65 | A 5 or 6 bit field is scaled to 0..255 and rounded down. |
| `StackBlur.ChannelsOf565` | client/android/jni/image.c:62-65 | The three channels of a 565 pixel are its top 5, middle 6 and low 5 bits, little-endian, each scaled so. |
| `StackBlur.StorePixel` | client/android/jni/image.c:232-234 | Writes exactly the colour bytes of the stored pixel and no other byte, for both formats. |
| `StackBlur.Stored565` | client/android/jni/image.c:419-420 | The two masked bytes are the halves of one 16-bit value of the truncated 5, 6 and 5 bit channels. |
| `StackBlur.FirstSums` | client/android/jni/image.c:185-193 | After the start-up loop rgbsum is the clamped window sum at 0 and rgballsum its first difference modulo 2^64. |
| `StackBlur.AdvanceTracks` | client/android/jni/image.c:199-200 | One update moves both sums from position x to x+1, modulo 2^64, for every radius up to 15. |
| `StackBlur.LanesStayApart` | client/android/jni/image.c:184-216 | Whenever the sums stand at x, rgbsum is the exact packing of three window sums, each at most 255(r+1)^2 < 2^16, and rgballsum that of the three signed first differences modulo 2^64. |
| `StackBlur.OutputLanes` | client/android/jni/image.c:231-234 | Each byte of the shifted sum is the shifted window sum of its own channel. |
| `StackBlur.UpdateRow` | client/android/jni/image.c:197-201 | Stores the blurred pixel at x and brings the sums to x+1; nothing else is written. |
| `StackBlur.BlurRow` | client/android/jni/image.c:195-213 | The three border phases of a row write exactly the blurred line into the scratch row. |
| `StackBlur.BlurColumn` | client/android/jni/image.c:227-249 | The three border phases of a column store exactly the blurred column, and no byte outside of it. |
| `StackBlur.RowPass` | client/android/jni/image.c:182-216 | The scratch image holds every blurred row of the picture. |
| `StackBlur.ColumnPass` | client/android/jni/image.c:218-250 | Every pixel holds the blurred column of the scratch image; alpha and padding are as before. |
| `FastBlurs.BlurPasses` | client/android/jni/image.c:182-250 | Both passes together leave in every pixel the shifted window sum of the shifted window sums of its rows. |
| `FastBlurs.FastBlur` | client/android/jni/image.c:152-253 | For an accepted picture and radius 1, 3, 7 or 15: exactly the row-then-column triangular average in every colour byte, alpha unchanged; for any other call: nothing changes. |
| `FastBlurs.AcceptedAtTheLimits` | client/android/jni/image.c:171-173 | Sizes, strides and radii at both sides of each limit of the guard, for both formats. |
| `FastBlurs.FastBlur565` | client/android/jni/image.c:339-439 | The same on 565 pixels: expand, blur, truncate. |
| `FastBlurs.FastBlurMore` | client/android/jni/image.c:67-150 | For every radius up to 15: window sums shifted by 6 and cut to a byte after each pass; a rejected picture is unchanged. |
| `FastBlurs.FastBlurMore565` | client/android/jni/image.c:255-337 | The same on 565 pixels. |
| `FastBlurs.ExactBlur` | client/android/jni/image.c:158-169 | With the shift of fastBlur, both passes are the exact triangular average: nothing is lost in the cut to a byte. |
| `FastBlurs.ExactPicture` | client/android/jni/image.c:152-253 | A picture of shifted window sums with that shift is the triangular picture. |
| `FastBlurs.NoWrapUpToRadius7` | client/android/jni/image.c:67-150 | For the pictures of any accepted size, both quotients by 64 fit into a byte for every picture of that size if and only if the radius is at most 7. |
| `FastBlurs.WhiteOverflows` | client/android/jni/image.c:67-150 | On the white picture every quotient exceeds a byte, in the rows and in the columns, for every radius above 7. |
| `FastBlurs.BlurBetween` | client/android/jni/image.c:339-439 | A blurred channel lies between any bounds of that channel over the clamped square neighbourhood. |
| `FastBlurs.BlursAgreeAtRadius7` | client/android/jni/image.c:67-253 | At radius 7 both blurs give the same picture, byte by byte. |
| `FastBlurs.PictureIsUnique` | client/android/jni/image.c:152-253 | The triangular picture is determined by the picture before. |
| `FastBlurs.PixelRoundTrip` | client/android/jni/image.c:62-65 | Expanding a 565 pixel and truncating it again gives the same bytes. |
| `FastBlurs.OneColourIsFixed` | client/android/jni/image.c:339-439 | A picture of one colour is a fixed point of the blur in both formats. |
| `Clahe.Clip` | client/android/jni/image.c:512-518 | Cuts every bin to the limit and counts exactly what it cut off, without overflow of the 32-bit counters. |
| `Clahe.Redistribute` | client/android/jni/image.c:520-529 | Each bin ends with its clipped count plus an even share of the excess, plus one in the first bins for the rest; no counter overflows. |
| `Clahe.TotalIsKept` | client/android/jni/image.c:511-530 | Clipping and redistributing keeps the total of the histogram. |
| `Clahe.SharesAreEven` | client/android/jni/image.c:511-529 | What the bins get back on top of their clipped counts differs by at most one, the larger shares first; a clipped bin keeps exactly the limit before that. |
| `Clahe.BinsAreLimited` | client/android/jni/image.c:511-530 | No bin exceeds the limit plus its even share plus one, and no bin within the limit loses. |
| `Clahe.WithinLimitIsKept` | client/android/jni/image.c:511-530 | A histogram within the limit is unchanged. |
| `Clahe.FirstBin` | client/android/jni/image.c:533-538 | The search always ends at bin 0, because it tests the row pointers. |
| `Clahe.Accumulate` | client/android/jni/image.c:540-544 | The row becomes the scaled running totals of the counts, from any first bin with only empty bins before it. |
| `Clahe.EqualiseTile` | client/android/jni/image.c:510-548 | The histogram is limited with its total kept, the row holds its tone map, and the reported minimum and maximum bound every entry; the minimum is that of the first used bin exactly if bin 0 is used or the first used bin gets no tone. |
| `Clahe.MinimumIsIntendedIff` | client/android/jni/image.c:533-546 | With only empty bins before it, the first used bin has the tone of bin 0 if and only if it is bin 0 or its count scales to nothing. |
| `Clahe.FirstBinStaysEmptyIff` | client/android/jni/image.c:520-529 | After redistribution bin 0 is empty if and only if it was and nothing was clipped. |
| `Clahe.MinimumMayDiffer` | client/android/jni/image.c:533-546 | A histogram within its limit, as large as its tile, whose reported minimum is not the tone of its first used bin. |
| `Clahe.MapMonotone` | client/android/jni/image.c:540-544 | The tone map never decreases. |
| `Clahe.ToneIsShare` | client/android/jni/image.c:540-544 | The tone of a bin is the share of the pixels up to it, scaled to 255 and rounded down, and 255 from tileArea pixels on. |
| `Clahe.MapReachesWhite` | client/android/jni/image.c:540-547 | The last tone is 255 if and only if the tile holds at least tileArea pixels. |
| `Clahe.ContrastIsLimited` | client/android/jni/image.c:510-544 | Neighbouring tones differ by at most one more than the limited bin stands for. |
| `Ranking.PartitionsAreStableSort` | client/android/jni/emoji/emoji_suggestions.cpp:370-384 | Successive stable partitions are one stable sort by the predicates, the last one most significant, and a permutation. |
| `Ranking.SortedIsUnique` | client/android/jni/emoji/emoji_suggestions.cpp:370-384 | There is only one such sorted arrangement. |
| `Ranking.StableSortIsUnique` | client/android/jni/emoji/emoji_suggestions.cpp:370-384 | The ranking is determined by the list and the keys. |
| `Ranking.PartitionsPermute` | client/android/jni/emoji/emoji_suggestions.cpp:370-384 | Partitions keep the elements with their multiplicities. |
| `Completing.Completer.constructor` | client/android/jni/emoji/emoji_suggestions.cpp:186-187 | The matcher's query is the normalized form of the typed one, which is kept for exact matches. |
| `Completing.FindWordsStartingWith` | client/android/jni/emoji/emoji_suggestions.cpp:394-402 | The range holds exactly the words that start with the character. |
| `Completing.FindEqualCharsCount` | client/android/jni/emoji/emoji_suggestions.cpp:355-368 | The longest common prefix of the word and the rest of the query. |
| `Completing.CommonIsLongest` | client/android/jni/emoji/emoji_suggestions.cpp:355-368 | No longer prefix of the word is there. |
| `Completing.Completer.MatchQueryTailStartingFrom` | client/android/jni/emoji/emoji_suggestions.cpp:330-353 | True if and only if the rest of the query is a concatenation of non-empty prefixes of distinct unused words; the map is restored, the counter is kept on failure and raised on success by the number of pieces of one particular split, the one that Found describes. |
| `Completing.FoundIsSplit` | client/android/jni/emoji/emoji_suggestions.cpp:330-353 | The search by first word and longest prefix is complete: it finds a split if and only if there is one, and counts its pieces. |
| `Completing.FoundIsFirst` | client/android/jni/emoji/emoji_suggestions.cpp:330-353 | The split that is counted precedes every other one: word by word the earliest, and of it the longest prefix. |
| `Completing.Completer.TryWords` | client/android/jni/emoji/emoji_suggestions.cpp:336-352 | The loop over the words that start right finds what a search of all words finds. |
| `Completing.Completer.TryWord` | client/android/jni/emoji/emoji_suggestions.cpp:339-350 | Tries one word under its guard: it succeeds exactly if one of its prefixes leaves a split, counts the pieces then, and undoes guard and, on failure, counter. |
| `Completing.Completer.TryPrefixes` | client/android/jni/emoji/emoji_suggestions.cpp:343-347 | The first of the prefixes, longest first, that leaves a split decides. |
| `Completing.OneWordSplits` | client/android/jni/emoji/emoji_suggestions.cpp:299-304 | With a single word, being a concatenation of prefixes and being a prefix are the same. |
| `Completing.Completer.StartsWithQuery` | client/android/jni/emoji/emoji_suggestions.cpp:306-316 | True if and only if the query is a prefix of the word. |
| `Completing.Completer.MatchQueryForCurrentItem` | client/android/jni/emoji/emoji_suggestions.cpp:299-304 | The shortcut and the matcher give the same answer; the count of words is that of the item. |
| `Completing.SeveralWordsCountTwo` | client/android/jni/emoji/emoji_suggestions.cpp:287-304 | An item of several words that matches a non-empty query counts one more than the pieces of a split, so never fewer than two words. |
| `Completing.Completer.AddResult` | client/android/jni/emoji/emoji_suggestions.cpp:236-263 | Appends, replaces the last result of the same emoji by a better one, or keeps it. |
| `Completing.ReplacesIff` | client/android/jni/emoji/emoji_suggestions.cpp:242-263 | Of two hits of one emoji the later replaces the earlier if and only if it uses fewer words, or only its replacement has the query's first character after the colon. |
| `Completing.CollapseRepresents` | client/android/jni/emoji/emoji_suggestions.cpp:236-263 | The collapsed list holds hits only, no two neighbours of one emoji, and loses no emoji. |
| `Completing.BestSurvive` | client/android/jni/emoji/emoji_suggestions.cpp:236-263 | The survivors are hits in their order, and in the run of one emoji no later hit is better than the survivor. |
| `Completing.SurvivorsAreBest` | client/android/jni/emoji/emoji_suggestions.cpp:236-263 | The same in plain terms: none of the hits that follow a survivor in its run uses fewer words, and none has the query's first character after the colon unless the survivor has. |
| `Completing.Completer.FilterInitialList` | client/android/jni/emoji/emoji_suggestions.cpp:276-297 | The result is the collapse of exactly the items that match, in their order, each with the count of words that its item determines. |
| `Completing.HitsAre` | client/android/jni/emoji/emoji_suggestions.cpp:276-304 | The hits are the items that match, in the order of the list; one of several words counts one more than the pieces, one of a single word counts one. |
| `Completing.Completer.ProcessInitialList` | client/android/jni/emoji/emoji_suggestions.cpp:265-274 | For a query of one character every item is a hit; for a longer one the matching items are. |
| `Completing.OneCharacterTakesAll` | client/android/jni/emoji/emoji_suggestions.cpp:265-274 | For a query of one character the hits are all the items, each with one word. |
| `Completing.Completer.IsExactMatch` | client/android/jni/emoji/emoji_suggestions.cpp:318-328 | True if and only if the replacement is the typed query and one more character. |
| `Completing.Completer.PrepareResult` | client/android/jni/emoji/emoji_suggestions.cpp:370-392 | The results are stably sorted by the rank keys, and are a permutation of what they were. |
| `Completing.RankOrder` | client/android/jni/emoji/emoji_suggestions.cpp:370-384 | The order is, in terms of characters and counts: replacement one longer than the typed query and starting with it, fewer than three words, fewer than two words, second character of the replacement, then the old order. |
| `Completing.ExactMatchesFirst` | client/android/jni/emoji/emoji_suggestions.cpp:383-383 | In any ranked list, what stands before an exact match is an exact match. |
| `Completing.Completer.Resolve` | client/android/jni/emoji/emoji_suggestions.cpp:221-234 | The suggestions are the stable sort of the collapsed hits, none for an empty query or an empty list; every suggestion whose replacement is the typed query and one more character precedes all others. |
| `Completing.NormalizeQuery` | client/android/jni/emoji/emoji_suggestions.cpp:189-219 | Copying runs gives exactly the kept characters in order: letters, numbers, and a sign before a number or at the end. |
| `Completing.KeptIs` | client/android/jni/emoji/emoji_suggestions.cpp:196-212 | Kept are a to z, 0 to 9, and a plus or minus before a digit or at the end. |
| `Completing.NormalizedHolds` | client/android/jni/emoji/emoji_suggestions.cpp:189-219 | The normalized query is the subsequence of exactly these characters. |
| `Completing.NormalizeTwice` | client/android/jni/emoji/emoji_suggestions.cpp:189-219 | Normalizing is idempotent. |
| `Crc32.LookupIsEightSteps` | client/android/jni/emoji/emoji_suggestions.cpp:61-63 | One lookup and shift equals feeding the eight bits of a byte one at a time. |
| `Crc32.ForwardIsReflected` | client/android/jni/emoji/emoji_suggestions.cpp:35-37 | A forward step of the table builder, seen through the bit reversal, is a reflected step. |
| `Crc32.Reflect` | client/android/jni/emoji/emoji_suggestions.cpp:43-52 | Reverses the low bits and clears the others. |
| `Crc32.InitTable` | client/android/jni/emoji/emoji_suggestions.cpp:31-40 | Every entry is eight reflected bit steps of its index. |
| `Crc32.CountChecksum` | client/android/jni/emoji/emoji_suggestions.cpp:56-65 | For every byte string, the bit-serial reflected CRC-32 of section 8 of RFC 1952. |
| `Crc32Numbers.ChecksumIs` | client/android/jni/emoji/emoji_suggestions.cpp:56-65 | The same checksum on numbers: halve, and exclusive-or with EDB88320 if the bit that falls out is 1; start and end with FFFFFFFF. |
| `Crc32Numbers.PolynomialIs` | client/android/jni/emoji/emoji_suggestions.cpp:34-34 | The forward polynomial is 04C11DB7. |
| `Crc32Numbers.ReflectedPolynomialIs` | client/android/jni/emoji/emoji_suggestions.cpp:33-40 | Its reversal is EDB88320. |
| `Crc32Numbers.OnesAreNumber` | client/android/jni/emoji/emoji_suggestions.cpp:60-64 | The start value and the final mask are FFFFFFFF. |
| `Crc32Numbers.StepIs` | client/android/jni/emoji/emoji_suggestions.cpp:35-37 | One bit step on words is one step on numbers. |
| `Crc32Numbers.RegisterIs` | client/android/jni/emoji/emoji_suggestions.cpp:61-63 | After any bytes the register is that of the numeric definition. |
| `Crc32Numbers.ChecksumOfTwoBytes` | client/android/jni/emoji/emoji_suggestions.cpp:56-65 | The checksum of the bytes FF 7F is 12478320. |
| `Utf8.CheckUtf8` | client/android/jni/TgNetWrapper.cpp:666-710 | Ends, reads nothing past the terminating NUL, and says true if and only if the bytes encode some sequence of Unicode scalar values, NULs included. |
| `Utf8.WellFormedIffParses` | client/android/jni/TgNetWrapper.cpp:666-710 | The byte grammar of section 4 of RFC 3629 describes exactly the encodings of its section 3. |
| `Utf8.EncodedIsChar` | client/android/jni/TgNetWrapper.cpp:669-705 | An encoded scalar value is one character of the grammar, whatever follows. |
| `Utf8.CharIsEncoded` | client/android/jni/TgNetWrapper.cpp:669-705 | Every character of the grammar is the encoding of a scalar value. |
| `Utf8.EncodingCarriesValue` | client/android/jni/TgNetWrapper.cpp:669-705 | The payload bits of an encoded scalar are the scalar, in the fewest bytes that have room for it. |
| `Utf8.EncodeIsInjective` | client/android/jni/TgNetWrapper.cpp:666-710 | Different texts have different encodings. |
| `Utf8.Examples` | client/android/jni/TgNetWrapper.cpp:669-705 | Characters of one to four bytes from section 7 of RFC 3629. |
| `Utf8.Boundaries` | client/android/jni/TgNetWrapper.cpp:675-685 | The forms of one and two bytes next to what is admitted. |
| `Utf8.BoundariesOfThree` | client/android/jni/TgNetWrapper.cpp:686-697 | Overlong forms and surrogates of three bytes, and their neighbours. |
| `Utf8.BoundariesOfFour` | client/android/jni/TgNetWrapper.cpp:698-706 | The first and last form of four bytes, and their neighbours. |
| `Utf8.ThreeBitsMeans` | client/android/jni/TgNetWrapper.cpp:693-697 | The bit test on three bytes excludes exactly the overlong forms and the surrogates. |
| `Utf8.FourBitsMeans` | client/android/jni/TgNetWrapper.cpp:701-705 | The bit test on four bytes admits exactly U+10000 to U+10FFFF. |
| `Layouts.Topology.LayoutEnd` | client/android/jni/genann.c:90-94 | The recursive layout ends exactly at the closed-form totals of weights and neurons. |
| `Layouts.Topology.BackwardOffsets` | client/android/jni/genann.c:257-264 | The closed-form offsets of the backward pass are the positions where the forward pass put things. |
| `Layouts.Topology.BackwardWeight` | client/android/jni/genann.c:272-273 | The windex slot is the weight with which the forward pass connected the two neurons. |
| `Layouts.Topology.ConnectionExists` | client/android/jni/genann.c:185-215 | Every weight belongs to some input of some neuron. |
| `Layouts.Topology.ConnectionIsUnique` | client/android/jni/genann.c:185-215 | No weight belongs to two. |
| `Genanns.GenannInit` | client/android/jni/genann.c:83-120 | Gives a network if and only if there is at least one input and output, no negative number of hidden layers, and at least one hidden neuron if there is a hidden layer; the buffers have the right sizes, and every weight is its random number less one half. |
| `Genanns.Genann.ForwardLayer` | client/android/jni/genann.c:185-200 | One layer of the forward pass writes the layer's outputs, touches nothing else, and leaves both cursors at the next layer. |
| `Genanns.Genann.ForwardOutput` | client/android/jni/genann.c:205-219 | The cursors end exactly at the end of the weights and of the outputs, so both sanity checks hold. |
| `Genanns.Genann.Run` | client/android/jni/genann.c:170-222 | The outputs are those of the recursively defined layered network, and the buffer holds the signals of all layers. |
| `Genanns.Genann.SetOutputDeltas` | client/android/jni/genann.c:232-249 | The output deltas for a linear and for a sigmoid output, in place. |
| `Genanns.Genann.SetHiddenDeltas` | client/android/jni/genann.c:254-280 | The deltas of one hidden layer from those of the next; the later layers' deltas stay. |
| `Genanns.DeltasBackpropagate` | client/android/jni/genann.c:252-280 | The deltas of all layers satisfy the backpropagation recursion over one and the same weights. |
| `Genanns.Genann.TrainLayer` | client/android/jni/genann.c:298-309 | Raises each weight of the layer once and no other, and ends at the next layer's weights. |
| `Genanns.Genann.TrainWeights` | client/android/jni/genann.c:283-345 | All layers, from the last to the first, are raised once. |
| `Genanns.Genann.Train` | client/android/jni/genann.c:225-345 | Every weight is raised by its gradient, with signals and deltas taken over the weights before the call. |
| `Genanns.EveryWeightRaisedOnce` | client/android/jni/genann.c:225-345 | Each single slot belongs to exactly one connection, and has been raised by rate times the neuron's delta times its signal, -1 for the bias. |
| `Learning.NetworkComputes` | client/android/jni/genann.c:170-222 | The first layer reads the input; every neuron of every layer applies its layer's activation to the dot product of its weights with the outputs of the layer before, less its bias weight; the last layer answers. |
| `Learning.DeltaIsErrorTimesSlope` | client/android/jni/genann.c:237-247 | An output delta is desired less actual, times 1 for a linear output and out(1 - out) otherwise. |
| `Learning.DeltaPointsToDesired` | client/android/jni/genann.c:237-247 | It has the sign of that error, for a linear output and whenever 0 < out < 1. |
| `Learning.SumMoves` | client/android/jni/genann.c:283-345 | A step moves the weighted sum of every neuron, over the signals of the step, by rate times delta times one more than the squares of these signals. |
| `Learning.LinearErrorShrinks` | client/android/jni/genann.c:225-345 | Without hidden layers and with the identity as activation, each output's error after the step is the one before times 1 - rate (1 + sum of squared inputs). |
| `Learning.ColumnIsSlope` | client/android/jni/genann.c:269-276 | The weight that leads from a neuron to one of the next layer is the rate at which that one's sum follows its signal. |
| `Learning.HiddenDeltasBackpropagate` | client/android/jni/genann.c:252-280 | A hidden delta is o(1 - o) times the dot product of the next layer's deltas with the weights that lead there, all over the weights before the step. |
| `BlockingQueues.RunsStayConsistent` | client/android/jni/libtgvoip/BlockingQueue.h:30-79 | Every interleaving keeps: elements = permits + threads with a permit + releases still owed; mutual exclusion; the bound; removed ++ queue = put. |
| `BlockingQueues.ConsistentMeans` | client/android/jni/libtgvoip/BlockingQueue.h:30-79 | With the mutex free, permits plus ticket holders equals the length, which is within the capacity; the semaphore never exceeds its limit. |
| `BlockingQueues.CrashesIffGetOnEmpty` | client/android/jni/libtgvoip/BlockingQueue.h:73-79 | A removal hits an empty queue if and only if it is that of a Get that saw an empty queue. |
| `BlockingQueues.UnsafePopIffGetOnEmpty` | client/android/jni/libtgvoip/BlockingQueue.h:53-58 | A thread gets into that position only by testing an empty queue in Get. |
| `BlockingQueues.AbortsIffFull` | client/android/jni/libtgvoip/BlockingQueue.h:34-42 | Put aborts if and only if there is no callback and it has pushed onto a full queue. |
| `BlockingQueues.CrashedIff` | client/android/jni/libtgvoip/BlockingQueue.h:53-79 | A run ends in a removal from an empty queue if and only if some Get has seen the queue empty and the run went on. |
| `BlockingQueues.SafeIff` | client/android/jni/libtgvoip/BlockingQueue.h:30-79 | With a callback, a run keeps going if and only if that has not happened. |
| `BlockingQueues.CrashIsReachable` | client/android/jni/libtgvoip/BlockingQueue.h:53-79 | A Get on a fresh queue crashes in three steps. |
| `BlockingQueues.AbortIsReachable` | client/android/jni/libtgvoip/BlockingQueue.h:30-42 | A Put without a callback onto a queue of capacity 0 aborts. |
| `BlockingQueues.SafeRuns` | client/android/jni/libtgvoip/BlockingQueue.h:30-79 | With a callback and no Get on an empty queue, no run ever fails. |
| `BlockingQueues.GetBlocksIff` | client/android/jni/libtgvoip/BlockingQueue.h:53-58 | A Get that saw an element can go on if and only if some element has no ticket holder. |
| `BlockingQueues.StuckForever` | client/android/jni/libtgvoip/BlockingQueue.h:47-58 | A Get that waits for a missing permit holds the mutex, and no thread ever takes a step again. |
| `BlockingQueues.StuckIsReachable` | client/android/jni/libtgvoip/BlockingQueue.h:47-58 | Some run gets there. |
| `BlockingQueues.SomeoneCanContinue` | client/android/jni/libtgvoip/BlockingQueue.h:30-58 | Nothing else blocks all threads that are inside an operation. |
| `BlockingQueues.PutCompletes` | client/android/jni/libtgvoip/BlockingQueue.h:30-45 | A whole Put, from any consistent state with the mutex free: with room the element is last and there is one more permit; on a full queue with a callback the oldest element goes out and the permits stay; without a callback the program aborts. |
| `BlockingQueues.GetBlockingCompletes` | client/android/jni/libtgvoip/BlockingQueue.h:47-51 | A whole GetBlocking with a permit there takes the permit and the oldest element. |
| `BlockingQueues.GetBlockingWaitsIff` | client/android/jni/libtgvoip/BlockingQueue.h:47-48 | It waits if and only if there is no permit. |
| `BlockingQueues.GetCompletes` | client/android/jni/libtgvoip/BlockingQueue.h:53-58 | A whole Get with a permit there does the same. |
| `CtrStreams.IncIsSuccessor` | client/android/jni/jni.c:83-83 | The byte-wise increment is the successor of the big-endian value, and wraps at the top. |
| `CtrStreams.CounterOfBlock` | client/android/jni/jni.c:98-109 | Writing a block number into the last four bytes equals that many increments from the stream's start. |
| `CtrStreams.KeystreamBlock` | client/android/jni/jni.c:83-111 | Block k of the keystream is the encryption of the block whose big-endian value is k above the start, modulo 2^128. |
| `CtrStreams.StreamStartClears` | client/android/jni/jni.c:98-109 | The stream of a file starts with the last four bytes of the IV zero and the other twelve kept. |
| `CtrStreams.CtrEncrypt` | client/android/jni/jni.c:111-111 | The driver decrypts from wherever it stands, changes only the given range, and stands behind it afterwards. |
| `CtrStreams.Seek` | client/android/jni/jni.c:96-109 | For every offset up to 2^31-16, counter, leftover block and num are those of a driver that has come to that byte. |
| `CtrStreams.AesCtrDecryption` | client/android/jni/jni.c:73-86 | Decrypts the range as the start of a stream. |
| `CtrStreams.AesCtrDecryptionByteArray` | client/android/jni/jni.c:88-116 | Decrypts the range as the bytes at fileOffset of the stream whose start is the IV with its last four bytes zero. |
| `CtrStreams.SliceOfStream` | client/android/jni/jni.c:73-116 | Decrypting a slice at its offset gives that slice of the whole decrypted stream. |
| `CtrStreams.ChunksReassemble` | client/android/jni/jni.c:88-116 | However a stream is cut, the chunks decrypted on their own join to the whole. |
| `CtrStreams.DecryptTwice` | client/android/jni/jni.c:73-116 | Decryption is its own inverse. |
| `CtrStreams.XorIsBitwise` | client/android/jni/jni.c:83-111 | Each bit of an exclusive or tells whether the two bits differ. |
| `CoffeeCatch.RunsStayConsistent` | client/android/jni/coffeecatch/coffeecatch.c:607-837 | Every run of any threads, with signals between any two steps and handlers that take steps of their own, keeps the invariant: count, mutual exclusion, each thread's structure, and the state of the table, of the key and of every handler. |
| `CoffeeCatch.StepKeepsConsistent` | client/android/jni/coffeecatch/coffeecatch.c:733-837 | Every step keeps that invariant. |
| `CoffeeCatch.NativeSignalsAreAList` | client/android/jni/coffeecatch/coffeecatch.c:82-90 | The signals that the library catches, by their Linux numbers, are distinct and within its table, which is all the runs ask of them. |
| `CoffeeCatch.FaultsIff` | client/android/jni/coffeecatch/coffeecatch.c:1340-1349 | A step fails an assertion, or a call on the key that the library relies on, if and only if it is a COFFEE_END of a thread whose jumps from between the two stores are at least as many as its open sections and the sections its other jumps skipped. |
| `CoffeeCatch.StrandedIff` | client/android/jni/coffeecatch/coffeecatch.c:1344-1346 | Such a jump is exactly a handler that finds the restore point still set while the thread is between the two stores. |
| `CoffeeCatch.UncutRunsAreSound` | client/android/jni/coffeecatch/coffeecatch.c:607-837 | In a run without such a jump no assertion fails, and the count is the number of threads past global setup and not past global cleanup. |
| `CoffeeCatch.RunsFaultAfterCut` | client/android/jni/coffeecatch/coffeecatch.c:1340-1349 | A run fails an assertion only with its last step, a COFFEE_END, and only after such a jump of the same thread. |
| `CoffeeCatch.FaultIsReachable` | client/android/jni/coffeecatch/coffeecatch.c:1340-1349 | A run of one thread and one signal fails the assertion. |
| `CoffeeCatch.DoubleCountIsReachable` | client/android/jni/coffeecatch/coffeecatch.c:1311-1334 | A run in which one thread alone takes the count to two. |
| `CoffeeCatch.ConsistentMeans` | client/android/jni/coffeecatch/coffeecatch.c:607-837 | The count is the number of threads past global setup and not past global cleanup, and one more for each jump from between the stores; while it is positive the table holds the original handlers; at zero every signal has its original handler, in both cases unless a thread is bound to abort. |
| `CoffeeCatch.OverwriteIsReachable` | client/android/jni/coffeecatch/coffeecatch.c:533-564 | A thread that is bound to abort does overwrite a restored handler. |
| `CoffeeCatch.JumpsAreSafe` | client/android/jni/coffeecatch/coffeecatch.c:410-447 | A jump happens at most once after a setup and without the mutex, from inside a section or from between the two stores; it lands in the section that saved the restore point, the outermost one unless the thread was stranded before. |
| `CoffeeCatch.EnteredIff` | client/android/jni/coffeecatch/coffeecatch.c:533-604 | Inside a section, a signal enters our handler if and only if it has not been reset since its handler was installed; after that it kills. |
| `CoffeeCatch.CaughtIff` | client/android/jni/coffeecatch/coffeecatch.c:410-604 | A handler in a section gets past the old handler and the reset, and then jumps if and only if the thread has not jumped since its setup; otherwise it goes on to abort. |
| `CoffeeCatch.HandlerCatches` | client/android/jni/coffeecatch/coffeecatch.c:533-604 | The whole handler, for every caught signal with SIGABRT among them, from any consistent state: inside a section, not reset and not jumped before, it ends in the catch block of the section that saved the restore point, with one jump and the signal at its default; handlers of other signals that it interrupted are left as well. |
| `CoffeeCatch.HandlerResets` | client/android/jni/coffeecatch/coffeecatch.c:533-588 | Every handler sets its signal to the default, and no other, before it looks for a restore point; that of SIGABRT does not call the old handler before. |
| `CoffeeCatch.HandlerAborts` | client/android/jni/coffeecatch/coffeecatch.c:533-604 | The whole handler of a thread without a restore point, inside or outside of sections: the process aborts. |
| `CoffeeCatch.OtherSignalsPass` | client/android/jni/coffeecatch/coffeecatch.c:607-650 | A signal the library does not catch, or any while it is not in use, does nothing to its state. |
| `CoffeeCatch.TableMissedIff` | client/android/jni/coffeecatch/coffeecatch.c:386-396 | A step reads a table that is not there if and only if a handler calls the old one before the table is allocated or after it was freed; it was freed then since the entry of the handler, and the thread holds no part of the count. |
| `CoffeeCatch.RunsMissTableOutside` | client/android/jni/coffeecatch/coffeecatch.c:533-604 | Over whole runs, a missing table is read only so, and only by the last step. |
| `CoffeeCatch.BadTableIsReachable` | client/android/jni/coffeecatch/coffeecatch.c:821-823 | A run of two threads reads the freed table. |
| `CoffeeCatch.BadTableBeforeAllocation` | client/android/jni/coffeecatch/coffeecatch.c:608-627 | Another one reads it when the count is positive again and the next table is not yet allocated. |
| `CoffeeCatch.KeyMissedIff` | client/android/jni/coffeecatch/coffeecatch.c:508-514 | The thread key is queried in vain if and only if it is queried before it is created or after it was deleted; that takes a COFFEE_TRY or a handler, in a thread that holds no part of the count or is installing. |
| `CoffeeCatch.KeyMissedDuringInstall` | client/android/jni/coffeecatch/coffeecatch.c:1311-1318 | A second thread does so while the first installs the handlers. |
| `CoffeeCatch.AllOutRestoresIff` | client/android/jni/coffeecatch/coffeecatch.c:783-837 | When all threads are out, the count is zero, and the handlers restored, if and only if no jump has ever skipped sections or left from between the two stores. |
| `CoffeeCatch.SomeoneCanContinue` | client/android/jni/coffeecatch/coffeecatch.c:733-837 | No thread waits for good for the mutex: it can go on, or the thread that has the mutex can. |
| `CoffeeCatch.NestedJumpLeaks` | client/android/jni/coffeecatch/coffeecatch.c:1311-1349 | After a jump of either kind the count never returns to zero. |
| `CoffeeCatch.LeakIsReachable` | client/android/jni/coffeecatch/coffeecatch.h:215-220 | A run from the start, with a signal inside two nested sections, ends outside of all sections with the handlers still replaced. |
| `CoffeeCatch.SetupReachesProtected` | client/android/jni/coffeecatch/coffeecatch.c:733-775 | Entering the first section installs the handlers and the restore point, and its first query of the thread key is in vain. |
| `Hysteresis.Trace` | client/android/jni/fast-edge.cpp:428-449 | The recursion ends, marks exactly the pixels of the walk from its pixel, and tells whether that pixel was unmarked. |
| `Hysteresis.StepIs` | client/android/jni/fast-edge.cpp:434-438 | A walk may go from p to q if and only if q is one of the nine pixels around p and in the image, at or above low, and not in p's own column when p is in row 0. |
| `Hysteresis.WalkGoesToFirst` | client/android/jni/fast-edge.cpp:434-442 | It goes on to the unmarked one of these that is first by rows and then from the left. |
| `Hysteresis.WalkLeavesNothing` | client/android/jni/fast-edge.cpp:434-446 | Its last pixel is marked, and so is every pixel it may go to from there. |
| `Hysteresis.Run` | client/android/jni/fast-edge.cpp:406-426 | The output is the result of walking from every seed in scan order over a blank image, and has every property of `ScanIsSound`. |
| `Hysteresis.ScanIsRowMajor` | client/android/jni/fast-edge.cpp:416-422 | The seeds are visited in the order of the pixels, row by row. |
| `Hysteresis.ScanIsSound` | client/android/jni/fast-edge.cpp:406-460 | Only 0 and 255 are written, every pixel at or above high is marked, and every marked pixel is joined to such a seed by a chain of marked in-bounds neighbours at or above low. |
| `Hysteresis.WalkKeepsJoined` | client/android/jni/fast-edge.cpp:428-449 | One walk keeps every mark joined to a seed. |
| `Hysteresis.WalkGrows` | client/android/jni/fast-edge.cpp:428-449 | A walk only adds marks, that of its first pixel in any case. |
| `Hysteresis.WalkEnds` | client/android/jni/fast-edge.cpp:434-446 | A walk goes on as long as it can: it stops at a pixel that it marked and that has no unmarked neighbour it may go to. |
| `Hysteresis.CompleteIff` | client/android/jni/fast-edge.cpp:406-460 | The result holds every neighbour at or above low of a marked pixel, on every image, if and only if no byte lies between the thresholds, or every pixel is a seed, or none is. |
| `Hysteresis.CompleteIfDecided` | client/android/jni/fast-edge.cpp:406-460 | On any one image with no pixel between the thresholds, or with no seed, the result is complete. |
| `Hysteresis.TopRowSkipsItsColumn` | client/android/jni/fast-edge.cpp:438-438 | For all thresholds and pixels that allow it: the pixel below a seed in row 0 is missed. |
| `Hysteresis.NotAFlood` | client/android/jni/fast-edge.cpp:438-442 | For all thresholds and pixels that allow it: of two neighbours that pass the test, the second stays unmarked. |
| `Waveforms.SetBits` | client/android/jni/audio.c:537-541 | The stream gains exactly the bits of the value from the offset on that fit into the 32-bit word there; all other bits stay. |
| `Waveforms.PackLevels` | client/android/jni/audio.c:585-592 | For any number of samples every access is in bounds, and the buffer holds the levels at five bits each and nothing else. |
| `Waveforms.ScaledRoundsDown` | client/android/jni/audio.c:588-588 | A level is the sample's share of the peak, scaled to 31 and rounded down, and 31 from the peak on. |
| `Waveforms.StreamIsNumber` | client/android/jni/audio.c:585-593 | The stream, read as a little-endian number, is the number whose base-32 digits are the levels, the first the lowest. |
| `Waveforms.Waveform` | client/android/jni/audio.c:582-593 | Every level reads back from the trimmed result. |
| `Waveforms.ReadsBack` | client/android/jni/audio.c:588-591 | From any stream that holds the levels, each reads back unchanged. |
| `Waveforms.SpareBytesAreZero` | client/android/jni/audio.c:582-593 | All bytes past n*5/8 are zero, so trimming loses nothing. |
| `Waveforms.StreamIsUnique` | client/android/jni/audio.c:585-593 | Two streams of the same length are equal if and only if their levels are. |

## Left out

- FastBlurs.FastBlur: rows must not overlap and the buffer must hold them (`stride >= 4 * w`); the guard of the source rejects a larger stride, so accepted pictures have `stride == 4 * w`.
- FastBlurs.FastBlur565: the same, with `stride >= 2 * w`.
- FastBlurs.FastBlurMore565: the same as for `FastBlur565` and `FastBlurMore`.
- FastBlurs.FastBlurMore: `stride >= 4 * w` as for `FastBlur`; the radius is not negative; its only caller passes more than 3. A failing allocation of the scratch image is not modelled in any of the blurs.
- Clahe.Accumulate: scales in exact arithmetic in place of `float`.
- Clahe.MapReachesWhite: in `float`, rounding may leave the last tone at 254.
- Clahe.EqualiseTile: takes the histogram as given, `tileArea > 0`, and scales in exact arithmetic in place of `float`; filling the histograms and the final copy of all tiles are not modelled.
- Completing.Completer.Resolve: the generated tables are arbitrary lists of items whose words are non-empty and sorted by first character and whose replacements have at least two characters; a missing list is an empty one.
- Genanns.Genann.Run: real numbers in place of `double`, arbitrary activation functions, and three arrays in place of one allocation cut into three.
- BlockingQueues.RunsStayConsistent: a model on values, with interleaved steps in place of objects; the destructor and `SetOverflowCallback` during a run are not modelled.
- CtrStreams.AesCtrDecryptionByteArray: offsets above 2^31-16, for which `fileOffset + 15` overflows a 32-bit integer, are excluded; AES is an arbitrary function on blocks and the library's CTR driver is modelled by section 6.5 of NIST SP 800-38A.
- CoffeeCatch.RunsStayConsistent: a model on values; system calls do not fail, and `COFFEE_TRY` from the creation of the thread's structure to the saved restore point is one step, as are clearing `ctx_is_set` and jumping in a handler. The previous handler returns. The 30-second alarm, the alternate stacks and signals that stay pending are not modelled.
- CoffeeCatch.KeyMissedIff: a query of a key that does not exist gives nothing, as on Android; the standard leaves it undefined.
- Waveforms.Waveform: samples and peak are given, with `peak > 0` (the source never goes below 2500); sampling the peaks and scaling the average in `float` are not modelled.
- Crc32.CountChecksum: words are sequences of bits; their link to numbers is `BitWords.ValueRoundTrip` and `BitWords.BitsRoundTrip`.
- `blurBitmap`, which picks one of the four blurs by stride and radius, and the rest of `image.c`: calls into Android bitmaps, JPEG and WebP libraries.
- Sobel, non-maximum suppression, threshold estimation, Hough and morphology in `fast-edge.cpp`: floating point, or reads outside of what was written.
- SQLite, video, GIF, FLAC, Opus and Ogg code, the introduction renderer and the rest of `TgNetWrapper.cpp`: thin layers over libraries that are not part of this model.
- `genann_read`, `genann_write`, `genann_copy` and the activation functions themselves.
