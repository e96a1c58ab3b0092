# NeoLoader core, modelled and proved in Dafny

NeoLoader is a file-sharing suite built on Qt. This project models the algorithms and protocols
that its parts rest on and proves what they promise:

- the wildcard matcher, the case-insensitive searches, the splitting functions, the UTF-8 repair
  (`Glob`, `Search`, `Splitting`, `Rejoining`, `Encoding`);
- the port-forwarding service: two pulse-driven handles, a worker thread and a client that
  interleave at a mutex (`Upnp`, `NatPmp`, `NatPmpTable`, `Forwarding`, `Serving`, `Shutdown`,
  `Service`, `Threads`);
- variants as XML, with the nested parser (`Xml`, `XmlCases`);
- the election of the external address in the DHT wrapper (`Election`, `ElectionReports`);
- the text of IPv4 and IPv6 addresses (`Numerals`, `AddressText`, `Address`);
- the growable buffer with its numbers and strings, and the UTF-8 codecs
  (`Buffer`, `BufferRuns`, `BufferStrings`, `BufferLaws`, `Utf8`, `Utf8Forms`);
- the bounded log that clients poll (`LogPolling`);
- merge sort, heap sort and the integer square root (`MergeSorting`, `HeapSorting`, `Maths`).

Code that changes things in place is a class or a method over arrays. Such a method is proved equal
to a function of the old state, and the properties of that function are lemmas. Protocols are state
machines; their main results speak about every run. `dafny verify dfyconfig.toml` covers all files.

## Assumptions

- C strings are NUL-free sequences; sizes and lengths do not overflow `size_t`.
- `HeapMov` exchanges two slots, `Cpy` copies one, and a comparison callback always gives a correct
  answer about one total preorder; ties may go either way unless a result says otherwise.
- Clock readings within one NAT-PMP pulse never decrease. Socket results, gateway answers, random
  numbers and hashes are inputs.
- One client thread calls Start and Stop, and makes no calls once destruction has begun.
- Gateways answer as they like and may forget mappings at any moment. Where a result speaks of an
  honest gateway (`HonestRun`), it does not deny a mapping that it holds and its deletions take effect;
  where it speaks of a truthful one (`TruthfulRun`), what the NAT-PMP code takes for a confirmation is
  one. `Upnp.OrphansExactly` says exactly when a pulse loses track of its mapping.
- Base64 and percent encoding (section 2.1 of RFC 3986) undo themselves, and a string is printed as
  itself. How any other leaf is printed, and what a printed text converts to, is left open.
- Log ids come from one ever-growing counter, and nothing is logged while the log limit is negative:
  the original would remove lines from an empty list.
- `strtoul`, `%d` and `%x` follow the C standard with a 64-bit `unsigned long`.

## What the code does that its comments or names do not say

- `verify_encoding` has a branch for four-byte units whose test repeats the three-byte one
  (Framework/Strings.cpp:504), so it can never be taken. `Encoding.HighByteIsRefused` shows that no
  string with a byte from 0xF0 on is accepted, `Encoding.FourByteUnit` what becomes of such a unit.
- `m_external_address_voters` is meant to let each node add one address, but nothing ever sets a bit
  in it (DHT/DHT.cpp:271), so the limit is not enforced: `Election.OneVoterAddsTwo`. Only the slots and
  the random draw decide who gets in: `Election.AdmissionIsOpen`.
- The filter that keeps a voter from voting twice sees two bytes of the twenty of its hash
  (DHT/libtorrent/bloom_filter.cpp:38-59): `ElectionReports.SeenOfKey`, `ElectionReports.MistakenVoter`.
- `Convert` to IPv4 clears byte 14 twice and byte 15 never (Framework/Address.cpp:229). Equality does
  not see it: `Address.LastByteStays`. When all sixteen bytes come back is said by
  `Address.AllBytesComeBack`.
- `_inet_pton` takes any number of groups from one to eight without `::` and right-justifies them
  (`AddressText.PlainGroups`, `AddressText.PlainAccepted`), where section 2.2 of RFC 4291 wants exactly
  eight; it takes eight groups with a `::` that stands for none (`AddressText.ElidedAccepted`); and both
  kinds of text may go on behind a character that is neither colon, letter nor digit.
- `_inet_aton` stops looking after a fourth part and a dot: `AddressText.FourPartsAndMore`. Which texts
  it accepts is said by `AddressText.AtonAccepts`.
- A disabled NAT-PMP pulse may leave the mapping in place (`NatPmp.DisabledPulseCanLeak`) and may even
  ask for one (`NatPmp.DisabledPulseCanMap`); the exact conditions are in `NatPmp.MappedAfterDisabled`
  and `NatPmp.DisabledPulseMaps`. `Shutdown.PmpAtExit` carries them to the end of the service.
- Merge sort with a strict comparison is not stable (`MergeSorting.StrictIsNotStable`): it turns every
  class of equal elements round, so it keeps exactly those lists in order whose classes read the same
  backwards (`MergeSorting.StrictStableIff`).
- An invalid variant, or one whose type has no name in the table, comes back as a string, and a leaf
  whose printed form loses something comes back changed: `Xml.RoundTrip` states exactly which trees
  survive, given what the leaf types print and convert.
- The splitting functions resume one character after a separator starts, whatever its length, so the
  hits of a long separator may overlap: `Splitting.PieceCount`, `Splitting.OverlappingHits`.
- Joining the pieces of a string that begins with the separator loses that separator, and a longer
  separator must not occur at all: `Splitting.SplitThenJoinAny`.
- The empty separator is accepted, but `SplitStrx` and `SubStrAt` may then throw:
  `Splitting.SplitStr` and `Splitting.SubStrAt` say exactly when.
- A negative wide character is cut to its low byte by the encoders and never comes back:
  `Utf8.RoundTripIff`.
- A read of zero bytes from a buffer that never had memory returns a null pointer, which callers take
  for a failure; the `backed` field of `Buffer.View` is there for that. `BufferRuns.PlainButNullReads`
  says that nothing else differs from a plain sequence, `BufferRuns.NewBufferNullRead` gives a run.

## Model

| member | source | states |
|---|---|---|
| `Glob.WildCmp` | Framework/Strings.h:30-67 | for all patterns and strings the two-pointer loop ends, and finds a match exactly when the recursive meaning of `*` and `?` holds; the returned position is the least one from which a trailing star takes over, else the end |
| `Glob.WindowIsMatches` | Framework/Strings.h:30-67 | matching between index bounds is matching of the slices, so positions in the loop can speak of the declarative meaning |
| `Glob.BlockStep` | Framework/Strings.h:52-56 | a star-free stretch of the pattern matches character by character: the rest decides exactly if the stretch fits |
| `Glob.StarStep` | Framework/Strings.h:45-51 | a star matches exactly if the rest of the pattern matches from some later position |
| `Glob.FirstStar` | Framework/Strings.h:35-51 | reaching the first star reduces the whole question to the rest of the pattern from here on |
| `Glob.NextStar` | Framework/Strings.h:45-51 | forgetting the earlier star at the next one loses no match |
| `Glob.Mismatch` | Framework/Strings.h:57-61 | after a mismatch, moving the last star's start on by one loses no match |
| `Glob.NoFirstBlock` | Framework/Strings.h:35-41 | a mismatch before any star means that the string does not match |
| `Glob.FinalStar` | Framework/Strings.h:47-48 | a star at the end of the pattern matches whatever is left |
| `Glob.StringUsedUp` | Framework/Strings.h:64-66 | once the string is used up it matches exactly if only stars are left in the pattern |
| `Glob.PlacedEnd` | Framework/Strings.h:45-66 | the position handed back is the least end that any match can have |
| `Maths.Isqrt` | Framework/Maths.cpp:4-28 | for every 32-bit i the result a has a*a <= i < (a+1)*(a+1), and no intermediate value leaves 32 bits |
| `Maths.Start` | Framework/Maths.cpp:9-15 | the choice of the first bit brackets the root from the start |
| `Maths.TrialIsSquare` | Framework/Maths.cpp:17-20 | the sum formed from c, a and s is the square of a with bit j set, below 2^32 |
| `Maths.Halve` | Framework/Maths.cpp:16-26 | each iteration keeps c = a*a, s = 4^j and the bracket around the root, and every exit, the early one included, leaves the root |
| `MergeSorting.MergeSort` | Framework/OtherFunctions.h:87-91 | the list ends as a sorted permutation of its input; equal elements keep their order when the callback is the non-strict order, and are turned round when it is the strict one |
| `MergeSorting.MergeSortRange` | Framework/OtherFunctions.h:75-85 | sorts exactly the range it is given and touches nothing outside it, though all calls share one scratch list |
| `MergeSorting.MergeSortAux` | Framework/OtherFunctions.h:50-73 | replaces two neighbouring ranges by their merge and leaves the rest alone |
| `MergeSorting.MergeSorts` | Framework/OtherFunctions.h:56-67 | merging sorted ranges gives a sorted range, however the callback breaks ties |
| `MergeSorting.MergeStable` | Framework/OtherFunctions.h:56-67 | merging under the non-strict order keeps equal elements in order, left range first |
| `MergeSorting.MergeSortedSorts` | Framework/OtherFunctions.h:75-85 | the recursive form sorts every list |
| `MergeSorting.MergeSortedPermutes` | Framework/OtherFunctions.h:75-85 | the recursive form loses and invents no element |
| `MergeSorting.MergeSortedStable` | Framework/OtherFunctions.h:75-85 | the elements equal to any given one appear in their original order |
| `MergeSorting.StrictMergeSwaps` | Framework/OtherFunctions.h:56-67 | merging under the strict comparison is merging under the non-strict one with the ranges exchanged |
| `MergeSorting.StrictReverses` | Framework/OtherFunctions.h:58-61 | with the strict comparison the elements equal to any given one come out in reverse order |
| `MergeSorting.StrictStableIff` | Framework/OtherFunctions.h:58-61 | a strict callback keeps a list's equal elements in order if and only if each class of them reads the same backwards |
| `MergeSorting.StrictIsNotStable` | Framework/OtherFunctions.h:58-61 | a two-element list whose equal elements a strict callback exchanges |
| `HeapSorting.HeapSort` | Framework/OtherFunctions.h:30-45 | the array ends as a sorted permutation of its input for every size an int can hold |
| `HeapSorting.HeapSortAux` | Framework/OtherFunctions.h:8-28 | restores the heap on [first, last] given that it held everywhere but at first, permutes only inside that range, and never looks past last |
| `HeapSorting.SiftDown` | Framework/OtherFunctions.h:14-26 | one round moves the larger child up exactly if the comparison asks for it |
| `HeapSorting.SiftCases` | Framework/OtherFunctions.h:14-26 | one round either completes the heap or moves its only hole one level down |
| `HeapSorting.RootIsLargest` | Framework/OtherFunctions.h:39-43 | the root of a heap is at least every other element |
| `HeapSorting.MoveRoot` | Framework/OtherFunctions.h:41 | moving the root behind the heap extends the sorted tail and leaves a heap but for its root |
| `HeapSorting.ReorderHead` | Framework/OtherFunctions.h:42 | rearranging the heap part cannot disturb the finished tail |
| `Search.MemChr` | Framework/Strings.cpp:284-293 | the first character that agrees up to ASCII case, or none in the whole stretch |
| `Search.MemCmp` | Framework/Strings.cpp:295-305 | zero exactly if all characters agree up to case; otherwise the sign of the first difference |
| `Search.FindStr` | Framework/Strings.cpp:307-332 | the least index from the offset on at which the needle occurs ignoring ASCII case, and npos exactly if there is none |
| `Search.RFindStr` | Framework/Strings.cpp:334-358 | the greatest index up to the offset at which the needle occurs, and npos exactly if there is none |
| `Search.SameCharMeans` | Framework/Strings.cpp:277-282 | characters agree exactly if they are equal or the two cases of one ASCII letter |
| `Search.OccursMeans` | Framework/Strings.cpp:307-332 | the needle occurs exactly where the string can be cut into something, a text that agrees with it, and something |
| `Splitting.SplitStr` | Framework/Strings.h:104-126 | the pieces between separators, with or without the empty ones, in single and in multi mode, for every separator; it throws exactly for the empty separator in single mode with empty pieces kept |
| `Splitting.SubStrAt` | Framework/Strings.cpp:188-209 | the piece with the given index among those of the split, or the empty string beyond them; it throws exactly for the empty separator and the index just behind the string |
| `Splitting.FindNth` | Framework/Strings.cpp:211-230 | the end of the piece before the one asked for, hence the boundary between the two, for every separator |
| `Splitting.CountSep` | Framework/Strings.cpp:253-267 | the number of pieces of the split that keeps empty ones; for the empty separator the length plus two |
| `Splitting.JoinStr` | Framework/Strings.h:131-142 | the pieces with a separator between any two, none while the result is still empty |
| `Splitting.NextHitIsLeast` | Framework/Strings.h:111 | the search for a separator misses none before the one it returns |
| `Splitting.PieceIsStretch` | Framework/Strings.h:109-124 | the k-th piece is the stretch of the string between the k-th pair of boundaries, which are in order unless the empty separator has led past the end |
| `Splitting.PieceCount` | Framework/Strings.cpp:253-267 | the pieces are one more than the positions at which a separator starts, overlapping ones included |
| `Splitting.OverlappingHits` | Framework/Strings.h:111-116 | three equal characters split at two of them: two overlapping hits, three pieces |
| `Splitting.EmptySeparator` | Framework/Strings.cpp:253-267 | the empty separator is found at every position, the end included |
| `Splitting.StoredIsKept` | Framework/Strings.h:109-124 | from any point of the loop on, its tests store exactly the non-empty pieces left, or all |
| `Splitting.NonEmptyIsFilter` | Framework/Strings.h:114-121 | without the empty pieces all others are there, as often as before |
| `Splitting.NonEmptyConcat` | Framework/Strings.h:114-121 | and in the same order |
| `Splitting.SplitThenJoin` | Framework/Strings.h:104-142 | for a one-character separator, joining restores the string exactly if the string does not begin with the separator |
| `Splitting.LongSplitThenJoin` | Framework/Strings.h:104-142 | for a longer separator, joining restores the string exactly if the separator does not occur in it |
| `Splitting.SplitThenJoinAny` | Framework/Strings.h:104-142 | for every separator that can be split at, exactly when joining restores the string |
| `Rejoining.JoinThenSplit` | Framework/Strings.h:104-142 | for a one-character separator that is in none of the texts, splitting the joined texts gives them back, if the first of several is not empty |
| `Splitting.NotRestored` | Framework/Strings.h:131-142 | a string that begins with a longer separator never comes back, whatever follows |
| `Encoding.VerifyEncoding` | Framework/Strings.cpp:437-526 | true exactly if the bytes split into allowed ASCII, 2-byte and 3-byte units, leaving the target alone; otherwise the target becomes a well-formed string of at most twice its length |
| `Encoding.Scan` | Framework/Strings.cpp:439-519 | the loop's verdict and its rewritten copy, for every input |
| `Encoding.ReadUnit` | Framework/Strings.cpp:444-518 | one iteration, with the bit tests of the code: the unit at the cursor is kept, or one byte is replaced |
| `Encoding.ValidIsWellFormed` | Framework/Strings.cpp:437-526 | deciding from left to right agrees with the existence of a split into units |
| `Encoding.WellFormedStep` | Framework/Strings.cpp:444-518 | the unit at the front of a well-formed string is unique |
| `Encoding.RepairedIsWellFormed` | Framework/Strings.cpp:437-526 | the rewritten string is accepted, and at most twice as long |
| `Encoding.RepairedFixpoint` | Framework/Strings.cpp:524-525 | a string is accepted exactly if rewriting would leave it unchanged, so a second call changes nothing |
| `Encoding.BadByteChanges` | Framework/Strings.cpp:452-465 | a byte that starts no unit is never written back as it was |
| `Utf8Forms.Latin1IsEncoded` | Framework/Strings.cpp:431-435 | the replacement of a bad byte is the encoding of the character with that number |
| `Encoding.AsciiRepaired` | Framework/Strings.cpp:445-458 | ASCII text keeps its length, and exactly the characters not let through become underscores |
| `Encoding.LetThrough` | Framework/Strings.cpp:420-458 | which characters are let through: all of ASCII, or in paths those from the blank on, without seven more on Windows |
| `Encoding.Latin1IsUnit` | Framework/Strings.cpp:431-435 | the replacement of a bad byte is a well-formed 2-byte unit |
| `Encoding.HighByteIsRefused` | Framework/Strings.cpp:503-515 | no string with a byte from 0xF0 on anywhere is accepted, so no four-byte unit ever is |
| `Encoding.FourByteUnit` | Framework/Strings.cpp:496-518 | every four-byte unit is rewritten byte by byte, as if each of its bytes were Latin-1 |
| `Encoding.SmileyIsRewritten` | Framework/Strings.cpp:496-518 | what becomes of U+1F600 |
| `Bytes.MasksAreRanges` | Framework/Strings.cpp:445-487 | for every byte the bit tests are the range predicates used in the specifications; `Encoding.ReadUnit` rests on it |
| `Utf8.WStrToUtf8` | Framework/Buffer.cpp:414-443 | the concatenated encodings of the units, for every wide string, negative units of a signed wchar_t included |
| `Utf8.Utf8ToWStr` | Framework/Buffer.cpp:491-544 | the decoder's result on any bytes, never more units than bytes |
| `Utf8.RoundTrip` | Framework/Buffer.cpp:414-544 | for strings without negative units, decoding gives the string back with units above 0xFFFF turned into question marks, for either width of wchar_t |
| `Utf8.RepresentableIff` | Framework/Buffer.cpp:427-441 | which strings that leaves alone: those with no unit above 0xFFFF |
| `Utf8.RoundTripIff` | Framework/Buffer.cpp:414-544 | for all strings, decoding undoes encoding if and only if every unit is from 0 to 0xFFFF |
| `Utf8Forms.UnitForm` | Framework/Buffer.cpp:420-432 | the three byte forms, each for its range and with its value, as in section 3 of RFC 3629 |
| `Utf8Forms.EncodedIsWellFormed` | Framework/Buffer.cpp:414-443 | whatever the encoder writes for a string without negative units, verify_encoding accepts |
| `Utf8Forms.FourByteDecodes` | Framework/Buffer.cpp:531-535 | every four-byte unit decodes to its number, cut to sixteen bits if wchar_t has sixteen |
| `Utf8Forms.StrayByte` | Framework/Buffer.cpp:509-540 | a byte that cannot start a character gives one replacement character and nothing else changes |
| `Utf8Forms.CutOff` | Framework/Buffer.cpp:500-530 | a character cut off after its first byte vanishes before another one of several bytes and gives a replacement character otherwise |
| `Utf8.DecodeUnit` | Framework/Buffer.cpp:497-541 | the decoder reads back one encoded unit from any idle state |
| `Utf8.DecodeBound` | Framework/Buffer.cpp:491-544 | never more units than bytes |
| `Utf8.DecodeUnsigned` | Framework/Buffer.cpp:491-544 | no bytes decode to a negative unit |
| `Utf8.AsciiRoundTrip` | Framework/Buffer.cpp:401-489 | the single-byte form survives exactly if every unit is from 0 to 0xFF |
| `Buffer.CBuffer.constructor` | Framework/Buffer.cpp:45-53 | an empty growable buffer without memory |
| `Buffer.CBuffer.AllocBuffer` | Framework/Buffer.cpp:55-65 | a fresh block of the given length, used or not; for no bytes at all the pointer may be null, as malloc likes |
| `Buffer.CBuffer.SetSize` | Framework/Buffer.cpp:91-108 | succeeds exactly if the memory suffices or may grow; keeps the bytes both sizes share across reallocation and clamps the position |
| `Buffer.CBuffer.PrepareWrite` | Framework/Buffer.cpp:110-129 | succeeds exactly for writable buffers with room or room to grow; keeps content and position and grows the size just enough |
| `Buffer.CBuffer.SetPosition` | Framework/Buffer.cpp:206-216 | moves the cursor to any position up to the size, or to the end; refuses others without change |
| `Buffer.CBuffer.GetData` | Framework/Buffer.cpp:218-230 | reads a stretch at the cursor and moves past it, or fails without moving |
| `Buffer.CBuffer.SetData` | Framework/Buffer.cpp:239-253 | overwrites or extends the content at the cursor and moves past the written bytes; a failed write changes nothing |
| `Buffer.CBuffer.GetDataAt` | Framework/Buffer.cpp:265-271 | reads a stretch at an offset without moving |
| `Buffer.CBuffer.SetDataAt` | Framework/Buffer.cpp:273-292 | overwrites or extends at an offset, with zeros if there is no source, without moving |
| `Buffer.CBuffer.InsertData` | Framework/Buffer.cpp:294-311 | splices the bytes in at the offset, everything behind them moves up; without a source the gap shows the old bytes as far as there were any |
| `Buffer.CBuffer.AppendData` | Framework/Buffer.cpp:322-335 | appends to the content and leaves the cursor alone |
| `Buffer.CBuffer.ShiftData` | Framework/Buffer.cpp:337-354 | drops a prefix and moves the cursor back with the content, at least to the start |
| `BufferRuns.WriteValue` | Framework/Buffer.h:78-88 | writes the number's image in either byte order at the cursor; on a failure, exactly the bytes written so far |
| `BufferRuns.ReadValue` | Framework/Buffer.h:89-112 | reads a number in either byte order, or fails with the cursor where the failing read left it |
| `BufferRuns.WriteBackwards` | Framework/Buffer.h:81-85 | the byte-by-byte loop writes the reversed image |
| `BufferRuns.ReadBackwards` | Framework/Buffer.h:92-105 | the byte-by-byte loop reads the reversed stretch |
| `BufferRuns.ImageRoundTrip` | Framework/Buffer.h:78-112 | in either byte order a number that fits is read back from its image |
| `BufferRuns.WriteAppend` | Framework/Buffer.cpp:239-253 | two writes in a row are one write of both |
| `BufferRuns.ReadBack` | Framework/Buffer.cpp:218-253 | reading from where a write began returns what was written and the same cursor |
| `BufferRuns.Perform` | Framework/Buffer.cpp:206-354 | each operation on a growable buffer is the splice on a plain byte sequence with a position |
| `BufferRuns.PerformAll` | Framework/Buffer.cpp:206-354 | so is every sequence of operations, with every outcome, across any reallocations; position <= size <= allocated length throughout |
| `BufferRuns.PlainButNullReads` | Framework/Buffer.cpp:206-354 | an operation differs from the same one on a plain byte sequence if and only if it reads nothing from a buffer without memory |
| `BufferRuns.NewBufferNullRead` | Framework/Buffer.cpp:218-230 | a new buffer, and a read of zero bytes that fails |
| `BufferLaws.AppendUnread` | Framework/Buffer.cpp:322-335 | appending adds to the end of what is left to read and leaves the cursor |
| `BufferLaws.ReadUnread` | Framework/Buffer.cpp:218-230 | reading takes from the front of it, as much as asked for, or fails |
| `BufferLaws.WriteUnread` | Framework/Buffer.cpp:239-253 | writing at the cursor replaces the front of it and nothing before the cursor |
| `BufferLaws.ShiftUnread` | Framework/Buffer.cpp:337-354 | dropping bytes that have been read leaves it as it is; dropping more loses its front |
| `BufferLaws.SeekUnread` | Framework/Buffer.cpp:206-216 | moving the cursor chooses it |
| `BufferLaws.ElsewhereUnread` | Framework/Buffer.cpp:273-311 | writing and inserting at an offset change it there and leave the cursor |
| `BufferLaws.BehindUnread` | Framework/Buffer.cpp:273-311 | the same behind the cursor, where an insertion pushes bytes over it that have been read already |
| `BufferLaws.PeekUnread` | Framework/Buffer.cpp:265-271 | looking at an offset changes nothing |
| `BufferLaws.ByteOfNumber` | Framework/Buffer.h:78-88 | byte k of a stored number is its digit of weight 256 to the k, counted from the front or from the back |
| `BufferLaws.NumberUnread` | Framework/Buffer.h:78-112 | a written number lies at the cursor in that form and is read back from there |
| `BufferLaws.ShortNumber` | Framework/Buffer.h:91-112 | with too few bytes left the read of a number fails; in big-endian order it uses up what is left |
| `BufferStrings.WriteString` | Framework/Buffer.cpp:377-399 | length prefix and encoded text at the cursor, never failing on a growable buffer |
| `BufferStrings.ReadString` | Framework/Buffer.cpp:445-479 | prefix, text and byte order mark read from any content, failures included |
| `BufferStrings.StringRoundTrip` | Framework/Buffer.cpp:377-479 | write then read from the same position returns the text and the cursor exactly if the text survives: plain UTF-8 not starting with U+FEFF and units from 0 to 0xFFFF, marked UTF-8 with such units, single bytes that do not look like a mark |
| `BufferStrings.SurvivalIsExact` | Framework/Buffer.cpp:377-479 | that condition is necessary and sufficient for each of the three character sets |
| `BufferLaws.UnmarkedText` | Framework/Buffer.cpp:464-476 | text without a mark is read byte by byte where a mark is expected |
| `BufferLaws.MarkedText` | Framework/Buffer.cpp:464-476 | a mark is obeyed whatever is expected |
| `BufferStrings.StoredRaw` | Framework/Buffer.cpp:388-462 | the raw bytes come back whenever their number fits the prefix |
| `BufferStrings.EncodedMark` | Framework/Buffer.cpp:464-468 | encoded text without negative units looks marked exactly if it starts with U+FEFF |
| `BufferStrings.AsciiMark` | Framework/Buffer.cpp:464-470 | single-byte text looks marked exactly if its first three units are the mark's bytes |
| `LogPolling.CLog.constructor` | Framework/ObjectEx.h:39 | an empty log with room for 1000 lines |
| `LogPolling.CLog.SetLogLimit` | Framework/ObjectEx.h:61 | changes the limit to any int and drops nothing yet |
| `LogPolling.CLog.AddLogLine` | Framework/ObjectEx.cpp:24-31 | the new line is last and only the newest lines within the limit remain; with a negative limit, and only then, the loop runs on into the empty list |
| `LogPolling.CLog.GetLog` | NeoKad/NeoKad.cpp:276-304 | the lines behind the one with the given id, or all if that id is zero or gone |
| `LogPolling.SinceIsSuffix` | NeoKad/NeoKad.cpp:278-302 | a poll returns exactly the lines added and not evicted that lie behind the last one received |
| `LogPolling.PollIs` | NeoKad/NeoKad.cpp:276-304 | what a poll adds to the lines received, and the id to ask with next |
| `LogPolling.AddKeepsLog` | Framework/ObjectEx.cpp:24-31 | the log stays a suffix of all lines ever added, with ascending ids |
| `LogPolling.InvHolds` | NeoKad/NeoKad.cpp:276-304 | every run of additions, limit changes and polls keeps the accounting of received, waiting and lost lines |
| `LogPolling.Delivery` | NeoKad/NeoKad.cpp:276-304 | in every run the client receives lines in strictly ascending id order, none twice; each line is received, still waiting, or was evicted before the poll that would have fetched it |
| `LogPolling.PollCatchesUp` | NeoKad/NeoKad.cpp:276-304 | after a poll every newer line still in the log has been received |
| `LogPolling.AddKeepsAsMuch` | Framework/ObjectEx.cpp:24-31 | after a line has been added the log holds the newest lines, as many as there are and the limit allows |
| `LogPolling.LostOnlyToTheLimit` | Framework/ObjectEx.cpp:29-30 | in every run, a lost line has at least as many newer lines behind it as the lowest limit ever set |
| `LogPolling.LostAfterAThousand` | Framework/ObjectEx.h:39 | with the initial limit that is a thousand |
| `Election.CDHTPrivate.SetAddress` | DHT/DHT.cpp:234-333 | one report leads to the specified state, and AddressChanged is emitted exactly if the elected address changes |
| `Election.CDHTPrivate.MakeRoom` | DHT/DHT.cpp:268-303 | a new candidate is refused or appended, and a full list first gives up its least and oldest entry |
| `Election.CDHTPrivate.CountVote` | DHT/DHT.cpp:304-333 | a vote that counts is followed by a new election |
| `Election.CDHTPrivate.Find` | DHT/DHT.cpp:254-265 | the first entry with the address, or the end |
| `Election.CDHTPrivate.MaxElement` | DHT/DHT.cpp:308 | the first entry with the most votes |
| `Election.ElectionHolds` | DHT/DHT.cpp:234-333 | after every sequence of reports: at most 21 distinct usable addresses, each with 1 to 128 votes and no more than the distinct voters that reported it, so the 16-bit counter never wraps; the elected address is the first with the most votes |
| `Election.ReportKeeps` | DHT/DHT.cpp:234-333 | one report keeps that invariant |
| `Election.RunKeeps` | DHT/DHT.cpp:234-333 | any sequence of reports keeps it from any state that has it |
| `Election.EvictedIsOldestLeast` | DHT/DHT.cpp:282-298 | stable sorting and erasing the front evicts the entry with the fewest votes, the earliest of those, and keeps all others |
| `ElectionReports.EvictingReport` | DHT/DHT.cpp:282-309 | after every sequence of reports, a report that a full list takes in evicts the first of the candidates with the fewest votes and no other; the others keep their votes, in ascending order, and the new one comes last with one vote |
| `ElectionReports.RoomyReport` | DHT/DHT.cpp:300-309 | with a free slot a new address is appended with one vote |
| `ElectionReports.DroppedReport` | DHT/DHT.cpp:273-281 | with no free slot and an unlucky draw a new address changes nothing |
| `ElectionReports.ListedReport` | DHT/DHT.cpp:304-309 | a report of a listed address adds exactly one vote there, or none if the filter reports the voter |
| `ElectionReports.SecondVote` | DHT/DHT_p.h:26-32 | a voter's second report of an address changes nothing |
| `ElectionReports.UnusableReport` | DHT/DHT.cpp:236-238 | nor does the report of an unusable address |
| `ElectionReports.LocalByBytes` | DHT/libtorrent/broadcast_socket.cpp:42-103 | the unusable IPv4 addresses in dotted form |
| `ElectionReports.SixByParts` | DHT/libtorrent/broadcast_socket.cpp:42-103 | the unusable IPv6 addresses, the mapped unspecified one included |
| `ElectionReports.SeenOfKey` | DHT/libtorrent/bloom_filter.cpp:38-59 | of a voter's hash the filters see the bytes 0 and 2 only, and a candidate's filter seven bits of each |
| `ElectionReports.MistakenVoter` | DHT/libtorrent/bloom_filter.cpp:38-59 | so a voter that agrees there with one whose vote was counted changes nothing |
| `Election.VoteIsGood` | DHT/DHT_p.h:26-32 | a vote that the filter lets through is by a new voter, sets a new bit and adds exactly one |
| `Election.WhoReported` | DHT/DHT_p.h:38-44 | an entry's votes are bounded by its distinct reporters and by the 128 bits of its filter |
| `Election.AddersStayEmpty` | DHT/DHT.cpp:270-271 | the filter that should limit each voter to one new address stays empty in every run |
| `Election.AdmissionIsOpen` | DHT/DHT.cpp:268-303 | after any run, whoever reports a new address, it is let in if and only if there is a free slot or the random draw is in its favour |
| `Election.ListedAfterReport` | DHT/DHT.cpp:234-305 | after any run, a usable address is listed behind a report of it if and only if it was listed before, there is a free slot, or the draw is in its favour |
| `Election.OneVoterAddsTwo` | DHT/DHT.cpp:270-303 | for any two usable addresses and any voter, two reports by that voter to a new node list both |
| `Upnp.CUpnp.constructor` | MiniUPnP/upnp-impl.cpp:35-42 | a handle that has yet to discover its gateway |
| `Upnp.CUpnp.Pulse` | MiniUPnP/upnp-impl.cpp:61-174 | the new handle, the requests sent and the status reported, for arbitrary device answers |
| `Upnp.CUpnp.Review` | MiniUPnP/upnp-impl.cpp:63-122 | discovery, port check and removal of an obsolete mapping |
| `Upnp.CUpnp.TryMap` | MiniUPnP/upnp-impl.cpp:124-164 | a wanted mapping is requested; a refusal ends in the error state |
| `Upnp.PulseSettles` | MiniUPnP/upnp-impl.cpp:61-174 | between pulses the state is discover, idle or error; mapped implies idle and the requested port; a disabled pulse leaves nothing mapped, so both asserts of upnpClose hold; the error state is final |
| `Upnp.MapsExactly` | MiniUPnP/upnp-impl.cpp:61-174 | for arbitrary answers, exactly when a pulse leaves a mapping: it is enabled, the gateway was found before or is found now, and the mapping stands or a new one is accepted |
| `Upnp.StateAfterPulse` | MiniUPnP/upnp-impl.cpp:61-174 | exactly when a pulse leaves the handle undiscovered or in error, what it reports, and that without a mapping it has no port |
| `Upnp.PulseSends` | MiniUPnP/upnp-impl.cpp:97-164 | exactly when a pulse queries, deletes and adds, and for which port |
| `Upnp.ServeExactly` | MiniUPnP/upnp-impl.cpp:111-164 | which mappings the gateway holds after the requests of a pulse |
| `Upnp.PulseAccounts` | MiniUPnP/upnp-impl.cpp:61-174 | for arbitrary answers, after the requests that a pulse really sends: what the gateway holds is recorded, someone else's, or denied or not deleted by the gateway in that pulse |
| `Upnp.RunKeeps` | MiniUPnP/upnp-impl.cpp:61-174 | every run of pulses with arbitrary answers keeps the handle settled, a mapping for the port last asked for, a disabled pulse leaving a handle that may be closed, and the account of what the gateway is to blame for |
| `Upnp.UpnpRuns` | MiniUPnP/upnp-impl.cpp:35-174 | the same from a new handle on; after a disabled pulse the gateway holds only what it has denied or failed to delete |
| `Upnp.HonestRunIsBlameless` | MiniUPnP/upnp-impl.cpp:97-122 | a gateway that answers every pulse honestly is to blame for nothing |
| `Upnp.HonestUpnpRuns` | MiniUPnP/upnp-impl.cpp:35-174 | so an honest gateway holds at most the recorded mapping, and nothing after a disabled pulse |
| `Upnp.OrphansExactly` | MiniUPnP/upnp-impl.cpp:97-164 | for every settled handle and every answer: the gateway is left with a mapping that the handle no longer records if and only if it denies the mapping and refuses to add it again, or does not delete it once it is obsolete |
| `Upnp.LyingGatewayOrphans` | MiniUPnP/upnp-impl.cpp:97-109 | a case of the former: a gateway that denies a mapping it holds |
| `Upnp.RefusedDeletionOrphans` | MiniUPnP/upnp-impl.cpp:111-122 | a case of the latter: the deletion fails, and the handle may be closed all the same |
| `NatPmp.CNatPmp.constructor` | MiniUPnP/natpmp-impl.cpp:65-74 | a handle in the discover state with zero ports and no command time |
| `NatPmp.CNatPmp.SetCommandTime` | MiniUPnP/natpmp-impl.cpp:88-91 | the next command is eight seconds away |
| `NatPmp.CNatPmp.Find` | MiniUPnP/natpmp-impl.cpp:95-118 | discovery and its answer |
| `NatPmp.CNatPmp.Clear` | MiniUPnP/natpmp-impl.cpp:120-155 | the removal of an obsolete mapping |
| `NatPmp.CNatPmp.Drop` | MiniUPnP/natpmp-impl.cpp:120-124 | an obsolete mapping is marked for removal |
| `NatPmp.CNatPmp.AskToRemove` | MiniUPnP/natpmp-impl.cpp:126-132 | the removal is asked for once its time has come |
| `NatPmp.CNatPmp.AwaitRemoval` | MiniUPnP/natpmp-impl.cpp:134-155 | only the answer for the recorded private port ends a mapping |
| `NatPmp.CNatPmp.Establish` | MiniUPnP/natpmp-impl.cpp:157-190 | making and renewing the mapping |
| `NatPmp.CNatPmp.Decide` | MiniUPnP/natpmp-impl.cpp:157-164 | a wanted or expiring mapping is marked for a request |
| `NatPmp.CNatPmp.AskToMap` | MiniUPnP/natpmp-impl.cpp:166-172 | the mapping is asked for once its time has come |
| `NatPmp.CNatPmp.AwaitMapping` | MiniUPnP/natpmp-impl.cpp:174-190 | an answer records the ports and the time of renewal |
| `NatPmp.CNatPmp.Pulse` | MiniUPnP/natpmp-impl.cpp:93-204 | the new handle and history; mapped is reported exactly if idle and mapped |
| `NatPmp.IssueKeeps` | MiniUPnP/natpmp-impl.cpp:83-91 | a request that waits for the command time keeps its distance to all earlier ones |
| `NatPmp.PulseKeeps` | MiniUPnP/natpmp-impl.cpp:93-204 | one pulse keeps the invariant of `NatPmpRuns` |
| `NatPmp.NatPmpRuns` | MiniUPnP/natpmp-impl.cpp:65-204 | in every run: any two requests are at least eight seconds apart; the address is asked for at most once and first; discovered exactly outside the discover state; the unmap states imply a mapping; both ports are zero whenever unmapped |
| `NatPmpTable.DiscoverPulse` | MiniUPnP/natpmp-impl.cpp:95-104 | a handle in the discover state: the first enabled pulse asks for the address, a disabled one does nothing |
| `NatPmpTable.AddressPulse` | MiniUPnP/natpmp-impl.cpp:106-118 | waiting for the address: nothing before the command time or without an answer, error on a failure, and with an answer on like an idle handle |
| `NatPmpTable.UnmappedPulse` | MiniUPnP/natpmp-impl.cpp:157-190 | idle without a mapping: an enabled pulse asks for one exactly once the command time has come, and where the sending and the answer lead |
| `NatPmpTable.RenewalPulse` | MiniUPnP/natpmp-impl.cpp:157-190 | idle and mapped as wanted: a renewal is asked for exactly if half the lifetime has passed and the command time has come |
| `NatPmpTable.WaitingPulse` | MiniUPnP/natpmp-impl.cpp:166-190 | a request that waits for its turn goes out then, enabled or not |
| `NatPmpTable.MapAnswerPulse` | MiniUPnP/natpmp-impl.cpp:174-190 | the answer to it: ports and renewal time as answered, error, or more waiting |
| `NatPmpTable.RemovalPulse` | MiniUPnP/natpmp-impl.cpp:120-155 | a mapping that is disabled or for another port: its removal is asked for exactly once the command time has come, for the recorded ports |
| `NatPmpTable.RemovalAnswerPulse` | MiniUPnP/natpmp-impl.cpp:134-155 | the answer to it: only one for the recorded port clears the handle, which an enabled pulse then treats as idle |
| `NatPmpTable.ErrorPulse` | MiniUPnP/natpmp-impl.cpp:120-124 | in error with nothing to remove nothing ever happens again |
| `NatPmpTable.StatusMeans` | MiniUPnP/natpmp-impl.cpp:192-203 | which states are reported as mapped, mapping, unmapping, unmapped and error |
| `NatPmpTable.AnsweringGatewayMaps` | MiniUPnP/natpmp-impl.cpp:93-204 | with a gateway that answers, the second pulse from eight seconds after the first on maps the port, whatever the port, the times and the lifetime |
| `NatPmp.DisabledPulseUnmaps` | MiniUPnP/natpmp-impl.cpp:120-155 | exactly when a disabled pulse of a mapped handle leaves it unmapped |
| `NatPmp.MappedAfterDisabled` | MiniUPnP/natpmp-impl.cpp:93-204 | exactly when a handle, mapped before or not, is mapped after a disabled pulse |
| `NatPmp.DisabledPulseMaps` | MiniUPnP/natpmp-impl.cpp:157-172 | exactly when a disabled pulse asks for a mapping |
| `NatPmp.DisabledPulseCanLeak` | MiniUPnP/natpmp-impl.cpp:126-132 | a run in which the last, disabled pulse comes too early to remove the mapping, which the gateway goes on holding |
| `NatPmp.DisabledPulseCanMap` | MiniUPnP/natpmp-impl.cpp:157-172 | a run from a new handle whose last, disabled pulse asks for a mapping: a renewal that had to wait |
| `NatPmp.PulseExplains` | MiniUPnP/natpmp-impl.cpp:93-204 | with truthful answers and one port: what the gateway holds after a pulse is that port at most, and only if the handle counts as mapped or its last request for a mapping is unanswered |
| `Forwarding.ForwardSettles` | MiniUPnP/MiniUPnP.cpp:130-141 | both pulses keep their invariants, and a disabled entry may be closed afterwards |
| `Forwarding.NextKeeps` | MiniUPnP/MiniUPnP.cpp:30-128 | every step of the client, the worker or a forgetful gateway keeps ownership, health, accounting and orderly shutdown, whatever the gateway answers |
| `Forwarding.WorkerKeeps` | MiniUPnP/MiniUPnP.cpp:30-86 | every worker step does |
| `Forwarding.RetireKeeps` | MiniUPnP/MiniUPnP.cpp:122-128 | stopping moves an entry from the map to the retired ones |
| `Forwarding.CreateKeeps` | MiniUPnP/MiniUPnP.cpp:102-119 | a new entry is live under its name and nowhere else |
| `Forwarding.CollectKeeps` | MiniUPnP/MiniUPnP.cpp:59-63 | on quit every live entry is retired once |
| `Forwarding.PulseAccounted` | MiniUPnP/MiniUPnP.cpp:130-134 | across all entries and for arbitrary answers, what the gateway holds some entry has on record, or the gateway has denied or failed to delete |
| `Forwarding.NotYetClosed` | MiniUPnP/MiniUPnP.cpp:51-82 | what the worker is about to pulse or close has not been closed |
| `Forwarding.RunInv` | MiniUPnP/MiniUPnP.cpp:10-128 | the invariant holds in every state of every interleaving |
| `Forwarding.ExactlyOnePlace` | MiniUPnP/MiniUPnP.cpp:30-128 | each entry ever created is in exactly one place: live under one name, retired, in the worker's hand or closed |
| `Forwarding.PulseAndClose` | MiniUPnP/MiniUPnP.cpp:51-82 | nothing is pulsed or closed after it has been closed, and the asserts of upnpClose hold at every close |
| `Forwarding.NameIsFree` | MiniUPnP/MiniUPnP.cpp:90-103 | the assert in StartForwarding holds in every interleaving with one client |
| `Forwarding.CleanExit` | MiniUPnP/MiniUPnP.cpp:59-66 | for arbitrary gateways: when the worker exits, every entry ever created has been closed exactly once, and of UPnP mappings the gateway holds only what it has denied or failed to delete |
| `Forwarding.HonestIsBlameless` | MiniUPnP/MiniUPnP.cpp:10-128 | in runs whose pulses are answered honestly the gateway is never to blame |
| `Forwarding.HonestGateway` | MiniUPnP/MiniUPnP.cpp:10-128 | so in every state of such a run the gateway holds nothing that no entry has on record, and at exit nothing at all |
| `Serving.StartedEntry` | MiniUPnP/MiniUPnP.cpp:94-119 | a start adds an enabled entry under the name, with the port and the protocol asked for and fresh handles, and changes nothing else |
| `Serving.RefusedStart` | MiniUPnP/MiniUPnP.cpp:94-100 | a start for an unknown protocol adds none |
| `Serving.StoppedEntry` | MiniUPnP/MiniUPnP.cpp:122-128 | a stop moves the entry under the name to the end of the retired ones and leaves all others |
| `Serving.LiveEntriesEnabled` | MiniUPnP/MiniUPnP.cpp:30-128 | in every state of every run, every live entry is enabled |
| `Serving.EntriesKeepPorts` | MiniUPnP/MiniUPnP.cpp:30-141 | in every run, no entry ever changes its port or protocol |
| `Serving.ClosedInOrder` | MiniUPnP/MiniUPnP.cpp:59-86 | in every run, entries are closed in the order in which they were retired |
| `Serving.StatusAfterPulse` | MiniUPnP/MiniUPnP.cpp:130-141 | the better status counts; the port is checked next time exactly if mapped; an entry in error is left alone for nineteen rounds |
| `Serving.PulseMaps` | MiniUPnP/MiniUPnP.cpp:130-141 | exactly when a pulse of an entry leaves its port mapped by UPnP |
| `Serving.FirstPulseMaps` | MiniUPnP/MiniUPnP.cpp:102-141 | the first pulse of a started entry maps its port with a gateway that is connected and accepts: handle, status and gateway agree |
| `Serving.MappedIsChecked` | MiniUPnP/MiniUPnP.cpp:132-138 | a mapped entry is looked up at the gateway with its next pulse |
| `Serving.RoundHasAll` | MiniUPnP/MiniUPnP.cpp:38-39 | each round of the worker begins with every live name |
| `Serving.TurnComes` | MiniUPnP/MiniUPnP.cpp:39-56 | whatever the client does meanwhile, an entry that stays live through a round is counted down or pulsed in it |
| `Shutdown.WorkerCanMove` | MiniUPnP/MiniUPnP.cpp:30-86 | in every state that satisfies the invariant the worker can take a step, until it has exited |
| `Shutdown.StepsDown` | MiniUPnP/MiniUPnP.cpp:30-86 | each worker step lowers a bound given by the retired entries, the live ones and the names left to visit: until the round ends while the service is running, until the exit when it is not |
| `Shutdown.BoundHolds` | MiniUPnP/MiniUPnP.cpp:24-86 | in every run, from the start of destruction on, worker steps taken and steps left never exceed the bound at that start |
| `Shutdown.ExitsInTime` | MiniUPnP/MiniUPnP.cpp:24-28 | so the worker has exited after at most that many steps, and the destructor's wait ends |
| `Shutdown.FinishedStays` | MiniUPnP/MiniUPnP.cpp:68-86 | an entry whose last pulse lies behind it never changes again |
| `Shutdown.LastPulse` | MiniUPnP/MiniUPnP.cpp:73-82 | for every closed entry of every run: the step of its last pulse, which was disabled and left the entry as it is |
| `Shutdown.PmpAtExit` | MiniUPnP/MiniUPnP.cpp:59-86 | at exit an entry's NAT-PMP handle is still mapped if and only if its last pulse could not remove the mapping or was answered with one |
| `Shutdown.RunExplains` | MiniUPnP/MiniUPnP.cpp:10-128 | in every run with truthful NAT-PMP answers, what the gateway holds for each entry stays explained |
| `Shutdown.PmpHeld` | MiniUPnP/MiniUPnP.cpp:59-86 | so in every state, and at exit, the gateway holds by NAT-PMP for an entry its port at most, and only if the handle counts as mapped or its last request for a mapping is unanswered |
| `Service.SPort.constructor` | MiniUPnP/MiniUPnP.cpp:104-117 | a new enabled entry with two handles of its own |
| `Service.SPort.DoForwarding` | MiniUPnP/MiniUPnP.cpp:130-141 | one pulse of each handle; the better status, the port check, the countdown and the requests sent follow from them |
| `Service.CMiniUPnP.constructor` | MiniUPnP/MiniUPnP.cpp:10-22 | no entries, and running |
| `Service.CMiniUPnP.BeginDestroy` | MiniUPnP/MiniUPnP.cpp:24-28 | only clears the flag that keeps the worker running (the object's own fields and entries; the rest of the step is in `Threads`) |
| `Service.CMiniUPnP.StopForwarding` | MiniUPnP/MiniUPnP.cpp:122-128 | the entry with the name, if any, becomes the last of the retired ones (the object's own fields and entries; the rest of the step is in `Threads`) |
| `Service.CMiniUPnP.FinishStart` | MiniUPnP/MiniUPnP.cpp:92-120 | under a free name, a new entry for TCP or UDP in either case; false exactly for any other protocol (the object's own fields and entries; the rest of the step is in `Threads`) |
| `Service.CMiniUPnP.TakeOld` | MiniUPnP/MiniUPnP.cpp:70-75 | the oldest retired entry is taken out and disabled (the object's own fields and entries; the rest of the step is in `Threads`) |
| `Service.CMiniUPnP.PulseEntry` | MiniUPnP/MiniUPnP.cpp:53 | pulses one entry and leaves all others as they are; the gateway's table changes by the requests sent |
| `Service.CMiniUPnP.Close` | MiniUPnP/MiniUPnP.cpp:81-82 | the asserts of upnpClose hold and the entry becomes the last of the closed ones |
| `Service.CMiniUPnP.Visit` | MiniUPnP/MiniUPnP.cpp:39-51 | an entry that is counting down counts on, one that is due is handed out (the object's own fields and entries; the rest of the step is in `Threads`) |
| `Service.CMiniUPnP.RetireAll` | MiniUPnP/MiniUPnP.cpp:59-63 | every live entry is retired, in the order of the names (the object's own fields and entries; the rest of the step is in `Threads`) |
| `Service.TakeMoves` | MiniUPnP/MiniUPnP.cpp:68-86 | what TakeOld does is a worker step and keeps the invariant |
| `Service.VisitMoves` | MiniUPnP/MiniUPnP.cpp:38-56 | what Visit does is a worker step and keeps the invariant |
| `Service.CollectMoves` | MiniUPnP/MiniUPnP.cpp:59-63 | what RetireAll does is a worker step and keeps the invariant |
| `Service.StartMoves` | MiniUPnP/MiniUPnP.cpp:88-120 | the invariant gives FinishStart a free name, and what it does is a client step that keeps the invariant |
| `Threads.System.constructor` | MiniUPnP/MiniUPnP.cpp:10-22 | both threads at their start, the machine in its initial state |
| `Threads.System.Stop` | MiniUPnP/MiniUPnP.cpp:122-128 | StopForwarding on the objects is the machine's step, with its program counters, closed list and table |
| `Threads.System.BeginStart` | MiniUPnP/MiniUPnP.cpp:88-90 | so is the first section of StartForwarding |
| `Threads.System.EndStart` | MiniUPnP/MiniUPnP.cpp:92-120 | so is the second section; its assert holds whatever the worker did in between |
| `Threads.System.Destroy` | MiniUPnP/MiniUPnP.cpp:24-28 | so is the start of destruction |
| `Threads.System.TestRunning` | MiniUPnP/MiniUPnP.cpp:32 | the worker's test of the flag is a worker step |
| `Threads.System.Take` | MiniUPnP/MiniUPnP.cpp:70-75 | so is taking a retired entry, or finding none |
| `Threads.System.LastPulse` | MiniUPnP/MiniUPnP.cpp:79 | so is the last pulse of the entry taken, whatever the gateway answers |
| `Threads.System.Close` | MiniUPnP/MiniUPnP.cpp:81-82 | so is closing its handles |
| `Threads.System.List` | MiniUPnP/MiniUPnP.cpp:38-39 | so is taking the lock and listing the names |
| `Threads.System.Visit` | MiniUPnP/MiniUPnP.cpp:39-51 | so is looking at one name |
| `Threads.System.EndScan` | MiniUPnP/MiniUPnP.cpp:56-57 | so is giving the lock back |
| `Threads.System.PulseDue` | MiniUPnP/MiniUPnP.cpp:51-55 | so is the pulse of an entry that is due, whatever the gateway answers |
| `Threads.System.CollectAll` | MiniUPnP/MiniUPnP.cpp:59-63 | so is retiring everything on quit |
| `Xml.TypeTable` | Framework/Xml.cpp:228-290 | every kind is read back from the name it is written under |
| `Xml.Writer.Serialize` | Framework/Xml.cpp:67-116 | appends a rendering of the value and leaves the earlier tokens alone |
| `Xml.Writer.WriteEntries` | Framework/Xml.cpp:73-86 | a map or hash renders each of its entries once |
| `Xml.Writer.WriteItems` | Framework/Xml.cpp:87-93 | a list renders its items in order |
| `Xml.Writer.WriteStrings` | Framework/Xml.cpp:94-100 | a string list renders its strings in order |
| `Xml.Reader.ParseOne` | Framework/Xml.cpp:118-220 | the recursive parser over the shared cursor, on every token stream, malformed ones included; an error ends the stream for all calls |
| `Xml.Reader.ReadEntries` | Framework/Xml.cpp:140-155 | the loop that fills a map or hash until a child call fails |
| `Xml.Reader.ReadItems` | Framework/Xml.cpp:156-163 | the loop that fills a list |
| `Xml.Reader.ReadTexts` | Framework/Xml.cpp:164-171 | the loop that fills a string list |
| `Xml.ReadBack` | Framework/Xml.cpp:118-220 | from any rendering, with ignorable tokens between children and text in any number of chunks, the parser returns the normalized tree and consumes exactly its tokens |
| `Xml.RoundTrip` | Framework/Xml.cpp:67-220 | it returns the same tree if and only if the tree has no invalid or unnamed leaf and each leaf is what its printed form converts back to, whatever printing and converting do |
| `Xml.SurvivesIff` | Framework/Xml.cpp:101-113 | which trees come back unchanged: a property of their leaves, and only of them |
| `Xml.SkipGap` | Framework/Xml.cpp:174-178 | text and other ignorable tokens before a start tag change nothing |
| `Xml.ReadText` | Framework/Xml.cpp:174-213 | the text of a leaf is gathered from all its chunks |
| `Xml.Extend` | Framework/Xml.cpp:67-116 | what has been written keeps its meaning when more is written behind it |
| `Xml.WriteThenRead` | Framework/Xml.cpp:49-65 | serializing and parsing a whole document gives the normalized tree, the same one exactly if it survives |
| `XmlCases.LostLeaves` | Framework/Xml.cpp:107-113 | what an invalid variant and one of a type without a name come back as |
| `XmlCases.KeptLeaves` | Framework/Xml.cpp:101-110 | what every other leaf comes back as |
| `XmlCases.UntypedLeaf` | Framework/Xml.cpp:205-210 | an element without a type is a string |
| `XmlCases.BytesLeaf` | Framework/Xml.cpp:183-184 | bytes are read as Base64 unless the lazy form is used |
| `XmlCases.NoElement` | Framework/Xml.cpp:123-129 | where no element begins the parser fails, and an error ends the stream |
| `XmlCases.CutOffList` | Framework/Xml.cpp:156-163 | a list that is cut off counts as the list of the items before |
| `XmlCases.RepeatedKey` | Framework/Xml.cpp:140-147 | of two entries with one key the later one counts |
| `Numerals.ValueOfDigits` | Framework/Address.cpp:285-306 | the printed digits denote the number |
| `Numerals.ScanNumeral` | Framework/Address.cpp:328-396 | a run of digits is read as its value up to the first other character |
| `Numerals.ReadHex` | Framework/Address.cpp:396 | hexadecimal text is read as its value, prefix rules included |
| `Numerals.ReadDecimal` | Framework/Address.cpp:328 | printed decimal text is read as its number although the base is guessed from the text |
| `Numerals.Characters` | Framework/Address.cpp:328-396 | letters are digits in alphabetical order, in both cases; which characters are white space |
| `Numerals.SpaceIgnored` | Framework/Address.cpp:328-396 | white space in front of a number changes nothing |
| `Numerals.SignApplies` | Framework/Address.cpp:328-396 | one sign may stand directly in front of a number; a minus negates modulo 2^64 |
| `Numerals.ReadPrefixed` | Framework/Address.cpp:328-396 | the digits behind 0x or 0X are hexadecimal, in base 16 and with the base left open; too large a number is the largest one |
| `Numerals.PrefixAlone` | Framework/Address.cpp:328-396 | without a digit behind it the prefix is a zero, and the number ends at its x |
| `Numerals.ReadOctal` | Framework/Address.cpp:328 | with the base left open a leading zero makes a number octal |
| `AddressText.RoundTrip4` | Framework/Address.cpp:273-358 | every four bytes survive printing and parsing |
| `AddressText.DottedTexts` | Framework/Address.cpp:316-358 | what one to four printed parts stand for, by the class of the first |
| `AddressText.FourPartsAndMore` | Framework/Address.cpp:327-336 | for any four bytes, their printed form, a dot and any text at all is accepted as those bytes |
| `AddressText.AtonAccepts` | Framework/Address.cpp:316-358 | exactly which texts are accepted, and as what: one to four numbers below 256 in the notations of strtoul, each reaching a dot or the end, and nothing looked at after four of them |
| `AddressText.PartsAreCut` | Framework/Address.cpp:327-336 | what the loop has read lies between cuts of the text |
| `AddressText.CutsAreParts` | Framework/Address.cpp:327-336 | and whatever can be cut so the loop reads |
| `AddressText.PartsBeforeJunk` | Framework/Address.cpp:327-336 | parts with something else than a dot behind them are refused, and stored all the same |
| `AddressText.PartsOf` | Framework/Address.cpp:327-336 | the loop reads dotted numbers back one by one |
| `AddressText.RoundTrip6` | Framework/Address.cpp:298-420 | every eight groups survive printing and parsing |
| `AddressText.EllipsisMeansZeros` | Framework/Address.cpp:390-419 | for all group texts L and R of at most seven groups together, L::R reads as L, zero groups and R, section 2.2 of RFC 4291; eight groups are read too if some stand in front; what begins behind them with neither colon, letter nor digit is ignored |
| `AddressText.ElidedAccepted` | Framework/Address.cpp:394-419 | for all L and R and whatever stands behind a delimiter, exactly when L::R is accepted: L and R have at most eight groups, nothing in front counting as one |
| `AddressText.PlainGroups` | Framework/Address.cpp:394-418 | up to eight groups without an ellipsis read as themselves behind zero groups, whatever stands behind a delimiter |
| `AddressText.PlainAccepted` | Framework/Address.cpp:394-418 | for all lists of groups without an ellipsis, exactly when they are accepted, with or without a delimiter and more behind: up to eight of them |
| `AddressText.NoGroupAtAll` | Framework/Address.cpp:413-414 | a text that begins with a delimiter, or is empty, is refused |
| `AddressText.GroupsToEnd` | Framework/Address.cpp:394-412 | the loop reads groups up to the end of the text or up to a delimiter |
| `AddressText.GroupsToEllipsis` | Framework/Address.cpp:394-412 | the loop reads groups up to an ellipsis and notes where it was |
| `AddressText.GroupsOverflow` | Framework/Address.cpp:394-414 | with more groups than there is room for the loop stops at a group, and the test for a delimiter refuses the text |
| `AddressText.ScannedAreStored` | Framework/Address.cpp:394-412 | what the loop stores is what a successful scan has read |
| `AddressText.LargeGroupNotStored` | Framework/Address.cpp:394-402 | a group above 0xFFFF ends the loop and is not stored |
| `AddressText.SecondEllipsisStores` | Framework/Address.cpp:401-407 | a second ellipsis ends it too, with the group before it stored |
| `AddressText.GroupsBeforeLetter` | Framework/Address.cpp:389-416 | a letter that is no digit ends it with all groups before stored, and the text is refused |
| `AddressText.GroupsRoundTrip` | Framework/Address.cpp:305-402 | bytes and 16-bit groups correspond |
| `Address.InetNtop6` | Framework/Address.cpp:298-309 | the printing loop gives the eight groups with colons |
| `Address.InetAton` | Framework/Address.cpp:316-358 | accepts what the specified scan accepts, text behind a fourth dot included, and places the parts by address class; a refused text leaves the parts read so far over zeros |
| `Address.ReadParts` | Framework/Address.cpp:323-336 | the parsing loop, errors included |
| `Address.InetPton` | Framework/Address.cpp:390-419 | accepts exactly what the specified scan accepts and leaves the groups in place in the array; a refused text leaves the groups read so far over zeros |
| `Address.ReadGroups` | Framework/Address.cpp:393-412 | the loop over the groups, errors included |
| `Address.ReadGroup` | Framework/Address.cpp:395-411 | one iteration: a group, a colon, an ellipsis or an error |
| `Address.OpenGap` | Framework/Address.cpp:415-418 | the groups behind the ellipsis move to the end and zeros fill the gap |
| `Address.TextRoundTrip` | Framework/Address.cpp:83-100 | every IPv4 and IPv6 address comes back from its text, with its family |
| `Address.MapAndBack` | Framework/Address.cpp:201-237 | an IPv4 address becomes ten zero bytes, two of 0xFF and itself, section 2.5.5.2 of RFC 4291, and comes back equal |
| `Address.UnmapAndBack` | Framework/Address.cpp:201-244 | an IPv6 address converts to IPv4 exactly if it is a mapped one, and converting back restores all sixteen bytes |
| `Address.OtherConversions` | Framework/Address.cpp:203-234 | no other conversion changes anything |
| `Address.AllBytesComeBack` | Framework/Address.cpp:201-237 | for every IPv4 address, all sixteen bytes come back from IPv6 if and only if bytes 4 to 14 were zero and byte 15 repeated byte 3 |
| `Address.LastByteStays` | Framework/Address.cpp:224-229 | an address for which they do not |
| `Address.CAddress.constructor` | Framework/Address.cpp:28-32 | sixteen zero bytes of the given family |
| `Address.CAddress.ToString` | Framework/Address.cpp:83-89 | the text of the address, empty without a family |
| `Address.CAddress.FromString` | Framework/Address.cpp:91-100 | succeeds exactly if the text has a dot and parses as IPv4, or else a colon and parses as IPv6, and then holds its bytes; the family and all sixteen bytes are stated for failures too |
| `Address.RefusedTextLeavesParts` | Framework/Address.cpp:91-100 | parts with junk behind them leave the family and the parts over zeros |
| `Address.RefusedTextLeavesGroups` | Framework/Address.cpp:91-100 | groups with a letter behind them that is no digit leave the family and the groups over zeros |
| `Address.AcceptedText` | Framework/Address.cpp:91-100 | an accepted text sets the family and its bytes; one without a dot and a colon is refused and changes nothing |
| `Address.CAddress.IsMappedIPv4` | Framework/Address.cpp:239-244 | true exactly for mapped addresses |
| `Address.CAddress.Convert` | Framework/Address.cpp:201-237 | all sixteen bytes, the family and the result of a conversion |
| `Address.PrintThenParse` | Framework/Address.cpp:83-100 | a new object that parses the text of any address equals that address |

## Left out

- User interface, media player, translations: no algorithm to state.
- The other request handlers of NeoKad and MuleKad, the Kademlia classes behind them, and the bundled libraries.
- zlib, Base64, percent encoding and Qt's conversions between leaf types and strings: contracts or parameters.
- The text level of XML (escaping, entities, well-formed names): the model begins and ends at the token stream, so a map key that is no valid element name is not treated.
- Forwarding.CleanExit: speaks of UPnP mappings only, because the code can leave NAT-PMP mappings behind; `Shutdown.PmpAtExit` and `Shutdown.PmpHeld` say which.
- NatPmp.PulseExplains: is about one port, as the entries of the service have; a handle pulsed for changing ports can ask for a new one while the old one is still held. Entries are accounted for one by one, so a removal by one of two entries with the same port and protocol is not credited to the other.
- Forwarding.NextKeeps: the unprotected reads of `m_Running` and of entry fields by `GetStaus` are not modelled; a test of `m_Running` is one atomic step.
- Forwarding.NameIsFree: holds for one client thread only; between the two sections of `StartForwarding` a second client could take the name.
- Threads.System.Stop: a section is one method call and the schedule is whoever calls them; concurrent Dafny code does not exist. The whole-run results are stated on the machine in `Forwarding` and `Shutdown`.
- The result of `initnatpmp`, which the code overwrites, and the socket that natpmpClose closes.
- Upnp.CUpnp.Pulse: the strings passed to the gateway (description, protocol, buffer sizes) are not modelled.
- Buffer.CBuffer.SetData: a write without a source leaves the new bytes unspecified, as `realloc` does; the same holds for growth by `SetSize` and for the part of an unfilled gap that lies beyond the old end.
- `RemoveData`, `ReplaceData`, `SetBuffer`, `CopyBuffer`, `Pack` and `Unpack`, and who frees a block.
- BufferStrings.StringRoundTrip: speaks of texts whose encoded length fits the prefix, as the asserts in `WriteString` demand.
- `FindNthR`, `Split2`, `Trimm`, `UTF8toWCHAR`, `MkTick`, `Reverse`, `Median`, `IsLanIPv4`, `FlterLog`: easy members.
- Election.CDHTPrivate.SetAddress: the hash of a voter's address is an input key; that different voters may share a key is therefore part of the model, and votes are counted by key.
- The typed settings cache, the request manager, temporary files and crash dumps.
