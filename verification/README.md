# Verified core of the lib13 toolbox

A Dafny 4.11 model of the algorithms of this C repository whose correctness spans loops, heap
mutation or whole runs, and proofs of what they are for.  `dafny verify dfyconfig.toml` checks it.

| files | what they model |
|---|---|
| `ObjectTree`, `MorrisTraversal`, `ObjectIndex` | the object index of `lib13/obj13.c`: a search tree of heap objects, with insertion, search, and the traversal without a stack that threads cycles into the tree and takes them out again |
| `Calendar`, `DayCounts`, `DayNumbers` | the Gregorian and Jalali calendars of `lib13/day13.c`, defined by counting one day at a time, and the day-number arithmetic that must agree with them, with the signed and unsigned division of C |
| `Sha256Block`, `Sha256Stream`, `Sha256Constants`, `Sha256Examples` | the streaming SHA-256 of `lib13/sha256.c` against FIPS 180-2, where its constants come from, and the worked examples of that standard |
| `DesBits`, `DesKeys`, `Des`, `DesStandard`, `DesBoxes` | DES and triple DES of `lib13/des.c`: permutations, key schedule, rounds, S-boxes, and the schedules of the two directions, against the tables of FIPS 46-3 |
| `Csv`, `CsvProgram`, `CString`, `ByteStrings` | CSV output and import, and C strings out and in, of `sqlite/shell.c` |
| `Fletcher`, `Jenkins`, `JenkinsExamples`, `Words32` | the checksums and hashes of `lib13/hash13.c` |
| `LinkedFifo`, `Framing`, `SendQueue` | packets and the send queue of `infolink/ilink_pkt.c` and `infolink/ilink_io.c`, under every behaviour of the socket |
| `RequestReply` | the request and reply pipeline of `lib13/rr13.c`, under every interleaving of its threads |
| `Arithmetic`, `Sequences`, `Options` | what several of these share |
| `Memmem`, `Base64` | the substring search of `lib13/mem13.c` and the encoder of `lib13/base64.c` |

The source works step by step and in place, and so does the model: loops with invariants, arrays
rewritten in place, linked nodes, and classes for the contexts.  Each such method is tied to a
definition that does not follow its code (a mathematical tree and a stable sort, a calendar that
counts days, the formulas of a standard, a grammar, a sequence), and the promises are proved about
that definition for all inputs and all runs.

Where the code does not do what might be expected, the model follows the code:

- `d13_g2j` gives no date for the days before 20 March 1600 (`DayNumbers.EarlyJalaliDay`), yet `d13_j2g`
  takes what it gives for the days since 1 January 1600 back to where it came from
  (`DayNumbers.ConvertThereAndBack`).
- `d13_gdayno` is right from the year 1597 on where an unsigned long has 32 bits, from 1501 on where it
  has 64, and in no earlier year (`DayCounts.GregorianDayNumber`); `d13_jdayno` is right from 979 on
  (`DayCounts.JalaliDayNumber`).
- CSV output and import undo each other, for tables of a given number of columns, exactly when the
  separator is not the quotation mark, and not the line feed unless there is one column
  (`Csv.RoundTripExactly`).
- The import sees all of a file exactly when there is no zero byte in it (`CsvProgram.SeenExactly`).
- The in-place reading of escapes steps over the terminator of exactly the strings that end in an odd
  number of backslashes (`CString.ResolveBackslashes`).
- A string written in C quoting is one C string exactly when it has no quotation mark, which is given no
  escape (`CString.EndsEarlyExactly`).
- The Fletcher sums would stay within their types with blocks of up to 360 words or 21 bytes, one more
  than the program allows itself, and with no longer ones (`Fletcher.LongestBlock32`,
  `Fletcher.LongestBlock16`); and they are those of RFC 1146 except when every word is zero
  (`Fletcher.Fletcher32`).
- The buffer `b64enc` allocates is large enough for exactly the inputs whose length times four fits
  32 bits (`Base64.AllocatedIsEnough`).
- `rr13_reg` hands out an identification without storing it in the request, so a reply carries the
  one that was handed out exactly when the caller had put it there (`RequestReply.RepliesMatch`,
  `RequestReply.AnotherIdentification`).
- A reply whose flags happen to say so ends the delivering thread, since the flags are never cleared
  (`RequestReply.WokenFinds`, `RequestReply.ComesToRest`).
- A reset of the send queue leaves the receiver's framing intact exactly when it finds no packet begun
  (`SendQueue.RunIsReceived`).
- `ilink_prepare_pkt` uses the checksum as the identification of a packet (`Framing.FrameBytes`).

## Model

| member | source | states |
|---|---|---|
| MorrisTraversal.InOrderTraversal | lib13/obj13.c:278-309 | On every finite tree of objects the traversal ends, visits every object once and in order, and leaves every link with its old value. |
| MorrisTraversal.Walk | lib13/obj13.c:287-308 | The loop ends, has visited the in-order sequence, and leaves no thread: every link is the one recorded before it began. |
| MorrisTraversal.FindPredecessor | lib13/obj13.c:294-297 | The inner loop stops at the last object of the left subtree, whether that is still unthreaded or already threaded back. |
| ObjectIndex.Insert | lib13/obj13.c:192-213 | The links represent the old tree with the new one grafted at its place, and only objects of the tree are written. |
| ObjectIndex.Find | lib13/obj13.c:215-227 | The search returns the object the tree prescribes, and reports it found just when there is one. |
| ObjectIndex.StableSortCorrect | lib13/obj13.c:192-213 | The reference used for histories of insertions is sorted, a permutation, and keeps the order of equal ids. |
| ObjectIndex.GraftOrdered | lib13/obj13.c:192-213 | Insertion keeps smaller ids to the left, greater or equal ones to the right, at every node. |
| ObjectIndex.GraftInOrder | lib13/obj13.c:192-213 | Insertion into an ordered tree is stable insertion into its traversal. |
| ObjectIndex.BuildSorts | lib13/obj13.c:192-213 | After any sequence of insertions the tree is ordered and its traversal is the stable sort of what was inserted. |
| ObjectIndex.LookupIsFirst | lib13/obj13.c:215-227 | On an ordered tree a search ends at the first object with that id in traversal order, and fails only when there is none. |
| ObjectIndex.FindsOldest | lib13/obj13.c:192-227 | After any sequence of insertions a search succeeds for exactly the inserted ids and finds the object inserted first among equals. |
| ObjectIndex.InsertAllAndList | lib13/obj13.c:192-309 | Running the insertions and the traversal on the heap lists the stable sort of the objects and leaves the tree as the insertions made it. |
| Calendar.DayOfDate | lib13/day13.c:17-60 | Numbering undoes counting: the date n days after the first has number n, in any calendar of twelve months with leap years. |
| Calendar.DateOfDay | lib13/day13.c:62-138 | Counting undoes numbering: every valid date is reached from the first after as many days as its number. |
| Calendar.DayOrder | lib13/day13.c:17-60 | Day numbers are strictly ordered as the dates are, and different dates have different numbers. |
| Calendar.GregorianClosedForm | lib13/day13.c:17-38 | The closed form, with division rounding down, counts the days of the years before and after 1600 year by year with the Gregorian leap rule. |
| Calendar.JalaliClosedForm | lib13/day13.c:40-60 | The closed form counts the days of the years before and after 979 with leap years at offsets 0, 4, ..., 28 of each cycle of 33. |
| DayCounts.CountGregorianDays | lib13/day13.c:161-172 | For every year the signed sum is the number of the date, but for an error stated in closed form. |
| DayCounts.CountJalaliDays | lib13/day13.c:206-214 | For every year the signed sum is the number of the date, but for an error stated in closed form and for the leap day before month 13. |
| DayCounts.NoErrorSince | lib13/day13.c:161-214 | The errors are zero from the years 1597 and 975 on. |
| DayCounts.GregorianDayNumber | lib13/day13.c:17-38 | In unsigned numbers of 32 or 64 bits, the 32-bit result is the number of the date if and only if the year is not before 1597 or 1501. |
| DayCounts.JalaliDayNumber | lib13/day13.c:40-60 | Zero for a year, month or day that is not positive; otherwise the 32-bit result is the number of the date if and only if the year is not before 979 and no leap day before month 13 is left out. |
| DayNumbers.FindGregorianMonth | lib13/day13.c:93 | The month search, which has no bound of its own, stops within the twelve months at the month the day lies in, and at the first for a day that is not positive. |
| DayNumbers.EarlyGregorianDay | lib13/day13.c:217-245 | What `d13_j2g` gives for a negative number is a day of January, positive for one number in four years, and the right day exactly in the last hundred years of each four hundred. |
| DayNumbers.GregorianFromJalaliDay | lib13/day13.c:62-103 | For every natural number the result is a valid Gregorian date whose number is greater by 79. |
| DayNumbers.JalaliFromGregorianDay | lib13/day13.c:105-138 | The result is a valid Jalali date whose number is smaller by 79; a number below 79 wraps around first. |
| DayNumbers.EarlyJalaliDay | lib13/day13.c:173-193 | What `d13_g2j` gives for a negative number is a day of the first month, positive for one number in four years, and the right day exactly in the last four years of each 33. |
| DayNumbers.JalaliFromJalaliDay | lib13/day13.c:140-149 | The detour through the Gregorian calendar gives a valid Jalali date with the number asked for. |
| DayNumbers.GregorianToJalali | lib13/day13.c:152-196 | Of every year: a date becomes the valid Jalali date of the number counted, or what is made of a negative number. |
| DayNumbers.JalaliToGregorian | lib13/day13.c:198-248 | Of every year: a date becomes the valid Gregorian date of the number counted, or what is made of a negative number. |
| DayNumbers.GregorianCycles | lib13/day13.c:62-103 | The nested cycles of 400, 100, 4 and 1 years add up to the days counted year by year. |
| DayNumbers.JalaliCycles | lib13/day13.c:105-138 | The cycles of 33 and 4 years add up to the days counted year by year, with exactly the leap years of the calendar. |
| DayNumbers.CommonRange | lib13/day13.c:152-196 | The dates with number 79 or more are exactly those from 20 March 1600 on. |
| DayNumbers.ConvertThereAndBack | lib13/day13.c:152-248 | Converting there and back returns every Gregorian date from 1 January 1600 on, through a valid Jalali date exactly from 20 March 1600 on. |
| DayNumbers.ConvertBackAndThere | lib13/day13.c:152-248 | Converting there and back returns every Jalali date from 979/1/1 on. |
| DayNumbers.ConvertInOrder | lib13/day13.c:152-196 | Conversion keeps the order of dates both ways, and takes a day and the next day to a day and the next day. |
| DayNumbers.ConvertBackInOrder | lib13/day13.c:198-248 | The same in the other direction. |
| DayNumbers.GregorianNumberThereAndBack | lib13/day13.c:17-103 | For every natural number the date made of it has it, with the offset, as its number. |
| DayNumbers.GregorianDateThereAndBack | lib13/day13.c:17-103 | Every date of the common range is recovered from its number. |
| DayNumbers.JalaliNumberThereAndBack | lib13/day13.c:40-149 | For every natural number the Jalali date made of it has it as its number. |
| DayNumbers.JalaliDateThereAndBack | lib13/day13.c:40-149 | Every Jalali date is recovered from its number, and the detour and the direct inverse agree. |
| Sha256Block.MajorityRewritten | lib13/sha256.c:87 | The macro F0 is the Maj function of section 4.1.2 of FIPS 180-2. |
| Sha256Block.ChoiceRewritten | lib13/sha256.c:88 | The macro F1 is the Ch function of section 4.1.2 of FIPS 180-2. |
| Sha256Block.BigSigmaBits | lib13/sha256.c:84-85 | Bit by bit, for every word: the macros S2 and S3 add the three bits that section 4.1.2 names, counted round the word. |
| Sha256Block.SmallSigmaBits | lib13/sha256.c:81-82 | The same for S0 and S1, whose third bit is zero beyond the front of the word. |
| Sha256Constants.ConstantsAreCubeRoots | lib13/sha256.c:112-175 | For every round, the constant is the first 32 bits of the fractional part of the cube root of the prime with that many primes before it. |
| Sha256Constants.InitialAreSquareRoots | lib13/sha256.c:46-53 | The eight words of the initial state are those of the square roots of the first eight primes. |
| Sha256Constants.SiftedArePrime | lib13/sha256.c:112-175 | What is left up to 360 when the multiples of the primes below 19 are crossed out are exactly the primes. |
| Sha256Block.RoundStep | lib13/sha256.c:96-101 | One macro call, with the registers renamed instead of moved, is one round of section 6.2.2, whose functions BigSigmaBits gives bit by bit. |
| Sha256Block.EightRounds | lib13/sha256.c:112-175 | Eight calls with rotated names bring every register back to its own name and are eight rounds, with the message schedule extended as needed. |
| Sha256Block.Process | lib13/sha256.c:56-185 | A block changes the state as section 6.2.2 of FIPS 180-2 says, for every state and block; its constants and functions are pinned by ConstantsAreCubeRoots, BigSigmaBits and SmallSigmaBits, and its values by the worked examples. |
| Sha256Stream.CountCarry | lib13/sha256.c:187-220 | The two words with their carry are the length of the message in bytes. |
| Sha256Stream.Context.constructor | lib13/sha256.c:41-54 | A new context stands for the empty message. |
| Sha256Stream.Context.Update | lib13/sha256.c:187-220 | However the bytes fall on the buffer and the blocks, the context stands for the message so far with the input appended. |
| Sha256Stream.Context.Finish | lib13/sha256.c:229-256 | The digest is the padded, block-folded hash of the whole message, below two to the 64 bits. |
| Sha256Stream.ZeroBytesLeast | lib13/sha256.c:222-256 | The padding of the reference is the least one that section 5.1.1 allows. |
| Sha256Stream.PaddingLength | lib13/sha256.c:229-256 | The choice between 56 and 120 makes exactly that padding. |
| Sha256Stream.LengthBytes | lib13/sha256.c:235-240 | The disjunction of the two shifted words and the shifted low word, written out, are the length of the message in bits, most significant byte first. |
| Sha256Stream.HashOnce | lib13/sha256.c:259-265 | The one-shot function is the hash of FIPS 180-2, which has the values of its Appendix B. |
| Sha256Stream.HashPieces | lib13/sha256.c:187-265 | For every way of cutting a message into pieces the digest is that of the whole message. |
| Sha256Examples.AbcDigest | lib13/sha256.c:275-283 | The hash of the three bytes of "abc" is that of Appendix B.1 of FIPS 180-2. |
| Sha256Examples.Abc64 | lib13/sha256.c:112-175 | The working variables after the 64 rounds of that message are those printed there, as they are after every eighth round before. |
| Sha256Examples.AlphabeticalDigest | lib13/sha256.c:275-284 | The hash of the message of two blocks is that of Appendix B.2. |
| Sha256Examples.First64 | lib13/sha256.c:112-175 | The working variables after its first block are those printed there. |
| Sha256Examples.Second64 | lib13/sha256.c:112-175 | And after its second block. |
| DesBits.FinalUndoesInitial | lib13/des.c:213-235 | The final permutation undoes the initial one. |
| DesBits.InitialUndoesFinal | lib13/des.c:213-235 | The initial permutation undoes the final one. |
| DesBits.InitialIsTable | lib13/des.c:213-222 | The exchanges of DES_IP move every bit to the place the table IP of FIPS 46-3 gives it, with both halves rotated by one place. |
| DesBits.FinalIsTable | lib13/des.c:226-235 | DES_FP takes rotated halves through the inverse table as FIPS 46-3 prints it. |
| DesBits.BlockBits | lib13/des.c:195-201 | The bits 1 to 64 of a block are the bits of its bytes, each byte from its most significant bit on. |
| DesKeys.Choice1IsTable | lib13/des.c:261-284 | The exchanges and table lookups are the table PC-1 of FIPS 46-3. |
| DesKeys.EvenChoices | lib13/des.c:297-307 | The masks and shifts of the first word of a subkey are the even rows of the table PC-2. |
| DesKeys.OddChoices | lib13/des.c:309-319 | The masks and shifts of the second word are its odd rows. |
| DesKeys.InStepNext | lib13/des.c:288-295 | A round of the loop takes the program's halves to those of the standard, which are given bit by bit from the unshifted key and the sums of the printed shifts. |
| DesKeys.SubkeysAreStandard | lib13/des.c:256-323 | For every key the 32 words are the sixteen subkeys of FIPS 46-3: PC-1, the printed shifts, PC-2. |
| DesKeys.MainKeySchedule | lib13/des.c:256-323 | The loop writes the sixteen subkeys of FIPS 46-3 to their place in the array and nothing else. |
| DesStandard.RoundIsF | lib13/des.c:239-252 | A round on a rotated half is the function f of FIPS 46-3: the table E, the subkey and eight S-boxes. |
| DesStandard.CipherIsStandard | lib13/des.c:256-375 | Key schedule and cipher together are the DES of FIPS 46-3, defined bit by bit from its tables and shifts, for every key and block and any S-boxes. |
| DesBoxes.FIsCipherFunction | lib13/des.c:25-175 | What the program's eight tables of 64 words give, combined and rotated, is the function f of FIPS 46-3 with its printed S-boxes and its permutation P, for every half and key. |
| DesBoxes.CipherIsDes | lib13/des.c:25-375 | With its own tables the program's cipher is the DES of FIPS 46-3 for every key and block, nothing of the standard being left open. |
| DesStandard.Complementation | lib13/des.c:256-375 | With every bit of key and block inverted the result is inverted, whatever the S-boxes. |
| Des.FeistelInverse | lib13/des.c:239-252 | Any even number of rounds is undone by the rounds in reverse with the halves exchanged, for any S-boxes and any schedule. |
| Des.DesRound | lib13/des.c:239-252 | The macro combines the other half with the round function of this half. |
| Des.SixteenRounds | lib13/des.c:354-369 | The sixteen macro calls with the halves alternating are sixteen rounds of the network. |
| Des.DesCrypt | lib13/des.c:345-375 | A block is loaded, permuted, put through sixteen rounds and stored; CipherIsStandard says that this is FIPS 46-3. |
| Des.CipherInverse | lib13/des.c:345-385 | Under the reversed schedule encryption is undone, for every block. |
| Des.Des3Crypt | lib13/des.c:438-502 | The 48 rounds with exchanged halves between are three passes of the whole cipher: the permutations left out between them would cancel. |
| Des.ThreePasses | lib13/des.c:438-502 | Passes over three schedules in a row are three applications of the cipher. |
| Des.KeyContext.SetKey | lib13/des.c:325-341 | One array holds the subkeys of the key, the other the same with their pairs reversed. |
| Des.KeyContext.Set3Keys | lib13/des.c:413-434 | The interleaved loop leaves the subkeys of the three keys in place, those of the second reversed, and in the other array their exact reversal. |
| Des.KeyContext.Set2Keys | lib13/des.c:389-411 | The same with the first key also used third. |
| Des.EncryptDecryptEncrypt | lib13/des.c:413-507 | The schedule set makes triple DES encrypt, decrypt and encrypt: its middle pass undoes, and is undone by, encryption under the second key. |
| Des.SchedulesMirror | lib13/des.c:413-434 | The 48 pairs of the one array are those of the other in reverse. |
| Des.TripleInverse | lib13/des.c:413-512 | Triple decryption undoes triple encryption for any three schedules, any S-boxes and every block. |
| Des.TripleWithOneKey | lib13/des.c:389-512 | With one key three times, triple DES is DES. |
| Des.EncryptAndDecrypt | lib13/des.c:413-512 | Setting any 24 bytes of key, encrypting and decrypting returns the block. |
| Csv.FieldIsRfc4180 | sqlite/shell.c:596-652 | With a comma, a printed field is one of the grammar of section 2 of RFC 4180 if and only if the value has no bytes but CR, LF and 32 to 126, which are all that grammar can write. |
| Csv.UnquotedExactly | sqlite/shell.c:600-652 | A field is printed as it is if and only if it is not empty and has only the bytes 33, 35 to 38 and 40 to 126 and no separator. |
| Csv.FieldClosed | sqlite/shell.c:623-652 | A printed field never leaves a quotation open and shows no separator or line end outside one. |
| Csv.UnquoteField | sqlite/shell.c:1826-1834 | Dequoting a printed field gives the value, whether it was quoted or not. |
| Csv.QuotedByte | sqlite/shell.c:1826-1834 | In any field that begins with a quotation mark, a further one makes the byte behind it count as it is, and one at the end is dropped. |
| Csv.SplitRow | sqlite/shell.c:1804-1816 | A printed row is split where its fields were joined. |
| Csv.CutRow | sqlite/shell.c:337-378 | A printed row is cut off at its end and not at a line feed within a value. |
| Csv.ImportLines | sqlite/shell.c:337-378 | Rows with an LF or a CR LF behind each, in any mixture, are imported as those rows, and refused as a whole exactly when one has another number of columns. |
| Csv.ImportUnended | sqlite/shell.c:357-364 | The same when the last row has no line end at all. |
| Csv.RoundTrip | sqlite/shell.c:1799-1836 | Importing what CSV mode prints gives the table back, for every table and every separator but the quotation mark, and the line feed where there are several columns. |
| Csv.RoundTripExactly | sqlite/shell.c:623-652 | For every number of columns and every separator byte, all tables of C strings come back if and only if the separator is not the quotation mark, and not the line feed unless there is one column. |
| Csv.EmptiesSplit | sqlite/shell.c:1804-1825 | With the quotation mark as separator, a row of empty strings is refused, for any number of columns. |
| Csv.LettersCut | sqlite/shell.c:337-378 | With the line feed as separator, a row of letters is refused, for two columns or more. |
| CsvProgram.OutputCsv | sqlite/shell.c:623-652 | The loop that resets its index to say that quoting is needed prints the field quoted just when it must be. |
| CsvProgram.PrintTable | sqlite/shell.c:800-812 | The rows are printed with separators between fields and a line feed behind each. |
| CsvProgram.GetLine | sqlite/shell.c:337-378 | Reading in chunks of any growth finds the logical line of what is seen of the file, with quoted line ends inside and the last line end, of one byte or two, taken off; nothing is found only when nothing more is seen. |
| CsvProgram.SeenExactly | sqlite/shell.c:337-378 | What is seen of a file has no zero byte, and is all of the file if and only if the file has none. |
| CsvProgram.ZeroByteHides | sqlite/shell.c:337-378 | A zero byte in a short first line hides what follows it up to and with the line feed, and the next line is read as part of this one. |
| CsvProgram.SplitLine | sqlite/shell.c:1799-1816 | Writing zeros into the line leaves the fields one behind the other, with their starts recorded and all of them counted. |
| CsvProgram.Dequote | sqlite/shell.c:1827-1834 | In place the field becomes its value, the write index staying behind the read index and the rest of the line untouched. |
| CsvProgram.ImportFile | sqlite/shell.c:1799-1846 | The loop reads the rows that what is seen of the file stands for, or reports a wrong number of columns; ImportLines and ImportUnended say which rows those are for printed ones. |
| CsvProgram.PrintAndImport | sqlite/shell.c:1799-1846 | Printing and importing, with the loops and buffers, returns every table of strings without zero bytes. |
| CString.EscapeRoundTrip | sqlite/shell.c:1478-1505 | Resolving the escapes of a string written out gives the string, and nothing dangles. |
| CString.DanglingExactly | sqlite/shell.c:1478-1505 | A string ends within an escape just when it ends in an odd number of backslashes. |
| CString.EscapedIsResolvable | sqlite/shell.c:536-559 | What is written out always ends in an even number of them and has no zero byte. |
| CString.Spelling | sqlite/shell.c:539-557 | Every byte is written as itself exactly when it is visible and no backslash, otherwise as the letter escape C has for it or as three octal digits with its value, and with visible characters only. |
| CString.AllVisible | sqlite/shell.c:536-559 | So is every string, and it is written as it is exactly when it has only such bytes. |
| CString.EndsEarlyExactly | sqlite/shell.c:536-559 | Read as C reads it, what is written ends before its end if and only if the string has a quotation mark. |
| CString.EscapeMeans | sqlite/shell.c:1478-1505 | A backslash before n, t or r stands for that control character, before any other byte but an octal digit for that byte, and takes two bytes. |
| CString.OctalMeans | sqlite/shell.c:1478-1505 | A backslash before one to three octal digits takes all of them and stands for their value modulo 256. |
| CString.OutputCString | sqlite/shell.c:536-559 | The loop writes the escaped string between quotation marks. |
| CString.ResolveBackslashes | sqlite/shell.c:1478-1505 | The read index steps over the terminator if and only if the string ends in an odd number of backslashes; until then the string becomes, in place, what its escapes mean, and nothing behind its old end is touched. |
| CString.LoneBackslash | sqlite/shell.c:1478-1505 | A single backslash is such a string. |
| CString.WriteAndResolve | sqlite/shell.c:536-559 | Writing out and resolving in the buffer gives the string back. |
| Fletcher.LongestBlock32 | lib13/hash13.c:1037-1054 | No sum of any data reaches 32 bits, at any word, if and only if blocks have at most 360 words; the program takes 359. |
| Fletcher.LongestBlock16 | lib13/hash13.c:1056-1073 | No sum of any data reaches 16 bits, at any byte, if and only if blocks have at most 21 bytes; the program takes 20. |
| Fletcher.OnesSumsAre | lib13/hash13.c:1037-1073 | The one's-complement accumulators of RFC 1146, with end-around carry from zero, are the residues in 1..m of the plain sums, and zero exactly as long as every word is zero. |
| Fletcher.FinalSums | lib13/hash13.c:1047-1052 | Folded once after the last block and once more, sums that fit are the residues in 1..m of the plain sums. |
| Fletcher.FletcherSums | lib13/hash13.c:1037-1073 | With reduction put off to the end of a block and sums cut to the width of their type, both are the unique residues in 1..m of the plain sums, for every length. |
| Fletcher.Fletcher32 | lib13/hash13.c:1037-1054 | The result is the pair of accumulators of Appendix II of RFC 1146 if and only if some word is not zero; otherwise it is all ones. |
| Fletcher.Fletcher16 | lib13/hash13.c:1056-1073 | The result is the pair of accumulators of Appendix I of RFC 1146 if and only if some byte is not zero; otherwise it is all ones. |
| Jenkins.MixReversible | lib13/hash13.c:57-65 | Mixing can be undone, so no two states are mixed to the same. |
| Jenkins.FinalReversible | lib13/hash13.c:92-101 | The final mixing can be undone too. |
| Jenkins.NoCollision | lib13/hash13.c:92-101 | Keys of the same length, up to twelve bytes, leave the same state under the same seeds only if they are the same key. |
| JenkinsExamples.Unseeded | lib13/hash13.c:57-101 | "Four score and seven years ago" has the two values that the author of lookup3 gives for it. |
| JenkinsExamples.FirstSeed | lib13/hash13.c:57-101 | The same under 1 as first seed. |
| JenkinsExamples.SecondSeed | lib13/hash13.c:57-101 | The same under 1 as second seed. |
| Jenkins.LastByWords | lib13/hash13.c:262-313 | The masked words of the last piece are its bytes padded with zeros, whatever lies behind them. |
| Jenkins.LastByHalves | lib13/hash13.c:372-412 | The half-word cases add the same. |
| Jenkins.LastByBytes | lib13/hash13.c:437-465 | The fall-through cases add the same. |
| Jenkins.HashLittle | lib13/hash13.c:224-470 | The value depends only on the bytes of the key and the seed, not on byte order, alignment or what lies behind the key. |
| Jenkins.HashLittle2 | lib13/hash13.c:482-741 | Two values of the same hashing; with a zero second seed the first is that of the single hash. |
| Jenkins.HashWord | lib13/hash13.c:116-149 | Hashing words is hashing their little-endian bytes. |
| Jenkins.HashWord2 | lib13/hash13.c:159-195 | The same for two values. |
| LinkedFifo.Fifo.Append | infolink/ilink_pkt.c:104-112 | Linking a node behind the last, or as the first of an empty list, appends to the contents and keeps the count. |
| LinkedFifo.Fifo.RemoveFirst | infolink/ilink_io.c:786-792 | Unlinking the first node removes the first element; of an emptied list the last link no longer matters. |
| Framing.HeaderBack | infolink/ilink_pkt.c:5-25 | Unpacking a packed header gives it back, whatever follows it. |
| Framing.FrameBytes | infolink/ilink_pkt.c:5-102 | Of the bytes of a packet the first two are the type, and three times four the identification, the length and the checksum, the most significant first; identification and checksum are that of the data, or zero where there are none or they are not to be checked; then come the data. |
| Framing.PartIsKept | infolink/ilink_pkt.c:39-116 | No beginning of a packet can be taken for a packet. |
| Framing.ReceiveFrames | infolink/ilink_pkt.c:39-116 | Packets put end to end are cut apart where they were joined, each with its data and a header that has its type, length and checksum. |
| Framing.ReceiveInjective | infolink/ilink_pkt.c:118-156 | Different streams are received differently: a receiver that cuts by the headers loses nothing of a stream. |
| SendQueue.Link.Prepare | infolink/ilink_pkt.c:39-116 | A packet with the data, behind a header that describes them or what lay in its place, goes to the end of the queue, or nothing changes when there is no memory; the count follows. |
| SendQueue.Link.Send | infolink/ilink_io.c:650-801 | The head advances by what the socket took, and the answer says empty, interrupted, disconnected, timed out, part, end with more waiting, or end of all. |
| SendQueue.Link.Reset | infolink/ilink_io.c:833-850 | The queue is emptied and nothing more is written. |
| SendQueue.RunAccounts | infolink/ilink_io.c:765-850 | At every point of every run of prepares, sends and resets, the packets whose end was announced are on the wire, with what resets cut off between them, and the others kept are queued in order, only the first begun. |
| SendQueue.RunConserves | infolink/ilink_io.c:765-850 | What was written followed by what is left to write is all packets kept, in order, if and only if no reset has lost anything; the length of the queue is those kept less those ended. |
| SendQueue.LostExactly | infolink/ilink_io.c:833-850 | Bytes are lost if and only if a reset finds the first packet begun. |
| SendQueue.AllKept | infolink/ilink_io.c:765-799 | Without a reset the packets kept are all that were accepted. |
| SendQueue.DoneAndNext | infolink/ilink_io.c:777-799 | The end of all is announced just when sending ends the last packet kept, and the end with more waiting just when a packet ended and others wait. |
| SendQueue.OtherAnswers | infolink/ilink_io.c:650-775 | At every point of every run, the answers empty, timed out, interrupted, failed and disconnected are given just when nothing kept is left, or select ran out, or either call was interrupted, or select failed, or send failed, and then nothing has changed; the plain one just when bytes were written and their packet has not ended. |
| SendQueue.PrepareAnswers | infolink/ilink_pkt.c:61-74 | A packet is refused just when there is no memory, and otherwise kept. |
| SendQueue.RunIsReceived | infolink/ilink_io.c:650-850 | At every point of every run a receiver that cuts by the headers has exactly the messages whose end was announced, each with a header of its type, length and checksum, and the beginning of the next, if and only if no reset has found a packet begun. |
| RequestReply.Pipeline.constructor | lib13/rr13.c:296-321 | The pipeline starts with empty queues and semaphores at zero. |
| RequestReply.Pipeline.Register | lib13/rr13.c:536-618 | An accepted request goes to the end of the queue and the semaphore is posted; a refused one changes nothing, though it may have been given an identification. |
| RequestReply.Pipeline.TakeRequest | lib13/rr13.c:7-28 | A server that was woken always gets a request, the first. |
| RequestReply.Pipeline.Answer | lib13/rr13.c:118-129 | The reply appended has what the procedure left in it, and the callback, context and identification of the request; without memory there is none. |
| RequestReply.Pipeline.RegisterReply | lib13/rr13.c:48-72 | The reply goes to the end of its queue and the semaphore is posted. |
| RequestReply.Pipeline.TakeReply | lib13/rr13.c:30-46 | A deliverer that was woken always gets a reply, the first. |
| RequestReply.RunKeepsOrder | lib13/rr13.c:7-154 | In every interleaving, served and queued requests are those registered in order, delivered and queued replies are those of the served requests in order, and each semaphore counts its queue but for a thread between the two. |
| RequestReply.WokenFinds | lib13/rr13.c:92-247 | In every interleaving a woken thread finds something, and the deliverer exits only over a reply in which a procedure or its memory left the exit flag. |
| RequestReply.DeliveredAre | lib13/rr13.c:118-129 | In every interleaving, also where memory was missing, the k-th reply delivered is the one to the k-th request that had memory for a reply: the contents and the exit flag are those the procedure left, the other fields those of the request. |
| RequestReply.RepliesMatch | lib13/rr13.c:118-129 | In every interleaving the k-th reply delivered carries the identification, callback and context of the k-th request registered and the contents its procedure left, as long as there was memory for replies; and so the identification handed out if and only if the caller had put that into the request. |
| RequestReply.AnotherIdentification | lib13/rr13.c:566-596 | A run in which the identification handed out and that of the reply differ. |
| RequestReply.SomebodyCan | lib13/rr13.c:7-154 | As long as anything is left to do, some thread can take a step. |
| RequestReply.ComesToRest | lib13/rr13.c:7-251 | Without new requests the threads come to rest within a number of steps known beforehand, and then every request has been served and every reply up to the first with the exit flag delivered. |
| Memmem.SumRolls | lib13/mem13.c:76-78 | Taking the first byte off and the next on gives the sum of the next window. |
| Memmem.Search | lib13/mem13.c:43-82 | The result is the first place at which the needle occurs, and there is none just when it occurs nowhere, also for an empty or too long needle and whatever is read behind the haystack. |
| Base64.BytesBack | lib13/base64.c:104-126 | The shifts and masks lose no bit: three bytes come back from their four sextets, and padded sextets have no bits to spare. |
| Base64.SameBits | lib13/base64.c:104-126 | The 24 bits of three bytes are those of their four sextets, in the same order. |
| Base64.RoundTrip | lib13/base64.c:96-135 | A decoder after section 3 of RFC 3548 recovers every input from its text, which has four characters for every three bytes begun. |
| Base64.OnlyTheEncoding | lib13/base64.c:96-135 | No other text is decoded to that input. |
| Base64.EncodeInto | lib13/base64.c:96-135 | The text and the character that ends it are written, and nothing behind them. |
| Base64.AllocatedIsEnough | lib13/base64.c:143 | They fit the memory allocated just when four times the length is a 32-bit number. |
| Base64.Encode | lib13/base64.c:138-154 | The caller's buffer or a fresh one holds the text, unless the fresh one is overrun, which is if and only if four times the length is no 32-bit number; nothing is returned only when there was no memory. |

## Left out

- obj13_bst_delete_node and the region locks of lib13/obj13.c: deletion assigns only its local root, and the range test does not exclude what it is meant to.
- MorrisTraversal.InOrderTraversal: the callback is the order of visits; one that changes links during the traversal is not modelled.
- ObjectIndex.Insert: a failing allocation of the node is not modelled; nodes arrive constructed.
- DayNumbers.GregorianToJalali: the three-element output array is a date value, and the overflow of int for years millions away is not modelled; a month above 13 reads behind the month table.
- DayNumbers.JalaliToGregorian: the same.
- DayCounts.GregorianDayNumber: a month below 1 or above 13, which reads behind the month table, is not modelled.
- DayNumbers.JalaliFromGregorianDay: the year is not cut to an int.
- The string formatting and the time functions of lib13/day13.c.
- Sha256Stream.Context.Update: the input is a sequence, so that aliasing between input and context is not captured.
- DesStandard.CipherIsStandard: its S-boxes are any; DesBoxes has those of the program and of the standard.
- Sha256Examples.AlphabeticalDigest: the third test vector of the source, a million letters, is not worked out.
- AES, XTEA, RC4, crc32 and hashbig: large tables, or easier members beside the ones modelled.
- Csv.RoundTrip: null values, which print as the null text, separators of several characters, which the source compares at the start of the field, and the empty separator, which the import refuses, are not modelled.
- CsvProgram.ImportFile: the database, the line number in the message and a failing allocation are not modelled.
- CString.ResolveBackslashes: what the loop does behind the terminator depends on what lies there and is not modelled; the method says that it would go there, and stops.
- CString.OutputCString: isprint is that of the C locale, and bytes above 127 are taken as not printable.
- Jenkins.HashLittle: memory must be readable up to the next word boundary when the key is word-aligned, as the source notes; the variant built for memory checkers is not modelled.
- Memmem.Search: signed overflow of the sums wraps around.
- Base64.Encode: what is written over the end of a buffer that is too small is not modelled; the method says that it would be, and stops.
- SendQueue.Link.Prepare: the cipher is none; a packet has fewer than 2^32 bytes; the checksum function is a parameter.
- SendQueue.Link.Send: the remaining time that select leaves and the callback after a packet are not modelled.
- The receive path of infolink: it continues with an unset pointer and drops bytes behind the first packet of a chunk.
- RequestReply.Pipeline.Register: pausing, the bitmap of identifications and the memory pools are not modelled; that an identification or memory is missing is a parameter.
- RequestReply.RunKeepsOrder: pause, resume, cancel, checkout and shutdown are not modelled, since they move nodes without their counts; of the flags of a reply only the one that ends the deliverer is.
- RequestReply.Pipeline.constructor: the counts of the queues start at zero here; the source sets them with the first element.
- acc13, db13, accon: their meaning is in SQL text; sockets, threads, consoles and the ddlus calculator are plumbing.
