# Verification of the LAGO acquisition software

This project models the data acquisition programs of the LAGO ecosystem for the Red Pitaya and proves
what they promise about the data that passes through them. `dafny verify dfyconfig.toml` checks it.

## What is modelled

**The byte stream of lago_test** (StreamSpec, StreamReader). Blocks of 16384 bytes go into a circular
buffer of 65536; the reader looks for four bytes 0xFF, cuts what follows into big-endian words, keeps the
last 1 to 4 bytes of each block for the next, and rebases its counters. `StreamSpec.Decoded` says in one
line what should come out of a stream; the class `Reader`, with the program's own counters, produces
exactly that, for any number of calls.

The scan counts 0xFF bytes in a variable of the call, so a marker that lies across the boundary of what two
calls look at is passed over, and words behind it are lost. The lemmas `DecodedFromFirstMarkerIff` and
`StraddlingMarkerMissed` give the exact condition and an example.

**The words** (WordFormat, WordMachine, Clock, FrontEnd). Each word changes the sums for the metadata file,
the GPS position, the clock and the printed lines. The class `Machine` has the program's globals as fields and
is proved against functions on `State`. `Ledger` is the same run with lists in place of sums: which trigger
belongs to which second of which file, which pulse and which absent counter value to which file.
`MachineRefinesLedger` shows that the sums, averages and deviations are those of the lists;
`Conservation` shows that the lists lose and repeat nothing of the stream, `Attribution` which second and
which file each entry is in by its place in the stream; `Accounts` draws the conclusions for the metadata, and
`Printout` reads the printed lines directly from the stream. `Acquisition` joins both parts: the results for the blocks of every run of the
acquisition loop, and for the words that the front end sent in them.

The program counts the triggers of the last second before a whole hour in the new file, because it changes
the file before it adds the second; it computes but does not print class 0 and channel 0. The model does the
same, and a report holds what is computed.

**The memory ring of lago_v1_2** (MemoryRing, RingFormat). The hardware writes a ring of 8 MiB; an interrupt
samples its counter of 8-byte words; the program reads 4-byte words from where it stopped. Writer, sampler
and reader are steps of one state machine, and a read is not atomic. The assumption is in `Enabled`: the
writer overwrites no unread word, and at a sample less than a whole ring is unread. `TwoCallsFetchLag` says
what happens without it. The counter has 20 bits (the address width of the writer core).
The class `MemoryReader` is the program, and each of its calls is a run of the state machine.

**The half-buffer protocol** of the recorder and the server (HalfBuffer). Writer, copying child, pipe and
sending parent are steps of one state machine, word by word. The two assumptions on timing are in `Enabled`.
Each turn of a loop of the class `Recorder` is a run of the state machine.

**Smaller parts**: the .bit container (BitFile), integers as text (Numerals), the BMP180 compensation
(Bmp180, PressureLaws), NMEA sentences and the location loop (Nmea, TextNumbers, Sentences, Gps), the DMA
slot table (SlotTable).

The compensated temperature does not always rise with the raw reading: `MonotoneIff` says when it does. Nor
does the pressure, between the two branches of its quotient: `QuotientOrder` and `PressureFalls`. The release
of a slot has a guard that lets the id 16 and negative ids pass: `OutOfBoundsIff`.

## Conventions

Shifts and masks of unsigned words are written as division and remainder. Counts and sums are mathematical
integers: the long sums and the int bin counter of the program are assumed not to overflow. A calendar date
is a day number; `timegm` and `gmtime` are exact on days of 86400 seconds. Real arithmetic is exact. The
data file, the metadata file and the device answer every request; a failed channel read ends the program.
The negation of the smallest integer in `itoa` is taken to wrap around.

The code computes `b2 * (B6 * B6) >> 12` in that order, where section 3.5 of the BMP180 data sheet shifts
the square first, and truncates X2, which the data sheet's example rounds; the model follows the code.

## Model

| member | source | states |
|---|---|---|
| WordFormat.DecodeEncode | projects/lago_test/lago.c:643-771 | every kind of 32-bit word (samples, triggers, counters, clock, coordinates, tagged values) gives back all its fields when decoded |
| WordFormat.DecodeEncodeAll | projects/lago_test/lago.c:643-771 | the same for a whole stream of words, in order |
| WordFormat.LayoutOfData | projects/lago_test/lago.c:645-671 | three samples of 10 bits from the highest down, a 3-bit condition above 27 bits of clock, 30 bits of counter |
| WordFormat.LayoutOfTagged | projects/lago_test/lago.c:677-757 | the bit positions of frequency, readings, time, coordinate and unknown words |
| WordFormat.LayoutOfBaselines | projects/lago_test/lago.c:759-767 | three times 9 bits from the highest down |
| Words.BigEndianIs | projects/lago_test/lago.c:643 | the first byte of a word is the most significant |
| StreamSpec.DecodedFromFirstMarkerIff | projects/lago_test/lago.c:621-647 | after any number of blocks, the words decoded are those behind the first four consecutive 0xFF bytes of the stream if and only if these end at a position whose remainder by 16384 is at most 16380; otherwise they are fewer |
| StreamSpec.StraddlingMarkerMissed | projects/lago_test/lago.c:621-631 | a concrete stream with one marker across the boundary of two calls, of which nothing is ever decoded |
| StreamSpec.DecodedGrows | projects/lago_test/lago.c:613-647 | bytes that come later never change, drop or reorder words decoded before |
| StreamSpec.WordsReceived | projects/lago_test/lago.c:642-644 | words sent big-endian after a marker that is found are received in order, and only the last one can be kept back |
| FrontEnd.FieldsReceived | projects/lago_test/lago.c:621-771 | words of any kind, encoded and sent after the first marker that is found, are decoded with all their fields, once and in order, and nothing else when at most 4 bytes follow |
| StreamReader.RebaseBound | projects/lago_test/lago.c:613-640 | one rebasing takes the bound on bufwrite from one call to the next: a multiple of 16384, at most 2*65536+32768 within the call and 2*65536+16384 after it |
| StreamReader.ScanOne | projects/lago_test/lago.c:622-630 | one more byte of the scan: the run of 0xFF goes on, starts again, or is the first marker of the stream |
| StreamReader.AllWordsDecoded | projects/lago_test/lago.c:642-644 | with 1 to 4 bytes left, the words decoded are exactly those of the specification |
| StreamReader.Reader.Receive | projects/lago_test/lago.c:613-617 | a block fits before the end of the ring and overwrites no unread byte |
| StreamReader.Reader.Synchronise | projects/lago_test/lago.c:621-631 | after the scan the reader is behind the first marker, or at the last four bytes and there is none |
| StreamReader.Reader.Rebase | projects/lago_test/lago.c:637-640 | both ring indices, their difference and the position in the stream stay what they were |
| StreamReader.Reader.DecodeWords | projects/lago_test/lago.c:642-647 | decodes all words that leave a byte behind them and passes each to the word machine once |
| StreamReader.Reader.ReadBuffer | projects/lago_test/lago.c:532-780 | after every call the words processed are exactly the cutting of all bytes received since the clean call, and bufwrite is a multiple of 16384 and at most 2*65536+16384; a block leaves 1 to 4 bytes held back; without a block nothing changes |
| StreamReader.Reader.Clean | projects/lago_test/lago.c:552-557 | 32768 bytes are skipped unscanned and the rates of the second start at 0 |
| StreamReader.Reader.Block | projects/lago_test/lago.c:613-647 | whatever a block holds, the words processed before stay and all bytes received count |
| StreamReader.Reader.ScanByte | projects/lago_test/lago.c:623-630 | one byte moves the scan by one, and it stops only at the first marker of the stream |
| StreamReader.Reader.NextWord | projects/lago_test/lago.c:643 | four ring positions modulo its size are the word at the reader's place in the stream |
| StreamReader.Reader.Acquire | projects/lago_test/lago.c:305-313 | the same, bound included, for the acquisition loop over any number of calls |
| WordMachine.Machine.constructor | projects/lago_test/lago.c:561-611 | the state before the first word, with the files of the first hour open |
| WordMachine.Machine.Process | projects/lago_test/lago.c:645-776 | one word changes sums, clock, position, printed lines and files as the specification says |
| WordMachine.Machine.Hear | projects/lago_test/lago.c:642-778 | after any number of words the globals are what the specification makes of all of them |
| WordMachine.Machine.NewFile | projects/lago_test/lago.c:389-455 | averages and deviations are reported, the per-file sums (not the last counter, nor the current second) are reset, the date is normalised and names the new file; with output to the terminal nothing changes |
| WordMachine.Machine.OnSample | projects/lago_test/lago.c:649-661 | only the first sample after a trigger enters the baselines; which line a sample prints is stated by Printout.LineOfWord |
| WordMachine.Machine.OnCounter | projects/lago_test/lago.c:669-675 | a positive gap after a counter that is not 0 is added to the losses |
| WordMachine.Machine.OnSecond | projects/lago_test/lago.c:690-733 | first the clock and, on a new hour, the file; then the counts of the second that ended enter the sums |
| WordMachine.Machine.CountSecond | projects/lago_test/lago.c:728-732 | each class adds its count and its square to the sums and starts again at 0 |
| WordMachine.Machine.OnCoordinate | projects/lago_test/lago.c:735-757 | the parts of a coordinate word change the stored halves and coordinates, and print after the last part |
| WordMachine.Machine.OnTrigger | projects/lago_test/lago.c:663-667 | a trigger counts in its class and starts a new pulse |
| WordMachine.Machine.OnTagged | projects/lago_test/lago.c:678-774 | every other tag changes only its own value and prints its own line, a D1 word also starts the pressure calculation from both readings, and an unknown tag prints an error |
| WordMachine.Machine.CountOneSecond | projects/lago_test/lago.c:691-699 | without GPS the date is normalised, or the next hour's file opened, never both |
| WordMachine.Machine.FollowGps | projects/lago_test/lago.c:700-713 | with GPS a smaller hour means the next day, and a different hour opens a file before minute and second are taken over |
| Statistics.VarianceFromSums | projects/lago_test/lago.c:404-423 | mean of squares minus square of the mean is the variance by its definition, hence not negative |
| Ledger.MachineRefinesLedger | projects/lago_test/lago.c:389-776 | after every run the program's sums are the sums of explicit lists, file by file, and every closed report holds the exact averages and variances of its file's lists |
| Ledger.ReportIsSummary | projects/lago_test/lago.c:394-438 | the numbers of a report, from the running sums, are mean, variance and counts of the lists |
| Conservation.TriggersKept | projects/lago_test/lago.c:663-667 | every trigger word is in exactly one second of one file, or pending, in order |
| Conservation.SecondsKept | projects/lago_test/lago.c:714-732 | every pulse-per-second word ends exactly one second of one file |
| Conservation.ClockKept | projects/lago_test/lago.c:690-716 | the clock depends on the pulse-per-second words alone, and a report is closed for each file that it opens |
| Conservation.PulsesKept | projects/lago_test/lago.c:652-667 | over all files the baselines come from exactly the samples that follow a trigger, or the start, with no sample in between |
| Conservation.LostKept | projects/lago_test/lago.c:669-675 | over all files, wherever they change, the values counted as lost are the gaps of the whole counter stream |
| Conservation.LossTelescopes | projects/lago_test/lago.c:670-674 | for positive counters the number of losses is last - first + 1 - count if and only if they increase strictly, and never less |
| Conservation.LostIsAbsent | projects/lago_test/lago.c:670-674 | for strictly increasing positive counters a value is counted as lost if and only if it lies between first and last and is absent |
| Conservation.LostOnce | projects/lago_test/lago.c:670-674 | no absent value is counted twice |
| Attribution.PendingHolds | projects/lago_test/lago.c:663-667 | the current second holds exactly the triggers since the last pulse per second |
| Attribution.SecondHolds | projects/lago_test/lago.c:728-732 | the second that a pulse per second ends holds exactly the triggers between the pulse before and this one |
| Attribution.FileHolds | projects/lago_test/lago.c:389-442 | each closed file holds exactly the first samples and the gaps between the word that opened it and the word that closed it, and as many seconds as pulses per second, the second that its opening word ends included |
| Attribution.ReportSays | projects/lago_test/lago.c:397-438 | each number of the metadata is that of its own file: seconds, pulses, losses, their fraction, averages and variances per class and channel |
| Attribution.DaqTimes | projects/lago_test/lago.c:434-439 | without GPS the metadata of every file but the first says 3600 seconds, that of the first those up to the first whole hour, and one file is closed for each hour |
| Accounts.TriggersConserved | projects/lago_test/lago.c:403-412 | per class, printed averages times their seconds, plus the open file's sum, plus the current second equal the trigger words received, at every point of every run |
| Accounts.BaselinesConserved | projects/lago_test/lago.c:422-432 | per channel, printed averages times their pulses plus the open file's sum equal the sum of all first samples |
| Accounts.LossesConserved | projects/lago_test/lago.c:434-440 | reported losses plus the open file's losses are the size of all gaps; a gap across a change of file counts once |
| Accounts.LossesTelescope | projects/lago_test/lago.c:434-440 | for positive counters that total is last - first + 1 - count if and only if they increase strictly |
| Accounts.DeviationsAreVariances | projects/lago_test/lago.c:401-423 | at every file close both square roots have an argument that is not negative |
| Accounts.TimeWithoutGps | projects/lago_test/lago.c:691-699 | without GPS, after n pulse-per-second words fileTime is start + n and a file was opened exactly at each multiple of 3600 passed |
| Accounts.TimeWithGps | projects/lago_test/lago.c:700-716 | with GPS, if the hour moves on by 0 to 23 between words, fileTime is the true time |
| Accounts.FilesWithGps | projects/lago_test/lago.c:700-709 | and exactly one file is opened for each change of the hour, named after the new hour |
| Acquisition.BlocksAccounted | projects/lago_test/lago.c:305-313 | for the blocks of every run of the acquisition loop, reports, open file and current second together account for all triggers, baselines and losses, and all root arguments are not negative |
| Acquisition.SentAccounted | projects/lago_test/lago.c:305-313 | when the blocks carry encoded words behind a marker that is found, these accounts are those of the words sent |
| Acquisition.Acquire | projects/lago_test/lago.c:304-313 | the clean call and the loop leave the globals in the state that these accounts are about |
| Clock.FalseGpsClock | projects/lago_v1_2/src/lago.c:889-916 | counting seconds, with the irregular step at the end of an hour, gives start + n |
| Clock.FalseGpsFiles | projects/lago_v1_2/src/lago.c:889-893 | files open exactly on the whole hours |
| Clock.GpsTickExact | projects/lago_v1_2/src/lago.c:900-916 | one word rebuilds the true date if and only if the absolute hour moved on by 0 to 23 |
| Clock.GpsTickOpens | projects/lago_v1_2/src/lago.c:901-909 | such a word opens a file exactly when the hour changed |
| Clock.GpsDates | projects/lago_v1_2/src/lago.c:900-916 | over any run of such words the date is the true one |
| Clock.GpsFiles | projects/lago_v1_2/src/lago.c:901-909 | over any run of such words one file is opened for each change of the hour |
| Positions.CoordinateReceived | projects/lago_test/lago.c:735-754 | a signed 32-bit coordinate sent as 24 and 8 bits is recovered, over 3600000 for latitude and longitude and over 100 for the height, whatever other words come in between and whatever the unused bits are |
| Printout.LinesPrinted | projects/lago_test/lago.c:645-772 | after every run the printed lines are those of the words, in stream order, each computed from the words before it alone |
| Printout.LineOfWord | projects/lago_test/lago.c:651-773 | word k prints its line, with its own fields in their order, right behind what the words before it printed: samples, triggers, counters, frequency, readings, times and errors |
| Printout.TimeLineWithoutGps | projects/lago_test/lago.c:715-719 | without GPS the n-th pulse per second prints the time start + n |
| Printout.TimeLineWithGps | projects/lago_test/lago.c:715-719 | with GPS words that carry the true times each prints its true time |
| Printout.CoordinateShown | projects/lago_test/lago.c:735-754 | a coordinate sent in two words is the latest one until the next is complete, whatever other words come between and after |
| Printout.LocationPrinted | projects/lago_test/lago.c:735-754 | the six words of a position print latitude and longitude over 3600000 and height over 100 |
| Printout.BaselinePrinted | projects/lago_test/lago.c:759-768 | a baseline sent as upper part and lower nine bits is printed over 256, whatever comes in between |
| RingFormat.SamplesRoundTrip | projects/lago_v1_2/src/lago.c:846-851 | a pair of signed 14-bit samples is printed as it was |
| RingFormat.LowHalfFirst | projects/lago_v1_2/src/lago.c:846-851 | the first number printed is the sample in the low half of the word |
| RingFormat.SamplesDelivered | projects/lago_v1_2/src/lago.c:845-851 | in every interleaving of writer, sampler and reader without overrun, the sample pairs printed are the first pairs written, once and in order |
| RingFormat.PrintedSampleExact | projects/lago_v1_2/src/lago.c:851 | the shift-and-add sign extension is right if and only if the upper two bits of the half are clear |
| RingFormat.Signed24RoundTrip | projects/lago_v1_2/src/lago.c:943-953 | the 24 bits of a coordinate are sign-extended to the number sent, whatever the tag |
| RingFormat.CoordinateRoundTrip | projects/lago_v1_2/src/lago.c:942-953 | a coordinate between -128 and 128, divided by 65536 again, comes back rounded down to a multiple of 1/65536 |
| RingFormat.RateRoundTrip | projects/lago_v1_2/src/lago.c:974-981 | 24-bit rates come back without sign extension; with it only those below 2^23 would |
| MemoryRing.CallKeepsCurrent | projects/lago_v1_2/src/lago.c:823-839 | current stays 4 modulo 8, never equals pos, and the two range branches are exhaustive |
| MemoryRing.TwoCallsCatchUp | projects/lago_v1_2/src/lago.c:831-845 | a call ends caught up or at the ring's end, and a second call with the same pos always catches up |
| MemoryRing.TwoCallsFetchLag | projects/lago_v1_2/src/lago.c:823-845 | two calls read the lag modulo the ring: everything if and only if the lag is less than the ring |
| MemoryRing.DeliveredInOrder | projects/lago_v1_2/src/lago.c:207-214 | in every interleaving of writer, sampler and reader without overrun, the words read are the first words ever written, once and in order |
| MemoryRing.CallReturns | projects/lago_v1_2/src/lago.c:839-992 | when a call returns everything sampled has been read or the reader is at the ring's end |
| MemoryRing.CallReadsHistory | projects/lago_v1_2/src/lago.c:831-849 | what one call reads from memory is the next part of the writer's history |
| MemoryRing.CallDelivers | projects/lago_v1_2/src/lago.c:831-992 | a run of the steps of one call keeps the invariant and adds exactly the span's memory to the output, which is the beginning of the history |
| MemoryRing.SampleThenTwoCalls | projects/lago_v1_2/src/lago.c:248-285 | after a sample and any two complete calls with no write in between, everything ever written has been handed on |
| MemoryRing.MemoryReader.WaitForInterrupt | projects/lago_v1_2/src/lago.c:248-285 | after an interrupt position is the writer's counter and everything written so far counts as sampled, after a time-out nothing has moved; either way it is a step of the state machine, or none, and the invariant is kept |
| MemoryRing.MemoryReader.ReadBuffer | projects/lago_v1_2/src/lago.c:823-992 | a call is a run of the state machine: enter, one read for each word of the span, leave; the output grows by that part of memory, stays the beginning of the writer's history, and the reader is caught up or at the ring's end |
| MemoryRing.MemoryReader.Fetch | projects/lago_v1_2/src/lago.c:845-990 | each turn of the loop is one read of the state machine, and at its end the call has returned with current at the last address |
| MemoryRing.MemoryReader.TwoTurns | projects/lago_v1_2/src/lago.c:207-214 | two turns of the loop, the first with an interrupt, hand on everything written before |
| HalfBuffer.ReadyIff | projects/dac_player/adc-recorder.c:73-76 | with the writer at most two halves ahead, the polled condition holds if and only if half-lap k is complete (for even k, one word later), and offset and limit follow the parity of k |
| HalfBuffer.HalvesInOrder | projects/dac_player/adc-recorder.c:67-117 | in every interleaving under the two timing assumptions the output is the writer's history, in whole half-laps between sends |
| HalfBuffer.CopyStartsComplete | projects/dac_player/adc-recorder.c:73-78 | copy k starts only when half-lap k is complete, and takes half k mod 2 |
| HalfBuffer.CopyTurn | projects/dac_player/adc-recorder.c:73-78 | polling a complete half, copying its words one by one and sending the token leads to the state after a whole copy, with half-lap k in half k mod 2 |
| HalfBuffer.SendTurn | projects/dac_player/adc-recorder.c:110-117 | taking a token and sending the words of a half one by one leads to the state after a whole send |
| HalfBuffer.Recorder.Poll | projects/adc_test/server/adc-test-server.c:66-79 | a turn of the child is a run of the state machine: a poll and, if the half is complete, the copy word by word and one token; the half-lap is then in its half of the buffer |
| HalfBuffer.Recorder.CopyHalf | projects/dac_player/adc-recorder.c:77 | one half becomes that of the memory, the other half keeps its contents |
| HalfBuffer.Recorder.SendHalf | projects/adc_test/server/adc-test-server.c:130-137 | a turn of the parent is a run of the state machine: take the token, send the words, end; the output is then the first half-laps of the history, one more than before |
| HalfBuffer.Recorder.CopyAndSend | projects/dac_player/adc-recorder.c:67-117 | with an empty pipe and a complete half-lap, one turn of each process writes out exactly that half-lap |
| BitFile.ParsePrint | scripts/fpga-bit-to-bin.py:30-64 | for any name, any fields whose keys are not 'e' and any payload, parsing gives the payload of the first 'e' field |
| BitFile.ParseIff | scripts/fpga-bit-to-bin.py:30-64 | a file is accepted if and only if it is such a container, possibly cut short within its data |
| BitFile.WrongStart | scripts/fpga-bit-to-bin.py:30-32 | the header error is raised exactly when the first two bytes, high byte first, are not 9 |
| BitFile.WrongKey | scripts/fpga-bit-to-bin.py:34-37 | the error of the second header is raised exactly when the field behind nine bytes is not "a"; one of which the file holds no more passes |
| BitFile.CutShort | scripts/fpga-bit-to-bin.py:45-64 | a file that ends after whole fields raises the end-of-file error, one that ends within a length the error of a short number |
| BitFile.FlippedTwice | scripts/fpga-bit-to-bin.py:9-16 | the flip keeps the length and is its own inverse |
| BitFile.FlippedGroup | scripts/fpga-bit-to-bin.py:9-16 | each group of four bytes comes out last byte first |
| BitFile.FlipOnly | scripts/fpga-bit-to-bin.py:52-56 | the option to flip changes the payload written and nothing else; it is refused exactly when the last group is short |
| BitFile.Flip32 | scripts/fpga-bit-to-bin.py:9-16 | unpacking little-endian and packing big-endian reverses each group of four bytes; a short last group is an error |
| BitFile.BitReader.Convert | scripts/fpga-bit-to-bin.py:30-64 | the loop over the file cursor gives what the specification says of the file, errors included |
| BitFile.BitReader.ConvertFields | scripts/fpga-bit-to-bin.py:45-64 | the field loop ends, because every turn reads, with what the specification says of the bytes left |
| Numerals.DecimalMeansValue | apps/gpio/basic_design_zynq_hw_exerciser.c:662-681 | in radix 10 the text is a minus sign if need be and a numeral that evaluates to the value |
| Numerals.TextMeansUnsigned | apps/gpio/basic_design_zynq_hw_exerciser.c:664-681 | in other radices it is a numeral of the value modulo 2^32 |
| Numerals.NumeralIsDigits | apps/gpio/basic_design_zynq_hw_exerciser.c:665-679 | the text is the only numeral without a leading zero for its value |
| Numerals.StoreDigits | apps/gpio/basic_design_zynq_hw_exerciser.c:665-670 | the loop ends and never leaves the 33 characters of the scratch array |
| Numerals.Itoa | apps/gpio/basic_design_zynq_hw_exerciser.c:651-682 | the text is that of the specification, and there is none exactly for a radix below 2 or above 36 |
| Bmp180.MonotoneIff | projects/lago_v1_2/src/bmp180.c:331-334 | for 0 <= ac5 < 2^16 and mc <= 0, no higher raw reading in a range gives a lower temperature if and only if X1 + md is positive at its lower end, or negative at its upper end, or mc is 0 |
| Bmp180.TemperatureMonotone | projects/lago_v1_2/src/bmp180.c:331-334 | one half of that: with a positive divisor at the lower reading, a higher raw reading never gives a lower temperature |
| Bmp180.SignChangeCools | projects/lago_v1_2/src/bmp180.c:331-334 | the other half: wherever the divisor changes sign there are two readings, the higher one with the lower temperature |
| Bmp180.HigherReadingColder | projects/lago_v1_2/src/bmp180.c:331-334 | a calibration and two readings where the divisor changes sign and the order is lost |
| PressureLaws.TemperatureClose | projects/lago_v1_2/src/bmp180.c:331-334 | for every calibration and reading the temperature is a sixteenth of B5 to the nearest, B5 is X1 + mc * 2048 / (X1 + md) truncated, and X1 the product over 32768 rounded down |
| Bmp180.QuotientClose | projects/lago_v1_2/src/bmp180.c:116-120 | the two-branch quotient is never above 2*B7/B4 and less than 2 below it |
| Bmp180.QuotientFits | projects/lago_v1_2/src/bmp180.c:116-120 | no intermediate value exceeds 32 unsigned bits if and only if B7 < 2^31 or B4 >= 2 |
| Bmp180.QuotientOverflows | projects/lago_v1_2/src/bmp180.c:112-120 | a calibration and readings that give B4 = 1, B7 = 2478900000 and a doubled quotient of more than 32 bits |
| Bmp180.QuotientFitsSigned | projects/lago_v1_2/src/bmp180.c:116-120 | the quotient fits a signed 32-bit number if and only if B7 < 2^30 * B4 |
| PressureLaws.X3Close | projects/lago_v1_2/src/bmp180.c:108-110 | X3 is within 1.625 of (ac3 * B6 / 2^13 + b1 * B6^2 / 2^28 + 2) / 4 |
| PressureLaws.B4Close | projects/lago_v1_2/src/bmp180.c:113 | B4 is within 4.25 of ac4 * (X3 + 2^15) / 2^15 with the exact X3, while it does not wrap around |
| PressureLaws.B3Close | projects/lago_v1_2/src/bmp180.c:103-107 | B3 is within 6 of a quarter of 4 * ac1 + b2 * B6^2 / 2^23 + ac2 * B6 / 2^11, times 1, 2, 4 or 8 for the oversampling setting |
| PressureLaws.B7Is | projects/lago_v1_2/src/bmp180.c:114 | B7 is UP - B3 times 50000, 25000, 12500 or 6250 for the oversampling setting, modulo 2^32 |
| PressureLaws.CorrectedClose | projects/lago_v1_2/src/bmp180.c:122-125 | the last step adds the polynomial of the data sheet in p, to 1.125 |
| Bmp180.Shifts | projects/lago_v1_2/src/bmp180.c:107-114 | shifting by the oversampling setting multiplies by 1, 2, 4, 8 and divides 50000 to 50000, 25000, 12500, 6250 |
| PressureLaws.QuotientOrder | projects/lago_v1_2/src/bmp180.c:116-120 | a larger B7 gives a smaller quotient, by 1, exactly between the two branches when halving first loses the last bit, and otherwise never |
| PressureLaws.PressureMonotone | projects/lago_v1_2/src/bmp180.c:114-127 | for every calibration and oversampling setting a higher raw reading never gives a lower pressure, while nothing wraps around and both readings take the same branch |
| PressureLaws.PressureFalls | projects/lago_v1_2/src/bmp180.c:116-120 | a calibration and two readings in different branches where it does, by 1 Pa |
| PressureLaws.OversamplingClose | projects/lago_v1_2/src/bmp180.c:107-114 | the same reading with and without oversampling gives B7 to 62500, that is 1.25 counts of the reading without |
| PressureLaws.OversampledExamples | projects/lago_v1_2/src/bmp180.c:87-128 | the worked example read with oversampling settings 0 to 3 gives 69964, 69962, 69963 and 69963 Pa |
| Bmp180.DataSheetExample | projects/lago_v1_2/src/bmp180.c:87-128 | the worked example of section 3.5 of the data sheet gives 15.0 degrees and 69964 Pa |
| Bmp180.BytesSwapped | projects/lago_v1_2/src/bmp180.c:174-186 | of the two bytes read, the one in the low half is the high byte of the coefficient, unsigned or signed |
| Bmp180.CoefficientReadBack | projects/lago_v1_2/src/bmp180.c:170-186 | swapping the bytes and extending the sign gives the coefficient back |
| Bmp180.CalibrationReadBack | projects/lago_v1_2/src/bmp180.c:170-211 | every calibration that eleven registers can hold, high byte first, is read back, each coefficient with its own sign rule |
| Bmp180.Sensor.ReadEprom | projects/lago_v1_2/src/bmp180.c:193-211 | after reading a sensor that holds a calibration, the eleven fields are that calibration |
| Nmea.ValidChecksum | projects/lago_v1_2/src/nmea_rp.c:3-19 | accepted if and only if the exclusive or of the characters before the star is the hexadecimal number after it, modulo 256 |
| Nmea.ChecksumIsParity | projects/lago_v1_2/src/nmea_rp.c:9-11 | each bit of the checksum says whether an odd number of the characters have it set |
| Nmea.TwoDigitsRead | projects/lago_v1_2/src/nmea_rp.c:5 | two hexadecimal digits of either case, also behind a space or 0x, are read as sixteen times the first plus the second |
| Nmea.AppendedAccepted | projects/lago_v1_2/src/nmea_rp.c:3-19 | appending the checksum makes any body without a star accepted |
| Nmea.ChangeRejected | projects/lago_v1_2/src/nmea_rp.c:3-19 | changing one body character to another that is not a star makes an accepted sentence rejected |
| Sentences.WalkFindsField | projects/lago_v1_2/src/nmea_rp.c:23-69 | walking along k commas reaches field k, for every k there is, and finds no more |
| Sentences.FieldsReadBack | projects/lago_v1_2/src/nmea_rp.c:21-121 | both parsers take the fields that a sentence was joined from, in their places |
| Sentences.SentenceReadable | projects/lago_v1_2/src/nmea_rp.c:3-121 | a sentence put together from at least eleven fields, with dollar, star and checksum, is accepted and both parsers find its fields |
| Sentences.SentenceKind | projects/lago_v1_2/src/nmea_rp.c:131-147 | such a sentence is of the kind whose name its first field starts with, and of no known kind otherwise |
| Sentences.FieldStops | projects/lago_v1_2/src/nmea_rp.c:25-69 | a number read from the pointer to a field is the number of that field alone |
| TextNumbers.NumberStops | projects/lago_v1_2/src/nmea_rp.c:25-69 | reading a real or whole number stops at a comma, whatever follows |
| TextNumbers.DecimalRead | projects/lago_v1_2/src/nmea_rp.c:26-69 | digits, a point and digits are read as the digits over a power of ten |
| TextNumbers.AtofPrinted | projects/lago_v1_2/src/nmea_rp.c:26-69 | a printed number with a point and more digits is read as the number and the digits over a power of ten |
| TextNumbers.AtoiDigits | projects/lago_v1_2/src/nmea_rp.c:61-64 | a whole number is read up to what fits 32 bits, with a minus sign as its negative |
| TextNumbers.AtoiPrinted | projects/lago_v1_2/src/nmea_rp.c:61-64 | a printed whole number is read back, whatever follows its digits |
| TextNumbers.ExponentRead | projects/lago_v1_2/src/nmea_rp.c:26-69 | an exponent multiplies by powers of ten, a negative one divides |
| Sentences.ParseGpgga | projects/lago_v1_2/src/nmea_rp.c:21-70 | the pointer walk stores times, coordinates, letters, quality, satellites and altitude, skipping exactly the field before the altitude; an unknown letter leaves what was there |
| Sentences.ParseGprmc | projects/lago_v1_2/src/nmea_rp.c:72-121 | the pointer walk stores times, coordinates, letters, speed, course and date, skipping exactly the status |
| Sentences.PositionStored | projects/lago_v1_2/src/nmea_rp.c:21-70 | of a position sentence put together from fields, fields 1 to 7 and 9 are stored, each in its own place; an unknown letter leaves what was there, an empty field stores 0 |
| Sentences.CourseStored | projects/lago_v1_2/src/nmea_rp.c:72-121 | of a course sentence, fields 1 and 3 to 9 are stored, each in its own place |
| Gps.GpsLocation | projects/lago_v1_2/src/gps_rp.c:38-72 | reads exactly the shortest beginning with a valid position and a valid course sentence and answers with the last of each, coordinates in signed decimal degrees; waits if and only if there is none |
| Gps.ReadMessage | projects/lago_v1_2/src/gps_rp.c:47-70 | a line counts by its type alone, with the numbers of that type, coordinates converted |
| Gps.PositionReceived | projects/lago_v1_2/src/gps_rp.c:47-60 | a position sentence put together from fields is understood, with time, altitude and satellites, and coordinates within (0.5 + 0.5/3600) millionths of what its decimal numbers and letters mean |
| Gps.CourseReceived | projects/lago_v1_2/src/gps_rp.c:61-68 | a course sentence put together from fields gives speed, course and date from their own fields |
| Gps.LocationReceived | projects/lago_v1_2/src/gps_rp.c:38-72 | the answer to a position and a course sentence has the numbers of the fields of both |
| Gps.TwoMessages | projects/lago_v1_2/src/gps_rp.c:41-71 | two sentences of both kinds, in either order, are enough, and the answer is what they say |
| Gps.DegDecClose | projects/lago_v1_2/src/gps_rp.c:3-15 | within (0.5 + 0.5/3600) millionths of degrees + minutes/60, for either sign |
| Gps.DegreesAndMinutes | projects/lago_v1_2/src/gps_rp.c:3-15 | for any whole degrees and any minutes below 60, written as one number of either sign, the result is within (0.5 + 0.5/3600) millionths of degrees + minutes/60 |
| Gps.DegDecOdd | projects/lago_v1_2/src/gps_rp.c:3-15 | negating the input negates the result |
| Gps.ConvertDegToDec | projects/lago_v1_2/src/gps_rp.c:18-25 | latitude is negated unless north, longitude unless east |
| SlotTable.Table.ReserveBuffer | apps/dma/dma_driver/memalloc.c:58-89 | takes the least free slot; fails if and only if all 16 are active or the allocation fails; what is outstanding, with its sizes, stays what active slots hold |
| SlotTable.Table.ReleaseBuffer | apps/dma/dma_driver/memalloc.c:45-56 | refused exactly above 16, an access outside the table exactly for 16 and negative ids, otherwise the slot's buffer is freed; the table stays consistent if and only if the slot was active or never held an address; releasing an active slot makes it free and takes its buffer from what is outstanding |
| SlotTable.Table.ReleaseAndReserve | apps/dma/dma_driver/memalloc.c:45-89 | after a release a slot at that index or below can be reserved again, and holds the new buffer |
| SlotTable.Table.Cleanup | apps/dma/dma_driver/memalloc.c:91-102 | frees each active slot once, in order, and leaves nothing outstanding |
| SlotTable.ReleaseExact | apps/dma/dma_driver/memalloc.c:45-56 | the exact condition for a release to keep allocations and frees in balance |
| SlotTable.ReleaseGivesBack | apps/dma/dma_driver/memalloc.c:45-56 | releasing an active slot leaves one active slot and one outstanding buffer less, and a free slot at that index or below |
| SlotTable.LiveCount | apps/dma/dma_driver/memalloc.c:63-83 | as many buffers are live as slots are active if and only if no active slot holds a failed allocation |
| SlotTable.CleanupFreesLive | apps/dma/dma_driver/memalloc.c:91-102 | the requests of a cleanup name the outstanding buffers, with their sizes and their multiplicity |
| SlotTable.FullIffAllOutstanding | apps/dma/dma_driver/memalloc.c:58-89 | without failed allocations the table is full if and only if 16 allocations are outstanding |

## Left out

- Device access: memory maps, interrupts, i2c, serial line, sockets and files are parameters, sequences or results.
- StreamReader.Reader.ReadBuffer: models the two kinds of calls that the program makes, one clean call first and default calls after it; other combinations of the arguments do not occur.
- WordMachine.Machine.NewFile: the header and configuration lines, host name and file name text are not modelled; the date in the name is. With output to the terminal the program writes the metadata header through a handle that is not open; that is not modelled either.
- WordMachine.Machine.OnTagged: CalculatePressTemp is not part of this model (the repository declares it but does not hold its body); the model records that it is started, and from which readings.
- WordMachine.Machine.Process: which file a line is printed to is not recorded.
- The word loop of lago_v1_2 as a whole: its clock, counter and trigger code is that of lago_test; only its sample, coordinate and ring code differs and is modelled. Its rate words and sensor readings are single assignments.
- A second thread that samples the position: there is one sampler.
- HalfBuffer.HalvesInOrder: the server is modelled for one connection; what is left of an interrupted one is not.
- Gps.GpsLocation: lines with no star after the first character, or with too few commas in a sentence that is parsed, are outside what the program can handle.
- TextNumbers.DecimalRead: hexadecimal numbers, infinities and values that are not numbers, which atof also reads, are not part of the model of it.
- Bmp180.MonotoneIff: 32-bit overflow of the products is not modelled; only that of B4, B7 and their quotient is. Coefficients outside ac5 >= 0 and mc <= 0 are left out.
- SlotTable.Table.ReleaseBuffer: what an access outside the table does to memory is not modelled, only when it happens; the ioctl dispatch and the memory map are left out.
- MemoryRing.MemoryReader.ReadBuffer: in the class the hardware writes between two calls; writes between two reads of one call are in the state machine, for which MemoryRing.DeliveredInOrder is proved.
- HalfBuffer.Recorder.Poll: in the class the other processes rest during a turn; all interleavings are in the state machine, for which HalfBuffer.HalvesInOrder is proved.
- Scatter-gather DMA, register set-up, kernel drivers for LEDs and timers, command line parsing, bar graphs and sine tables: short sequences without properties of this kind.
