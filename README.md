# PropWare core, modelled in Dafny

PropWare is a C++ library for the Parallax Propeller. This project models the part of it that
PWEdit, its small full-screen text editor, stands on:

- the editor itself, `PropWare::PWEdit`. It loads a file into a list of lines and calibrates the
  terminal size. It moves a selected cell and a visible window with the arrow, home and end keys,
  then saves or quits through a `:` command line.
- the text output stack: the `Printer` (cooked `puts`, integer and hex formatting, `printf`),
  the `Scanner` (`gets` with echo and backspace editing), the growable `StringBuilder`, and the
  three character devices `HD44780` (LCD), `VGAText` (both the header version and the older `.cpp`
  version) and the `UART` frame configuration.
- the storage stack: the SD driver's little-endian codecs, the `BlockStorage` sector buffer,
  the `File`/`FileReader`/`FileWriter` layer with its FAT reader and writer, and `FatFS`. FatFS
  covers mounting, cluster geometry and the FAT cluster-chain operations: reading a chain,
  extending it, finding free space, marking its end, clearing it and trimming it.
- the bit and string helpers of `Utility`.

Pure computations, such as codecs, bit tricks, digit strings and FAT arithmetic, are Dafny
functions with lemmas about them. Objects whose methods update their fields in place are Dafny
classes. Each such class has ghost `Valid()` and `State()` functions, and each of its methods is
proved to leave `State()` equal to a pure step function of the old state. The properties the
library promises are then proved about those step functions.

Hardware and blocking I/O are parameters:

- the keys a user will type are a finite sequence;
- characters sent to a terminal or display are appended to an output trace;
- the sectors of an SD card are a map from block address to 512 bytes;
- a device fault is a parameter of the operation that meets it.

Where the source has a defect, the table under "## Findings" names two Dafny members for it:
one that behaves as written and exhibits the defect, and one that behaves as evidently intended.
The classes use the corrected behaviour.

## Model

| member | source | states |
|---|---|---|
| Utility.PopCountAfterClear | PropWare/utility/utility.h:45-62 | Kernighan's step `par & (par - 1)` removes exactly one set bit of a non-zero word |
| Utility.CountBits | PropWare/utility/utility.h:45-62 | `count_bits(uint32_t)` returns the number of set bits of its argument, at most 32; its loop runs once per set bit |
| Utility.CountBitsSigned | PropWare/utility/utility.h:64-66 | `count_bits(int32_t)` counts the set bits of the two's-complement pattern of its argument |
| Utility.Lower | PropWare/utility/utility.h:73-78 | the C-locale `tolower`: 'A'..'Z' move up by 32, every other char is kept |
| Utility.Upper | PropWare/utility/utility.h:83-88 | the C-locale `toupper`: 'a'..'z' move down by 32, every other char is kept |
| Utility.ToLower | PropWare/utility/utility.h:73-78 | each char before the terminator is lowered in place, the rest of the array is untouched and `strlen` is unchanged |
| Utility.ToUpper | PropWare/utility/utility.h:83-88 | each char before the terminator is raised in place, the rest of the array is untouched and `strlen` is unchanged |
| Utility.ToString | PropWare/utility/utility.h:93-95 | the text is "true" exactly when the flag is set and "false" exactly when it is clear |
| Utility.Empty | PropWare/utility/utility.h:97-99 | a C string is empty exactly when its `strlen` is 0, i.e. its first char is NUL |
| Utility.Min | PropWare/utility/utility.h:116-119 | the result is one of the two arguments and no larger than either |
| Utility.Max | PropWare/utility/utility.h:121-124 | the result is one of the two arguments and no smaller than either |
| Utility.OnesOfSingleBit | PropWare/utility/utility.h:126-131 | `1 << n` has exactly one set bit, at position n |
| Utility.ToBit | PropWare/utility/utility.h:126-131 | below 32 the result has exactly one set bit, at position n; from 32 on it is `NULL_BIT` (0) |
| Utility.BitRead | PropWare/utility/utility.h:133-135 | `bit_read` holds exactly when some position is set both in `x` and in `bit` |
| Utility.BitSet | PropWare/utility/utility.h:145-148 | every bit of the result is set exactly when it is set in `x` or in `bit` |
| Utility.BitClear | PropWare/utility/utility.h:150-153 | every bit of the result is set exactly when it is set in `x` and clear in `bit` |
| Utility.BitWrite | PropWare/utility/utility.h:137-143 | the bits of `bit` take `value` and every other bit of `x` is kept; `bit_read` of a non-zero `bit` afterwards gives `value` |
| Utility.WrittenRead | PropWare/utility/utility.h:133-143 | once every bit of a non-zero mask holds `value`, `bit_read` of that mask reads `value` |
| Sd.SectorSizeIsShift | PropWare/memory/sd.h:150-156 | the sector size 512 is `1 << ` the sector-size shift 9 |
| Sd.GetShort | PropWare/memory/sd.h:195-197 | the 16-bit value whose low byte is `buf[offset]` and high byte `buf[offset + 1]` |
| Sd.GetLong | PropWare/memory/sd.h:199-201 | the 32-bit value whose low half is the short at `offset` and high half the short at `offset + 2` (little-endian) |
| Sd.ShortWritten | PropWare/memory/sd.h:203-206 | after writing `value`, `get_short` at the same offset reads `value` and every byte other than the two written is unchanged |
| Sd.ShortWriteOfRead | PropWare/memory/sd.h:195-206 | writing back the short just read leaves the buffer as it was |
| Sd.LongWritten | PropWare/memory/sd.h:208-213 | after writing `value`, `get_long` at the same offset reads `value` and only the four bytes at `offset` change |
| Sd.LongWriteOfRead | PropWare/memory/sd.h:199-213 | writing back the long just read leaves the buffer as it was |
| Sd.WriteShort | PropWare/memory/sd.h:203-206 | the array afterwards is `ShortWritten` of the array before: low byte, then high byte, nothing else touched |
| Sd.WriteLong | PropWare/memory/sd.h:208-213 | the array afterwards is `LongWritten` of the array before: four bytes least significant first, nothing else touched |
| BlockStorage.MetaData.constructor | PropWare/memory/blockstorage.h:63-65 | a new metadata record is named ""; its other fields are left as they were, unset |
| BlockStorage.Device.WriteDataBlock | PropWare/memory/blockstorage.h:193-205 | the block at `address` becomes the buffer's bytes when the device reports success; otherwise the medium is unchanged and the error is returned |
| BlockStorage.Device.ReadDataBlock | PropWare/memory/blockstorage.h:156-168 | the buffer receives block `address` when the device reports success; otherwise it is unchanged and the error is returned |
| BlockStorage.Device.ReloadBuffer | PropWare/memory/blockstorage.h:181-183 | reads block `curTier2Addr + curTier1Offset` of the buffer's metadata into the buffer |
| BlockStorage.Device.Flush | PropWare/memory/blockstorage.h:214-222 | a buffer with metadata whose `mod` is set is written to block `curTier2Addr + curTier1Offset` and marked clean; a failed write returns the error and leaves `mod` set; any other buffer causes no write |
| BlockStorage.WriteByte | PropWare/memory/blockstorage.h:271-273 | afterwards `get_byte(offset)` reads `value` and every other byte is unchanged |
| BlockStorage.LineCount | PropWare/memory/blockstorage.h:103-105 | the least number of rows of `wordsPerLine` words that covers all `words`, i.e. ceil(words / wordsPerLine): the count `print_block` means to print |
| BlockStorage.RowsPrinted | PropWare/memory/blockstorage.h:103-105 | the row count `print_block` stores in its 8-bit counter: below 256, and equal to `LineCount` whenever that is below 256 |
| BlockStorage.SectorDumpWraps | PropWare/memory/blockstorage.h:103-105 | a 512-byte dump at 1 or 2 bytes per row needs 512 or 256 rows but prints none; at 16 per row it prints all 32 |
| BlockStorage.RowOfByte | PropWare/memory/blockstorage.h:103-105 | every byte below `words` falls in a row below `LineCount` |
| BlockStorage.AsciiCell | PropWare/memory/blockstorage.h:128-134 | the ASCII column shows a byte as itself exactly when it is in 32..126, and as '.' otherwise |
| BlockStorage.AsciiRow | PropWare/memory/blockstorage.h:128-134 | the inner loop builds the `wordsPerLine` cells of one row from the bytes at `baseAddress` on |
| BlockStorage.AsciiRows | PropWare/memory/blockstorage.h:116-136 | the row loop: `lines` ASCII columns, row `line` showing the `wordsPerLine` bytes from `line * wordsPerLine` on |
| BlockStorage.AsciiColumns | PropWare/memory/blockstorage.h:103-136 | as written: `RowsPrinted` rows (the count taken modulo 256), row `line` showing the bytes from `line * wordsPerLine` on |
| BlockStorage.AsciiColumnsIntended | PropWare/memory/blockstorage.h:103-136 | with a wide enough counter: `LineCount` rows, so every byte below `words` is shown in row `k / wordsPerLine` |
| StringBuilders.Capacity | PropWare/string/stringbuilder.h:125-136 | the allocation after `n` characters is the initial one doubled until it exceeds `n + 1`, so one byte always stays free for the terminator |
| StringBuilders.CapacityNext | PropWare/string/stringbuilder.h:125-128 | one more character doubles the allocation exactly when `size + 1` would equal it |
| StringBuilders.CapacityExamples | PropWare/string/stringbuilder.h:125-136 | a default builder keeps 64 bytes up to 62 chars, has 128 bytes at 63 and 64 chars, and 8192 bytes at 4095 chars |
| StringBuilders.StrcpyAsWritten | PropWare/string/stringbuilder.h:130-136 | as written, `expand` copies the old allocation up to its first NUL, and reads past its end when it holds none |
| StringBuilders.ExpandOverReads | PropWare/string/stringbuilder.h:118-136 | 63 non-NUL chars in a default builder whose never-written last byte is not NUL make `expand`'s `strcpy` read past the allocation |
| StringBuilders.StringBuilder.constructor | PropWare/string/stringbuilder.h:47-53 | a new builder is empty, terminated, `to_string()` is the empty string, and its allocation is `initialSize` bytes |
| StringBuilders.StringBuilder.SizeIsStrLen | PropWare/string/stringbuilder.h:62-68 | with no NUL among the characters, `get_size() == strlen(to_string())` and the C string is exactly the characters held |
| StringBuilders.StringBuilder.Expand | PropWare/string/stringbuilder.h:130-136 | (corrected) the allocation doubles, is fresh, and keeps the characters held |
| StringBuilders.StringBuilder.CheckBufferSize | PropWare/string/stringbuilder.h:125-128 | the allocation doubles exactly when `size + 1 == bufferSize`, and the characters held are kept |
| StringBuilders.StringBuilder.InsertChar | PropWare/string/stringbuilder.h:120-123 | `c` is stored after the characters held, the size grows by one and the allocation follows `Capacity` |
| StringBuilders.StringBuilder.PutChar | PropWare/string/stringbuilder.h:62-68 | the characters held become the old ones plus `c`, the string is re-terminated, and `size + 1 < bufferSize` afterwards |
| StringBuilders.StringBuilder.Puts | PropWare/string/stringbuilder.h:70-77 | every char of the argument before its NUL is appended in order and the string is re-terminated |
| StringBuilders.StringBuilder.Clear | PropWare/string/stringbuilder.h:105-117 | the builder is empty with an empty C string; a non-empty one returns to its initial allocation, an empty one is left exactly as it was |
| Scanner.ReadLineEdits | PropWare/hmi/input/scanner.h:83-109 | `gets` stores exactly the line-edited text of the keys it consumed, the line end excluded: each backspace or delete removes the last stored character if there is one |
| Scanner.EditStep | PropWare/hmi/input/scanner.h:86-107 | typing one more key extends the edited text by that key, or removes its last character when the key is an erase |
| Scanner.ReadLineStored | PropWare/hmi/input/scanner.h:83-107 | `gets` never stores more than `length - 1` characters, and never stores a '\r', '\n', 8 or 127 |
| Scanner.ReadLineEchoes | PropWare/hmi/input/scanner.h:96-101 | without erase keys, what `gets` echoes is the keys it read, each '\r' followed by '\n' |
| Scanner.EchoMore | PropWare/hmi/input/scanner.h:71-76 | echoing in two pieces gives what echoing at once gives, with or without a printer |
| Scanner.Scanner.constructor | PropWare/hmi/input/scanner.h:55-63 | a scanner starts on the given key stream with nothing echoed, with or without a printer |
| Scanner.Scanner.GetChar | PropWare/hmi/input/scanner.h:71-76 | `get_char` returns the next key, consumes it, and echoes it exactly when a printer is attached |
| Scanner.Scanner.GetsKey | PropWare/hmi/input/scanner.h:84-101 | one key read by `gets`: consumed and echoed as `gets` echoes it ("\010 \010" only when something was erased) |
| Scanner.Scanner.GetsPass | PropWare/hmi/input/scanner.h:83-107 | one pass of the `gets` loop: an erase returns its slot to the budget, a line end stops, anything else is stored at `buf` |
| Scanner.Scanner.Gets | PropWare/hmi/input/scanner.h:81-111 | `gets` returns NO_ERROR, stores what `ReadLine` describes followed by a NUL, consumes exactly the keys read, and echoes them when a printer is attached |
| Printer.CookAppend | PropWare/hmi/output/printer.h:175-192 | cooking text piece by piece is cooking it whole, so `puts` and repeated `put_char` agree |
| Printer.CookRaw | PropWare/hmi/output/printer.h:175-179 | in raw mode every character reaches the device unchanged |
| Printer.CookedNewlines | PropWare/hmi/output/printer.h:175-179 | in cooked mode every '\n' the device receives comes right after a '\r' |
| Printer.UncookCook | PropWare/hmi/output/printer.h:175-179 | cooking adds only the '\r' before each '\n': removing those recovers the text exactly |
| Printer.Digits | PropWare/hmi/output/printer.h:222-245 | `put_uint` always prints at least one digit ("0" for zero) |
| Printer.DigitsValue | PropWare/hmi/output/printer.h:222-245 | for radices 2..36 the digits printed, most significant first, denote exactly `x` |
| Printer.DigitCharValue | PropWare/hmi/output/printer.h:229-232 | digits 0..9 print as '0'..'9' and 10..35 as 'A'..'Z', and read back as their values |
| Printer.DigitsLeading | PropWare/hmi/output/printer.h:222-245 | no leading zero: the first digit is '0' only when `x` is zero |
| Printer.DigitsLength | PropWare/hmi/output/printer.h:222-228 | a value below 2^k has at most k digits, so the 32- and 64-char buffers of `put_uint` and `put_ull` never overflow |
| Printer.DigitStep | PropWare/hmi/output/printer.h:228-234 | one turn of the digit loop moves the lowest digit of the value to the front of the digits already written |
| Printer.Padded | PropWare/hmi/output/printer.h:236-240 | the fill char comes `width - n` times before the `n` digits when `width > n`, and the digits are never truncated |
| Printer.SignedText | PropWare/hmi/output/printer.h:205-211 | `put_int` prints '-' for a negative value ahead of any padding, then the padded magnitude |
| Printer.Bits | PropWare/hmi/output/printer.h:531-551 | the 32-bit pattern each argument passes through the `long` casts of `printf` |
| Printer.AsLong | PropWare/hmi/output/printer.h:532-535 | `(long int) first` is the two's-complement reading of the argument's 32 bits |
| Printer.AsULong | PropWare/hmi/output/printer.h:536-542 | `(long unsigned int) first` is the unsigned reading of the same 32 bits |
| Printer.CastsKeepValues | PropWare/hmi/output/printer.h:532-557 | for arguments that fit their types, `%d` of an int and `%u` of an unsigned print the value itself |
| Printer.ParseNum | PropWare/hmi/output/printer.h:516-527 | a width or precision field stops at the first non-digit and stays in 16 bits |
| Printer.ParseSpec | PropWare/hmi/output/printer.h:510-531 | a spec is at least its letter long, and the fill is '0' exactly when the spec starts with '0' |
| Printer.Literal | PropWare/hmi/output/printer.h:502-509 | the literal scan stops only at the terminating NUL or at a '%' that does not start "%%" |
| Printer.LiteralStep | PropWare/hmi/output/printer.h:502-509 | an ordinary char is printed as itself and "%%" as one '%' |
| Printer.PrintfAtEnd | PropWare/hmi/output/printer.h:502-509 | a format with no conversion left prints only its literal text, leaving the argument unused |
| Printer.PrintfAtConversion | PropWare/hmi/output/printer.h:497-567 | at the first conversion `printf` prints the literal text, the conversion of the first argument, then the rest of the format with the remaining arguments |
| Printer.ConversionAt | PropWare/hmi/output/printer.h:529-565 | the conversion consumes its spec and first argument, and the format after it goes with the remaining arguments |
| Printer.LiteralPlain | PropWare/hmi/output/printer.h:502-509 | without '%' the literal part is the whole C string |
| Printer.PrintfPlain | PropWare/hmi/output/printer.h:497-571 | a format without '%' prints verbatim, whatever the arguments |
| Printer.PrintfPastNul | PropWare/hmi/output/printer.h:505-556 | a format ending in a bare '%' prints the fill character for the NUL and then the memory that follows the NUL |
| Printer.LiteralPrefix | PropWare/hmi/output/printer.h:502-509 | literal text without '%' or NUL ahead of a format is printed first, unchanged |
| Printer.LiteralPercent | PropWare/hmi/output/printer.h:505-507 | "%%" prints one '%' and scanning goes on after both chars |
| Printer.WidthRoundTrip | PropWare/hmi/output/printer.h:510-527 | a width written in decimal parses back to itself, with '0' fill exactly when it starts with '0' |
| Printer.NumOfDigits | PropWare/hmi/output/printer.h:516-520 | the width field reads the decimal digits of `w` as `w` and stops after them |
| Printer.ReversedDigits | PropWare/hmi/output/printer.h:222-234 | the digit loop leaves the digits of `x` lowest first in a fresh `bits`-char buffer |
| Printer.PaddedParts | PropWare/hmi/output/printer.h:236-244 | the fill loop then the reversed buffer print exactly `Padded` |
| Printer.Printer.constructor | PropWare/hmi/output/printer.h:133-135 | a new printer has the given cooked mode, the default format (width 0, precision 6, radix 10, fill ' ') and has sent nothing |
| Printer.Printer.SetCooked | PropWare/hmi/output/printer.h:150-152 | `set_cooked` stores the mode |
| Printer.Printer.SetFormat | PropWare/hmi/output/printer.h:756-759 | `<< Format` replaces the stored format |
| Printer.Printer.PutChar | PropWare/hmi/output/printer.h:175-179 | the device receives `c`, preceded by '\r' when `c` is '\n' in cooked mode |
| Printer.Printer.Puts | PropWare/hmi/output/printer.h:188-193 | the device receives the cooked C string, up to its NUL |
| Printer.Printer.PutUnsigned | PropWare/hmi/output/printer.h:222-245 | the device receives the padded digits of `x`, cooked |
| Printer.Printer.PutFill | PropWare/hmi/output/printer.h:236-240 | the fill loop sends `count` copies of the fill char |
| Printer.Printer.PutReversed | PropWare/hmi/output/printer.h:242-244 | the last loop sends the buffered digits last one first, so most significant first |
| Printer.Printer.PutUint | PropWare/hmi/output/printer.h:222-245 | `put_uint` sends the padded digits of `x` in `radix` |
| Printer.Printer.PutUll | PropWare/hmi/output/printer.h:273-296 | `put_ull` sends the padded digits of a 64-bit `x` in `radix` |
| Printer.Printer.PutInt | PropWare/hmi/output/printer.h:205-211 | `put_int` sends '-' for a negative value, then the padded magnitude |
| Printer.Printer.PutLl | PropWare/hmi/output/printer.h:256-262 | `put_ll` sends '-' for a negative value, then the padded 64-bit magnitude |
| Printer.Printer.Print | PropWare/hmi/output/printer.h:579-694 | each `print` overload sends its argument as its type prescribes (char, string, bool, signed or unsigned in the format's radix and width) |
| Printer.Printer.Write | PropWare/hmi/output/printer.h:723-754 | `<< value` prints with the stored format |
| Printer.Printer.Printf | PropWare/hmi/output/printer.h:497-571 | `printf` sends exactly `PrintfText`: literal text with "%%" as '%', each conversion with its argument, and the verbatim rest when no argument remains |
| Printer.Printer.PrintfConversion | PropWare/hmi/output/printer.h:510-565 | the conversion at `k` and the rest of the format with the remaining arguments |
| Printer.Printer.PrintConversion | PropWare/hmi/output/printer.h:532-557 | i/d print signed, u unsigned, X in radix 16, b in radix 2, s/c/f pass through `print`, any other letter prints one space |
| Printer.Printer.ReadSpec | PropWare/hmi/output/printer.h:510-531 | the spec loop reads exactly what `ParseSpec` describes: fill, width, precision, letter |
| Files.SeekOf | PropWare/filesystem/file.h:115-147 | every direction accepts exactly the offsets in `[0, length]` and answers EOF_ERROR otherwise, leaving the pointer unchanged |
| Files.SeekInside | PropWare/filesystem/file.h:118-124 | BEG moves to `offset` and END to `length - offset`, both inside `[0, length]` (also lines 133-140) |
| Files.SeekCurPastEnd | PropWare/filesystem/file.h:125-132 | CUR checks the offset rather than the position it leads to: from the end of a one-byte file, seeking one more succeeds and leaves the pointer at 2 |
| Files.File.constructor | PropWare/filesystem/file.h:159-169 | a new file has length -1, pointer 0, no error and is not open |
| Files.File.Seek | PropWare/filesystem/file.h:115-147 | `seek(offset, way)` answers and moves exactly as `SeekOf` says |
| Files.File.SeekTo | PropWare/filesystem/file.h:150-152 | `seek(position)` is `seek(position, BEG)`: on success the pointer is `position` |
| Files.File.Close | PropWare/filesystem/file.h:77-82 | `close` returns the flush error and clears `open` only when flushing succeeded |
| Files.OverlayAt | PropWare/filesystem/fat/fatfilewriter.h:151-165 | a modified sector buffer shows its own bytes over its sector and the device's elsewhere |
| Files.OverlaySame | PropWare/filesystem/fat/fatfilereader.h:119-126 | an unmodified buffer loaded from its sector changes nothing a reader sees |
| Files.OverlayUpdate | PropWare/filesystem/fat/fatfilewriter.h:151-153 | writing a byte of the buffer writes that byte of the file |
| Files.Chain.constructor | PropWare/filesystem/fat/fatfilewriter.h:52-60 | a new chain reads exactly its device bytes |
| Files.Chain.FlushBuffer | PropWare/memory/blockstorage.h:214-222 | a modified buffer goes back to the device and is then unmodified; a device fault is answered and leaves the buffer modified; what the file reads is kept either way |
| Files.Chain.LoadSectorUnderPtr | PropWare/filesystem/fat/fatfilereader.h:119 | the sector under the pointer is loaded when the pointer is inside the chain, and the file's bytes are unchanged; outside the chain the load fails |
| Files.Chain.WriteBack | PropWare/memory/blockstorage.h:214-222 | the write-back before another sector is loaded: a modified buffer goes to the device and what the file reads is kept |
| Files.Chain.WriteByte | PropWare/filesystem/fat/fatfilewriter.h:151-153 | exactly one byte of the file changes and the buffer is marked modified |
| Files.Chain.Extend | PropWare/filesystem/fat/fatfilewriter.h:147-149 | a pointer at the chain's end grows it by one sector unless extending fails; earlier bytes are kept |
| Files.BufferedByte | PropWare/filesystem/fat/fatfilereader.h:122-126 | `buf[ptr % sectorSize]` of the loaded sector is the file's byte at `ptr` |
| Files.ReadOf | PropWare/filesystem/fat/fatfilereader.h:115-132 | `safe_get_char` succeeds exactly on an open file with the pointer inside its bytes, reading the byte under the pointer and advancing by one; otherwise FILE_NOT_OPEN or the load error, with the pointer kept |
| Files.FatFileReader.constructor | PropWare/filesystem/fat/fatfilereader.h:93-98 | a new reader is a closed file with length -1 and pointer 0 over its chain |
| Files.FatFileReader.Open | PropWare/filesystem/fat/fatfilereader.h:100-112 | an EOC_END from the search answers FILENAME_NOT_FOUND and other search errors pass through unchanged; on success the file is open with its entry's length and seeks as asked (0 from BEG by default) |
| Files.FatFileReader.SafeGetChar | PropWare/filesystem/fat/fatfilereader.h:115-132 | reads as `ReadOf` says and leaves the file's bytes unchanged |
| Files.FatFileReader.GetChar | PropWare/filesystem/filereader.h:62-70 | the char read on success; on error the code is stored for `get_error` and `(char) -1` returned |
| Files.FatFileReader.SafePeek | PropWare/filesystem/filereader.h:88-92 | the char read, with the pointer back where it was after a successful read, and one before it after a failed one |
| Files.FatFileReader.Peek | PropWare/filesystem/filereader.h:101-105 | `get_char` then one step back: the pointer is unchanged exactly when the read succeeded |
| Files.FatFileReader.Close | PropWare/filesystem/filereader.h:40-42 | a reader's flush always succeeds, so `close` always closes and answers NO_ERROR |
| Files.PeekAtChainEnd | PropWare/filesystem/filereader.h:88-105 | a peek at the end of a file that fills its chain fails and leaves the pointer on the last byte |
| Files.ReadsInOrder | PropWare/filesystem/fat/fatfilereader.h:115-132 | `n` reads from `p` inside the file yield its bytes `p..p+n` in order |
| Files.CharsOfBytes | PropWare/filesystem/fat/fatfilewriter.h:151-153 | a char stored as a byte reads back as the same char |
| Files.PutOf | PropWare/filesystem/fat/fatfilewriter.h:143-170 | `safe_put_char`: FILE_NOT_OPEN on a closed file with nothing changed; otherwise `c` lands at the pointer, nothing else changes, the pointer advances by one, and the length grows (and is flagged) only when writing at the length |
| Files.PutsWrites | PropWare/filesystem/filewriter.h:70-80 | `safe_puts` of a string without NUL writes every char in order at the pointer, keeps the bytes before it and grows the length as far as the writes pass it |
| Files.WrittenReadsBack | PropWare/filesystem/filewriter.h:70-80 | chars written by `safe_puts` read back through `safe_get_char` from the same start, in the same order |
| Files.TrimmedLengthAsWritten | PropWare/filesystem/fat/fatfilewriter.h:172-180 | as written, `trim` leaves the length one less than the pointer |
| Files.TrimThenWriteAsWritten | PropWare/filesystem/fat/fatfilewriter.h:159-162 | after trimming at 0 the length is -1, which no later write meets, so the length stays -1 and is stored as 0xFFFFFFFF (also lines 172-180) |
| Files.TrimmedLength | PropWare/filesystem/fat/fatfilewriter.h:172-180 | corrected: `trim` leaves the length equal to the pointer |
| Files.TrimThenWrite | PropWare/filesystem/fat/fatfilewriter.h:159-162 | corrected: trimmed at 0 then written, the length is exactly the number of chars written (also lines 172-180) |
| Files.BaseLength | PropWare/filesystem/fat/fatfilewriter.h:189-191 | the base runs up to the first '.', NUL or end of the name, and holds neither (also lines 233-235) |
| Files.NameBytes | PropWare/filesystem/fat/fatfilewriter.h:229-280 | `write_filename` writes the base first and never fewer than 11 bytes; a base over 8 or an extension over 3 is not cut |
| Files.ShortNameBytes | PropWare/filesystem/fat/fatfilewriter.h:229-280 | an 8.3 name is written as the 11-byte name field of a FAT directory entry: the base padded with spaces to 8, then the extension padded to 3 |
| Files.CreatedEntry | PropWare/filesystem/fat/fatfilewriter.h:206-227 | a created entry holds the 8.3 name, the archive attribute, the allocated cluster as first cluster (high word on FAT32 only) and size 0, with the rest of the sector unchanged |
| Files.LocatedFields | PropWare/filesystem/fat/fatfilewriter.h:282-288 | `get_fat_location` writes the first-cluster words and nothing else |
| Files.FatFileWriter.constructor | PropWare/filesystem/fat/fatfilewriter.h:52-60 | a new writer is a closed file with length -1 and pointer 0, with the length not flagged |
| Files.FatFileWriter.Open | PropWare/filesystem/fat/fatfilewriter.h:66-85 | a name not found is created, after growing the directory when the search hit EOC_END; other errors are answered unchanged; on success the file is open with its entry's length and seeks as asked (END 0 by default, so the pointer is the length) |
| Files.FatFileWriter.FindOrCreate | PropWare/filesystem/fat/fatfilewriter.h:69-81 | the search, and the creation of an entry for a missing name |
| Files.FatFileWriter.SafePutChar | PropWare/filesystem/fat/fatfilewriter.h:143-170 | writes as `PutOf` says |
| Files.FatFileWriter.StoreUnderPtr | PropWare/filesystem/fat/fatfilewriter.h:153-165 | the byte under the pointer becomes `c`, the pointer advances by one, and the length grows and is flagged exactly when the pointer was at the length |
| Files.FatFileWriter.PutChar | PropWare/filesystem/filewriter.h:59-61 | `put_char` is `safe_put_char` with the error dropped |
| Files.FatFileWriter.SafePuts | PropWare/filesystem/filewriter.h:70-80 | writes as `PutsOf` says: char by char up to the NUL, stopping at the first error |
| Files.FatFileWriter.Puts | PropWare/filesystem/filewriter.h:87-89 | `puts` is `safe_puts` with the error dropped |
| Files.FatFileWriter.Trim | PropWare/filesystem/fat/fatfilewriter.h:172-180 | corrected: nothing happens when the length already is the pointer; otherwise the chain is trimmed and on success the length becomes the pointer and is flagged |
| Files.FatFileWriter.TrimAsWritten | PropWare/filesystem/fat/fatfilewriter.h:172-180 | as written: nothing happens when the length is the pointer minus one; otherwise the length becomes the pointer minus one and is flagged |
| Files.FatFileWriter.Flush | PropWare/filesystem/fat/fatfilewriter.h:119-140 | a failing write-back of the content buffer is answered first, with nothing else changed; otherwise the length is written into the entry's size field and the flag cleared only when the length was flagged and the directory flush succeeded |
| Files.FatFileWriter.Close | PropWare/filesystem/file.h:77-82 | `flush`, answering the content flush's error, else the directory flush's; the file closes only when it succeeded |
| Files.FatFileWriter.Remove | PropWare/filesystem/fat/fatfilewriter.h:91-116 | an unopened file is found first (EOC_END answers FILENAME_NOT_FOUND); a failed `load_directory_sector` is answered with the entry untouched; otherwise the entry's first byte becomes the deleted mark, the chain is cleared, and the length flag is cleared only when that succeeded |
| Files.FatFileWriter.CreateNewFile | PropWare/filesystem/fat/fatfilewriter.h:206-227 | writes the entry that `CreatedEntry` describes and answers NO_ERROR |
| Files.FatFileWriter.GetFatLocation | PropWare/filesystem/fat/fatfilewriter.h:282-288 | writes the allocated cluster into the entry's first-cluster words |
| Files.FatFileWriter.WriteFilename | PropWare/filesystem/fat/fatfilewriter.h:229-244 | writes exactly `NameBytes(name)` from the entry's start and answers NO_ERROR |
| Files.FatFileWriter.WriteBase | PropWare/filesystem/fat/fatfilewriter.h:233-234 | the first loop copies the base up to its '.' or end |
| Files.FatFileWriter.WriteFilenameExtension | PropWare/filesystem/fat/fatfilewriter.h:246-272 | pads the base to 8, then copies the extension and pads to 11 |
| Files.FatFileWriter.WriteExtension | PropWare/filesystem/fat/fatfilewriter.h:257-261 | the extension loop copies the rest of the name after its '.' |
| Files.FatFileWriter.PadWithSpaces | PropWare/filesystem/fat/fatfilewriter.h:277-280 | spaces from `from` up to `to` and nothing else |
| FatFs.IsFatVolume | PropWare/filesystem/fat/fatfs.h:235-245 | a partition type byte is accepted exactly when it is one of the FAT ids of the table; otherwise UNSUPPORTED_FILESYSTEM |
| FatFs.PartitionRow | PropWare/filesystem/fat/fatfs.h:220-226 | partition `p`'s row of the partition table starts at 0x1BE + 16·p and lies inside the sector |
| FatFs.BootSectorOf | PropWare/filesystem/fat/fatfs.h:207-233 | a sector 0 starting with 0xEB is the boot sector and only partition 0 is accepted; otherwise the partition's row must carry a FAT id, and its start address names the boot sector |
| FatFs.ClusterShift | PropWare/filesystem/fat/fatfs.h:263-299 | sectors per cluster must be 2^k with k < 8, and the stored shift is k; anything else is BAD_SECTORS_PER_CLUSTER |
| FatFs.ClusterShiftOfPowers | PropWare/filesystem/fat/fatfs.h:263-299 | every power of two from 1 to 128 is accepted with its own logarithm as shift |
| FatFs.RootDirSectors | PropWare/filesystem/fat/fatfs.h:255-257 | the root directory takes `ceil(rootEntryCount·32 / 512)` sectors |
| FatFs.CommonBootSectorParser | PropWare/filesystem/fat/fatfs.h:247-302 | succeeds exactly when there are 2 FATs and the sectors-per-cluster byte is a power of two up to 128 (TOO_MANY_FATS first, then BAD_SECTORS_PER_CLUSTER); reads the root entry count, the reserved count and the label |
| FatFs.Field16Or32 | PropWare/filesystem/fat/fatfs.h:309-319 | the 16-bit field unless it is 0, then the 32-bit field |
| FatFs.PartitionInfoParser | PropWare/filesystem/fat/fatfs.h:304-326 | FAT size and total sectors from the 16- or 32-bit fields, and data sectors = total − (reserved + numFATs·fatSize + rootDirSectors) |
| FatFs.PartitionCounts | PropWare/filesystem/fat/fatfs.h:320-325 | the cluster count is the data sectors in whole clusters (`>> shift`) and the FAT16 root size the root entries in whole sectors, both rounded down |
| FatFs.DataSectors | PropWare/filesystem/fat/fatfs.h:323 | the 32-bit difference is the exact one when the sectors before the data fit the volume |
| FatFs.ShiftRightBounds | PropWare/filesystem/fat/fatfs.h:324 | `x >> n` is `x / 2^n` rounded down |
| FatFs.RootDirRounding | PropWare/filesystem/fat/fatfs.h:255-257 | the rounded-down root size of the layout equals the rounded-up size of the data count exactly when the root entries fill whole sectors (also lines 324-325) |
| FatFs.DetermineFatType | PropWare/filesystem/fat/fatfs.h:328-341 | below 4085 clusters UNSUPPORTED_FILESYSTEM, below 65525 FAT16 (256 two-byte entries per sector), otherwise FAT32 (128 four-byte entries) |
| FatFs.ClusterSector | PropWare/filesystem/fat/fatfs.h:446-451 | where nothing wraps, cluster c starts `(c − 2)·sectorsPerCluster` sectors after the first data sector |
| FatFs.StoreRootInfo | PropWare/filesystem/fat/fatfs.h:343-365 | fatStart = bootSector + reserved; data follow both FATs; on FAT16 the root lies between them and the data move on by the root size; on FAT32 the root is the cluster the boot sector names |
| FatFs.Parse | PropWare/filesystem/fat/fatfs.h:121-126 | the parsers run in `mount`'s order: a failure of the common parser or of the FAT-type decision is answered, otherwise the geometry is the parsers' results |
| FatFs.IsEocAsWritten | PropWare/filesystem/fat/fatfs.h:390-400 | as written, FAT16 accepts only the value -1 and FAT32 only values whose low 28 bits are 0x0FFFFFFF |
| FatFs.EocMarkers | PropWare/filesystem/fat/fatfs.h:390-400 | the corrected test accepts all eight end markers of each type and never a free entry, and everything the test as written accepts |
| FatFs.EocFat16Missed | PropWare/filesystem/fat/fatfs.h:392-393 | FAT16's end marker 0xFFFF, as `get_fat_value` reads it, is not an end of chain as written |
| FatFs.EocFat32Missed | PropWare/filesystem/fat/fatfs.h:394-396 | the FAT32 end marker 0x0FFFFFF8 is not an end of chain as written |
| FatFs.GetFatSectorOffset | PropWare/filesystem/fat/fatfs.h:657-660 | the entry's byte offset is `(c mod entriesPerSector)·entrySize`, aligned, with the whole entry inside the 512-byte sector |
| FatFs.EntryOf | PropWare/filesystem/fat/fatfs.h:427-434 | `get_fat_value` reads two bytes on FAT16 and four bytes with the top four bits cleared on FAT32 |
| FatFs.EntryWriteRead | PropWare/filesystem/fat/fatfs.h:427-434 | an entry reads back what was written to it, cut to its width, and the other entries keep their values (also lines 592-597) |
| FatFs.PerSectorIsShift | PropWare/filesystem/fat/fatfs.h:336-340 | 256 FAT16 or 128 FAT32 entries per sector, `1 << entriesShift` |
| FatFs.FlushOf | PropWare/filesystem/fat/fatfs.h:586-597 | a modified buffer is written to its sector of both FATs, `fatSize` sectors apart, and the flag cleared; a failed write answers its error and keeps the flag; an unmodified buffer writes nothing |
| FatFs.ReloadOf | PropWare/filesystem/fat/fatfs.h:414-418 | the buffer is flushed, the new sector becomes the current one and is read |
| FatFs.GetFatValueOf | PropWare/filesystem/fat/fatfs.h:411-437 | the sector holding entry n is loaded unless it is the current one, then the entry is read from the buffer |
| FatFs.SetEntryOf | PropWare/filesystem/fat/fatfs.h:493-499 | setting an entry of the loaded sector, at the FAT's width, changes that entry, to what its width keeps, and no other; the buffer is marked modified (also `find_empty_space` 540-541, 582-583 and `clear_chain` 616-619) |
| FatFs.FlushKeepsFat | PropWare/filesystem/fat/fatfs.h:586-597 | flushing keeps the FAT the driver presents and leaves the buffer equal to the device's copy |
| FatFs.GetFatValueReadsFat | PropWare/filesystem/fat/fatfs.h:411-437 | on a faultless device reading an entry answers the entry of the FAT, and the FAT presented is unchanged |
| FatFs.SetEntryChangesOne | PropWare/filesystem/fat/fatfs.h:493-499 | setting one entry of the loaded sector changes exactly that entry of the FAT presented |
| FatFs.ChainOf | PropWare/filesystem/fat/fatfs.h:605-632 | a chain starts at its head and follows each entry until an end of chain |
| FatFs.ClearOneClears | PropWare/filesystem/fat/fatfs.h:611-624 | one step of the corrected `clear_chain` answers the cluster's entry and sets it, and nothing else, to 0 |
| FatFs.ClearFromClears | PropWare/filesystem/fat/fatfs.h:605-632 | corrected `clear_chain` on a faultless device sets the entry of every cluster of the chain to 0 and leaves every other entry of the first FAT as it was |
| FatFs.ClearChainAsWritten | PropWare/filesystem/fat/fatfs.h:605-632 | as written, the buffer is marked modified only after the walk |
| FatFs.ClearChainLosesWrites | PropWare/filesystem/fat/fatfs.h:605-632 | as written, a two-cluster FAT32 chain across two FAT sectors keeps its first entry: the zero written there is dropped when the second sector is loaded; the corrected walk clears both |
| FatFs.MarkEocAsWritten | PropWare/filesystem/fat/fatfs.h:581-584 | as written, `mark_eoc` stores the FAT32 marker as four bytes whatever the FAT type |
| FatFs.MarkEocFat16Clobbers | PropWare/filesystem/fat/fatfs.h:581-584 | on FAT16, `mark_eoc` as written also sets the next entry to 0x0FFF; the corrected marking leaves it alone (also lines 640-641) |
| FatFs.TrimChainOf | PropWare/filesystem/fat/fatfs.h:634-655 | corrected `trim_chain`: the tail's entry is read; unless it is an end of chain, the tail is marked as the end and the clusters after it are cleared |
| FatFs.TrimChainTrims | PropWare/filesystem/fat/fatfs.h:634-655 | on a faultless device trimming makes the tail's entry an end of chain and frees the clusters that followed it, changing no other entry |
| FatFs.TrimLastAsWritten | PropWare/filesystem/fat/fatfs.h:634-655 | trimming a FAT32 chain at its last cluster: corrected it changes nothing; as written it clears the entry of cluster 0x0FFFFFFF, outside a smaller FAT |
| FatFs.FirstFreeSkips | PropWare/filesystem/fat/fatfs.h:528-533 | no entry the search passes over is free (also lines 546-551) |
| FatFs.FirstCandidate | PropWare/filesystem/fat/fatfs.h:540-544 | on FAT32 the search of the FAT's first sector starts at entry 9, keeping clusters 2 to 8 |
| FatFs.FindFreeOf | PropWare/filesystem/fat/fatfs.h:519-579 | corrected `find_empty_space`: the first free entry from the start candidate of the loaded sector on, then sector by sector, gets the end marker |
| FatFs.FreeAfterAllocates | PropWare/filesystem/fat/fatfs.h:528-560 | the search from a later sector marks the first free entry there as an end of chain and changes no other entry; with none free nothing changes |
| FatFs.FindFreeAllocates | PropWare/filesystem/fat/fatfs.h:519-579 | on a faultless device `find_empty_space` (corrected) marks the first free entry from its start on as an end of chain, answers its cluster and changes no other entry; when none is free nothing changes |
| FatFs.FindEmptySpaceAsWritten | PropWare/filesystem/fat/fatfs.h:519-579 | the search as written: FAT16 never resets the byte offset after the first sector; FAT32 flushes each full buffer to the loaded sector's place and answers a cluster from the original sector number |
| FatFs.FindEmptySpaceFat16OverRuns | PropWare/filesystem/fat/fatfs.h:528-536 | on FAT16 a loaded sector with no free entry sends the search as written past the 512-byte buffer, where the corrected search goes on to the next sectors |
| FatFs.FindEmptySpaceWrongSector | PropWare/filesystem/fat/fatfs.h:546-577 | on FAT32, when the loaded sector is full and the next one has a free entry, the search as written answers a cluster one sector's worth too low and overwrites the loaded sector on the device; the corrected search answers the free entry's own cluster |
| FatFs.ExtendFatOf | PropWare/filesystem/fat/fatfs.h:468-500 | corrected `extend_fat`: the tail's entry must be an end of chain (else INVALID_FAT_APPEND); a free cluster is found, marked as the new end, and stored in the tail's entry |
| FatFs.ExtendFatAppends | PropWare/filesystem/fat/fatfs.h:468-500 | on a faultless device extending appends exactly the first free cluster to the chain and changes no other entry, or answers INVALID_FAT_APPEND or EMPTY_FAT_ENTRY changing nothing |
| FatFs.ExtendTestAsWritten | PropWare/filesystem/fat/fatfs.h:482-487 | as written the tail's entry is read as four bytes and passed to `is_eoc` |
| FatFs.ExtendTestFat16Rejects | PropWare/filesystem/fat/fatfs.h:482-487 | as written a FAT16 chain end 0xFFFF followed by a free entry fails the test, so `extend_fat` refuses a chain that does end there; the corrected test accepts it |
| FatFs.MountOf | PropWare/filesystem/fat/fatfs.h:103-126 | a partition above 3 is refused before reading; a failed read answers its error; then the boot sector is located and parsed |
| FatFs.LocateBootSector | PropWare/filesystem/fat/fatfs.h:207-233 | `read_boot_sector` reads sector 0 and, for a partition table, the boot sector it names, as `BootSectorOf` says |
| FatFs.Probe | PropWare/filesystem/fat/fatfs.h:121-126 | the boot sector located and parsed, as `MountOf` describes it |
| FatFs.NextFreeSectorOn | PropWare/filesystem/fat/fatfs.h:528-560 | FAT sectors are read one after another until one holds a free entry |
| FatFs.FirstFreeInBuffer | PropWare/filesystem/fat/fatfs.h:530-533 | the first free entry of the buffer from a given entry on (also lines 548-551) |
| FatFs.FatFS.constructor | PropWare/filesystem/fat/fatfs.h:81-101 | a new driver uses the given FAT buffer, is not mounted and its buffer is unmodified |
| FatFs.FatFS.FsType | PropWare/filesystem/fat/fatfs.h:149-151 | `get_fs_type` is FAT16 or FAT32 once mounted |
| FatFs.FatFS.FlushFat | PropWare/filesystem/fat/fatfs.h:586-597 | `flush_fat` does what `FlushOf` says |
| FatFs.FatFS.GetFatValue | PropWare/filesystem/fat/fatfs.h:411-437 | `get_fat_value` does what `GetFatValueOf` says |
| FatFs.FatFS.MarkEoc | PropWare/filesystem/fat/fatfs.h:581-584 | corrected `mark_eoc`: the entry, in its own width, becomes the end marker |
| FatFs.FatFS.ClearChain | PropWare/filesystem/fat/fatfs.h:605-632 | corrected `clear_chain` does what `ClearFrom` says |
| FatFs.FatFS.TrimChain | PropWare/filesystem/fat/fatfs.h:634-655 | corrected `trim_chain` does what `TrimChainOf` says |
| FatFs.FatFS.FindEmptySpace | PropWare/filesystem/fat/fatfs.h:519-579 | corrected `find_empty_space` does what `FindFreeOf` says on a faultless device |
| FatFs.FatFS.ExtendFat | PropWare/filesystem/fat/fatfs.h:468-500 | on a faultless device, corrected `extend_fat` does what `ExtendFatOf` says, and tells the metadata its new next cluster |
| FatFs.FatFS.ExtendCurrentDirectory | PropWare/filesystem/fat/fatfs.h:456-458 | extends the current directory's chain |
| FatFs.FatFS.Unmount | PropWare/filesystem/fat/fatfs.h:136-141 | a mounted driver flushes the FAT buffer; an unmounted one does nothing |
| FatFs.FatFS.Mount | PropWare/filesystem/fat/fatfs.h:103-131 | refused with FILESYSTEM_ALREADY_MOUNTED when mounted; otherwise the FAT flag and the file ids are reset and the directory record named before the boot sector is read, and it is mounted exactly on success, with the geometry `MountOf` finds, an unmodified FAT buffer and the root loaded |
| FatFs.FatFS.LoadRoot | PropWare/filesystem/fat/fatfs.h:367-387 | `read_fat_and_root_sectors` loads the first FAT sector and the root's first sector, enters the root and mounts; a failed read answers its error |
| Lcd.MemMapOf | PropWare/hmi/output/hd44780.h:530-618 | every dimension gets 1, 2 or 4 rows and a row break of 8..40 columns; 4-row displays have line end `2·columns` (20x4 gives 4, 20, 20, 40); only 16x1 type 1 has a visible row longer than its row break, twice as long |
| Lcd.AddressOnGrid | PropWare/hmi/output/hd44780.h:288-315 | the DDRAM address of a cell: 0x40 for odd rows plus the row break for rows ≥ 2 on 4-row displays, 0x40 for row ≠ 0 on 2-row displays, and the second DDRAM line from the line end on the split 16x1 |
| Lcd.AddressInDdram | PropWare/hmi/output/hd44780.h:310 | every visible cell's address lies in the controller's two DDRAM lines, so `addr | SET_DDRAM_ADDR` is `addr + 0x80` |
| Lcd.AddressInjective | PropWare/hmi/output/hd44780.h:288-315 | distinct visible cells have distinct addresses |
| Lcd.SplitRowAsWritten | PropWare/hmi/output/hd44780.h:293 | as written, the split-row test `rowBreak > lineEnd` holds for no display, so the 16x1 type 1 addresses its ninth column at 0x08, off its visible DDRAM (also line 361) |
| Lcd.SplitRowAddresses | PropWare/hmi/output/hd44780.h:293-297 | corrected, columns 8..15 of the 16x1 type 1 are the first bytes of the second DDRAM line |
| Lcd.MoveTo | PropWare/hmi/output/hd44780.h:288-315 | `move` sends the address command and sets the position, touching no escape state |
| Lcd.NewlineOf | PropWare/hmi/output/hd44780.h:366-372 | `newline` goes to column 0 of the next row, row 0 after the last |
| Lcd.CarriageReturnOf | PropWare/hmi/output/hd44780.h:374-376 | `carriage_return` goes to column 0 of the same row |
| Lcd.BackspaceOf | PropWare/hmi/output/hd44780.h:378-393 | corrected `backspace` goes to the cell before in reading order |
| Lcd.WriteOf | PropWare/hmi/output/hd44780.h:348-362 | a printable char goes out as data and the column advances, with a newline on reaching `charColumns` |
| Lcd.TabGapShrinks | PropWare/hmi/output/hd44780.h:395-399 | each space of `tab` brings the column closer to the next multiple of 4, so the loop ends |
| Lcd.TabOf | PropWare/hmi/output/hd44780.h:395-399 | `tab` sends at least one space and stops on a column that is a multiple of 4 |
| Lcd.StartEscapeOf | PropWare/hmi/output/hd44780.h:438-442 | ESC opens a sequence whose text is ESC alone |
| Lcd.SemicolonFrom | PropWare/hmi/output/hd44780.h:482-483 | the first ';' at or after an index, with none skipped |
| Lcd.PerformOf | PropWare/hmi/output/hd44780.h:461-477 | acting on a final byte always leaves sequence mode |
| Lcd.WriteAdvances | PropWare/hmi/output/hd44780.h:348-356 | a printable char moves one column right, or wraps to column 0 of the next row, and stays on the grid |
| Lcd.NewlineWraps | PropWare/hmi/output/hd44780.h:366-372 | `newline` wraps from the last row to row 0 and stays on the grid |
| Lcd.BackspaceLeavesGrid | PropWare/hmi/output/hd44780.h:378-393 | as written, backspace from column 0 goes to column `charColumns` (and row `charRows` from row 0), off the grid, and the next char never wraps |
| Lcd.BackspaceStepsBack | PropWare/hmi/output/hd44780.h:378-393 | corrected, backspace steps one cell back in reading order and stays on the grid |
| Lcd.BackspaceUndoesWrite | PropWare/hmi/output/hd44780.h:348-393 | corrected backspace undoes the move of a printable char |
| Lcd.EscapeStep | PropWare/hmi/output/hd44780.h:444-459 | a char in an open sequence is stored while fewer than 31 are buffered; the sequence ends exactly on a final byte ('@'..'~', section 5.4 of ECMA-48) past the second position, or when the buffer is full |
| Lcd.PutsAppend | PropWare/hmi/output/hd44780.h:317-324 | `puts` of two strings in turn is `puts` of their concatenation |
| Lcd.EscapeCollects | PropWare/hmi/output/hd44780.h:444-459 | chars that are neither NUL nor final are collected into an open sequence and change nothing else |
| Lcd.NumberAt | PropWare/hmi/output/hd44780.h:480 | `atoi` reads back a decimal number ended by a non-digit (also line 484) |
| Lcd.CursorPosition | PropWare/hmi/output/hd44780.h:461-485 | "ESC [ r ; c H" moves the cursor to (r−1, c−1) (section 8.3.21 of ECMA-48) with one address command and nothing else |
| Lcd.CupFinal | PropWare/hmi/output/hd44780.h:465-467 | the final 'H' of a collected "ESC [ r ; c" moves the cursor there (also lines 479-485) |
| Lcd.CursorVisibility | PropWare/hmi/output/hd44780.h:468-473 | "ESC [ h" shows and "ESC [ l" hides the cursor, with one command each |
| Lcd.OpenBracket | PropWare/hmi/output/hd44780.h:444-459 | '[' right after ESC is stored, not taken as a final byte |
| Lcd.Hd44780.constructor | PropWare/hmi/output/hd44780.h:189-203 | a new display is at (0, 0), has sent nothing, has no sequence open and uses the memory map of its dimensions |
| Lcd.Hd44780.Clear | PropWare/hmi/output/hd44780.h:275-280 | `clear` sends CLEAR and homes the cursor |
| Lcd.Hd44780.Move | PropWare/hmi/output/hd44780.h:288-315 | `move` does what `MoveTo` says |
| Lcd.Hd44780.Newline | PropWare/hmi/output/hd44780.h:366-372 | `newline` does what `NewlineOf` says |
| Lcd.Hd44780.CarriageReturn | PropWare/hmi/output/hd44780.h:374-376 | `carriage_return` does what `CarriageReturnOf` says |
| Lcd.Hd44780.Backspace | PropWare/hmi/output/hd44780.h:378-393 | corrected `backspace` does what `BackspaceOf` says |
| Lcd.Hd44780.WriteChar | PropWare/hmi/output/hd44780.h:348-362 | the `default:` branch of `put_char` does what `WriteOf` says |
| Lcd.Hd44780.Tab | PropWare/hmi/output/hd44780.h:395-399 | `tab` does what `TabOf` says |
| Lcd.Hd44780.ShowCursor | PropWare/hmi/output/hd44780.h:401-403 | sends the show-cursor command and nothing else |
| Lcd.Hd44780.HideCursor | PropWare/hmi/output/hd44780.h:405-407 | sends the hide-cursor command and nothing else |
| Lcd.Hd44780.StartEscapeSequence | PropWare/hmi/output/hd44780.h:438-442 | opens a sequence holding ESC |
| Lcd.Hd44780.MoveViaCommandSequence | PropWare/hmi/output/hd44780.h:479-485 | moves to the row after "ESC [" and the column after the first ';', each minus one, cut to 8 bits |
| Lcd.Hd44780.PerformEscapeSequenceCommand | PropWare/hmi/output/hd44780.h:461-477 | does what `PerformOf` says |
| Lcd.Hd44780.HandleEscapeSequenceCharacter | PropWare/hmi/output/hd44780.h:444-459 | does what `HandleEscapeOf` says |
| Lcd.Hd44780.PutChar | PropWare/hmi/output/hd44780.h:326-364 | `put_char` does what `PutCharOf` says |
| Lcd.Hd44780.Puts | PropWare/hmi/output/hd44780.h:317-324 | `puts` feeds every char before the NUL to `put_char`, in order |
| VgaText.CRem | PropWare/hmi/output/video/vgatext.h:142-144 | C's truncating `%`: Dafny's remainder for non-negative operands, and strictly inside (−n, n) |
| VgaText.CellRoundTrip | PropWare/hmi/output/video/vgatext.h:176 | the word `print` stores shows the colour it was given and the character's byte |
| VgaText.CellSplit | PropWare/hmi/output/video/vgatext.h:176 | a screen word splits into its colour, odd/even half and low ten bits |
| VgaText.Scrolled | PropWare/hmi/output/video/vgatext.h:187-196 | scrolling keeps the 480-word screen size |
| VgaText.ScrollMovesRows | PropWare/hmi/output/video/vgatext.h:187-196 | scrolling moves every row up one and blanks the last row with 0x220 |
| VgaText.NewlineOf | PropWare/hmi/output/video/vgatext.h:182-198 | `newline` goes to column 0, keeps colour and flag, and stays on the screen |
| VgaText.PrintOf | PropWare/hmi/output/video/vgatext.h:175-180 | `print` keeps the terminal's invariant, colour and flag, and moves one column right or to column 0 |
| VgaText.PrintWrites | PropWare/hmi/output/video/vgatext.h:175-198 | `print` writes exactly the cell under the cursor, then moves right, to the next row, or scrolls on the last row |
| VgaText.TabGapShrinks | PropWare/hmi/output/video/vgatext.h:131-133 | each space of a tab brings the column closer to the next multiple of 8, so the loop ends |
| VgaText.TabOf | PropWare/hmi/output/video/vgatext.h:130-133 | a tab stops on a column that is a multiple of 8 |
| VgaText.TabStops | PropWare/hmi/output/video/vgatext.h:130-133 | a tab moves to the next tab stop; within a row it writes spaces into exactly the cells it passes |
| VgaText.SpacesCells | PropWare/hmi/output/video/vgatext.h:131-133 | the cells a run of spaces covers hold the space word, and the others are kept |
| VgaText.SameStop | PropWare/hmi/output/video/vgatext.h:133 | off a tab stop, the next column shares the next stop |
| VgaText.TabMore | PropWare/hmi/output/video/vgatext.h:131-133 | a space short of a tab stop leaves the rest of the tab to the next column |
| VgaText.TabLast | PropWare/hmi/output/video/vgatext.h:131-133 | the space that reaches a tab stop is the tab's last |
| VgaText.PutCharOf | PropWare/hmi/output/video/vgatext.h:115-149 | `put_char` keeps the terminal's invariant, and the flag is armed by 10..12 and cleared by anything else |
| VgaText.ControlPrefix | PropWare/hmi/output/video/vgatext.h:134-148 | codes 10, 11 and 12 only arm the flag; the byte after them sets the column (mod 32), the row (mod 15) or the colour (`& 7`) and writes no cell |
| VgaText.PutsOf | PropWare/hmi/output/video/vgatext.h:97-100 | the chars of a text, in order, keep the terminal's invariant and leave the flag the text's last control code sets |
| VgaText.PutsSnoc | PropWare/hmi/output/video/vgatext.h:97-100 | one more char is one more `put_char` |
| VgaText.PutsSnocPrintable | PropWare/hmi/output/video/vgatext.h:97-100 | the same for a text without negative chars, whose positions are always fine |
| VgaText.NonNegativePositions | PropWare/hmi/output/video/vgatext.h:141-144 | a text without negative chars never sets a negative column or row |
| VgaText.PositionsPrefix | PropWare/hmi/output/video/vgatext.h:97-100 | a prefix of a text with fine positions has fine positions |
| VgaText.PutsStep | PropWare/hmi/output/video/vgatext.h:97-100 | one step of the `puts` loop is one `put_char` |
| VgaText.CStrLen | PropWare/hmi/output/video/vgatext.h:98 | the chars before the first 0 |
| VgaText.ColorLong | PropWare/hmi/output/video/vgatext.h:169-170 | a palette long is wrapped to 32 bits |
| VgaText.ColorBytes | PropWare/hmi/output/video/vgatext.h:163-172 | a palette long holds its four colour bytes, most significant first |
| VgaText.Terminal.constructor | PropWare/hmi/output/video/vgatext.h:46-60 | `start` loads the default palette and leaves a cleared screen with the cursor home, colour 0 and no flag |
| VgaText.Terminal.SetColors | PropWare/hmi/output/video/vgatext.h:163-172 | each of the eight pairs gives the longs `f,b,f,b` and `f,f,b,b` of its colours shifted left by 2 |
| VgaText.Terminal.ClearScreen | PropWare/hmi/output/video/vgatext.h:117-123 | all 480 words hold 0x220 |
| VgaText.Terminal.MoveRowsUp | PropWare/hmi/output/video/vgatext.h:187 | the `memmove` copies rows 1.. onto rows 0.. and leaves the last row |
| VgaText.Terminal.ClearLastRow | PropWare/hmi/output/video/vgatext.h:189-196 | the last row holds 0x220 and the rest is kept |
| VgaText.Terminal.Newline | PropWare/hmi/output/video/vgatext.h:182-198 | `newline` does what `NewlineOf` says |
| VgaText.Terminal.Print | PropWare/hmi/output/video/vgatext.h:175-180 | `print` does what `PrintOf` says |
| VgaText.Terminal.Tab | PropWare/hmi/output/video/vgatext.h:130-133 | the do-while of spaces does what `TabOf` says |
| VgaText.Terminal.PutChar | PropWare/hmi/output/video/vgatext.h:115-149 | `put_char` does what `PutCharOf` says |
| VgaText.Terminal.Puts | PropWare/hmi/output/video/vgatext.h:97-100 | `puts` does what `PutsOf` says of the chars before the terminator |
| VgaTextCpp.Between | PropWare/hmi/output/video/vgatext.cpp:24-28 | `Between__` holds exactly when x lies between a and b, in either order |
| VgaTextCpp.Lookup | PropWare/hmi/output/video/vgatext.cpp:30-33 | `Lookup__` gives entry x − b of the table, and 0 when that index, taken unsigned, is past the end |
| VgaTextCpp.Out | PropWare/hmi/output/video/vgatext.cpp:136-175 | `out` does what the header's `put_char` does, and returns 0 |
| VgaTextCpp.Str | PropWare/hmi/output/video/vgatext.cpp:86-90 | `str` sends every char before the terminator through `out`, in order |
| VgaTextCpp.CodesAppend | PropWare/hmi/output/video/vgatext.cpp:86-90 | the signed codes of two texts are those of their concatenation |
| VgaTextCpp.DecDigitsPrinted | PropWare/hmi/output/video/vgatext.cpp:92-113 | the digits `dec` prints are the decimal digits of the formatted printer |
| VgaTextCpp.DecTextValue | PropWare/hmi/output/video/vgatext.cpp:92-113 | `dec` prints '-' exactly for a negative value, then digits that read back as the magnitude and start with '0' only for zero |
| VgaTextCpp.DecimalSnoc | PropWare/hmi/output/video/vgatext.cpp:101-112 | a digit appended to a positive number appends its character |
| VgaTextCpp.DecDigitTurn | PropWare/hmi/output/video/vgatext.cpp:101-112 | one turn of the loop extends the digits shown by the digit, by a zero once printing started or at the units place, or by nothing for a leading zero |
| VgaTextCpp.DecEmit | PropWare/hmi/output/video/vgatext.cpp:102-103 | one more digit printed is one more `out` |
| VgaTextCpp.Place | PropWare/hmi/output/video/vgatext.cpp:102-104 | the digit of the rest at place `10^n` is below 10, and the rest below the place is what is left |
| VgaTextCpp.DecSplit | PropWare/hmi/output/video/vgatext.cpp:102-111 | moving the digit at place `10^n` into the places done keeps the whole magnitude |
| VgaTextCpp.DecRestTurn | PropWare/hmi/output/video/vgatext.cpp:101-112 | one turn moves the digit at place `10^n` from what is left to print into what is shown |
| VgaTextCpp.DecRestDigits | PropWare/hmi/output/video/vgatext.cpp:101-112 | from any place, the loop prints exactly the remaining digits of the magnitude |
| VgaTextCpp.QuotRem | PropWare/hmi/output/video/vgatext.cpp:103-104 | on natural numbers C's truncating `/` and `%` agree with Dafny's |
| VgaTextCpp.DivMod | PropWare/hmi/output/video/vgatext.cpp:103-104 | `value / i` and `value % i` on the non-negative rest |
| VgaTextCpp.DecStep | PropWare/hmi/output/video/vgatext.cpp:101-112 | one turn of the loop keeps the rest below ten places and the printed digits a prefix of all the digits |
| VgaTextCpp.DecDigit | PropWare/hmi/output/video/vgatext.cpp:102-105 | the first branch prints the digit of the rest at the place and keeps the loop's invariant |
| VgaTextCpp.DecZero | PropWare/hmi/output/video/vgatext.cpp:106-109 | the second branch prints a zero inside the number or the lone zero of 0, and keeps the loop's invariant |
| VgaTextCpp.DecTurn | PropWare/hmi/output/video/vgatext.cpp:101-112 | a turn of the loop keeps its invariant one place lower |
| VgaTextCpp.DecSign | PropWare/hmi/output/video/vgatext.cpp:96-99 | a negative value prints its '-' and goes on with its magnitude |
| VgaTextCpp.DecPlaces | PropWare/hmi/output/video/vgatext.cpp:100-112 | the ten turns print all the digits of the magnitude |
| VgaTextCpp.Dec | PropWare/hmi/output/video/vgatext.cpp:92-113 | `dec` puts `DecText(value)` through `out` |
| VgaTextCpp.Glyph | PropWare/hmi/output/video/vgatext.cpp:118 | the digit character of a nibble is the table's, '0'..'9' or 'A'..'F' |
| VgaTextCpp.DigitRoundTrip | PropWare/hmi/output/video/vgatext.cpp:118-122 | a hex digit character reads back as its nibble |
| VgaTextCpp.HexRoundTrip | PropWare/hmi/output/video/vgatext.cpp:115-124 | the n hex digits `hex` prints read back as the low 4n bits of the value |
| VgaTextCpp.BinRoundTrip | PropWare/hmi/output/video/vgatext.cpp:126-134 | the n binary digits `bin` prints read back as the low n bits of the value |
| VgaTextCpp.HexStep | PropWare/hmi/output/video/vgatext.cpp:115-124 | if the digits above the low nibble read back, so do all n |
| VgaTextCpp.BinStep | PropWare/hmi/output/video/vgatext.cpp:126-134 | if the digits above the low bit read back, so do all n |
| VgaTextCpp.Turned4Rotl | PropWare/hmi/output/video/vgatext.cpp:16-18 | k rotations by four bits are one rotation by 4k (also line 122) |
| VgaTextCpp.Turned1Rotl | PropWare/hmi/output/video/vgatext.cpp:16-18 | k rotations by one bit are one rotation by k (also line 132) |
| VgaTextCpp.HexDigitTurned | PropWare/hmi/output/video/vgatext.cpp:120-122 | after k turns, the low nibble of the rotated value is digit k of those `hex` prints |
| VgaTextCpp.BinDigitTurned | PropWare/hmi/output/video/vgatext.cpp:130-132 | after k turns, the low bit of the rotated value is bit k of those `bin` prints |
| VgaTextCpp.HexPrintedPrefix | PropWare/hmi/output/video/vgatext.cpp:120-123 | the first k digits `hex` prints are the top k of the low digits it prints |
| VgaTextCpp.BinPrintedPrefix | PropWare/hmi/output/video/vgatext.cpp:130-133 | the first k bits `bin` prints are the top k of the low bits it prints |
| VgaTextCpp.HexPrintedAll | PropWare/hmi/output/video/vgatext.cpp:120-123 | after its turns `hex` has printed the requested low hex digits of the value |
| VgaTextCpp.BinPrintedAll | PropWare/hmi/output/video/vgatext.cpp:130-133 | after its turns `bin` has printed the requested low bits of the value |
| VgaTextCpp.HexEmit | PropWare/hmi/output/video/vgatext.cpp:122 | the table lookup of one turn is one more `out` of a non-negative char |
| VgaTextCpp.BinEmit | PropWare/hmi/output/video/vgatext.cpp:132 | the '0'/'1' of one turn is one more `out` of a non-negative char |
| VgaTextCpp.Hex | PropWare/hmi/output/video/vgatext.cpp:115-124 | `hex` puts the requested low hex digits of the value through `out`, most significant first, upper case |
| VgaTextCpp.Bin | PropWare/hmi/output/video/vgatext.cpp:126-134 | `bin` puts the requested low bits of the value through `out` as '0'/'1', most significant first |
| Uart.ParityBits | PropWare/uart.h:329-331 | a frame carries one parity bit exactly when parity is not NO_PARITY |
| Uart.Ones | PropWare/uart.h:302-304 | the stop-bit loop's run of ones is one less than a power of two |
| Uart.OnesShifted | PropWare/uart.h:300-310 | a run of ones shifted up is the difference of two powers of two |
| Uart.FrameFits | PropWare/uart.h:126-193 | every data width (1..16) and stop-bit width (1..14) the setters accept gives a frame of at most 32 bits with a stop mask below 2^32 |
| Uart.FrameContiguous | PropWare/uart.h:300-332 | data bits, parity bit and stop bits fill the frame above the start bit without gap or overlap |
| Uart.StopMaskMoves | PropWare/uart.h:126-140 | a stop-bit mask placed for one data width is misplaced for any other, so `set_data_width` leaves it stale (also lines 300-311) |
| Uart.ParityMaskTruncated | PropWare/uart.h:317-319 | as written, 16 data bits give the `uint16_t` parity mask 0, where the parity bit is 2^16 |
| Uart.ParityMaskFits | PropWare/uart.h:317-319 | below 16 data bits the `uint16_t` parity mask holds the intended bit |
| Uart.Uart.constructor | PropWare/uart.h:289-294 | 8 data bits, no parity, 1 stop bit, 115200 baud: masks 0xFF, 0x100 and 0x100, and 10 bits a frame |
| Uart.Uart.SetDataWidth | PropWare/uart.h:126-140 | widths 1..16 set the data mask, parity mask and frame length, others give INVALID_DATA_WIDTH and change nothing; the stop mask is not moved, so it stays in place exactly when the width is unchanged |
| Uart.Uart.SetParity | PropWare/uart.h:156-161 | the parity is stored and the parity mask, stop mask and frame length follow it |
| Uart.Uart.SetStopBitWidth | PropWare/uart.h:181-193 | widths 1..14 set the stop mask and frame length, others give INVALID_STOP_BIT_WIDTH and change nothing |
| Uart.Uart.SetBaudRate | PropWare/uart.h:218-224 | rates above MAX_BAUD give BAUD_TOO_HIGH and change nothing; otherwise the bit time is `CLKFREQ / baud` cycles |
| Uart.Uart.SetStopBitMask | PropWare/uart.h:300-311 | the loop builds `stopBitWidth` ones, shifted past the data bits and the parity bit |
| Uart.Uart.SetParityMask | PropWare/uart.h:317-319 | corrected, the parity mask is the bit just above the data bits |
| Uart.Uart.SetTotalBits | PropWare/uart.h:327-332 | start bit, data bits, the parity bit if any, stop bits |
| Uart.FullDuplexUart.constructor | PropWare/uart.h:388-391 | the defaults, with the receive mask and receivable bits derived from them |
| Uart.FullDuplexUart.SetDataWidth | PropWare/uart.h:431-440 | the base setter, then the receive-side fields unless it failed |
| Uart.FullDuplexUart.SetParity | PropWare/uart.h:445-449 | the base setter, then the receive-side fields |
| Uart.FullDuplexUart.SetMsbMask | PropWare/uart.h:516-523 | the bit `receive` shifts samples into: the parity bit with parity, else the top data bit |
| Uart.FullDuplexUart.SetReceivableBits | PropWare/uart.h:529-534 | data bits plus the parity bit if any |
| Uart.MsbMaskIsLastBit | PropWare/uart.h:476-486 | shifting into the msb mask for `receivableBits` samples leaves the first sample at bit 0, and with parity the msb mask is the parity mask (also lines 516-523) |
| PwEdit.LastColumn | PropWare/hmi/pwedit.h:443 | corrected, the last column the cursor may select: `length − 1`, and 0 on an empty line (also lines 484, 536, 573, 579) |
| PwEdit.RowText | PropWare/hmi/pwedit.h:289-301 | `print_line_at_row` prints exactly `columns` cells |
| PwEdit.RowTextCells | PropWare/hmi/pwedit.h:296-300 | cell i of a row shows character `first + i` of the line, or a blank past its end |
| PwEdit.Window | PropWare/hmi/pwedit.h:274-287 | `display_file_from` prints a cursor move and a row text for each of the `rows` rows |
| PwEdit.WindowRows | PropWare/hmi/pwedit.h:274-287 | row r of the window is placed at (r, 1) and shows line `firstLine + r − 1` from the first column |
| PwEdit.WindowQuiet | PropWare/hmi/pwedit.h:274-301 | a redraw never rings the bell |
| PwEdit.MoveRightOf | PropWare/hmi/pwedit.h:395-409 | at the line end a bell and no motion; otherwise one column right, scrolling exactly when the cursor is within PADDING of the right edge and the line runs past the window; the desired column follows; the editor invariant is kept |
| PwEdit.MoveLeftOf | PropWare/hmi/pwedit.h:411-423 | at column 0 a bell and no motion; otherwise one column left, scrolling exactly when the cursor is within PADDING of the left edge and the window does not start at column 0; the editor invariant is kept |
| PwEdit.TrimColumnOf | PropWare/hmi/pwedit.h:425-453 | a target line not longer than the selected column selects its last column, and the window moves there (asking for a redraw) exactly when it lay to the right |
| PwEdit.ExpandColumnOf | PropWare/hmi/pwedit.h:455-496 | corrected, the column moves back towards the desired one only when the line extends past the column selected before the move and the desired one differs; it never passes the line's last column or the desired column, and the cursor still shows it |
| PwEdit.ToFileStartOf | PropWare/hmi/pwedit.h:498-511 | line 0, column 0, cursor (1, 1), redrawn exactly when the window origin was not (0, 0) |
| PwEdit.ToFileEndOf | PropWare/hmi/pwedit.h:513-544 | corrected, the last column of the last line, on the bottom row, with the window scrolled right just far enough, redrawn when the window was elsewhere |
| PwEdit.ToFileEndIdempotent | PropWare/hmi/pwedit.h:513-544 | a second `to_file_end` keeps the view and redraws nothing: it only places the cursor again |
| PwEdit.ToLineStartOf | PropWare/hmi/pwedit.h:546-557 | column 0, redrawing only when the window did not start at column 0; nothing at column 0 |
| PwEdit.ToLineEndOf | PropWare/hmi/pwedit.h:559-576 | the last column of the line, scrolling exactly when the line runs past the window; nothing when already at the end |
| PwEdit.MoveDownOf | PropWare/hmi/pwedit.h:345-369 | on the last line a bell at its end and otherwise `to_file_end`; elsewhere the next line, keeping the desired column, scrolling exactly when within PADDING of the bottom with lines below |
| PwEdit.MoveUpOf | PropWare/hmi/pwedit.h:371-393 | on line 0 `to_file_start` off column 0 and a bell at it; elsewhere the previous line, scrolling exactly when within PADDING of the top and the window is not at line 0 |
| PwEdit.LastIndexAsWritten | PropWare/hmi/pwedit.h:443 | as written, the unsigned `length − 1`: `length − 1` for a non-empty line (also lines 484, 536, 579) |
| PwEdit.TrimmedColumnAsWritten | PropWare/hmi/pwedit.h:441-443 | as written, the column is kept when the line is longer than it |
| PwEdit.EmptyLineWraps | PropWare/hmi/pwedit.h:443 | as written, moving onto an empty line selects column 4294967295, and there `cursor_at_end` does not hold (also line 579) |
| PwEdit.ExpandColumnAsWritten | PropWare/hmi/pwedit.h:455-496 | as written, the line, desired column and vertical window are kept |
| PwEdit.ExpandPastEnd | PropWare/hmi/pwedit.h:481-482 | as written, the desired column 9 is restored on a 9-character line, one past its end; corrected, column 8 |
| PwEdit.ExpandScrollOffByOne | PropWare/hmi/pwedit.h:486-492 | as written, the window scrolls one column too far (the cursor does not show the column) or not at all (the cursor leaves the terminal); corrected, the cursor shows the column |
| PwEdit.ToFileEndAsWritten | PropWare/hmi/pwedit.h:513-544 | as written, the last line on the bottom row |
| PwEdit.ToFileEndOffByOne | PropWare/hmi/pwedit.h:526-539 | as written, a 10-character last line on 4 columns puts the cursor on column 8 while column 9 is selected; corrected, the cursor shows it |
| PwEdit.Kept | PropWare/hmi/pwedit.h:256-258 | the kept characters are printable (32..127), in order, and no more than the record's |
| PwEdit.KeptPrintable | PropWare/hmi/pwedit.h:256-258 | a record of printable characters is kept whole |
| PwEdit.RecordLength | PropWare/hmi/pwedit.h:254-259 | the record ends at its first '\r' or '\n', or runs to the end of the text |
| PwEdit.NextRecord | PropWare/hmi/pwedit.h:259-264 | the next record starts after the line end, and after the '\n' of a "\r\n" |
| PwEdit.Load | PropWare/hmi/pwedit.h:246-272 | corrected, the load is complete exactly when the text is empty or ends with a line end, and gives at most one line per character |
| PwEdit.LoadPrintable | PropWare/hmi/pwedit.h:256-258 | every loaded line holds printable characters only |
| PwEdit.RecordStops | PropWare/hmi/pwedit.h:254-259 | the inner loop stops on the record's line end, passing no other |
| PwEdit.RecordEnds | PropWare/hmi/pwedit.h:254-259 | the characters read up to the line end are the record, and the kept ones leave the line end out |
| PwEdit.KeptStep | PropWare/hmi/pwedit.h:255-258 | one more character read is kept if it is printable |
| PwEdit.LoadNext | PropWare/hmi/pwedit.h:250-270 | each pass of the outer loop adds the record's kept characters as the next line and continues after its line end |
| PwEdit.LoadDone | PropWare/hmi/pwedit.h:250 | at end of file every line is loaded |
| PwEdit.SaveText | PropWare/hmi/pwedit.h:681-685 | corrected, what `save` writes: each line followed by '\n' |
| PwEdit.LoadSaveText | PropWare/hmi/pwedit.h:246-272 | loading what the corrected `save` writes gives back the lines (also lines 663-693) |
| PwEdit.LoadAsWritten | PropWare/hmi/pwedit.h:246-272 | as written, a '\n' is munched after any line end |
| PwEdit.BlankLineMunched | PropWare/hmi/pwedit.h:261-264 | as written, the blank line in "x\n\ny\n" disappears |
| PwEdit.BlankLineKept | PropWare/hmi/pwedit.h:261-264 | corrected, the blank line in "x\n\ny\n" is kept |
| PwEdit.BlankFirstLoaded | PropWare/hmi/pwedit.h:246-272 | a leading blank line is loaded as an empty line |
| PwEdit.OneLineLoaded | PropWare/hmi/pwedit.h:246-272 | "y\n" loads as one line |
| PwEdit.LineFeedLoaded | PropWare/hmi/pwedit.h:246-272 | a line and its '\n' load as that line, then whatever follows |
| PwEdit.SaveTextAsWritten | PropWare/hmi/pwedit.h:681-685 | as written, `save` writes the lines' characters with no line ends |
| PwEdit.SaveJoinsLines | PropWare/hmi/pwedit.h:684 | as written, ["ab", "cd"] is saved as "abcd", which loads as no line at all |
| PwEdit.SaveTextAppend | PropWare/hmi/pwedit.h:681-685 | saving `a + b` writes what saving `a` then `b` writes |
| PwEdit.SaveTextPrefix | PropWare/hmi/pwedit.h:681-685 | the text of the first `i + 1` lines is that of the first i, then line i and its '\n' |
| PwEdit.SaveTextGrows | PropWare/hmi/pwedit.h:681-685 | saving more lines writes at least as much |
| PwEdit.LinesWritten | PropWare/hmi/pwedit.h:681-685 | the lines a file of limited room takes whole: the longest prefix that fits |
| PwEdit.WriteFits | PropWare/hmi/pwedit.h:681-685 | a line that does not fit cuts the whole text at the file's room |
| PwEdit.Counter | PropWare/hmi/pwedit.h:682-683 | the line counter shows number i at column 4 of the last row for each line i |
| PwEdit.SaveOf | PropWare/hmi/pwedit.h:663-693 | nothing when unmodified; otherwise success exactly clears the flag and leaves the saved text; a failed open or trim keeps the old file and the flag; a failed write leaves what fitted |
| PwEdit.WriteOf | PropWare/hmi/pwedit.h:680-687 | the writing half: the whole text on success, else the text cut at the file's room |
| PwEdit.WriteOfCases | PropWare/hmi/pwedit.h:680-687 | either a line does not fit and the write error is returned, or every line is written and the close result is returned |
| PwEdit.SaveSucceeds | PropWare/hmi/pwedit.h:663-693 | `save` succeeds exactly when the text is unmodified, or open, trim, every write and close succeed |
| PwEdit.KeysToEnter | PropWare/hmi/pwedit.h:174-239 | the keys read up to and including the first '\r', '\n' or NUL (also lines 637-645, 696-698) |
| PwEdit.CalibrateKey | PropWare/hmi/pwedit.h:177-238 | 'a'/'h' and 'w'/'k' shrink the frame while it is larger than 1, 'd'/'l' and 's'/'j' grow it, by exactly one |
| PwEdit.Calibrated | PropWare/hmi/pwedit.h:164-244 | calibration never leaves fewer than one row and one column |
| PwEdit.CalibratedKeys | PropWare/hmi/pwedit.h:174-239 | keys other than the eight frame keys do not change the size |
| PwEdit.ClearEvents | PropWare/hmi/pwedit.h:303-308 | `clear()` blanks every row, then homes the cursor |
| PwEdit.Echoes | PropWare/hmi/pwedit.h:637-645 | each command key is echoed as typed |
| PwEdit.CommandOf | PropWare/hmi/pwedit.h:582-635 | a command without a leading 'w' changes no file; a failed save ends it with its error; the editor exits exactly when the save succeeded and the command (after any 'w') is 'q' with an unmodified text or "q!" |
| PwEdit.TypedLine | PropWare/hmi/pwedit.h:637-645 | a command line ended by an enter key is read whole, and reading stops right after it |
| PwEdit.WriteQuitExits | PropWare/hmi/pwedit.h:597-630 | ":wq" with a file that takes the whole text saves it and exits |
| PwEdit.QuitRefused | PropWare/hmi/pwedit.h:604-624 | ":q" on a modified text is refused, keeps the text and skips the keys up to the next enter key |
| PwEdit.QuitDiscards | PropWare/hmi/pwedit.h:604-612 | ":q!" exits without saving |
| PwEdit.MoveSelectionOf | PropWare/hmi/pwedit.h:328-343 | `move_selection` dispatches to the four moves |
| PwEdit.DispatchColon | PropWare/hmi/pwedit.h:153-154 | only ':' starts a command |
| PwEdit.DispatchKeys | PropWare/hmi/pwedit.h:124-156 | exactly the keys "ahsjdlwkgG0$:" do something in the key loop |
| PwEdit.KeyOf | PropWare/hmi/pwedit.h:124-156 | every key but ':' keeps the editor invariant, and a key outside the map changes nothing |
| PwEdit.Progress | PropWare/hmi/pwedit.h:268-269 | the counter shows "Line: " and the line count on row 2 after each line |
| PwEdit.SizeShown | PropWare/hmi/pwedit.h:241-243 | the end of `calibrate`: cursor shown, screen cleared, "columns x rows " |
| PwEdit.SessionOf | PropWare/hmi/pwedit.h:122-157 | the key loop ends when a command fails or exits (or when the keys run out), keeping the editor invariant |
| PwEdit.SessionCommand | PropWare/hmi/pwedit.h:153-157 | ':' runs a command, and the loop goes on unless it failed or exited |
| PwEdit.SessionKey | PropWare/hmi/pwedit.h:124-157 | any other key moves the view as `KeyOf` says, and the loop goes on |
| PwEdit.Keyboard.GetChar | PropWare/hmi/pwedit.h:123 | the next key, or a NUL once the keys run out |
| PwEdit.InFile.Open | PropWare/hmi/pwedit.h:249 | the file opened at its start, unless opening fails |
| PwEdit.InFile.SafeGetChar | PropWare/filesystem/fat/fatfilereader.h:115-132 | the byte under the pointer, which advances by one, with no end test; or, where the sector load fails, its error with the pointer kept |
| PwEdit.InFile.Peek | PropWare/filesystem/filereader.h:101-105 | `get_char` then the pointer stepped back by one whatever the read did: the byte under the pointer with the pointer kept, or `(char) -1` with the pointer one before where it was |
| PwEdit.InFile.Close | PropWare/hmi/pwedit.h:114 | the close result, and the file closed |
| PwEdit.OutFile.Open | PropWare/hmi/pwedit.h:672 | the open result |
| PwEdit.OutFile.Trim | PropWare/hmi/pwedit.h:676 | the file emptied, unless trimming fails |
| PwEdit.OutFile.SafePuts | PropWare/hmi/pwedit.h:684 | the characters in order until the file takes no more; what was written remains |
| PwEdit.OutFile.Close | PropWare/hmi/pwedit.h:686 | the close result |
| PwEdit.Editor.constructor | PropWare/hmi/pwedit.h:87-97 | no lines, no columns, one row, unmodified, and the four collaborators stored |
| PwEdit.Editor.PrintLineAtRow | PropWare/hmi/pwedit.h:289-301 | prints what `RowEvents` says |
| PwEdit.Editor.DisplayFileFrom | PropWare/hmi/pwedit.h:274-287 | prints the window of `Window` and records its first line |
| PwEdit.Editor.ClearRow | PropWare/hmi/pwedit.h:310-314 | `columns + 1` blanks from the start of the row |
| PwEdit.Editor.Clear | PropWare/hmi/pwedit.h:303-308 | every row blanked then the cursor home, or only the cursor home |
| PwEdit.Editor.MoveCursor | PropWare/hmi/pwedit.h:316-318 | one cursor placement |
| PwEdit.Editor.HideCursor | PropWare/hmi/pwedit.h:320-322 | the hide-cursor sequence |
| PwEdit.Editor.ShowCursor | PropWare/hmi/pwedit.h:324-326 | the show-cursor sequence |
| PwEdit.Editor.TrimColumnSelectionToFit | PropWare/hmi/pwedit.h:425-453 | does what `TrimColumnOf` says for the line above or below |
| PwEdit.Editor.ExpandColumnSelectionToDesired | PropWare/hmi/pwedit.h:455-496 | corrected, does what `ExpandColumnOf` says for the line above or below |
| PwEdit.Editor.MoveSelection | PropWare/hmi/pwedit.h:328-343 | does what `MoveSelectionOf` says |
| PwEdit.Editor.MoveDown | PropWare/hmi/pwedit.h:345-369 | does what `MoveDownOf` says |
| PwEdit.Editor.MoveUp | PropWare/hmi/pwedit.h:371-393 | does what `MoveUpOf` says |
| PwEdit.Editor.MoveRight | PropWare/hmi/pwedit.h:395-409 | does what `MoveRightOf` says |
| PwEdit.Editor.MoveLeft | PropWare/hmi/pwedit.h:411-423 | does what `MoveLeftOf` says |
| PwEdit.Editor.ToFileStart | PropWare/hmi/pwedit.h:498-511 | does what `ToFileStartOf` says |
| PwEdit.Editor.ToFileEnd | PropWare/hmi/pwedit.h:513-544 | corrected, does what `ToFileEndOf` says |
| PwEdit.Editor.ToLineStart | PropWare/hmi/pwedit.h:546-557 | does what `ToLineStartOf` says |
| PwEdit.Editor.ToLineEnd | PropWare/hmi/pwedit.h:559-576 | does what `ToLineEndOf` says |
| PwEdit.Editor.Calibrate | PropWare/hmi/pwedit.h:164-244 | the frame size is `Calibrated` of the keys, exactly the keys up to the first enter key are read, and the output is `CalibrationEvents` |
| PwEdit.Editor.ReadInFile | PropWare/hmi/pwedit.h:246-272 | corrected: a failing open is returned with nothing changed; otherwise the lines `Load` gives for the text before the first failing read (all of it when no read fails) are appended and counted, and that read's error is returned |
| PwEdit.Editor.LoadLine | PropWare/hmi/pwedit.h:250-270 | one pass of the outer loop: the record added and the count shown, or, when a read of the record fails, its error with no line added and nothing shown |
| PwEdit.LoadReadableNext | PropWare/hmi/pwedit.h:250-270 | a record read without meeting the failing read continues the load of the text before that read |
| PwEdit.LoadReadableFault | PropWare/hmi/pwedit.h:255 | a read failing inside a record ends the load with exactly the lines of the text before the failing read |
| PwEdit.FaultStops | PropWare/hmi/pwedit.h:255 | a read that fails inside a record, not right after a '\r', falls on its characters or its line end, and the text before it holds no further line |
| PwEdit.PrefixRecord | PropWare/hmi/pwedit.h:253-264 | a record that ends before the failing read is the same record, with the same successor, in the text before that read |
| PwEdit.LoadPrefix | PropWare/hmi/pwedit.h:250-270 | the lines loaded from a text cut anywhere are the first lines of the whole text, so a failing read only shortens the list |
| PwEdit.LoadOfPrefix | PropWare/hmi/pwedit.h:250-270 | the same for any prefix of the text, by induction on its records |
| PwEdit.AfterRecordAt | PropWare/hmi/pwedit.h:261-263 | the next record starts two past the line end of a "\r\n" and one past any other line end |
| PwEdit.Editor.ReadRecord | PropWare/hmi/pwedit.h:253-264 | one record read, with the '\n' of a "\r\n" munched; or the error of a read that fails on the record or its line end |
| PwEdit.Editor.ReadLine | PropWare/hmi/pwedit.h:254-259 | the inner loop keeps the record's printable characters and stops after its line end, or stops at the first failing read with its error |
| PwEdit.Editor.ReadChar | PropWare/hmi/pwedit.h:255-258 | one character read and kept when printable, or the failing read's error with the pointer kept |
| PwEdit.Editor.Save | PropWare/hmi/pwedit.h:663-693 | corrected, does what `SaveOf` says: error, file text, modified flag and output |
| PwEdit.Editor.ReadCommandInput | PropWare/hmi/pwedit.h:637-645 | the keys up to and including the first enter key, each key before it echoed |
| PwEdit.Editor.SkipToEnter | PropWare/hmi/pwedit.h:620-623 | every key up to and including the first enter key skipped |
| PwEdit.Editor.QuitCommand | PropWare/hmi/pwedit.h:604-630 | exits when unmodified or "q!"; otherwise "UNSAVED CHANGES" and a wait for an enter key |
| PwEdit.Editor.RewriteLastLine | PropWare/hmi/pwedit.h:647-653 | the line on the bottom row of the window printed again |
| PwEdit.Editor.Command | PropWare/hmi/pwedit.h:582-635 | does what `CommandOf` says: error, exit, keys, file text, modified flag and output |
| PwEdit.Editor.KeyStep | PropWare/hmi/pwedit.h:124-152 | the switch for every key but ':' does what `KeyOf` says |
| PwEdit.Editor.Run | PropWare/hmi/pwedit.h:109-161 | calibrates, loads the file, returning the open, read or close error, with the lines read before a failing read kept; otherwise runs the key loop from the start of the file as `SessionOf` says |
| PwEdit.Editor.LoadAndBrowse | PropWare/hmi/pwedit.h:113-161 | after calibration: the first load error, or the key loop on the loaded lines as `SessionOf` says |
| PwEdit.Editor.LoadFile | PropWare/hmi/pwedit.h:113-114 | `read_in_file` then the input closed, returning the open error, else the read error, else the close result; the lines before a failing read are kept |
| PwEdit.Editor.Browse | PropWare/hmi/pwedit.h:116-160 | the window origin invalidated, `to_file_start`, then the key loop as `SessionOf` says |
| PwEdit.Editor.KeyLoop | PropWare/hmi/pwedit.h:122-157 | the loop ends in the state `SessionOf` gives |

## Left out

- SPI transfers, the SD card's command traffic (`start`, `send_command`, `read_block`, `write_block` and their timeouts) and the UART's timed `send`/`receive` loops are hardware timing and are not modelled. A sector read or write is a lookup or update in a map of blocks, and its fault is a parameter.
- HD44780 `start`, `write`, `clock_pulse` and `cmd` are GPIO writes and delays. A command or data byte sent to the display is an event in a trace.
- The VGA driver cog (`VGAText::start`/`stop`) and the keypad are foreign drivers and are not modelled.
- `put_float` and the `%f` conversion of `printf` are floating point and are not modelled.
- Scanner `get` of numbers and `input_prompt` call into `_scanf_getl`/`_scanf_getf` and a comparator outside the model.
- Utility `measure_time_interval`, `rom_log`, `reverse`, `reboot` and `get_largest_free_block_size` depend on the system counter, ROM tables and heap probing, and are not modelled.
- `print_status` and `print_error_str` of FatFS, the files, SPI, SD and HD44780 only print diagnostics and are not modelled.
- The MCP300x and shared-UART wrappers and the PWEdit debugger output are thin wrappers over code outside the model and are not modelled.
- The `PWEdit` destructor and other `free`/`delete` calls have no counterpart: memory is not modelled.
- The VGAText `.cpp` `out` refers to members its header does not declare. `VgaTextCpp` models its character handling on its own screen and cursor fields.
- PWEdit's reader and writer are the classes `InFile` and `OutFile`. They stand in for `FatFileReader` and `FatFileWriter`, whose own behaviour is in `Files` and `FatFs`. The directory search `find` is not part of this model; what it answers is a parameter.
- BlockStorage.AsciiColumns: models the ASCII column of each row of `print_block`. The header row, the row addresses and the hex cells are formatted printer output and are left out. The row counter is taken as 8 bits wide, the width `uint_fast8_t` has where it is the smallest fast type; on a target where it is wider, `AsciiColumnsIntended` describes the output instead.
- PwEdit.Keyboard.GetChar: once the modelled keys run out it gives NUL, where `get_char` blocks for the next key. `Scanner.Scanner.Gets` reads its keys the same way, through `Base.NextKey`.
- Scanner.Scanner.Gets: the `delimiter` parameter is not modelled, because the source never reads it.
- PwEdit.Editor.ReadInFile: requires that the file end with '\r' or '\n', and that the stale byte the reader's buffer holds past the end not be '\n'. Otherwise the source's inner loop reads past the end of the file and `eof` never holds again. It also requires that a failing read not come right after a '\r': there `peek` answers `(char) -1`, steps back onto the '\r', and the source reads that '\r' as an empty line again and again.
- PwEdit.Editor.LoadFile: carries the same requirement as ReadInFile.
- PwEdit.Editor.LoadAndBrowse: carries the same requirements as Run.
- PwEdit.InFile.SafeGetChar: a failing sector load is modelled as one position `faultAt` at which every read fails with `readFault`; a fault that clears on retry, or faults at several positions, are not modelled. The `FILE_NOT_OPEN` answer is left out, because `read_in_file` reads only after a successful `open`.
- PwEdit.Editor.Run: carries the same requirement as ReadInFile. It also requires that the calibrated size fit the loaded lines, as `PwEdit.Shaped` says, when the file loads and closes without error.
- PwEdit.Shaped: requires at least `rows` lines. `display_file_from` (pwedit.h:275-283) walks past the end of the line list for a file shorter than the terminal, and `to_file_end`'s `m_lines.size() - m_rows` (pwedit.h:524) wraps.
- PwEdit.Editor.Valid: requires at least `rows` lines, as `PwEdit.Shaped` does.
- PwEdit.Editor.Save: requires that a full output file answer an error. A writer that accepted no more characters yet answered NO_ERROR would lose text silently.
- PwEdit.Editor.ReadCommandInput: keeps the typed command in an unbounded sequence. The source reads it into a 64-byte stack array with no bound and no terminator (pwedit.h:589, 637-645).
- PwEdit.Editor: lines are sequences of characters, not `StringBuilder` objects. `StringBuilders.StringBuilder` is modelled on its own.
- PwEdit.Editor: `m_modified` is a field the caller sets. No code in the editor ever sets it to true.
- StringBuilders.StringBuilder.constructor: requires an initial size of at least 2 and keeps the buffer size below 0x8000. With a size of 0 or 1, `put_char` writes past the allocation. The `uint16_t` size also wraps once doubling passes 32768.
- StringBuilders.StringBuilder.Storage: bytes never written hold arbitrary characters, as `malloc` gives them. The contents contracts rest only on the bytes the builder wrote. The `strcpy` over-read of `expand` is a finding below.
- Uart.Uart.SetBaudRate: requires a baud rate above 0, since the source divides by it. The clock frequency is a parameter.
- Lcd.SemicolonFrom: stops the search for ';' at the end of the 32-byte escape buffer. The source's search has no bound.
- Lcd.Hd44780.MoveViaCommandSequence: stops the ';' search at the end of the escape buffer, as SemicolonFrom does. Its number parser drops `atoi`'s leading white space and sign, which digits-only escape sequences never contain.
- VgaText.PositionOk: excludes the negative signed-char operands after control codes 10 and 11. For those, the source's C `%` is negative and the write leaves the screen.
- VgaTextCpp.Dec: requires a value above INT32_MIN, whose negation overflows in the source.
- Files.Chain.Extend: stands for `need_to_extend_fat` and `extend_fat` as the writer sees them. The chain grows by the spare sector, or the modelled fault is answered.
- FatFs.GetFatValueOf: after a failed sector read it gives 0, where the source leaves the output unwritten.
- FatFs.ClearFrom: walks at most `links` clusters and then answers NO_ERROR. The source's do/while (fatfs.h:609-620) has no bound: on a cyclic chain, or a chain that reaches a free entry, it never ends.
- FatFs.ClearFromAsWritten: carries the same `links` bound as ClearFrom.
- FatFs.TrimChainOf: clears at most `links` clusters after the tail, with the bound and its silent NO_ERROR as in ClearFrom.
- FatFs.FatFS.ClearChain: carries the `links` bound of ClearFrom, so on a malformed chain it stops where `clear_chain` loops on.
- FatFs.FatFS.TrimChain: carries the `links` bound of TrimChainOf.
- Files.Chain.LoadSectorUnderPtr: its write-back of a modified buffer (`WriteBack`) cannot fail; `load_sector_under_ptr` itself is not part of this model, and only a pointer past the chain answers an error.
- Files.FatFileWriter.Flush: the content sector and the directory sector are held in two buffers (`chain.buf` and `dir`), where the source switches one shared buffer between them. The reloads on each switch, and the error of the `load_directory_sector` that `flush` ignores (fatfilewriter.h:129), are not modelled.
- Files.FatFileWriter.Remove: `clear_chain` is represented by its answer `clearResult`. What it does to the FAT is `FatFs.FatFS.ClearChain`, modelled on its own.
- Printer.Printer.Printf: the format is a sequence standing for the memory from `fmt` on. After a spec that ends at the NUL ('%', "%5", "%."), `++s` steps over the NUL and the model reads on in the sequence as the source does (Printer.PrintfPastNul); past the end of the sequence it reads NULs, where the source reads whatever memory follows.
- Printer.ConversionAt: `Drop` past the end of the format sequence gives the empty text, where the source goes on reading memory, as for Printer.Printer.Printf.
- Printer.Printer.PrintfConversion: the rest after a spec that ends at the end of the format sequence is the empty text, as for Printer.Printer.Printf.

## Findings

| source | as written | input that shows it | evidently intended | confidence | as-written member | corrected member |
|---|---|---|---|---|---|---|
| PropWare/hmi/pwedit.h:262 | after any line end, a following '\n' is munched | the file "x\n\ny\n" loads as ["x", "y"] | munch '\n' only after '\r', so the blank line stays: ["x", "", "y"] | high, not executed | PwEdit.LoadAsWritten, PwEdit.BlankLineMunched | PwEdit.Load, PwEdit.BlankLineKept, PwEdit.Editor.ReadInFile |
| PropWare/hmi/pwedit.h:684 | each line's text is written with no line end | lines ["ab", "cd"] are saved as "abcd" | write each line followed by '\n', so loading the saved file gives the lines back | high, not executed | PwEdit.SaveTextAsWritten, PwEdit.SaveJoinsLines | PwEdit.SaveText, PwEdit.LoadSaveText, PwEdit.Editor.Save |
| PropWare/hmi/pwedit.h:481 | the desired column is restored when it is at most the line's length | desired column 9 on a 9-character line selects column 9, one past the end | restore it only when it is below the length, otherwise select the last character | medium, not executed | PwEdit.ExpandColumnAsWritten, PwEdit.ExpandPastEnd | PwEdit.ExpandColumnOf, PwEdit.Editor.ExpandColumnSelectionToDesired |
| PropWare/hmi/pwedit.h:486-489 | scrolling sets the cursor to the last terminal column and the window origin to the column minus `columns` | the cursor shows a column one away from the selected one, or leaves the terminal | keep selected column = window origin + terminal column - 1 | medium, not executed | PwEdit.ExpandColumnAsWritten, PwEdit.ExpandScrollOffByOne | PwEdit.ExpandColumnOf, PwEdit.Editor.ExpandColumnSelectionToDesired |
| PropWare/hmi/pwedit.h:528 | a last line longer than the terminal puts the cursor on terminal column `columns - 1` | a 10-character last line on 4 columns selects column 9 with the cursor on column 8 | put the cursor on terminal column `columns`, where the selected column is | medium, not executed | PwEdit.ToFileEndAsWritten, PwEdit.ToFileEndOffByOne | PwEdit.ToFileEndOf, PwEdit.Editor.ToFileEnd |
| PropWare/hmi/pwedit.h:443 | the unsigned `lineLength - 1` on an empty line | moving onto an empty line selects column 4294967295, and `cursor_at_end` does not hold there | select column 0 on an empty line | high, not executed | PwEdit.TrimmedColumnAsWritten, PwEdit.EmptyLineWraps | PwEdit.LastColumn, PwEdit.Editor.TrimColumnSelectionToFit |
| PropWare/hmi/output/hd44780.h:293 | the split-row test `ddramCharRowBreak > ddramLineEnd` | a 16x1 type 1 display at column 8 is addressed at 0x08, outside its visible DDRAM | test whether the row is longer than its first DDRAM half, so column 8 goes to 0x40 | high, not executed | Lcd.SplitRowAsWritten | Lcd.SplitRowAddresses, Lcd.Hd44780.Move |
| PropWare/hmi/output/hd44780.h:384-389 | backspace from column 0 goes to column `charColumns` of the row above, and to row `charRows` from row 0 | backspace at (0, 0) on a 16x2 display moves to (2, 16), off the grid | go to the last column, `charColumns - 1`, of the row above, wrapping to the last row | high, not executed | Lcd.BackspaceLeavesGrid | Lcd.BackspaceStepsBack, Lcd.Hd44780.Backspace |
| PropWare/uart.h:318 | `1 << m_dataWidth` is stored in a `uint16_t` | a data width of 16 gives parity mask 0 | the parity bit directly above the data bits, 2^16 | medium, not executed | Uart.ParityMaskTruncated | Uart.FrameContiguous, Uart.Uart.SetParityMask |
| PropWare/string/stringbuilder.h:133 | `strcpy` copies the old allocation after `insert_char` has filled all but its never-written last byte | 63 characters in a default builder whose last byte is not NUL: `strcpy` reads past the allocation | copy exactly the `m_stringSize` characters held | medium, not executed | StringBuilders.StrcpyAsWritten, StringBuilders.ExpandOverReads | StringBuilders.StringBuilder.Expand |
| PropWare/filesystem/fat/fatfilewriter.h:172-180 | `trim` sets the length to the pointer minus one | trimming at pointer 0 leaves length -1, which later writes never meet, and 0xFFFFFFFF is stored | set the length to the pointer | high, not executed | Files.TrimmedLengthAsWritten, Files.TrimThenWriteAsWritten | Files.TrimmedLength, Files.TrimThenWrite, Files.FatFileWriter.Trim |
| PropWare/filesystem/fat/fatfs.h:390-400 | FAT16 accepts only -1 as an end of chain, and FAT32 only low 28 bits 0x0FFFFFFF | the FAT16 entry 0xFFFF and the FAT32 entry 0x0FFFFFF8 are not ends of chain | accept all eight end markers of each FAT type | high, not executed | FatFs.EocFat16Missed, FatFs.EocFat32Missed | FatFs.EocMarkers |
| PropWare/filesystem/fat/fatfs.h:605-632 | `clear_chain` marks the buffer modified only after its walk | a FAT32 chain across two FAT sectors keeps its first link: the zero written there is dropped when the next sector is loaded | mark each write so that loading the next sector flushes it | high, not executed | FatFs.ClearChainAsWritten, FatFs.ClearChainLosesWrites | FatFs.ClearFromClears, FatFs.FatFS.ClearChain |
| PropWare/filesystem/fat/fatfs.h:581-584 | `mark_eoc` writes the four-byte FAT32 marker on every FAT type | on FAT16 the next entry becomes 0x0FFF, and entry 255 of a sector is written past the buffer | write an entry of the FAT's own width | high, not executed | FatFs.MarkEocAsWritten, FatFs.MarkEocFat16Clobbers | FatFs.SetEntryOf, FatFs.FatFS.MarkEoc |
| PropWare/filesystem/fat/fatfs.h:634-655 | `trim_chain` clears the entry its last link points to | trimming a FAT32 chain at its last cluster clears the entry of cluster 0x0FFFFFFF, past a smaller FAT | stop at the end marker: trimming at the last cluster changes nothing | medium, not executed | FatFs.TrimChainAsWritten, FatFs.TrimLastAsWritten | FatFs.TrimChainTrims, FatFs.FatFS.TrimChain |
| PropWare/filesystem/fat/fatfs.h:519-579 | FAT16 never resets its byte offset after the first sector; FAT32 answers a cluster of the originally loaded sector | a full FAT16 sector sends the search past the buffer; a full FAT32 sector followed by a free entry gives a cluster one sector's worth too low | continue in the next sector and answer the free entry's own cluster | high, not executed | FatFs.FindEmptySpaceAsWritten, FatFs.FindEmptySpaceFat16OverRuns, FatFs.FindEmptySpaceWrongSector | FatFs.FindFreeAllocates, FatFs.FatFS.FindEmptySpace |
| PropWare/filesystem/fat/fatfs.h:482-487 | the tail's entry is read as four bytes whatever the FAT type | a FAT16 tail 0xFFFF followed by a free entry is refused with INVALID_FAT_APPEND | read the entry at the FAT's own width | high, not executed | FatFs.ExtendTestAsWritten, FatFs.ExtendTestFat16Rejects | FatFs.ExtendFatAppends, FatFs.FatFS.ExtendFat |
| PropWare/memory/blockstorage.h:103 | the row count is kept in a `uint_fast8_t`, 8 bits wide on the target | `print_block(printer, buf, 512, 1)` and `print_block(printer, buf, 512, 2)` print the header and no rows | count rows in a type wide enough for `words`, e.g. `uint_fast16_t` like the row loop, so all 512 or 256 rows are printed | medium (depends on the width of `uint_fast8_t`), not executed | BlockStorage.AsciiColumns, BlockStorage.SectorDumpWraps | BlockStorage.AsciiColumnsIntended, BlockStorage.RowOfByte |
