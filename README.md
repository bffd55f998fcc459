# TinyWASI in Dafny

TinyWASI is a small host-side implementation of the WebAssembly System
Interface (WASI) `wasi_snapshot_preview1` import module, written in
TypeScript. A JavaScript program builds a `TinyWASI` object and hands its
`imports` table to `WebAssembly.instantiate`. Then `initialize` or `start`
attaches the instance whose linear memory the calls read and write.

Only four calls are implemented: `clock_time_get`, `fd_fdstat_get`,
`fd_write` and `random_get`. Every other preview1 name is bound to a stub
that logs the call and returns ENOSYS (52). With tracing switched on, each
entry is wrapped so that it logs its arguments and result.

The repository also ships an example guest in C++. It exchanges a string
with the host through a global `std::string`, multiplies integers, and
prints to `std::cout` and `std::cerr`.

The model has five modules:

- `Bytes` (bytes.dfy): memory bytes, little-endian integer fields, stores
  into a memory image, and the signed reading of a 32-bit word.
- `Text` (text.dfy): ASCII text and decimal numerals, with a parser that
  reads a numeral back.
- `Wasi` (wasi.dfy): the specification of every host call as a function of
  memory, the instance flag and the arguments. It gives the errno, the new
  memory and the console lines. Its lemmas state the properties the host
  promises.
- `TinyWasi` (tiny_wasi.dfy): the host object as a class. It has the import
  table, the instance flag, the memory as an array, and the logs passed to
  `console.log` and `console.error`. Each method is proved to have the
  effect `Wasi` specifies. The gathering loops of `fd_write` are methods
  proved against `Wasi.Gathered`.
- `Example` (example.dfy): the guest program as a class holding its string
  buffer and its two output streams. It also has the exports `multiply`,
  `printString`, `printJSValue` and `printError`.

Arguments are modelled as the numbers the host sees. WebAssembly hands an
`i32` to JavaScript as a signed number, so a descriptor of 2^31 or more
arrives negative. In the code, a descriptor must pass `fd > 2` before it is
used, so a negative one is served like 0 or 2: its text goes to
`console.error`, since only descriptor 1 goes to `console.log`. The model follows the code
as written (`Wasi.BadFdAsWritten`). `Wasi.PerformCorrected` gives the
corrected test, which also rejects negative descriptors (see Findings). JavaScript throws a `RangeError` on an
out-of-bounds `DataView` or `Uint8Array` access. The model states that case
as a precondition (`Wasi.Admissible`), and only on the path that reaches
the access. In particular `fd_write` with a count of 0 or less reads no
record, so its `iovs` may be anything (`Wasi.RecordsInBounds`,
`Wasi.EmptyWriteIgnoresIovs`).

## Model

| member | source | states |
|---|---|---|
| Bytes.Signed32 | src/TinyWASI.ts:160 | an i32 argument reaches the host as a signed number congruent to its bits modulo 2^32, in [-2^31, 2^31) |
| Bytes.LeValueOfLeBytes | src/TinyWASI.ts:153-155 | a value written little-endian in `width` bytes reads back as itself |
| Bytes.LeBytesOfLeValue | src/TinyWASI.ts:176-177 | a field read as a little-endian value and written back gives the same bytes |
| Bytes.LeBytes | src/TinyWASI.ts:153-155 | a little-endian field written for a value is exactly `width` bytes wide |
| Bytes.LeValue | src/TinyWASI.ts:176-177 | the little-endian value of n bytes is below 256^n, so a 4-byte read is a u32 |
| Bytes.Store | src/TinyWASI.ts:189 | writing bytes at an offset puts exactly those bytes there and leaves every other byte alone |
| Text.CharsOfAscii | example/example.cpp:59 | ASCII text encoded as bytes and decoded gives the text back |
| Text.Decimal | src/TinyWASI.ts:126 | a numeral is non-empty ASCII and starts with '-' exactly for a negative value |
| Text.DecimalRoundTrip | src/TinyWASI.ts:126 | the decimal numeral of every integer parses back to that integer |
| Text.DecimalInjective | src/TinyWASI.ts:126 | distinct results are logged as distinct numerals |
| Text.DecimalList | src/TinyWASI.ts:126 | the argument list in a log line is ASCII, and is empty exactly when there are no arguments |
| Text.LastComma | src/TinyWASI.ts:126 | finds a comma with no comma after it, and finds none exactly when the text has no comma |
| Text.DecimalListRoundTrip | src/TinyWASI.ts:126 | an argument list printed with `args.toString()`, split at its commas and read numeral by numeral, gives the arguments back |
| Text.DecimalListInjective | src/TinyWASI.ts:135 | distinct argument lists are logged as distinct texts |
| Wasi.Binding | src/TinyWASI.ts:17-70 | a name is bound to the ENOSYS stub exactly when it is not one of the four implemented calls |
| Wasi.Entry | src/TinyWASI.ts:17-88 | an entry runs the function bound to its name, and is a tracing wrapper exactly when tracing is on |
| Wasi.ImportTableEntries | src/TinyWASI.ts:14-88 | the table's names are exactly the preview1 names; each entry runs `Wasi.Binding` of its name and is traced exactly when tracing is on; the four implemented calls are in the table, and an entry runs the ENOSYS stub exactly when its name is not one of them |
| Wasi.BadFdAsWrittenAdmitsHighDescriptors | src/TinyWASI.ts:144 | descriptor 0xFFFFFFFF reaches the host as -1, which the `fd > 2` test lets through |
| Wasi.IsBadFdOfDescriptor | src/TinyWASI.ts:144-145 | the corrected test rejects a 32-bit descriptor exactly when it is above 2 |
| Wasi.FdstatImage | src/TinyWASI.ts:152-157 | filetype 2 at offset 0, flags 1 at offset 2, rights_base 41 at offset 8 and rights_inheriting 0 at offset 16; every other byte is unchanged, including the top six bytes of each rights field |
| Wasi.ReadIovecs | src/TinyWASI.ts:173-180 | record i holds the little-endian u32s at iovs + 8i and iovs + 8i + 4, in index order; with no records it reads nothing and needs nothing of iovs |
| Wasi.Concat | src/TinyWASI.ts:182-191 | the gathered bytes are as long as the sum of the record lengths |
| Wasi.ConcatPrefix | src/TinyWASI.ts:187-191 | the bytes of the first i records are a prefix of the gathered bytes |
| Wasi.ConcatAt | src/TinyWASI.ts:187-191 | byte k of record i lands at the sum of the earlier lengths plus k and is memory byte buf_i + k |
| Wasi.StripNewline | src/TinyWASI.ts:193 | the printed text is the gathered text less one final newline, and is unchanged exactly when there is none |
| Wasi.TraceLineShowsResult | src/TinyWASI.ts:126 | the trace line determines the result: two calls with the same name and arguments that log the same line returned the same value |
| Wasi.UnimplementedLineShowsArgs | src/TinyWASI.ts:135 | the "Unimplemented call" line determines the arguments: two calls of one name that log the same line had the same arguments |
| Wasi.Perform | src/TinyWASI.ts:142-233 | no host call resizes memory; the errno is one of 0, 8, 21 and 52; a call that fails writes no memory and nothing to stdout; a call logs at most one line |
| Wasi.Run | src/TinyWASI.ts:121-129 | calling a table entry, traced or not, keeps the memory size, returns one of the four errnos, writes no memory when it fails, and logs at most one line to stderr |
| Wasi.TracingKeepsResult | src/TinyWASI.ts:121-129 | a traced entry returns the wrapped function's result, leaves the same memory and stderr, and only appends its trace lines to stdout |
| Wasi.UnimplementedReturnsNosys | src/TinyWASI.ts:131-139 | every unimplemented name returns 52 for any arguments, traced or not, writes no memory and logs one "Unimplemented call" line |
| Wasi.FaultWithoutInstance | src/TinyWASI.ts:165-169 | with no instance, each implemented call returns 21 and changes nothing, provided a descriptor argument passes `fd > 2` (so fd <= 2, negative ones included) |
| Wasi.BadDescriptorFirst | src/TinyWASI.ts:162-163 | fd_fdstat_get and fd_write return 8 for every descriptor above 2, with or without an instance and whatever the other arguments, and change nothing |
| Wasi.FdWriteSucceeds | src/TinyWASI.ts:160-203 | for every descriptor of at most 2, negative ones included: errno 0; nwritten holds the total record length mod 2^32, computed from memory on entry; no other byte changes; the one line goes to stdout exactly when fd is 1, otherwise to stderr |
| Wasi.EmptyWriteIgnoresIovs | src/TinyWASI.ts:173-202 | with a count of 0 or less, fd_write is served whatever iovs is, outside memory included: errno 0, 0 stored at nwritten, and one empty line, on stdout exactly when fd is 1 |
| Wasi.RandomGetFillsRange | src/TinyWASI.ts:220-233 | errno 0; the fill lands in [pointer, pointer + size) and no other byte changes |
| Wasi.HighDescriptorIsServed | src/TinyWASI.ts:142-203 | descriptor 0xFFFFFFFF reaches the host as -1; fd_write then returns 0 and logs the gathered text to stderr, and fd_fdstat_get returns 0 and fills the record |
| Wasi.CorrectedRejectsExactlyHighDescriptors | src/TinyWASI.ts:144-145 | with the corrected test, fd_fdstat_get and fd_write return 8 and change nothing exactly when the 32-bit descriptor is above 2 as an unsigned number; any other descriptor gets the call as written |
| TinyWasi.WasiHost.WriteGathered | src/TinyWASI.ts:171-202 | errno 0; memory is the old memory with the gathered length mod 2^32 stored at nwritten; the gathered text less one final newline is appended to stdout when fd is 1 and to stderr otherwise, and the other log is unchanged |
| TinyWasi.StoreBytes | src/TinyWASI.ts:189 | the array afterwards is the old contents with bs stored at `at` |
| TinyWasi.StoreFdstat | src/TinyWASI.ts:152-155 | the array afterwards is `Wasi.FdstatImage` of its old contents |
| TinyWasi.ReadViews | src/TinyWASI.ts:171-180 | the loop's views are the records `Wasi.ReadIovecs` reads; a count of 0 or less reads none, whatever iovs is |
| TinyWasi.SumLengths | src/TinyWASI.ts:182 | the reduce yields the total record length |
| TinyWasi.CopyViews | src/TinyWASI.ts:184-191 | the buffer filled view by view at the running offset is the concatenation of the views |
| TinyWasi.Gather | src/TinyWASI.ts:171-191 | fd_write's buffer is `Wasi.Gathered` of memory on entry |
| TinyWasi.TraceAll | src/TinyWASI.ts:79-88 | after the loop, every entry is the tracing wrapper of its former entry under its own name, and the name set is unchanged |
| TinyWasi.BuildImports | src/TinyWASI.ts:14-90 | the table the constructor leaves is `Wasi.ImportTable(trace)` |
| TinyWasi.WasiHost.constructor | src/TinyWASI.ts:75-90 | the import table is `Wasi.ImportTable(trace)`, no instance is set, and both logs are empty |
| TinyWasi.WasiHost.Initialize | src/TinyWASI.ts:92-98 | the instance is set and its memory adopted |
| TinyWasi.WasiHost.Start | src/TinyWASI.ts:100-106 | the instance is set and its memory adopted |
| TinyWasi.WasiHost.Unimplemented | src/TinyWASI.ts:131-139 | returns 52, appends the "Unimplemented call" line to stderr, and changes nothing else |
| TinyWasi.WasiHost.FdFdstatGet | src/TinyWASI.ts:142-158 | errno, memory and logs are as `Wasi.Perform` gives for fd_fdstat_get |
| TinyWasi.WasiHost.FdWrite | src/TinyWASI.ts:160-203 | errno, memory and logs are as `Wasi.Perform` gives for fd_write, for every descriptor, instance state and count, with iovs unconstrained when the count is 0 or less |
| TinyWasi.WasiHost.ClockTimeGet | src/TinyWASI.ts:205-218 | FAULT without an instance; otherwise the two clock words are stored at `time` and nothing else changes |
| TinyWasi.WasiHost.RandomGet | src/TinyWASI.ts:220-233 | errno, memory and logs are as `Wasi.Perform` gives for random_get |
| TinyWasi.WasiHost.Dispatch | src/TinyWASI.ts:142-233 | calling a host function directly has the effect `Wasi.Perform` gives for it |
| TinyWasi.WasiHost.Invoke | src/TinyWASI.ts:121-129 | calling an entry has the effect `Wasi.Run` gives: the wrapped call, then one trace line per wrapper |
| TinyWasi.WasiHost.Call | src/TinyWASI.ts:14-72 | calling an import by name runs the entry the table holds for it |
| Example.MulI32 | example/example.cpp:13-16 | the compiled product is congruent to a * b modulo 2^32 |
| Example.Multiply | example/example.cpp:13-16 | multiply returns a * b when the product fits in an int |
| Example.StringLine | example/example.cpp:34 | the line is the 15-byte prefix, then the whole buffer, NUL bytes included, then a newline |
| Example.ValueLine | example/example.cpp:59 | the line is the 14-byte prefix, then the ASCII numeral of the value, then a newline |
| Example.ErrorText | example/example.cpp:68 | the error text is 19 bytes and holds no newline |
| Example.Resized | example/example.cpp:26-30 | resize(n) leaves exactly n bytes: the first min(old, n) are kept and any grown ones are NUL |
| Example.Guest.constructor | example/example.cpp:24 | the global string and both streams start empty |
| Example.Guest.GetString | example/example.cpp:26-30 | the buffer becomes the old buffer resized to `length` |
| Example.Guest.HostWrite | example/example.js:42-43 | the host's copy replaces exactly the bytes it covers |
| Example.Guest.PrintString | example/example.cpp:32-35 | appends "The string is: ", the buffer and a newline to stdout; the buffer is unchanged |
| Example.Guest.PrintJSValue | example/example.cpp:53-60 | appends "The value is: ", the value's decimal numeral and a newline to stdout |
| Example.Guest.PrintError | example/example.cpp:66-69 | appends "Look at this error!", without a newline, to stderr and changes nothing else |
| Example.FillAfterResize | example/example.cpp:26-30 | filling a buffer freshly resized to n with n bytes leaves exactly those bytes, whatever it held before |
| Example.ExchangeString | example/example.js:32-46 | after any earlier reservations, getString(n), a fill of n bytes and printString print exactly "The string is: ", those bytes and a newline |
| Example.PrintBeforeReserve | example/example.cpp:24-35 | printString before any getString prints the empty buffer |
| Example.ValueLineReadsBack | example/example.cpp:53-60 | the number in the printJSValue line reads back as the host's value |

## Left out

- clock_time_get: the wall clock and the floating-point split of the time into two words are not modelled. The eight bytes it stores are an input of the call.
- random_get: the content of `crypto.randomFillSync` is not modelled. The fill bytes are an input.
- The UTF-8 decoding by `TextDecoder` is not modelled. A line of guest output is logged as its bytes, less one final newline. Stripping at byte level matches the decoded text's `/\n$/` replacement, because byte 0x0A never occurs inside a multi-byte UTF-8 sequence.
- The relative order of lines on stdout and on stderr is not modelled. They are two separate logs.
- The calls that `initialize` and `start` make to the module's `_initialize` and `_start` exports run guest code. They are not modelled; only the instance becoming set is.
- Out-of-bounds memory accesses throw a `RangeError` in JavaScript. They are preconditions here (`Wasi.Admissible`), so the exception path is not modelled; only accesses the code actually performs are required in bounds (no record array is required for a count of 0 or less).
- Memory growth is not modelled: the memory array keeps its size.
- The host sees an i64 argument (clock_time_get's precision) as a BigInt. Here it is an unbounded integer, logged in decimal like any other number.
- Wasi.ImportTableEntries: does not state that the table has 45 entries. The name set is a literal, and counting it would need every pair of its names proved distinct.
- Example.Multiply: requires the product to fit in an int, because signed overflow is undefined in C++. `Example.MulI32` states the wrapping product that the compiled code computes in every case.
- Example.Guest.GetString: the address of the storage it returns is not modelled. `Example.Guest.HostWrite` addresses the buffer directly. Allocation failure of `resize` is not modelled.
- printTime in example/example.cpp reads the wall clock (`time(NULL)`) and is not modelled.
- The `WASM_EXPORT`/`WASM_IMPORT` macros only annotate linkage. The imported `getValue` becomes the `value` parameter of `Example.Guest.PrintJSValue`.
- example/example.js only drives the example (file reading, instantiation, logging). It is used as the description of the string exchange, in `Example.ExchangeString`.

## Findings

| source | as written | input that shows it | evidently intended | confidence | as-written member | corrected member |
|---|---|---|---|---|---|---|
| src/TinyWASI.ts:144 | `fd > 2` is the only descriptor test in fd_fdstat_get and fd_write (also line 162) | descriptor 0xFFFFFFFF, which the host sees as -1: it passes the test, so fd_write logs the data to stderr and fd_fdstat_get fills the record, with errno 0 instead of BADF | only descriptors 0, 1 and 2 are accepted | medium, not executed | Wasi.HighDescriptorIsServed | Wasi.CorrectedRejectsExactlyHighDescriptors |
