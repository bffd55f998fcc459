/** The wasi_snapshot_preview1 functions a TinyWASI host provides, stated as
    functions of the linear memory and the instance flag before a call: what
    each returns, the memory it leaves and the console lines it emits. */
module Wasi {
  import opened Bytes
  import opened Text

  const ERRNO_SUCCESS := 0
  const ERRNO_BADF := 8
  const ERRNO_FAULT := 21
  const ERRNO_NOSYS := 52

  const FILETYPE_CHARACTER_DEVICE: byte := 2
  /** fs_flags of every descriptor: 0b1 (append). */
  const FDSTAT_FLAGS := 1
  /** fs_rights_base of every descriptor: 0b101001. */
  const FDSTAT_RIGHTS_BASE := 41
  const FDSTAT_RIGHTS_INHERITING := 0
  /** fd_fdstat_get writes no byte at or beyond fdstat + 18. */
  const FDSTAT_EXTENT := 18

  /** One line handed to console.log (stdout) or console.error (stderr): a
      message the host formats itself, or the UTF-8 text of guest bytes. */
  datatype ConsoleLine = Message(text: string) | Decoded(bytes: seq<byte>)

  /** The host function an import name is bound to. */
  datatype Syscall = ClockTimeGet | FdFdstatGet | FdWrite | RandomGet | NoSys(name: string)

  /** An entry of the import table: a host function, possibly wrapped by the
      tracer, which logs the call and forwards the result. */
  datatype Handler = Direct(syscall: Syscall) | Traced(name: string, inner: Handler)

  function Underlying(h: Handler): Syscall
  {
    match h
    case Direct(s) => s
    case Traced(_, inner) => Underlying(inner)
  }

  /** The names of the wasi_snapshot_preview1 import table. */
  const Preview1Names: set<string> := {
    "args_get", "args_sizes_get",
    "clock_res_get", "clock_time_get",
    "environ_get", "environ_sizes_get",
    "fd_advise", "fd_allocate", "fd_close", "fd_datasync", "fd_fdstat_get",
    "fd_fdstat_set_flags", "fd_fdstat_set_rights", "fd_filestat_get",
    "fd_filestat_set_size", "fd_filestat_set_times", "fd_pread",
    "fd_prestat_dir_name", "fd_prestat_get", "fd_pwrite", "fd_read",
    "fd_readdir", "fd_renumber", "fd_seek", "fd_sync", "fd_tell", "fd_write",
    "path_create_directory", "path_filestat_get", "path_filestat_set_times",
    "path_link", "path_open", "path_readlink", "path_remove_directory",
    "path_rename", "path_symlink", "path_unlink_file",
    "poll_oneoff",
    "proc_exit", "proc_raise",
    "random_get",
    "sched_yield",
    "sock_recv", "sock_send", "sock_shutdown"
  }

  predicate IsImplemented(name: string)
  {
    name in {"clock_time_get", "fd_fdstat_get", "fd_write", "random_get"}
  }

  /** The host function the table binds a name to: four real ones, and the
      ENOSYS stub for every other name. */
  function Binding(name: string): (s: Syscall)
    ensures s == NoSys(name) <==> !IsImplemented(name)
  {
    if name == "clock_time_get" then ClockTimeGet
    else if name == "fd_fdstat_get" then FdFdstatGet
    else if name == "fd_write" then FdWrite
    else if name == "random_get" then RandomGet
    else NoSys(name)
  }

  /** The wasi_snapshot_preview1 namespace the host hands to the instance. */
  function ImportTable(trace: bool): map<string, Handler>
  {
    map name | name in Preview1Names :: Entry(name, trace)
  }

  /** The table binds exactly the preview1 names. Each entry calls the host
      function `Binding` gives for its name, behind one tracing wrapper under
      that name when tracing is on; the four implemented functions are bound,
      each under its own name, and every other entry is the stub. */
  lemma ImportTableEntries(trace: bool)
    ensures ImportTable(trace).Keys == Preview1Names
    ensures forall name :: name in ImportTable(trace) ==>
      Underlying(ImportTable(trace)[name]) == Binding(name) &&
      (trace <==> ImportTable(trace)[name] == Traced(name, Direct(Binding(name))))
    ensures forall name :: IsImplemented(name) ==> name in ImportTable(trace)
    ensures forall name :: name in ImportTable(trace) ==>
      (IsImplemented(name) <==> !Underlying(ImportTable(trace)[name]).NoSys?)
  {
    TableEntries(trace);
    ImplementedAreBound(trace);
  }

  /** Each entry of the table, by its name: kept apart from the key set so
      that each fact is proved on its own. */
  lemma TableEntries(trace: bool)
    ensures forall name :: name in ImportTable(trace) ==>
      Underlying(ImportTable(trace)[name]) == Binding(name) &&
      (trace <==> ImportTable(trace)[name] == Traced(name, Direct(Binding(name)))) &&
      (IsImplemented(name) <==> !Underlying(ImportTable(trace)[name]).NoSys?)
  {
  }

  /** The four implemented names are among the table's keys. */
  lemma ImplementedAreBound(trace: bool)
    ensures forall name :: IsImplemented(name) ==> name in ImportTable(trace)
  {
  }

  /** The entry the table holds for a name once the host is constructed. */
  function Entry(name: string, trace: bool): (h: Handler)
    ensures Underlying(h) == Binding(name)
    ensures h.Traced? <==> trace
  {
    if trace then Traced(name, Direct(Binding(name))) else Direct(Binding(name))
  }

  // ---------------------------------------------------------------------
  // Descriptors

  /** The descriptor test of fd_fdstat_get and fd_write as the code writes
      it: fd > 2. */
  predicate BadFdAsWritten(fd: int)
  {
    fd > 2
  }

  /** The evidently intended test: a descriptor with no console stream
      behind it, anything but 0, 1 and 2. */
  predicate IsBadFd(fd: int)
  {
    fd < 0 || fd > 2
  }

  /** The guest's descriptor 0xFFFF_FFFF reaches the host as -1, passes the
      test as written and is then treated as stderr. */
  lemma {:induction false} BadFdAsWrittenAdmitsHighDescriptors()
    ensures var u := 0xFFFF_FFFF; Signed32(u) == -1 && !BadFdAsWritten(Signed32(u)) && IsBadFd(Signed32(u))
  {
  }

  /** With the corrected test, exactly the descriptors above 2 are bad. */
  lemma IsBadFdOfDescriptor(u: nat)
    requires u < U32_LIMIT
    ensures IsBadFd(Signed32(u)) <==> u > 2
  {
  }

  // ---------------------------------------------------------------------
  // fd_fdstat_get

  /** Whether fd_fdstat_get writes byte fdstat + k. */
  predicate FdstatWrites(k: int)
  {
    k == 0 || 2 <= k < 4 || 8 <= k < 10 || 16 <= k < 18
  }

  /** The record image is the four stores fd_fdstat_get makes, in order. */
  lemma FdstatImageStores(m: seq<byte>, fdstat: nat)
    requires fdstat + FDSTAT_EXTENT <= |m|
    ensures FdstatImage(m, fdstat) ==
      Store(Store(Store(Store(m, fdstat, [FILETYPE_CHARACTER_DEVICE]),
        fdstat + 2, LeBytes(FDSTAT_FLAGS, 2)), fdstat + 8, LeBytes(FDSTAT_RIGHTS_BASE, 2)),
        fdstat + 16, LeBytes(FDSTAT_RIGHTS_INHERITING, 2))
  {
  }

  /** The memory after fd_fdstat_get fills the record at fdstat. */
  function FdstatImage(m: seq<byte>, fdstat: nat): (r: seq<byte>)
    requires fdstat + FDSTAT_EXTENT <= |m|
    ensures |r| == |m|
    ensures r[fdstat] == FILETYPE_CHARACTER_DEVICE
    ensures LeValue(r[fdstat + 2..fdstat + 4]) == FDSTAT_FLAGS
    ensures LeValue(r[fdstat + 8..fdstat + 10]) == FDSTAT_RIGHTS_BASE
    ensures LeValue(r[fdstat + 16..fdstat + 18]) == FDSTAT_RIGHTS_INHERITING
    ensures forall i :: 0 <= i < |m| && !FdstatWrites(i - fdstat) ==> r[i] == m[i]
  {
    var m1 := Store(m, fdstat, [FILETYPE_CHARACTER_DEVICE]);
    var m2 := Store(m1, fdstat + 2, LeBytes(FDSTAT_FLAGS, 2));
    var m3 := Store(m2, fdstat + 8, LeBytes(FDSTAT_RIGHTS_BASE, 2));
    var m4 := Store(m3, fdstat + 16, LeBytes(FDSTAT_RIGHTS_INHERITING, 2));
    LeValueOfLeBytes(FDSTAT_FLAGS, 2);
    LeValueOfLeBytes(FDSTAT_RIGHTS_BASE, 2);
    LeValueOfLeBytes(FDSTAT_RIGHTS_INHERITING, 2);
    assert m4[fdstat + 2..fdstat + 4] == m2[fdstat + 2..fdstat + 4];
    assert m4[fdstat + 8..fdstat + 10] == m3[fdstat + 8..fdstat + 10];
    m4
  }

  // ---------------------------------------------------------------------
  // fd_write: gathering the ciovec array

  /** The number of ciovec records the loop of fd_write reads: none when the
      count arrives as a negative number. */
  function IovecCount(iovsLen: int): nat
  {
    if iovsLen < 0 then 0 else iovsLen
  }

  /** A ciovec record: the address and the length of one piece of output. */
  datatype Iovec = Iovec(buf: nat, len: nat)

  /** Record i of the array at iovs: `buf` is the little-endian u32 at
      iovs + 8 i, `buf_len` the one at iovs + 8 i + 4. */
  function ReadIovec(m: seq<byte>, iovs: int, i: nat): Iovec
    requires InBounds(m, iovs + 8 * i, 8)
  {
    var at := iovs + 8 * i;
    Iovec(LeValue(m[at..at + 4]), LeValue(m[at + 4..at + 8]))
  }

  /** The n records at iovs lie in memory; no record is read, and iovs may
      be anything, when n is 0. */
  predicate RecordsInBounds(m: seq<byte>, iovs: int, n: nat)
  {
    n == 0 || InBounds(m, iovs, 8 * n)
  }

  /** The first n records, in index order. */
  function ReadIovecs(m: seq<byte>, iovs: int, n: nat): (vs: seq<Iovec>)
    requires RecordsInBounds(m, iovs, n)
    ensures |vs| == n && forall i :: 0 <= i < n ==> vs[i] == ReadIovec(m, iovs, i)
  {
    if n == 0 then [] else ReadIovecs(m, iovs, n - 1) + [ReadIovec(m, iovs, n - 1)]
  }

  /** Every record points inside memory. */
  predicate Within(m: seq<byte>, vs: seq<Iovec>)
  {
    forall i :: 0 <= i < |vs| ==> vs[i].buf + vs[i].len <= |m|
  }

  /** The records are in memory and so are the bytes they point at. */
  predicate IovecsReadable(m: seq<byte>, iovs: int, n: nat)
  {
    RecordsInBounds(m, iovs, n) && Within(m, ReadIovecs(m, iovs, n))
  }

  /** The sum of the record lengths. */
  function TotalLength(vs: seq<Iovec>): nat
  {
    if vs == [] then 0 else TotalLength(vs[..|vs| - 1]) + vs[|vs| - 1].len
  }

  /** The bytes the records point at, concatenated in index order; as long
      as their lengths add up to. */
  function Concat(m: seq<byte>, vs: seq<Iovec>): (r: seq<byte>)
    requires Within(m, vs)
    ensures |r| == TotalLength(vs)
  {
    if vs == [] then []
    else
      var v := vs[|vs| - 1];
      Concat(m, vs[..|vs| - 1]) + m[v.buf..v.buf + v.len]
  }

  /** Concatenating a prefix of the records gives a prefix of the text. */
  lemma {:induction false} ConcatPrefix(m: seq<byte>, vs: seq<Iovec>, i: nat)
    requires Within(m, vs) && i <= |vs|
    ensures TotalLength(vs[..i]) <= TotalLength(vs)
    ensures Concat(m, vs[..i]) == Concat(m, vs)[..TotalLength(vs[..i])]
  {
    if i < |vs| {
      var shorter := vs[..|vs| - 1];
      assert shorter[..i] == vs[..i];
      ConcatPrefix(m, shorter, i);
      assert Concat(m, vs)[..TotalLength(shorter)] == Concat(m, shorter);
    } else {
      assert vs[..i] == vs;
    }
  }

  /** One more record appends its bytes, and its length, to those of the
      records before it. */
  lemma {:induction false} ConcatStep(m: seq<byte>, vs: seq<Iovec>, j: nat)
    requires Within(m, vs) && j < |vs|
    ensures TotalLength(vs[..j + 1]) == TotalLength(vs[..j]) + vs[j].len <= TotalLength(vs)
    ensures Concat(m, vs[..j + 1]) == Concat(m, vs[..j]) + m[vs[j].buf..vs[j].buf + vs[j].len]
  {
    assert vs[..j + 1][..j] == vs[..j];
    ConcatPrefix(m, vs, j + 1);
  }

  /** Byte k of record i lands at the sum of the earlier lengths plus k. */
  lemma {:induction false} ConcatAt(m: seq<byte>, vs: seq<Iovec>, i: nat, k: nat)
    requires Within(m, vs) && i < |vs| && k < vs[i].len
    ensures TotalLength(vs[..i]) + k < |Concat(m, vs)|
    ensures Concat(m, vs)[TotalLength(vs[..i]) + k] == m[vs[i].buf + k]
    decreases |vs|
  {
    var shorter, last := vs[..|vs| - 1], vs[|vs| - 1];
    assert Concat(m, vs) == Concat(m, shorter) + m[last.buf..last.buf + last.len];
    if i == |vs| - 1 {
      assert vs[..i] == shorter;
    } else {
      assert shorter[..i] == vs[..i] && shorter[i] == vs[i];
      ConcatAt(m, shorter, i, k);
    }
  }

  /** The bytes fd_write gathers from the first n records at iovs. */
  function Gathered(m: seq<byte>, iovs: int, n: nat): seq<byte>
    requires IovecsReadable(m, iovs, n)
  {
    Concat(m, ReadIovecs(m, iovs, n))
  }

  // ---------------------------------------------------------------------
  // Console text

  /** The text fd_write prints: the `/\n$/` replacement drops one final
      newline and nothing else. */
  function StripNewline(bs: seq<byte>): (r: seq<byte>)
    ensures bs == r || bs == r + [NEWLINE]
    ensures bs == r <==> bs == [] || bs[|bs| - 1] != NEWLINE
  {
    if bs != [] && bs[|bs| - 1] == NEWLINE then bs[..|bs| - 1] else bs
  }

  function TraceLine(name: string, args: seq<int>, result: int): ConsoleLine
  {
    Message("Trace: " + name + "(" + DecimalList(args) + ") -> " + Decimal(result))
  }

  function UnimplementedLine(name: string, args: seq<int>): ConsoleLine
  {
    Message("Unimplemented call to " + name + "(" + DecimalList(args) + ")")
  }

  /** A trace line shows the result: two calls of the same entry with the
      same arguments that log the same line returned the same value. */
  lemma TraceLineShowsResult(name: string, args: seq<int>, a: int, b: int)
    requires TraceLine(name, args, a) == TraceLine(name, args, b)
    ensures a == b
  {
    var head := "Trace: " + name + "(" + DecimalList(args) + ") -> ";
    assert (head + Decimal(a))[|head|..] == Decimal(a);
    assert (head + Decimal(b))[|head|..] == Decimal(b);
    DecimalInjective(a, b);
  }

  /** An "Unimplemented call" line shows the arguments: two calls of the same
      name that log the same line had the same arguments. */
  lemma UnimplementedLineShowsArgs(name: string, a: seq<int>, b: seq<int>)
    requires UnimplementedLine(name, a) == UnimplementedLine(name, b)
    ensures a == b
  {
    var head := "Unimplemented call to " + name + "(";
    var ta, tb := head + DecimalList(a) + ")", head + DecimalList(b) + ")";
    assert ta[|head|..|ta| - 1] == DecimalList(a);
    assert tb[|head|..|tb| - 1] == DecimalList(b);
    DecimalListInjective(a, b);
  }

  // ---------------------------------------------------------------------
  // The calls

  /** What a call returns: its errno, the memory afterwards, and the lines
      it appends to stdout and to stderr. */
  datatype Reply = Reply(errno: int, mem: seq<byte>, stdout: seq<ConsoleLine>, stderr: seq<ConsoleLine>)

  /** The arguments of fd_write address readable records, readable data and
      a writable nwritten field. */
  predicate WriteAddressable(m: seq<byte>, iovs: int, iovsLen: int, nwritten: int)
  {
    IovecsReadable(m, iovs, IovecCount(iovsLen)) && InBounds(m, nwritten, 4)
  }

  /** The call has its import's arity and every memory access on its path
      is in bounds; `foreign` holds the bytes the host gets from outside the
      model (the random fill, or the two clock words). */
  predicate Admissible(s: Syscall, args: seq<int>, m: seq<byte>, hasInstance: bool, foreign: seq<byte>)
  {
    match s
    case NoSys(_) => true
    case ClockTimeGet =>
      |args| == 3 && (hasInstance ==> InBounds(m, args[2], 8) && |foreign| == 8)
    case FdFdstatGet =>
      |args| == 2 && (hasInstance && !BadFdAsWritten(args[0]) ==> InBounds(m, args[1], FDSTAT_EXTENT))
    case FdWrite =>
      |args| == 4 && (hasInstance && !BadFdAsWritten(args[0]) ==> WriteAddressable(m, args[1], args[2], args[3]))
    case RandomGet =>
      |args| == 2 && (hasInstance ==> InBounds(m, args[0], args[1]) && |foreign| == args[1])
  }

  /** The effect of calling host function s with args. No call resizes
      memory, a call that fails writes no memory and nothing to stdout, and a
      call logs at most one line. */
  function Perform(s: Syscall, args: seq<int>, m: seq<byte>, hasInstance: bool, foreign: seq<byte>): (r: Reply)
    requires Admissible(s, args, m, hasInstance, foreign)
    ensures |r.mem| == |m|
    ensures r.errno in {ERRNO_SUCCESS, ERRNO_BADF, ERRNO_FAULT, ERRNO_NOSYS}
    ensures r.errno != ERRNO_SUCCESS ==> r.mem == m && r.stdout == []
    ensures |r.stdout| + |r.stderr| <= 1
  {
    match s
    case NoSys(name) =>
      Reply(ERRNO_NOSYS, m, [], [UnimplementedLine(name, args)])
    case ClockTimeGet =>
      if !hasInstance then Reply(ERRNO_FAULT, m, [], [])
      else Reply(ERRNO_SUCCESS, Store(m, args[2], foreign), [], [])
    case FdFdstatGet =>
      if BadFdAsWritten(args[0]) then Reply(ERRNO_BADF, m, [], [])
      else if !hasInstance then Reply(ERRNO_FAULT, m, [], [])
      else Reply(ERRNO_SUCCESS, FdstatImage(m, args[1]), [], [])
    case FdWrite =>
      if BadFdAsWritten(args[0]) then Reply(ERRNO_BADF, m, [], [])
      else if !hasInstance then Reply(ERRNO_FAULT, m, [], [])
      else
        var data := Gathered(m, args[1], IovecCount(args[2]));
        var line := Decoded(StripNewline(data));
        var m' := Store(m, args[3], LeBytes(|data| % U32_LIMIT, 4));
        if args[0] == 1 then Reply(ERRNO_SUCCESS, m', [line], [])
        else Reply(ERRNO_SUCCESS, m', [], [line])
    case RandomGet =>
      if !hasInstance then Reply(ERRNO_FAULT, m, [], [])
      else Reply(ERRNO_SUCCESS, Store(m, args[0], foreign), [], [])
  }

  /** The trace lines a handler logs after its host function returns
      `result`, innermost wrapper first. */
  function TraceLines(h: Handler, args: seq<int>, result: int): seq<ConsoleLine>
  {
    match h
    case Direct(_) => []
    case Traced(name, inner) => TraceLines(inner, args, result) + [TraceLine(name, args, result)]
  }

  /** The effect of calling a table entry: the wrappers add lines to stdout
      only, so memory and stderr obey the host function's bounds. */
  function Run(h: Handler, args: seq<int>, m: seq<byte>, hasInstance: bool, foreign: seq<byte>): (r: Reply)
    requires Admissible(Underlying(h), args, m, hasInstance, foreign)
    ensures |r.mem| == |m|
    ensures r.errno in {ERRNO_SUCCESS, ERRNO_BADF, ERRNO_FAULT, ERRNO_NOSYS}
    ensures r.errno != ERRNO_SUCCESS ==> r.mem == m
    ensures |r.stderr| <= 1
  {
    match h
    case Direct(s) => Perform(s, args, m, hasInstance, foreign)
    case Traced(name, inner) =>
      var r := Run(inner, args, m, hasInstance, foreign);
      r.(stdout := r.stdout + [TraceLine(name, args, r.errno)])
  }

  /** Tracing changes no result: a wrapped entry returns what its host
      function returns, leaves the same memory and stderr, and only appends
      its trace lines to stdout. */
  lemma {:induction false} TracingKeepsResult(h: Handler, args: seq<int>, m: seq<byte>, hasInstance: bool, foreign: seq<byte>)
    requires Admissible(Underlying(h), args, m, hasInstance, foreign)
    ensures var r, p := Run(h, args, m, hasInstance, foreign), Perform(Underlying(h), args, m, hasInstance, foreign);
      r.errno == p.errno && r.mem == p.mem && r.stderr == p.stderr &&
      r.stdout == p.stdout + TraceLines(h, args, p.errno)
  {
    match h
    case Direct(_) =>
    case Traced(_, inner) =>
      TracingKeepsResult(inner, args, m, hasInstance, foreign);
  }

  /** Every name of the table other than the four implemented ones returns
      ENOSYS (52) for any arguments and leaves memory alone, traced or not. */
  lemma UnimplementedReturnsNosys(name: string, trace: bool, args: seq<int>, m: seq<byte>, hasInstance: bool, foreign: seq<byte>)
    requires name in Preview1Names && !IsImplemented(name)
    ensures Admissible(Underlying(Entry(name, trace)), args, m, hasInstance, foreign)
    ensures var r := Run(Entry(name, trace), args, m, hasInstance, foreign);
      r.errno == ERRNO_NOSYS && r.mem == m &&
      r.stderr == [UnimplementedLine(name, args)]
  {
    TracingKeepsResult(Entry(name, trace), args, m, hasInstance, foreign);
  }

  /** With no instance set, every implemented call whose descriptor passes
      `fd > 2`, negative ones included, returns FAULT (21) and changes
      nothing. */
  lemma FaultWithoutInstance(s: Syscall, args: seq<int>, m: seq<byte>, foreign: seq<byte>)
    requires !s.NoSys? && Admissible(s, args, m, false, foreign)
    requires (s == FdFdstatGet || s == FdWrite) ==> args[0] <= 2
    ensures Perform(s, args, m, false, foreign) == Reply(ERRNO_FAULT, m, [], [])
  {
  }

  /** fd_fdstat_get and fd_write reject a descriptor above 2 with BADF (8)
      before they look at the instance or at memory. */
  lemma BadDescriptorFirst(s: Syscall, args: seq<int>, m: seq<byte>, hasInstance: bool, foreign: seq<byte>)
    requires s == FdFdstatGet || s == FdWrite
    requires |args| == (if s == FdWrite then 4 else 2) && args[0] > 2
    ensures Admissible(s, args, m, hasInstance, foreign)
    ensures Perform(s, args, m, hasInstance, foreign) == Reply(ERRNO_BADF, m, [], [])
  {
  }

  /** A successful fd_write: errno 0, the total length of the gathered bytes
      (modulo 2^32, read from memory as it was on entry) as a little-endian
      u32 at nwritten, no other byte changed, and one line holding the
      gathered bytes less one final newline, on stdout exactly when fd is 1.
      Any descriptor up to 2 passes, a negative one included. */
  lemma FdWriteSucceeds(fd: int, iovs: int, iovsLen: int, nwritten: nat, m: seq<byte>, foreign: seq<byte>)
    requires fd <= 2 && WriteAddressable(m, iovs, iovsLen, nwritten)
    ensures Admissible(FdWrite, [fd, iovs, iovsLen, nwritten], m, true, foreign)
    ensures var r, n := Perform(FdWrite, [fd, iovs, iovsLen, nwritten], m, true, foreign), IovecCount(iovsLen);
      r.errno == ERRNO_SUCCESS &&
      |r.mem| == |m| &&
      LeValue(r.mem[nwritten..nwritten + 4]) == TotalLength(ReadIovecs(m, iovs, n)) % U32_LIMIT &&
      (forall i :: 0 <= i < |m| && !(nwritten <= i < nwritten + 4) ==> r.mem[i] == m[i]) &&
      (if fd == 1 then r.stdout else r.stderr) == [Decoded(StripNewline(Gathered(m, iovs, n)))] &&
      (if fd == 1 then r.stderr else r.stdout) == []
  {
    var n := IovecCount(iovsLen);
    FdWriteReply(fd, iovs, iovsLen, nwritten, m, foreign);
    LeValueOfLeBytes(TotalLength(ReadIovecs(m, iovs, n)) % U32_LIMIT, 4);
  }

  /** A call with no records never reads the record array, so iovs may
      point anywhere, outside memory included: the call prints an empty line
      and stores 0 at nwritten. */
  lemma EmptyWriteIgnoresIovs(fd: int, iovs: int, iovsLen: int, nwritten: nat, m: seq<byte>, foreign: seq<byte>)
    requires fd <= 2 && iovsLen <= 0 && nwritten + 4 <= |m|
    ensures Admissible(FdWrite, [fd, iovs, iovsLen, nwritten], m, true, foreign)
    ensures var r := Perform(FdWrite, [fd, iovs, iovsLen, nwritten], m, true, foreign);
      r.errno == ERRNO_SUCCESS &&
      LeValue(r.mem[nwritten..nwritten + 4]) == 0 &&
      (if fd == 1 then r.stdout else r.stderr) == [Decoded([])]
  {
    FdWriteReply(fd, iovs, iovsLen, nwritten, m, foreign);
    LeValueOfLeBytes(0, 4);
  }

  /** The reply of fd_write once the descriptor test has passed and an
      instance is set: the gathered text, less one final newline, on stdout
      for descriptor 1 and on stderr otherwise, and its length stored at
      nwritten. */
  lemma FdWriteReply(fd: int, iovs: int, iovsLen: int, nwritten: int, m: seq<byte>, foreign: seq<byte>)
    requires !BadFdAsWritten(fd) && WriteAddressable(m, iovs, iovsLen, nwritten)
    ensures var data := Gathered(m, iovs, IovecCount(iovsLen));
      var line := Decoded(StripNewline(data));
      Perform(FdWrite, [fd, iovs, iovsLen, nwritten], m, true, foreign) ==
        Reply(ERRNO_SUCCESS, Store(m, nwritten, LeBytes(|data| % U32_LIMIT, 4)),
              if fd == 1 then [line] else [], if fd == 1 then [] else [line])
  {
  }

  /** A successful random_get changes exactly the bytes [pointer, pointer + size). */
  lemma RandomGetFillsRange(pointer: nat, size: nat, m: seq<byte>, foreign: seq<byte>)
    requires pointer + size <= |m| && |foreign| == size
    ensures Admissible(RandomGet, [pointer, size], m, true, foreign)
    ensures var r := Perform(RandomGet, [pointer, size], m, true, foreign);
      r.errno == ERRNO_SUCCESS && |r.mem| == |m| &&
      r.mem[pointer..pointer + size] == foreign &&
      forall i :: 0 <= i < |m| && !(pointer <= i < pointer + size) ==> r.mem[i] == m[i]
  {
  }

  /** As written, the guest's descriptor 0xFFFF_FFFF, which the host sees as
      -1, is served instead of rejected: fd_write logs the gathered text to
      stderr and returns 0, and fd_fdstat_get fills the record and returns 0. */
  lemma {:induction false} HighDescriptorIsServed(iovs: int, iovsLen: int, nwritten: int, fdstat: int, m: seq<byte>, foreign: seq<byte>)
    requires WriteAddressable(m, iovs, iovsLen, nwritten) && InBounds(m, fdstat, FDSTAT_EXTENT)
    ensures var fd := Signed32(0xFFFF_FFFF);
      fd == -1 &&
      Admissible(FdWrite, [fd, iovs, iovsLen, nwritten], m, true, foreign) &&
      Admissible(FdFdstatGet, [fd, fdstat], m, true, foreign) &&
      var w := Perform(FdWrite, [fd, iovs, iovsLen, nwritten], m, true, foreign);
      var f := Perform(FdFdstatGet, [fd, fdstat], m, true, foreign);
      w.errno == ERRNO_SUCCESS && w.stdout == [] &&
      w.stderr == [Decoded(StripNewline(Gathered(m, iovs, IovecCount(iovsLen))))] &&
      f.errno == ERRNO_SUCCESS && f.mem == FdstatImage(m, fdstat)
  {
  }

  /** Whether the intended descriptor test turns the call away. */
  predicate RejectsDescriptor(s: Syscall, args: seq<int>)
  {
    (s == FdFdstatGet || s == FdWrite) && |args| > 0 && IsBadFd(args[0])
  }

  /** A host call with the intended descriptor test in front of it. */
  function PerformCorrected(s: Syscall, args: seq<int>, m: seq<byte>, hasInstance: bool, foreign: seq<byte>): Reply
    requires RejectsDescriptor(s, args) || Admissible(s, args, m, hasInstance, foreign)
  {
    if RejectsDescriptor(s, args) then Reply(ERRNO_BADF, m, [], [])
    else Perform(s, args, m, hasInstance, foreign)
  }

  /** With the intended test, fd_fdstat_get and fd_write answer BADF exactly
      for the 32-bit descriptors above 2, and then change nothing; for 0, 1
      and 2 they do what the code does. */
  lemma {:induction false} CorrectedRejectsExactlyHighDescriptors(s: Syscall, u: nat, rest: seq<int>, m: seq<byte>, hasInstance: bool, foreign: seq<byte>)
    requires s == FdFdstatGet || s == FdWrite
    requires u < U32_LIMIT
    requires u <= 2 ==> Admissible(s, [Signed32(u)] + rest, m, hasInstance, foreign)
    ensures RejectsDescriptor(s, [Signed32(u)] + rest) || Admissible(s, [Signed32(u)] + rest, m, hasInstance, foreign)
    ensures var args := [Signed32(u)] + rest;
      var r := PerformCorrected(s, args, m, hasInstance, foreign);
      (r.errno == ERRNO_BADF <==> u > 2) &&
      (u > 2 ==> r == Reply(ERRNO_BADF, m, [], [])) &&
      (u <= 2 ==> r == Perform(s, args, m, hasInstance, foreign))
  {
    var args := [Signed32(u)] + rest;
    IsBadFdOfDescriptor(u);
    assert args[0] == Signed32(u);
  }
}
