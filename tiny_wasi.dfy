/** The TinyWASI host object: the import table it hands to WebAssembly, the
    instance whose linear memory its calls read and write, and the console
    it prints to. Each call is proved to have the effect the Wasi module
    specifies. */
module TinyWasi {
  import opened Bytes
  import opened Text
  import opened Wasi

  /** Writes bs into a from index `at` on, one byte at a time: the DataView
      setters, and the fill of a Uint8Array view. */
  method StoreBytes(a: array<byte>, at: nat, bs: seq<byte>)
    requires at + |bs| <= a.Length
    modifies a
    ensures a[..] == Store(old(a[..]), at, bs)
  {
    var k := 0;
    while k < |bs|
      invariant 0 <= k <= |bs|
      invariant forall i :: 0 <= i < a.Length ==> a[i] == if at <= i < at + k then bs[i - at] else old(a[i])
    {
      a[at + k] := bs[k];
      k := k + 1;
    }
    assert forall i :: 0 <= i < a.Length ==> a[..][i] == Store(old(a[..]), at, bs)[i];
  }

  /** The four stores of fd_fdstat_get's success path: the filetype byte,
      then the flags and both rights words as little-endian values. */
  method StoreFdstat(mem: array<byte>, fdstat: nat)
    requires fdstat + FDSTAT_EXTENT <= mem.Length
    modifies mem
    ensures mem[..] == FdstatImage(old(mem[..]), fdstat)
  {
    ghost var m := mem[..];
    StoreBytes(mem, fdstat, [FILETYPE_CHARACTER_DEVICE]);
    StoreBytes(mem, fdstat + 2, LeBytes(FDSTAT_FLAGS, 2));
    StoreBytes(mem, fdstat + 8, LeBytes(FDSTAT_RIGHTS_BASE, 2));
    StoreBytes(mem, fdstat + 16, LeBytes(FDSTAT_RIGHTS_INHERITING, 2));
    FdstatImageStores(m, fdstat);
  }

  /** The first loop of fd_write: one view per record, its address and
      length read as little-endian u32s at iovs + 8 i and iovs + 8 i + 4. */
  method ReadViews(memory: array<byte>, iovs: int, iovsLen: int) returns (buffers: seq<Iovec>)
    requires RecordsInBounds(memory[..], iovs, IovecCount(iovsLen))
    ensures buffers == ReadIovecs(memory[..], iovs, IovecCount(iovsLen))
  {
    buffers := [];
    var i := 0;
    while i < iovsLen
      invariant 0 <= i <= IovecCount(iovsLen)
      invariant buffers == ReadIovecs(memory[..], iovs, i)
    {
      var iov := iovs + i * 8;
      var offset := LeValue(memory[iov..iov + 4]);
      var len := LeValue(memory[iov + 4..iov + 8]);
      buffers := buffers + [Iovec(offset, len)];
      i := i + 1;
    }
  }

  /** The reduce of fd_write: the sum of the view lengths. */
  method SumLengths(buffers: seq<Iovec>) returns (length: nat)
    ensures length == TotalLength(buffers)
  {
    length := 0;
    var j := 0;
    while j < |buffers|
      invariant 0 <= j <= |buffers|
      invariant length == TotalLength(buffers[..j])
    {
      assert buffers[..j + 1][..j] == buffers[..j];
      length := length + buffers[j].len;
      j := j + 1;
    }
    assert buffers[..j] == buffers;
  }

  /** The forEach of fd_write: a new buffer of the total length, each view
      copied in at the running offset. */
  method CopyViews(memory: array<byte>, buffers: seq<Iovec>, length: nat) returns (buffer: seq<byte>)
    requires Within(memory[..], buffers) && length == TotalLength(buffers)
    ensures buffer == Concat(memory[..], buffers)
  {
    var m := memory[..];
    var out := new byte[length];
    var offset := 0;
    var j := 0;
    while j < |buffers|
      invariant 0 <= j <= |buffers|
      invariant offset == TotalLength(buffers[..j]) <= length == out.Length
      invariant out[..offset] == Concat(m, buffers[..j])
    {
      var b := buffers[j];
      ConcatStep(m, buffers, j);
      StoreBytes(out, offset, m[b.buf..b.buf + b.len]);
      offset := offset + b.len;
      j := j + 1;
    }
    assert buffers[..j] == buffers;
    buffer := out[..];
  }

  /** The gathering half of fd_write. */
  method Gather(memory: array<byte>, iovs: int, iovsLen: int) returns (buffer: seq<byte>)
    requires IovecsReadable(memory[..], iovs, IovecCount(iovsLen))
    ensures buffer == Gathered(memory[..], iovs, IovecCount(iovsLen))
  {
    var buffers := ReadViews(memory, iovs, iovsLen);
    var length := SumLengths(buffers);
    buffer := CopyViews(memory, buffers, length);
  }

  /** The tracing loop of the constructor: each entry of the table is
      replaced by a wrapper that logs the call under the entry's name. */
  method TraceAll(table: map<string, Handler>) returns (traced: map<string, Handler>)
    ensures traced.Keys == table.Keys
    ensures forall name :: name in traced ==> traced[name] == Traced(name, table[name])
  {
    traced := table;
    var pending := table.Keys;
    while pending != {}
      invariant traced.Keys == table.Keys && pending <= table.Keys
      invariant forall name :: name in traced ==>
        traced[name] == if name in pending then table[name] else Traced(name, table[name])
      decreases pending
    {
      var f :| f in pending;
      traced := traced[f := Traced(f, traced[f])];
      pending := pending - {f};
    }
  }

  /** The import table the constructor installs. */
  method BuildImports(trace: bool) returns (table: map<string, Handler>)
    ensures table == ImportTable(trace)
  {
    ImportTableEntries(false);
    ImportTableEntries(trace);
    table := ImportTable(false);
    if trace {
      table := TraceAll(table);
    }
    SameEntries(table, ImportTable(trace));
  }

  /** Two tables with the same names and the same entries are the same. */
  lemma SameEntries(a: map<string, Handler>, b: map<string, Handler>)
    requires a.Keys == b.Keys
    requires forall name :: name in a ==> a[name] == b[name]
    ensures a == b
  {
  }

  class WasiHost {
    /** The wasi_snapshot_preview1 namespace of the import table. */
    var imports: map<string, Handler>
    /** Whether initialize or start has set an instance. */
    var hasInstance: bool
    /** The linear memory of that instance. */
    var mem: array<byte>
    /** Lines passed to console.log and to console.error. */
    var stdout: seq<ConsoleLine>
    var stderr: seq<ConsoleLine>

    /** A call returned errno and left memory and console as r says. */
    twostate predicate Follows(r: Reply, errno: int)
      reads this, mem
    {
      errno == r.errno && mem[..] == r.mem &&
      stdout == old(stdout) + r.stdout && stderr == old(stderr) + r.stderr
    }

    /** Builds the table; with `trace`, every entry is then replaced by a
        tracing wrapper around it. */
    constructor(trace: bool)
      ensures imports == ImportTable(trace)
      ensures !hasInstance && stdout == [] && stderr == []
    {
      var table := BuildImports(trace);
      imports := table;
      hasInstance := false;
      mem := new byte[0];
      stdout, stderr := [], [];
    }

    /** initialize: adopt the instance and its memory (calling the module's
        _initialize export is not part of this model). */
    method Initialize(memory: array<byte>)
      modifies this`hasInstance, this`mem
      ensures hasInstance && mem == memory
    {
      hasInstance := true;
      mem := memory;
    }

    /** start: adopt the instance and its memory (calling the module's
        _start export is not part of this model). */
    method Start(memory: array<byte>)
      modifies this`hasInstance, this`mem
      ensures hasInstance && mem == memory
    {
      hasInstance := true;
      mem := memory;
    }

    /** The stub bound to every name the host does not implement. */
    method Unimplemented(name: string, args: seq<int>) returns (errno: int)
      modifies this`stderr
      ensures Follows(Perform(NoSys(name), args, old(mem[..]), hasInstance, []), errno)
    {
      stderr := stderr + [UnimplementedLine(name, args)];
      return ERRNO_NOSYS;
    }

    method FdFdstatGet(fd: int, fdstat: int) returns (errno: int)
      requires Admissible(Syscall.FdFdstatGet, [fd, fdstat], mem[..], hasInstance, [])
      modifies mem
      ensures Follows(Perform(Syscall.FdFdstatGet, [fd, fdstat], old(mem[..]), hasInstance, []), errno)
    {
      if BadFdAsWritten(fd) {
        return ERRNO_BADF;
      }
      if !hasInstance {
        return ERRNO_FAULT;
      }
      StoreFdstat(mem, fdstat);
      return ERRNO_SUCCESS;
    }

    method FdWrite(fd: int, iovs: int, iovsLen: int, nwritten: int) returns (errno: int)
      requires Admissible(Syscall.FdWrite, [fd, iovs, iovsLen, nwritten], mem[..], hasInstance, [])
      modifies this`stdout, this`stderr, mem
      ensures Follows(Perform(Syscall.FdWrite, [fd, iovs, iovsLen, nwritten], old(mem[..]), hasInstance, []), errno)
    {
      if BadFdAsWritten(fd) {
        return ERRNO_BADF;
      }
      if !hasInstance {
        return ERRNO_FAULT;
      }
      FdWriteReply(fd, iovs, iovsLen, nwritten, mem[..], []);
      errno := WriteGathered(fd, iovs, iovsLen, nwritten);
    }

    /** fd_write past its descriptor and instance tests: gather the records,
        print the text less one final newline to console.log for descriptor
        1 and to console.error otherwise, and store the byte count at
        nwritten. */
    method WriteGathered(fd: int, iovs: int, iovsLen: int, nwritten: int) returns (errno: int)
      requires WriteAddressable(mem[..], iovs, iovsLen, nwritten)
      modifies this`stdout, this`stderr, mem
      ensures var data := Gathered(old(mem[..]), iovs, IovecCount(iovsLen));
        var line := Decoded(StripNewline(data));
        errno == ERRNO_SUCCESS &&
        mem[..] == Store(old(mem[..]), nwritten, LeBytes(|data| % U32_LIMIT, 4)) &&
        stdout == old(stdout) + (if fd == 1 then [line] else []) &&
        stderr == old(stderr) + (if fd == 1 then [] else [line])
    {
      var buffer := Gather(mem, iovs, iovsLen);
      var text := StripNewline(buffer);
      if fd == 1 {
        stdout := stdout + [Decoded(text)];
      } else {
        stderr := stderr + [Decoded(text)];
      }
      StoreBytes(mem, nwritten, LeBytes(|buffer| % U32_LIMIT, 4));
      return ERRNO_SUCCESS;
    }

    /** clock_time_get with the two u32 words it derives from the wall clock
        given as `words`. */
    method ClockTimeGet(clockId: int, precision: int, time: int, words: seq<byte>) returns (errno: int)
      requires Admissible(Syscall.ClockTimeGet, [clockId, precision, time], mem[..], hasInstance, words)
      modifies mem
      ensures Follows(Perform(Syscall.ClockTimeGet, [clockId, precision, time], old(mem[..]), hasInstance, words), errno)
    {
      if !hasInstance {
        return ERRNO_FAULT;
      }
      StoreBytes(mem, time, words[..4]);
      StoreBytes(mem, time + 4, words[4..]);
      assert mem[..] == Store(old(mem[..]), time, words);
      return ERRNO_SUCCESS;
    }

    /** random_get with the bytes crypto.randomFillSync produces given as
        `fill`. */
    method RandomGet(pointer: int, size: int, fill: seq<byte>) returns (errno: int)
      requires Admissible(Syscall.RandomGet, [pointer, size], mem[..], hasInstance, fill)
      modifies mem
      ensures Follows(Perform(Syscall.RandomGet, [pointer, size], old(mem[..]), hasInstance, fill), errno)
    {
      if !hasInstance {
        return ERRNO_FAULT;
      }
      StoreBytes(mem, pointer, fill);
      return ERRNO_SUCCESS;
    }

    /** Calls the host function s itself. */
    method Dispatch(s: Syscall, args: seq<int>, foreign: seq<byte>) returns (errno: int)
      requires Admissible(s, args, mem[..], hasInstance, foreign)
      modifies this`stdout, this`stderr, mem
      ensures Follows(Perform(s, args, old(mem[..]), hasInstance, foreign), errno)
    {
      match s
      case NoSys(name) =>
        errno := Unimplemented(name, args);
      case ClockTimeGet =>
        assert args == [args[0], args[1], args[2]];
        errno := ClockTimeGet(args[0], args[1], args[2], foreign);
      case FdFdstatGet =>
        assert args == [args[0], args[1]];
        errno := FdFdstatGet(args[0], args[1]);
      case FdWrite =>
        assert args == [args[0], args[1], args[2], args[3]];
        errno := FdWrite(args[0], args[1], args[2], args[3]);
      case RandomGet =>
        assert args == [args[0], args[1]];
        errno := RandomGet(args[0], args[1], foreign);
    }

    /** Calls a table entry: a tracing wrapper calls what it wraps, then logs
        the call and its result to stdout and returns that result. */
    method Invoke(h: Handler, args: seq<int>, foreign: seq<byte>) returns (errno: int)
      requires Admissible(Underlying(h), args, mem[..], hasInstance, foreign)
      modifies this`stdout, this`stderr, mem
      ensures Follows(Run(h, args, old(mem[..]), hasInstance, foreign), errno)
      decreases h
    {
      match h
      case Direct(s) =>
        errno := Dispatch(s, args, foreign);
      case Traced(name, inner) =>
        errno := Invoke(inner, args, foreign);
        stdout := stdout + [TraceLine(name, args, errno)];
    }

    /** What the instance does when it calls the import `name`. */
    method Call(name: string, args: seq<int>, foreign: seq<byte>) returns (errno: int)
      requires name in imports
      requires Admissible(Underlying(imports[name]), args, mem[..], hasInstance, foreign)
      modifies this`stdout, this`stderr, mem
      ensures Follows(Run(imports[name], args, old(mem[..]), hasInstance, foreign), errno)
    {
      errno := Invoke(imports[name], args, foreign);
    }
  }
}
