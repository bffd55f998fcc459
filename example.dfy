/** The example guest program: the string buffer it shares with the host,
    the lines it writes to std::cout and std::cerr (which reach the host
    through fd_write), and its arithmetic export. */
module Example {
  import opened Bytes
  import opened Text

  /** A C++ `int` on wasm32. */
  newtype int32 = x: int | -0x8000_0000 <= x < 0x8000_0000

  /** What the compiled product computes: i32.mul, the product modulo 2^32
      read back as a signed word. */
  function MulI32(a: int32, b: int32): (r: int32)
    ensures (r as int - a as int * b as int) % U32_LIMIT == 0
  {
    var p := a as int * b as int;
    var u := p % U32_LIMIT;
    assert (u - p) % U32_LIMIT == 0;
    Signed32(u) as int32
  }

  /** multiply: a * b. Signed overflow is undefined behaviour in C++, so the
      product has to fit in an int. */
  function Multiply(a: int32, b: int32): (r: int32)
    requires -0x8000_0000 <= a as int * b as int < 0x8000_0000
    ensures r as int == a as int * b as int
  {
    var r := MulI32(a, b);
    var d := r as int - a as int * b as int;
    assert -U32_LIMIT < d < U32_LIMIT && d % U32_LIMIT == 0;
    r
  }

  /** The buffer after std::string::resize(n): cut to n characters, or
      extended with NUL characters. */
  function Resized(c: seq<byte>, n: nat): (r: seq<byte>)
    ensures |r| == n
    ensures forall i :: 0 <= i < n && i < |c| ==> r[i] == c[i]
    ensures forall i :: |c| <= i < n ==> r[i] == 0
  {
    if n <= |c| then c[..n] else c + Zeros(n - |c|)
  }

  function StringPrefix(): seq<byte>
  {
    Ascii("The string is: ")
  }

  /** The line printString writes: the prefix, the buffer, then std::endl.
      The buffer is printed whole, NUL bytes included, between the 15 bytes
      of the prefix and the line end. */
  function StringLine(contents: seq<byte>): (r: seq<byte>)
    ensures |r| == 15 + |contents| + 1
    ensures r[15..|r| - 1] == contents && r[|r| - 1] == NEWLINE
  {
    StringPrefix() + contents + [NEWLINE]
  }

  function ValuePrefix(): seq<byte>
  {
    Ascii("The value is: ")
  }

  /** The line printJSValue writes for the value the host returned: the
      14 bytes of the prefix, the numeral, and std::endl. */
  function ValueLine(value: int32): (r: seq<byte>)
    ensures |r| == 14 + |Decimal(value as int)| + 1
    ensures r[14..|r| - 1] == Ascii(Decimal(value as int)) && r[|r| - 1] == NEWLINE
  {
    ValuePrefix() + Ascii(Decimal(value as int)) + [NEWLINE]
  }

  /** The text printError writes: 19 bytes and no line end. */
  function ErrorText(): (r: seq<byte>)
    ensures |r| == 19 && NEWLINE !in r
  {
    Ascii("Look at this error!")
  }

  class Guest {
    /** The global std::string. */
    var contents: seq<byte>
    /** What the program has written to std::cout and to std::cerr. */
    var out: seq<byte>
    var err: seq<byte>

    /** A static std::string starts out empty. */
    constructor()
      ensures contents == [] && out == [] && err == []
    {
      contents, out, err := [], [], [];
    }

    /** getString: resize the buffer to `length` characters; its storage is
        what the host then writes into. */
    method GetString(length: nat)
      modifies this`contents
      ensures contents == Resized(old(contents), length)
    {
      contents := Resized(contents, length);
    }

    /** The host copying bytes into the storage getString returned, from
        `offset` on (Uint8Array set). */
    method HostWrite(offset: nat, bytes: seq<byte>)
      requires offset + |bytes| <= |contents|
      modifies this`contents
      ensures contents == Store(old(contents), offset, bytes)
    {
      contents := Store(contents, offset, bytes);
    }

    method PrintString()
      modifies this`out
      ensures out == old(out) + StringLine(contents)
    {
      out := out + StringLine(contents);
    }

    /** printJSValue with the result of the imported getValue as `value`. */
    method PrintJSValue(value: int32)
      modifies this`out
      ensures out == old(out) + ValueLine(value)
    {
      out := out + ValueLine(value);
    }

    method PrintError()
      modifies this`err
      ensures err == old(err) + ErrorText()
    {
      err := err + ErrorText();
    }
  }

  /** Filling all of a freshly reserved buffer leaves exactly the fill,
      whatever the buffer held before. */
  lemma FillAfterResize(c: seq<byte>, bytes: seq<byte>)
    ensures Store(Resized(c, |bytes|), 0, bytes) == bytes
  {
    var r := Store(Resized(c, |bytes|), 0, bytes);
    assert forall i :: 0 <= i < |bytes| ==> r[i] == bytes[i];
  }

  /** The string exchange of the example driver: reservations of any sizes,
      then getString(|text|), the host's copy of text into the storage, and
      printString. The line printed holds exactly text: the latest
      reservation wins. */
  method ExchangeString(earlier: seq<nat>, text: seq<byte>) returns (printed: seq<byte>)
    ensures printed == StringPrefix() + text + [NEWLINE]
  {
    var guest := new Guest();
    for i := 0 to |earlier|
      invariant guest.out == []
    {
      guest.GetString(earlier[i]);
    }
    ghost var before := guest.contents;
    guest.GetString(|text|);
    guest.HostWrite(0, text);
    FillAfterResize(before, text);
    guest.PrintString();
    printed := guest.out;
  }

  /** printString before any getString prints the empty buffer. */
  method PrintBeforeReserve() returns (printed: seq<byte>)
    ensures printed == StringPrefix() + [NEWLINE]
  {
    var guest := new Guest();
    guest.PrintString();
    printed := guest.out;
  }

  /** The number in the line printJSValue writes reads back as the value. */
  lemma ValueLineReadsBack(value: int32)
    ensures var line := ValueLine(value);
      |line| > 15 && line[..14] == ValuePrefix() && line[|line| - 1] == NEWLINE &&
      ParseDecimal(Chars(line[14..|line| - 1])) == Some(value as int)
  {
    var prefix, digits := ValuePrefix(), Ascii(Decimal(value as int));
    var line := ValueLine(value);
    assert |prefix| == 14 && line == prefix + digits + [NEWLINE];
    assert line[..14] == prefix && line[14..|line| - 1] == digits;
    CharsOfAscii(Decimal(value as int));
    DecimalRoundTrip(value as int);
  }
}
