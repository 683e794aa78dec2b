/**
 * The Java and Android library objects the request pipeline talks to, each
 * reduced to the state the pipeline can observe.
 */
module Platform {
  import opened JavaText

  /** `java.io.ByteArrayInputStream`: a byte sequence and a read position. */
  class ByteArrayInputStream {
    const buf: seq<byte>
    var pos: nat

    ghost predicate Valid()
      reads this
    {
      pos <= |buf|
    }

    constructor (buf: seq<byte>)
      ensures Valid() && this.buf == buf && pos == 0
    {
      this.buf := buf;
      pos := 0;
    }

    /**
     * `read(b)`: -1 at the end of the stream; otherwise copies as many of the
     * remaining bytes as fit into the front of `b` and returns their number.
     */
    method Read(b: array<byte>) returns (n: int)
      requires Valid()
      modifies this, b
      ensures Valid()
      ensures old(pos) == |buf| ==> n == -1 && pos == old(pos) && b[..] == old(b[..])
      ensures old(pos) < |buf| ==>
        && n == (if b.Length < |buf| - old(pos) then b.Length else |buf| - old(pos))
        && pos == old(pos) + n
        && b[..n] == buf[old(pos)..pos]
        && b[n..] == old(b[n..])
    {
      if pos >= |buf| {
        return -1;
      }
      n := if b.Length < |buf| - pos then b.Length else |buf| - pos;
      if n <= 0 {
        return 0;
      }
      forall k | 0 <= k < n {
        b[k] := buf[pos + k];
      }
      pos := pos + n;
    }
  }

  /** `java.io.ByteArrayOutputStream`: the bytes written so far. */
  class ByteArrayOutputStream {
    var bytes: seq<byte>

    constructor ()
      ensures bytes == []
    {
      bytes := [];
    }

    /** `write(b, off, len)`: appends `b[off..off + len]`. */
    method Write(b: array<byte>, off: nat, len: nat)
      requires off + len <= b.Length
      modifies this
      ensures bytes == old(bytes) + b[off..off + len]
    {
      bytes := bytes + b[off..off + len];
    }
  }

  /** What a response stream carries: a line of text, or raw bytes. */
  datatype Chunk = Line(text: string) | Raw(data: seq<byte>)

  /**
   * `java.io.PrintStream` over a connection. Line terminators and the
   * character encoding are not modelled: each `println` adds one `Line`.
   */
  class PrintStream {
    var written: seq<Chunk>

    constructor ()
      ensures written == []
    {
      written := [];
    }

    /** `println(s)` */
    method Println(s: string)
      modifies this
      ensures written == old(written) + [Line(s)]
    {
      written := written + [Line(s)];
    }

    /** `write(bytes)` */
    method Write(data: seq<byte>)
      modifies this
      ensures written == old(written) + [Raw(data)]
    {
      written := written + [Raw(data)];
    }
  }

  /** One call of the infrared emitter: a carrier frequency and a pulse pattern. */
  datatype Transmission = Transmission(carrierFrequency: int, pattern: seq<int>)

  /**
   * `android.hardware.ConsumerIrManager`. Whether the hardware accepts a
   * transmission is the flag `working`; every call is logged in `calls`.
   */
  class ConsumerIrManager {
    var working: bool
    var calls: seq<Transmission>

    constructor (working: bool)
      ensures this.working == working && calls == []
    {
      this.working := working;
      calls := [];
    }

    /** `transmit(carrierFrequency, pattern)`; `ok` is false where it throws. */
    method Transmit(carrierFrequency: int, pattern: array<int>) returns (ok: bool)
      modifies this`calls
      ensures ok == working
      ensures calls == old(calls) + [Transmission(carrierFrequency, pattern[..])]
    {
      calls := calls + [Transmission(carrierFrequency, pattern[..])];
      ok := working;
    }
  }
}
