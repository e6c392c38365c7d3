/// The default `read`/`write` of the `Device` trait (src/machine/device.rs:9-18): a
/// word travels as four single-byte transfers, most significant byte first. The
/// byte-level methods are the device's own; here they are those of a device that
/// hands back written bytes in FIFO order and counts its flush calls.
module Device {
  import opened Bits

  class FifoDevice {
    /// Bytes written and not yet read, oldest first.
    var pending: seq<u8>
    /// Every byte passed to `write8`, in call order.
    var written: seq<u8>
    var readFlushes: nat
    var writeFlushes: nat

    constructor ()
      ensures pending == [] && written == [] && readFlushes == 0 && writeFlushes == 0
    {
      pending := [];
      written := [];
      readFlushes := 0;
      writeFlushes := 0;
    }

    /// `read8`: the oldest pending byte. The source blocks until data arrives; the
    /// model asks for it to be there.
    method Read8() returns (b: u8)
      requires |pending| > 0
      modifies this
      ensures b == old(pending[0]) && pending == old(pending[1..])
      ensures written == old(written)
      ensures readFlushes == old(readFlushes) && writeFlushes == old(writeFlushes)
    {
      b := pending[0];
      pending := pending[1..];
    }

    /// `write8`
    method Write8(b: u8)
      modifies this
      ensures pending == old(pending) + [b] && written == old(written) + [b]
      ensures readFlushes == old(readFlushes) && writeFlushes == old(writeFlushes)
    {
      pending := pending + [b];
      written := written + [b];
    }

    /// `flush_read`
    method FlushRead()
      modifies this
      ensures pending == old(pending) && written == old(written)
      ensures readFlushes == old(readFlushes) + 1 && writeFlushes == old(writeFlushes)
    {
      readFlushes := readFlushes + 1;
    }

    /// `flush_write`
    method FlushWrite()
      modifies this
      ensures pending == old(pending) && written == old(written)
      ensures readFlushes == old(readFlushes) && writeFlushes == old(writeFlushes) + 1
    {
      writeFlushes := writeFlushes + 1;
    }

    /// `write`: write8 is called four times, with d>>24, d>>16, d>>8 and d, each cut
    /// to a byte; no flush is made.
    method Write(d: u32)
      modifies this
      ensures written == old(written) + BeBytes(d)
      ensures pending == old(pending) + BeBytes(d)
      ensures readFlushes == old(readFlushes) && writeFlushes == old(writeFlushes)
    {
      Write8((d / TWO24) % TWO8);
      Write8((d / TWO16) % TWO8);
      Write8((d / TWO8) % TWO8);
      Write8(d % TWO8);
    }

    /// `read`: four read8 calls; the first byte read is the most significant.
    method Read() returns (d: u32)
      requires |pending| >= 4
      modifies this
      ensures d == FromBe(old(pending[0]), old(pending[1]), old(pending[2]), old(pending[3]))
      ensures pending == old(pending[4..]) && written == old(written)
      ensures readFlushes == old(readFlushes) && writeFlushes == old(writeFlushes)
    {
      var b0 := Read8();
      var b1 := Read8();
      var b2 := Read8();
      var b3 := Read8();
      d := FromBe(b0, b1, b2, b3);
    }

    /// Through a FIFO device with nothing pending, `read` after `write(d)` gives d.
    method Echo(d: u32) returns (r: u32)
      requires pending == []
      modifies this
      ensures r == d && pending == []
    {
      Write(d);
      r := Read();
      BeRoundTrip(d);
    }
  }

  /// Four bytes read are the word whose big-endian bytes they are.
  lemma ReadFramesBytes(b0: u8, b1: u8, b2: u8, b3: u8)
    ensures BeBytes(FromBe(b0, b1, b2, b3)) == [b0, b1, b2, b3]
  {
    var w := FromBe(b0, b1, b2, b3);
    assert w == b3 + TWO8 * (b2 + TWO8 * (b1 + TWO8 * b0));
    DivModByte(b2 + TWO8 * (b1 + TWO8 * b0), b3);
    DivModByte(b1 + TWO8 * b0, b2);
    DivModByte(b0, b1);
    assert w / TWO16 == (w / TWO8) / TWO8;
    assert w / TWO24 == (w / TWO16) / TWO8;
  }
}
