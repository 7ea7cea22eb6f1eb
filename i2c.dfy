/**
  A stand-in for the I2C connection the program keeps in its global
  `i2cConn`. The real driver talks to the kernel; here the device's
  behaviour on its transfers is held in two fields the environment
  sets (`acksWrite`, `reply`), and every attempted transfer is logged.
 */
module I2c {
  import opened Wrappers
  import opened Sht31

  datatype IoError = WriteFailed | ReadFailed

  /** One attempted bus transfer. */
  datatype Transfer = Write(bytes: seq<byte>) | Read(count: nat)

  class Bus {
    /** Every transfer attempted on this connection, oldest first. */
    var transfers: seq<Transfer>
    /** Whether the device acknowledges each write. */
    var acksWrite: bool
    /** The bytes the device answers each read with; None for a NACK or timeout. */
    var reply: Option<seq<byte>>

    constructor (acksWrite: bool, reply: Option<seq<byte>>)
      ensures transfers == [] && this.acksWrite == acksWrite && this.reply == reply
    {
      transfers := [];
      this.acksWrite := acksWrite;
      this.reply := reply;
    }

    /** Writes `buf` to the device; `n` is the number of bytes written. */
    method WriteBytes(buf: seq<byte>) returns (n: nat, err: Option<IoError>)
      modifies this`transfers
      ensures transfers == old(transfers) + [Write(buf)]
      ensures err == (if acksWrite then None else Some(WriteFailed))
      ensures n == (if acksWrite then |buf| else 0)
    {
      transfers := transfers + [Write(buf)];
      if acksWrite {
        n, err := |buf|, None;
      } else {
        n, err := 0, Some(WriteFailed);
      }
    }

    /** Fills `buf` from the device. The read succeeds only when the device
        answers with exactly `buf.Length` bytes; a failed read leaves `buf` alone. */
    method ReadBytes(buf: array<byte>) returns (n: nat, err: Option<IoError>)
      modifies this`transfers, buf
      ensures transfers == old(transfers) + [Read(buf.Length)]
      ensures ReadSucceeds(buf.Length) ==> err == None && n == buf.Length && buf[..] == reply.value
      ensures !ReadSucceeds(buf.Length) ==> err == Some(ReadFailed) && n == 0 && buf[..] == old(buf[..])
    {
      transfers := transfers + [Read(buf.Length)];
      if ReadSucceeds(buf.Length) {
        var bytes := reply.value;
        forall i | 0 <= i < buf.Length {
          buf[i] := bytes[i];
        }
        n, err := buf.Length, None;
      } else {
        n, err := 0, Some(ReadFailed);
      }
    }

    predicate ReadSucceeds(count: nat)
      reads this
    {
      reply.Some? && |reply.value| == count
    }
  }
}
