/** Reading and writing a non-blocking descriptor (src/Utils/Utils.cpp:74-157). */
module Utils {

  const MAX_BUF_SIZE := 4 * 1024

  datatype ReadOutcome =
    | Data(bytes: string) | EndOfFile | ReadAgain | ReadInterrupted | ReadFailed

  datatype WriteOutcome = Wrote(n: nat) | WriteAgain | WriteInterrupted | WriteFailed

  /** A write took nothing, and not because of an interrupt. */
  predicate Refuses(r: WriteOutcome) { r in {WriteAgain, WriteFailed, Wrote(0)} }

  /** The kernel's end of a descriptor. It answers as it likes, except that the input is finite,
      end of file comes after all of it, and there are finitely many interrupts and empty
      writes. */
  class Socket {
    ghost const input: string // all that the peer sends
    var unread: string      // what of it is still in store
    var delivered: string   // what the peer has been sent
    var hiccups: nat        // interrupts and empty writes still to come
    ghost var user: object? // the connection that owns the descriptor
    ghost var stops: seq<ReadOutcome>     // the answers to reads that brought nothing
    ghost var refusals: seq<WriteOutcome> // the answers to writes that took nothing

    constructor (input: string, hiccups: nat)
      ensures unread == this.input == input && delivered == ""
      ensures this.hiccups == hiccups && user == null && stops == [] && refusals == []
    {
      this.input := input;
      unread, delivered, this.hiccups, user := input, "", hiccups, null;
      stops, refusals := [], [];
    }

    /** `read(fd, buf, max)`. */
    method Read(max: nat) returns (r: ReadOutcome)
      requires 0 < max
      modifies `unread, `hiccups, `stops
      ensures stops == old(stops) + (if r.Data? || r.ReadInterrupted? then [] else [r])
      ensures r.Data? ==>
        && 0 < |r.bytes| <= max && old(unread) == r.bytes + unread && hiccups == old(hiccups)
      ensures !r.Data? ==> unread == old(unread)
      ensures r.EndOfFile? ==> unread == ""
      ensures r.ReadInterrupted? ==> hiccups < old(hiccups)
    {
      var choice: int := *;
      if choice == 0 && unread != "" {
        var n: nat :| 0 < n <= max && n <= |unread|;
        r := Data(unread[..n]);
        unread := unread[n..];
      } else if choice == 1 && unread == "" {
        r := EndOfFile;
      } else if choice == 2 && hiccups > 0 {
        r, hiccups := ReadInterrupted, hiccups - 1;
      } else {
        r := if choice == 3 then ReadFailed else ReadAgain;
      }
      if !r.Data? && !r.ReadInterrupted? { stops := stops + [r]; }
    }

    /** `write(fd, bytes, |bytes|)`. */
    method Write(bytes: string) returns (r: WriteOutcome)
      requires bytes != ""
      modifies `delivered, `hiccups, `refusals
      ensures refusals == old(refusals) + (if Refuses(r) then [r] else [])
      ensures r.Wrote? ==> r.n <= |bytes| && delivered == old(delivered) + bytes[..r.n]
      ensures !r.Wrote? ==> delivered == old(delivered)
      ensures hiccups <= old(hiccups)
      ensures r.WriteInterrupted? || r == Wrote(0) ==> hiccups < old(hiccups)
    {
      var choice: int := *;
      if choice == 0 {
        var n: nat :| 0 < n <= |bytes|;
        delivered := delivered + bytes[..n];
        r := Wrote(n);
      } else if choice == 1 && hiccups > 0 {
        var interrupted: bool := *;
        r, hiccups := if interrupted then WriteInterrupted else Wrote(0), hiccups - 1;
      } else {
        r := if choice == 2 then WriteFailed else WriteAgain;
      }
      if Refuses(r) { refusals := refusals + [r]; }
    }
  }

  /** Appends what can be read now to the buffer; `zero` reports end of file. It reads on until
      the kernel has nothing more, and says what stopped it: the result is the number of bytes,
      or -1 after a failure, and then the bytes read before are kept too. */
  method ReadFromFd(fd: Socket, inBuffer: string)
      returns (readSize: int, buffer: string, zero: bool)
    modifies fd`unread, fd`hiccups, fd`stops
    ensures |inBuffer| <= |buffer| && buffer[..|inBuffer|] == inBuffer
    ensures old(fd.unread) == buffer[|inBuffer|..] + fd.unread
    ensures readSize == -1 || readSize == |buffer| - |inBuffer|
    ensures fd.stops == old(fd.stops)
      + [if readSize < 0 then ReadFailed else if zero then EndOfFile else ReadAgain]
    ensures zero ==> fd.unread == "" && readSize >= 0
  {
    readSize, buffer, zero := 0, inBuffer, false;
    while true
      invariant |inBuffer| <= |buffer| && buffer[..|inBuffer|] == inBuffer
      invariant old(fd.unread) == buffer[|inBuffer|..] + fd.unread
      invariant readSize == |buffer| - |inBuffer| && !zero && fd.stops == old(fd.stops)
      decreases |fd.unread|, fd.hiccups
    {
      var r := fd.Read(MAX_BUF_SIZE);
      match r
      case ReadAgain => return;
      case ReadInterrupted =>
      case ReadFailed => return -1, buffer, zero;
      case EndOfFile => zero := true; return;
      case Data(bytes) =>
        assert (buffer + bytes)[|inBuffer|..] == buffer[|inBuffer|..] + bytes;
        readSize, buffer := readSize + |bytes|, buffer + bytes;
    }
  }

  /** Writes as much of the buffer as the kernel takes and keeps the rest: something is left, or
      the call fails, exactly when the kernel refused a write. When a write fails the buffer is
      left as it was, although `sent` bytes of it have gone out. */
  method WriteToFd(fd: Socket, outBuffer: string)
      returns (written: int, rest: string, ghost sent: nat)
    modifies fd`delivered, fd`hiccups, fd`refusals
    ensures sent <= |outBuffer| && fd.delivered == old(fd.delivered) + outBuffer[..sent]
    ensures written >= 0 ==> written == sent && rest == outBuffer[sent..]
    ensures written < 0 ==> written == -1 && rest == outBuffer
    ensures fd.delivered + rest == old(fd.delivered) + outBuffer <==> written >= 0 || sent == 0
    ensures Refused(old(fd.refusals), fd.refusals, rest != "", written < 0)
  {
    var left, sum := |outBuffer|, 0;
    while left > 0
      invariant 0 <= left && left + sum == |outBuffer| && fd.refusals == old(fd.refusals)
      invariant fd.delivered == old(fd.delivered) + outBuffer[..sum]
      decreases left, fd.hiccups
    {
      var w := fd.Write(outBuffer[sum..]);
      match w
      case WriteInterrupted =>
      case WriteAgain => break;
      case WriteFailed =>
        KeptBytesCount(old(fd.delivered), outBuffer, sum);
        return -1, outBuffer, sum;
      case Wrote(n) =>
        if n == 0 { break; }
        assert outBuffer[..sum] + outBuffer[sum..][..n] == outBuffer[..sum + n];
        left, sum := left - n, sum + n;
    }
    assert outBuffer[..sum] + outBuffer[sum..] == outBuffer;
    return sum, outBuffer[sum..], sum;
  }

  /** The kernel refused exactly one more write when bytes are left, and none otherwise; it was a
      failure when the call has failed. */
  ghost predicate Refused(before: seq<WriteOutcome>, after: seq<WriteOutcome>, left: bool,
                          failed: bool)
  {
    if left then
      && |after| == |before| + 1 && before <= after
      && (after[|before|] == WriteFailed <==> failed)
    else !failed && after == before
  }

  /** Bytes that were sent and kept as well are counted twice. */
  lemma KeptBytesCount(before: string, out: string, n: nat)
    requires n <= |out|
    ensures before + out[..n] + out == before + out <==> n == 0
  {
    if n == 0 { assert before + out[..n] == before; }
    else { assert |before + out[..n] + out| != |before + out|; }
  }

  /** The variant for raw memory. It goes on after an empty write, and stops early exactly when
      the kernel would block or fails. */
  method WriteRaw(fd: Socket, bytes: string) returns (written: int)
    modifies fd`delivered, fd`hiccups, fd`refusals
    ensures old(fd.delivered) <= fd.delivered <= old(fd.delivered) + bytes
    ensures written >= 0 ==> |fd.delivered| == |old(fd.delivered)| + written
    ensures written < 0 ==> written == -1
    ensures old(fd.refusals) <= fd.refusals
    ensures fd.delivered == old(fd.delivered) + bytes
         || StoppedBy(fd.refusals[|old(fd.refusals)|..])
    ensures written < 0 ==> fd.refusals != [] && fd.refusals[|fd.refusals| - 1] == WriteFailed
  {
    var sum := 0;
    while sum < |bytes|
      invariant 0 <= sum <= |bytes| && old(fd.refusals) <= fd.refusals
      invariant fd.delivered == old(fd.delivered) + bytes[..sum]
      decreases |bytes| - sum, fd.hiccups
    {
      var w := fd.Write(bytes[sum..]);
      match w
      case WriteInterrupted =>
      case WriteAgain => return sum;
      case WriteFailed => return -1;
      case Wrote(n) =>
        assert bytes[..sum] + bytes[sum..][..n] == bytes[..sum + n];
        sum := sum + n;
    }
    return sum;
  }

  /** The last of some refusals is not an empty write. */
  predicate StoppedBy(refusals: seq<WriteOutcome>) {
    refusals != [] && refusals[|refusals| - 1] in {WriteAgain, WriteFailed}
  }
}
