/**
 * The captured standard output of one tor (`TStdOutData` in src/main.rs): the capture
 * loop of `stdout_stream_to_vec` that appends it byte by byte, and the one locked pass
 * of the drain task that logs and clears it (`DrainStep`; the drain loops are in
 * `Drain`). Each call of `Append` or `DrainStep` is one critical section under the
 * buffer's mutex; the loops are sequences of such calls, so the two threads are too.
 */
module Capture {
  import opened Numbers
  import opened Io
  import Utf8

  /** A read that lets the capture loop go on: exactly one byte. */
  predicate Continues(r: ReadResult) {
    r.ReadOk? && r.got == 1
  }

  /**
   * The bytes the capture loop pushes for `stream`: the `first` bytes of the leading
   * one-byte reads, up to the first error, end of file (0) or unexpected count.
   */
  function Captured(stream: Stream): (r: seq<Byte>)
    ensures |r| <= |stream|
    decreases |stream|
  {
    if stream == [] || !Continues(stream[0]) then []
    else [stream[0].first] + Captured(stream[1..])
  }

  /**
   * The captured bytes are, in order, the bytes of the leading one-byte reads, and the
   * read after them (if any) is the one that stopped the loop.
   */
  lemma {:induction false} CapturedIsLeadingRun(stream: Stream)
    ensures var r := Captured(stream);
      && (forall i :: 0 <= i < |r| ==> stream[i] == ReadOk(1, r[i]))
      && (|r| < |stream| ==> !Continues(stream[|r|]))
    decreases |stream|
  {
    if stream != [] && Continues(stream[0]) {
      CapturedIsLeadingRun(stream[1..]);
      var r := Captured(stream);
      assert r[1..] == Captured(stream[1..]);
      forall i | 1 <= i < |r| ensures stream[i] == ReadOk(1, r[i]) {
        assert stream[1..][i - 1] == ReadOk(1, r[1..][i - 1]);
      }
    }
  }

  /** What one pass of the inner drain loop finds in the buffer. */
  datatype DrainOutcome =
    | Empty                          // nothing to log: the inner loop breaks
    | Emitted(text: seq<Byte>)       // valid UTF-8: logged, then the buffer is cleared
    | Invalid                        // not UTF-8: neither logged nor cleared

  /** `String::from_utf8(buffer.clone())` followed by the `is_empty` test. */
  function Classify(data: seq<Byte>): (o: DrainOutcome)
    ensures o == Empty <==> data == []
    ensures o.Emitted? <==> data != [] && Utf8.Valid(data)
    ensures o.Emitted? ==> o.text == data
  {
    if !Utf8.Valid(data) then Invalid
    else if data == [] then Empty
    else Emitted(data)
  }

  /**
   * `Arc<Mutex<Vec<u8>>>`. The ghost history says that nothing is lost or repeated:
   * the text drained so far followed by the bytes still held is every byte appended.
   */
  class OutputBuffer {
    var data: seq<Byte>
    ghost var appended: seq<Byte>
    ghost var drained: seq<Byte>

    ghost predicate Valid()
      reads this
    {
      drained + data == appended
    }

    constructor ()
      ensures Valid() && data == [] && appended == [] && drained == []
    {
      data, appended, drained := [], [], [];
    }

    /** `vec.lock().push(b)`. */
    method Append(b: Byte)
      requires Valid()
      modifies this
      ensures Valid()
      ensures data == old(data) + [b]
      ensures appended == old(appended) + [b] && drained == old(drained)
    {
      data := data + [b];
      appended := appended + [b];
    }

    /** One pass of the inner drain loop, under the lock: clear only what was logged. */
    method DrainStep() returns (o: DrainOutcome)
      requires Valid()
      modifies this
      ensures Valid()
      ensures o == Classify(old(data))
      ensures data == if o.Emitted? then [] else old(data)
      ensures appended == old(appended)
      ensures drained == old(drained) + (if o.Emitted? then o.text else [])
    {
      o := Classify(data);
      if o.Emitted? {
        drained := drained + data;
        data := [];
      }
    }
  }

  /**
   * The capture thread of `stdout_stream_to_vec` over the reads `stream` yields. It
   * returns the number of reads made and whether the loop has stopped for good; when
   * it has not, the thread is still waiting in `read` after the last one.
   */
  method CaptureLoop(out: OutputBuffer, stream: Stream) returns (readCount: nat, stopped: bool)
    requires out.Valid()
    modifies out
    ensures out.Valid()
    ensures out.data == old(out.data) + Captured(stream)
    ensures out.appended == old(out.appended) + Captured(stream) && out.drained == old(out.drained)
    ensures stopped <==> |Captured(stream)| < |stream|
    ensures readCount == if stopped then |Captured(stream)| + 1 else |stream|
  {
    var rest := stream;
    ghost var taken: seq<Byte> := [];
    readCount, stopped := 0, false;
    while rest != []
      invariant readCount + |rest| == |stream| && |taken| == readCount
      invariant out.Valid() && out.drained == old(out.drained)
      invariant out.data == old(out.data) + taken
      invariant Captured(stream) == taken + Captured(rest)
    {
      var r := rest[0];
      readCount := readCount + 1;
      match r {
        case ReadFailed(_) =>
          stopped := true;
        case ReadOk(got, b) =>
          if got == 1 {
            assert Captured(rest) == [b] + Captured(rest[1..]);
            out.Append(b);
            taken := taken + [b];
          } else {
            // 0 is end of file; any other count is unexpected
            stopped := true;
          }
      }
      if stopped {
        assert Captured(rest) == [];
        break;
      }
      rest := rest[1..];
    }
  }

  /**
   * `stdout_stream_to_vec`: a fresh buffer fed by the capture loop. The buffer holds
   * exactly the bytes read, in order.
   */
  method StdoutStreamToVec(stream: Stream) returns (out: OutputBuffer, readCount: nat, stopped: bool)
    ensures fresh(out) && out.Valid()
    ensures out.data == Captured(stream) && out.appended == Captured(stream) && out.drained == []
    ensures stopped <==> |Captured(stream)| < |stream|
  {
    out := new OutputBuffer();
    readCount, stopped := CaptureLoop(out, stream);
  }

  /** The capture thread pushing `bytes` one at a time, each push under the lock. */
  method AppendEach(out: OutputBuffer, bytes: seq<Byte>)
    requires out.Valid()
    modifies out
    ensures out.Valid()
    ensures out.data == old(out.data) + bytes
    ensures out.appended == old(out.appended) + bytes && out.drained == old(out.drained)
  {
    for i := 0 to |bytes|
      invariant out.Valid()
      invariant out.data == old(out.data) + bytes[..i]
      invariant out.appended == old(out.appended) + bytes[..i] && out.drained == old(out.drained)
    {
      assert bytes[..i + 1] == bytes[..i] + [bytes[i]];
      out.Append(bytes[i]);
    }
    assert bytes[..|bytes|] == bytes;
  }
}
