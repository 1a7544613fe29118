/** nir/application_adapter.py: newline-delimited frames read from and written to a child process. */
module FrameReaders {
  import opened Ordering
  import opened Results
  import opened Streams

  const MAX_FRAME_BYTES := 16 * 1024 * 1024
  const READ_BYTES := 64 * 1024
  const NEWLINE: Byte := 10

  /** json.loads and the bounds on what it returns, abstractly: None where they raise. */
  type Decoder<V> = seq<Byte> -> Option<V>

  // ----- Splitting a stream on newlines

  function Find(s: seq<Byte>, from: nat): (i: nat)
    requires from <= |s|
    ensures from <= i <= |s|
    ensures forall j | from <= j < i :: s[j] != NEWLINE
    ensures i < |s| ==> s[i] == NEWLINE
    decreases |s| - from
  {
    if from == |s| || s[from] == NEWLINE then from else Find(s, from + 1)
  }

  /** All complete lines of a stream, without their newlines. */
  function Lines(s: seq<Byte>): seq<seq<Byte>>
    decreases |s|
  {
    var i := Find(s, 0);
    if i == |s| then [] else [s[..i]] + Lines(s[i + 1..])
  }

  function DecodeFrame<V>(decode: Decoder<V>, frame: seq<Byte>): Option<V> {
    if frame == [] || |frame| > MAX_FRAME_BYTES then None else decode(frame)
  }

  /** The first line of the stream, decoded, and what follows it. */
  ghost function Next<V>(decode: Decoder<V>, s: seq<Byte>): Option<(V, seq<Byte>)> {
    var i := Find(s, 0);
    if i == |s| then None
    else
      match DecodeFrame(decode, s[..i])
      case None => None
      case Some(v) => Some((v, s[i + 1..]))
  }

  lemma FindInPrefix(s: seq<Byte>, more: seq<Byte>)
    ensures Find(s, 0) < |s| ==> Find(s + more, 0) == Find(s, 0)
    ensures Find(s, 0) == |s| ==> Find(s + more, 0) >= |s|
  {
    assert forall k | 0 <= k < |s| :: (s + more)[k] == s[k];
  }

  class FrameReader<V(0)> {
    const decode: Decoder<V>
    var buffer: seq<Byte>
    const source: Source

    constructor (decode: Decoder<V>, source: Source)
      ensures this.decode == decode && this.source == source && buffer == [] && Valid()
    {
      this.decode := decode;
      this.source := source;
      buffer := [];
    }

    /** The buffer never holds more than one frame limit and one read. */
    ghost predicate Valid()
      reads this
    {
      |buffer| <= MAX_FRAME_BYTES + READ_BYTES
    }

    /** What has arrived but was not returned, and what is still to arrive. */
    ghost function Pending(): seq<Byte>
      reads this, source
    {
      buffer + source.data
    }

    /** The next frame, or a failure, exactly as the unread stream decides, however it arrives. */
    method Read() returns (r: Option<V>)
      requires Valid()
      modifies this`buffer, source
      ensures Valid()
      ensures r.Some? <==> Next(decode, old(Pending())).Some?
      ensures r.Some? ==> (r.value, Pending()) == Next(decode, old(Pending())).value
    {
      ghost var all := Pending();
      while true
        invariant Valid() && Pending() == all
        decreases |source.data|
      {
        var i := Find(buffer, 0);
        FindInPrefix(buffer, source.data);
        if i < |buffer| {
          var frame := buffer[..i];
          assert all[..i] == frame && all[i + 1..] == buffer[i + 1..] + source.data;
          buffer := buffer[i + 1..];
          return DecodeFrame(decode, frame);
        }
        if |buffer| > MAX_FRAME_BYTES {
          return None;
        }
        var chunk := source.Read(READ_BYTES);
        if chunk == [] {
          assert all == buffer;
          return None;
        }
        assert buffer + (chunk + source.data) == (buffer + chunk) + source.data;
        buffer := buffer + chunk;
      }
    }
  }

  // ----- Many frames

  lemma LinesOfNext<V>(decode: Decoder<V>, s: seq<Byte>)
    ensures Next(decode, s).Some? <==> Lines(s) != [] && DecodeFrame(decode, Lines(s)[0]).Some?
    ensures Next(decode, s).Some? ==> Next(decode, s).value.0 == DecodeFrame(decode, Lines(s)[0]).value
    ensures Next(decode, s).Some? ==> Lines(Next(decode, s).value.1) == Lines(s)[1..]
  {
  }

  /** The outcome of reading up to `count` frames from a stream: the frames, and whether it failed before. */
  ghost predicate Outcome<V>(decode: Decoder<V>, stream: seq<Byte>, count: nat, frames: seq<V>, failed: bool) {
    var lines := Lines(stream);
    && |frames| <= |lines|
    && (forall i | 0 <= i < |frames| :: DecodeFrame(decode, lines[i]) == Some(frames[i]))
    && (failed <==> |frames| < count)
    && (failed ==> |frames| == |lines| || DecodeFrame(decode, lines[|frames|]) == None)
    && |frames| <= count
  }

  /** However the stream is cut into reads, reading it frame by frame gives the same frames and
      fails at the same place as splitting the whole stream on newlines. */
  method ReadFrames<V(0)>(reader: FrameReader<V>, count: nat) returns (frames: seq<V>, failed: bool)
    requires reader.Valid()
    modifies reader`buffer, reader.source
    ensures reader.Valid()
    ensures Outcome(reader.decode, old(reader.Pending()), count, frames, failed)
  {
    frames := [];
    ghost var lines := Lines(reader.Pending());
    while |frames| < count
      invariant reader.Valid() && |frames| <= count && |frames| <= |lines|
      invariant forall i | 0 <= i < |frames| :: DecodeFrame(reader.decode, lines[i]) == Some(frames[i])
      invariant Lines(reader.Pending()) == lines[|frames|..]
      decreases count - |frames|
    {
      LinesOfNext(reader.decode, reader.Pending());
      var r := reader.Read();
      if r.None? {
        return frames, true;
      }
      frames := frames + [r.value];
    }
    return frames, false;
  }

  lemma NotShorter<V>(decode: Decoder<V>, stream: seq<Byte>, count: nat, a: seq<V>, x: bool, b: seq<V>, y: bool)
    requires Outcome(decode, stream, count, a, x) && Outcome(decode, stream, count, b, y)
    ensures |a| >= |b|
  {
    hide DecodeFrame;
  }

  /** So two readers of the same stream agree, whatever the reads. */
  lemma {:induction false} OutcomeIsUnique<V>(decode: Decoder<V>, stream: seq<Byte>, count: nat, a: seq<V>, x: bool, b: seq<V>, y: bool)
    requires Outcome(decode, stream, count, a, x) && Outcome(decode, stream, count, b, y)
    ensures a == b && x == y
  {
    NotShorter(decode, stream, count, a, x, b, y);
    NotShorter(decode, stream, count, b, y, a, x);
    forall i | 0 <= i < |a| && i < |b| ensures a[i] == b[i] {
      assert Some(a[i]) == Some(b[i]);
    }
  }

  // ----- Writing

  /** What one round of the write loop meets: no readiness in time, a pipe that is full after all,
      or room for some bytes. */
  datatype Readiness = Expired | Blocked | Room

  /** How many writes there is room for before the time is up. */
  function Rooms(rounds: seq<Readiness>): nat {
    if rounds == [] || rounds[0].Expired? then 0
    else (if rounds[0].Room? then 1 else 0) + Rooms(rounds[1..])
  }

  /** The writes there is room for take so many bytes, and each of them takes some. */
  ghost predicate Arrives(cuts: seq<nat>, size: nat, rounds: seq<Readiness>) {
    Passed(cuts, size, Rooms(rounds)) == size && Flows(cuts, size)
  }

  /** A request arrives whole and once, or a proper prefix of it does and the write fails. */
  method WriteFrame(sink: Sink, frame: seq<Byte>, rounds: seq<Readiness>) returns (ok: bool)
    modifies sink
    ensures ok <==> Arrives(old(sink.cuts), |frame|, rounds)
    ensures ok ==> sink.written == old(sink.written) + frame
    ensures !ok ==> exists n :: 0 <= n < |frame| && sink.written == old(sink.written) + frame[..n]
  {
    hide Writing, Passed, Streams.After, Flows, Taken;
    var written := 0;
    var round := 0;
    ghost var cuts, writes := sink.cuts, 0;
    WritingStarts(cuts, |frame|);
    assert rounds[0..] == rounds;
    while written < |frame|
      invariant 0 <= written <= |frame| && 0 <= round <= |rounds|
      invariant sink.written == old(sink.written) + frame[..written]
      invariant Writing(cuts, |frame|, writes, sink.cuts, written)
      invariant writes + Rooms(rounds[round..]) == Rooms(rounds)
      decreases |rounds| - round
    {
      GotThisFar(cuts, |frame|, writes, sink.cuts, written);
      if round == |rounds| || rounds[round].Expired? {
        return false;
      }
      assert rounds[round..][1..] == rounds[round + 1..];
      round := round + 1;
      if rounds[round - 1].Room? {
        ghost var now := sink.cuts;
        var n := sink.Write(frame[written..]);
        assert frame[..written] + frame[written..][..n] == frame[..written + n];
        WritingGoesOn(cuts, |frame|, writes, now, written, n);
        if n == 0 {
          return false;
        }
        writes := writes + 1;
        written := written + n;
      }
    }
    assert frame[..written] == frame;
    WritingEnds(cuts, |frame|, writes, sink.cuts);
    return true;
  }

  lemma FirstLine(f: seq<Byte>, rest: seq<Byte>)
    requires NEWLINE !in f
    ensures Find(f + [NEWLINE] + rest, 0) == |f|
  {
    var s := f + [NEWLINE] + rest;
    assert s[|f|] == NEWLINE;
    forall j | 0 <= j < |f| ensures s[j] != NEWLINE {
      assert s[j] == f[j] && f[j] in f;
    }
  }

  lemma LinesOfFirst(f: seq<Byte>, rest: seq<Byte>)
    requires NEWLINE !in f
    ensures Lines(f + [NEWLINE] + rest) == [f] + Lines(rest)
  {
    var s := f + [NEWLINE] + rest;
    FirstLine(f, rest);
    assert s[..|f|] == f && s[|f| + 1..] == rest;
  }

  /** Frames written one after the other are the lines read back: encoded requests hold no newline. */
  lemma {:induction false} WrittenAreRead(frames: seq<seq<Byte>>, rest: seq<Byte>)
    requires forall f | f in frames :: NEWLINE !in f
    ensures Lines(Joined(frames) + rest) == frames + Lines(rest)
  {
    hide Lines;
    if frames == [] {
      assert Joined(frames) + rest == rest;
    } else {
      assert frames[0] in frames && forall g | g in frames[1..] :: g in frames;
      WrittenAreRead(frames[1..], rest);
      assert Joined(frames) + rest == frames[0] + [NEWLINE] + (Joined(frames[1..]) + rest);
      LinesOfFirst(frames[0], Joined(frames[1..]) + rest);
      assert frames == [frames[0]] + frames[1..];
    }
  }

  function Joined(frames: seq<seq<Byte>>): seq<Byte> {
    if frames == [] then [] else frames[0] + [NEWLINE] + Joined(frames[1..])
  }
}
