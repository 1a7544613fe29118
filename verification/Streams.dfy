/** Digests, open files and descriptors written to, as the copying and hashing loops use them. */
module Streams {
  import opened Ordering

  /** What a digest object has been fed: the hash is a function of it. */
  class Digest {
    var fed: seq<Byte>

    constructor (start: seq<Byte>)
      ensures fed == start
    {
      fed := start;
    }

    method Update(chunk: seq<Byte>)
      modifies this
      ensures fed == old(fed) + chunk
    {
      fed := fed + chunk;
    }
  }

  /** An open file: each read returns as many bytes as it likes, up to what was asked for, and
      nothing only at the end. `cuts` says how long each read turns out. */
  class Source {
    var data: seq<Byte>
    var cuts: seq<nat>

    constructor (data: seq<Byte>, cuts: seq<nat>)
      ensures this.data == data && this.cuts == cuts
    {
      this.data := data;
      this.cuts := cuts;
    }

    method Read(n: nat) returns (chunk: seq<Byte>)
      requires n > 0
      modifies this
      ensures old(data) == chunk + data
      ensures |chunk| <= n
      ensures chunk == [] <==> old(data) == []
    {
      var want := if cuts == [] || cuts[0] == 0 then n else cuts[0];
      var size := if want < n then want else n;
      size := if size < |data| then size else |data|;
      cuts := if cuts == [] then [] else cuts[1..];
      chunk, data := data[..size], data[size..];
    }
  }

  /** How much the next write takes of this many bytes. */
  function Taken(cuts: seq<nat>, size: nat): nat {
    if cuts == [] || cuts[0] > size then size else cuts[0]
  }

  /** A descriptor to write to: each write takes as many bytes as it likes of what it is offered,
      possibly none. */
  class Sink {
    var written: seq<Byte>
    var cuts: seq<nat>

    constructor (cuts: seq<nat>)
      ensures written == [] && this.cuts == cuts
    {
      written := [];
      this.cuts := cuts;
    }

    method Write(data: seq<Byte>) returns (n: nat)
      requires data != []
      modifies this
      ensures n == Taken(old(cuts), |data|) <= |data| && written == old(written) + data[..n]
      ensures cuts == if old(cuts) == [] then [] else old(cuts)[1..]
    {
      n := Taken(cuts, |data|);
      cuts := if cuts == [] then [] else cuts[1..];
      written := written + data[..n];
    }
  }

  /** How many of `size` bytes are gone after so many writes, if all of them are made. */
  function Passed(cuts: seq<nat>, size: nat, writes: nat): (n: nat)
    ensures n <= size
  {
    if writes == 0 then 0
    else
      var before := Passed(cuts, size, writes - 1);
      before + Taken(After(cuts, writes - 1), size - before)
  }

  function After(cuts: seq<nat>, writes: nat): seq<nat> {
    if writes <= |cuts| then cuts[writes..] else []
  }

  lemma {:induction false} PassedGrows(cuts: seq<nat>, size: nat, few: nat, many: nat)
    requires few <= many
    ensures Passed(cuts, size, few) <= Passed(cuts, size, many)
    decreases many
  {
    if few < many {
      PassedGrows(cuts, size, few, many - 1);
    }
  }

  /** As long as something is left, the next write takes some of it. */
  ghost predicate Flows(cuts: seq<nat>, size: nat) {
    forall i: nat | Passed(cuts, size, i) < size :: Taken(After(cuts, i), size - Passed(cuts, size, i)) > 0
  }

  /** A loop that has made some writes, each of which took something, and has got this far. */
  ghost predicate Writing(cuts: seq<nat>, size: nat, writes: nat, now: seq<nat>, done: nat) {
    && now == After(cuts, writes) && done == Passed(cuts, size, writes)
    && forall i: nat | i < writes :: Taken(After(cuts, i), size - Passed(cuts, size, i)) > 0
  }

  lemma WritingStarts(cuts: seq<nat>, size: nat)
    ensures Writing(cuts, size, 0, cuts, 0)
  {
  }

  lemma OneMoreWrite(cuts: seq<nat>, size: nat, writes: nat)
    ensures Passed(cuts, size, writes + 1) == Passed(cuts, size, writes) + Taken(After(cuts, writes), size - Passed(cuts, size, writes))
    ensures After(cuts, writes + 1) == if After(cuts, writes) == [] then [] else After(cuts, writes)[1..]
  {
    hide Taken;
  }

  lemma WritingGoesOn(cuts: seq<nat>, size: nat, writes: nat, now: seq<nat>, done: nat, n: nat)
    requires Writing(cuts, size, writes, now, done) && done < size && n == Taken(now, size - done)
    ensures n == 0 ==> !Flows(cuts, size)
    ensures n > 0 ==> Writing(cuts, size, writes + 1, if now == [] then [] else now[1..], done + n)
  {
    hide Taken, Passed, After;
    OneMoreWrite(cuts, size, writes);
  }

  lemma WritingEnds(cuts: seq<nat>, size: nat, writes: nat, now: seq<nat>)
    requires Writing(cuts, size, writes, now, size)
    ensures Flows(cuts, size) && forall more: nat | more >= writes :: Passed(cuts, size, more) == size
  {
    hide Taken, After;
    forall more: nat | more >= writes ensures Passed(cuts, size, more) == size {
      PassedGrows(cuts, size, writes, more);
    }
  }

  lemma GotThisFar(cuts: seq<nat>, size: nat, writes: nat, now: seq<nat>, done: nat)
    requires Writing(cuts, size, writes, now, done)
    ensures Passed(cuts, size, writes) == done
  {
  }

  lemma PositiveFlows(cuts: seq<nat>, size: nat)
    requires forall c | c in cuts :: c > 0
    ensures Flows(cuts, size)
  {
    hide Passed;
    forall i: nat | Passed(cuts, size, i) < size ensures Taken(After(cuts, i), size - Passed(cuts, size, i)) > 0 {
      if i < |cuts| {
        assert After(cuts, i)[0] == cuts[i] && cuts[i] in cuts;
      }
    }
  }

  /** Short writes are continued; a write that takes nothing ends the attempt. */
  method WriteAll(sink: Sink, data: seq<Byte>) returns (ok: bool)
    modifies sink
    ensures ok <==> Flows(old(sink.cuts), |data|)
    ensures ok ==> sink.written == old(sink.written) + data
    ensures !ok ==> exists n :: 0 <= n < |data| && sink.written == old(sink.written) + data[..n]
    ensures forall c | c in sink.cuts :: c in old(sink.cuts)
  {
    hide Writing, Passed, After, Flows, Taken;
    var done := 0;
    ghost var cuts, writes := sink.cuts, 0;
    WritingStarts(cuts, |data|);
    while done < |data|
      invariant 0 <= done <= |data| && sink.written == old(sink.written) + data[..done]
      invariant Writing(cuts, |data|, writes, sink.cuts, done)
      invariant forall c | c in sink.cuts :: c in cuts
      decreases |data| - done
    {
      ghost var now := sink.cuts;
      var n := sink.Write(data[done..]);
      assert data[..done] + data[done..][..n] == data[..done + n];
      WritingGoesOn(cuts, |data|, writes, now, done, n);
      if n == 0 {
        return false;
      }
      writes := writes + 1;
      done := done + n;
    }
    assert data[..done] == data;
    WritingEnds(cuts, |data|, writes, sink.cuts);
    return true;
  }

  const CHUNK_BYTES := 0x10_0000

  /** Copies a file while hashing it, however reads and writes are cut. A source longer than the
      limit is noticed after one byte too many, and nothing of that read is written. */
  method CopyBounded(source: Source, sink: Sink, digest: Digest, limit: nat) returns (total: nat, ok: bool)
    requires sink.written == []
    modifies source, sink, digest
    ensures sink.written <= old(source.data) && |sink.written| <= limit
    ensures ok ==> total == |old(source.data)| <= limit && sink.written == old(source.data)
    ensures ok ==> digest.fed == old(digest.fed) + old(source.data)
    ensures |old(source.data)| > limit ==> !ok
    ensures !ok && |old(source.data)| <= limit ==> |sink.written| < |old(source.data)|
    // No write that takes nothing: success is a matter of size alone.
    ensures (forall c | c in old(sink.cuts) :: c > 0) ==> (ok <==> |old(source.data)| <= limit)
  {
    hide Flows;
    total := 0;
    ghost var all := source.data;
    ghost var start := digest.fed;
    ghost var cuts := sink.cuts;
    while true
      invariant forall c | c in sink.cuts :: c in cuts
      invariant total <= limit && total <= |all|
      invariant source.data == all[total..] && sink.written == all[..total] && digest.fed == start + all[..total]
      decreases |source.data|
    {
      var want := limit + 1 - total;
      var chunk := source.Read(if want < CHUNK_BYTES then want else CHUNK_BYTES);
      assert all[total..][..|chunk|] == chunk;
      if chunk == [] {
        assert all[..total] == all;
        return total, true;
      }
      if total + |chunk| > limit {
        return total, false;
      }
      digest.Update(chunk);
      if forall c | c in cuts :: c > 0 {
        PositiveFlows(sink.cuts, |chunk|);
      }
      var written := WriteAll(sink, chunk);
      if !written {
        ghost var n :| 0 <= n < |chunk| && sink.written == all[..total] + chunk[..n];
        assert sink.written == all[..total + n];
        return total, false;
      }
      assert all[..total] + chunk == all[..total + |chunk|];
      total := total + |chunk|;
    }
  }
}
