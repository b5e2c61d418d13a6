/** The playback delay of src/dsp/Delay.h: a ring buffer the block is exchanged with, in place. */
module Delays {

  /** A ring read from its position: the oldest sample first. */
  function Ring<T>(b: seq<T>, pos: nat): (r: seq<T>)
    requires pos <= |b|
    ensures |r| == |b|
  {
    b[pos..] + b[..pos]
  }

  /** Overwriting the oldest sample and stepping on drops it and appends the new one. */
  lemma RingStep<T>(b: seq<T>, pos: nat, x: T)
    requires pos < |b|
    ensures (pos + 1) % |b| < |b|
    ensures Ring(b[pos := x], (pos + 1) % |b|) == Ring(b, pos)[1..] + [x]
  {
    var n := |b|;
    if pos + 1 < n {
      assert (pos + 1) % n == pos + 1;
      assert Ring(b[pos := x], pos + 1) == b[pos + 1..] + (b[..pos] + [x]);
    } else {
      assert (pos + 1) % n == 0;
    }
  }

  lemma SlideWindow<T>(all: seq<T>, i: nat, n: nat)
    requires 1 <= n && i + n < |all|
    ensures all[i..i + n][1..] + [all[i + n]] == all[i + 1..i + 1 + n]
    ensures all[i..i + n][0] == all[i]
  {
  }

  datatype Exchange<T> = Exchange(line: seq<T>, io: seq<T>)

  /** The first n samples of a block exchanged with a line, one by one. */
  function Exchanged<T>(line: seq<T>, io: seq<T>, n: nat): (r: Exchange<T>)
    requires n <= |io| && line != []
    ensures |r.line| == |line| && |r.io| == |io|
  {
    if n == 0 then Exchange(line, io)
    else
      var r := Exchanged(line, io, n - 1);
      Exchange(r.line[1..] + [r.io[n - 1]], r.io[n - 1 := r.line[0]])
  }

  /** Done so far: the block starts with the front of line and input, the line is what follows. */
  lemma {:induction false} ExchangedSoFar<T>(line: seq<T>, io: seq<T>, n: nat)
    requires n <= |io| && line != []
    ensures var r := Exchanged(line, io, n);
            && r.line == (line + io)[n..n + |line|]
            && forall k :: 0 <= k < |io| ==> r.io[k] == if k < n then (line + io)[k] else io[k]
  {
    if n > 0 {
      ExchangedSoFar(line, io, n - 1);
      SlideWindow(line + io, n - 1, |line|);
    }
  }

  lemma ExchangedConserves<T>(line: seq<T>, io: seq<T>, n: nat)
    requires n <= |io| && line != []
    ensures var r := Exchanged(line, io, n);
            r.io[..n] + r.line == line + io[..n] && r.io[n..] == io[n..]
  {
    ExchangedSoFar(line, io, n);
    var r := Exchanged(line, io, n);
    assert r.io[..n] == (line + io)[..n];
    assert (line + io)[..n + |line|] == line + io[..n];
  }

  lemma NonNegative(x: real, y: real)
    requires x >= 0.0 && y >= 0.0
    ensures x * y >= 0.0
  {
  }

  /** The whole frames in `ms` milliseconds. */
  function FramesIn(ms: real, fs: real): nat
    requires ms >= 0.0 && fs >= 0.0
  {
    NonNegative(ms / 1000.0, fs);
    ((ms / 1000.0) * fs).Floor
  }

  class Delay {
    var fs: real
    var channels: nat
    var delayMs: real
    var buffer: array<real>
    var pos: nat

    ghost predicate Valid()
      reads this
    {
      (pos < buffer.Length || (pos == 0 && buffer.Length == 0)) && channels >= 1
    }

    /** The samples held back, oldest first. */
    ghost function Line(): seq<real>
      requires Valid()
      reads this, buffer
    {
      Ring(buffer[..], pos)
    }

    constructor (fs: real, channels: nat)
      requires channels >= 1
      ensures Valid() && fresh(buffer) && Line() == []
      ensures this.fs == fs && this.channels == channels && delayMs == 0.0
    {
      this.fs, this.channels, delayMs, pos := fs, channels, 0.0, 0;
      buffer := new real[0];
    }

    /** Replaces the line by silence of the whole number of frames that fits in `ms`. */
    method SetDelayMs(ms: real)
      requires Valid() && fs >= 0.0
      modifies this
      ensures Valid() && fresh(buffer) && channels == old(channels) && fs == old(fs)
      ensures delayMs == if ms < 0.0 then 0.0 else ms
      ensures Line() == Silence(FramesIn(delayMs, fs) * channels)
    {
      delayMs := if ms < 0.0 then 0.0 else ms;
      var samples := FramesIn(delayMs, fs) * channels;
      buffer := new real[samples](_ => 0.0);
      pos := 0;
      assert buffer[..] == Silence(samples);
    }

    /** The sample at i goes in, the oldest comes out in its place. */
    method ExchangeOne(io: array<real>, i: nat)
      requires Valid() && i < io.Length && io != buffer && buffer.Length > 0
      modifies io, buffer, this`pos
      ensures Valid()
      ensures Line() == old(Line())[1..] + [old(io[i])]
      ensures io[..] == old(io[..])[i := old(Line())[0]]
    {
      RingStep(buffer[..], pos, io[i]);
      ghost var next := buffer[..][pos := io[i]];
      var delayed := buffer[pos];
      buffer[pos] := io[i];
      io[i] := delayed;
      assert buffer[..] == next;
      pos := (pos + 1) % buffer.Length;
    }

    /** Exchanges the first n samples with the ring, one by one. */
    method Exchange(io: array<real>, n: nat)
      requires Valid() && n <= io.Length && io != buffer && buffer.Length > 0
      modifies io, buffer, this`pos
      ensures Valid()
      ensures io[..n] + Line() == old(Line()) + old(io[..n])
      ensures io[n..] == old(io[n..])
    {
      for i := 0 to n
        invariant Valid() && io[..] == Exchanged(old(Line()), old(io[..]), i).io
        invariant Line() == Exchanged(old(Line()), old(io[..]), i).line
      {
        ExchangeOne(io, i);
      }
      ExchangedConserves(old(Line()), old(io[..]), n);
      assert io[..n] == io[..][..n] && io[n..] == io[..][n..];
      assert old(io[..n]) == old(io[..])[..n] && old(io[n..]) == old(io[..])[n..];
    }

    /** What comes out followed by what stays is what was held followed by what came in. */
    method Process(io: array<real>, frames: nat)
      requires Valid() && frames * channels <= io.Length && io != buffer
      modifies io, buffer, this`pos
      ensures Valid()
      ensures io[..frames * channels] + Line() == old(Line()) + old(io[..frames * channels])
      ensures io[frames * channels..] == old(io[frames * channels..])
    {
      if buffer.Length == 0 {
        return;
      }
      var n := frames * channels;
      Exchange(io, n);
    }

    method Reset()
      requires Valid()
      modifies this`pos, buffer
      ensures Valid() && Line() == Silence(buffer.Length)
    {
      for i := 0 to buffer.Length
        invariant forall k :: 0 <= k < i ==> buffer[k] == 0.0
      {
        buffer[i] := 0.0;
      }
      pos := 0;
    }
  }

  function Silence(n: nat): (r: seq<real>)
    ensures |r| == n && forall k :: 0 <= k < n ==> r[k] == 0.0
  {
    seq(n, _ => 0.0)
  }

  // ------------------------------------------------------------- any sequence of blocks

  function Flat(blocks: seq<seq<real>>): seq<real> {
    if blocks == [] then [] else Flat(blocks[..|blocks| - 1]) + blocks[|blocks| - 1]
  }

  /** Block by block outputs and lines of a delay: each block obeys Process's contract. */
  ghost predicate DelayRun(lines: seq<seq<real>>, ins: seq<seq<real>>, outs: seq<seq<real>>) {
    && |lines| == |ins| + 1 && |outs| == |ins|
    && forall k :: 0 <= k < |ins| ==>
         |outs[k]| == |ins[k]| && outs[k] + lines[k + 1] == lines[k] + ins[k]
  }

  /** Conservation over a run: everything out, then the line, is the first line, then everything in. */
  lemma {:induction false} DelayConserves(lines: seq<seq<real>>, ins: seq<seq<real>>, outs: seq<seq<real>>)
    requires DelayRun(lines, ins, outs)
    ensures Flat(outs) + lines[|ins|] == lines[0] + Flat(ins)
    ensures |Flat(outs)| == |Flat(ins)|
  {
    if ins != [] {
      var n := |ins| - 1;
      DelayConserves(lines[..n + 1], ins[..n], outs[..n]);
      Shuffle(Flat(outs[..n]), outs[n], lines[n + 1], lines[n], ins[n], lines[0], Flat(ins[..n]));
    }
  }

  lemma Shuffle(outs: seq<real>, out: seq<real>, after: seq<real>, before: seq<real>, block: seq<real>,
                first: seq<real>, ins: seq<real>)
    requires out + after == before + block && outs + before == first + ins
    ensures (outs + out) + after == first + (ins + block)
  {
    assert (outs + out) + after == outs + (before + block);
    assert outs + (before + block) == (first + ins) + block;
  }

  /** From silence of d frames, the whole output is d frames of zeros and then the input, each sample
      on its own channel, however the stream was cut into blocks. */
  lemma DelayShifts(lines: seq<seq<real>>, ins: seq<seq<real>>, outs: seq<seq<real>>,
                    d: nat, channels: nat, frame: nat, channel: nat)
    requires DelayRun(lines, ins, outs) && channel < channels
    requires lines[0] == Silence(d * channels) && frame * channels + channel < |Flat(ins)|
    ensures |Flat(outs)| == |Flat(ins)|
    ensures frame < d ==> Flat(outs)[frame * channels + channel] == 0.0
    ensures frame >= d ==> 0 <= (frame - d) * channels + channel
    ensures frame >= d ==>
              Flat(outs)[frame * channels + channel] == Flat(ins)[(frame - d) * channels + channel]
  {
    DelayConserves(lines, ins, outs);
    var i := frame * channels + channel;
    assert Flat(outs)[i] == (Flat(outs) + lines[|ins|])[i] == (lines[0] + Flat(ins))[i];
    if frame < d {
      FrameBelow(frame, d, channels);
    } else {
      FrameGap(frame, d, channels);
    }
  }

  lemma FrameBelow(f: nat, d: nat, channels: nat)
    requires f < d
    ensures f * channels + channels <= d * channels
  {
    FrameGap(d, f + 1, channels);
    FrameGap(f + 1, f, channels);
  }

  lemma FrameGap(f: nat, d: nat, channels: nat)
    requires d <= f
    ensures f * channels == (f - d) * channels + d * channels
    ensures (f - d) * channels >= 0
  {
  }
}
