/** The 32-band equalizer of src/dsp/Equalizer.cpp: peaking filters in series, per channel, run in
    place on an interleaved block. */
module Equalizers {
  import opened Streams
  import opened Biquads

  const BANDS := 32

  const FREQUENCIES: seq<real> :=
    [30.0, 40.0, 50.0, 63.0, 80.0, 100.0, 125.0, 160.0,
     200.0, 250.0, 315.0, 400.0, 500.0, 630.0, 800.0, 1000.0,
     1250.0, 1600.0, 2000.0, 2500.0, 3150.0, 4000.0, 5000.0, 6300.0,
     8000.0, 10000.0, 12500.0, 14000.0, 16000.0, 18000.0, 19000.0, 20000.0]

  // ------------------------------------------------------------- bands in series

  /** One sample through the first b bands. */
  function Cascaded(cs: seq<Coeffs>, st: seq<State>, x: real, b: nat): (r: Out<seq<State>>)
    requires b <= |cs| && |st| == |cs|
    ensures |r.s| == |st| && forall j :: b <= j < |st| ==> r.s[j] == st[j]
  {
    if b == 0 then Out(x, st)
    else
      var o := Cascaded(cs, st, x, b - 1);
      var r := ProcessSample(cs[b - 1], o.s[b - 1], o.y);
      Out(r.y, o.s[b - 1 := r.s])
  }

  /** The same as a machine over the registers of all bands. */
  function Series(cs: seq<Coeffs>, b: nat): (seq<State>, real) -> Out<seq<State>>
    requires b <= |cs|
  {
    (st: seq<State>, x: real) => if |st| == |cs| then Cascaded(cs, st, x, b) else Out(x, st)
  }

  /** A stream through one band after the other, each applied to the whole of its input. */
  function BandByBand(cs: seq<Coeffs>, st: seq<State>, xs: seq<real>, b: nat): seq<real>
    requires b <= |cs| == |st|
  {
    if b == 0 then xs else Run(Filter(cs[b - 1]), st[b - 1], BandByBand(cs, st, xs, b - 1))
  }

  /** The first b bands neither read nor write the registers of later ones. */
  lemma {:induction false} LaterBandsApart(cs: seq<Coeffs>, st: seq<State>, x: real, b: nat, j: nat, z: State)
    requires b <= j < |cs| == |st|
    ensures Cascaded(cs, st[j := z], x, b) == Out(Cascaded(cs, st, x, b).y, Cascaded(cs, st, x, b).s[j := z])
  {
    if b > 0 {
      LaterBandsApart(cs, st, x, b - 1, j, z);
      var o := Cascaded(cs, st, x, b - 1);
      assert o.s[j := z][b - 1] == o.s[b - 1];
      var r := ProcessSample(cs[b - 1], o.s[b - 1], o.y);
      assert o.s[j := z][b - 1 := r.s] == o.s[b - 1 := r.s][j := z];
    }
  }

  lemma {:induction false} SeriesKeepsLength(cs: seq<Coeffs>, b: nat, st: seq<State>, xs: seq<real>, k: nat)
    requires b <= |cs| == |st| && k <= |xs|
    ensures |StateAt(Series(cs, b), st, xs, k)| == |cs|
  {
    if k > 0 {
      SeriesKeepsLength(cs, b, st, xs, k - 1);
    }
  }

  /** One more band: the others run as before, and it filters their output. */
  predicate Peeled(cs: seq<Coeffs>, b: nat, st: seq<State>, xs: seq<real>)
    requires b < |cs| == |st|
  {
    var inner, outer, n := Series(cs, b), Series(cs, b + 1), |xs|;
    var ys := Run(inner, st, xs);
    && |StateAt(inner, st, xs, n)| == |cs|
    && StateAt(outer, st, xs, n) == StateAt(inner, st, xs, n)[b := StateAt(Filter(cs[b]), st[b], ys, n)]
    && Run(outer, st, xs) == Run(Filter(cs[b]), st[b], ys)
  }

  /** One sample of that, from registers that agree. */
  lemma PeelSample(cs: seq<Coeffs>, b: nat, st: seq<State>, x: real, z: State)
    requires b < |cs| == |st|
    ensures var i := Series(cs, b)(st, x);
            var f := Filter(cs[b])(z, i.y);
            Series(cs, b + 1)(st[b := z], x) == Out(f.y, i.s[b := f.s])
  {
    LaterBandsApart(cs, st, x, b, b, z);
    var i := Cascaded(cs, st, x, b);
    assert i.s[b := z][b] == z;
    var w := ProcessSample(cs[b], z, i.y).s;
    assert i.s[b := z][b := w] == i.s[b := w];
  }

  lemma {:induction false} SeriesPeels(cs: seq<Coeffs>, b: nat, st: seq<State>, xs: seq<real>)
    requires b < |cs| == |st|
    ensures Peeled(cs, b, st, xs)
  {
    var inner, outer := Series(cs, b), Series(cs, b + 1);
    SeriesKeepsLength(cs, b, st, xs, |xs|);
    if xs == [] {
      assert st[b := st[b]] == st;
    } else {
      var n := |xs| - 1;
      var init, x := xs[..n], xs[n];
      assert xs == init + [x];
      SeriesPeels(cs, b, st, init);
      SeriesKeepsLength(cs, b, st, init, n);
      RunSnoc(inner, st, init, x);
      RunSnoc(outer, st, init, x);
      var ys, t := Run(inner, st, init), StateAt(inner, st, init, n);
      var z := StateAt(Filter(cs[b]), st[b], ys, n);
      RunSnoc(Filter(cs[b]), st[b], ys, inner(t, x).y);
      PeelSample(cs, b, t, x, z);
    }
  }

  lemma OneMoreBand(cs: seq<Coeffs>, b: nat, st: seq<State>, xs: seq<real>)
    requires b < |cs| == |st|
    ensures Run(Series(cs, b + 1), st, xs) == Run(Filter(cs[b]), st[b], Run(Series(cs, b), st, xs))
  {
    SeriesPeels(cs, b, st, xs);
  }

  /** Each stream is the one before through the next band. */
  ghost predicate Composes(cs: seq<Coeffs>, st: seq<State>, run: nat -> seq<real>)
    requires |st| == |cs|
  {
    forall j: nat :: j < |cs| ==> run(j + 1) == Run(Filter(cs[j]), st[j], run(j))
  }

  /** Such streams are the bands' composition. */
  lemma {:induction false} BandsCompose(cs: seq<Coeffs>, st: seq<State>, run: nat -> seq<real>, b: nat)
    requires b <= |cs| == |st| && Composes(cs, st, run)
    ensures run(b) == BandByBand(cs, st, run(0), b)
  {
    if b > 0 {
      BandsCompose(cs, st, run, b - 1);
      assert run(b - 1 + 1) == Run(Filter(cs[b - 1]), st[b - 1], run(b - 1));
    }
  }

  /** The output of the first j bands run sample by sample. */
  function Stages(cs: seq<Coeffs>, st: seq<State>, xs: seq<real>): nat -> seq<real> {
    (j: nat) => if j <= |cs| then Run(Series(cs, j), st, xs) else []
  }

  lemma FirstStage(cs: seq<Coeffs>, st: seq<State>, xs: seq<real>)
    ensures Stages(cs, st, xs)(0) == xs
  {
    RunIdentity(Series(cs, 0), st, xs);
  }

  lemma NextStage(cs: seq<Coeffs>, st: seq<State>, xs: seq<real>, j: nat)
    requires j < |cs| == |st|
    ensures Stages(cs, st, xs)(j + 1) == Run(Filter(cs[j]), st[j], Stages(cs, st, xs)(j))
  {
    OneMoreBand(cs, j, st, xs);
  }

  lemma StagesCompose(cs: seq<Coeffs>, st: seq<State>, xs: seq<real>)
    requires |st| == |cs|
    ensures Composes(cs, st, Stages(cs, st, xs))
  {
    var run := Stages(cs, st, xs);
    forall j: nat | j < |cs|
      ensures run(j + 1) == Run(Filter(cs[j]), st[j], run(j))
    {
      NextStage(cs, st, xs, j);
    }
  }

  /** Running the bands sample by sample is running them one after the other on the whole stream. */
  lemma SeriesIsComposition(cs: seq<Coeffs>, st: seq<State>, xs: seq<real>, b: nat)
    requires b <= |cs| == |st|
    ensures Run(Series(cs, b), st, xs) == BandByBand(cs, st, xs, b)
  {
    StagesCompose(cs, st, xs);
    FirstStage(cs, st, xs);
    BandsCompose(cs, st, Stages(cs, st, xs), b);
  }

  /** The same composition written with difference equations alone. */
  function Equalized(cs: seq<Coeffs>, xs: seq<real>, b: nat): seq<real>
    requires b <= |cs|
  {
    if b == 0 then xs else Recurrence(DifferenceRule(cs[b - 1]), Equalized(cs, xs, b - 1))
  }

  function AtRest(n: nat): (st: seq<State>)
    ensures |st| == n && forall j :: 0 <= j < n ==> st[j] == REST
  {
    seq(n, _ => REST)
  }

  /** From reset, the cascade is the composition of the bands' difference equations. */
  lemma {:induction false} SeriesIsDifferenceEquations(cs: seq<Coeffs>, xs: seq<real>, b: nat)
    requires b <= |cs|
    ensures Run(Series(cs, b), AtRest(|cs|), xs) == Equalized(cs, xs, b)
  {
    SeriesIsComposition(cs, AtRest(|cs|), xs, b);
    if b > 0 {
      SeriesIsDifferenceEquations(cs, xs, b - 1);
      SeriesIsComposition(cs, AtRest(|cs|), xs, b - 1);
      FilterIsDifference(cs[b - 1], Equalized(cs, xs, b - 1));
    }
  }

  /** Neutral bands at rest leave a sample, and their registers, alone. */
  lemma {:induction false} NeutralSeriesPasses(cs: seq<Coeffs>, x: real, b: nat)
    requires b <= |cs| && forall j :: 0 <= j < |cs| ==> Neutral(cs[j])
    ensures Cascaded(cs, AtRest(|cs|), x, b) == Out(x, AtRest(|cs|))
  {
    if b > 0 {
      NeutralSeriesPasses(cs, x, b - 1);
      NeutralPasses(cs[b - 1], x);
      assert AtRest(|cs|)[b - 1 := REST] == AtRest(|cs|);
    }
  }

  /** All-zero gains from reset: the equalizer is the identity. */
  lemma NeutralSeriesIsIdentity(cs: seq<Coeffs>, xs: seq<real>)
    requires forall j :: 0 <= j < |cs| ==> Neutral(cs[j])
    ensures Run(Series(cs, |cs|), AtRest(|cs|), xs) == xs
  {
    var f, st := Series(cs, |cs|), AtRest(|cs|);
    forall x
      ensures f(st, x) == Out(x, st)
    {
      NeutralSeriesPasses(cs, x, |cs|);
    }
    RunIdentity(f, st, xs);
  }

  // ------------------------------------------------------------- interleaved blocks

  /** Where a frame's sample for a channel lies. */
  function Index(frame: nat, channel: nat, channels: nat): nat {
    frame * channels + channel
  }

  lemma IndexBounds(frame: nat, frames: nat, channel: nat, channels: nat)
    requires frame < frames && channel < channels
    ensures frame * channels <= Index(frame, channel, channels) < (frame + 1) * channels <= frames * channels
    ensures (frame + 1) * channels == frame * channels + channels
  {
    OneFrameMore(frame, channels);
    FramesGrow(frame + 1, frames, channels);
  }

  lemma OneFrameMore(frame: nat, channels: nat)
    ensures (frame + 1) * channels == frame * channels + channels
  {
  }

  lemma FramesGrow(a: nat, b: nat, channels: nat)
    requires a <= b
    ensures a * channels <= b * channels
  {
  }

  /** One channel of a block. */
  function Channel(s: seq<real>, channel: nat, channels: nat, frames: nat): (r: seq<real>)
    requires channel < channels && frames * channels <= |s|
    ensures |r| == frames
  {
    seq(frames, f requires 0 <= f < frames =>
      (IndexBounds(f, frames, channel, channels); s[Index(f, channel, channels)]))
  }

  function Clamped(gain: real): real {
    if gain < -10.0 then -10.0 else if gain > 10.0 then 10.0 else gain
  }

  predicate GainsAllowed(gains: seq<real>) {
    |gains| == BANDS && forall i :: 0 <= i < |gains| ==> -10.0 <= gains[i] <= 10.0
  }

  /** The filters for these gains. */
  function Rebuilt(m: Maths, gains: seq<real>, fs: real): (cs: seq<Coeffs>)
    requires m.Lawful() && fs > 0.0 && GainsAllowed(gains)
    ensures |cs| == BANDS
    ensures forall i :: 0 <= i < BANDS ==> cs[i] == PeakingEq(m, FREQUENCIES[i], gains[i], fs)
  {
    seq(BANDS, i requires 0 <= i < BANDS => PeakingEq(m, FREQUENCIES[i], gains[i], fs))
  }

  type Machine = (seq<State>, real) -> Out<seq<State>>

  /** The output of channel ch at frame g, from registers st and the block `was`. */
  function Heard(m: Machine, st: seq<State>, was: seq<real>, ch: nat, channels: nat, frames: nat, g: nat): real
    requires ch < channels && frames * channels <= |was| && g < frames
  {
    OutAt(m, st, Channel(was, ch, channels, frames), g)
  }

  function Registers(m: Machine, st: seq<State>, was: seq<real>, ch: nat, channels: nat, frames: nat, g: nat): seq<State>
    requires ch < channels && frames * channels <= |was| && g <= frames
  {
    StateAt(m, st, Channel(was, ch, channels, frames), g)
  }

  lemma NextFrame(m: Machine, st: seq<State>, was: seq<real>, ch: nat, channels: nat, frames: nat, f: nat)
    requires ch < channels && frames * channels <= |was| && f < frames
    ensures Index(f, ch, channels) < |was|
    ensures var o := m(Registers(m, st, was, ch, channels, frames, f), was[Index(f, ch, channels)]);
            && Heard(m, st, was, ch, channels, frames, f) == o.y
            && Registers(m, st, was, ch, channels, frames, f + 1) == o.s
  {
    IndexBounds(f, frames, ch, channels);
    assert Channel(was, ch, channels, frames)[f] == was[Index(f, ch, channels)];
  }

  predicate SampleDone(m: Machine, st: seq<seq<State>>, was: seq<real>, io: seq<real>,
                       channels: nat, frames: nat, g: nat, ch: nat)
    requires ch < channels == |st| && frames * channels <= |was| == |io| && g < frames
  {
    Index(g, ch, channels) < |io| && io[Index(g, ch, channels)] == Heard(m, st[ch], was, ch, channels, frames, g)
  }

  /** The first f frames of a block are filtered, the rest is as it was. */
  ghost predicate FramesDone(m: Machine, st: seq<seq<State>>, was: seq<real>, io: seq<real>, now: seq<seq<State>>,
                             channels: nat, frames: nat, f: nat)
  {
    && |io| == |was| && |st| == |now| == channels && f <= frames && frames * channels <= |was|
    && (forall i :: f * channels <= i < |io| ==> io[i] == was[i])
    && (forall ch :: 0 <= ch < channels ==> now[ch] == Registers(m, st[ch], was, ch, channels, frames, f))
    && (forall g, ch :: 0 <= g < f && 0 <= ch < channels ==> SampleDone(m, st, was, io, channels, frames, g, ch))
  }

  /** One frame, which starts at base, went through the machine channel by channel. */
  ghost predicate FrameDone(m: Machine, io: seq<real>, now: seq<seq<State>>, io': seq<real>, now': seq<seq<State>>,
                            channels: nat, base: nat)
  {
    && |io'| == |io| && |now| == |now'| == channels && base + channels <= |io|
    && (forall i :: 0 <= i < |io| && !(base <= i < base + channels) ==> io'[i] == io[i])
    && (forall ch :: 0 <= ch < channels ==> ChannelDone(m, io, now, io', now', base, ch))
  }

  predicate ChannelDone(m: Machine, io: seq<real>, now: seq<seq<State>>, io': seq<real>, now': seq<seq<State>>,
                        base: nat, ch: nat)
    requires base + ch < |io| == |io'| && ch < |now| == |now'|
  {
    var o := m(now[ch], io[base + ch]);
    io'[base + ch] == o.y && now'[ch] == o.s
  }

  lemma FrameStep(m: Machine, st: seq<seq<State>>, was: seq<real>, io: seq<real>, now: seq<seq<State>>,
                  io': seq<real>, now': seq<seq<State>>, channels: nat, frames: nat, f: nat)
    requires f < frames && FramesDone(m, st, was, io, now, channels, frames, f)
    requires FrameDone(m, io, now, io', now', channels, f * channels)
    ensures FramesDone(m, st, was, io', now', channels, frames, f + 1)
  {
    OneFrameMore(f, channels);
    forall ch | 0 <= ch < channels
      ensures now'[ch] == Registers(m, st[ch], was, ch, channels, frames, f + 1)
      ensures SampleDone(m, st, was, io', channels, frames, f, ch)
    {
      NextFrame(m, st[ch], was, ch, channels, frames, f);
      assert ChannelDone(m, io, now, io', now', f * channels, ch);
      assert Index(f, ch, channels) == f * channels + ch;
    }
    forall g, ch | 0 <= g < f && 0 <= ch < channels
      ensures SampleDone(m, st, was, io', channels, frames, g, ch)
    {
      assert SampleDone(m, st, was, io, channels, frames, g, ch);
      IndexBounds(g, f, ch, channels);
    }
  }

  lemma FramesAllDone(m: Machine, st: seq<seq<State>>, was: seq<real>, io: seq<real>, now: seq<seq<State>>,
                      channels: nat, frames: nat)
    requires FramesDone(m, st, was, io, now, channels, frames, frames)
    ensures forall ch :: 0 <= ch < channels ==>
              var xs := Channel(was, ch, channels, frames);
              && Channel(io, ch, channels, frames) == Run(m, st[ch], xs)
              && now[ch] == StateAt(m, st[ch], xs, frames)
  {
    forall ch | 0 <= ch < channels
      ensures Channel(io, ch, channels, frames) == Run(m, st[ch], Channel(was, ch, channels, frames))
    {
      var xs := Channel(was, ch, channels, frames);
      forall g | 0 <= g < frames
        ensures Channel(io, ch, channels, frames)[g] == Run(m, st[ch], xs)[g]
      {
        RunAt(m, st[ch], xs, g);
        assert SampleDone(m, st, was, io, channels, frames, g, ch);
      }
    }
  }

  class Equalizer {
    const maths: Maths
    var fs: real
    var channels: nat
    var gains: seq<real>
    var coeffs: seq<Coeffs>
    var state: seq<seq<State>>

    ghost predicate Valid()
      reads this
    {
      && maths.Lawful() && fs > 0.0 && channels >= 1 && GainsAllowed(gains)
      && coeffs == Rebuilt(maths, gains, fs)
      && |state| == channels && forall ch :: 0 <= ch < channels ==> |state[ch]| == BANDS
    }

    constructor (maths: Maths, fs: real, channels: int)
      requires maths.Lawful() && fs > 0.0
      ensures Valid() && this.maths == maths && this.fs == fs
      ensures this.channels == if channels < 1 then 1 else channels
      ensures gains == seq(BANDS, _ => 0.0)
      ensures state == seq(this.channels, _ => AtRest(BANDS))
    {
      this.maths, this.fs := maths, fs;
      var count: nat := if channels < 1 then 1 else channels;
      var flat := seq(BANDS, _ => 0.0);
      this.channels, gains := count, flat;
      state := seq(count, _ => AtRest(BANDS));
      coeffs := Rebuilt(maths, flat, fs);
    }

    method SetGains(requested: seq<real>)
      requires Valid() && |requested| == BANDS
      modifies this`gains, this`coeffs
      ensures Valid() && gains == seq(BANDS, i requires 0 <= i < BANDS => Clamped(requested[i]))
    {
      gains := seq(BANDS, i requires 0 <= i < BANDS => Clamped(requested[i]));
      coeffs := Rebuilt(maths, gains, fs);
    }

    method SetBandGain(band: int, gain: real)
      requires Valid()
      modifies this`gains, this`coeffs
      ensures Valid()
      ensures gains == if 0 <= band < BANDS then old(gains)[band := Clamped(gain)] else old(gains)
    {
      if band < 0 || band >= BANDS {
        return;
      }
      gains := gains[band := Clamped(gain)];
      coeffs := Rebuilt(maths, gains, fs);
    }

    method Reset()
      requires Valid()
      modifies this`state
      ensures Valid() && state == seq(channels, _ => AtRest(BANDS))
    {
      state := seq(channels, _ => AtRest(BANDS));
    }

    /** One sample of one channel through all bands. */
    method RunBands(ch: nat, x: real) returns (y: real)
      requires Valid() && ch < channels
      modifies this`state
      ensures Valid()
      ensures var o := Series(coeffs, BANDS)(old(state)[ch], x);
              y == o.y && state == old(state)[ch := o.s]
    {
      y := x;
      var st := state[ch];
      for b := 0 to BANDS
        invariant |st| == BANDS && Out(y, st) == Cascaded(coeffs, old(state)[ch], x, b)
      {
        var r := ProcessSample(coeffs[b], st[b], y);
        y := r.y;
        st := st[b := r.s];
      }
      state := state[ch := st];
    }

    /** The samples of one frame, which start at `base`. */
    method ProcessFrame(io: array<real>, base: nat)
      requires Valid() && base + channels <= io.Length
      modifies this`state, io
      ensures Valid()
      ensures FrameDone(Series(coeffs, BANDS), old(io[..]), old(state), io[..], state, channels, base)
    {
      for ch := 0 to channels
        invariant Valid()
        invariant forall i :: 0 <= i < io.Length && !(base <= i < base + ch) ==> io[i] == old(io[i])
        invariant forall k :: ch <= k < channels ==> state[k] == old(state)[k]
        invariant forall k :: 0 <= k < ch ==>
                    var o := Series(coeffs, BANDS)(old(state)[k], old(io[base + k]));
                    io[base + k] == o.y && state[k] == o.s
      {
        var y := RunBands(ch, io[base + ch]);
        io[base + ch] := y;
      }
    }

    /** Every channel's samples become the whole cascade's output for that channel alone, and its
        registers are left where the stream ended, so the next block goes on from there. */
    method Process(io: array<real>, frames: nat)
      requires Valid() && frames * channels <= io.Length
      modifies this`state, io
      ensures Valid()
      ensures forall ch :: 0 <= ch < channels ==>
                var xs := Channel(old(io[..]), ch, channels, frames);
                && Channel(io[..], ch, channels, frames) == Run(Series(coeffs, BANDS), old(state)[ch], xs)
                && state[ch] == StateAt(Series(coeffs, BANDS), old(state)[ch], xs, frames)
      ensures forall i :: frames * channels <= i < io.Length ==> io[i] == old(io[i])
    {
      ghost var m, was, st := Series(coeffs, BANDS), old(io[..]), old(state);
      for f := 0 to frames
        invariant Valid() && f * channels <= frames * channels
        invariant FramesDone(m, st, was, io[..], state, channels, frames, f)
      {
        OneFrameMore(f, channels);
        FramesGrow(f + 1, frames, channels);
        ghost var now, before := state, io[..];
        ProcessFrame(io, f * channels);
        FrameStep(m, st, was, before, now, io[..], state, channels, frames, f);
      }
      FramesAllDone(m, st, was, io[..], state, channels, frames);
    }
  }

  /** A fresh or reset equalizer with all gains at zero passes every channel unchanged. */
  lemma FlatEqualizerIsIdentity(m: Maths, fs: real, gains: seq<real>, xs: seq<real>)
    requires m.Lawful() && fs > 0.0 && GainsAllowed(gains)
    requires forall i :: 0 <= i < BANDS ==> gains[i] == 0.0
    ensures Run(Series(Rebuilt(m, gains, fs), BANDS), AtRest(BANDS), xs) == xs
  {
    forall i | 0 <= i < BANDS
      ensures Neutral(Rebuilt(m, gains, fs)[i])
    {
      ZeroGainIsNeutral(m, FREQUENCIES[i], fs);
    }
    NeutralSeriesIsIdentity(Rebuilt(m, gains, fs), xs);
  }
}
