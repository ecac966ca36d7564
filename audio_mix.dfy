/** The volume arithmetic of swarm/src/audio.cpp: one mixer channel per bee
  * state, a target volume from the share of bees in that state, and a slew
  * limit of `b_max_change` per call; plus the chunk release of `audio_dispose`. */
module AudioMix {
  import opened Common

  /** `bee_t::k_state_count` of swarm/src/swarm.hpp: idle, crawling, flying, accelerating. */
  const StateCount := 4

  /** `b_max_change`. */
  const MaxChange: real := 32.0

  /** `channel_control` as written: three entries. */
  const ChannelControlAsWritten: seq<real> := [0.6, 0.3, 0.4]

  /** `wavfile_names` as written: three entries. */
  const WavFileNamesAsWritten: seq<string> := ["res/wavfiles/swarm_base.wav", "res/wavfiles/swarm_low.wav", "res/wavfiles/swarm_high.wav"]

  /** Both tables are one entry short: the channel loops run to
    * `k_state_count`, so channel 3 (accelerating) reads past their end and
    * `Render`'s precondition is not met by the tables as written. */
  lemma TablesShorterThanStates()
    ensures |ChannelControlAsWritten| == |WavFileNamesAsWritten| == StateCount - 1
    ensures !(|ChannelControlAsWritten| == StateCount)
  {
  }

  function Abs(x: real): real {
    if x < 0.0 then -x else x
  }

  /** `mix_volume`, recomputed from the idle share: `128*(.9-f)^2`
    * stored in an `int`. */
  function MixVolume(idleFraction: real): (m: int)
    ensures 0.0 <= idleFraction <= 1.0 ==> 0 <= m <= 103
  {
    var d := 0.9 - idleFraction;
    SquareBelow(d);
    CTrunc(128.0 * d * d)
  }

  /** For `d` in `[-0.1, 0.9]`, `128 * d * d` lies in `[0, 103.68]`. */
  lemma SquareBelow(d: real)
    ensures 0.0 <= 128.0 * d * d
    ensures -0.1 <= d <= 0.9 ==> 128.0 * d * d <= 103.68
  {
    if d < 0.0 {
      assert 128.0 * d * d == 128.0 * (-d) * (-d);
    }
    if -0.1 <= d <= 0.9 {
      if d >= 0.0 {
        assert d * d <= 0.9 * d <= 0.81;
      } else {
        assert (-d) * (-d) <= 0.1 * (-d) <= 0.01;
      }
    }
  }

  /** The unclamped volume of one channel. */
  function Target(control: real, mix: int, fraction: real): real {
    control * mix as real * (1.0 - fraction)
  }

  /** The slew limit: a change larger than `b_max_change` is cut to
    * `b_max_change` in the same direction. */
  function Slew(prev: real, target: real): (v: real)
    ensures Abs(v - prev) <= MaxChange
    ensures Abs(target - prev) <= MaxChange ==> v == target
    ensures prev <= target ==> prev <= v <= target
    ensures target <= prev ==> target <= v <= prev
  {
    var change := target - prev;
    if Abs(change) > MaxChange then
      if change < 0.0 then prev - MaxChange else prev + MaxChange
    else target
  }

  /** The volumes one `audio_render` call leaves in `new_volume`. */
  function RenderVolumes(prev: seq<real>, fractions: seq<real>, control: seq<real>): (r: seq<real>)
    requires |prev| == |fractions| == |control| == StateCount
    ensures |r| == StateCount
    ensures forall i :: 0 <= i < StateCount ==> Abs(r[i] - prev[i]) <= MaxChange
  {
    seq(StateCount, i requires 0 <= i < StateCount =>
      Slew(prev[i], Target(control[i], MixVolume(fractions[0]), fractions[i])))
  }

  /** Without clamping, each channel's volume is its control times the idle
    * mix volume times the share of bees not in its state, and the mix volume
    * is the one computed from the idle share for every channel. */
  lemma UnclampedVolumes(prev: seq<real>, fractions: seq<real>, control: seq<real>, i: int)
    requires |prev| == |fractions| == |control| == StateCount && 0 <= i < StateCount
    requires Abs(Target(control[i], MixVolume(fractions[0]), fractions[i]) - prev[i]) <= MaxChange
    ensures RenderVolumes(prev, fractions, control)[i] == control[i] * MixVolume(fractions[0]) as real * (1.0 - fractions[i])
  {
  }

  /** Repeated calls with the same shares approach the target: each call
    * either reaches it or moves `b_max_change` closer. */
  lemma SlewConverges(prev: real, target: real)
    ensures Abs(target - Slew(prev, target)) == if Abs(target - prev) <= MaxChange then 0.0 else Abs(target - prev) - MaxChange
  {
  }

  /** The static `prev_volume`/`new_volume` arrays of `audio_render`. */
  class Mixer {
    const prevVolume: array<real>
    const newVolume: array<real>

    /** Both arrays have one entry per state and agree between calls. */
    predicate Valid()
      reads this, prevVolume, newVolume
    {
      prevVolume != newVolume
      && prevVolume.Length == newVolume.Length == StateCount
      && prevVolume[..] == newVolume[..]
    }

    /** Zero-initialised static storage. */
    constructor ()
      ensures Valid() && fresh(prevVolume) && fresh(newVolume)
      ensures newVolume[..] == [0.0, 0.0, 0.0, 0.0]
    {
      prevVolume := new real[StateCount](_ => 0.0);
      newVolume := new real[StateCount](_ => 0.0);
    }

    /** `audio_render` on the shares of bees per state and the per-state
      * control table; the `Mix_*` calls are left out. */
    method Render(fractions: seq<real>, channelControl: seq<real>)
      requires Valid()
      requires |fractions| == |channelControl| == StateCount
      modifies prevVolume, newVolume
      ensures Valid()
      ensures newVolume[..] == RenderVolumes(old(prevVolume[..]), fractions, channelControl)
    {
      var mixVolume := 64;
      ghost var prev0 := prevVolume[..];
      for i := 0 to StateCount
        invariant Valid()
        invariant i > 0 ==> mixVolume == MixVolume(fractions[0])
        invariant forall k :: 0 <= k < i ==>
          newVolume[k] == Slew(prev0[k], Target(channelControl[k], MixVolume(fractions[0]), fractions[k]))
        invariant forall k :: i <= k < StateCount ==> newVolume[k] == prev0[k]
      {
        if i == 0 {
          mixVolume := CTrunc(128.0 * (0.9 - fractions[i]) * (0.9 - fractions[i]));
        }
        assert prevVolume[i] == prev0[i] && mixVolume == MixVolume(fractions[0]);
        ghost var target := Target(channelControl[i], MixVolume(fractions[0]), fractions[i]);
        newVolume[i] := channelControl[i] * mixVolume as real * (1.0 - fractions[i]);
        assert newVolume[i] == target;
        var change := newVolume[i] - prevVolume[i];
        if Abs(change) > MaxChange {
          if change < 0.0 {
            newVolume[i] := prevVolume[i] - MaxChange;
          } else {
            newVolume[i] := prevVolume[i] + MaxChange;
          }
        }
        assert newVolume[i] == Slew(prev0[i], target);
        SyncPrevious();
      }
      assert newVolume[..] == RenderVolumes(prev0, fractions, channelControl);
    }

    /** The copy loop nested in `audio_render`'s channel loop. */
    method SyncPrevious()
      requires prevVolume != newVolume && prevVolume.Length == newVolume.Length
      modifies prevVolume
      ensures prevVolume[..] == newVolume[..]
    {
      for k := 0 to prevVolume.Length
        invariant prevVolume[..k] == newVolume[..k]
      {
        prevVolume[k] := newVolume[k];
      }
    }
  }

  /** A loaded `Mix_Chunk`, by identity. */
  datatype Chunk = Chunk(id: nat)

  /** The non-null entries of a chunk table, in order. */
  function Loaded(table: seq<Option<Chunk>>): (r: seq<Chunk>)
    ensures |r| <= |table|
  {
    if table == [] then []
    else (if table[0].Some? then [table[0].value] else []) + Loaded(table[1..])
  }

  /** A chunk is freed exactly when the table holds it. */
  lemma {:induction false} LoadedMembers(table: seq<Option<Chunk>>, c: Chunk)
    ensures c in Loaded(table) <==> Some(c) in table
  {
    if table != [] {
      LoadedMembers(table[1..], c);
      assert table == [table[0]] + table[1..];
    }
  }

  /** `audio_dispose`: frees every non-null chunk of `buzz_wav` in index
    * order and sets its entry to NULL; `freed` lists the `Mix_FreeChunk`
    * calls. The `Mix_Quit` loop is left out. */
  method Dispose(buzzWav: array<Option<Chunk>>) returns (freed: seq<Chunk>)
    modifies buzzWav
    ensures forall i :: 0 <= i < buzzWav.Length ==> buzzWav[i] == None
    ensures freed == Loaded(old(buzzWav[..]))
  {
    freed := [];
    ghost var table := buzzWav[..];
    for i := 0 to buzzWav.Length
      invariant forall k :: 0 <= k < i ==> buzzWav[k] == None
      invariant forall k :: i <= k < buzzWav.Length ==> buzzWav[k] == table[k]
      invariant freed == Loaded(table[..i])
    {
      LoadedAppend(table[..i], table[i]);
      assert table[..i + 1] == table[..i] + [table[i]];
      if buzzWav[i].Some? {
        freed := freed + [buzzWav[i].value];
        buzzWav[i] := None;
      }
    }
    assert table[..buzzWav.Length] == table;
  }

  lemma {:induction false} LoadedAppend(t: seq<Option<Chunk>>, x: Option<Chunk>)
    ensures Loaded(t + [x]) == Loaded(t) + (if x.Some? then [x.value] else [])
  {
    if t == [] {
      assert [x][1..] == [];
    } else {
      assert (t + [x])[1..] == t[1..] + [x];
      LoadedAppend(t[1..], x);
    }
  }
}
