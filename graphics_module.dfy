/** The state kept by `GraphicsModule` in oldsrc/graphics/graphics_module.cpp
  * between frames: the particle buffer, the list of texts to draw, the QR
  * overlay flags and the screen-recording counter. OpenGL, GLFW and the
  * ffmpeg pipe are left out; key presses and texture loads are inputs. */
module Graphics {

  /** The CPU copy of one particle; `speed` and the movement type are not
    * read by the operations modelled here. */
  datatype Particle = Particle(x: real, y: real, z: real, stage: int, direction: int, size: real, cameraDistance: real)

  /** One entry of `texts`. */
  datatype Text = Text(text: string, x: real, y: real, size: real)

  /** `remove_text`'s loop as written: a match is erased and the index still
    * advances, so the element that slid into its place is not looked at. */
  function RemoveScan(ts: seq<Text>, t: string): (r: seq<Text>)
    ensures |r| <= |ts|
  {
    if ts == [] then []
    else if ts[0].text == t then (if |ts| >= 2 then [ts[1]] + RemoveScan(ts[2..], t) else [])
    else [ts[0]] + RemoveScan(ts[1..], t)
  }

  predicate HasText(ts: seq<Text>, t: string) {
    exists k :: 0 <= k < |ts| && ts[k].text == t
  }

  /** The entries that do not carry `t`, in order. */
  function Others(ts: seq<Text>, t: string): seq<Text> {
    if ts == [] then [] else (if ts[0].text == t then [] else [ts[0]]) + Others(ts[1..], t)
  }

  /** Dropping the first entry of `rest` from `out + rest`. */
  lemma SpliceOut(out: seq<Text>, rest: seq<Text>)
    requires rest != []
    ensures (out + rest)[..|out|] + (out + rest)[|out| + 1..] == out + rest[1..]
    ensures |rest| >= 2 ==> out + rest[1..] == (out + [rest[1]]) + rest[2..]
    ensures |rest| < 2 ==> out + rest[1..] == out
  {
    assert (out + rest)[..|out|] == out;
    assert (out + rest)[|out| + 1..] == rest[1..];
    if |rest| >= 2 {
      assert rest[1..] == [rest[1]] + rest[2..];
    }
  }

  /** One step of `remove_text` on a matching entry: it is erased and the
    * entry after it is passed over. */
  lemma ScanMatchStep(out: seq<Text>, rest: seq<Text>, t: string)
    requires rest != [] && rest[0].text == t
    ensures |rest| >= 2 ==> out + RemoveScan(rest, t) == (out + [rest[1]]) + RemoveScan(rest[2..], t)
    ensures |rest| < 2 ==> out + RemoveScan(rest, t) == out
  {
  }

  /** One step of `remove_text` on an entry that does not match. */
  lemma ScanKeepStep(out: seq<Text>, rest: seq<Text>, t: string)
    requires rest != [] && rest[0].text != t
    ensures out + RemoveScan(rest, t) == (out + [rest[0]]) + RemoveScan(rest[1..], t)
    ensures out + rest == (out + [rest[0]]) + rest[1..]
  {
    assert rest == [rest[0]] + rest[1..];
  }

  /** The erase loop of `remove_text` on the list `texts`: each matching
    * entry is erased as the loop meets it, and the index still moves on. */
  method EraseMatches(texts: seq<Text>, text: string) returns (ts: seq<Text>, wasFound: bool)
    ensures ts == RemoveScan(texts, text)
    ensures wasFound <==> HasText(texts, text)
  {
    wasFound := false;
    ghost var out: seq<Text> := [];
    ts := texts;
    ghost var rest := texts;
    ghost var original := texts;
    var i := 0;
    while i < |ts|
      invariant ts == out + rest
      invariant i == |out| || (i == |out| + 1 && rest == [])
      invariant out + RemoveScan(rest, text) == RemoveScan(original, text)
      invariant wasFound <==> |out| + |rest| < |original|
      invariant |out| + |rest| <= |original|
      decreases |ts| - i
    {
      assert i == |out| && rest[0] == ts[i];
      if ts[i].text == text {
        SpliceOut(out, rest);
        ts := ts[..i] + ts[i + 1..];
        wasFound := true;
        ScanMatchStep(out, rest, text);
        if |rest| >= 2 {
          out, rest := out + [rest[1]], rest[2..];
        } else {
          rest := [];
        }
      } else {
        ScanKeepStep(out, rest, text);
        out, rest := out + [rest[0]], rest[1..];
      }
      i := i + 1;
    }
    RemoveScanSpec(original, text);
  }

  /** Removing never touches an entry with a different text, leaves a list
    * without matches alone, and removes some entry exactly when there is a match. */
  lemma {:induction false} RemoveScanSpec(ts: seq<Text>, t: string)
    ensures Others(RemoveScan(ts, t), t) == Others(ts, t)
    ensures !HasText(ts, t) ==> RemoveScan(ts, t) == ts
    ensures HasText(ts, t) ==> |RemoveScan(ts, t)| < |ts|
  {
    if ts != [] {
      if ts[0].text == t {
        if |ts| >= 2 {
          RemoveScanSpec(ts[2..], t);
          assert ts[1..][1..] == ts[2..];
        }
        assert HasText(ts, t);
      } else {
        RemoveScanSpec(ts[1..], t);
        if HasText(ts, t) {
          var k :| 0 <= k < |ts| && ts[k].text == t;
          assert ts[1..][k - 1].text == t;
        } else {
          assert !HasText(ts[1..], t) by {
            forall k | 0 <= k < |ts| - 1
              ensures ts[1..][k].text != t
            {
              assert ts[k + 1].text != t;
            }
          }
        }
      }
    }
  }

  /** Two matching entries in a row: only the first is removed. */
  lemma AdjacentMatchSurvives(a: Text)
    ensures RemoveScan([a, a], a.text) == [a]
  {
  }

  /** A list with no two matches in a row loses all its matches. */
  predicate NoAdjacentMatches(ts: seq<Text>, t: string) {
    forall k :: 0 <= k < |ts| - 1 ==> !(ts[k].text == t && ts[k + 1].text == t)
  }

  lemma {:induction false} RemoveScanClears(ts: seq<Text>, t: string)
    requires NoAdjacentMatches(ts, t)
    ensures !HasText(RemoveScan(ts, t), t)
  {
    if ts != [] {
      if ts[0].text == t {
        if |ts| >= 2 {
          assert ts[1].text != t;
          assert NoAdjacentMatches(ts[2..], t) by {
            forall k | 0 <= k < |ts[2..]| - 1
              ensures !(ts[2..][k].text == t && ts[2..][k + 1].text == t)
            {
              assert ts[2..][k] == ts[k + 2] && ts[2..][k + 1] == ts[k + 3];
            }
          }
          RemoveScanClears(ts[2..], t);
          ClearCons(ts[1], RemoveScan(ts[2..], t), t);
        }
      } else {
        assert NoAdjacentMatches(ts[1..], t) by {
          forall k | 0 <= k < |ts[1..]| - 1
            ensures !(ts[1..][k].text == t && ts[1..][k + 1].text == t)
          {
            assert ts[1..][k] == ts[k + 1] && ts[1..][k + 1] == ts[k + 2];
          }
        }
        RemoveScanClears(ts[1..], t);
        ClearCons(ts[0], RemoveScan(ts[1..], t), t);
      }
    }
  }

  lemma ClearCons(a: Text, rest: seq<Text>, t: string)
    requires a.text != t && !HasText(rest, t)
    ensures !HasText([a] + rest, t)
  {
    forall k | 0 <= k < |[a] + rest|
      ensures ([a] + rest)[k].text != t
    {
      if k > 0 {
        assert ([a] + rest)[k] == rest[k - 1];
      }
    }
  }

  /** The recording state of `update_display`. */
  datatype Recording = Recording(record: bool, frameCount: int, frameTotal: int)

  /** `frame_count` after the R-key and recording branches. */
  function CountAfter(s: Recording, keyR: bool): int {
    if keyR && !s.record then 0 else if s.record then s.frameCount + 1 else s.frameCount
  }

  /** One `update_display` on an initialised module: whether the QR code is
    * ready (`ret_val`), whether a frame was written to the pipe, and the new
    * recording state. `keyR` is the R key being held. */
  function DisplayStep(s: Recording, keyR: bool): (r: (bool, bool, Recording))
    ensures r.1 <==> s.record && (s.frameCount + 1) % 2 == 0
    ensures r.0 <==> CountAfter(s, keyR) >= s.frameTotal
    ensures r.0 ==> r.2 == Recording(false, 0, s.frameTotal)
    ensures !r.0 ==> r.2 == Recording(s.record || keyR, CountAfter(s, keyR), s.frameTotal)
  {
    var (record, count, wrote) :=
      if keyR && !s.record then (true, 0, false)
      else if s.record then (true, s.frameCount + 1, (s.frameCount + 1) % 2 == 0)
      else (false, s.frameCount, false);
    if count >= s.frameTotal then (true, wrote, Recording(false, 0, s.frameTotal))
    else (false, wrote, Recording(record, count, s.frameTotal))
  }

  /** `n` calls while recording from `frame_count == c`, before the total is reached. */
  function RecordRun(c: int, total: int, n: nat): (r: (seq<bool>, Recording))
    requires c + n < total
  {
    if n == 0 then ([], Recording(true, c, total))
    else
      var prev := RecordRun(c, total, n - 1);
      var step := DisplayStep(prev.1, false);
      (prev.0 + [step.1], step.2)
  }

  /** While recording, call `k` counts frame `c + k + 1` and writes it exactly
    * when that count is even, whatever the R key does. */
  lemma {:induction false} RecordRunWritesEven(c: int, total: int, n: nat)
    requires c + n < total
    ensures RecordRun(c, total, n).1 == Recording(true, c + n, total)
    ensures |RecordRun(c, total, n).0| == n
    ensures forall k :: 0 <= k < n ==> (RecordRun(c, total, n).0[k] <==> (c + k + 1) % 2 == 0)
  {
    if n > 0 {
      RecordRunWritesEven(c, total, n - 1);
    }
  }

  /** Pressing R on an idle recorder starts at 0; once the count reaches the
    * total, the call reports the QR code ready and recording stops. */
  lemma RecordingStartsAndStops(total: int, c: int, keyR: bool)
    requires 0 < total && 0 <= c < total
    ensures DisplayStep(Recording(false, 0, total), true) == (false, false, Recording(true, 0, total))
    ensures c + 1 == total ==> DisplayStep(Recording(true, c, total), keyR) == (true, total % 2 == 0, Recording(false, 0, total))
    ensures c + 1 < total ==> !DisplayStep(Recording(true, c, total), keyR).0
  {
  }

  /** `GraphicsModule`: the fields the modelled operations read and write. */
  class GraphicsModule {
    const particles: array<Particle>
    const scale: real
    const maxWorldX: real
    const maxWorldY: real
    var isInit: bool
    var texts: seq<Text>
    var qrTexture: int
    var qrEnabled: bool
    var qrWasEnabled: bool
    var qrX: real
    var qrY: real
    var qrSize: int
    var record: bool
    var frameCount: int
    var frameTotal: int

    /** `MaxParticles`. */
    function MaxParticles(): nat
      reads this
    {
      particles.Length
    }

    /** `to_opengl_world_x`: camera pixels to the 20-wide world centred on 0. */
    function WorldX(x: int): real
      reads this
    {
      x as real * scale - maxWorldX
    }

    /** `to_opengl_world_y`. */
    function WorldY(y: int): real
      reads this
    {
      y as real * scale - maxWorldY
    }

    function Recorder(): Recording
      reads this
    {
      Recording(record, frameCount, frameTotal)
    }

    /** The constructor's bookkeeping: the scale that maps `maxX` camera
      * pixels to 20 world units, the particles (their random start is an
      * input), and `is_init` as the window and shader setup left it. */
    constructor (initial: seq<Particle>, maxX: int, maxY: int, initialised: bool)
      requires maxX > 0
      ensures particles.Length == |initial| && particles[..] == initial && fresh(particles)
      ensures scale == 20.0 / maxX as real
      ensures maxWorldX == scale * maxX as real / 2.0 && maxWorldY == scale * maxY as real / 2.0
      ensures isInit == initialised && texts == []
      ensures !qrEnabled && !record && frameCount == 0 && frameTotal == 250
    {
      particles := new Particle[|initial|](i requires 0 <= i < |initial| => initial[i]);
      scale := 20.0 / maxX as real;
      maxWorldX := 20.0 / maxX as real * maxX as real / 2.0;
      maxWorldY := 20.0 / maxX as real * maxY as real / 2.0;
      isInit := initialised;
      texts := [];
      qrEnabled := false;
      record := false;
      frameCount := 0;
      frameTotal := 250;
    }

    /** The world spans `[-10, 10]` horizontally: pixel 0 is the left edge,
      * pixel `maxX` the right one, and the mapping keeps the order. */
    lemma WorldSpan(maxX: int, a: int, b: int)
      requires maxX > 0 && scale == 20.0 / maxX as real && maxWorldX == scale * maxX as real / 2.0
      ensures WorldX(0) == -10.0 && WorldX(maxX) == 10.0
      ensures a <= b ==> WorldX(a) <= WorldX(b)
    {
      assert scale * maxX as real == 20.0;
      assert a <= b ==> a as real * scale <= b as real * scale;
    }

    /** `update_particles`: with four lists of `MaxParticles` entries each,
      * particle `i` takes the mapped position and the stage and direction
      * of entry `i` and returns 0; otherwise returns -1 and changes nothing. */
    method UpdateParticles(x: seq<int>, y: seq<int>, stage: seq<int>, direction: seq<int>) returns (r: int)
      modifies particles
      ensures r == 0 || r == -1
      ensures r == -1 <==> !(|x| == |y| == |stage| == |direction| == particles.Length)
      ensures r == -1 ==> particles[..] == old(particles[..])
      ensures r == 0 ==> forall i :: 0 <= i < particles.Length ==>
        particles[i] == old(particles[i]).(x := WorldX(x[i]), y := WorldY(y[i]), stage := stage[i], direction := direction[i])
    {
      if |x| != particles.Length || |y| != particles.Length || |stage| != particles.Length || |direction| != particles.Length {
        return -1;
      }
      for i := 0 to particles.Length
        invariant forall k :: 0 <= k < i ==>
          particles[k] == old(particles[k]).(x := WorldX(x[k]), y := WorldY(y[k]), stage := stage[k], direction := direction[k])
        invariant forall k :: i <= k < particles.Length ==> particles[k] == old(particles[k])
      {
        particles[i] := particles[i].(x := WorldX(x[i]), y := WorldY(y[i]), stage := stage[i], direction := direction[i]);
      }
      return 0;
    }

    /** `add_text`: one entry at the end, in world coordinates. */
    method AddText(text: string, x: int, y: int, size: real)
      modifies this
      ensures texts == old(texts) + [Text(text, WorldX(x), WorldY(y), size)]
      ensures unchanged(particles) && qrEnabled == old(qrEnabled) && Recorder() == old(Recorder())
    {
      texts := texts + [Text(text, WorldX(x), WorldY(y), size)];
    }

    /** `remove_text`: erase matching entries as the loop meets them; the
      * result says whether anything was erased. */
    method RemoveText(text: string) returns (wasFound: bool)
      modifies this
      ensures texts == RemoveScan(old(texts), text)
      ensures wasFound <==> HasText(old(texts), text)
      ensures qrEnabled == old(qrEnabled) && Recorder() == old(Recorder())
    {
      texts, wasFound := EraseMatches(texts, text);
    }

    /** `update_qr` with the id `loadPNG` returned for the file: a loaded
      * texture turns the overlay on or off as asked, placing it only when it
      * was off; a failed load, or `enabled == false`, turns it off. */
    method UpdateQr(enabled: bool, texture: int, x: int, y: int, size: int)
      modifies this
      ensures qrTexture == texture
      ensures qrEnabled == (enabled && texture != -1)
      ensures qrWasEnabled == (old(qrWasEnabled) || texture != -1)
      ensures if enabled && texture != -1 && !old(qrEnabled) then qrX == WorldX(x) && qrY == WorldY(y) && qrSize == size
        else qrX == old(qrX) && qrY == old(qrY) && qrSize == old(qrSize)
      ensures texts == old(texts) && Recorder() == old(Recorder()) && isInit == old(isInit)
    {
      qrTexture := texture;
      if qrTexture != -1 {
        qrWasEnabled := true;
        if enabled && !qrEnabled {
          qrX := WorldX(x);
          qrY := WorldY(y);
          qrSize := size;
        }
        qrEnabled := enabled;
      } else {
        qrEnabled := false;
      }
      if !enabled {
        qrEnabled := false;
      }
    }

    /** The recording part of `update_display`: nothing happens before
      * initialisation; otherwise one step of `DisplayStep`. `wroteFrame` is
      * the `fwrite` of the frame to the pipe. */
    method UpdateDisplay(keyR: bool) returns (retVal: bool, wroteFrame: bool)
      modifies this
      ensures !old(isInit) ==> !retVal && !wroteFrame && Recorder() == old(Recorder())
      ensures old(isInit) ==> (retVal, wroteFrame, Recorder()) == DisplayStep(old(Recorder()), keyR)
      ensures texts == old(texts) && qrEnabled == old(qrEnabled) && isInit == old(isInit)
    {
      retVal := false;
      wroteFrame := false;
      if !isInit {
        return;
      }
      if keyR && !record {
        record := true;
        frameCount := 0;
      } else if record == true {
        frameCount := frameCount + 1;
        if frameCount % 2 == 0 {
          wroteFrame := true;
        }
      }
      if frameCount >= frameTotal {
        frameCount := 0;
        record := false;
        retVal := true;
      }
    }

    /** `should_close`: always before initialisation, otherwise on Escape or
      * when the window asks to close. */
    function ShouldClose(escapePressed: bool, windowShouldClose: bool): (r: bool)
      reads this
      ensures !isInit ==> r
      ensures isInit ==> (r <==> escapePressed || windowShouldClose)
    {
      if !isInit then true else !(!escapePressed && !windowShouldClose)
    }
  }
}
