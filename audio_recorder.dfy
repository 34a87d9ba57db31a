/** The body of the microphone tap: it keeps every fourth frame of the
    captured buffer and turns each kept amplitude into one byte. Amplitudes
    are idealised as reals; the conversion to `UInt8` truncates toward zero
    and traps outside the byte range. */
module AudioRecording {
  import opened Bluetooth
  import Receivers

  /** The frames the tap reads: frames 0, 4, 8, ... of a buffer, one for each
      whole group of four. */
  function Decimate(frames: seq<real>): (kept: seq<real>)
    ensures |kept| == |frames| / 4
    ensures forall i :: 0 <= i < |kept| ==> kept[i] == frames[4 * i]
  {
    if |frames| < 4 then [] else [frames[0]] + Decimate(frames[4..])
  }

  /** Conversion of a real to an integer by truncation toward zero. */
  function Truncate(x: real): int
  {
    if x >= 0.0 then x.Floor else -((-x).Floor)
  }

  /** The value the tap converts for amplitude `amp`. */
  function Scaled(amp: real): real
  {
    (amp + 1.0) * 255.0 / 2.0
  }

  /** The conversion to `UInt8` does not trap: the scaled value truncates to
      a byte. */
  predicate Representable(amp: real)
  {
    -1.0 < Scaled(amp) < 256.0
  }

  /** The byte value the tap emits for amplitude `amp`. */
  function Level(amp: real): (l: int)
    requires Representable(amp)
    ensures 0 <= l <= 255
  {
    Truncate(Scaled(amp))
  }

  /** On the nominal amplitude range [-1, 1] the conversion never traps and
      truncation is rounding down: the byte is floor((amp + 1) * 255 / 2). */
  lemma LevelOnNominalRange(amp: real)
    requires -1.0 <= amp <= 1.0
    ensures Representable(amp)
    ensures Level(amp) == ((amp + 1.0) * 255.0 / 2.0).Floor
  {
  }

  /** The tap's loop: for each whole group of four frames, the byte of the
      group's first frame. */
  method QuantizeTap(frames: seq<real>) returns (data: seq<uint8>)
    requires forall i :: 0 <= i < |Decimate(frames)| ==> Representable(Decimate(frames)[i])
    ensures |data| == |frames| / 4
    ensures forall i :: 0 <= i < |data| ==> data[i] as int == Level(Decimate(frames)[i])
  {
    ghost var kept := Decimate(frames);
    data := [];
    for i := 0 to |frames| / 4
      invariant |data| == i
      invariant forall j :: 0 <= j < i ==> data[j] as int == Level(kept[j])
    {
      var amp := frames[i * 4];
      assert amp == kept[i];
      var b := Level(amp) as uint8;
      data := data + [b];
    }
  }

  /** Encoding and playback are not inverse: a byte made from amplitude
      `amp` plays back at about half of it, never above `amp / 2` and less
      than one step of 1/255 below it. */
  lemma PlaybackHalvesAmplitude(amp: real)
    requires -1.0 <= amp <= 1.0
    ensures Representable(amp)
    ensures amp / 2.0 - 1.0 / 255.0 < Receivers.Sample(Level(amp) as uint8) <= amp / 2.0
  {
    LevelOnNominalRange(amp);
    var x := Scaled(amp);
    var l := Level(amp);
    assert l as real <= x < l as real + 1.0;
    assert Receivers.Sample(l as uint8) == l as real / 255.0 - 0.5;
    assert x / 255.0 - 0.5 == amp / 2.0;
  }
}
