/** The 24-byte location record: the sender serialises each component of a
    fix into its raw 8 bytes and concatenates them in order, the receiver
    cuts the record back into 8-byte words. A `Double` is modelled as the
    opaque 8-byte word that holds it, so both directions are byte-sequence
    operations. */
module LocationRecord {
  import opened Bluetooth

  const DoubleSize: nat := 8

  /** The raw bytes of one 64-bit floating-point value. */
  type Double = w: seq<uint8> | |w| == DoubleSize witness [0, 0, 0, 0, 0, 0, 0, 0]

  /** The bytes of every component, concatenated in order. */
  function Flatten(ws: seq<Double>): (bytes: seq<uint8>)
    ensures |bytes| == DoubleSize * |ws|
  {
    if ws == [] then [] else ws[0] + Flatten(ws[1..])
  }

  /** A byte sequence cut into consecutive 8-byte words; a tail shorter than
      a word is not a component. */
  function Chunks(bytes: seq<uint8>): (ws: seq<Double>)
    ensures |ws| == |bytes| / DoubleSize
    decreases |bytes|
  {
    if |bytes| < DoubleSize then [] else [bytes[..DoubleSize]] + Chunks(bytes[DoubleSize..])
  }

  /** A record of at least one word starts with that word's component. */
  lemma ChunksStep(bytes: seq<uint8>)
    requires |bytes| >= DoubleSize
    ensures Chunks(bytes) == [bytes[..DoubleSize]] + Chunks(bytes[DoubleSize..])
  {
  }

  /** Serialising one more component appends its 8 bytes. */
  lemma {:induction false} FlattenSnoc(ws: seq<Double>, w: Double)
    ensures Flatten(ws + [w]) == Flatten(ws) + w
  {
    if ws != [] {
      calc {
        Flatten(ws + [w]);
        { assert (ws + [w])[1..] == ws[1..] + [w]; }
        ws[0] + Flatten(ws[1..] + [w]);
        { FlattenSnoc(ws[1..], w); }
        ws[0] + (Flatten(ws[1..]) + w);
      }
    } else {
      assert ws + [w] == [w];
    }
  }

  /** Component i of a serialised fix occupies bytes 8i .. 8i+7. */
  lemma {:induction false} FlattenAt(ws: seq<Double>, i: nat)
    requires i < |ws|
    ensures Flatten(ws)[DoubleSize * i .. DoubleSize * i + DoubleSize] == ws[i]
  {
    if i > 0 {
      FlattenAt(ws[1..], i - 1);
      assert Flatten(ws) == ws[0] + Flatten(ws[1..]);
      assert Flatten(ws)[DoubleSize * i .. DoubleSize * i + DoubleSize]
          == Flatten(ws[1..])[DoubleSize * (i - 1) .. DoubleSize * (i - 1) + DoubleSize];
    }
  }

  /** Cutting a serialised fix gives back its components in order. */
  lemma {:induction false} ChunksOfFlatten(ws: seq<Double>)
    ensures Chunks(Flatten(ws)) == ws
  {
    if ws != [] {
      var bytes := Flatten(ws);
      assert bytes[..DoubleSize] == ws[0];
      assert bytes[DoubleSize..] == Flatten(ws[1..]);
      ChunksOfFlatten(ws[1..]);
    }
  }

  /** Serialising the words of a whole number of words gives back the bytes. */
  lemma {:induction false} FlattenOfChunks(bytes: seq<uint8>)
    requires |bytes| % DoubleSize == 0
    ensures Flatten(Chunks(bytes)) == bytes
    decreases |bytes|
  {
    if |bytes| >= DoubleSize {
      FlattenOfChunks(bytes[DoubleSize..]);
      assert Chunks(bytes)[1..] == Chunks(bytes[DoubleSize..]);
      assert bytes == bytes[..DoubleSize] + bytes[DoubleSize..];
    }
  }

  /** A three-component fix is a full 24-byte record, and the receiver's
      split of that record is the fix again. */
  lemma LocationRoundTrip(fix: seq<Double>)
    requires |fix| == 3
    ensures |Flatten(fix)| == 3 * DoubleSize
    ensures Chunks(Flatten(fix)) == fix
  {
    ChunksOfFlatten(fix);
  }
}
