/**
 The temp file an open handle buffers its writes in (internal/fuse/handle.go):
 positioned writes over a zero-filled file, and positioned reads that stop at the end.
 */
module Buffers {

  newtype byte = x: int | 0 <= x < 256

  type Bytes = seq<byte>

  datatype Write = Write(data: Bytes, off: nat)

  function Zeros(n: nat): (z: Bytes)
    ensures |z| == n && forall i :: 0 <= i < n ==> z[i] == 0
  {
    seq(n, _ => 0)
  }

  // os.File.WriteAt: an empty write touches nothing, a write past the end leaves a hole of zeros.
  function WriteAt(buf: Bytes, w: Write): Bytes {
    if w.data == [] then buf
    else
      var padded := if |buf| < w.off then buf + Zeros(w.off - |buf|) else buf;
      var end := w.off + |w.data|;
      padded[..w.off] + w.data + (if end < |padded| then padded[end..] else [])
  }

  // os.File.ReadAt into a destination of n bytes, with io.EOF taken as a short read.
  function ReadAt(buf: Bytes, off: nat, n: nat): (r: Bytes)
    ensures |r| <= n
    ensures forall i :: 0 <= i < n && off + i < |buf| ==> i < |r| && r[i] == buf[off + i]
    ensures |r| > 0 ==> off + |r| <= |buf|
  {
    if off >= |buf| then []
    else if off + n <= |buf| then buf[off..off + n]
    else buf[off..]
  }

  // The file after a sequence of writes, oldest first, on an empty file.
  function Replay(ws: seq<Write>): Bytes {
    if ws == [] then [] else WriteAt(Replay(ws[..|ws| - 1]), ws[|ws| - 1])
  }

  // What the writes mean, byte by byte: the latest write that covers a position wins,
  // and a position nobody wrote is zero.
  predicate Covers(w: Write, i: nat) {
    w.off <= i < w.off + |w.data|
  }

  function ByteAt(ws: seq<Write>, i: nat): byte {
    if ws == [] then 0
    else
      var last := ws[|ws| - 1];
      if Covers(last, i) then last.data[i - last.off] else ByteAt(ws[..|ws| - 1], i)
  }

  function Extent(ws: seq<Write>): nat {
    if ws == [] then 0
    else
      var last, before := ws[|ws| - 1], Extent(ws[..|ws| - 1]);
      if last.data != [] && before < last.off + |last.data| then last.off + |last.data| else before
  }

  // The buffer is exactly the overlay of the writes on an empty zero-filled file.
  lemma {:induction false} ReplayIsOverlay(ws: seq<Write>)
    ensures |Replay(ws)| == Extent(ws)
    ensures forall i :: 0 <= i < Extent(ws) ==> Replay(ws)[i] == ByteAt(ws, i)
    ensures forall i :: Extent(ws) <= i ==> ByteAt(ws, i) == 0
  {
    if ws == [] {
    } else {
      ReplayIsOverlay(ws[..|ws| - 1]);
    }
  }

  // A write is read back whole from where it was put, and bytes outside it are untouched.
  lemma WriteThenRead(buf: Bytes, w: Write)
    ensures ReadAt(WriteAt(buf, w), w.off, |w.data|) == w.data
    ensures forall i :: 0 <= i < |buf| && !Covers(w, i) ==> i < |WriteAt(buf, w)| && WriteAt(buf, w)[i] == buf[i]
  {
    var after := WriteAt(buf, w);
    if w.data != [] {
      assert forall i :: 0 <= i < |w.data| ==> after[w.off + i] == w.data[i];
    }
  }

  lemma ReplayAppend(ws: seq<Write>, w: Write)
    ensures Replay(ws + [w]) == WriteAt(Replay(ws), w)
  {
    assert (ws + [w])[..|ws|] == ws;
  }
}
