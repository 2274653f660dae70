/**
 What a stream of notification bytes means: the frames in it, the bytes thrown away between
 them and the unfinished tail. `Scan` reads the stream one byte at a time; `Segments` says
 the same thing without an order of reading, and the two are proved equivalent.
 */
module Framing {
  import opened Wrappers
  import opened Bytes
  import opened Protocol

  /** The bytes of one encrypted frame, whatever its body. */
  predicate IsFrame(f: Bytes) {
    && MAGIC <= f
    && ExpectedFrameLength(f) == Some(|f|)
  }

  /** Whether a preamble starts at the head of `s`. */
  predicate StartsFrame(s: Bytes) {
    MAGIC <= s
  }

  /** Whether `s` starts with every byte of a frame. */
  predicate HasFrame(s: Bytes) {
    && StartsFrame(s)
    && ExpectedFrameLength(s).Some?
    && ExpectedFrameLength(s).value <= |s|
  }

  datatype Piece = Frame(bytes: Bytes) | Junk(byte: Byte) {
    function Raw(): (r: Bytes)
    {
      match this
      case Frame(b) => b
      case Junk(b) => [b]
    }
  }

  datatype Scanned = Scanned(pieces: seq<Piece>, residue: Bytes)

  /** How many bytes the next piece takes, or None when the stream has to be waited for. */
  function HeadLength(s: Bytes): (n: Option<nat>)
    ensures n.Some? ==> 0 < n.value <= |s|
  {
    if |s| < 2 then None
    else if !StartsFrame(s) then Some(1)
    else if HasFrame(s) then ExpectedFrameLength(s)
    else None
  }

  /** The next piece: a frame when a preamble starts it, otherwise one stray byte. */
  function Head(s: Bytes): Piece
    requires HeadLength(s).Some?
  {
    if StartsFrame(s) then Frame(s[..HeadLength(s).value]) else Junk(s[0])
  }

  /** The recursive parse of a stream. */
  function Scan(s: Bytes): Scanned
    decreases |s|
  {
    match HeadLength(s)
    case None => Scanned([], s)
    case Some(n) =>
      var rest := Scan(s[n..]);
      Scanned([Head(s)] + rest.pieces, rest.residue)
  }

  /** The frames among the pieces, in order. */
  function Frames(pieces: seq<Piece>): seq<Bytes> {
    if pieces == [] then []
    else (if pieces[0].Frame? then [pieces[0].bytes] else []) + Frames(pieces[1..])
  }

  function FramesIn(s: Bytes): seq<Bytes> {
    Frames(Scan(s).pieces)
  }

  function Residue(s: Bytes): Bytes {
    Scan(s).residue
  }

  /** All bytes of the pieces, in order. */
  function Flatten(pieces: seq<Piece>): Bytes {
    if pieces == [] then [] else pieces[0].Raw() + Flatten(pieces[1..])
  }

  /** An unfinished tail: at most one byte, or a preamble whose frame has not fully arrived. */
  predicate IsResidue(r: Bytes) {
    |r| <= 1 || (StartsFrame(r) && !HasFrame(r))
  }

  /** Every frame among the pieces is as long as it says. */
  ghost predicate FramesFit(pieces: seq<Piece>) {
    forall i :: 0 <= i < |pieces| && pieces[i].Frame? ==> IsFrame(pieces[i].bytes)
  }

  /** No stray byte is where a preamble starts in the stream. */
  ghost predicate JunkStarts(pieces: seq<Piece>, residue: Bytes) {
    forall i :: 0 <= i < |pieces| && pieces[i].Junk? ==> !StartsFrame(Flatten(pieces[i..]) + residue)
  }

  /**
   `pieces` and `residue` cut the stream `s` into well-formed frames, stray bytes none of
   which begins a preamble, and an unfinished tail. The last byte of a stream is never stray.
   */
  ghost predicate Segments(s: Bytes, pieces: seq<Piece>, residue: Bytes) {
    && s == Flatten(pieces) + residue
    && FramesFit(pieces)
    && JunkStarts(pieces, residue)
    && IsResidue(residue)
    && (residue == [] && pieces != [] ==> pieces[|pieces| - 1].Frame?)
  }

  // ----- Scan is the one and only segmentation -----

  lemma {:induction false} JunkStartsCons(x: Piece, pieces: seq<Piece>, residue: Bytes)
    requires JunkStarts(pieces, residue)
    requires x.Junk? ==> !StartsFrame(Flatten([x] + pieces) + residue)
    ensures JunkStarts([x] + pieces, residue)
  {
    var all := [x] + pieces;
    forall i | 0 <= i < |all| && all[i].Junk?
      ensures !StartsFrame(Flatten(all[i..]) + residue)
    {
      assert all[i..] == if i == 0 then all else pieces[i - 1..];
    }
  }

  lemma JunkStartsTail(pieces: seq<Piece>, residue: Bytes)
    requires JunkStarts(pieces, residue) && pieces != []
    ensures JunkStarts(pieces[1..], residue)
    ensures pieces[0].Junk? ==> !StartsFrame(Flatten(pieces) + residue)
  {
    hide StartsFrame, Flatten;
    var rest := pieces[1..];
    assert pieces[0..] == pieces;
    forall i | 0 <= i < |rest| && rest[i].Junk?
      ensures !StartsFrame(Flatten(rest[i..]) + residue)
    {
      assert pieces[i + 1].Junk? && rest[i..] == pieces[i + 1..];
    }
  }

  lemma SegmentsCons(x: Piece, s: Bytes, pieces: seq<Piece>, residue: Bytes)
    requires Segments(s, pieces, residue)
    requires x.Frame? ==> IsFrame(x.bytes)
    requires x.Junk? ==> s != [] && !StartsFrame(x.Raw() + s)
    ensures Segments(x.Raw() + s, [x] + pieces, residue)
  {
    var all := [x] + pieces;
    assert all[1..] == pieces;
    assert x.Raw() + s == Flatten(all) + residue;
    JunkStartsCons(x, pieces, residue);
  }

  lemma {:induction false} ScanSegments(s: Bytes)
    ensures Segments(s, Scan(s).pieces, Scan(s).residue)
    decreases |s|
  {
    if HeadLength(s).Some? {
      var n := HeadLength(s).value;
      var rest := Scan(s[n..]);
      ScanSegments(s[n..]);
      assert s == Head(s).Raw() + s[n..];
      SegmentsCons(Head(s), s[n..], rest.pieces, rest.residue);
    }
  }

  lemma SegmentsTail(s: Bytes, pieces: seq<Piece>, residue: Bytes)
    requires Segments(s, pieces, residue) && pieces != []
    ensures s == pieces[0].Raw() + (Flatten(pieces[1..]) + residue)
    ensures Segments(Flatten(pieces[1..]) + residue, pieces[1..], residue)
    ensures pieces[0].Junk? ==> !StartsFrame(s)
  {
    hide JunkStarts, StartsFrame, IsFrame, IsResidue;
    JunkStartsTail(pieces, residue);
    AppendAssociative(pieces[0].Raw(), Flatten(pieces[1..]), residue);
  }

  /** Only the empty list of frames and stray bytes is empty when flattened. */
  lemma FlattenEmpty(pieces: seq<Piece>)
    requires FramesFit(pieces)
    ensures Flatten(pieces) == [] ==> pieces == []
  {
  }

  /** An unfinished tail stays as it is. */
  lemma Waits(s: Bytes)
    requires IsResidue(s)
    ensures Scan(s) == Scanned([], s)
  {
  }

  lemma NothingToScan()
    ensures FramesIn([]) == [] && Residue([]) == []
  {
  }

  /** The first piece of a segmentation is the one a scan takes. */
  lemma SegmentsHead(s: Bytes, x: Piece, rest: Bytes)
    requires s == x.Raw() + rest
    requires x.Frame? ==> IsFrame(x.bytes)
    requires x.Junk? ==> rest != [] && !StartsFrame(s)
    ensures HeadLength(s) == Some(|x.Raw()|) && Head(s) == x && s[|x.Raw()|..] == rest
  {
    if x.Frame? {
      assert s[..|x.bytes|] == x.bytes;
    }
  }

  lemma {:induction false} SegmentsUnique(s: Bytes, pieces: seq<Piece>, residue: Bytes)
    requires Segments(s, pieces, residue)
    ensures Scan(s) == Scanned(pieces, residue)
    decreases |pieces|
  {
    hide StartsFrame, IsFrame, HasFrame, JunkStarts;
    if pieces == [] {
      assert s == residue;
      Waits(s);
    } else {
      SegmentsTail(s, pieces, residue);
      var rest := Flatten(pieces[1..]) + residue;
      SegmentsUnique(rest, pieces[1..], residue);
      if pieces[0].Junk? {
        FlattenEmpty(pieces[1..]);
      }
      SegmentsHead(s, pieces[0], rest);
      assert [pieces[0]] + pieces[1..] == pieces;
    }
  }

  /** The recursive parse is characterized by the segmentation it returns. */
  lemma {:induction false} ScanIffSegments(s: Bytes, pieces: seq<Piece>, residue: Bytes)
    ensures Scan(s) == Scanned(pieces, residue) <==> Segments(s, pieces, residue)
  {
    ScanSegments(s);
    if Segments(s, pieces, residue) {
      SegmentsUnique(s, pieces, residue);
    }
  }

  /** The bytes kept back never exceed one unfinished frame of the largest size. */
  lemma ResidueBound(s: Bytes)
    ensures |Residue(s)| <= 267
    ensures |Residue(s)| <= |s| && s[|s| - |Residue(s)|..] == Residue(s)
  {
    ScanSegments(s);
  }

  // ----- cutting the stream into notifications -----

  lemma {:induction false} FramesAppend(xs: seq<Piece>, ys: seq<Piece>)
    ensures Frames(xs + ys) == Frames(xs) + Frames(ys)
  {
    if xs == [] {
      assert xs + ys == ys;
    } else {
      assert (xs + ys)[1..] == xs[1..] + ys;
      FramesAppend(xs[1..], ys);
    }
  }

  /** More bytes do not change a piece that is already complete. */
  lemma HeadAppend(a: Bytes, b: Bytes)
    requires HeadLength(a).Some?
    ensures HeadLength(a + b) == HeadLength(a) && Head(a + b) == Head(a)
    ensures (a + b)[HeadLength(a).value..] == a[HeadLength(a).value..] + b
  {
    assert (a + b)[..HeadLength(a).value] == a[..HeadLength(a).value];
  }

  /**
   Reading `a` and later `b` is reading `a + b`: what was kept back from `a`, followed by `b`,
   yields the rest of the pieces and the same tail.
   */
  lemma {:induction false} ScanResumes(a: Bytes, b: Bytes)
    ensures Scan(a + b).pieces == Scan(a).pieces + Scan(Residue(a) + b).pieces
    ensures Residue(a + b) == Residue(Residue(a) + b)
    decreases |a|
  {
    hide HeadLength, Head;
    if HeadLength(a).Some? {
      var n := HeadLength(a).value;
      HeadAppend(a, b);
      ScanResumes(a[n..], b);
    }
  }

  lemma FramesResume(a: Bytes, b: Bytes)
    ensures FramesIn(a + b) == FramesIn(a) + FramesIn(Residue(a) + b)
    ensures Residue(a + b) == Residue(Residue(a) + b)
  {
    ScanResumes(a, b);
    FramesAppend(Scan(a).pieces, Scan(Residue(a) + b).pieces);
  }

  /** Nothing more is found in a tail that was already kept back. */
  lemma ResidueIsSettled(a: Bytes)
    ensures Scan(Residue(a)) == Scanned([], Residue(a))
  {
    ScanSegments(a);
  }

  // ----- searching for the preamble -----

  /** Position of the first preamble, or -1. */
  function Find(s: Bytes): (r: int)
    ensures -1 <= r < |s|
    ensures r >= 0 ==> StartsFrame(s[r..])
    ensures forall i :: 0 <= i < (if r < 0 then |s| else r) ==> !StartsFrame(s[i..])
  {
    if s == [] then -1
    else if StartsFrame(s) then assert s[0..] == s; 0
    else
      var r := Find(s[1..]);
      assert s[0..] == s;
      assert forall i :: 1 <= i < |s| ==> s[i..] == s[1..][i - 1..];
      if r < 0 then -1 else r + 1
  }

  /** Stray bytes as pieces, one by one. */
  function JunkPieces(b: Bytes): (r: seq<Piece>)
    ensures |r| == |b|
  {
    if b == [] then [] else [Junk(b[0])] + JunkPieces(b[1..])
  }

  lemma {:induction false} JunkHoldsNoFrames(b: Bytes, ps: seq<Piece>)
    ensures Frames(JunkPieces(b) + ps) == Frames(ps)
  {
    if b == [] {
      assert JunkPieces(b) + ps == ps;
    } else {
      assert (JunkPieces(b) + ps)[1..] == JunkPieces(b[1..]) + ps;
      JunkHoldsNoFrames(b[1..], ps);
    }
  }

  lemma StrayByte(s: Bytes)
    requires |s| >= 2 && !StartsFrame(s)
    ensures Scan(s) == Scanned([Junk(s[0])] + Scan(s[1..]).pieces, Residue(s[1..]))
  {
    assert HeadLength(s) == Some(1);
  }

  /** Bytes no preamble starts at are stray, one by one. */
  lemma {:induction false} SkipJunk(s: Bytes, n: nat)
    requires n < |s| && forall i :: 0 <= i < n ==> !StartsFrame(s[i..])
    ensures Scan(s) == Scanned(JunkPieces(s[..n]) + Scan(s[n..]).pieces, Residue(s[n..]))
    ensures FramesIn(s) == FramesIn(s[n..])
  {
    hide Scan, StartsFrame, Frames;
    assert s[0..] == s;
    if n > 0 {
      assert forall i :: 0 <= i < n - 1 ==> s[1..][i..] == s[i + 1..];
      StrayByte(s);
      SkipJunk(s[1..], n - 1);
      assert s[1..][n - 1..] == s[n..] && s[1..][..n - 1] == s[..n][1..];
    }
    JunkHoldsNoFrames(s[..n], Scan(s[n..]).pieces);
  }

  /** A frame at the head of a stream is cut off whole. */
  lemma FrameIsCut(f: Bytes, rest: Bytes)
    requires IsFrame(f)
    ensures Scan(f + rest) == Scanned([Frame(f)] + Scan(rest).pieces, Residue(rest))
    ensures FramesIn(f + rest) == [f] + FramesIn(rest)
  {
    SegmentsHead(f + rest, Frame(f), rest);
  }

  // ----- resynchronisation -----

  /** Stray bytes and the frame behind them. */
  datatype Message = Message(noise: Bytes, frame: Bytes)

  /** No preamble inside. The last byte may be the first half of one. */
  predicate Quiet(noise: Bytes) {
    forall i :: 0 <= i < |noise| - 1 ==> !StartsFrame(noise[i..])
  }

  predicate WellFramed(ms: seq<Message>) {
    forall i :: 0 <= i < |ms| ==> Quiet(ms[i].noise) && IsFrame(ms[i].frame)
  }

  /** The stream the messages make, with more stray bytes at its end. */
  function Air(ms: seq<Message>, tail: Bytes): Bytes {
    if ms == [] then tail else ms[0].noise + ms[0].frame + Air(ms[1..], tail)
  }

  function FramesOf(ms: seq<Message>): (r: seq<Bytes>)
    ensures |r| == |ms|
  {
    if ms == [] then [] else [ms[0].frame] + FramesOf(ms[1..])
  }

  function PiecesOf(ms: seq<Message>): seq<Piece> {
    if ms == [] then [] else JunkPieces(ms[0].noise) + [Frame(ms[0].frame)] + PiecesOf(ms[1..])
  }

  /** The byte of a quiet tail that is kept: its last one, if it has any. */
  function Kept(tail: Bytes): (r: Bytes)
    ensures |r| <= 1 && |r| <= |tail|
  {
    if tail == [] then [] else [tail[|tail| - 1]]
  }

  lemma QuietTail(tail: Bytes)
    requires Quiet(tail)
    ensures Scan(tail) == Scanned(JunkPieces(tail[..|tail| - |Kept(tail)|]), Kept(tail))
    ensures FramesIn(tail) == []
  {
    hide StartsFrame, HasFrame, IsFrame, HeadLength, Frames;
    KeptWaits(tail);
    if tail != [] {
      SkipJunk(tail, |tail| - 1);
      assert tail[|tail| - 1..] == Kept(tail);
    }
  }

  lemma KeptWaits(tail: Bytes)
    ensures Scan(Kept(tail)) == Scanned([], Kept(tail)) && FramesIn(Kept(tail)) == []
    ensures tail == [] ==> JunkPieces(tail[..0]) == []
  {
  }

  /** No preamble starts in quiet noise in front of a frame. */
  lemma QuietBefore(noise: Bytes, rest: Bytes, i: nat)
    requires Quiet(noise) && StartsFrame(rest) && i < |noise|
    ensures !StartsFrame((noise + rest)[i..])
  {
    var s := noise + rest;
    if i < |noise| - 1 {
      assert s[i..][..2] == noise[i..][..2];
    } else {
      assert s[i..][1] == rest[0];
    }
  }

  lemma MessageIsCut(m: Message, rest: Bytes)
    requires Quiet(m.noise) && IsFrame(m.frame)
    ensures Scan(m.noise + m.frame + rest)
            == Scanned(JunkPieces(m.noise) + [Frame(m.frame)] + Scan(rest).pieces, Residue(rest))
    ensures FramesIn(m.noise + m.frame + rest) == [m.frame] + FramesIn(rest)
  {
    hide Scan, IsFrame, StartsFrame, Quiet, JunkPieces, FramesIn;
    var t, n := m.frame + rest, |m.noise|;
    var s := m.noise + t;
    assert s == m.noise + m.frame + rest && s[n..] == t && s[..n] == m.noise;
    FrameIsCut(m.frame, rest);
    QuietInFront(m, rest);
    SkipJunk(s, n);
    AppendAssociative(JunkPieces(m.noise), [Frame(m.frame)], Scan(rest).pieces);
  }

  lemma QuietInFront(m: Message, rest: Bytes)
    requires Quiet(m.noise) && IsFrame(m.frame)
    ensures m.frame != []
    ensures forall i :: 0 <= i < |m.noise| ==> !StartsFrame((m.noise + (m.frame + rest))[i..])
  {
    forall i | 0 <= i < |m.noise|
      ensures !StartsFrame((m.noise + (m.frame + rest))[i..])
    {
      QuietBefore(m.noise, m.frame + rest, i);
    }
  }

  lemma AppendAssociative<T>(a: seq<T>, b: seq<T>, c: seq<T>)
    ensures a + (b + c) == (a + b) + c
  {
  }

  /**
   Whatever the frames hold, a stream of frames with quiet noise around them is cut into exactly
   those frames in order; all else but the last byte of the tail is thrown away.
   */
  lemma {:induction false} Resync(ms: seq<Message>, tail: Bytes)
    requires WellFramed(ms) && Quiet(tail)
    ensures Scan(Air(ms, tail)).pieces == PiecesOf(ms) + JunkPieces(tail[..|tail| - |Kept(tail)|])
    ensures FramesIn(Air(ms, tail)) == FramesOf(ms)
    ensures Residue(Air(ms, tail)) == Kept(tail)
  {
    hide Scan, IsFrame, Quiet, JunkPieces, Frames, Kept;
    var last := JunkPieces(tail[..|tail| - |Kept(tail)|]);
    if ms == [] {
      QuietTail(tail);
      assert PiecesOf(ms) + last == last;
    } else {
      Resync(ms[1..], tail);
      MessageIsCut(ms[0], Air(ms[1..], tail));
      AppendAssociative(JunkPieces(ms[0].noise) + [Frame(ms[0].frame)], PiecesOf(ms[1..]), last);
    }
  }

  /** A first half kept back completes a frame that is not there without it. */
  lemma HalfPreamble(more: Bytes)
    requires more == [0xA5, 0, 0, 0, 0, 0, 0, 0, 0, 0, 0, 0]
    ensures FramesIn([0x5A] + more) == [[0x5A] + more] && FramesIn(more) == []
  {
    var f: Bytes := [0x5A] + more;
    assert f[0] == 0x5A && f[1] == 0xA5 && f[2] == 0 && |f| == 13;
    assert f[..2] == MAGIC;
    FrameIsCut(f, []);
    assert f + [] == f;
    NoHalf(more);
  }

  lemma NoHalf(s: Bytes)
    requires 0x5A !in s
    ensures FramesIn(s) == []
  {
    forall i | 0 <= i < |s|
      ensures !StartsFrame(s[i..])
    {
      assert s[i..][0] == s[i];
    }
    QuietTail(s);
  }

  lemma OtherByte(b: Byte, more: Bytes)
    requires b != 0x5A
    ensures FramesIn([b] + more) == FramesIn(more)
  {
    var s := [b] + more;
    if more == [] {
      assert s == [b];
    } else {
      assert s[0..][0] == b && s[1..] == more;
      SkipJunk(s, 1);
    }
  }

  /** A byte that was kept back can make a difference to what follows exactly when it is half a preamble. */
  lemma {:induction false} KeptByteMatters(b: Byte)
    ensures (exists more :: FramesIn([b] + more) != FramesIn(more)) <==> b == 0x5A
  {
    hide FramesIn;
    if b == 0x5A {
      var more: Bytes := [0xA5, 0, 0, 0, 0, 0, 0, 0, 0, 0, 0, 0];
      HalfPreamble(more);
      assert FramesIn([b] + more) != FramesIn(more);
    } else {
      forall more: Bytes
        ensures FramesIn([b] + more) == FramesIn(more)
      {
        OtherByte(b, more);
      }
    }
  }

  // ----- a quiet buffer in front -----

  /** The messages as they look when `b` was kept back from before. */
  function Behind(b: Bytes, ms: seq<Message>): seq<Message> {
    if ms == [] then [] else [Message(b + ms[0].noise, ms[0].frame)] + ms[1..]
  }

  /** What is behind the last message when `b` was kept back from before. */
  function TailBehind(b: Bytes, ms: seq<Message>, tail: Bytes): Bytes {
    if ms == [] then b + tail else tail
  }

  /** With the bytes kept back, the noise is still quiet. */
  predicate QuietBehind(b: Bytes, ms: seq<Message>, tail: Bytes) {
    Quiet(if ms == [] then b + tail else b + ms[0].noise)
  }

  /** The same with `b` kept back from an earlier stretch. */
  lemma ResyncBehind(b: Bytes, ms: seq<Message>, tail: Bytes)
    requires WellFramed(ms) && Quiet(tail) && QuietBehind(b, ms, tail)
    ensures FramesIn(b + Air(ms, tail)) == FramesOf(ms)
    ensures Residue(b + Air(ms, tail)) == Kept(TailBehind(b, ms, tail))
  {
    hide Scan, IsFrame, Quiet, Frames, Kept;
    var ms', tail' := Behind(b, ms), TailBehind(b, ms, tail);
    if ms != [] {
      assert ms'[1..] == ms[1..];
      assert b + Air(ms, tail) == Air(ms', tail');
    }
    Resync(ms', tail');
  }

  // ----- recovering from a false preamble -----

  /** The longest frame there is. */
  const LONGEST_FRAME := 268

  lemma QuietSuffix(noise: Bytes, n: nat)
    requires Quiet(noise) && n <= |noise|
    ensures Quiet(noise[n..])
  {
    assert forall i :: 0 <= i < |noise| - n ==> noise[n..][i..] == noise[n + i..];
  }

  /**
   A long stretch of noise ends whatever frame an unfinished tail promised, and what is left of
   it is quiet.
   */
  lemma NoiseEndsFalseFrame(b: Bytes, noise: Bytes) returns (junk: seq<Message>, left: Bytes)
    requires IsResidue(b) && Quiet(noise) && |noise| >= LONGEST_FRAME - 1
    ensures b + noise == Air(junk, left) && |junk| <= 1 && Quiet(left)
    ensures WellFramed(junk) && (junk != [] ==> junk[0].noise == [])
  {
    var s := b + noise;
    assert noise[0..] == noise && !StartsFrame(noise[0..]);
    assert b == [] ==> s == noise;
    if StartsFrame(s) {
      var n := FalseFrameEnds(b, noise);
      junk, left := [Message([], s[..n])], noise[n - |b|..];
      QuietSuffix(noise, n - |b|);
      assert s == [] + s[..n] + left;
    } else {
      junk, left := [], s;
      NoFalseFrame(b, noise);
    }
  }

  lemma FalseFrameEnds(b: Bytes, noise: Bytes) returns (n: nat)
    requires IsResidue(b) && b != [] && |noise| >= LONGEST_FRAME - 1 && StartsFrame(b + noise)
    ensures |b| <= n <= |b + noise| && IsFrame((b + noise)[..n])
    ensures (b + noise)[n..] == noise[n - |b|..]
  {
    var s := b + noise;
    n := ExpectedFrameLength(s).value;
    assert s[..n][..2] == s[..2];
    assert |b| > 1 ==> b[..2] == s[..2];
  }

  lemma NoFalseFrame(b: Bytes, noise: Bytes)
    requires IsResidue(b) && Quiet(noise) && !StartsFrame(b + noise)
    ensures Quiet(b + noise)
  {
    var s := b + noise;
    assert b == [] ==> s == noise;
    assert |b| <= 1;
    assert s[0..] == s && forall i :: 1 <= i < |s| ==> s[i..] == noise[i - |b|..];
  }

  lemma AirJoins(junk: seq<Message>, left: Bytes, ms: seq<Message>, tail: Bytes)
    requires ms != [] && |junk| <= 1 && (junk != [] ==> junk[0].noise == [])
    ensures Air(junk, left) + ms[0].frame + Air(ms[1..], tail)
            == Air(junk + [Message(left, ms[0].frame)] + ms[1..], tail)
    ensures FramesOf(junk + [Message(left, ms[0].frame)] + ms[1..]) == FramesOf(junk) + FramesOf(ms)
  {
    var rest := [Message(left, ms[0].frame)] + ms[1..];
    assert rest[1..] == ms[1..];
    if junk == [] {
      assert junk + [Message(left, ms[0].frame)] + ms[1..] == rest;
    } else {
      var all := junk + [Message(left, ms[0].frame)] + ms[1..];
      assert all[1..] == rest && junk[1..] == [];
      assert Air(junk, left) == [] + junk[0].frame + left;
    }
  }

  /** At most one false frame is cut from an unfinished tail and long noise, then exactly the messages. */
  lemma {:induction false} NoiseResyncsBehind(b: Bytes, ms: seq<Message>, tail: Bytes) returns (junk: seq<Message>)
    requires IsResidue(b) && WellFramed(ms) && Quiet(tail) && ms != [] && |ms[0].noise| >= LONGEST_FRAME - 1
    ensures FramesIn(b + Air(ms, tail)) == (if junk == [] then [] else [junk[0].frame]) + FramesOf(ms)
    ensures junk != [] ==> IsFrame(junk[0].frame)
    ensures Residue(b + Air(ms, tail)) == Kept(tail)
  {
    hide FramesIn, Residue, IsFrame, Kept, StartsFrame, Quiet, IsResidue, FramesOf;
    var left;
    junk, left := NoiseEndsFalseFrame(b, ms[0].noise);
    AirJoins(junk, left, ms, tail);
    assert b + Air(ms, tail) == (b + ms[0].noise) + ms[0].frame + Air(ms[1..], tail);
    Resync(junk + [Message(left, ms[0].frame)] + ms[1..], tail);
    OneFrame(junk);
  }

  lemma OneFrame(ms: seq<Message>)
    requires |ms| <= 1
    ensures FramesOf(ms) == if ms == [] then [] else [ms[0].frame]
  {
  }

  /**
   Whatever came before, one stretch of quiet noise one byte shorter than the longest frame
   brings the receiver back in step: at most one false frame is cut, then exactly the messages.
   */
  lemma {:induction false} NoiseResyncs(a: Bytes, ms: seq<Message>, tail: Bytes)
    requires WellFramed(ms) && Quiet(tail) && ms != [] && |ms[0].noise| >= LONGEST_FRAME - 1
    ensures || FramesIn(a + Air(ms, tail)) == FramesIn(a) + FramesOf(ms)
            || exists f :: IsFrame(f) && FramesIn(a + Air(ms, tail)) == FramesIn(a) + ([f] + FramesOf(ms))
    ensures Residue(a + Air(ms, tail)) == Kept(tail)
  {
    ScanSegments(a);
    assert IsResidue(Residue(a));
    hide FramesIn, Residue, Air, IsFrame, Kept;
    var junk := NoiseResyncsBehind(Residue(a), ms, tail);
    FramesResume(a, Air(ms, tail));
    if junk == [] {
      assert [] + FramesOf(ms) == FramesOf(ms);
    }
  }

  /** One byte less is not enough: a false frame can then swallow the head of a real one. */
  lemma {:induction false} ShortNoiseLosesFrame(noise: Bytes, frame: Bytes)
    requires |noise| == LONGEST_FRAME - 2 && noise[0] == 0xA5 && noise[1] == 255 && 0x5A !in noise
    requires IsFrame(frame) && 0x5A !in frame[1..]
    ensures Quiet(noise) && frame !in FramesIn([0x5A] + Air([Message(noise, frame)], []))
  {
    assert forall i :: 0 <= i < |noise| ==> noise[i..][0] == noise[i];
    var swallowed: Bytes := [0x5A] + noise + frame[..1];
    assert swallowed[..2] == MAGIC && swallowed[2] == 255;
    assert Air([Message(noise, frame)], []) == noise + frame;
    assert [0x5A] + (noise + frame) == swallowed + frame[1..];
    hide IsFrame, StartsFrame, Quiet, FramesIn, Air;
    FrameIsCut(swallowed, frame[1..]);
    NoHalf(frame[1..]);
    assert swallowed[LONGEST_FRAME - 1] == 0x5A;
    assert forall i :: 1 <= i < |frame| ==> frame[1..][i - 1] == frame[i] != 0x5A;
  }
}
