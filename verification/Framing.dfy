/** Frames on the wire: printing boxes as frames, and what any prefix of them unframes to. */
module Framing {
  import opened Bytes
  import opened Transport
  import opened Chunking

  function FramesOf(boxes: seq<seq<Byte>>): seq<Byte>
  {
    if boxes == [] then [] else FrameBytes(boxes[0]) + FramesOf(boxes[1..])
  }

  lemma {:induction false} FramesOfConcat(a: seq<seq<Byte>>, b: seq<seq<Byte>>)
    ensures FramesOf(a + b) == FramesOf(a) + FramesOf(b)
  {
    if a == [] {
      assert a + b == b;
    } else {
      FramesOfConcat(a[1..], b);
      assert (a + b)[1..] == a[1..] + b;
    }
  }

  /** How many frames lie wholly within the first n bytes. */
  function Complete(boxes: seq<seq<Byte>>, n: nat): (k: nat)
    ensures k <= |boxes|
  {
    if boxes == [] || n < LENGTH_SIZE + |boxes[0]| then 0
    else 1 + Complete(boxes[1..], n - LENGTH_SIZE - |boxes[0]|)
  }

  /** Complete is the largest such number. */
  lemma {:induction false} CompleteIsLongest(boxes: seq<seq<Byte>>, n: nat)
    ensures var k := Complete(boxes, n);
      && |FramesOf(boxes[..k])| <= n
      && (k < |boxes| ==> n < |FramesOf(boxes[..k + 1])|)
  {
    var k := Complete(boxes, n);
    if k > 0 {
      CompleteIsLongest(boxes[1..], n - LENGTH_SIZE - |boxes[0]|);
      assert boxes[..k][1..] == boxes[1..][..k - 1];
      if k < |boxes| {
        assert boxes[..k + 1][1..] == boxes[1..][..k];
      }
    } else if boxes != [] {
      assert boxes[..1][1..] == [];
    }
  }

  /** A frame is recovered from the stream it starts exactly when its length fits the field. */
  predicate Fits(box: seq<Byte>)
  {
    0 < |box| < 0x1_0000
  }

  lemma LengthField(box: seq<Byte>)
    ensures FromLe(FrameBytes(box)[..LENGTH_SIZE]) == |box| % 0x1_0000
  {
    PowersOf256();
    LeRoundTrip(|box| % 0x1_0000, LENGTH_SIZE);
    assert FrameBytes(box)[..LENGTH_SIZE] == Le(|box| % 0x1_0000, LENGTH_SIZE);
  }

  lemma UnframeFirst(box: seq<Byte>, rest: seq<Byte>)
    requires Fits(box)
    ensures Unframe(FrameBytes(box) + rest) == ([box] + Unframe(rest).0, Unframe(rest).1)
  {
    var b := FrameBytes(box) + rest;
    LengthField(box);
    assert b[..LENGTH_SIZE] == FrameBytes(box)[..LENGTH_SIZE];
    assert b[LENGTH_SIZE..LENGTH_SIZE + |box|] == box;
    assert b[LENGTH_SIZE + |box|..] == rest;
  }

  /** A stream that stops inside a frame yields no box from it. */
  lemma UnframePartial(box: seq<Byte>, b: seq<Byte>)
    requires Fits(box) && b < FrameBytes(box)
    ensures Unframe(b).0 == []
    ensures Unframe(b).1.nextRead > 0
  {
    LengthField(box);
    if |b| >= LENGTH_SIZE {
      assert b[..LENGTH_SIZE] == FrameBytes(box)[..LENGTH_SIZE];
    }
  }

  predicate AllFit(boxes: seq<seq<Byte>>)
  {
    forall i :: 0 <= i < |boxes| ==> Fits(boxes[i])
  }

  lemma TakeFirst(boxes: seq<seq<Byte>>, k: nat)
    requires k < |boxes|
    ensures boxes[..k + 1] == [boxes[0]] + boxes[1..][..k]
  {
  }

  lemma PrefixOfFrames(first: seq<Byte>, rest: seq<Byte>, n: nat)
    requires n <= |first| + |rest|
    ensures (first + rest)[..n] == if n < |first| then first[..n] else first + rest[..n - |first|]
  {
  }

  /** Any prefix of honest frames unframes to the frames it holds whole. */
  lemma {:induction false} UnframePrefix(boxes: seq<seq<Byte>>, n: nat)
    requires AllFit(boxes) && n <= |FramesOf(boxes)|
    ensures Unframe(FramesOf(boxes)[..n]).0 == boxes[..Complete(boxes, n)]
    ensures Unframe(FramesOf(boxes)[..n]).1.nextRead > 0
  {
    if boxes != [] {
      var box, others := boxes[0], boxes[1..];
      var first, rest := FrameBytes(box), FramesOf(others);
      PrefixOfFrames(first, rest, n);
      if n < |first| {
        UnframePartial(box, first[..n]);
      } else {
        UnframeFirst(box, rest[..n - |first|]);
        UnframePrefix(others, n - |first|);
        TakeFirst(boxes, Complete(others, n - |first|));
      }
    }
  }

  ghost predicate SameLengths(a: seq<seq<Byte>>, b: seq<seq<Byte>>)
  {
    |a| == |b| && forall i :: 0 <= i < |a| ==> |a[i]| == |b[i]|
  }

  /**
   * The framing rule recovers the boxes sent if each length fits the two-byte field,
   * and not even their lengths otherwise: a longer box is cut at its length modulo 65536.
   */
  lemma {:induction false} UnframeRecovers(boxes: seq<seq<Byte>>)
    requires forall i :: 0 <= i < |boxes| ==> |boxes[i]| > 0
    ensures AllFit(boxes) ==> Unframe(FramesOf(boxes)).0 == boxes
    ensures SameLengths(Unframe(FramesOf(boxes)).0, boxes) ==> AllFit(boxes)
  {
    if boxes != [] {
      var box, others := boxes[0], boxes[1..];
      assert boxes == [box] + others;
      if Fits(box) {
        UnframeFirst(box, FramesOf(others));
        UnframeRecovers(others);
        SameTail(box, Unframe(FramesOf(others)).0, others);
      } else {
        TooLong(box, FramesOf(others));
      }
    }
  }

  lemma SameTail(box: seq<Byte>, got: seq<seq<Byte>>, others: seq<seq<Byte>>)
    ensures SameLengths([box] + got, [box] + others) ==> SameLengths(got, others)
    ensures Fits(box) && AllFit(others) ==> AllFit([box] + others)
    ensures AllFit([box] + others) ==> AllFit(others)
  {
    var a, b := [box] + got, [box] + others;
    if SameLengths(a, b) {
      forall i | 0 <= i < |got|
        ensures |got[i]| == |others[i]|
      {
        assert a[i + 1] == got[i] && b[i + 1] == others[i];
      }
    }
    forall i | 0 <= i < |others| && AllFit(b)
      ensures Fits(others[i])
    {
      assert b[i + 1] == others[i];
    }
  }

  /** A box too long for its length field comes out shorter, or not at all. */
  lemma TooLong(box: seq<Byte>, rest: seq<Byte>)
    requires |box| > 0 && !Fits(box)
    ensures var got := Unframe(FrameBytes(box) + rest).0; got != [] ==> |got[0]| < |box|
  {
    var b := FrameBytes(box) + rest;
    LengthField(box);
    assert b[..LENGTH_SIZE] == FrameBytes(box)[..LENGTH_SIZE];
    assert Unframe(b).0 != [] ==> |Unframe(b).0[0]| == |box| % 0x1_0000;
  }
}
