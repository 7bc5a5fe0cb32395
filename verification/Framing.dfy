/** The read loop of the TCP server: bytes arrive in arbitrary chunks, frames and messages leave. */
module Framing {
  import opened Types
  import opened Fix

  // ---------- finding one frame ----------

  predicate TrailerAt(s: string, i: nat) {
    i + 3 <= |s| && s[i] == '1' && s[i + 1] == '0' && s[i + 2] == '='
  }

  /** `accumulator.find("10=")`: the first place, or the length if there is none. */
  function FindTrailer(s: string): (i: nat)
    ensures i <= |s| && (i < |s| ==> TrailerAt(s, i))
    ensures forall j :: 0 <= j < i ==> !TrailerAt(s, j)
  {
    if s == [] || TrailerAt(s, 0) then 0
    else
      assert forall j :: 0 < j < |s| ==> (TrailerAt(s, j) <==> TrailerAt(s[1..], j - 1));
      FindTrailer(s[1..]) + 1
  }

  /** Length of the first frame: up to and including the first delimiter after the trailer tag. */
  function FrameEnd(s: string): (n: Option<nat>)
    ensures n.Some? ==> 4 <= n.value <= |s|
  {
    var i := FindTrailer(s);
    if i == |s| then None
    else
      var d := IndexOf(s[i..], SOH);
      if i + d == |s| then None
      else
        assert s[i] != SOH && s[i + 1] != SOH && s[i + 2] != SOH;
        Some(i + d + 1)
  }

  datatype Cut = Cut(frames: seq<string>, leftover: string)

  /** Everything that can be cut off a byte string. */
  function Frames(s: string): Cut
    decreases |s|
  {
    match FrameEnd(s)
    case None => Cut([], s)
    case Some(n) =>
      var rest := Frames(s[n..]);
      Cut([s[..n]] + rest.frames, rest.leftover)
  }

  /** A frame that parses is one message, any other is none. */
  function MessageOf(frame: string): seq<FixMessage> {
    var (ok, m) := Parse(frame, RESET);
    if ok then [m] else []
  }

  function Messages(frames: seq<string>): seq<FixMessage> {
    if frames == [] then [] else MessageOf(frames[0]) + Messages(frames[1..])
  }

  // ---------- the read loop ----------

  class Connection {
    var accumulator: string
    /** What was pushed to the order queue so far; the push spins until the queue takes it. */
    var queued: seq<FixMessage>

    constructor ()
      ensures accumulator == "" && queued == []
    {
      accumulator, queued := "", [];
    }

    method OnRead(readBuf: string)
      modifies this
      ensures var cut := Frames(old(accumulator) + readBuf);
        accumulator == cut.leftover && queued == old(queued) + Messages(cut.frames)
    {
      hide Parse, Frames, IndexOf, Messages;
      accumulator := accumulator + readBuf;
      ghost var bytes, before := accumulator, queued;
      ghost var cut := Frames(bytes);
      ghost var done: seq<string> := [];
      OneMessage("");
      while true
        invariant Frames(bytes) == Cut(done + Frames(accumulator).frames, Frames(accumulator).leftover)
        invariant queued == before + Messages(done)
        decreases |accumulator|
      {
        var msgEnd := FindTrailer(accumulator);
        if msgEnd == |accumulator| { break; }
        var delimPos := msgEnd + IndexOf(accumulator[msgEnd..], SOH);
        if delimPos == |accumulator| { break; }
        var msgLen := delimPos + 1;
        assert FrameEnd(accumulator) == Some(msgLen);
        ghost var frame := accumulator[..msgLen];
        var ok, parsedMsg := ParseFixMessage(accumulator[..msgLen]);
        MessagesConcat(done, [frame]);
        OneMessage(frame);
        CutOne(accumulator, msgLen);
        if ok {
          queued := queued + [parsedMsg];
        }
        accumulator := accumulator[msgLen..];
        assert done + ([frame] + Frames(accumulator).frames) == done + [frame] + Frames(accumulator).frames;
        done := done + [frame];
      }
      CutNothing(accumulator);
      assert done + [] == done;
    }
  }

  lemma NoFrameInNothing()
    ensures FrameEnd("").None?
  {}

  lemma CutOne(s: string, n: nat)
    requires FrameEnd(s) == Some(n)
    ensures Frames(s) == Cut([s[..n]] + Frames(s[n..]).frames, Frames(s[n..]).leftover)
  {}

  lemma CutNothing(s: string)
    requires FrameEnd(s).None?
    ensures Frames(s) == Cut([], s)
  {}

  lemma OneMessage(frame: string)
    ensures Messages([frame]) == MessageOf(frame) && Messages([]) == []
  {
    assert [frame][1..] == [];
  }

  lemma {:induction false} MessagesConcat(a: seq<string>, b: seq<string>)
    ensures Messages(a + b) == Messages(a) + Messages(b)
  {
    hide MessageOf;
    if a == [] {
      assert a + b == b;
    } else {
      assert (a + b)[1..] == a[1..] + b;
      MessagesConcat(a[1..], b);
      var now, x, y := MessageOf(a[0]), Messages(a[1..]), Messages(b);
      assert now + (x + y) == now + x + y;
    }
  }

  // ---------- chunk independence ----------

  function Join(parts: seq<string>): string {
    if parts == [] then "" else parts[0] + Join(parts[1..])
  }

  lemma IndexOfPrefix(s: string, t: string, c: char)
    requires IndexOf(s, c) < |s|
    ensures IndexOf(s + t, c) == IndexOf(s, c)
  {
    var i := IndexOf(s, c);
    assert (s + t)[..i] == s[..i];
    IndexOfUnique(s + t, c, i);
  }

  /** More bytes do not change a frame that is already complete. */
  lemma FrameEndStable(s: string, t: string)
    requires FrameEnd(s).Some?
    ensures FrameEnd(s + t) == FrameEnd(s)
  {
    var i, j := FindTrailer(s), FindTrailer(s + t);
    assert TrailerAt(s + t, i);
    assert j < i ==> TrailerAt(s, j);
    assert (s + t)[i..] == s[i..] + t;
    IndexOfPrefix(s[i..], t, SOH);
  }

  lemma {:induction false} FramesAppend(s: string, t: string)
    ensures var a := Frames(s); var b := Frames(a.leftover + t);
      Frames(s + t) == Cut(a.frames + b.frames, b.leftover)
    decreases |s|
  {
    hide FrameEnd;
    match FrameEnd(s)
    case None => assert [] + Frames(s + t).frames == Frames(s + t).frames;
    case Some(n) =>
      FrameEndStable(s, t);
      assert (s + t)[..n] == s[..n] && (s + t)[n..] == s[n..] + t;
      FramesAppend(s[n..], t);
      var a, b := Frames(s[n..]), Frames(Frames(s).leftover + t);
      assert [s[..n]] + (a.frames + b.frames) == [s[..n]] + a.frames + b.frames;
  }

  /** A sequence of reads, each cut as it arrives. */
  function Feed(accumulator: string, chunks: seq<string>): Cut
    decreases |chunks|
  {
    if chunks == [] then Cut([], accumulator)
    else
      var now := Frames(accumulator + chunks[0]);
      var later := Feed(now.leftover, chunks[1..]);
      Cut(now.frames + later.frames, later.leftover)
  }

  /** However the stream is split into reads, the frames and what is left over are those of the
      whole stream. */
  lemma {:induction false} ChunkIndependence(accumulator: string, chunks: seq<string>)
    requires FrameEnd(accumulator).None?
    ensures Feed(accumulator, chunks) == Frames(accumulator + Join(chunks))
    decreases |chunks|
  {
    hide FrameEnd;
    if chunks == [] {
      assert accumulator + "" == accumulator;
    } else {
      var s := accumulator + chunks[0];
      LeftoverIncomplete(s);
      ChunkIndependence(Frames(s).leftover, chunks[1..]);
      FramesAppend(s, Join(chunks[1..]));
      assert accumulator + Join(chunks) == s + Join(chunks[1..]);
    }
  }

  lemma {:induction false} LeftoverIncomplete(s: string)
    ensures FrameEnd(Frames(s).leftover).None?
    decreases |s|
  {
    match FrameEnd(s)
    case None =>
    case Some(n) => LeftoverIncomplete(s[n..]);
  }

  lemma {:induction false} NothingLost(s: string)
    ensures Join(Frames(s).frames) + Frames(s).leftover == s
    decreases |s|
  {
    hide FrameEnd, Frames, Join;
    match FrameEnd(s)
    case None =>
      CutNothing(s);
      JoinNone();
      assert "" + s == s;
    case Some(n) =>
      var rest := Frames(s[n..]);
      CutOne(s, n);
      NothingLost(s[n..]);
      JoinFirst(s[..n], rest.frames);
      Assoc(s[..n], Join(rest.frames), rest.leftover);
      assert s[..n] + s[n..] == s;
  }

  lemma {:induction false} FramesAreWhole(s: string)
    ensures forall f :: f in Frames(s).frames ==> FrameEnd(f) == Some(|f|)
    decreases |s|
  {
    hide FrameEnd;
    match FrameEnd(s)
    case None =>
    case Some(n) =>
      FramesAreWhole(s[n..]);
      FrameIsWhole(s, n);
  }

  /** No byte is lost, invented or moved, and every frame is one frame exactly. */
  lemma FramesPartition(s: string)
    ensures var c := Frames(s);
      && Join(c.frames) + c.leftover == s
      && forall f :: f in c.frames ==> FrameEnd(f) == Some(|f|)
  {
    hide FrameEnd, Join, Frames;
    NothingLost(s);
    FramesAreWhole(s);
  }

  lemma JoinNone()
    ensures Join([]) == ""
  {}

  lemma JoinFirst(first: string, parts: seq<string>)
    ensures Join([first] + parts) == first + Join(parts)
  {
    assert ([first] + parts)[1..] == parts;
  }

  lemma FrameIsWhole(s: string, n: nat)
    requires FrameEnd(s) == Some(n)
    ensures FrameEnd(s[..n]) == Some(n)
  {
    var f := s[..n];
    var i := FindTrailer(s);
    var d := IndexOf(s[i..], SOH);
    assert TrailerAt(f, i);
    var j := FindTrailer(f);
    assert j < i ==> TrailerAt(s, j);
    assert f[i..] == s[i..][..d + 1];
    assert f[i..][..d] == s[i..][..d];
    IndexOfUnique(f[i..], SOH, d);
  }

  // ---------- every frame is a message ----------

  /** "10=" stands at `i`, and from there on the only delimiter is the last byte. */
  predicate EndsAfter(s: string, i: nat) {
    TrailerAt(s, i) && s[|s| - 1] == SOH && forall j :: i <= j < |s| - 1 ==> s[j] != SOH
  }

  lemma EndsAfterTail(s: string, i: nat, k: nat)
    requires EndsAfter(s, i) && k <= i
    ensures EndsAfter(s[k..], i - k)
  {}

  /** Where the next field of such a string begins and ends: its delimiter is before the trailer, or it is
      the last byte. */
  lemma NextField(s: string, i: nat) returns (t: nat, v: nat)
    requires EndsAfter(s, i)
    ensures t == IndexOf(s, '=') && t <= i + 2 && v == IndexOf(s[t + 1..], SOH) && t + 1 + v < |s|
    ensures t + 1 + v == |s| - 1 || t + 1 + v < i
  {
    t := IndexOf(s, '=');
    IndexOfAtMost(s, '=', i + 2);
    v := IndexOf(s[t + 1..], SOH);
    IndexOfAtMost(s[t + 1..], SOH, |s| - 1 - (t + 1));
    assert s[t + 1 + v] == SOH;
  }

  lemma {:induction false} ParsesThrough(s: string, m: FixMessage, i: nat)
    requires EndsAfter(s, i)
    ensures Parse(s, m).0
    decreases |s|
  {
    hide Parse, SetField, Narrow, Value, IndexOf, EndsAfter;
    var t, v := NextField(s, i);
    var rest := s[t + 1..];
    ParseUnfold(s, rest, m);
    var m' := SetField(m, Narrow(Value(s[..t])), rest[..v]);
    SuffixOfSuffix(s, t + 1, t + v + 2);
    if t + 1 + v == |s| - 1 {
      assert s[|s|..] == "";
      ParseEnds(m');
    } else {
      EndsAfterTail(s, i, t + v + 2);
      ParsesThrough(s[t + v + 2..], m', i - (t + v + 2));
    }
  }

  lemma FrameParts(f: string)
    requires FrameEnd(f) == Some(|f|)
    ensures TrailerAt(f, FindTrailer(f)) && FindTrailer(f) + IndexOf(f[FindTrailer(f)..], SOH) == |f| - 1
  {
    hide IndexOf, FindTrailer, TrailerAt;
  }

  lemma FrameEndsAfter(f: string)
    requires FrameEnd(f) == Some(|f|)
    ensures EndsAfter(f, FindTrailer(f))
  {
    hide IndexOf, FindTrailer, TrailerAt, FrameEnd;
    var i := FindTrailer(f);
    FrameParts(f);
    DelimiterLast(f, i);
    forall j | i <= j < |f| - 1 ensures f[j] != SOH {
      NoneBefore(f, i, SOH, j);
    }
  }

  lemma DelimiterLast(f: string, i: nat)
    requires i < |f| && i + IndexOf(f[i..], SOH) == |f| - 1
    ensures f[|f| - 1] == SOH
  {
    hide IndexOf;
    var d := IndexOf(f[i..], SOH);
    assert f[i..][d] == f[i + d];
  }

  lemma FrameParses(f: string)
    requires FrameEnd(f) == Some(|f|)
    ensures MessageOf(f) == [Parse(f, RESET).1]
  {
    hide Parse, EndsAfter, FrameEnd;
    FrameEndsAfter(f);
    ParsesThrough(f, RESET, FindTrailer(f));
  }

  lemma {:induction false} AllParse(frames: seq<string>)
    requires forall f :: f in frames ==> FrameEnd(f) == Some(|f|)
    ensures |Messages(frames)| == |frames|
    ensures forall i :: 0 <= i < |frames| ==> Messages(frames)[i] == Parse(frames[i], RESET).1
  {
    hide Parse, MessageOf, FrameEnd;
    if frames != [] {
      FrameParses(frames[0]);
      AllParse(frames[1..]);
    }
  }

  /** Every frame cut off a stream parses, whatever its bytes: the test of the parser's result in the read
      loop never fails, and there is one message for each frame, in order. */
  lemma EveryFrameIsAMessage(s: string)
    ensures var frames := Frames(s).frames;
      && |Messages(frames)| == |frames|
      && forall i :: 0 <= i < |frames| ==> Parse(frames[i], RESET) == (true, Messages(frames)[i])
  {
    hide Parse, FrameEnd, Frames, Messages;
    var frames := Frames(s).frames;
    FramesAreWhole(s);
    AllParse(frames);
    forall i | 0 <= i < |frames| ensures Parse(frames[i], RESET).0 {
      FrameParses(frames[i]);
    }
  }
}
