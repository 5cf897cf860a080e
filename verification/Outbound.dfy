/**
 Outbound observation does not depend on how the bytes are split into writes (wire/transport.go).
 */
module Outbound {
  import opened Lines

  /** The frames of a stream: its complete lines without their newlines. */
  function Frames(s: string): seq<string>
    decreases |s|
  {
    var n := FirstLine(s);
    if n == 0 then [] else [s[..n - 1]] + Frames(s[n..])
  }

  /** What is left after the last complete frame. */
  function Remainder(s: string): string
    decreases |s|
  {
    var n := FirstLine(s);
    if n == 0 then s else Remainder(s[n..])
  }

  function Concat(writes: seq<string>): string {
    if writes == [] then "" else Concat(writes[..|writes| - 1]) + writes[|writes| - 1]
  }

  /** The stream is a frame, its newline and the rest. */
  predicate Opens(s: string, frame: string, rest: string) {
    '\n' !in frame && |rest| < |s| && s == frame + "\n" + rest
  }

  lemma FrameThen(s: string, frame: string, rest: string)
    requires Opens(s, frame, rest)
    ensures Frames(s) == [frame] + Frames(rest) && Remainder(s) == Remainder(rest)
  {
    var line := frame + "\n";
    assert line[..|line| - 1] == frame;
    FirstLineOf(line, rest);
    assert s[..|frame|] == frame && s[|line|..] == rest;
  }

  lemma OpensMore(s: string, frame: string, rest: string, more: string)
    requires Opens(s, frame, rest)
    ensures Opens(s + more, frame, rest + more)
  {
  }

  /** A stream with a complete frame is that frame, its newline and the rest. */
  lemma FirstFrame(s: string) returns (frame: string, rest: string)
    requires '\n' in s
    ensures Opens(s, frame, rest)
  {
    var n := FirstLine(s);
    frame, rest := s[..n - 1], s[n..];
  }

  lemma NoFrame(s: string)
    requires '\n' !in s
    ensures Frames(s) == [] && Remainder(s) == s
  {
  }

  /** Frames and remainder are unchanged by where the stream was cut. */
  lemma {:induction false} Continue(s: string, more: string)
    ensures Frames(s + more) == Frames(s) + Frames(Remainder(s) + more)
    ensures Remainder(s + more) == Remainder(Remainder(s) + more)
    decreases |s|
  {
    if '\n' in s {
      var frame, rest := FirstFrame(s);
      OpensMore(s, frame, rest, more);
      FrameThen(s, frame, rest);
      FrameThen(s + more, frame, rest + more);
      Continue(rest, more);
    } else {
      NoFrame(s);
    }
  }

  class Observer {
    var partial: string

    constructor ()
      ensures partial == ""
    {
      partial := "";
    }

    /** The writer's part: what was written is observed, if anything was. */
    method Write(data: string) returns (frames: seq<string>)
      requires '\n' !in partial
      modifies this
      ensures frames == Frames(old(partial) + data)
      ensures partial == Remainder(old(partial) + data) && '\n' !in partial
    {
      if |data| > 0 {
        frames := Observe(data);
      } else {
        assert partial + data == partial;
        NoFrame(partial);
        frames := [];
      }
      RemainderUnterminated(old(partial) + data);
    }

    /** observeOutbound: a write of exactly one complete frame is observed in place, without buffering. */
    method Observe(data: string) returns (frames: seq<string>)
      requires data != ""
      modifies this
      ensures frames == Frames(old(partial) + data)
      ensures partial == Remainder(old(partial) + data)
    {
      if partial == "" && FirstLine(data) == |data| {
        SingleFrame(data);
        assert partial + data == data;
        return [data[..|data| - 1]];
      }
      partial, frames := partial + data, [];
      while true
        invariant frames + Frames(partial) == Frames(old(partial) + data)
        invariant Remainder(partial) == Remainder(old(partial) + data)
        decreases |partial|
      {
        var n := FirstLine(partial);
        if n == 0 {
          break;
        }
        frames, partial := frames + [partial[..n - 1]], partial[n..];
      }
    }
  }

  /** The fast path agrees with the loop. */
  lemma SingleFrame(data: string)
    requires data != "" && FirstLine(data) == |data|
    ensures Frames(data) == [data[..|data| - 1]] && Remainder(data) == ""
  {
    assert data[|data|..] == "";
  }

  /** Every write's frames in order. */
  function Observed(writes: seq<string>): seq<string> {
    if writes == [] then []
    else Observed(writes[..|writes| - 1]) + Frames(Buffered(writes[..|writes| - 1]) + writes[|writes| - 1])
  }

  /** What is buffered after the writes. */
  function Buffered(writes: seq<string>): string {
    if writes == [] then "" else Remainder(Buffered(writes[..|writes| - 1]) + writes[|writes| - 1])
  }

  lemma {:induction false} RemainderUnterminated(s: string)
    ensures '\n' !in Remainder(s)
    decreases |s|
  {
    var n := FirstLine(s);
    if n > 0 { RemainderUnterminated(s[n..]); }
  }

  /** However a stream is cut into writes, the frames observed and the bytes kept are those of the whole. */
  lemma {:induction false} SplitIndependent(writes: seq<string>)
    ensures Observed(writes) == Frames(Concat(writes)) && Buffered(writes) == Remainder(Concat(writes))
  {
    if writes == [] {
      assert Concat(writes) == "";
    } else {
      var before, last := writes[..|writes| - 1], writes[|writes| - 1];
      SplitIndependent(before);
      Continue(Concat(before), last);
    }
  }

  function Joined(frames: seq<string>): string {
    if frames == [] then "" else frames[0] + "\n" + Joined(frames[1..])
  }

  lemma JoinedFirst(frame: string, frames: seq<string>, rest: string)
    ensures Joined([frame] + frames) + rest == frame + "\n" + (Joined(frames) + rest)
  {
    assert ([frame] + frames)[1..] == frames;
  }

  /** Nothing is lost: the frames, each with its newline, and the remainder are the stream. */
  lemma {:induction false} NothingLost(s: string)
    ensures Joined(Frames(s)) + Remainder(s) == s
    ensures forall i | 0 <= i < |Frames(s)| :: '\n' !in Frames(s)[i]
    decreases |s|
  {
    if '\n' in s {
      var frame, rest := FirstFrame(s);
      FrameThen(s, frame, rest);
      NothingLost(rest);
      JoinedFirst(frame, Frames(rest), Remainder(rest));
    } else {
      NoFrame(s);
    }
  }
}
