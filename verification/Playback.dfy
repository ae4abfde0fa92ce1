/** The live call's playback scheduler and teardown (App.tsx): every inbound
    audio buffer is started at the later of the playback cursor and the
    audio clock, the cursor then moves to the end of that buffer, and the
    started sources are tracked until they end. An interruption, like the
    call teardown, stops every tracked source and puts the cursor back to 0.
    The audio clock is a parameter; source nodes are numbered by the model. */
module Playback {
  import opened Wrappers
  import Codec

  /** The output sample rate of the live call, in frames per second. */
  const OutputRate := 24000

  /** How long a buffer of `frames` frames plays at the output rate. */
  function Duration(frames: nat): (d: real)
    ensures d >= 0.0
    ensures d == 0.0 <==> frames == 0
    ensures frames >= 1 ==> d > 0.0
  {
    frames as real / OutputRate as real
  }

  /** `Math.max(cursor, now)`: a buffer starts no earlier than the end of
      the one before it and no earlier than the present. */
  function NextStart(cursor: real, now: real): (s: real)
    ensures s >= cursor && s >= now
    ensures s == cursor || s == now
  {
    if cursor >= now then cursor else now
  }

  /** One scheduled buffer: when it arrived on the audio clock and how long
      it plays. */
  datatype Arrival = Arrival(now: real, duration: real)

  predicate NonNegative(arrivals: seq<Arrival>)
  {
    forall k | 0 <= k < |arrivals| :: arrivals[k].duration >= 0.0
  }

  /** The cursor after scheduling `arrivals` in order from `cursor`. */
  function CursorAfter(cursor: real, arrivals: seq<Arrival>): real
  {
    if arrivals == [] then cursor
    else
      var last := arrivals[|arrivals| - 1];
      NextStart(CursorAfter(cursor, arrivals[..|arrivals| - 1]), last.now) + last.duration
  }

  /** The start times of `arrivals` scheduled in order from `cursor`. */
  function Starts(cursor: real, arrivals: seq<Arrival>): (starts: seq<real>)
    ensures |starts| == |arrivals|
    ensures forall k | 0 <= k < |arrivals| :: starts[k] >= arrivals[k].now
  {
    if arrivals == [] then []
    else
      var init := arrivals[..|arrivals| - 1];
      var last := arrivals[|arrivals| - 1];
      Starts(cursor, init) + [NextStart(CursorAfter(cursor, init), last.now)]
  }

  /** Scheduling never moves the cursor back, and every buffer ends by the
      time the cursor says. */
  lemma {:induction false} CursorAdvances(cursor: real, arrivals: seq<Arrival>)
    requires NonNegative(arrivals)
    ensures cursor <= CursorAfter(cursor, arrivals)
    ensures forall k | 0 <= k < |arrivals| ::
      Starts(cursor, arrivals)[k] + arrivals[k].duration <= CursorAfter(cursor, arrivals)
  {
    if arrivals != [] {
      var init := arrivals[..|arrivals| - 1];
      CursorAdvances(cursor, init);
      forall k | 0 <= k < |init|
        ensures Starts(cursor, arrivals)[k] == Starts(cursor, init)[k]
      {
      }
    }
  }

  /** Buffers play in arrival order without overlapping, and a gap opens
      before a buffer only when it arrived after the previous one ended. */
  lemma {:induction false} InOrderWithoutOverlap(cursor: real, arrivals: seq<Arrival>)
    requires NonNegative(arrivals)
    ensures var starts := Starts(cursor, arrivals);
      forall k | 0 <= k < |arrivals| - 1 ::
        && starts[k] + arrivals[k].duration <= starts[k + 1]
        && (starts[k + 1] == starts[k] + arrivals[k].duration || starts[k + 1] == arrivals[k + 1].now)
  {
    if |arrivals| > 1 {
      var n := |arrivals| - 1;
      var init := arrivals[..n];
      InOrderWithoutOverlap(cursor, init);
      StartsOfInit(cursor, arrivals);
      LastEndsAtCursor(cursor, init);
      var starts, before := Starts(cursor, arrivals), Starts(cursor, init);
      forall k | 0 <= k < n
        ensures && starts[k] + arrivals[k].duration <= starts[k + 1]
                && (starts[k + 1] == starts[k] + arrivals[k].duration || starts[k + 1] == arrivals[k + 1].now)
      {
        assert starts[k] == before[k] && arrivals[k] == init[k];
        if k + 1 < n {
          assert starts[k + 1] == before[k + 1] && arrivals[k + 1] == init[k + 1];
        }
      }
    }
  }

  /** Scheduling one more buffer leaves the earlier start times alone and
      starts the new one at the later of the cursor and its arrival. */
  lemma StartsOfInit(cursor: real, arrivals: seq<Arrival>)
    requires arrivals != []
    ensures var n := |arrivals| - 1;
      && Starts(cursor, arrivals)[..n] == Starts(cursor, arrivals[..n])
      && Starts(cursor, arrivals)[n] == NextStart(CursorAfter(cursor, arrivals[..n]), arrivals[n].now)
  {
  }

  /** The cursor sits at the end of the last scheduled buffer. */
  lemma LastEndsAtCursor(cursor: real, arrivals: seq<Arrival>)
    requires arrivals != []
    ensures var n := |arrivals| - 1;
      Starts(cursor, arrivals)[n] + arrivals[n].duration == CursorAfter(cursor, arrivals)
  {
    StartsOfInit(cursor, arrivals);
  }

  /** Scheduling one more buffer. */
  lemma ScheduleOneMore(cursor: real, arrivals: seq<Arrival>, a: Arrival)
    ensures CursorAfter(cursor, arrivals + [a]) == NextStart(CursorAfter(cursor, arrivals), a.now) + a.duration
    ensures var next := arrivals + [a];
      Starts(cursor, next)[|next| - 1] == NextStart(CursorAfter(cursor, arrivals), a.now)
  {
    assert (arrivals + [a])[..|arrivals|] == arrivals;
  }

  /** One part of a live server message: its inline audio payload and its
      text, each "" when absent (both are tested for truthiness). */
  datatype Part = Part(audio: string, text: string)

  /** A live server message: the parts of the model turn, in order, and
      whether the server signalled an interruption. */
  datatype ServerMessage = ServerMessage(parts: seq<Part>, interrupted: bool)

  /** The frames of a mono payload: `decode` then `decodeAudioData` at one
      channel. None where one of them throws: a text `atob` refuses, an odd
      byte count, or no whole frame. */
  function AudioFrames(data: string): (r: Option<nat>)
    ensures r.Some? <==>
      Codec.DecodeBase64(data).Some? && |Codec.DecodeBase64(data).value| % 2 == 0 && |Codec.DecodeBase64(data).value| >= 2
    ensures r.Some? ==> r.value >= 1 && 2 * r.value == |Codec.DecodeBase64(data).value|
  {
    match Codec.DecodeBase64(data)
    case None => None
    case Some(b) => if |b| % 2 == 1 || |b| / 2 == 0 then None else Some(|b| / 2)
  }

  /** Handling the part throws: it carries audio that cannot be decoded. */
  predicate Throws(p: Part)
  {
    p.audio != "" && AudioFrames(p.audio).None?
  }

  /** How many parts are handled before the first one that throws. */
  function Handled(parts: seq<Part>): (n: nat)
    ensures n <= |parts|
    ensures forall k | 0 <= k < n :: !Throws(parts[k])
    ensures n < |parts| ==> Throws(parts[n])
  {
    if parts == [] || Throws(parts[0]) then 0
    else
      var rest := Handled(parts[1..]);
      assert forall k | 1 <= k <= rest :: parts[k] == parts[1..][k - 1];
      1 + rest
  }

  /** The buffers scheduled for `parts`, none of which throws, with the
      audio clock read at each part. */
  function Scheduled(parts: seq<Part>, clock: seq<real>): (arrivals: seq<Arrival>)
    requires |clock| == |parts|
    requires forall k | 0 <= k < |parts| :: !Throws(parts[k])
    ensures |arrivals| <= |parts|
  {
    if parts == [] then []
    else
      var n := |parts| - 1;
      assert !Throws(parts[n]);
      Scheduled(parts[..n], clock[..n]) + PartArrivals(parts[n], clock[n])
  }

  /** The buffers scheduled by the first `k` parts of a message, all of
      them handled. */
  function ScheduledUpTo(parts: seq<Part>, clock: seq<real>, k: nat): seq<Arrival>
    requires |clock| == |parts| && k <= Handled(parts)
  {
    Scheduled(parts[..k], clock[..k])
  }

  /** The buffer a part that does not throw schedules: one when it carries
      audio, none otherwise. */
  function PartArrivals(p: Part, now: real): (arrivals: seq<Arrival>)
    requires !Throws(p)
    ensures |arrivals| == if p.audio == "" then 0 else 1
  {
    if p.audio == "" then [] else [Arrival(now, Duration(AudioFrames(p.audio).value))]
  }

  /** The texts of `parts` that become agent messages, in order. */
  function LiveTexts(parts: seq<Part>): (texts: seq<string>)
    ensures |texts| <= |parts|
    ensures forall t | t in texts :: t != ""
  {
    if parts == [] then []
    else
      var n := |parts| - 1;
      LiveTexts(parts[..n]) + (if parts[n].text == "" then [] else [parts[n].text])
  }

  /** How many of `parts` carry audio. */
  function AudioCount(parts: seq<Part>): (n: nat)
    ensures n <= |parts|
  {
    if parts == [] then 0
    else
      var m := |parts| - 1;
      AudioCount(parts[..m]) + (if parts[m].audio == "" then 0 else 1)
  }

  /** Handled parts schedule one buffer for each that carries audio. */
  lemma {:induction false} ScheduledLength(parts: seq<Part>, clock: seq<real>)
    requires |clock| == |parts|
    requires forall k | 0 <= k < |parts| :: !Throws(parts[k])
    ensures |Scheduled(parts, clock)| == AudioCount(parts)
  {
    if parts != [] {
      var m := |parts| - 1;
      ScheduledLength(parts[..m], clock[..m]);
    }
  }

  /** The source ids handed out while the counter went from `lo` to `hi`. */
  function Ids(lo: nat, hi: nat): set<nat>
  {
    set i: nat | i < hi && AtLeast(lo, i)
  }

  /** `lo <= i`, named so that membership in `Ids` has a term to match on. */
  predicate AtLeast(lo: nat, i: nat)
  {
    lo <= i
  }

  /** `Ids(lo, hi)` holds exactly the ids from `lo` up to `hi`, so there
      are `hi - lo` of them. */
  lemma {:induction false} IdsMembers(lo: nat, hi: nat)
    decreases hi - lo
    ensures forall i :: i in Ids(lo, hi) <==> lo <= i < hi
    ensures lo <= hi ==> |Ids(lo, hi)| == hi - lo
  {
    if lo < hi {
      IdsMembers(lo, hi - 1);
      assert Ids(lo, hi) == Ids(lo, hi - 1) + {hi - 1};
    }
  }

  /** Consecutive ranges of ids join up. */
  lemma IdsJoin(lo: nat, mid: nat, hi: nat)
    requires lo <= mid <= hi
    ensures Ids(lo, mid) + Ids(mid, hi) == Ids(lo, hi)
  {
    IdsMembers(lo, mid);
    IdsMembers(mid, hi);
    IdsMembers(lo, hi);
  }

  /** A part that hands out at most the id `mid`, and tracks it, adds
      exactly the ids handed out to the sources, which keep every id
      handed out since `first`. */
  lemma TrackNewSource(tracked: set<nat>, first: nat, mid: nat, hi: nat,
                       before: set<nat>, after: set<nat>, src: Option<nat>)
    requires first <= mid && (src.Some? ==> src.value == mid)
    requires hi == mid + (if src.Some? then 1 else 0)
    requires before == tracked + Ids(first, mid)
    requires after == before + (if src.Some? then {src.value} else {})
    ensures after == before + Ids(mid, hi)
    ensures after == tracked + Ids(first, hi)
  {
    IdsMembers(mid, hi);
    IdsJoin(first, mid, hi);
  }

  lemma Regroup(a: seq<Arrival>, b: seq<Arrival>, c: seq<Arrival>)
    ensures (a + b) + c == a + (b + c)
  {
  }

  /** Among the parts up to the first that throws, the next one is handled
      exactly when it does not throw. */
  lemma HandledAt(parts: seq<Part>, k: nat)
    requires k < |parts| && k <= Handled(parts)
    ensures k < Handled(parts) <==> !Throws(parts[k])
  {
    var n := Handled(parts);
    if k < n {
      assert !Throws(parts[k]);
    } else {
      assert k == n && Throws(parts[n]);
    }
  }

  /** One more handled part extends the texts and the schedule by its own. */
  lemma PrefixStep(parts: seq<Part>, clock: seq<real>, k: nat)
    requires k < |parts| == |clock| && k < Handled(parts)
    ensures LiveTexts(parts[..k + 1]) == LiveTexts(parts[..k]) + (if parts[k].text == "" then [] else [parts[k].text])
    ensures ScheduledUpTo(parts, clock, k + 1) == ScheduledUpTo(parts, clock, k) + PartArrivals(parts[k], clock[k])
  {
    assert parts[..k + 1][..k] == parts[..k] && clock[..k + 1][..k] == clock[..k];
  }

  /** One more part adds one to the count of parts with audio exactly when
      it carries audio. */
  lemma AudioCountStep(parts: seq<Part>, k: nat)
    requires k < |parts|
    ensures AudioCount(parts[..k + 1]) == AudioCount(parts[..k]) + (if parts[k].audio == "" then 0 else 1)
  {
    assert parts[..k + 1][..k] == parts[..k];
  }

  /** A live call's audio state: the connection and capture handles, the
      playback cursor and the set of playing sources. */
  class LiveCall {
    var connected: bool
    var capturing: bool
    var cursor: real
    var sources: set<nat>
    var nextSource: nat
    /** The buffers scheduled since the cursor was last reset. */
    ghost var arrivals: seq<Arrival>

    ghost predicate Valid()
      reads this
    {
      && NonNegative(arrivals)
      && cursor == CursorAfter(0.0, arrivals)
      && forall s | s in sources :: s < nextSource
    }

    /** No call: no handles, nothing playing, the cursor at 0. */
    constructor ()
      ensures Valid()
      ensures !connected && !capturing && cursor == 0.0 && sources == {} && arrivals == []
    {
      connected := false;
      capturing := false;
      cursor := 0.0;
      sources := {};
      nextSource := 0;
      arrivals := [];
    }

    /** The microphone capture handle is acquired. */
    method AttachCapture()
      modifies this
      requires Valid()
      ensures Valid() && capturing
      ensures connected == old(connected) && cursor == old(cursor) && sources == old(sources)
      ensures arrivals == old(arrivals) && nextSource == old(nextSource)
    {
      capturing := true;
    }

    /** The streaming connection is established. */
    method AttachConnection()
      modifies this
      requires Valid()
      ensures Valid() && connected
      ensures capturing == old(capturing) && cursor == old(cursor) && sources == old(sources)
      ensures arrivals == old(arrivals) && nextSource == old(nextSource)
    {
      connected := true;
    }

    /** An inbound audio buffer playing for `d` seconds, at audio time
      `now`: a new source starts at the later of the cursor and `now`, the
      cursor moves to its end and the source is tracked. A decoded buffer
      holds at least one frame, so `d` is positive. */
    method OnAudio(d: real, now: real) returns (source: nat, start: real)
      modifies this
      requires Valid() && d > 0.0
      ensures Valid()
      ensures arrivals == old(arrivals) + [Arrival(now, d)]
      ensures start == NextStart(old(cursor), now)
      ensures start == Starts(0.0, arrivals)[|arrivals| - 1]
      ensures cursor == start + d && cursor >= old(cursor)
      ensures source == old(nextSource) && nextSource == old(nextSource) + 1
      ensures source !in old(sources) && sources == old(sources) + {source}
      ensures connected == old(connected) && capturing == old(capturing)
    {
      start := NextStart(cursor, now);
      source := nextSource;
      nextSource := nextSource + 1;
      ScheduleOneMore(0.0, arrivals, Arrival(now, d));
      arrivals := arrivals + [Arrival(now, d)];
      cursor := start + d;
      sources := sources + {source};
    }

    /** One part of a server message at audio time `now`: its audio, when
      present, is decoded and scheduled. `handled` is false exactly when the
      decoding throws, and then nothing has changed. `src` is the new
      source, present exactly when the part is handled and carries audio. */
    method OnPart(p: Part, now: real) returns (handled: bool, src: Option<nat>)
      modifies this
      requires Valid()
      ensures Valid()
      ensures handled <==> !Throws(p)
      ensures src.Some? <==> handled && p.audio != ""
      ensures !handled ==> arrivals == old(arrivals) && cursor == old(cursor)
      ensures handled ==> arrivals == old(arrivals) + PartArrivals(p, now)
      ensures src.Some? ==> src.value == old(nextSource) && src.value !in old(sources)
      ensures sources == old(sources) + (if src.Some? then {src.value} else {})
      ensures nextSource == old(nextSource) + (if src.Some? then 1 else 0)
      ensures connected == old(connected) && capturing == old(capturing)
    {
      if p.audio == "" {
        return true, None;
      }
      var bytes := Codec.Decode(p.audio);
      if bytes.None? {
        return false, None;
      }
      var decoded := Codec.DecodeAudioData(bytes.value, 24000.0, 1);
      if decoded.Failure? {
        return false, None;
      }
      var frames := decoded.value.channels.Length1;
      assert AudioFrames(p.audio) == Some(frames);
      var source, start := OnAudio(Duration(frames), now);
      return true, Some(source);
    }

    /** `onmessage`: the parts are handled in order. A part's audio, when
      present, is decoded and scheduled, and its text, when present, becomes
      an agent message (returned in `texts` for the session updater). The
      first part whose audio cannot be decoded throws: the rest of the
      message, and its interruption, are skipped. Otherwise an interruption
      is handled last. Each scheduled buffer gets a new source id, so the
      sources gain exactly the ids handed out, one per handled part with
      audio, unless the interruption stops them all. */
    method OnMessage(msg: ServerMessage, clock: seq<real>) returns (texts: seq<string>, completed: bool)
      modifies this
      requires Valid() && |clock| == |msg.parts|
      ensures Valid()
      ensures completed <==> Handled(msg.parts) == |msg.parts|
      ensures texts == LiveTexts(msg.parts[..Handled(msg.parts)])
      ensures completed && msg.interrupted ==> sources == {} && cursor == 0.0 && arrivals == []
      ensures !(completed && msg.interrupted) ==>
        arrivals == old(arrivals) + ScheduledUpTo(msg.parts, clock, Handled(msg.parts))
      ensures !(completed && msg.interrupted) ==> sources == old(sources) + Ids(old(nextSource), nextSource)
      ensures nextSource == old(nextSource) + AudioCount(msg.parts[..Handled(msg.parts)])
      ensures connected == old(connected) && capturing == old(capturing)
    {
      ghost var n := Handled(msg.parts);
      texts, completed := [], true;
      var k := 0;
      while completed && k < |msg.parts|
        invariant k <= n
        invariant !completed ==> k == n < |msg.parts|
        invariant Valid()
        invariant texts == LiveTexts(msg.parts[..k])
        invariant arrivals == old(arrivals) + ScheduledUpTo(msg.parts, clock, k)
        invariant nextSource == old(nextSource) + AudioCount(msg.parts[..k])
        invariant sources == old(sources) + Ids(old(nextSource), nextSource)
        invariant connected == old(connected) && capturing == old(capturing)
      {
        var text;
        completed, text := HandlePart(msg.parts, clock, k, old(arrivals), old(nextSource), old(sources));
        if completed {
          texts := texts + text;
          k := k + 1;
        }
      }
      if completed {
        assert msg.parts[..k] == msg.parts;
        if msg.interrupted {
          var stopped := Interrupt();
        }
      }
    }

    /** The `k`-th part of a message whose earlier parts were handled,
      starting from the schedule `base`, the id counter `first` and the
      sources `tracked`: one new id per scheduled buffer, each tracked. */
    method HandlePart(parts: seq<Part>, clock: seq<real>, k: nat,
                      ghost base: seq<Arrival>, ghost first: nat, ghost tracked: set<nat>)
      returns (handled: bool, text: seq<string>)
      modifies this
      requires Valid() && k < |parts| == |clock| && k <= Handled(parts)
      requires arrivals == base + ScheduledUpTo(parts, clock, k)
      requires nextSource == first + AudioCount(parts[..k])
      requires sources == tracked + Ids(first, nextSource)
      ensures Valid()
      ensures handled <==> k < Handled(parts)
      ensures handled ==> LiveTexts(parts[..k + 1]) == LiveTexts(parts[..k]) + text
      ensures handled ==> arrivals == base + ScheduledUpTo(parts, clock, k + 1)
      ensures !handled ==> arrivals == old(arrivals) && sources == old(sources) && nextSource == old(nextSource)
      ensures nextSource == old(nextSource) + (if handled && parts[k].audio != "" then 1 else 0)
      ensures sources == old(sources) + Ids(old(nextSource), nextSource)
      ensures handled ==> nextSource == first + AudioCount(parts[..k + 1])
      ensures sources == tracked + Ids(first, nextSource)
      ensures connected == old(connected) && capturing == old(capturing)
    {
      var p := parts[k];
      HandledAt(parts, k);
      var src;
      handled, src := OnPart(p, clock[k]);
      text := if p.text == "" then [] else [p.text];
      if handled {
        PrefixStep(parts, clock, k);
        AudioCountStep(parts, k);
        Regroup(base, ScheduledUpTo(parts, clock, k), PartArrivals(p, clock[k]));
      }
      TrackNewSource(tracked, first, old(nextSource), nextSource, old(sources), sources, src);
    }

    /** A source finished playing on its own and is no longer tracked. */
    method OnEnded(source: nat)
      modifies this
      requires Valid()
      ensures Valid()
      ensures sources == old(sources) - {source}
      ensures cursor == old(cursor) && arrivals == old(arrivals) && nextSource == old(nextSource)
      ensures connected == old(connected) && capturing == old(capturing)
    {
      sources := sources - {source};
    }

    /** Barge-in: every tracked source is stopped and forgotten and the
      cursor goes back to 0; the call itself stays up. */
    method Interrupt() returns (stopped: set<nat>)
      modifies this
      requires Valid()
      ensures Valid()
      ensures stopped == old(sources)
      ensures sources == {} && cursor == 0.0 && arrivals == [] && nextSource == old(nextSource)
      ensures connected == old(connected) && capturing == old(capturing)
    {
      stopped := sources;
      sources := {};
      cursor := 0.0;
      arrivals := [];
    }

    /** `stopCall`: the connection is closed and the capture released when
      held, every tracked source is stopped and the cursor goes back to 0.
      Apart from the id counter, which it keeps so that ids are never
      reused, the state it leaves does not depend on the state it found, so
      a second teardown changes nothing. */
    method StopCall() returns (closed: bool, released: bool, stopped: set<nat>)
      modifies this
      requires Valid()
      ensures Valid()
      ensures closed == old(connected) && released == old(capturing) && stopped == old(sources)
      ensures !connected && !capturing && sources == {} && cursor == 0.0 && arrivals == []
      ensures nextSource == old(nextSource)
    {
      closed := connected;
      released := capturing;
      stopped := sources;
      connected := false;
      capturing := false;
      sources := {};
      cursor := 0.0;
      arrivals := [];
    }
  }

  /** Three buffers arriving together at time `t` on a fresh call play back
      to back from `t`. */
  method BackToBack(t: real, f1: nat, f2: nat, f3: nat) returns (s1: real, s2: real, s3: real, cursor: real)
    requires t >= 0.0 && f1 >= 1 && f2 >= 1 && f3 >= 1
    ensures s1 == t && s2 == s1 + Duration(f1) && s3 == s2 + Duration(f2)
    ensures cursor == s3 + Duration(f3)
  {
    var call := new LiveCall();
    var id;
    id, s1 := call.OnAudio(Duration(f1), t);
    id, s2 := call.OnAudio(Duration(f2), t);
    id, s3 := call.OnAudio(Duration(f3), t);
    cursor := call.cursor;
  }

  /** An interruption after two buffers stops exactly those two, and a third
      buffer arriving at `t3` then starts at `t3`. */
  method InterruptedThird(t: real, t3: real, f1: nat, f2: nat, f3: nat)
    returns (first: nat, second: nat, stopped: set<nat>, s3: real)
    requires 0.0 <= t && 0.0 <= t3 && f1 >= 1 && f2 >= 1 && f3 >= 1
    ensures first != second && stopped == {first, second}
    ensures s3 == t3
  {
    var call := new LiveCall();
    var start;
    first, start := call.OnAudio(Duration(f1), t);
    second, start := call.OnAudio(Duration(f2), t);
    stopped := call.Interrupt();
    var third;
    third, s3 := call.OnAudio(Duration(f3), t3);
  }

  /** A source stopped by an interruption still reports its end later; that
      late report leaves the buffer scheduled after the interruption
      tracked, since the two sources are distinct. */
  method LateEnded(t: real, f1: nat, f2: nat) returns (first: nat, second: nat, tracked: set<nat>)
    requires 0.0 <= t && f1 >= 1 && f2 >= 1
    ensures first != second && tracked == {second}
  {
    var call := new LiveCall();
    var start;
    first, start := call.OnAudio(Duration(f1), t);
    var stopped := call.Interrupt();
    second, start := call.OnAudio(Duration(f2), t);
    call.OnEnded(first);
    tracked := call.sources;
  }
}
