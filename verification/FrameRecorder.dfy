/** Per-frame measurement at the media relay (edge/media-relay/src/record.rs):
    interleaved RTP packets of many SSRCs, grouped into frames by RTP timestamp
    and marker bit (section 5.1 of RFC 3550). */
module FrameRecorder {
  import opened Base
  import opened Envelope
  import opened Recorder

  const SITE_RELAY: byte := 3

  datatype SendTimes = SendTimes(captureNs: u64, sendNs: u64)

  /** One forwarded video packet; `received` is an instant of the monotonic
      clock, in nanoseconds. */
  datatype Packet = Packet(ssrc: u32, rtpTs: u32, marker: bool, received: int, forwardedNs: i64,
                           bytes: nat, times: Option<SendTimes>)

  datatype Frame = Frame(rtpTs: u32, firstRecvNs: i64, lastRecvNs: i64, forwardedNs: i64,
                         bytes: nat, times: Option<SendTimes>)

  /** CLOCK_REALTIME at a known instant. */
  datatype Epoch = Epoch(base: int, baseNs: i64)

  /** `realtime_ns`: durations are unsigned, hence the two sides. */
  function RealtimeNs(e: Epoch, at: int): i64 {
    if e.base <= at then WrapI64(e.baseNs + WrapI64(at - e.base))
    else WrapI64(e.baseNs - WrapI64(e.base - at))
  }

  /** One mapping on both sides of the epoch: differences survive. */
  lemma RealtimeKeepsDifferences(e: Epoch, a: int, b: int)
    ensures (RealtimeNs(e, a) - RealtimeNs(e, b) - (a - b)) % TWO_64 == 0
    ensures I64_MIN <= e.baseNs + (a - e.base) <= I64_MAX && I64_MIN <= e.baseNs + (b - e.base) <= I64_MAX
      ==> RealtimeNs(e, a) - RealtimeNs(e, b) == a - b
  {
    RealtimeIsShift(e, a);
    RealtimeIsShift(e, b);
    CongruentDifference(e.baseNs + (a - e.base), e.baseNs + (b - e.base));
  }

  lemma CongruentDifference(x: int, y: int)
    ensures (WrapI64(x) - WrapI64(y) - (x - y)) % TWO_64 == 0
  {
  }

  lemma RealtimeIsShift(e: Epoch, at: int)
    ensures RealtimeNs(e, at) == WrapI64(e.baseNs + (at - e.base))
  {
    if e.base <= at {
      WrapAdds(e.baseNs, at - e.base);
    } else {
      WrapSubtracts(e.baseNs, e.base - at);
    }
  }

  lemma WrapAdds(c: int, x: int)
    ensures WrapI64(c + WrapI64(x)) == WrapI64(c + x)
  {
    WrapCongruent(c + WrapI64(x), c + x);
  }

  lemma WrapSubtracts(c: int, x: int)
    ensures WrapI64(c - WrapI64(x)) == WrapI64(c - x)
  {
    var w := WrapI64(x);
    MirrorTurns(w - x);
    assert (c - w) - (c - x) == -(w - x);
    WrapCongruent(c - w, c - x);
  }

  lemma MirrorTurns(d: int)
    requires d % TWO_64 == 0
    ensures (-d) % TWO_64 == 0
  {
    var turns := d / TWO_64;
    assert -d == (-turns) * TWO_64;
    WholeTurns(-turns);
  }

  lemma WholeTurns(k: int)
    ensures (k * TWO_64) % TWO_64 == 0
  {
  }

  // ----- Segmentation of one SSRC's packets -----

  datatype Segmentation = Segmentation(closed: seq<seq<Packet>>, pending: seq<Packet>)

  function Flatten(groups: seq<seq<Packet>>): seq<Packet> {
    if groups == [] then [] else Flatten(groups[..|groups| - 1]) + groups[|groups| - 1]
  }

  ghost predicate OneTimestamp(g: seq<Packet>) {
    forall i :: 0 <= i < |g| ==> g[i].rtpTs == g[0].rtpTs
  }

  ghost predicate NoMarker(g: seq<Packet>) {
    forall i :: 0 <= i < |g| ==> !g[i].marker
  }

  /** The packets of one finished frame. */
  ghost predicate IsFrame(g: seq<Packet>) {
    g != [] && OneTimestamp(g) && NoMarker(g[..|g| - 1])
  }

  predicate EndsMarked(g: seq<Packet>) {
    g != [] && g[|g| - 1].marker
  }

  /** `g` ended: by its marker, or because `next` carries another timestamp. */
  ghost predicate Ended(g: seq<Packet>, next: seq<Packet>) {
    EndsMarked(g) || (g != [] && next != [] && next[0].rtpTs != g[0].rtpTs)
  }

  /** Finished frames in a row, nothing said about how the last one ended. */
  ghost predicate IsChain(closed: seq<seq<Packet>>) {
    && (forall i :: 0 <= i < |closed| ==> IsFrame(closed[i]))
    && (forall i :: 0 <= i < |closed| - 1 ==> Ended(closed[i], closed[i + 1]))
  }

  /** The frames of a packet stream, without saying how they are found: they
      tile it in order, each has one timestamp and a marker at most on its last
      packet, and a frame ends only at its marker or where the timestamp
      changes. */
  ghost predicate IsSegmentation(ps: seq<Packet>, s: Segmentation) {
    && Flatten(s.closed) + s.pending == ps
    && IsChain(s.closed)
    && (s.closed != [] ==> Ended(s.closed[|s.closed| - 1], s.pending))
    && OneTimestamp(s.pending) && NoMarker(s.pending)
  }

  /** The frames as the recorder finds them, packet by packet. */
  function Segment(ps: seq<Packet>): Segmentation {
    if ps == [] then Segmentation([], [])
    else NextSegment(Segment(ps[..|ps| - 1]), ps[|ps| - 1])
  }

  /** The packet belongs to another frame than the one pending. */
  predicate CutsOff(s: Segmentation, p: Packet) {
    s.pending != [] && s.pending[0].rtpTs != p.rtpTs
  }

  function NextSegment(s: Segmentation, p: Packet): Segmentation {
    var t := if CutsOff(s, p) then Segmentation(s.closed + [s.pending], []) else s;
    if p.marker then Segmentation(t.closed + [t.pending + [p]], []) else Segmentation(t.closed, t.pending + [p])
  }

  lemma FlattenAppend(groups: seq<seq<Packet>>, g: seq<Packet>)
    ensures Flatten(groups + [g]) == Flatten(groups) + g
  {
    assert (groups + [g])[..|groups|] == groups;
  }

  lemma AppendFrame(closed: seq<seq<Packet>>, g: seq<Packet>)
    requires IsChain(closed) && IsFrame(g)
    requires closed != [] ==> Ended(closed[|closed| - 1], g)
    ensures IsChain(closed + [g])
    ensures Flatten(closed + [g]) == Flatten(closed) + g
  {
    FlattenAppend(closed, g);
  }

  /** A packet that continues the pending group, or starts one. */
  lemma ExtendKeeps(ps: seq<Packet>, s: Segmentation, p: Packet)
    requires Flatten(s.closed) + s.pending == ps && IsChain(s.closed)
    requires OneTimestamp(s.pending) && NoMarker(s.pending)
    requires s.pending != [] ==> s.pending[0].rtpTs == p.rtpTs
    requires s.closed != [] ==> Ended(s.closed[|s.closed| - 1], s.pending + [p])
    ensures IsSegmentation(ps + [p], NextSegment(s, p))
  {
    var g := s.pending + [p];
    GroupExtends(s.pending, p);
    assert Flatten(s.closed) + g == ps + [p];
    if p.marker {
      AppendFrame(s.closed, g);
      MarkedClose(ps + [p], s.closed + [g]);
    }
  }

  lemma GroupExtends(q: seq<Packet>, p: Packet)
    requires OneTimestamp(q) && NoMarker(q) && (q != [] ==> q[0].rtpTs == p.rtpTs)
    ensures OneTimestamp(q + [p]) && IsFrame(q + [p])
    ensures !p.marker ==> NoMarker(q + [p])
    ensures p.marker ==> EndsMarked(q + [p])
  {
    assert (q + [p])[..|q|] == q;
  }

  lemma MarkedClose(ps: seq<Packet>, closed: seq<seq<Packet>>)
    requires IsChain(closed) && Flatten(closed) == ps && closed != [] && EndsMarked(closed[|closed| - 1])
    ensures IsSegmentation(ps, Segmentation(closed, []))
  {
    assert Flatten(closed) + [] == ps;
  }

  /** A packet whose timestamp cuts the pending group off. */
  lemma CutKeeps(ps: seq<Packet>, s: Segmentation, p: Packet)
    requires IsSegmentation(ps, s) && CutsOff(s, p)
    ensures IsSegmentation(ps + [p], NextSegment(s, p))
  {
    AppendFrame(s.closed, s.pending);
    var cut := Segmentation(s.closed + [s.pending], []);
    assert Flatten(cut.closed) + cut.pending == ps;
    assert Ended(s.pending, cut.pending + [p]);
    ExtendKeeps(ps, cut, p);
    assert NextSegment(s, p) == NextSegment(cut, p);
  }

  lemma NextKeeps(ps: seq<Packet>, s: Segmentation, p: Packet)
    requires IsSegmentation(ps, s)
    ensures IsSegmentation(ps + [p], NextSegment(s, p))
  {
    if CutsOff(s, p) {
      CutKeeps(ps, s, p);
    } else {
      assert s.pending != [] ==> (s.pending + [p])[0] == s.pending[0];
      ExtendKeeps(ps, s, p);
    }
  }

  lemma SegmentStep(ps: seq<Packet>, p: Packet)
    ensures Segment(ps + [p]) == NextSegment(Segment(ps), p)
  {
    assert (ps + [p])[..|ps|] == ps;
  }

  /** What the recorder finds obeys the rules. */
  lemma {:induction false} SegmentIsSegmentation(ps: seq<Packet>)
    ensures IsSegmentation(ps, Segment(ps))
  {
    if ps == [] {
      assert Flatten([]) + [] == ps;
    } else {
      var init, p := ps[..|ps| - 1], ps[|ps| - 1];
      assert ps == init + [p];
      SegmentIsSegmentation(init);
      SegmentStep(init, p);
      NextKeeps(init, Segment(init), p);
    }
  }

  // ----- There is no other segmentation -----

  /** What was pending before a packet opened a new group: nothing, unless the
      last frame was cut off by that packet's timestamp. */
  function Reopen(closed: seq<seq<Packet>>): Segmentation {
    if closed == [] || EndsMarked(closed[|closed| - 1]) then Segmentation(closed, [])
    else Segmentation(closed[..|closed| - 1], closed[|closed| - 1])
  }

  lemma ReopenIsSegmentation(closed: seq<seq<Packet>>)
    requires IsChain(closed)
    ensures IsSegmentation(Flatten(closed), Reopen(closed))
  {
    var s := Reopen(closed);
    if closed != [] {
      var g := closed[|closed| - 1];
      assert closed == closed[..|closed| - 1] + [g];
      if !EndsMarked(g) {
        assert g == g[..|g| - 1] + [g[|g| - 1]];
        if |closed| > 1 {
          assert Ended(closed[|closed| - 2], closed[|closed| - 1]);
        }
      } else {
        assert Flatten(closed) + [] == Flatten(closed);
      }
    }
  }

  /** The segmentation before the last packet, and that one step restores it. */
  lemma Undo(ps: seq<Packet>, s: Segmentation) returns (before: Segmentation)
    requires ps != [] && IsSegmentation(ps, s)
    ensures IsSegmentation(ps[..|ps| - 1], before)
    ensures NextSegment(before, ps[|ps| - 1]) == s
  {
    if s.pending != [] {
      before := UndoPending(ps, s);
    } else {
      before := UndoClosed(ps, s);
    }
  }

  lemma UndoPending(ps: seq<Packet>, s: Segmentation) returns (before: Segmentation)
    requires IsSegmentation(ps, s) && s.pending != []
    ensures ps != []
    ensures IsSegmentation(ps[..|ps| - 1], before)
    ensures NextSegment(before, ps[|ps| - 1]) == s
  {
    var q, p := s.pending, s.pending[|s.pending| - 1];
    assert ps[|ps| - 1] == p && q == q[..|q| - 1] + [p];
    assert ps[..|ps| - 1] == Flatten(s.closed) + q[..|q| - 1];
    if |q| > 1 {
      before := Segmentation(s.closed, q[..|q| - 1]);
    } else {
      assert ps[..|ps| - 1] == Flatten(s.closed);
      ReopenIsSegmentation(s.closed);
      before := Reopen(s.closed);
      assert s.closed != [] ==> s.closed == s.closed[..|s.closed| - 1] + [s.closed[|s.closed| - 1]];
    }
  }

  lemma UndoClosed(ps: seq<Packet>, s: Segmentation) returns (before: Segmentation)
    requires IsSegmentation(ps, s) && s.pending == [] && ps != []
    ensures IsSegmentation(ps[..|ps| - 1], before)
    ensures NextSegment(before, ps[|ps| - 1]) == s
  {
    var rest, g := s.closed[..|s.closed| - 1], s.closed[|s.closed| - 1];
    assert s.closed == rest + [g] && IsFrame(g) && EndsMarked(g);
    ClosedWithoutLast(ps, rest, g);
    assert rest != [] ==> Ended(s.closed[|rest| - 1], s.closed[|rest|]);
    if |g| > 1 {
      var most, p := g[..|g| - 1], g[|g| - 1];
      assert g == most + [p];
      before := Segmentation(rest, most);
      FrameWithoutLast(most, p);
      UndoLongFrame(ps[..|ps| - 1], rest, most, p);
    } else {
      before := Reopen(rest);
      UndoOnePacketFrame(ps[..|ps| - 1], rest, g);
    }
  }

  lemma ClosedWithoutLast(ps: seq<Packet>, rest: seq<seq<Packet>>, g: seq<Packet>)
    requires ps == Flatten(rest + [g]) && g != []
    ensures ps != [] && ps[|ps| - 1] == g[|g| - 1] && ps[..|ps| - 1] == Flatten(rest) + g[..|g| - 1]
  {
    FlattenAppend(rest, g);
    assert g == g[..|g| - 1] + [g[|g| - 1]];
  }

  /** A frame of `most` and then `p`, after the finished frames `rest`. */
  lemma UndoLongFrame(init: seq<Packet>, rest: seq<seq<Packet>>, most: seq<Packet>, p: Packet)
    requires most != [] && OneTimestamp(most) && NoMarker(most) && p.marker && p.rtpTs == most[0].rtpTs
    requires IsChain(rest) && (rest != [] ==> Ended(rest[|rest| - 1], most + [p]))
    requires init == Flatten(rest) + most
    ensures IsSegmentation(init, Segmentation(rest, most))
    ensures NextSegment(Segmentation(rest, most), p) == Segmentation(rest + [most + [p]], [])
  {
    if rest != [] {
      EndedAlike(rest[|rest| - 1], most + [p], most);
    }
  }

  lemma FrameWithoutLast(most: seq<Packet>, p: Packet)
    requires IsFrame(most + [p]) && most != []
    ensures OneTimestamp(most) && NoMarker(most) && p.rtpTs == most[0].rtpTs
  {
    var g := most + [p];
    assert g[..|g| - 1] == most;
    assert g[|most|] == p && forall i :: 0 <= i < |most| ==> g[i] == most[i];
  }

  lemma EndedAlike(f: seq<Packet>, g: seq<Packet>, h: seq<Packet>)
    requires Ended(f, g) && g != [] && h != [] && h[0].rtpTs == g[0].rtpTs
    ensures Ended(f, h)
  {
  }

  lemma UndoOnePacketFrame(init: seq<Packet>, rest: seq<seq<Packet>>, g: seq<Packet>)
    requires |g| == 1 && EndsMarked(g) && IsChain(rest)
    requires rest != [] ==> Ended(rest[|rest| - 1], g)
    requires init == Flatten(rest) + g[..|g| - 1]
    ensures IsSegmentation(init, Reopen(rest))
    ensures NextSegment(Reopen(rest), g[0]) == Segmentation(rest + [g], [])
  {
    assert init == Flatten(rest);
    ReopenIsSegmentation(rest);
    ReopenTakes(rest, g[0]);
    assert g == [g[0]];
  }

  /** A marked packet after finished frames is a frame of its own. */
  lemma ReopenTakes(rest: seq<seq<Packet>>, p: Packet)
    requires p.marker && (rest != [] ==> Ended(rest[|rest| - 1], [p]) && rest[|rest| - 1] != [])
    ensures NextSegment(Reopen(rest), p) == Segmentation(rest + [[p]], [])
  {
    assert [] + [p] == [p];
    if rest != [] {
      assert rest == rest[..|rest| - 1] + [rest[|rest| - 1]];
    }
  }

  lemma NoFrames(s: Segmentation)
    requires IsSegmentation([], s)
    ensures s == Segmentation([], [])
  {
  }

  /** The recorder's frames are the only ones the rules allow. */
  lemma {:induction false} SegmentationIsUnique(ps: seq<Packet>, s: Segmentation)
    requires IsSegmentation(ps, s)
    ensures s == Segment(ps)
  {
    if ps == [] {
      NoFrames(s);
    } else {
      var before := Undo(ps, s);
      SegmentationIsUnique(ps[..|ps| - 1], before);
    }
  }

  // ----- What one frame measures -----

  function Fresh(e: Epoch, p: Packet): Frame {
    var recvNs := RealtimeNs(e, p.received);
    Frame(p.rtpTs, recvNs, recvNs, p.forwardedNs, 0, None)
  }

  function Extend(e: Epoch, f: Frame, p: Packet): Frame {
    var recvNs := RealtimeNs(e, p.received);
    f.(lastRecvNs := Max(f.lastRecvNs, recvNs),
       firstRecvNs := Min(f.firstRecvNs, recvNs),
       forwardedNs := Max(f.forwardedNs, p.forwardedNs),
       bytes := f.bytes + p.bytes,
       times := if p.times.Some? then p.times else f.times)
  }

  function Summary(e: Epoch, g: seq<Packet>): Frame
    requires g != []
  {
    if |g| == 1 then Extend(e, Fresh(e, g[0]), g[0])
    else Extend(e, Summary(e, g[..|g| - 1]), g[|g| - 1])
  }

  function TotalBytes(g: seq<Packet>): nat {
    if g == [] then 0 else TotalBytes(g[..|g| - 1]) + g[|g| - 1].bytes
  }

  /** `lo` and `hi` are the first and the last arrival. */
  ghost predicate Arrivals(e: Epoch, g: seq<Packet>, lo: int, hi: int) {
    && (forall i :: 0 <= i < |g| ==> lo <= RealtimeNs(e, g[i].received) <= hi)
    && (exists i :: 0 <= i < |g| && RealtimeNs(e, g[i].received) == lo)
    && (exists i :: 0 <= i < |g| && RealtimeNs(e, g[i].received) == hi)
  }

  ghost predicate LatestForwarded(g: seq<Packet>, t: int) {
    && (forall i :: 0 <= i < |g| ==> g[i].forwardedNs <= t)
    && (exists i :: 0 <= i < |g| && g[i].forwardedNs == t)
  }

  /** The send times of the last packet that carries any. */
  ghost predicate LastTimes(g: seq<Packet>, times: Option<SendTimes>) {
    if times.None? then forall i :: 0 <= i < |g| ==> g[i].times.None?
    else exists k :: 0 <= k < |g| && g[k].times == times && forall i :: k < i < |g| ==> g[i].times.None?
  }

  /** What the figures of a frame say about its packets. */
  ghost predicate Measures(e: Epoch, f: Frame, g: seq<Packet>)
    requires g != []
  {
    && f.rtpTs == g[0].rtpTs
    && Arrivals(e, g, f.firstRecvNs, f.lastRecvNs)
    && LatestForwarded(g, f.forwardedNs)
    && f.bytes == TotalBytes(g)
    && LastTimes(g, f.times)
  }

  lemma ArrivalsExtend(e: Epoch, g: seq<Packet>, lo: int, hi: int, p: Packet, r: int)
    requires Arrivals(e, g, lo, hi) && r == RealtimeNs(e, p.received)
    ensures Arrivals(e, g + [p], Min(lo, r), Max(hi, r))
  {
    var h := g + [p];
    assert h[|g|] == p && forall i :: 0 <= i < |g| ==> h[i] == g[i];
    var first :| 0 <= first < |g| && RealtimeNs(e, g[first].received) == lo;
    var last :| 0 <= last < |g| && RealtimeNs(e, g[last].received) == hi;
    assert RealtimeNs(e, h[first].received) == lo && RealtimeNs(e, h[last].received) == hi;
    assert RealtimeNs(e, h[|g|].received) == r;
  }

  lemma ForwardedExtend(g: seq<Packet>, t: int, p: Packet)
    requires LatestForwarded(g, t)
    ensures LatestForwarded(g + [p], Max(t, p.forwardedNs))
  {
    var h := g + [p];
    assert h[|g|] == p && forall i :: 0 <= i < |g| ==> h[i] == g[i];
    var done :| 0 <= done < |g| && g[done].forwardedNs == t;
    assert h[done].forwardedNs == t;
  }

  lemma TimesExtend(g: seq<Packet>, times: Option<SendTimes>, p: Packet)
    requires LastTimes(g, times)
    ensures LastTimes(g + [p], if p.times.Some? then p.times else times)
  {
    var h := g + [p];
    assert h[|g|] == p && forall i :: 0 <= i < |g| ==> h[i] == g[i];
    if p.times.None? && times.Some? {
      var k :| 0 <= k < |g| && g[k].times == times && forall i :: k < i < |g| ==> g[i].times.None?;
      assert h[k].times == times;
    }
  }

  lemma MeasuresExtend(e: Epoch, f: Frame, g: seq<Packet>, p: Packet)
    requires g != [] && Measures(e, f, g)
    ensures Measures(e, Extend(e, f, p), g + [p])
  {
    assert (g + [p])[..|g|] == g;
    ArrivalsExtend(e, g, f.firstRecvNs, f.lastRecvNs, p, RealtimeNs(e, p.received));
    ForwardedExtend(g, f.forwardedNs, p);
    TimesExtend(g, f.times, p);
  }

  lemma MeasuresOne(e: Epoch, p: Packet)
    ensures Measures(e, Extend(e, Fresh(e, p), p), [p])
  {
    var f := Extend(e, Fresh(e, p), p);
    assert RealtimeNs(e, [p][0].received) == f.firstRecvNs == f.lastRecvNs;
    assert [p][0].forwardedNs == f.forwardedNs && [p][0].times == f.times;
    assert [p][..0] == [];
  }

  lemma {:induction false} SummaryMeasures(e: Epoch, g: seq<Packet>)
    requires g != []
    ensures Measures(e, Summary(e, g), g)
  {
    if |g| == 1 {
      MeasuresOne(e, g[0]);
      assert g == [g[0]];
    } else {
      var most, p := g[..|g| - 1], g[|g| - 1];
      SummaryMeasures(e, most);
      assert g == most + [p];
      MeasuresLonger(e, most, p);
    }
  }

  lemma MeasuresLonger(e: Epoch, most: seq<Packet>, p: Packet)
    requires most != [] && Measures(e, Summary(e, most), most)
    ensures Measures(e, Summary(e, most + [p]), most + [p])
  {
    MeasuresExtend(e, Summary(e, most), most, p);
    SummaryStep(e, most, p);
  }

  /** The sample a finished frame becomes. */
  function SampleOf(traceId: Bytes16, f: Frame): Sample {
    var (captureNs, sendNs) := if f.times.Some?
      then (WrapI64(f.times.value.captureNs), WrapI64(f.times.value.sendNs)) else (0, 0);
    Sample(TimingEnvelope(captureNs, sendNs, f.lastRecvNs, f.forwardedNs, f.rtpTs, Video, traceId),
      FrameSample, SITE_RELAY, Min(f.bytes, U32_MAX), SubI64(f.lastRecvNs, f.firstRecvNs))
  }

  /** What a sample must say of the packets `g`: all their bytes (to the 32 bits
      of the field), the latest arrival, the latest forwarding, a reassembly
      time that is the span of the arrivals modulo 2^64, and the send times of
      the last packet that carries any. */
  ghost predicate SampleMeasures(e: Epoch, traceId: Bytes16, g: seq<Packet>, s: Sample)
    requires g != []
  {
    && s.envelope.seqNo == g[0].rtpTs && s.envelope.modality == Video && s.envelope.traceId == traceId
    && s.kind == FrameSample && s.site == 3
    && s.payloadBytes == Min(TotalBytes(g), 0xFFFF_FFFF)
    && (forall lo, hi :: Arrivals(e, g, lo, hi) ==>
          s.envelope.recvNs == hi && s.auxNs == (if hi - lo <= I64_MAX then hi - lo else hi - lo - TWO_64))
    && LatestForwarded(g, s.envelope.processDoneNs)
    && (forall t :: LastTimes(g, t) ==>
          && s.envelope.captureNs == (if t.Some? then WrapI64(t.value.captureNs) else 0)
          && s.envelope.sendNs == (if t.Some? then WrapI64(t.value.sendNs) else 0))
  }

  lemma ArrivalsUnique(e: Epoch, g: seq<Packet>, lo: int, hi: int, lo': int, hi': int)
    requires Arrivals(e, g, lo, hi) && Arrivals(e, g, lo', hi')
    ensures lo == lo' && hi == hi'
  {
  }

  lemma TimesUnique(g: seq<Packet>, t: Option<SendTimes>, u: Option<SendTimes>)
    requires LastTimes(g, t) && LastTimes(g, u)
    ensures t == u
  {
    if t.Some? && u.Some? {
      var i :| 0 <= i < |g| && g[i].times == t && forall k :: i < k < |g| ==> g[k].times.None?;
      var j :| 0 <= j < |g| && g[j].times == u && forall k :: j < k < |g| ==> g[k].times.None?;
      assert i == j;
    }
  }

  /** The sample conserves the frame's measurement. Its span is non-negative
      precisely when it fits 64 bits, and forwarding never ends before arrival
      when the last packet to arrive was forwarded after it arrived. */
  lemma SampleConserves(e: Epoch, traceId: Bytes16, g: seq<Packet>)
    requires g != []
    ensures var s := SampleOf(traceId, Summary(e, g));
      && SampleMeasures(e, traceId, g, s)
      && (forall lo, hi :: Arrivals(e, g, lo, hi) ==> (0 <= s.auxNs <==> hi - lo <= I64_MAX))
      && ((exists i :: 0 <= i < |g| && RealtimeNs(e, g[i].received) == s.envelope.recvNs
            && RealtimeNs(e, g[i].received) <= g[i].forwardedNs)
          ==> s.envelope.recvNs <= s.envelope.processDoneNs)
  {
    SummaryMeasures(e, g);
    var f := Summary(e, g);
    forall lo, hi | Arrivals(e, g, lo, hi) ensures lo == f.firstRecvNs && hi == f.lastRecvNs {
      ArrivalsUnique(e, g, lo, hi, f.firstRecvNs, f.lastRecvNs);
    }
    forall t | LastTimes(g, t) ensures t == f.times {
      TimesUnique(g, t, f.times);
    }
  }

  // ----- The recorder: a map from SSRC to its pending frame -----

  function Stream(history: seq<Packet>, ssrc: u32): seq<Packet> {
    if history == [] then []
    else
      var p := history[|history| - 1];
      Stream(history[..|history| - 1], ssrc) + (if p.ssrc == ssrc then [p] else [])
  }

  /** A finished frame, as the packets it was made of. */
  datatype Finished = Finished(ssrc: u32, packets: seq<Packet>)

  function FramesOf(recorded: seq<Finished>, ssrc: u32): seq<seq<Packet>> {
    if recorded == [] then []
    else
      var r := recorded[|recorded| - 1];
      FramesOf(recorded[..|recorded| - 1], ssrc) + (if r.ssrc == ssrc then [r.packets] else [])
  }

  function SamplesOf(e: Epoch, traceId: Bytes16, recorded: seq<Finished>): seq<Sample>
    requires forall i :: 0 <= i < |recorded| ==> recorded[i].packets != []
  {
    if recorded == [] then []
    else
      var r := recorded[|recorded| - 1];
      SamplesOf(e, traceId, recorded[..|recorded| - 1]) + [SampleOf(traceId, Summary(e, r.packets))]
  }

  /** With a sender there is one sample for each finished frame, in order. */
  lemma {:induction false} SamplesMeasure(e: Epoch, traceId: Bytes16, recorded: seq<Finished>)
    requires forall i :: 0 <= i < |recorded| ==> recorded[i].packets != []
    ensures var samples := SamplesOf(e, traceId, recorded);
      && |samples| == |recorded|
      && forall i :: 0 <= i < |recorded| ==> SampleMeasures(e, traceId, recorded[i].packets, samples[i])
  {
    if recorded != [] {
      var most, last := recorded[..|recorded| - 1], recorded[|recorded| - 1];
      SamplesMeasure(e, traceId, most);
      SampleConserves(e, traceId, last.packets);
      forall i | 0 <= i < |recorded|
        ensures SampleMeasures(e, traceId, recorded[i].packets, SamplesOf(e, traceId, recorded)[i])
      {
        if i < |most| {
          assert recorded[i] == most[i];
        }
      }
    }
  }

  /** One SSRC's share of the recorder's state: its finished frames and its
      pending one are the segmentation of its own packets, whatever the other
      SSRCs sent in between. */
  ghost predicate StreamHolds(e: Epoch, frames: map<u32, Frame>, recorded: seq<Finished>,
                              history: seq<Packet>, ssrc: u32)
  {
    var seg := Segment(Stream(history, ssrc));
    && FramesOf(recorded, ssrc) == seg.closed
    && (if seg.pending == [] then ssrc !in frames
        else ssrc in frames && frames[ssrc] == Summary(e, seg.pending))
  }

  ghost predicate Refines(e: Epoch, frames: map<u32, Frame>, recorded: seq<Finished>, history: seq<Packet>) {
    forall ssrc: u32 :: StreamHolds(e, frames, recorded, history, ssrc)
  }

  lemma StreamStep(history: seq<Packet>, p: Packet, ssrc: u32)
    ensures Stream(history + [p], ssrc) == Stream(history, ssrc) + (if p.ssrc == ssrc then [p] else [])
  {
    assert (history + [p])[..|history|] == history;
  }

  lemma RecordedStep(recorded: seq<Finished>, r: Finished, ssrc: u32)
    ensures FramesOf(recorded + [r], ssrc)
         == FramesOf(recorded, ssrc) + (if r.ssrc == ssrc then [r.packets] else [])
  {
    assert (recorded + [r])[..|recorded|] == recorded;
  }

  function RestWith(s: Segmentation, p: Packet): seq<Packet> {
    (if CutsOff(s, p) then [] else s.pending) + [p]
  }

  /** The frames finished once packet `p` is seen: the one its timestamp cuts
      off, and its own when it is marked. */
  function Recorded(recorded: seq<Finished>, s: Segmentation, p: Packet): seq<Finished> {
    var mid := if CutsOff(s, p) then recorded + [Finished(p.ssrc, s.pending)] else recorded;
    if p.marker then mid + [Finished(p.ssrc, RestWith(s, p))] else mid
  }

  lemma FinishedStep(recorded: seq<Finished>, s: Segmentation, p: Packet, ssrc: u32)
    ensures ssrc != p.ssrc ==> FramesOf(Recorded(recorded, s, p), ssrc) == FramesOf(recorded, ssrc)
    ensures ssrc == p.ssrc && FramesOf(recorded, ssrc) == s.closed
      ==> FramesOf(Recorded(recorded, s, p), ssrc) == NextSegment(s, p).closed
  {
    var mid := if CutsOff(s, p) then recorded + [Finished(p.ssrc, s.pending)] else recorded;
    if CutsOff(s, p) {
      RecordedStep(recorded, Finished(p.ssrc, s.pending), ssrc);
    }
    if p.marker {
      RecordedStep(mid, Finished(p.ssrc, RestWith(s, p)), ssrc);
    }
  }

  /** What one packet must do to the map: the entries of other SSRCs stay, and
      its own holds the new pending frame, if there is one. */
  ghost predicate MapStep(e: Epoch, frames: map<u32, Frame>, frames': map<u32, Frame>,
                          p: Packet, pending: seq<Packet>)
  {
    && (forall ssrc: u32 :: ssrc != p.ssrc ==>
          (ssrc in frames' <==> ssrc in frames) && (ssrc in frames ==> frames'[ssrc] == frames[ssrc]))
    && (if pending == [] then p.ssrc !in frames' else p.ssrc in frames' && frames'[p.ssrc] == Summary(e, pending))
  }

  /** The map's entry for an SSRC is its pending frame. */
  lemma OwnFrame(e: Epoch, frames: map<u32, Frame>, recorded: seq<Finished>, history: seq<Packet>, ssrc: u32)
    requires Refines(e, frames, recorded, history)
    ensures var g := Segment(Stream(history, ssrc)).pending;
      if g == [] then ssrc !in frames
      else ssrc in frames && frames[ssrc] == Summary(e, g) && frames[ssrc].rtpTs == g[0].rtpTs
  {
    assert StreamHolds(e, frames, recorded, history, ssrc);
    var g := Segment(Stream(history, ssrc)).pending;
    if g != [] {
      SummaryTimestamp(e, g);
    }
  }

  lemma PacketRefines(e: Epoch, frames: map<u32, Frame>, recorded: seq<Finished>, history: seq<Packet>,
                      p: Packet, frames': map<u32, Frame>)
    requires Refines(e, frames, recorded, history)
    requires MapStep(e, frames, frames', p, NextSegment(Segment(Stream(history, p.ssrc)), p).pending)
    ensures Refines(e, frames', Recorded(recorded, Segment(Stream(history, p.ssrc)), p), history + [p])
  {
    var seg := Segment(Stream(history, p.ssrc));
    forall ssrc: u32 ensures StreamHolds(e, frames', Recorded(recorded, seg, p), history + [p], ssrc) {
      assert StreamHolds(e, frames, recorded, history, ssrc);
      StreamStep(history, p, ssrc);
      FinishedStep(recorded, seg, p, ssrc);
      if ssrc == p.ssrc {
        SegmentStep(Stream(history, ssrc), p);
      } else {
        assert Stream(history + [p], ssrc) == Stream(history, ssrc);
      }
    }
  }

  /** Adding a packet to the pending frame's figures. */
  lemma SummaryStep(e: Epoch, g: seq<Packet>, p: Packet)
    ensures Summary(e, g + [p]) == Extend(e, if g == [] then Fresh(e, p) else Summary(e, g), p)
  {
    assert (g + [p])[..|g|] == g;
  }

  lemma SummaryTimestamp(e: Epoch, g: seq<Packet>)
    requires g != []
    ensures Summary(e, g).rtpTs == g[0].rtpTs
  {
    SummaryMeasures(e, g);
  }

  class FrameRecorder {
    const epoch: Epoch
    const traceId: Bytes16
    const hasSender: bool
    var frames: map<u32, Frame>
    var framesRecorded: nat
    /** What `try_record` was handed. */
    var samples: seq<Sample>
    ghost var history: seq<Packet>
    ghost var recorded: seq<Finished>

    /** Finished frames were counted, and handed on when there is a sender. */
    ghost predicate Counted()
      reads this
    {
      && framesRecorded == |recorded|
      && (forall i :: 0 <= i < |recorded| ==> recorded[i].packets != [])
      && samples == (if hasSender then SamplesOf(epoch, traceId, recorded) else [])
    }

    ghost predicate Valid()
      reads this
    {
      Counted() && Refines(epoch, frames, recorded, history)
    }

    constructor (sender: bool, traceId: Bytes16, epoch: Epoch)
      ensures Valid() && history == [] && recorded == []
      ensures this.epoch == epoch && this.traceId == traceId && hasSender == sender
    {
      this.epoch, this.traceId, hasSender := epoch, traceId, sender;
      frames, framesRecorded, samples := map[], 0, [];
      history, recorded := [], [];
    }

    method Record(f: Frame, ghost r: Finished)
      requires Counted() && r.packets != [] && f == Summary(epoch, r.packets)
      modifies this`framesRecorded, this`samples, this`recorded
      ensures Counted() && recorded == old(recorded) + [r]
      ensures samples == old(samples) + (if hasSender then [SampleOf(traceId, f)] else [])
    {
      framesRecorded := framesRecorded + 1;
      recorded := recorded + [r];
      assert recorded[..|recorded| - 1] == old(recorded);
      if hasSender {
        samples := samples + [SampleOf(traceId, f)];
      }
    }

    /** One forwarded video packet. */
    method Packet(p: Packet)
      requires Valid()
      modifies this
      ensures Valid() && history == old(history) + [p]
      ensures recorded == Recorded(old(recorded), Segment(Stream(old(history), p.ssrc)), p)
    {
      ghost var before := Segment(Stream(history, p.ssrc));
      ghost var pending, was := before.pending, frames;
      OwnFrame(epoch, frames, recorded, history, p.ssrc);
      // The pending frame never saw its marked packet; another one has begun.
      if p.ssrc in frames && frames[p.ssrc].rtpTs != p.rtpTs {
        Record(frames[p.ssrc], Finished(p.ssrc, pending));
        frames := frames - {p.ssrc};
        pending := [];
      }
      SummaryStep(epoch, pending, p);
      var f := Extend(epoch, if p.ssrc in frames then frames[p.ssrc] else Fresh(epoch, p), p);
      frames := frames[p.ssrc := f];
      pending := pending + [p];
      assert pending == RestWith(before, p) && f == Summary(epoch, pending);
      if p.marker {
        frames := frames - {p.ssrc};
        Record(f, Finished(p.ssrc, pending));
      }
      assert recorded == Recorded(old(recorded), before, p);
      assert NextSegment(before, p).pending == if p.marker then [] else pending;
      PacketRefines(epoch, was, old(recorded), history, p, frames);
      history := history + [p];
    }
  }
}
