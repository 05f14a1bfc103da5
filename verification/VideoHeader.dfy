/**
 The ROS header of a video frame, from the sender's image to the receiver's message: the stamp travels
 as a frame timestamp in microseconds, the frame_id as the frame's user data.
 */
module VideoHeader {
  import opened Optional

  type Byte = b: int | 0 <= b < 256
  type Int32 = x: int | -0x8000_0000 <= x < 0x8000_0000
  type UInt32 = x: int | 0 <= x < 0x1_0000_0000
  type Int64 = x: int | -0x8000_0000_0000_0000 <= x < 0x8000_0000_0000_0000
  type UInt64 = x: int | 0 <= x < 0x1_0000_0000_0000_0000

  type FrameId = seq<Byte>

  const FRAME_ID_VERSION: Byte := 0x01
  const MAX_FRAME_ID_LENGTH := 255

  datatype Time = Time(sec: Int32, nanosec: UInt32)

  datatype Header = Header(stamp: Time, frameId: FrameId)

  datatype FrameStamp = FrameStamp(timestampUs: Int64, frameId: Option<FrameId>)

  datatype Metadata = Metadata(userTimestampUs: Option<UInt64>, userData: Option<seq<Byte>>)

  function Nanoseconds(t: Time): int {
    t.sec * 1_000_000_000 + t.nanosec
  }

  // ---------------------------------------------------------------------------
  // Sender
  // ---------------------------------------------------------------------------

  /** makeVideoFrameStamp; the sum stays inside 64 bits. */
  function MakeFrameStamp(header: Header): FrameStamp {
    var sec: int := header.stamp.sec;
    FrameStamp(sec * 1_000_000 + header.stamp.nanosec / 1_000,
               if |header.frameId| <= MAX_FRAME_ID_LENGTH then Some(header.frameId) else None)
  }

  function EncodeFrameId(frameId: FrameId): Option<seq<Byte>> {
    if |frameId| > MAX_FRAME_ID_LENGTH then None else Some([FRAME_ID_VERSION] + frameId)
  }

  /** A fresh encoding of a stamp's optional frame_id. */
  function UserData(frameId: Option<FrameId>): Option<seq<Byte>> {
    if frameId.Some? then EncodeFrameId(frameId.value) else None
  }

  function SentMetadata(stamp: FrameStamp): Metadata {
    Metadata(if stamp.timestampUs >= 0 then Some(stamp.timestampUs) else None, UserData(stamp.frameId))
  }

  /** One call of capture_frame. */
  datatype Call<F> = Call(enabled: bool, frame: F, stamp: FrameStamp)

  /** What the video source is given. */
  datatype Captured<F> = Captured(frame: F, timestampUs: Int64, metadata: Metadata)

  /** What a sequence of calls must hand over: the enabled ones, in order, each with metadata of its own. */
  function Handed<F>(calls: seq<Call<F>>): seq<Captured<F>> {
    if calls == [] then []
    else
      var before, last := Handed(calls[..|calls| - 1]), calls[|calls| - 1];
      if last.enabled then before + [Captured(last.frame, last.stamp.timestampUs, SentMetadata(last.stamp))] else before
  }

  /** What the closure keeps from frame to frame: the frame_id it saw last and the metadata it reuses. */
  datatype Cache = Cache(lastFrameId: Option<FrameId>, metadata: Metadata)

  const EMPTY_CACHE := Cache(None, Metadata(None, None))

  /** One call: the time always, the user data only when the frame_id differs from the one before. */
  function CacheAfter<F>(cache: Cache, call: Call<F>): Cache {
    if !call.enabled then cache
    else
      var us := if call.stamp.timestampUs >= 0 then Some(call.stamp.timestampUs) else None;
      if call.stamp.frameId != cache.lastFrameId then
        Cache(call.stamp.frameId, Metadata(us, UserData(call.stamp.frameId)))
      else
        cache.(metadata := cache.metadata.(userTimestampUs := us))
  }

  function CacheAfterAll<F>(calls: seq<Call<F>>): Cache {
    if calls == [] then EMPTY_CACHE else CacheAfter(CacheAfterAll(calls[..|calls| - 1]), calls[|calls| - 1])
  }

  /** What a sequence of calls does hand over: the enabled frames with whatever metadata the cache holds by then. */
  function HandedFromCache<F>(calls: seq<Call<F>>): seq<Captured<F>> {
    if calls == [] then []
    else
      var before, last := HandedFromCache(calls[..|calls| - 1]), calls[|calls| - 1];
      if last.enabled then before + [Captured(last.frame, last.stamp.timestampUs, CacheAfterAll(calls).metadata)]
          else before
  }

  /** The cached user data encodes the cached frame_id. */
  predicate CacheIsSound(cache: Cache) {
    cache.metadata.userData == UserData(cache.lastFrameId)
  }

  /** From a sound cache a call leaves a sound one, and an enabled call leaves the metadata of its own stamp. */
  lemma CacheStep<F>(cache: Cache, call: Call<F>)
    requires CacheIsSound(cache)
    ensures CacheIsSound(CacheAfter(cache, call))
    ensures call.enabled ==> CacheAfter(cache, call).metadata == SentMetadata(call.stamp)
  {
  }

  lemma {:induction false} CacheStaysSound<F>(calls: seq<Call<F>>)
    ensures CacheIsSound(CacheAfterAll(calls))
  {
    if calls != [] {
      CacheStaysSound(calls[..|calls| - 1]);
      CacheStep(CacheAfterAll(calls[..|calls| - 1]), calls[|calls| - 1]);
    }
  }

  /**
   For every sequence of calls the cache is never stale: each frame goes out with a fresh encoding of its own
   stamp.
   */
  lemma {:induction false} CacheIsNeverStale<F>(calls: seq<Call<F>>)
    ensures HandedFromCache(calls) == Handed(calls)
  {
    if calls != [] {
      var before := calls[..|calls| - 1];
      CacheIsNeverStale(before);
      CacheStaysSound(before);
      CacheStep(CacheAfterAll(before), calls[|calls| - 1]);
    }
  }

  lemma PushCall<F>(calls: seq<Call<F>>, call: Call<F>)
    ensures CacheAfterAll(calls + [call]) == CacheAfter(CacheAfterAll(calls), call)
    ensures
      HandedFromCache(calls + [call]) == HandedFromCache(calls) +
      if call.enabled then [Captured(call.frame, call.stamp.timestampUs, CacheAfterAll(calls + [call]).metadata)]
          else []
  {
    assert (calls + [call])[..|calls|] == calls;
  }

  /** The capture_frame closure with the state it keeps between frames; `captured` stands for the video source. */
  class FrameSink<F> {
    var timestampUs: Int64
    var metadata: Metadata
    var lastFrameId: Option<FrameId>
    var captured: seq<Captured<F>>
    ghost var calls: seq<Call<F>>

    /** Cache and source are what the calls so far have made them. */
    ghost predicate Valid()
      reads this
    {
      Cache(lastFrameId, metadata) == CacheAfterAll(calls) && captured == HandedFromCache(calls)
    }

    constructor ()
      ensures Valid() && calls == [] && captured == []
    {
      timestampUs := 0;
      metadata := Metadata(None, None);
      lastFrameId := None;
      captured := [];
      calls := [];
    }

    method CaptureFrame(operationsEnabled: bool, frame: F, stamp: FrameStamp)
      requires Valid()
      modifies this
      ensures Valid()
      ensures calls == old(calls) + [Call(operationsEnabled, frame, stamp)]
      ensures captured == Handed(calls)
      ensures operationsEnabled ==>
                metadata == SentMetadata(stamp) && captured
                    == old(captured) + [Captured(frame, stamp.timestampUs, metadata)]
      ensures !operationsEnabled ==>
                metadata == old(metadata) && lastFrameId == old(lastFrameId) && captured == old(captured)
    {
      ghost var call := Call(operationsEnabled, frame, stamp);
      PushCall(calls, call);
      CacheIsNeverStale(calls + [call]);
      CacheStaysSound(calls);
      CacheStep(CacheAfterAll(calls), call);
      calls := calls + [call];
      if !operationsEnabled {
        return;
      }
      timestampUs := stamp.timestampUs;
      metadata := metadata.(userTimestampUs := if stamp.timestampUs >= 0 then Some(stamp.timestampUs) else None);
      if stamp.frameId != lastFrameId {
        lastFrameId := stamp.frameId;
        metadata := metadata.(userData := if stamp.frameId.Some? then EncodeFrameId(stamp.frameId.value) else None);
      }
      captured := captured + [Captured(frame, timestampUs, metadata)];
    }
  }

  // ---------------------------------------------------------------------------
  // Receiver
  // ---------------------------------------------------------------------------

  function DecodeFrameId(userData: seq<Byte>): Option<FrameId> {
    if |userData| == 0 || userData[0] != FRAME_ID_VERSION || |userData| - 1 > MAX_FRAME_ID_LENGTH then None
    else Some(userData[1..])
  }

  function ToRosTime(timestampUs: UInt64): Option<Time> {
    var seconds := timestampUs / 1_000_000;
    if seconds > 0x7FFF_FFFF then None else Some(Time(seconds, timestampUs % 1_000_000 * 1_000))
  }

  function SenderStamp(metadata: Option<Metadata>): Option<Time> {
    if metadata.Some? && metadata.value.userTimestampUs.Some? then ToRosTime(metadata.value.userTimestampUs.value)
        else None
  }

  function SenderFrameId(metadata: Option<Metadata>): Option<FrameId> {
    if metadata.Some? && metadata.value.userData.Some? then DecodeFrameId(metadata.value.userData.value) else None
  }

  /** The header a receiver publishes; `now` is its ROS clock. */
  function Received(metadata: Option<Metadata>, now: Time, fallback: FrameId): Header {
    Header(if SenderStamp(metadata).Some? then SenderStamp(metadata).value else now,
           if SenderFrameId(metadata).Some? then SenderFrameId(metadata).value else fallback)
  }

  class InboundVideoTrack {
    const fallbackFrameId: FrameId
    var header: Header
    var stampFallbacks: nat
    var stampFallbackLogged: bool

    constructor (fallbackFrameId: FrameId, header: Header)
      ensures this.fallbackFrameId == fallbackFrameId && this.header == header
      ensures stampFallbacks == 0 && !stampFallbackLogged
    {
      this.fallbackFrameId := fallbackFrameId;
      this.header := header;
      stampFallbacks := 0;
      stampFallbackLogged := false;
    }

    /** Overwrites the whole header of the reused message; `warn` says whether this frame was the first to log. */
    method FillHeader(metadata: Option<Metadata>, now: Time) returns (warn: bool)
      modifies this
      ensures header == Received(metadata, now, fallbackFrameId)
      ensures metadata.None? ==> header == Header(now, fallbackFrameId)
      ensures metadata.Some? && metadata.value.userTimestampUs.None? ==> header.stamp == now
      ensures metadata.Some? && metadata.value.userData.None? ==> header.frameId == fallbackFrameId
      ensures stampFallbacks == old(stampFallbacks) + if SenderStamp(metadata).None? then 1 else 0
      ensures stampFallbackLogged <==> old(stampFallbackLogged) || SenderStamp(metadata).None?
      ensures warn <==> SenderStamp(metadata).None? && !old(stampFallbackLogged)
    {
      warn := false;
      var senderStamp := None;
      if metadata.Some? && metadata.value.userTimestampUs.Some? {
        senderStamp := ToRosTime(metadata.value.userTimestampUs.value);
      }
      if senderStamp.Some? {
        header := header.(stamp := senderStamp.value);
      } else {
        header := header.(stamp := now);
        stampFallbacks := stampFallbacks + 1;
        if !stampFallbackLogged {
          stampFallbackLogged := true;
          warn := true;
        }
      }
      var senderFrameId := None;
      if metadata.Some? && metadata.value.userData.Some? {
        senderFrameId := DecodeFrameId(metadata.value.userData.value);
      }
      if senderFrameId.Some? {
        header := header.(frameId := senderFrameId.value);
      } else {
        header := header.(frameId := fallbackFrameId);
      }
    }
  }

  // ---------------------------------------------------------------------------
  // End to end
  // ---------------------------------------------------------------------------

  /** The receiver decodes exactly what some frame_id encodes to, and decodes it to that frame_id. */
  lemma DecodeInvertsEncode(userData: seq<Byte>, frameId: FrameId)
    ensures EncodeFrameId(frameId) == Some(userData) <==> DecodeFrameId(userData) == Some(frameId)
  {
    if DecodeFrameId(userData) == Some(frameId) {
      assert userData == [userData[0]] + userData[1..];
    }
    if EncodeFrameId(frameId) == Some(userData) {
      assert userData[1..] == frameId;
    }
  }

  /** On the wire a frame_id of at most 255 bytes follows a byte 1; a longer one is not sent. */
  lemma FrameIdFormat(frameId: FrameId)
    ensures EncodeFrameId(frameId) == if |frameId| <= 255 then Some([1 as Byte] + frameId) else None
  {
  }

  /** What the receiver cannot know it fills in: its own clock for a missing or unusable time, its frame_id likewise. */
  lemma FallbacksExactly(metadata: Option<Metadata>, now: Time, fallback: FrameId)
    ensures
      var sent := metadata.Some? && metadata.value.userTimestampUs.Some?;
      var us: int := if sent then metadata.value.userTimestampUs.value else 0;
      var r := Received(metadata, now, fallback);
      if sent && us < 0x8000_0000 * 1_000_000 then
        Nanoseconds(r.stamp) == us * 1_000 && r.stamp.nanosec < 1_000_000_000
      else r.stamp == now
    ensures
      var sent := metadata.Some? && metadata.value.userData.Some?;
      var data: seq<Byte> := if sent then metadata.value.userData.value else [];
      Received(metadata, now, fallback).frameId ==
      if sent && 1 <= |data| <= 256 && data[0] == 1 then data[1..] else fallback
  {
    if metadata.Some? && metadata.value.userTimestampUs.Some? {
      RosTimeIsMicroseconds(metadata.value.userTimestampUs.value);
    }
  }

  /** A sent stamp is the header's time in whole microseconds, rounded towards the past, with a frame_id that fits. */
  lemma StampIsMicroseconds(header: Header)
    ensures
      var us: int := MakeFrameStamp(header).timestampUs;
      us * 1_000 <= Nanoseconds(header.stamp) < us * 1_000 + 1_000
    ensures MakeFrameStamp(header).frameId == if |header.frameId| <= 255 then Some(header.frameId) else None
  {
  }

  /** toRosTime succeeds exactly up to the last second that fits, and gives back the same microseconds. */
  lemma RosTimeIsMicroseconds(us: UInt64)
    ensures ToRosTime(us).Some? <==> us < 0x8000_0000 * 1_000_000
    ensures ToRosTime(us).Some? ==>
              Nanoseconds(ToRosTime(us).value) == us * 1_000 && ToRosTime(us).value.nanosec < 1_000_000_000
  {
  }

  /**
   The stamp survives exactly when the header's time is neither before the epoch nor past the last
   second that fits, and then loses only what is less than a microsecond.
   */
  lemma StampRestoredIff(header: Header)
    ensures
      var restored := SenderStamp(Some(SentMetadata(MakeFrameStamp(header))));
      && (restored.Some? <==> 0 <= Nanoseconds(header.stamp) < 0x8000_0000 * 1_000_000_000)
      && (restored.Some? ==>
            Nanoseconds(restored.value) <= Nanoseconds(header.stamp) < Nanoseconds(restored.value) + 1_000)
      && (restored.Some? ==> restored.value.nanosec < 1_000_000_000 && Nanoseconds(restored.value) % 1_000 == 0)
  {
    var stamp := MakeFrameStamp(header);
    StampIsMicroseconds(header);
    SameRange(Nanoseconds(header.stamp), stamp.timestampUs);
    SentStamp(stamp);
    if stamp.timestampUs >= 0 {
      RosTimeIsMicroseconds(stamp.timestampUs);
    }
  }

  lemma SentStamp(stamp: FrameStamp)
    ensures SenderStamp(Some(SentMetadata(stamp))) == if stamp.timestampUs >= 0 then ToRosTime(stamp.timestampUs)
        else None
  {
  }

  /** Rounding to microseconds keeps a time on its side of both ends of the range. */
  lemma SameRange(ns: int, us: int)
    requires us * 1_000 <= ns < us * 1_000 + 1_000
    ensures 0 <= ns <==> 0 <= us
    ensures ns < 0x8000_0000 * 1_000_000_000 <==> us < 0x8000_0000 * 1_000_000
    ensures us * 1_000 % 1_000 == 0
  {
  }

  /**
   For a header with a well-formed stamp (nanoseconds below one second) the receiver restores the stamp,
   cut to whole microseconds, when the seconds are not negative and takes its own clock otherwise; it
   restores the frame_id when it has at most 255 bytes and takes its fallback otherwise.
   */
  lemma HeaderEndToEnd(header: Header, now: Time, fallback: FrameId)
    requires header.stamp.nanosec < 1_000_000_000
    ensures
      Received(Some(SentMetadata(MakeFrameStamp(header))), now, fallback) ==
      Header(if header.stamp.sec >= 0 then Time(header.stamp.sec, header.stamp.nanosec / 1_000 * 1_000) else now,
             if |header.frameId| <= 255 then header.frameId else fallback)
  {
    WellFormedStamp(header);
    if |header.frameId| <= MAX_FRAME_ID_LENGTH {
      DecodeInvertsEncode([FRAME_ID_VERSION] + header.frameId, header.frameId);
    }
  }

  lemma WellFormedStamp(header: Header)
    requires header.stamp.nanosec < 1_000_000_000
    ensures
      SenderStamp(Some(SentMetadata(MakeFrameStamp(header)))) ==
      if header.stamp.sec >= 0 then Some(Time(header.stamp.sec, header.stamp.nanosec / 1_000 * 1_000)) else None
  {
    SplitSeconds(header.stamp.sec, header.stamp.nanosec / 1_000);
  }

  lemma SplitSeconds(sec: int, micros: int)
    requires 0 <= micros < 1_000_000
    ensures (sec * 1_000_000 + micros) / 1_000_000 == sec && (sec * 1_000_000 + micros) % 1_000_000 == micros
  {
  }

  /** Negative seconds are restored when the nanoseconds carry the time past the epoch. */
  lemma NegativeSecondsRestored()
    ensures SenderStamp(Some(SentMetadata(MakeFrameStamp(Header(Time(-1, 1_500_000_000), [])))))
        == Some(Time(0, 500_000_000))
  {
  }
}
