/**
  The station relay: a chunked reader, the pump that separates audio from interleaved ICY metadata, and the bounded
  cache of observed titles. Output is proved to depend on the bytes only, not on how the transport splits them.
 */
module IcyRelay {
  import opened Common
  import opened IcyTitle

  const USIZE_MAX: nat := 0xFFFF_FFFF_FFFF_FFFF
  const READ_LIMIT: nat := 16 * 1024
  const TITLE_CAPACITY: nat := 1024

  // ---------------------------------------------------------------------------------------------
  // The stream format

  /** What the pump forwards of `s` when `remaining` audio bytes precede the next length byte. */
  function Demux(s: seq<Byte>, metaint: nat, remaining: nat, icy: bool): seq<Byte>
    requires metaint > 0
    decreases |s|, 1
  {
    if |s| <= remaining then s else s[..remaining] + FromBlock(s[remaining..], metaint, icy)
  }

  /** The same from a length byte on: a block is forwarded whole, dropped whole, or cut off by the end of input. */
  function FromBlock(s: seq<Byte>, metaint: nat, icy: bool): seq<Byte>
    requires metaint > 0
    decreases |s|, 0
  {
    if s == [] || |s| < BlockSize(s[0]) then []
    else (if icy then s[..BlockSize(s[0])] else []) + Demux(s[BlockSize(s[0])..], metaint, metaint, icy)
  }

  /** The length byte and sixteen times as many bytes as it says. */
  function BlockSize(units: Byte): nat {
    1 + units as nat * 16
  }

  /** The titles of the whole blocks of `s`, in order. */
  function Titles(s: seq<Byte>, metaint: nat, remaining: nat): seq<seq<Byte>>
    requires metaint > 0
    decreases |s|, 1
  {
    if |s| <= remaining then [] else TitlesFromBlock(s[remaining..], metaint)
  }

  function TitlesFromBlock(s: seq<Byte>, metaint: nat): seq<seq<Byte>>
    requires metaint > 0
    decreases |s|, 0
  {
    if s == [] || |s| < BlockSize(s[0]) then []
    else TitleOf(s[1..BlockSize(s[0])]) + Titles(s[BlockSize(s[0])..], metaint, metaint)
  }

  /** The title of one block, if it carries one. */
  function TitleOf(block: seq<Byte>): seq<seq<Byte>> {
    match RawTitle(block)
    case None => []
    case Some(title) => [title]
  }

  lemma TitlesSkipAudio(s: seq<Byte>, metaint: nat, remaining: nat, k: nat)
    requires metaint > 0 && k <= remaining && k <= |s|
    ensures Titles(s, metaint, remaining) == Titles(s[k..], metaint, remaining - k)
  {
    if |s| > remaining {
      assert s[k..][remaining - k..] == s[remaining..];
    }
  }

  /** One audio run followed by a metadata block of sixteen times `units` bytes. */
  datatype Segment = Segment(audio: seq<Byte>, units: Byte, block: seq<Byte>)

  ghost predicate WellFormed(segments: seq<Segment>, metaint: nat) {
    forall i :: 0 <= i < |segments| ==> |segments[i].audio| == metaint && |segments[i].block| == segments[i].units as nat * 16
  }

  function Interleaved(segments: seq<Segment>): seq<Byte> {
    if segments == [] then []
    else segments[0].audio + [segments[0].units] + segments[0].block + Interleaved(segments[1..])
  }

  function Audio(segments: seq<Segment>): seq<Byte> {
    if segments == [] then [] else segments[0].audio + Audio(segments[1..])
  }

  lemma Regroup(a: seq<Byte>, b: seq<Byte>, c: seq<Byte>)
    ensures (a + b) + c == a + (b + c)
  {
  }

  lemma Regroup4(a: seq<Byte>, b: seq<Byte>, c: seq<Byte>, d: seq<Byte>)
    ensures a + b + c + d == a + (b + (c + d))
  {
    Regroup(a + b, c, d);
    Regroup(a, b, c + d);
  }

  /** Forwarding audio can be cut anywhere, which is why transport chunks do not matter. */
  lemma AudioSplits(s: seq<Byte>, metaint: nat, remaining: nat, icy: bool, k: nat)
    requires metaint > 0 && k <= remaining && k <= |s|
    ensures Demux(s, metaint, remaining, icy) == s[..k] + Demux(s[k..], metaint, remaining - k, icy)
  {
    var t := s[k..];
    if |s| <= remaining {
      assert s == s[..k] + t;
    } else {
      assert t[remaining - k..] == s[remaining..];
      assert s[..remaining] == s[..k] + t[..remaining - k];
      Regroup(s[..k], t[..remaining - k], FromBlock(s[remaining..], metaint, icy));
    }
  }

  /** The input ends inside a block: the audio before it is forwarded and the rest of the block is not. */
  lemma CutOffIsPrefix(s: seq<Byte>, metaint: nat, remaining: nat)
    requires metaint > 0 && |s| > remaining && |s| - remaining < BlockSize(s[remaining])
    ensures Demux(s, metaint, remaining, true) == s[..remaining]
  {
    assert s[remaining..][0] == s[remaining];
    assert s[..remaining] + [] == s[..remaining];
  }

  /** A whole block: audio, block and whatever is forwarded of the rest. */
  lemma WholeBlockIsPrefix(s: seq<Byte>, metaint: nat, remaining: nat, size: nat)
    requires metaint > 0 && |s| > remaining && size == BlockSize(s[remaining]) && size <= |s| - remaining
    ensures Demux(s, metaint, remaining, true)
            == s[..remaining] + (s[remaining..remaining + size] + Demux(s[remaining + size..], metaint, metaint, true))
  {
    var t := s[remaining..];
    assert t[0] == s[remaining];
    assert t[..size] == s[remaining..remaining + size] && t[size..] == s[remaining + size..];
  }

  /** Forwarded with metadata, the output is a byte-exact prefix that lacks at most one unfinished metadata block. */
  lemma {:induction false} IcyOutputIsPrefix(s: seq<Byte>, metaint: nat, remaining: nat)
    requires metaint > 0
    ensures Demux(s, metaint, remaining, true) <= s
    ensures |s| - |Demux(s, metaint, remaining, true)| <= 16 * 255
    decreases |s|
  {
    if |s| > remaining {
      var size := BlockSize(s[remaining]);
      if |s| - remaining < size {
        CutOffIsPrefix(s, metaint, remaining);
      } else {
        var rest := s[remaining + size..];
        IcyOutputIsPrefix(rest, metaint, metaint);
        WholeBlockIsPrefix(s, metaint, remaining, size);
        assert s == s[..remaining] + (s[remaining..remaining + size] + rest);
      }
    }
  }

  /** One whole segment. */
  lemma SegmentDemuxes(g: Segment, rest: seq<Byte>, metaint: nat, icy: bool)
    requires metaint > 0 && |g.audio| == metaint && |g.block| == g.units as nat * 16
    ensures Demux(g.audio + ([g.units] + g.block + rest), metaint, metaint, icy)
            == g.audio + ((if icy then [g.units] + g.block else []) + Demux(rest, metaint, metaint, icy))
  {
    var t := [g.units] + g.block + rest;
    var s := g.audio + t;
    assert s[..metaint] == g.audio && s[metaint..] == t;
    assert t[..BlockSize(t[0])] == [g.units] + g.block && t[BlockSize(t[0])..] == rest;
  }

  /** What is forwarded of whole segments. */
  function Kept(segments: seq<Segment>, icy: bool): seq<Byte> {
    if icy then Interleaved(segments) else Audio(segments)
  }

  lemma {:induction false} SegmentsDemux(segments: seq<Segment>, tail: seq<Byte>, metaint: nat, icy: bool)
    requires metaint > 0 && WellFormed(segments, metaint) && |tail| <= metaint
    ensures Demux(Interleaved(segments) + tail, metaint, metaint, icy) == Kept(segments, icy) + tail
  {
    if segments == [] {
      assert Interleaved(segments) + tail == tail && Kept(segments, icy) + tail == tail;
    } else {
      var g := segments[0];
      var rest := Interleaved(segments[1..]) + tail;
      var shown := if icy then [g.units] + g.block else [];
      SegmentsDemux(segments[1..], tail, metaint, icy);
      SegmentDemuxes(g, rest, metaint, icy);
      Regroup4(g.audio, [g.units] + g.block, Interleaved(segments[1..]), tail);
      Regroup(g.audio, [g.units], g.block);
      Regroup4(g.audio, shown, Kept(segments[1..], icy), tail);
      assert !icy ==> g.audio + shown == g.audio;
    }
  }

  /**
    Every well-formed ICY stream demultiplexes back into its parts: without metadata the output is exactly the audio of
    all segments and the last partial run; with metadata it is the stream itself.
   */
  lemma {:induction false} DemuxInvertsInterleaving(segments: seq<Segment>, tail: seq<Byte>, metaint: nat)
    requires metaint > 0 && WellFormed(segments, metaint) && |tail| <= metaint
    ensures Demux(Interleaved(segments) + tail, metaint, metaint, false) == Audio(segments) + tail
    ensures Demux(Interleaved(segments) + tail, metaint, metaint, true) == Interleaved(segments) + tail
  {
    SegmentsDemux(segments, tail, metaint, false);
    SegmentsDemux(segments, tail, metaint, true);
  }

  // ---------------------------------------------------------------------------------------------
  // The reader

  /** What the transport delivers: bytes, or a read error or timeout. */
  datatype Chunk = Data(bytes: seq<Byte>) | Failure

  /** The bytes a source yields: an empty chunk or a failure ends the stream. */
  function Flow(chunks: seq<Chunk>): seq<Byte> {
    if chunks == [] || chunks[0].Failure? || chunks[0].bytes == [] then [] else chunks[0].bytes + Flow(chunks[1..])
  }

  /** What a read returns. */
  datatype Read = Bytes(bytes: seq<Byte>) | End | Broken

  /** A cursor over one retained transport chunk. */
  class Reader {
    var source: seq<Chunk>
    var chunk: seq<Byte>
    var offset: nat

    constructor (chunks: seq<Chunk>)
      ensures Valid() && Rest() == Flow(chunks)
    {
      source, chunk, offset := chunks, [], 0;
    }

    ghost predicate Valid()
      reads this
    {
      offset <= |chunk|
    }

    ghost function Rest(): seq<Byte>
      requires Valid()
      reads this
    {
      chunk[offset..] + Flow(source)
    }

    /** At most `limit` next bytes, or nothing at the end or after a failure. */
    method Take(limit: nat) returns (read: Read)
      requires Valid() && limit > 0
      modifies this
      ensures Valid()
      ensures read.Bytes? <==> old(Rest()) != []
      ensures read.Bytes? ==> 1 <= |read.bytes| <= limit && old(Rest()) == read.bytes + Rest()
    {
      while offset == |chunk|
        invariant Valid() && Rest() == old(Rest())
        decreases |source|, |chunk| - offset
      {
        if source == [] {
          chunk, offset := [], 0;
          return End;
        }
        if source[0].Failure? {
          source := source[1..];
          return Broken;
        }
        chunk, source, offset := source[0].bytes, source[1..], 0;
        if chunk == [] {
          return End;
        }
      }
      var end := if offset + limit <= |chunk| then offset + limit else |chunk|;
      var taken := chunk[offset..end];
      offset := end;
      read := Bytes(taken);
    }

    /** Exactly `len` next bytes even across chunks, or nothing when the stream ends or fails first. */
    method Exact(len: nat) returns (read: Read)
      requires Valid()
      modifies this
      ensures Valid()
      ensures read.Bytes? <==> |old(Rest())| >= len
      ensures read.Bytes? ==> |read.bytes| == len && old(Rest()) == read.bytes + Rest()
    {
      var result: seq<Byte> := [];
      while |result| < len
        invariant Valid() && |result| <= len && old(Rest()) == result + Rest()
        decreases len - |result|
      {
        var next := Take(len - |result|);
        if !next.Bytes? {
          return next;
        }
        result := result + next.bytes;
      }
      read := Bytes(result);
    }
  }

  // ---------------------------------------------------------------------------------------------
  // The client channel and the title cache

  /** The response body: it takes `budget` more sends before the client is gone. */
  class Sink {
    var sent: seq<Byte>
    var budget: nat

    method Send(bytes: seq<Byte>) returns (ok: bool)
      modifies this
      ensures ok == (old(budget) > 0)
      ensures ok ==> sent == old(sent) + bytes && budget == old(budget) - 1
      ensures !ok ==> sent == old(sent) && budget == old(budget)
    {
      ok := budget > 0;
      if ok {
        sent, budget := sent + bytes, budget - 1;
      }
    }
  }

  datatype StationId = StationId(text: string)

  /** A title and the instant its relay read before it took the lock; relays may arrive out of order. */
  datatype Title = Title(raw: seq<Byte>, observedAt: int)

  datatype Announcement = Announcement(station: StationId, title: Title)

  /** Latest observed titles, at most one per station and at most 1024 in all. */
  class TitleCache {
    var titles: map<StationId, Title>
    /** Every change announced to listeners. */
    var announced: seq<Announcement>

    ghost predicate Valid()
      reads this
    {
      |titles| <= TITLE_CAPACITY
    }

    /** Only a full cache that does not know the station evicts, and it evicts a title with the least instant. */
    method Observe(station: StationId, title: Title)
      requires Valid()
      modifies this
      ensures Valid() && |titles| <= 1024 && station in titles && titles[station] == title
      ensures announced == old(announced) + [Announcement(station, title)]
      ensures OthersKept(old(titles), titles, station) && EvictsRightly(old(titles), titles, station)
    {
      var kept := titles;
      if |titles| >= TITLE_CAPACITY && station !in titles {
        OldestExists(titles, titles.Keys);
        var oldest :| oldest in titles && LeastRecent(titles, oldest);
        kept := titles - {oldest};
      } else {
        EvictsNone(titles, station, title);
      }
      titles := kept[station := title];
      announced := announced + [Announcement(station, title)];
    }
  }

  /** Whatever is gone was a least recently observed title, and it made room for a station a full cache did not know. */
  ghost predicate EvictsRightly(before: map<StationId, Title>, after: map<StationId, Title>, station: StationId) {
    && (forall gone :: gone in before && gone !in after ==>
          |before| == 1024 && station !in before && LeastRecent(before, gone))
    && (|before| < 1024 || station in before ==> before.Keys <= after.Keys)
  }

  lemma EvictsNone(before: map<StationId, Title>, station: StationId, title: Title)
    ensures var after := before[station := title];
            OthersKept(before, after, station) && EvictsRightly(before, after, station)
  {
  }

  /** Observing one station adds or changes no other station's title. */
  ghost predicate OthersKept(before: map<StationId, Title>, after: map<StationId, Title>, station: StationId) {
    forall id :: id in after && id != station ==> id in before && after[id] == before[id]
  }

  predicate LeastRecent(titles: map<StationId, Title>, oldest: StationId)
    requires oldest in titles
  {
    forall id :: id in titles ==> titles[oldest].observedAt <= titles[id].observedAt
  }

  lemma {:induction false} OldestExists(titles: map<StationId, Title>, ids: set<StationId>)
    requires ids <= titles.Keys && ids != {}
    ensures exists m :: m in ids && forall id :: id in ids ==> titles[m].observedAt <= titles[id].observedAt
    decreases ids
  {
    var x :| x in ids;
    if ids == {x} {
      assert forall id :: id in ids ==> titles[x].observedAt <= titles[id].observedAt;
    } else {
      OldestExists(titles, ids - {x});
      var y :| y in ids - {x} && forall id :: id in ids - {x} ==> titles[y].observedAt <= titles[id].observedAt;
      var m := if titles[x].observedAt <= titles[y].observedAt then x else y;
      assert m in ids && forall id :: id in ids ==> titles[m].observedAt <= titles[id].observedAt;
    }
  }

  // ---------------------------------------------------------------------------------------------
  // The pump

  /** What the pump forwards of a whole input; without an interval everything is audio. */
  function Forwarded(input: seq<Byte>, metaint: Option<nat>, icy: bool): seq<Byte>
    requires metaint.Some? ==> metaint.value > 0
  {
    if metaint.None? then input else Demux(input, metaint.value, metaint.value, icy)
  }

  /** What is still to be forwarded from inside the loop. */
  ghost function Pending(rest: seq<Byte>, metaint: Option<nat>, remaining: nat, icy: bool): seq<Byte>
    requires metaint.Some? ==> metaint.value > 0
  {
    if metaint.None? then rest else Demux(rest, metaint.value, remaining, icy)
  }

  /** The titles still to come from inside the loop. */
  ghost function PendingTitles(rest: seq<Byte>, metaint: Option<nat>, remaining: nat): seq<seq<Byte>>
    requires metaint.Some? ==> metaint.value > 0
  {
    if metaint.None? then [] else Titles(rest, metaint.value, remaining)
  }

  /** One audio step in terms of what is left to forward. */
  method PumpRun(reader: Reader, metaint: Option<nat>, wantsIcy: bool, sink: Sink, remaining: nat) returns (go: bool, taken: nat)
    requires reader.Valid() && remaining > 0 && (metaint.Some? ==> metaint.value > 0)
    requires metaint.None? ==> |reader.Rest()| < remaining
    modifies reader, sink
    ensures reader.Valid() && taken <= remaining
    ensures go ==> |reader.Rest()| < |old(reader.Rest())| && (metaint.None? ==> |reader.Rest()| < remaining - taken)
    ensures go ==> sink.sent + Pending(reader.Rest(), metaint, remaining - taken, wantsIcy)
                   == old(sink.sent) + Pending(old(reader.Rest()), metaint, remaining, wantsIcy)
    ensures !go ==> Ended(old(sink.sent) + Pending(old(reader.Rest()), metaint, remaining, wantsIcy), sink.sent, sink.budget)
    ensures go ==> PendingTitles(reader.Rest(), metaint, remaining - taken) == PendingTitles(old(reader.Rest()), metaint, remaining)
    ensures !go && sink.budget > 0 ==> PendingTitles(old(reader.Rest()), metaint, remaining) == []
  {
    ghost var rest, sent := reader.Rest(), sink.sent;
    var bytes;
    go, bytes := PumpAudio(reader, sink, remaining);
    taken := |bytes|;
    ghost var after := if bytes == [] then [] else reader.Rest();
    PendingAudio(rest, bytes, after, metaint, remaining, wantsIcy);
    AudioHasNoTitle(rest, bytes, after, metaint, remaining);
  }

  /** The pump may stop here: nothing out of place was sent, and everything unless the client is gone. */
  ghost predicate Ended(all: seq<Byte>, sent: seq<Byte>, budget: nat) {
    sent <= all && (budget > 0 ==> sent == all)
  }

  lemma PendingAudio(rest: seq<Byte>, bytes: seq<Byte>, after: seq<Byte>, metaint: Option<nat>, remaining: nat, icy: bool)
    requires metaint.Some? ==> metaint.value > 0
    requires rest == bytes + after && |bytes| <= remaining
    ensures Pending(rest, metaint, remaining, icy) == bytes + Pending(after, metaint, remaining - |bytes|, icy)
  {
    if metaint.Some? {
      AudioSplits(rest, metaint.value, remaining, icy, |bytes|);
      assert rest[..|bytes|] == bytes && rest[|bytes|..] == after;
    }
  }

  lemma AudioHasNoTitle(rest: seq<Byte>, bytes: seq<Byte>, after: seq<Byte>, metaint: Option<nat>, remaining: nat)
    requires metaint.Some? ==> metaint.value > 0
    requires rest == bytes + after && |bytes| <= remaining
    ensures PendingTitles(rest, metaint, remaining) == PendingTitles(after, metaint, remaining - |bytes|)
  {
    if metaint.Some? {
      TitlesSkipAudio(rest, metaint.value, remaining, |bytes|);
      assert rest[|bytes|..] == after;
    }
  }

  /** Forwards one metadata block to a client that asked for it; `go` is false once the client is gone. */
  method ForwardBlock(sink: Sink, length: seq<Byte>, block: seq<Byte>, wantsIcy: bool) returns (go: bool)
    modifies sink
    ensures go ==> sink.sent == old(sink.sent) + (if wantsIcy then length + block else [])
    ensures !go ==> sink.budget == 0 && sink.sent <= old(sink.sent) + (length + block)
    ensures !go ==> wantsIcy
  {
    go := true;
    if wantsIcy {
      var ok := sink.Send(length);
      assert old(sink.sent) + (length + block) == old(sink.sent) + length + block;
      if ok && block != [] {
        go := sink.Send(block);
      } else if sink.budget == 0 {
        return false;
      }
    }
  }

  /** The metadata case of the format, as the pump meets it. */
  lemma BlockStep(rest: seq<Byte>, length: seq<Byte>, block: seq<Byte>, after: seq<Byte>, metaint: nat, icy: bool)
    requires metaint > 0 && |length| == 1 && |block| == length[0] as nat * 16 && rest == length + (block + after)
    ensures Demux(rest, metaint, 0, icy) == (if icy then length + block else []) + Demux(after, metaint, metaint, icy)
    ensures Titles(rest, metaint, 0) == TitleOf(block) + Titles(after, metaint, metaint)
  {
    var size := BlockSize(rest[0]);
    assert rest[..0] == [] && rest[0..] == rest;
    assert rest[..size] == length + block && rest[size..] == after && rest[1..size] == block;
  }

  /** One audio step: forwards the next bytes; `go` is false at the end of input or once the client is gone. */
  method PumpAudio(reader: Reader, sink: Sink, remaining: nat) returns (go: bool, bytes: seq<Byte>)
    requires reader.Valid() && remaining > 0
    modifies reader, sink
    ensures reader.Valid() && old(reader.Rest()) == bytes + (if bytes == [] then [] else reader.Rest()) && |bytes| <= remaining
    ensures |bytes| <= 16_384
    ensures go ==> bytes != [] && sink.sent == old(sink.sent) + bytes
    ensures !go ==> sink.sent == old(sink.sent) && (bytes == [] || sink.budget == 0)
  {
    var taken := reader.Take(if remaining <= READ_LIMIT then remaining else READ_LIMIT);
    if !taken.Bytes? {
      return false, [];
    }
    bytes := taken.bytes;
    go := sink.Send(taken.bytes);
  }

  /** Reads one length byte and its block, or nothing when the stream ends inside them. */
  method ReadBlock(reader: Reader) returns (ok: bool, length: seq<Byte>, block: seq<Byte>)
    requires reader.Valid()
    modifies reader
    ensures reader.Valid()
    ensures ok ==> |length| == 1 && |block| == length[0] as nat * 16 && old(reader.Rest()) == length + (block + reader.Rest())
    ensures !ok ==> old(reader.Rest()) == [] || |old(reader.Rest())| < 1 + old(reader.Rest())[0] as nat * 16
  {
    var first := reader.Exact(1);
    if !first.Bytes? {
      return false, [], [];
    }
    assert old(reader.Rest())[0] == first.bytes[0];
    var second := reader.Exact(first.bytes[0] as nat * 16);
    if !second.Bytes? {
      return false, [], [];
    }
    return true, first.bytes, second.bytes;
  }

  /** What is left to forward after a metadata step that started with `sent` delivered and `pending` to come. */
  ghost predicate Progress(go: bool, sent: seq<Byte>, pending: seq<Byte>, sent': seq<Byte>, pending': seq<Byte>, budget: nat) {
    if go then sent' + pending' == sent + pending
    else Ended(sent + pending, sent', budget)
  }

  lemma BlockProgress(go: bool, sent: seq<Byte>, part: seq<Byte>, after: seq<Byte>, sent': seq<Byte>, whole: seq<Byte>, budget: nat)
    requires go ==> sent' == sent + part
    requires !go ==> part == whole && budget == 0 && sent' <= sent + whole
    ensures Progress(go, sent, part + after, sent', after, budget)
  {
    assert sent + (part + after) == (sent + part) + after;
  }

  /** The announced titles, as bytes. */
  ghost function Raws(announced: seq<Announcement>): seq<seq<Byte>> {
    seq(|announced|, i requires 0 <= i < |announced| => announced[i].title.raw)
  }

  /** Everything announced since concerns the station, and the last of it is what the cache now shows. */
  ghost predicate Tells(before: seq<Announcement>, announced: seq<Announcement>, titles: map<StationId, Title>, station: StationId) {
    && before <= announced
    && (forall i :: |before| <= i < |announced| ==> announced[i].station == station)
    && (|before| < |announced| ==> station in titles && titles[station] == announced[|announced| - 1].title)
  }

  lemma RawsGrow(announced: seq<Announcement>, a: Announcement)
    ensures Raws(announced + [a]) == Raws(announced) + [a.title.raw]
  {
  }

  /** Records the title of a block, if it has one. */
  method RecordTitle(block: seq<Byte>, station: StationId, observedAt: int, cache: TitleCache)
    requires cache.Valid()
    modifies cache
    ensures cache.Valid() && OthersKept(old(cache.titles), cache.titles, station)
    ensures Raws(cache.announced) == Raws(old(cache.announced)) + TitleOf(block)
    ensures Tells(old(cache.announced), cache.announced, cache.titles, station)
    ensures cache.announced == old(cache.announced) ==> cache.titles == old(cache.titles)
  {
    match RawTitle(block)
    case None =>
      assert Raws(cache.announced) + [] == Raws(cache.announced);
    case Some(raw) =>
      RawsGrow(cache.announced, Announcement(station, Title(raw, observedAt)));
      cache.Observe(station, Title(raw, observedAt));
  }

  /** One metadata step: reads a block, records its title and forwards it if wanted. */
  method PumpBlock(reader: Reader, metaint: nat, wantsIcy: bool, station: StationId, observedAt: int,
                   cache: TitleCache, sink: Sink) returns (go: bool)
    requires reader.Valid() && cache.Valid() && metaint > 0
    modifies reader, cache, sink
    ensures reader.Valid() && cache.Valid() && OthersKept(old(cache.titles), cache.titles, station)
    ensures Tells(old(cache.announced), cache.announced, cache.titles, station)
    ensures cache.announced == old(cache.announced) ==> cache.titles == old(cache.titles)
    ensures go ==> |reader.Rest()| < |old(reader.Rest())|
    ensures Progress(go, old(sink.sent), Demux(old(reader.Rest()), metaint, 0, wantsIcy),
                     sink.sent, Demux(reader.Rest(), metaint, metaint, wantsIcy), sink.budget)
    ensures TitleProgress(go, Raws(old(cache.announced)), Titles(old(reader.Rest()), metaint, 0),
                          Raws(cache.announced), Titles(reader.Rest(), metaint, metaint), sink.budget)
  {
    ghost var rest, sent, told := reader.Rest(), sink.sent, Raws(cache.announced);
    var ok, length, block := ReadBlock(reader);
    if !ok {
      StopsWell(told, [], sink.budget);
      assert sent + [] == sent;
      return false;
    }
    ghost var after := reader.Rest();
    BlockStep(rest, length, block, after, metaint, wantsIcy);
    RecordTitle(block, station, observedAt, cache);
    go := ForwardBlock(sink, length, block, wantsIcy);
    BlockProgress(go, sent, if wantsIcy then length + block else [], Demux(after, metaint, metaint, wantsIcy),
                  sink.sent, length + block, sink.budget);
    RecordProgress(go, told, TitleOf(block), Titles(after, metaint, metaint), Raws(cache.announced), sink.budget);
  }

  lemma RecordProgress(go: bool, told: seq<seq<Byte>>, part: seq<seq<Byte>>, after: seq<seq<Byte>>, told': seq<seq<Byte>>, budget: nat)
    requires told' == told + part && (!go ==> budget == 0)
    ensures TitleProgress(go, told, part + after, told', after, budget)
  {
    assert told + (part + after) == (told + part) + after;
  }

  lemma StopsWell(told: seq<seq<Byte>>, pending: seq<seq<Byte>>, budget: nat)
    requires budget > 0 ==> pending == []
    ensures TitlesEnded(told + pending, told, budget)
  {
  }

  /** The same balance for titles: told so far and still to come. */
  ghost predicate TitleProgress(go: bool, told: seq<seq<Byte>>, pending: seq<seq<Byte>>, told': seq<seq<Byte>>,
                                pending': seq<seq<Byte>>, budget: nat) {
    if go then told' + pending' == told + pending else TitlesEnded(told + pending, told', budget)
  }

  ghost predicate TitlesEnded(all: seq<seq<Byte>>, told: seq<seq<Byte>>, budget: nat) {
    told <= all && (budget > 0 ==> told == all)
  }

  /**
    For every input and every way the transport splits it, the client receives a prefix of what the format prescribes
    for those bytes, and listeners hear a prefix of the titles of its blocks, in order and once each: all of both
    unless the client went away.
   */
  method Pump(reader: Reader, metaint: Option<nat>, wantsIcy: bool, station: StationId, instants: nat -> int,
              cache: TitleCache, sink: Sink)
    requires reader.Valid() && cache.Valid()
    requires metaint.Some? ==> metaint.value > 0
    requires metaint.None? ==> |reader.Rest()| < 18_446_744_073_709_551_615
    modifies reader, cache, sink
    ensures cache.Valid() && OthersKept(old(cache.titles), cache.titles, station)
    ensures Tells(old(cache.announced), cache.announced, cache.titles, station)
    ensures Ended(old(sink.sent) + Forwarded(old(reader.Rest()), metaint, wantsIcy), sink.sent, sink.budget)
    ensures TitlesEnded(Raws(old(cache.announced)) + (if metaint.Some? then Titles(old(reader.Rest()), metaint.value, metaint.value) else []),
                        Raws(cache.announced), sink.budget)
  {
    var remaining: nat := if metaint.Some? then metaint.value else USIZE_MAX;
    var blocks: nat := 0;
    ghost var all := sink.sent + Forwarded(reader.Rest(), metaint, wantsIcy);
    ghost var titles := Raws(cache.announced) + PendingTitles(reader.Rest(), metaint, remaining);
    while true
      invariant reader.Valid() && cache.Valid() && OthersKept(old(cache.titles), cache.titles, station)
      invariant Tells(old(cache.announced), cache.announced, cache.titles, station)
      invariant metaint.None? ==> |reader.Rest()| < remaining
      invariant all == sink.sent + Pending(reader.Rest(), metaint, remaining, wantsIcy)
      invariant titles == Raws(cache.announced) + PendingTitles(reader.Rest(), metaint, remaining)
      decreases |reader.Rest()|
    {
      if remaining > 0 {
        ghost var pending := PendingTitles(reader.Rest(), metaint, remaining);
        var go, taken := PumpRun(reader, metaint, wantsIcy, sink, remaining);
        if !go {
          StopsWell(Raws(cache.announced), pending, sink.budget);
          return;
        }
        remaining := remaining - taken;
      } else {
        ghost var before, shown := cache.announced, cache.titles;
        var go := PumpBlock(reader, metaint.value, wantsIcy, station, instants(blocks), cache, sink);
        TellsOn(old(cache.announced), before, cache.announced, shown, cache.titles, station);
        if !go {
          return;
        }
        remaining, blocks := metaint.value, blocks + 1;
      }
    }
  }

  lemma TellsOn(a: seq<Announcement>, b: seq<Announcement>, c: seq<Announcement>, shown: map<StationId, Title>,
                titles: map<StationId, Title>, station: StationId)
    requires Tells(a, b, shown, station) && Tells(b, c, titles, station)
    requires b == c ==> titles == shown
    ensures Tells(a, c, titles, station)
  {
  }
}
