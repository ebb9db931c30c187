/** The C stream decoder of obus_packet.c: finding packet headers in a byte stream that arrives
    in arbitrary pieces. */
module Framing {
  import opened Values
  import opened Bytes

  const HEADER_SIZE := 9
  const PACKET_TYPES := 8
  const MAGIC: seq<byte> := [0x6f, 0x62, 0x75, 0x73]

  /** A header the decoder accepts: magic number and a known packet type. */
  predicate HeaderAt(s: seq<byte>, i: nat) {
    i + HEADER_SIZE <= |s| && s[i] == MAGIC[0] && s[i + 1] == MAGIC[1] && s[i + 2] == MAGIC[2] && s[i + 3] == MAGIC[3]
    && s[i + 8] < PACKET_TYPES
  }

  function SizeAt(s: seq<byte>, i: nat): u32
    requires i + HEADER_SIZE <= |s|
  {
    FromU32(s[i + 4], s[i + 5], s[i + 6], s[i + 7])
  }

  /** First accepted header at or after i. */
  function NextHeader(s: seq<byte>, i: nat): (r: Option<nat>)
    ensures r.Some? ==> i <= r.value && HeaderAt(s, r.value)
    decreases |s| - i
  {
    if i + HEADER_SIZE > |s| then None else if HeaderAt(s, i) then Some(i) else NextHeader(s, i + 1)
  }

  /** What a scan finds: the packets, and whether it ends at a header that claims size 0, on
      which the code makes no progress. */
  datatype Trace = Trace(frames: seq<seq<byte>>, spins: bool)

  function After(frames: seq<seq<byte>>, t: Trace): Trace { Trace(frames + t.frames, t.spins) }

  /** The reference: one left-to-right scan of the whole stream from i. A packet is the bytes
      its header claims. */
  function Walk(s: seq<byte>, i: nat): Trace
    decreases |s| - i
  {
    var j := NextHeader(s, i);
    if j.None? then Trace([], false)
    else
      var size := SizeAt(s, j.value);
      if size == 0 then Trace([], true)
      else if j.value + size > |s| then Trace([], false)
      else After([s[j.value..j.value + size]], Walk(s, j.value + size))
  }

  // ---- the decoder as a value ----

  /** buf: filled part of the buffer; pos: read position; valid: a header was decoded and
      stands at the start of buf; size: the size it claims. */
  datatype Dec = Dec(buf: seq<byte>, pos: nat, valid: bool, size: u32)

  ghost predicate DecOk(d: Dec) {
    d.valid ==> HeaderAt(d.buf, 0) && d.size == SizeAt(d.buf, 0)
  }

  /** A decoder before its first byte, with the read position its buffer happens to have. */
  function Fresh(pos: nat): Dec { Dec([], pos, false, 0) }

  /** obus_buffer_remove_first. */
  function DropFirst(buf: seq<byte>, n: nat): seq<byte> { if n >= |buf| then [] else buf[n..] }

  /** obus_packet_decode_header. */
  function Scan(d: Dec): Dec {
    var j := NextHeader(d.buf, d.pos);
    if j.Some? then Dec(d.buf[j.value..], HEADER_SIZE, true, SizeAt(d.buf, j.value))
    else if |d.buf| < HEADER_SIZE then d.(valid := false)
    else
      var gone := |d.buf| - (HEADER_SIZE - 1);
      Dec(d.buf[gone..], if d.pos > gone then d.pos - gone else 0, false, d.size)
  }

  /** The packet is dropped from the buffer and the read position reset. */
  function Consume(d: Dec): Dec {
    Dec(DropFirst(d.buf, d.size), 0, false, d.size)
  }

  function Fill(d: Dec, chunk: seq<byte>): Dec { d.(buf := d.buf + chunk) }

  function Flatten(chunks: seq<seq<byte>>): seq<byte> {
    if chunks == [] then [] else chunks[0] + Flatten(chunks[1..])
  }

  /** Outcome of one obus_packet_decoder_read: the packets taken from the buffer, the last of
      which was delivered unless the read would block. */
  datatype Outcome = Outcome(dec: Dec, io: seq<seq<byte>>, verdicts: seq<bool>, frames: seq<seq<byte>>, delivered: bool)

  function Scanned(d: Dec): Dec { if d.valid then d else Scan(d) }

  function Bulk(d: Dec, io: seq<seq<byte>>): nat { |d.buf| + |Flatten(io)| }

  lemma ScanShrinks(d: Dec)
    ensures |Scanned(d).buf| <= |d.buf|
  {
  }

  lemma ConsumeShrinks(d: Dec)
    requires 0 < d.size <= |d.buf|
    ensures |Consume(d).buf| < |d.buf|
  {
  }

  /** obus_packet_decoder_read. io: what successive reads return before one would block;
      verdicts: whether each packet's payload decodes (all further ones do). more is set once
      and never cleared, as in the code. A header of size 0 stops here; the code spins on it. */
  function Read(d: Dec, more: bool, io: seq<seq<byte>>, verdicts: seq<bool>): (r: Outcome)
    ensures Bulk(r.dec, r.io) <= Bulk(d, io)
    ensures r.delivered ==> Bulk(r.dec, r.io) < Bulk(d, io)
    ensures !r.delivered ==> r.io == [] || (r.dec.valid && r.dec.size == 0)
    decreases |io|, if more then 0 else 1, |d.buf|
  {
    if more && io == [] then Outcome(d, io, verdicts, [], false)
    else
      var d0 := if more then Fill(d, io[0]) else d;
      var io1 := if more then io[1..] else io;
      ScanShrinks(d0);
      var d1 := Scanned(d0);
      if !d1.valid || |d1.buf| < d1.size then Read(d1, true, io1, verdicts)
      else if d1.size == 0 then Outcome(d1, io1, verdicts, [], false)
      else
        var frame := d1.buf[..d1.size];
        ConsumeShrinks(d1);
        if verdicts == [] || verdicts[0] then
          Outcome(Consume(d1), io1, if verdicts == [] then [] else verdicts[1..], [frame], true)
        else
          var r := Read(Consume(d1), more, io1, verdicts[1..]);
          r.(frames := [frame] + r.frames)
  }

  /** The read loop of obus_client_io_read_event and obus_peer_io_read_event. */
  function Poll(d: Dec, io: seq<seq<byte>>, verdicts: seq<bool>): Outcome
    decreases Bulk(d, io)
  {
    var r := Read(d, false, io, verdicts);
    if !r.delivered then r
    else
      var s := Poll(r.dec, r.io, r.verdicts);
      s.(frames := r.frames + s.frames)
  }

  /** A whole connection: each event is what can be read before the next read would block. */
  function Session(d: Dec, events: seq<seq<seq<byte>>>, verdicts: seq<bool>): Outcome
    decreases |events|
  {
    if events == [] then Outcome(d, [], verdicts, [], false)
    else
      var r := Poll(d, events[0], verdicts);
      var s := Session(r.dec, events[1..], r.verdicts);
      s.(frames := r.frames + s.frames)
  }

  function Received(events: seq<seq<seq<byte>>>): seq<byte> {
    if events == [] then [] else Flatten(events[0]) + Received(events[1..])
  }

  // ---- scans and prefixes ----

  lemma HeaderStable(s: seq<byte>, t: seq<byte>, i: nat)
    requires i + HEADER_SIZE <= |s|
    ensures HeaderAt(s + t, i) == HeaderAt(s, i)
    ensures SizeAt(s + t, i) == SizeAt(s, i)
  {
  }

  /** Bytes that arrive later do not change which header comes first. */
  lemma {:induction false} NextHeaderStable(s: seq<byte>, t: seq<byte>, i: nat)
    requires NextHeader(s, i).Some?
    ensures NextHeader(s + t, i) == NextHeader(s, i)
    decreases |s| - i
  {
    HeaderStable(s, t, i);
    if !HeaderAt(s, i) {
      NextHeaderStable(s, t, i + 1);
    }
  }

  /** Without a header so far, only the last eight bytes can still matter. */
  lemma {:induction false} NextHeaderResumes(s: seq<byte>, t: seq<byte>, i: nat, k: nat)
    requires NextHeader(s, i).None? && i <= k && k + (HEADER_SIZE - 1) <= |s|
    ensures NextHeader(s + t, i) == NextHeader(s + t, k)
    decreases k - i
  {
    if i < k {
      HeaderStable(s, t, i);
      NextHeaderResumes(s, t, i + 1, k);
    }
  }

  /** Scanning does not look back. */
  lemma {:induction false} NextHeaderShift(s: seq<byte>, n: nat, i: nat)
    requires n <= |s|
    ensures NextHeader(s, n + i).None? == NextHeader(s[n..], i).None?
    ensures NextHeader(s[n..], i).Some? ==> NextHeader(s, n + i).value == n + NextHeader(s[n..], i).value
    decreases |s| - n - i
  {
    if n + i + HEADER_SIZE <= |s| && !HeaderAt(s, n + i) {
      NextHeaderShift(s, n, i + 1);
    }
  }

  lemma SliceShift(s: seq<byte>, n: nat, a: nat, b: nat)
    requires a <= b && n + b <= |s|
    ensures s[n..][a..b] == s[n + a..n + b]
  {
  }

  lemma SizeShift(s: seq<byte>, n: nat, i: nat)
    requires n + i + HEADER_SIZE <= |s|
    ensures SizeAt(s, n + i) == SizeAt(s[n..], i)
  {
  }

  lemma WalkStep(s: seq<byte>, i: nat)
    ensures var j := NextHeader(s, i);
            Walk(s, i) == if j.None? then Trace([], false)
                          else if SizeAt(s, j.value) == 0 then Trace([], true)
                          else if j.value + SizeAt(s, j.value) > |s| then Trace([], false)
                          else After([s[j.value..j.value + SizeAt(s, j.value)]], Walk(s, j.value + SizeAt(s, j.value)))
  {
  }

  lemma {:induction false} WalkShift(s: seq<byte>, n: nat, i: nat)
    requires n <= |s|
    ensures Walk(s, n + i) == Walk(s[n..], i)
    decreases |s| - n - i
  {
    hide SizeAt, NextHeader, Walk;
    WalkStep(s, n + i);
    WalkStep(s[n..], i);
    NextHeaderShift(s, n, i);
    var j := NextHeader(s[n..], i);
    if j.Some? {
      var size := SizeAt(s[n..], j.value);
      SizeShift(s, n, j.value);
      if size != 0 && j.value + size <= |s| - n {
        WalkShift(s, n, j.value + size);
        SliceShift(s, n, j.value, j.value + size);
      }
    }
  }

  lemma HeaderIsNext(s: seq<byte>, i: nat)
    requires HeaderAt(s, i)
    ensures NextHeader(s, i) == Some(i)
  {
  }

  lemma WalkFrom(s: seq<byte>, i: nat, k: nat)
    requires NextHeader(s, i) == NextHeader(s, k)
    ensures Walk(s, i) == Walk(s, k)
  {
  }

  // ---- the decoder follows the reference scan ----

  lemma AfterTwice(a: seq<seq<byte>>, b: seq<seq<byte>>, t: Trace)
    ensures After(a, After(b, t)) == After(a + b, t)
  {
    assert a + (b + t.frames) == (a + b) + t.frames;
  }

  /** Packets this decoder will take if the bytes s are what it still receives. */
  function Future(d: Dec, s: seq<byte>): Trace {
    Walk(d.buf + s, if d.valid then 0 else d.pos)
  }

  lemma ScanFound(d: Dec, s: seq<byte>)
    requires !d.valid && NextHeader(d.buf, d.pos).Some?
    ensures DecOk(Scan(d)) && Future(Scan(d), s) == Future(d, s)
  {
    hide Walk, NextHeader;
    var j := NextHeader(d.buf, d.pos).value;
    NextHeaderStable(d.buf, s, d.pos);
    var all := d.buf + s;
    HeaderStable(d.buf, s, j);
    HeaderIsNext(all, j);
    WalkFrom(all, d.pos, j);
    WalkShift(all, j, 0);
    assert all[j..] == d.buf[j..] + s;
  }

  lemma {:induction false} NoHeaderBeyond(s: seq<byte>, i: nat)
    requires i + HEADER_SIZE > |s|
    ensures NextHeader(s, i).None?
  {
  }

  /** The retained eight bytes never lose or invent a header, wherever the read position is. */
  lemma ScanMissed(d: Dec, s: seq<byte>)
    requires !d.valid && NextHeader(d.buf, d.pos).None?
    ensures DecOk(Scan(d)) && Future(Scan(d), s) == Future(d, s)
  {
    hide Walk, NextHeader, HeaderAt;
    if |d.buf| >= HEADER_SIZE {
      var gone := |d.buf| - (HEADER_SIZE - 1);
      var all := d.buf + s;
      assert all[gone..] == d.buf[gone..] + s;
      if d.pos <= gone {
        NextHeaderResumes(d.buf, s, d.pos, gone);
        WalkFrom(all, d.pos, gone);
        WalkShift(all, gone, 0);
      } else {
        WalkShift(all, gone, d.pos - gone);
      }
    }
  }

  lemma ScanFollows(d: Dec, s: seq<byte>)
    requires DecOk(d)
    ensures DecOk(Scanned(d)) && Future(Scanned(d), s) == Future(d, s)
  {
    if !d.valid {
      if NextHeader(d.buf, d.pos).Some? {
        ScanFound(d, s);
      } else {
        ScanMissed(d, s);
      }
    }
  }

  lemma FillFollows(d: Dec, chunk: seq<byte>, s: seq<byte>)
    requires DecOk(d)
    ensures DecOk(Fill(d, chunk)) && Future(Fill(d, chunk), s) == Future(d, chunk + s)
  {
    assert d.buf + chunk + s == d.buf + (chunk + s);
  }

  lemma ConsumeFollows(d: Dec, s: seq<byte>)
    requires DecOk(d) && d.valid && 0 < d.size <= |d.buf|
    ensures DecOk(Consume(d)) && Future(d, s) == After([d.buf[..d.size]], Future(Consume(d), s))
  {
    hide NextHeader;
    var all := d.buf + s;
    HeaderStable(d.buf, s, 0);
    HeaderIsNext(all, 0);
    assert all[0..d.size] == d.buf[..d.size];
    WalkShift(all, d.size, 0);
    assert all[d.size..] == DropFirst(d.buf, d.size) + s;
  }

  /** Standing at a header of size 0. */
  predicate Stuck(d: Dec) { d.valid && d.size == 0 }

  const NOTHING := Trace([], false)

  /** When the decoder asks for more bytes, no complete packet is in the buffer. */
  lemma NothingLeft(d: Dec)
    requires DecOk(d)
    requires var e := Scanned(d); !e.valid || |e.buf| < e.size
    ensures Future(Scanned(d), []) == NOTHING
  {
    var e := Scanned(d);
    ScanFollows(d, []);
    assert e.buf + [] == e.buf;
    if e.valid {
      assert NextHeader(e.buf, 0) == Some(0);
    } else {
      assert d.buf + [] == d.buf;
      assert NextHeader(d.buf, d.pos).None?;
    }
  }

  /** Every call: what it takes plus what is still to come is what was to come. */
  lemma {:induction false} ReadFollows(d: Dec, more: bool, io: seq<seq<byte>>, verdicts: seq<bool>, s: seq<byte>)
    requires DecOk(d)
    ensures var r := Read(d, more, io, verdicts);
            DecOk(r.dec) && Future(d, Flatten(io) + s) == After(r.frames, Future(r.dec, Flatten(r.io) + s))
    decreases |io|, if more then 0 else 1, |d.buf|
  {
    hide Future, DecOk, Scanned, Fill, Consume;
    if more && io == [] {
      return;
    }
    var d0 := if more then Fill(d, io[0]) else d;
    var io1 := if more then io[1..] else io;
    var rest := Flatten(io1) + s;
    if more {
      FillFollows(d, io[0], rest);
      assert io[0] + rest == Flatten(io) + s;
    }
    ScanFollows(d0, rest);
    var d1 := Scanned(d0);
    if !d1.valid || |d1.buf| < d1.size {
      ReadFollows(d1, true, io1, verdicts, s);
    } else if d1.size != 0 {
      ConsumeFollows(d1, rest);
      ScanShrinks(d0);
      ConsumeShrinks(d1);
      if verdicts != [] && !verdicts[0] {
        ReadFollows(Consume(d1), more, io1, verdicts[1..], s);
      }
    }
  }

  /** Every payload decodes. */
  predicate Accepting(verdicts: seq<bool>) { forall i :: 0 <= i < |verdicts| ==> verdicts[i] }

  /** A call that blocks has used up its input; if no packet was rejected, no complete packet is
      left behind either. */
  lemma {:induction false} ReadExhausts(d: Dec, more: bool, io: seq<seq<byte>>, verdicts: seq<bool>)
    requires DecOk(d) && (more ==> Future(d, []) == NOTHING && !Stuck(d)) && Accepting(verdicts)
    ensures var r := Read(d, more, io, verdicts);
            Accepting(r.verdicts) && (!r.delivered ==> Future(r.dec, Flatten(r.io)) == Trace([], Stuck(r.dec)))
    decreases |io|, if more then 0 else 1, |d.buf|
  {
    if more && io == [] {
      return;
    }
    var d0 := if more then Fill(d, io[0]) else d;
    var io1 := if more then io[1..] else io;
    ScanFollows(d0, []);
    var d1 := Scanned(d0);
    if !d1.valid || |d1.buf| < d1.size {
      NothingLeft(d0);
      ReadExhausts(d1, true, io1, verdicts);
    } else if d1.size == 0 {
      ZeroSizeEndsScan(d1, Flatten(io1));
    }
  }

  lemma ZeroSizeEndsScan(d: Dec, s: seq<byte>)
    requires DecOk(d) && Stuck(d)
    ensures Future(d, s) == Trace([], true)
  {
    HeaderStable(d.buf, s, 0);
    assert NextHeader(d.buf + s, 0) == Some(0);
  }

  lemma {:induction false} PollFollows(d: Dec, io: seq<seq<byte>>, verdicts: seq<bool>, s: seq<byte>)
    requires DecOk(d)
    ensures var r := Poll(d, io, verdicts);
            DecOk(r.dec) && Future(d, Flatten(io) + s) == After(r.frames, Future(r.dec, Flatten(r.io) + s))
    decreases Bulk(d, io)
  {
    hide Future, DecOk, Flatten;
    ReadFollows(d, false, io, verdicts, s);
    var r := Read(d, false, io, verdicts);
    if r.delivered {
      PollFollows(r.dec, r.io, r.verdicts, s);
      var t := Poll(r.dec, r.io, r.verdicts);
      AfterTwice(r.frames, t.frames, Future(t.dec, Flatten(t.io) + s));
    }
  }

  lemma {:induction false} PollExhausts(d: Dec, io: seq<seq<byte>>, verdicts: seq<bool>)
    requires DecOk(d) && Accepting(verdicts)
    ensures var r := Poll(d, io, verdicts);
            DecOk(r.dec) && Accepting(r.verdicts) && Future(r.dec, Flatten(r.io)) == Trace([], Stuck(r.dec))
    decreases Bulk(d, io)
  {
    hide Future, DecOk, Flatten, Accepting;
    ReadExhausts(d, false, io, verdicts);
    ReadFollows(d, false, io, verdicts, []);
    var r := Read(d, false, io, verdicts);
    if r.delivered {
      PollExhausts(r.dec, r.io, r.verdicts);
    }
  }

  // ---- whole connections ----

  lemma {:induction false} PollEnds(d: Dec, io: seq<seq<byte>>, verdicts: seq<bool>)
    ensures var r := Poll(d, io, verdicts);
            r.io == [] || (r.dec.valid && r.dec.size == 0)
    decreases Bulk(d, io)
  {
    var r := Read(d, false, io, verdicts);
    if r.delivered {
      PollEnds(r.dec, r.io, r.verdicts);
    }
  }

  lemma PollCarriesOn(d: Dec, io: seq<seq<byte>>, verdicts: seq<bool>, s: seq<byte>)
    requires DecOk(d)
    ensures var r := Poll(d, io, verdicts);
            DecOk(r.dec) && Future(d, Flatten(io) + s) == After(r.frames, Future(r.dec, s))
  {
    PollFollows(d, io, verdicts, s);
    PollEnds(d, io, verdicts);
    var r := Poll(d, io, verdicts);
    if r.io == [] {
      assert Flatten(r.io) + s == s;
    } else {
      ZeroSizeEndsScan(r.dec, Flatten(r.io) + s);
      ZeroSizeEndsScan(r.dec, s);
    }
  }

  lemma {:induction false} SessionFollows(d: Dec, events: seq<seq<seq<byte>>>, verdicts: seq<bool>)
    requires DecOk(d)
    ensures var r := Session(d, events, verdicts);
            Future(d, Received(events)) == After(r.frames, Future(r.dec, []))
    decreases |events|
  {
    hide Future, DecOk, Poll, Flatten;
    if events != [] {
      var rest := Received(events[1..]);
      PollCarriesOn(d, events[0], verdicts, rest);
      var r := Poll(d, events[0], verdicts);
      SessionFollows(r.dec, events[1..], r.verdicts);
      var t := Session(r.dec, events[1..], r.verdicts);
      AfterTwice(r.frames, t.frames, Future(t.dec, []));
    }
  }

  lemma {:induction false} SessionExhausts(d: Dec, events: seq<seq<seq<byte>>>, verdicts: seq<bool>)
    requires DecOk(d) && Future(d, []) == Trace([], Stuck(d)) && Accepting(verdicts)
    ensures var e := Session(d, events, verdicts).dec;
            Future(e, []) == Trace([], Stuck(e))
    decreases |events|
  {
    hide Future, DecOk, Poll, Accepting;
    if events != [] {
      PollExhausts(d, events[0], verdicts);
      PollEnds(d, events[0], verdicts);
      var r := Poll(d, events[0], verdicts);
      assert Future(r.dec, []) == Trace([], Stuck(r.dec)) by {
        if r.io != [] {
          ZeroSizeEndsScan(r.dec, []);
        }
      }
      SessionExhausts(r.dec, events[1..], r.verdicts);
    }
  }

  lemma FreshFuture(p: nat, s: seq<byte>)
    ensures DecOk(Fresh(p)) && Future(Fresh(p), s) == Walk(s, p)
  {
    assert [] + s == s;
  }

  /** Framing does not depend on chunking: however the stream is cut into reads and the reads
      into events, the packets taken are those of one scan of the whole stream, starting where
      the buffer's read position was, whenever all their payloads decode. */
  lemma ChunkingDoesNotMatter(p: nat, events: seq<seq<seq<byte>>>, verdicts: seq<bool>)
    requires Accepting(verdicts)
    ensures var r := Session(Fresh(p), events, verdicts);
            Trace(r.frames, Stuck(r.dec)) == Walk(Received(events), p)
  {
    hide Future, DecOk, Session, Walk;
    FreshFuture(p, Received(events));
    FreshFuture(p, []);
    NoFramesInNothing(p);
    SessionFollows(Fresh(p), events, verdicts);
    SessionExhausts(Fresh(p), events, verdicts);
  }

  lemma NoFramesInNothing(p: nat)
    ensures Walk([], p) == NOTHING
  {
  }

  /** Also when payloads are rejected, no packet is lost or invented: what was not taken yet is
      still complete in the buffer. */
  lemma NothingLostOrInvented(p: nat, events: seq<seq<seq<byte>>>, verdicts: seq<bool>)
    ensures var r := Session(Fresh(p), events, verdicts);
            After(r.frames, Future(r.dec, [])) == Walk(Received(events), p)
  {
    hide Future, DecOk, Session, Walk;
    FreshFuture(p, Received(events));
    SessionFollows(Fresh(p), events, verdicts);
  }

  // ---- well-formed packets ----

  /** A packet as the encoders build it: its header claims its own length. */
  predicate IsPacket(f: seq<byte>) { HeaderAt(f, 0) && SizeAt(f, 0) == |f| }

  lemma FirstPacket(f: seq<byte>, t: seq<byte>)
    requires IsPacket(f)
    ensures Walk(f + t, 0) == After([f], Walk(t, 0))
  {
    var d := Dec(f, HEADER_SIZE, true, |f|);
    hide Walk;
    ConsumeFollows(d, t);
    assert f[..|f|] == f && DropFirst(f, |f|) + t == t;
  }

  lemma {:induction false} FramesOfPackets(fs: seq<seq<byte>>)
    requires forall i :: 0 <= i < |fs| ==> IsPacket(fs[i])
    ensures Walk(Flatten(fs), 0) == Trace(fs, false)
    decreases |fs|
  {
    if fs != [] {
      FirstPacket(fs[0], Flatten(fs[1..]));
      FramesOfPackets(fs[1..]);
    }
  }

  /** Whatever the pieces, a stream of well-formed packets is delivered packet by packet. */
  lemma PacketsDelivered(fs: seq<seq<byte>>, events: seq<seq<seq<byte>>>)
    requires forall i :: 0 <= i < |fs| ==> IsPacket(fs[i])
    requires Received(events) == Flatten(fs)
    ensures Session(Fresh(0), events, []).frames == fs
  {
    ChunkingDoesNotMatter(0, events, []);
    FramesOfPackets(fs);
  }

  /** How many packets lie completely within the first n bytes of their stream. */
  function Whole(fs: seq<seq<byte>>, n: nat): (k: nat)
    ensures k <= |fs|
    decreases |fs|
  {
    if fs == [] || |fs[0]| > n then 0 else 1 + Whole(fs[1..], n - |fs[0]|)
  }

  lemma {:induction false} WholeAll(fs: seq<seq<byte>>)
    ensures Whole(fs, |Flatten(fs)|) == |fs|
  {
    if fs != [] {
      WholeAll(fs[1..]);
    }
  }

  /** A packet that is cut short is not found. */
  lemma CutPacket(f: seq<byte>, n: nat)
    requires IsPacket(f) && n < |f|
    ensures Walk(f[..n], 0) == NOTHING
  {
    hide NextHeader;
    if n < HEADER_SIZE {
      NoHeaderBeyond(f[..n], 0);
    } else {
      var c := f[..n];
      assert c + f[n..] == f;
      HeaderStable(c, f[n..], 0);
      HeaderIsNext(c, 0);
    }
  }

  lemma {:induction false} PrefixFrames(fs: seq<seq<byte>>, n: nat)
    requires forall i :: 0 <= i < |fs| ==> IsPacket(fs[i])
    requires n <= |Flatten(fs)|
    ensures Walk(Flatten(fs)[..n], 0).frames == fs[..Whole(fs, n)]
    decreases |fs|
  {
    hide Walk;
    if fs == [] {
      NoFramesInNothing(0);
    } else {
      var f, rest := fs[0], Flatten(fs[1..]);
      if |f| > n {
        assert (f + rest)[..n] == f[..n];
        CutPacket(f, n);
      } else {
        assert (f + rest)[..n] == f + rest[..n - |f|];
        FirstPacket(f, rest[..n - |f|]);
        PrefixFrames(fs[1..], n - |f|);
      }
    }
  }

  /** While a stream of packets is still arriving, exactly those that have arrived completely are
      delivered. */
  lemma PrefixDelivered(fs: seq<seq<byte>>, events: seq<seq<seq<byte>>>)
    requires forall i :: 0 <= i < |fs| ==> IsPacket(fs[i])
    requires Received(events) <= Flatten(fs)
    ensures Session(Fresh(0), events, []).frames == fs[..Whole(fs, |Received(events)|)]
  {
    hide Walk, Session, Received, Flatten, Whole, IsPacket;
    ChunkingDoesNotMatter(0, events, []);
    assert Flatten(fs)[..|Received(events)|] == Received(events);
    PrefixFrames(fs, |Received(events)|);
  }

  // ---- where the decoder falls short ----

  /** A packet with a header and nothing else. */
  const BARE: seq<byte> := [0x6f, 0x62, 0x75, 0x73, 0, 0, 0, 9, 7]

  lemma BareIsPacket()
    ensures IsPacket(BARE) && Walk(BARE, 0).frames == [BARE]
  {
    FramesOfPackets([BARE]);
    assert Flatten([BARE]) == BARE + Flatten([]) == BARE;
  }

  /** A buffer taken from the pool keeps its old read position. The decoder then finds the
      packets of every stream if and only if that position is 0. */
  lemma StartPositionMustBeZero(p: nat)
    ensures (forall events: seq<seq<seq<byte>>> :: Session(Fresh(p), events, []).frames == Walk(Received(events), 0).frames) <==> p == 0
  {
    if p == 0 {
      forall events: seq<seq<seq<byte>>>
        ensures Session(Fresh(p), events, []).frames == Walk(Received(events), 0).frames
      {
        ChunkingDoesNotMatter(0, events, []);
      }
    } else {
      var events := [[BARE]];
      ChunkingDoesNotMatter(p, events, []);
      assert Flatten([BARE]) == BARE + Flatten([]) == BARE;
      assert Received(events) == Flatten([BARE]) + Received([]) == BARE;
      BareIsPacket();
      NoHeaderBeyond(BARE, p);
      assert Session(Fresh(p), events, []).frames != Walk(Received(events), 0).frames;
    }
  }

  // ---- rejected payloads ----

  predicate Rejected(verdicts: seq<bool>) { verdicts != [] && !verdicts[0] }

  function Left(verdicts: seq<bool>, n: nat): seq<bool> { if n <= |verdicts| then verdicts[n..] else [] }

  function Then(frames: seq<seq<byte>>, r: Outcome): Outcome { r.(frames := frames + r.frames) }

  /** Poll as a single loop: a delivered packet ends the call, so the next turn does not read
      first; a rejected one stays in the call. */
  function Turns(d: Dec, more: bool, io: seq<seq<byte>>, verdicts: seq<bool>): Outcome
    decreases |io|, if more then 0 else 1, |d.buf|
  {
    if more && io == [] then Outcome(d, io, verdicts, [], false)
    else
      var d0 := if more then Fill(d, io[0]) else d;
      var io1 := if more then io[1..] else io;
      ScanShrinks(d0);
      var d1 := Scanned(d0);
      if !d1.valid || |d1.buf| < d1.size then Turns(d1, true, io1, verdicts)
      else if d1.size == 0 then Outcome(d1, io1, verdicts, [], false)
      else
        ConsumeShrinks(d1);
        Then([d1.buf[..d1.size]], Turns(Consume(d1), more && Rejected(verdicts), io1, Left(verdicts, 1)))
  }

  lemma {:induction false} ReadThenPoll(d: Dec, more: bool, io: seq<seq<byte>>, verdicts: seq<bool>)
    ensures var r := Read(d, more, io, verdicts);
            Turns(d, more, io, verdicts) == if r.delivered then Then(r.frames, Poll(r.dec, r.io, r.verdicts)) else r
    decreases |io|, if more then 0 else 1, |d.buf|
  {
    hide Scanned, Fill, Consume, Bulk;
    if more && io == [] {
      return;
    }
    var d0 := if more then Fill(d, io[0]) else d;
    var io1 := if more then io[1..] else io;
    ScanShrinks(d0);
    var d1 := Scanned(d0);
    if !d1.valid || |d1.buf| < d1.size {
      ReadThenPoll(d1, true, io1, verdicts);
    } else if d1.size != 0 {
      ConsumeShrinks(d1);
      var d2, more' := Consume(d1), more && Rejected(verdicts);
      ReadThenPoll(d2, more', io1, Left(verdicts, 1));
      var r := Read(d2, more', io1, Left(verdicts, 1));
      var f, t := d1.buf[..d1.size], Poll(r.dec, r.io, r.verdicts);
      if Rejected(verdicts) {
        assert ([f] + r.frames) + t.frames == [f] + (r.frames + t.frames);
      }
    }
  }

  lemma PollIsTurns(d: Dec, io: seq<seq<byte>>, verdicts: seq<bool>)
    ensures Poll(d, io, verdicts) == Turns(d, false, io, verdicts)
  {
    hide Read, Turns;
    ReadThenPoll(d, false, io, verdicts);
  }

  /** Each packet taken uses up one verdict. */
  lemma {:induction false} VerdictsUsed(d: Dec, more: bool, io: seq<seq<byte>>, verdicts: seq<bool>)
    ensures var r := Turns(d, more, io, verdicts); r.verdicts == Left(verdicts, |r.frames|)
    decreases |io|, if more then 0 else 1, |d.buf|
  {
    hide Scanned, Fill, Consume;
    if more && io == [] {
      return;
    }
    var d0 := if more then Fill(d, io[0]) else d;
    var io1 := if more then io[1..] else io;
    ScanShrinks(d0);
    var d1 := Scanned(d0);
    if !d1.valid || |d1.buf| < d1.size {
      VerdictsUsed(d1, true, io1, verdicts);
    } else if d1.size != 0 {
      ConsumeShrinks(d1);
      VerdictsUsed(Consume(d1), more && Rejected(verdicts), io1, Left(verdicts, 1));
    }
  }

  /** With one more read to come, the loop carries on where it would have blocked. */
  lemma {:induction false} TurnsAppend(d: Dec, more: bool, io: seq<seq<byte>>, c: seq<byte>, verdicts: seq<bool>)
    requires more ==> !Stuck(d)
    ensures var q := Turns(d, more, io, verdicts);
            var r := Turns(d, more, io + [c], verdicts);
            r == if Stuck(q.dec) then q.(io := q.io + [c]) else Then(q.frames, Turns(q.dec, true, [c], q.verdicts))
    decreases |io|, if more then 0 else 1, |d.buf|
  {
    hide Scanned, Fill, Consume;
    if more && io == [] {
      assert io + [c] == [c];
      return;
    }
    var d0 := if more then Fill(d, io[0]) else d;
    var io1 := if more then io[1..] else io;
    assert more ==> (io + [c])[0] == io[0] && (io + [c])[1..] == io1 + [c];
    ScanShrinks(d0);
    var d1 := Scanned(d0);
    if !d1.valid || |d1.buf| < d1.size {
      TurnsAppend(d1, true, io1, c, verdicts);
    } else if d1.size != 0 {
      ConsumeShrinks(d1);
      ConsumeUnsticks(d1);
      var f, d2, m := d1.buf[..d1.size], Consume(d1), more && Rejected(verdicts);
      TurnsAppend(d2, m, io1, c, Left(verdicts, 1));
      var q := Turns(d2, m, io1, Left(verdicts, 1));
      var t := Turns(q.dec, true, [c], q.verdicts);
      assert [f] + (q.frames + t.frames) == ([f] + q.frames) + t.frames;
    }
  }

  lemma ConsumeUnsticks(d: Dec)
    ensures !Stuck(Consume(d))
  {
  }

  /** Without a read in the call, every complete packet is taken, whatever is rejected. */
  lemma {:induction false} DrainsAll(d: Dec, verdicts: seq<bool>)
    requires DecOk(d)
    ensures Turns(d, false, [], verdicts).frames == Future(d, []).frames
    decreases |d.buf|
  {
    hide Future, Scanned, Consume, DecOk;
    ScanFollows(d, []);
    ScanShrinks(d);
    var d1 := Scanned(d);
    if !d1.valid || |d1.buf| < d1.size {
      NothingLeft(d);
    } else if d1.size == 0 {
      ZeroSizeEndsScan(d1, []);
    } else {
      ConsumeShrinks(d1);
      ConsumeFollows(d1, []);
      DrainsAll(Consume(d1), Left(verdicts, 1));
    }
  }

  /** The last read of an event: all packets that are complete then, but only the first of them
      if that one is rejected. */
  lemma LastRead(d: Dec, c: seq<byte>, verdicts: seq<bool>)
    requires DecOk(d)
    ensures var all := Future(d, c).frames;
            Turns(d, true, [c], verdicts).frames == if Rejected(verdicts) && |all| > 1 then all[..1] else all
  {
    hide Future, Scanned, Consume, DecOk, Fill;
    assert c + [] == c;
    FillFollows(d, c, []);
    var d0 := Fill(d, c);
    ScanFollows(d0, []);
    var d1 := Scanned(d0);
    var io := [c];
    assert io[1..] == [];
    if !d1.valid || |d1.buf| < d1.size {
      NothingLeft(d0);
    } else if d1.size == 0 {
      ZeroSizeEndsScan(d1, []);
    } else {
      ConsumeFollows(d1, []);
      if Rejected(verdicts) {
        assert Turns(Consume(d1), true, [], Left(verdicts, 1)).frames == [];
      } else {
        DrainsAll(Consume(d1), Left(verdicts, 1));
      }
    }
  }

  /** How many packets one event takes, counted on the bytes alone. Before the first read all
      complete packets are taken; after each read again all, unless the first of them is
      rejected: then the others wait for the next read. */
  ghost function TakenCount(d: Dec, io: seq<seq<byte>>, verdicts: seq<bool>): nat
    decreases |io|
  {
    var complete := |Future(d, Flatten(io)).frames|;
    if io == [] then complete
    else
      var k := TakenCount(d, io[..|io| - 1], verdicts);
      if k < |verdicts| && !verdicts[k] && k + 1 < complete then k + 1 else complete
  }

  lemma {:induction false} FlattenAppend(io: seq<seq<byte>>, c: seq<byte>)
    ensures Flatten(io + [c]) == Flatten(io) + c
  {
    if io == [] {
      assert io + [c] == [c];
      assert Flatten([c]) == c + Flatten([]) == c;
    } else {
      assert (io + [c])[1..] == io[1..] + [c];
      FlattenAppend(io[1..], c);
      assert io[0] + (Flatten(io[1..]) + c) == io[0] + Flatten(io[1..]) + c;
    }
  }

  /** One more read: from what the event took without it to what it takes with it. */
  lemma OneMoreRead(d: Dec, front: seq<seq<byte>>, c: seq<byte>, verdicts: seq<bool>)
    requires DecOk(d)
    ensures var q := Poll(d, front, verdicts);
            var rest := Future(q.dec, Flatten(q.io) + c).frames;
            Future(d, Flatten(front + [c])).frames == q.frames + rest &&
            Poll(d, front + [c], verdicts).frames
              == q.frames + if Rejected(Left(verdicts, |q.frames|)) && |rest| > 1 then rest[..1] else rest
  {
    hide Future, DecOk, Poll, Turns, Flatten;
    var q := Poll(d, front, verdicts);
    FlattenAppend(front, c);
    PollFollows(d, front, verdicts, c);
    PollIsTurns(d, front, verdicts);
    PollIsTurns(d, front + [c], verdicts);
    TurnsAppend(d, false, front, c, verdicts);
    VerdictsUsed(d, false, front, verdicts);
    if Stuck(q.dec) {
      ZeroSizeEndsScan(q.dec, Flatten(q.io) + c);
    } else {
      PollEnds(d, front, verdicts);
      EmptyFlatten(c);
      LastRead(q.dec, c, q.verdicts);
    }
  }

  lemma EmptyFlatten(c: seq<byte>)
    ensures Flatten([]) + c == c
  {
  }

  /** What one event takes, for every decoder, every reads and every verdicts. */
  lemma {:induction false} PollTakes(d: Dec, io: seq<seq<byte>>, verdicts: seq<bool>)
    requires DecOk(d)
    ensures var all := Future(d, Flatten(io)).frames;
            TakenCount(d, io, verdicts) <= |all| && Poll(d, io, verdicts).frames == all[..TakenCount(d, io, verdicts)]
    decreases |io|
  {
    hide Future, DecOk, Poll, Flatten;
    if io == [] {
      PollIsTurns(d, io, verdicts);
      DrainsAll(d, verdicts);
      EmptyFlatten([]);
    } else {
      var front, c := io[..|io| - 1], io[|io| - 1];
      assert io == front + [c];
      PollTakes(d, front, verdicts);
      OneMoreRead(d, front, c, verdicts);
    }
  }

  /** The last read leaves a complete packet behind: the first packet complete after it is
      rejected and another one stands behind it. */
  ghost predicate Stalls(d: Dec, io: seq<seq<byte>>, verdicts: seq<bool>) {
    io != [] &&
    var k := TakenCount(d, io[..|io| - 1], verdicts);
    k < |verdicts| && !verdicts[k] && k + 1 < |Future(d, Flatten(io)).frames|
  }

  /** When a rejected payload holds up complete packets: exactly if the event stalls. */
  lemma RejectionStalls(d: Dec, io: seq<seq<byte>>, verdicts: seq<bool>)
    requires DecOk(d)
    ensures var r := Poll(d, io, verdicts);
            var all := Future(d, Flatten(io)).frames;
            |r.frames| <= |all| && Future(r.dec, []).frames == all[|r.frames|..]
    ensures Future(Poll(d, io, verdicts).dec, []).frames != [] <==> Stalls(d, io, verdicts)
    ensures Accepting(verdicts) ==> Poll(d, io, verdicts).frames == Future(d, Flatten(io)).frames
  {
    hide Future, DecOk, Poll, Flatten;
    PollTakes(d, io, verdicts);
    PollCarriesOn(d, io, verdicts, []);
    assert Flatten(io) + [] == Flatten(io);
  }

  lemma {:induction false} SessionAppend(d: Dec, events: seq<seq<seq<byte>>>, io: seq<seq<byte>>, verdicts: seq<bool>)
    requires DecOk(d)
    ensures var q := Session(d, events, verdicts);
            DecOk(q.dec) && Session(d, events + [io], verdicts).dec == Poll(q.dec, io, q.verdicts).dec
    decreases |events|
  {
    hide Poll, DecOk;
    if events == [] {
      assert events + [io] == [io];
    } else {
      PollCarriesOn(d, events[0], verdicts, []);
      var r := Poll(d, events[0], verdicts);
      assert (events + [io])[1..] == events[1..] + [io];
      SessionAppend(r.dec, events[1..], io, r.verdicts);
    }
  }

  /** A whole connection has taken every complete packet if and only if its last event does not
      stall. */
  lemma SessionStalls(p: nat, events: seq<seq<seq<byte>>>, io: seq<seq<byte>>, verdicts: seq<bool>)
    ensures var q := Session(Fresh(p), events, verdicts);
            Session(Fresh(p), events + [io], verdicts).frames == Walk(Received(events + [io]), p).frames
            <==> !Stalls(q.dec, io, q.verdicts)
  {
    hide Future, Session, Walk, Stalls, Poll;
    SessionAppend(Fresh(p), events, io, verdicts);
    NothingLostOrInvented(p, events + [io], verdicts);
    var q := Session(Fresh(p), events, verdicts);
    RejectionStalls(q.dec, io, q.verdicts);
  }

  /** It happens: two packets arrive in one read and the first is rejected. */
  lemma RejectedPacketHidesNext(f: seq<byte>, g: seq<byte>)
    requires IsPacket(f) && IsPacket(g)
    ensures Stalls(Fresh(0), [f + g], [false])
  {
    hide Walk;
    FreshFuture(0, f + g);
    FreshFuture(0, []);
    NoFramesInNothing(0);
    FirstPacket(f, g);
    FirstPacket(g, []);
    assert g + [] == g;
    assert Flatten([f + g]) == (f + g) + Flatten([]) == f + g;
    assert [f + g][..0] == [];
  }

  /** The read position a decoder that started at 0 leaves in its buffer. */
  predicate Settled(d: Dec) { d.pos == if d.valid then HEADER_SIZE else 0 }

  lemma ScanSettles(d: Dec)
    requires Settled(d)
    ensures Settled(Scanned(d))
  {
  }

  lemma {:induction false} TurnsSettle(d: Dec, more: bool, io: seq<seq<byte>>, verdicts: seq<bool>)
    requires Settled(d)
    ensures Settled(Turns(d, more, io, verdicts).dec)
    decreases |io|, if more then 0 else 1, |d.buf|
  {
    hide Scanned;
    if more && io == [] {
      return;
    }
    var d0 := if more then Fill(d, io[0]) else d;
    var io1 := if more then io[1..] else io;
    ScanShrinks(d0);
    ScanSettles(d0);
    var d1 := Scanned(d0);
    if !d1.valid || |d1.buf| < d1.size {
      TurnsSettle(d1, true, io1, verdicts);
    } else if d1.size != 0 {
      ConsumeShrinks(d1);
      TurnsSettle(Consume(d1), more && Rejected(verdicts), io1, Left(verdicts, 1));
    }
  }

  /** A connection leaves its buffer at read position 9 if it ends inside a packet whose header
      was found, else at 0. */
  lemma {:induction false} PositionLeft(d: Dec, events: seq<seq<seq<byte>>>, verdicts: seq<bool>)
    requires Settled(d)
    ensures var e := Session(d, events, verdicts).dec;
            e.pos == if e.valid then HEADER_SIZE else 0
    decreases |events|
  {
    hide Turns, Poll;
    if events != [] {
      PollIsTurns(d, events[0], verdicts);
      TurnsSettle(d, false, events[0], verdicts);
      var r := Poll(d, events[0], verdicts);
      PositionLeft(r.dec, events[1..], r.verdicts);
    }
  }

  /** So a connection cut anywhere behind the header of a packet hands position 9 to the next
      user of the buffer. */
  lemma CutPacketLeavesPosition(f: seq<byte>, n: nat)
    requires IsPacket(f) && HEADER_SIZE <= n < |f|
    ensures Session(Fresh(0), [[f[..n]]], []).dec.pos == HEADER_SIZE
  {
    hide Scan, Fill;
    var c := f[..n];
    var d := Dec(c, HEADER_SIZE, true, |f|);
    assert Turns(d, true, [], []).dec == d;
    assert Scanned(Fill(Fresh(0), c)) == d by { CutPacketFound(f, n); }
    var io := [c];
    assert io[1..] == [];
    assert Turns(Fresh(0), true, io, []).dec == d;
    assert Scanned(Fresh(0)) == Fresh(0) by { NothingToScan(); }
    assert Turns(Fresh(0), false, io, []).dec == d;
    PollIsTurns(Fresh(0), io, []);
    var events, r := [io], Poll(Fresh(0), io, []);
    assert events[0] == io && events[1..] == [];
    assert Session(r.dec, [], r.verdicts).dec == r.dec;
  }

  lemma NothingToScan()
    ensures Scanned(Fresh(0)) == Fresh(0)
  {
  }

  lemma CutPacketFound(f: seq<byte>, n: nat)
    requires IsPacket(f) && HEADER_SIZE <= n < |f|
    ensures Scanned(Fill(Fresh(0), f[..n])) == Dec(f[..n], HEADER_SIZE, true, |f|)
  {
    var c := f[..n];
    assert [] + c == c && c + f[n..] == f;
    HeaderStable(c, f[n..], 0);
    HeaderIsNext(c, 0);
    assert c[0..] == c;
  }

  // ---- a zero size ----

  /** What the code does on a header of size 0: dropping "the packet" and scanning again leads
      back to the same state, so its loop makes no progress whatever the payload decoder says. */
  lemma ZeroSizeSpins(d: Dec)
    requires DecOk(d) && d.valid && d.size == 0
    ensures Scanned(Consume(d)) == d.(pos := HEADER_SIZE)
  {
    assert DropFirst(d.buf, 0) == d.buf;
    assert d.buf[0..] == d.buf;
  }

  // ---- the decoder as the object the code mutates ----

  const MAGIC_NUMBER := 0x6f62_7573

  lemma MagicNumber(a: byte, b: byte, c: byte, d: byte)
    ensures FromU32(a, b, c, d) == MAGIC_NUMBER <==> a == MAGIC[0] && b == MAGIC[1] && c == MAGIC[2] && d == MAGIC[3]
  {
  }

  /** One turn of the loop of obus_packet_decoder_read. */
  lemma ReadTurn(d: Dec, more: bool, io: seq<seq<byte>>, verdicts: seq<bool>)
    requires !more || io != []
    ensures var d1 := Scanned(if more then Fill(d, io[0]) else d);
            var io1 := if more then io[1..] else io;
            Read(d, more, io, verdicts) ==
            if !d1.valid || |d1.buf| < d1.size then Read(d1, true, io1, verdicts)
            else if d1.size == 0 then Outcome(d1, io1, verdicts, [], false)
            else if verdicts == [] || verdicts[0] then Outcome(Consume(d1), io1, Left(verdicts, 1), [d1.buf[..d1.size]], true)
            else Then([d1.buf[..d1.size]], Read(Consume(d1), more, io1, verdicts[1..]))
  {
    hide Scanned, Fill, Consume, Bulk;
  }

  lemma ThenNothing(r: Outcome)
    ensures Then([], r) == r
  {
    assert [] + r.frames == r.frames;
  }

  lemma ThenTwice(a: seq<seq<byte>>, b: seq<seq<byte>>, r: Outcome)
    ensures Then(a, Then(b, r)) == Then(a + b, r)
  {
    assert a + (b + r.frames) == (a + b) + r.frames;
  }

  lemma OutcomeAfter(a: seq<seq<byte>>, d: Dec, io: seq<seq<byte>>, verdicts: seq<bool>, b: seq<seq<byte>>, delivered: bool)
    ensures Then(a, Outcome(d, io, verdicts, b, delivered)) == Outcome(d, io, verdicts, a + b, delivered)
    ensures a + [] == a
  {
  }

  lemma ReadBlocks(d: Dec, io: seq<seq<byte>>, verdicts: seq<bool>)
    requires io == []
    ensures Read(d, true, io, verdicts) == Outcome(d, io, verdicts, [], false)
  {
  }

  class Decoder {
    var buf: seq<byte>
    var pos: nat
    var hdrValid: bool
    var hdrSize: u32

    ghost function Value(): Dec
      reads this
    {
      Dec(buf, pos, hdrValid, hdrSize)
    }

    /** Clearing the buffer resets its length, not its read position. */
    constructor (oldPos: nat)
      ensures Value() == Fresh(oldPos)
    {
      buf, pos, hdrValid, hdrSize := [], oldPos, false, 0;
    }

    method RemoveFirst(n: nat)
      modifies this`buf, this`pos
      ensures buf == DropFirst(old(buf), n)
      ensures 0 < n < |old(buf)| ==> pos == if old(pos) > n then old(pos) - n else 0
      ensures !(0 < n < |old(buf)|) ==> pos == old(pos)
    {
      if n == 0 || |buf| == 0 {
        return;
      }
      if n >= |buf| {
        buf := [];
        return;
      }
      buf := buf[n..];
      pos := if pos > n then pos - n else 0;
    }

    /** The loop of obus_packet_decode_header: tries every position until a header fits. */
    method SeekHeader() returns (found: bool)
      modifies this`pos
      ensures found == NextHeader(buf, old(pos)).Some?
      ensures found ==> NextHeader(buf, old(pos)).value == pos
      ensures !found ==> pos == if old(pos) + HEADER_SIZE <= |buf| then |buf| - (HEADER_SIZE - 1) else old(pos)
    {
      hide FromU32;
      while pos + HEADER_SIZE <= |buf|
        invariant old(pos) <= pos && (pos == old(pos) || pos + (HEADER_SIZE - 1) <= |buf|)
        invariant NextHeader(buf, old(pos)) == NextHeader(buf, pos)
        decreases |buf| - pos
      {
        var magic := FromU32(buf[pos], buf[pos + 1], buf[pos + 2], buf[pos + 3]);
        MagicNumber(buf[pos], buf[pos + 1], buf[pos + 2], buf[pos + 3]);
        if magic == MAGIC_NUMBER && buf[pos + 8] < PACKET_TYPES {
          return true;
        }
        pos := pos + 1;
      }
      return false;
    }

    /** obus_packet_decode_header. */
    method DecodeHeader() returns (found: bool)
      requires !hdrValid
      modifies this
      ensures Value() == Scan(old(Value())) && found == hdrValid
    {
      hide NextHeader, FromU32;
      found := SeekHeader();
      if found {
        var at := pos;
        hdrSize := FromU32(buf[at + 4], buf[at + 5], buf[at + 6], buf[at + 7]);
        pos := at + HEADER_SIZE;
        RemoveFirst(at);
        hdrValid := true;
      } else if |buf| >= HEADER_SIZE {
        RemoveFirst(|buf| - (HEADER_SIZE - 1));
      }
    }

    method ReadMore(chunk: seq<byte>)
      modifies this`buf
      ensures Value() == Fill(old(Value()), chunk)
    {
      buf := buf + chunk;
    }

    method EnsureHeader()
      modifies this
      ensures Value() == Scanned(old(Value()))
    {
      if !hdrValid {
        var _ := DecodeHeader();
      }
    }

    method TakePacket() returns (frame: seq<byte>)
      requires 0 < hdrSize <= |buf|
      modifies this
      ensures frame == old(buf)[..old(hdrSize)] && Value() == Consume(old(Value())) && |buf| < |old(buf)|
    {
      frame := buf[..hdrSize];
      RemoveFirst(hdrSize);
      pos := 0;
      hdrValid := false;
    }

    /** obus_packet_decoder_read, against what the socket yields and the payload decoder says. */
    method ReadPacket(input: seq<seq<byte>>, verdicts: seq<bool>) returns (r: Outcome)
      modifies this
      ensures r == Read(old(Value()), false, input, verdicts) && r.dec == Value()
    {
      hide Scan, Scanned, Consume, Fill, Bulk, Read, Then;
      var more, io, left := false, input, verdicts;
      var frames: seq<seq<byte>> := [];
      ThenNothing(Read(Value(), false, input, verdicts));
      while !more || io != []
        invariant Read(old(Value()), false, input, verdicts) == Then(frames, Read(Value(), more, io, left))
        decreases |io|, if more then 0 else 1, |buf|
      {
        ReadTurn(Value(), more, io, left);
        io := Look(more, io);
        if !hdrValid || |buf| < hdrSize {
          more := true;
        } else if hdrSize == 0 {
          OutcomeAfter(frames, Value(), io, left, [], false);
          return Outcome(Dec(buf, pos, hdrValid, hdrSize), io, left, frames, false);
        } else {
          var frame := TakePacket();
          OutcomeAfter(frames, Value(), io, Left(left, 1), [frame], true);
          ThenTwice(frames, [frame], Read(Value(), more, io, Left(left, 1)));
          frames := frames + [frame];
          if left == [] || left[0] {
            return Outcome(Dec(buf, pos, hdrValid, hdrSize), io, Left(left, 1), frames, true);
          }
          left := left[1..];
        }
      }
      ReadBlocks(Value(), io, left);
      OutcomeAfter(frames, Value(), io, left, [], false);
      return Outcome(Dec(buf, pos, hdrValid, hdrSize), io, left, frames, false);
    }

    /** Reads once if it must, then looks for a header. */
    method Look(more: bool, io: seq<seq<byte>>) returns (left: seq<seq<byte>>)
      requires !more || io != []
      modifies this
      ensures left == if more then io[1..] else io
      ensures Value() == Scanned(if more then Fill(old(Value()), io[0]) else old(Value()))
      ensures !more ==> |buf| <= |old(buf)|
    {
      left := io;
      if more {
        ReadMore(io[0]);
        left := io[1..];
      }
      ScanShrinks(Value());
      EnsureHeader();
    }
  }
}
