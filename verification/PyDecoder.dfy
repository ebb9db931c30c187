/** The Python stream decoder (python/obus/protocol.py): a state machine over bytes, fed with
    whatever the socket returns. */
module PyDecoder {
  import opened Values
  import opened Bytes
  import opened Framing

  /** Magic(k): k bytes of the magic number were seen. Head: part of a header, magic included.
      Body: a whole accepted header and part of its payload. */
  datatype Py = Magic(k: nat) | Head(hdr: seq<byte>) | Body(hdr: seq<byte>, payload: seq<byte>)

  datatype PyTrace = PyTrace(frames: seq<seq<byte>>, st: Py)

  function Prepend(frames: seq<seq<byte>>, t: PyTrace): PyTrace { t.(frames := frames + t.frames) }

  predicate PyOk(st: Py) {
    match st
    case Magic(k) => k < 4
    case Head(h) => 4 <= |h| < HEADER_SIZE
    case Body(h, p) => |h| == HEADER_SIZE && SizeAt(h, 0) >= HEADER_SIZE && |p| + HEADER_SIZE <= SizeAt(h, 0)
  }

  /** _decodeHeader: an unknown type or a size below the header's own restarts the search. */
  function AfterHeader(h: seq<byte>): (st: Py)
    requires |h| == HEADER_SIZE
    ensures PyOk(st)
  {
    if h[8] >= PACKET_TYPES || SizeAt(h, 0) < HEADER_SIZE then Magic(0) else Body(h, [])
  }

  predicate Complete(st: Py)
    requires PyOk(st)
  {
    st.Body? && |st.payload| + HEADER_SIZE == SizeAt(st.hdr, 0)
  }

  /** The reference: one byte at a time. A mismatch drops the bytes seen so far; an empty
      payload is only noticed when the next byte arrives, which it does not use up. */
  function Feed(st: Py, x: byte): (t: PyTrace)
    requires PyOk(st)
    ensures PyOk(t.st)
  {
    match st
    case Magic(k) =>
      PyTrace([], if x != MAGIC[k] then Magic(0) else if k < 3 then Magic(k + 1) else Head(MAGIC))
    case Head(h) =>
      PyTrace([], if |h| + 1 == HEADER_SIZE then AfterHeader(h + [x]) else Head(h + [x]))
    case Body(h, p) =>
      if Complete(st) then PyTrace([h + p], if x == MAGIC[0] then Magic(1) else Magic(0))
      else if |p| + 1 + HEADER_SIZE == SizeAt(h, 0) then PyTrace([h + p + [x]], Magic(0))
      else PyTrace([], Body(h, p + [x]))
  }

  function Run(st: Py, s: seq<byte>): (t: PyTrace)
    requires PyOk(st)
    ensures PyOk(t.st)
    decreases |s|
  {
    if s == [] then PyTrace([], st)
    else
      var t := Feed(st, s[0]);
      Prepend(t.frames, Run(t.st, s[1..]))
  }

  // ---- pieces ----

  lemma PrependTwice(a: seq<seq<byte>>, b: seq<seq<byte>>, t: PyTrace)
    ensures Prepend(a, Prepend(b, t)) == Prepend(a + b, t)
  {
    assert a + (b + t.frames) == (a + b) + t.frames;
  }

  /** The decoder's state carries everything: splitting the input anywhere changes nothing. */
  lemma {:induction false} RunSplits(st: Py, s: seq<byte>, t: seq<byte>)
    requires PyOk(st)
    ensures Run(st, s + t) == Prepend(Run(st, s).frames, Run(Run(st, s).st, t))
    decreases |s|
  {
    if s == [] {
      assert s + t == t;
    } else {
      var f := Feed(st, s[0]);
      assert (s + t)[0] == s[0] && (s + t)[1..] == s[1..] + t;
      RunSplits(f.st, s[1..], t);
      var r := Run(f.st, s[1..]);
      PrependTwice(f.frames, r.frames, Run(r.st, t));
    }
  }

  lemma {:induction false} RunHead(h: seq<byte>, x: seq<byte>)
    requires 4 <= |h| < HEADER_SIZE && |h| + |x| <= HEADER_SIZE
    ensures |h| + |x| < HEADER_SIZE ==> Run(Head(h), x) == PyTrace([], Head(h + x))
    ensures |h| + |x| == HEADER_SIZE ==> Run(Head(h), x) == PyTrace([], AfterHeader(h + x))
    decreases |x|
  {
    if x == [] {
      assert h + x == h;
    } else {
      assert h + [x[0]] + x[1..] == h + x;
      if |h| + 1 == HEADER_SIZE {
        assert x[1..] == [] && h + [x[0]] == h + x;
      } else {
        RunHead(h + [x[0]], x[1..]);
      }
    }
  }

  lemma {:induction false} RunBody(h: seq<byte>, p: seq<byte>, x: seq<byte>)
    requires PyOk(Body(h, p)) && !Complete(Body(h, p)) && |p| + |x| + HEADER_SIZE <= SizeAt(h, 0)
    ensures |p| + |x| + HEADER_SIZE < SizeAt(h, 0) ==> Run(Body(h, p), x) == PyTrace([], Body(h, p + x))
    ensures |p| + |x| + HEADER_SIZE == SizeAt(h, 0) ==> Run(Body(h, p), x) == PyTrace([h + (p + x)], Magic(0))
    decreases |x|
  {
    if x == [] {
      assert p + x == p;
    } else {
      assert p + [x[0]] + x[1..] == p + x;
      if |p| + 1 + HEADER_SIZE == SizeAt(h, 0) {
        assert x[1..] == [] && h + p + [x[0]] == h + (p + x);
      } else {
        RunBody(h, p + [x[0]], x[1..]);
      }
    }
  }

  // ---- on well-formed packets ----

  lemma RunMagic(x: seq<byte>)
    requires |x| == 4 && x == MAGIC
    ensures Run(Magic(0), x) == PyTrace([], Head(MAGIC))
  {
    assert Run(Magic(3), x[1..][1..][1..]) == PyTrace([], Head(MAGIC));
    assert Run(Magic(2), x[1..][1..]) == PyTrace([], Head(MAGIC));
    assert Run(Magic(1), x[1..]) == PyTrace([], Head(MAGIC));
  }

  lemma RunHeader(f: seq<byte>)
    requires IsPacket(f)
    ensures Run(Magic(0), f[..HEADER_SIZE]) == PyTrace([], Body(f[..HEADER_SIZE], []))
  {
    var m, r := f[..4], f[4..HEADER_SIZE];
    assert m == MAGIC;
    RunMagic(m);
    RunHead(MAGIC, r);
    assert MAGIC + r == f[..HEADER_SIZE] == m + r;
    RunSplits(Magic(0), m, r);
  }

  /** A packet with payload is delivered with its last byte. */
  lemma RunPacket(f: seq<byte>)
    requires IsPacket(f) && |f| > HEADER_SIZE
    ensures Run(Magic(0), f) == PyTrace([f], Magic(0))
  {
    var h, p := f[..HEADER_SIZE], f[HEADER_SIZE..];
    RunHeader(f);
    assert SizeAt(h, 0) == SizeAt(f, 0);
    RunBody(h, [], p);
    assert [] + p == p && h + p == f;
    RunSplits(Magic(0), h, p);
  }

  /** A packet without payload is delivered with the first byte after it. */
  lemma RunBare(f: seq<byte>, t: seq<byte>)
    requires IsPacket(f) && |f| == HEADER_SIZE && t != []
    ensures Run(Magic(0), f + t) == Prepend([f], Run(Magic(0), t))
  {
    assert f[..HEADER_SIZE] == f;
    RunHeader(f);
    RunSplits(Magic(0), f, t);
    assert f + [] == f;
    var a, b := Feed(Body(f, []), t[0]), Feed(Magic(0), t[0]);
    assert a.st == b.st && a.frames == [f] && b.frames == [];
    assert [] + Run(b.st, t[1..]).frames == Run(b.st, t[1..]).frames;
  }

  /** All packets, except a last one without payload, which waits for the next byte. */
  function Delivered(fs: seq<seq<byte>>): seq<seq<byte>> {
    if fs != [] && |fs[|fs| - 1]| == HEADER_SIZE then fs[..|fs| - 1] else fs
  }

  lemma {:induction false} RunPackets(fs: seq<seq<byte>>)
    requires forall i :: 0 <= i < |fs| ==> IsPacket(fs[i])
    ensures Run(Magic(0), Flatten(fs)).frames == Delivered(fs)
    decreases |fs|
  {
    if fs != [] {
      var f, rest := fs[0], Flatten(fs[1..]);
      RunPackets(fs[1..]);
      if |f| > HEADER_SIZE {
        RunPacket(f);
        RunSplits(Magic(0), f, rest);
        DeliveredTail(fs);
      } else if fs[1..] == [] {
        assert f + rest == f && f[..HEADER_SIZE] == f;
        RunHeader(f);
      } else {
        assert rest[..|fs[1]|] == fs[1];
        RunBare(f, rest);
        DeliveredTail(fs);
      }
    }
  }

  lemma DeliveredTail(fs: seq<seq<byte>>)
    requires fs != [] && (|fs[0]| != HEADER_SIZE || |fs| > 1)
    ensures Delivered(fs) == [fs[0]] + Delivered(fs[1..])
  {
  }

  /** On any stream of well-formed packets whose last one has a payload, Python and C take the
      same packets. */
  lemma AgreesWithC(fs: seq<seq<byte>>, events: seq<seq<seq<byte>>>)
    requires forall i :: 0 <= i < |fs| ==> IsPacket(fs[i])
    requires Received(events) == Flatten(fs)
    ensures Run(Magic(0), Flatten(fs)).frames == Session(Fresh(0), events, []).frames
       <==> fs == [] || |fs[|fs| - 1]| != HEADER_SIZE
  {
    RunPackets(fs);
    PacketsDelivered(fs, events);
  }

  // ---- resynchronisation ----

  /** How many of the first bytes agree with the magic number. */
  function Matched(g: seq<byte>, k: nat): (m: nat)
    requires k <= 4 && k <= |g| && g[..k] == MAGIC[..k]
    ensures k <= m <= 4 && m <= |g| && g[..m] == MAGIC[..m] && (m < 4 && m < |g| ==> g[m] != MAGIC[m])
    decreases 4 - k
  {
    if k < 4 && k < |g| && g[k] == MAGIC[k] then
      assert g[..k + 1] == g[..k] + [g[k]] && MAGIC[..k + 1] == MAGIC[..k] + [MAGIC[k]];
      Matched(g, k + 1)
    else k
  }

  /** Bytes between packets that leave Python looking for a fresh magic number: they do not end
      inside a partial magic number nor inside a header it is still collecting. Python drops a
      partial magic number together with the byte that breaks it, and a rejected header whole. */
  predicate AtRest(g: seq<byte>)
    decreases |g|
  {
    if g == [] then true
    else if g[0] != MAGIC[0] then AtRest(g[1..])
    else
      var m := Matched(g, 0);
      if m < 4 then m < |g| && AtRest(g[m + 1..])
      else HEADER_SIZE <= |g| && AtRest(g[HEADER_SIZE..])
  }

  lemma RunPartialMagic(m: nat)
    requires m < 4
    ensures Run(Magic(0), MAGIC[..m]) == PyTrace([], Magic(m))
  {
    if m > 0 {
      RunPartialMagic(m - 1);
      assert MAGIC[..m] == MAGIC[..m - 1] + [MAGIC[m - 1]];
      RunSplits(Magic(0), MAGIC[..m - 1], [MAGIC[m - 1]]);
      RunOne(Magic(m - 1), MAGIC[m - 1]);
    }
  }

  lemma RunOne(st: Py, x: byte)
    requires PyOk(st)
    ensures Run(st, [x]) == Feed(st, x)
  {
    var t := Feed(st, x);
    assert [x][1..] == [];
    assert Run(t.st, []) == PyTrace([], t.st);
    assert t.frames + [] == t.frames;
  }

  /** A magic number that breaks off costs the breaking byte too. */
  lemma RunBrokenMagic(m: nat, x: byte)
    requires m < 4 && x != MAGIC[m]
    ensures Run(Magic(0), MAGIC[..m] + [x]) == PyTrace([], Magic(0))
  {
    hide Run;
    RunPartialMagic(m);
    RunSplits(Magic(0), MAGIC[..m], [x]);
    RunOne(Magic(m), x);
    assert Feed(Magic(m), x) == PyTrace([], Magic(0));
    PrependNothing(Feed(Magic(m), x));
  }

  lemma PrependNothing(t: PyTrace)
    ensures Prepend([], t) == t
  {
    assert [] + t.frames == t.frames;
  }

  /** What Python has collected when g ends inside a header. */
  ghost predicate Collecting(g: seq<byte>, st: Py) {
    st.Head? && |st.hdr| <= |g| && st.hdr == g[|g| - |st.hdr|..] && 4 <= |st.hdr| < HEADER_SIZE && st.hdr[..4] == MAGIC
  }

  lemma RunOpenHeader(g: seq<byte>)
    requires 4 <= |g| < HEADER_SIZE && g[..4] == MAGIC
    ensures Run(Magic(0), g) == PyTrace([], Head(g))
  {
    RunMagic(g[..4]);
    RunHead(MAGIC, g[4..]);
    assert g == g[..4] + g[4..] && MAGIC + g[4..] == g;
    RunSplits(Magic(0), g[..4], g[4..]);
  }

  lemma RunRejectedHeader(g: seq<byte>)
    requires HEADER_SIZE <= |g| && g[..4] == MAGIC && !HeaderAt(g, 0)
    ensures Run(Magic(0), g[..HEADER_SIZE]) == PyTrace([], Magic(0))
  {
    var h := g[..HEADER_SIZE];
    assert h[..4] == MAGIC && h == h[..4] + h[4..] && MAGIC + h[4..] == h;
    assert g[0] == g[..4][0] && g[1] == g[..4][1] && g[2] == g[..4][2] && g[3] == g[..4][3];
    RunMagic(h[..4]);
    RunHead(MAGIC, h[4..]);
    RunSplits(Magic(0), h[..4], h[4..]);
  }

  ghost predicate NoHeader(g: seq<byte>) { forall i: nat :: i < |g| ==> !HeaderAt(g, i) }

  lemma NoHeaderBehind(g: seq<byte>, n: nat)
    requires NoHeader(g) && n <= |g|
    ensures NoHeader(g[n..])
  {
    forall i: nat | i < |g[n..]|
      ensures !HeaderAt(g[n..], i)
    {
      assert !HeaderAt(g, n + i);
    }
  }

  /** The rest of the bytes, once the first n of them have left Python at rest. */
  lemma RunBehind(g: seq<byte>, n: nat)
    requires 0 < n <= |g| && Run(Magic(0), g[..n]) == PyTrace([], Magic(0))
    ensures Run(Magic(0), g) == Run(Magic(0), g[n..])
    ensures forall st :: Collecting(g[n..], st) ==> Collecting(g, st)
  {
    hide Run;
    RunSplits(Magic(0), g[..n], g[n..]);
    assert g == g[..n] + g[n..];
    var r := Run(Magic(0), g[n..]);
    assert [] + r.frames == r.frames;
    forall st | Collecting(g[n..], st)
      ensures Collecting(g, st)
    {
      assert g[n..][|g[n..]| - |st.hdr|..] == g[|g| - |st.hdr|..];
    }
  }

  /** Where bytes without an accepted header leave Python. */
  lemma {:induction false} RunGap(g: seq<byte>)
    requires NoHeader(g)
    ensures var r := Run(Magic(0), g);
            r.frames == [] && (r.st == Magic(0) <==> AtRest(g)) && (r.st.Magic? || Collecting(g, r.st))
    decreases |g|
  {
    hide Run, NoHeader, Collecting, HeaderAt;
    if g == [] {
      RunPartialMagic(0);
      assert g == MAGIC[..0];
      return;
    }
    var m := Matched(g, 0);
    if m < 4 && m < |g| {
      RunBrokenMagic(m, g[m]);
      assert g[..m + 1] == g[..m] + [g[m]];
      RunBehind(g, m + 1);
      NoHeaderBehind(g, m + 1);
      RunGap(g[m + 1..]);
    } else if m < 4 {
      RunPartialMagic(m);
      assert g == g[..m];
    } else if HEADER_SIZE <= |g| {
      assert !HeaderAt(g, 0) by { FirstIsNoHeader(g); }
      RunRejectedHeader(g);
      RunBehind(g, HEADER_SIZE);
      NoHeaderBehind(g, HEADER_SIZE);
      RunGap(g[HEADER_SIZE..]);
    } else {
      RunOpenHeader(g);
      assert Collecting(g, Head(g)) by { AllCollected(g); }
    }
  }

  lemma FirstIsNoHeader(g: seq<byte>)
    requires NoHeader(g) && g != []
    ensures !HeaderAt(g, 0)
  {
  }

  lemma AllCollected(g: seq<byte>)
    requires 4 <= |g| < HEADER_SIZE && g[..4] == MAGIC
    ensures Collecting(g, Head(g))
  {
  }

  /** No packet is longer than what was pending and what was fed. */
  function Pending(st: Py): nat {
    match st case Magic(k) => k case Head(h) => |h| case Body(h, p) => |h| + |p|
  }

  lemma {:induction false} FramesFit(st: Py, s: seq<byte>)
    requires PyOk(st)
    ensures forall f :: f in Run(st, s).frames ==> |f| <= Pending(st) + |s|
    decreases |s|
  {
    if s != [] {
      var t := Feed(st, s[0]);
      FramesFit(t.st, s[1..]);
      assert Pending(t.st) <= Pending(st) + 1;
    }
  }

  lemma FrameTooLong(t: seq<byte>, f: seq<byte>)
    requires |t| < |f|
    ensures Run(Magic(0), t).frames != [f]
  {
    FramesFit(Magic(0), t);
    var fs := Run(Magic(0), t).frames;
    assert fs != [] ==> |fs[0]| <= |t|;
  }

  lemma MissedAfter(st: Py, f: seq<byte>, n: nat)
    requires PyOk(st) && 0 < n <= |f| && Run(st, f[..n]) == PyTrace([], Magic(0))
    ensures Run(st, f).frames != [f]
  {
    hide Run, Feed;
    assert f == f[..n] + f[n..];
    RunSplits(st, f[..n], f[n..]);
    PrependNothing(Run(Magic(0), f[n..]));
    FrameTooLong(f[n..], f);
  }

  /** In the middle of a magic number, the packet's first byte is taken for its continuation. */
  lemma MissedFromMagic(k: nat, f: seq<byte>)
    requires 0 < k < 4 && IsPacket(f)
    ensures Run(Magic(k), f).frames != [f]
  {
    hide Run, SizeAt;
    assert f[..1] == [f[0]];
    RunOne(Magic(k), f[0]);
    assert Feed(Magic(k), f[0]) == PyTrace([], Magic(0));
    MissedAfter(Magic(k), f, 1);
  }

  lemma CompletedHeader(g: seq<byte>, f: seq<byte>, h: seq<byte>)
    requires 4 <= |h| < HEADER_SIZE && |h| <= |g| && h == g[|g| - |h|..] && h[..4] == MAGIC
    requires HEADER_SIZE <= |f| && !HeaderAt(g + f, |g| - |h|)
    ensures f[HEADER_SIZE - |h| - 1] >= PACKET_TYPES
  {
    var a := |g| - |h|;
    assert h[..4][0] == g[a] && h[..4][1] == g[a + 1] && h[..4][2] == g[a + 2] && h[..4][3] == g[a + 3];
    assert (g + f)[a + 8] == f[a + 8 - |g|];
  }

  /** In the middle of a header, the packet's first bytes complete it; that header is rejected,
      since C would have found it. */
  lemma MissedFromHeader(g: seq<byte>, st: Py, f: seq<byte>)
    requires Collecting(g, st) && IsPacket(f) && !HeaderAt(g + f, |g| - |st.hdr|)
    ensures Run(st, f).frames != [f]
  {
    var h := st.hdr;
    var n := HEADER_SIZE - |h|;
    RunHead(h, f[..n]);
    CompletedHeader(g, f, h);
    MissedAfter(st, f, n);
  }

  lemma {:induction false} NothingBefore(s: seq<byte>, i: nat, j: nat, a: nat)
    requires NextHeader(s, i) == Some(j) && i <= a < j
    ensures !HeaderAt(s, a)
    decreases j - i
  {
    if i < a {
      NothingBefore(s, i + 1, j, a);
    }
  }

  lemma GapHasNoHeader(g: seq<byte>, f: seq<byte>)
    requires NextHeader(g + f, 0) == Some(|g|)
    ensures NoHeader(g)
  {
    forall i: nat | i < |g|
      ensures !HeaderAt(g, i)
    {
      NothingBefore(g + f, 0, |g|, i);
      if i + HEADER_SIZE <= |g| {
        HeaderStable(g, f, i);
      }
    }
  }

  /** After any bytes g that hold no packet, C finds the packet f that follows; Python finds it if
      and only if g leaves it at rest. */
  lemma Resynchronisation(g: seq<byte>, f: seq<byte>)
    requires IsPacket(f) && |f| > HEADER_SIZE && NextHeader(g + f, 0) == Some(|g|)
    ensures Walk(g + f, 0).frames == [f]
    ensures Run(Magic(0), g + f).frames == [f] <==> AtRest(g)
  {
    FoundBehind(g, f, []);
    assert f + [] == f && g + (f + []) == g + f;
    GapHasNoHeader(g, f);
    RunGap(g);
    RunSplits(Magic(0), g, f);
    var st := Run(Magic(0), g).st;
    assert [] + Run(st, f).frames == Run(st, f).frames;
    hide Run, Walk, AtRest, NextHeader;
    if st == Magic(0) {
      RunPacket(f);
    } else if st.Magic? {
      MissedFromMagic(st.k, f);
    } else {
      NothingBefore(g + f, 0, |g|, |g| - |st.hdr|);
      MissedFromHeader(g, st, f);
    }
  }

  lemma FoundBehind(g: seq<byte>, f: seq<byte>, t: seq<byte>)
    requires IsPacket(f) && NextHeader(g + f, 0) == Some(|g|)
    ensures Walk(g + (f + t), 0) == After([f], Walk(t, 0))
    ensures t == [] ==> Walk(g + (f + t), 0).frames == [f]
  {
    hide Walk, NextHeader;
    var s := g + (f + t);
    assert s == (g + f) + t;
    NextHeaderStable(g + f, t, 0);
    HeaderIsNext(s, |g|) by {
      assert HeaderAt(s, |g|) by { HeaderStable(g + f, t, |g|); }
    }
    WalkFrom(s, 0, |g|);
    WalkShift(s, |g|, 0);
    assert s[|g|..] == f + t;
    FirstPacket(f, t);
    NoFramesInNothing(0);
  }

  /** Simple to check: with no first magic byte among the last eight, Python is at rest. */
  lemma {:induction false} QuietEndIsAtRest(g: seq<byte>)
    requires forall i :: 0 <= i < |g| && i + HEADER_SIZE > |g| ==> g[i] != MAGIC[0]
    ensures AtRest(g)
    decreases |g|
  {
    if g != [] {
      var n := if g[0] != MAGIC[0] then 1 else if Matched(g, 0) < 4 then Matched(g, 0) + 1 else HEADER_SIZE;
      if g[0] == MAGIC[0] {
        assert HEADER_SIZE <= |g|;
      }
      forall i | 0 <= i < |g[n..]| && i + HEADER_SIZE > |g[n..]|
        ensures g[n..][i] != MAGIC[0]
      {
        assert g[n..][i] == g[n + i];
      }
      QuietEndIsAtRest(g[n..]);
    }
  }

  /** A single stray first byte loses any packet behind it. */
  lemma StrayByteLosesPacket(f: seq<byte>)
    requires IsPacket(f) && |f| > HEADER_SIZE
    ensures NextHeader([MAGIC[0]] + f, 0) == Some(1) && Run(Magic(0), [MAGIC[0]] + f).frames != [f]
  {
    var g := [MAGIC[0]];
    var s := g + f;
    assert s[1] == f[0] && !HeaderAt(s, 0);
    assert s[1..] == f;
    NextHeaderShift(s, 1, 0);
    HeaderIsNext(f, 0);
    assert Matched(g, 0) == 1;
    assert !AtRest(g);
    Resynchronisation(g, f);
  }

  /** A stream of packets with other bytes before each of them. */
  function WithGaps(gs: seq<seq<byte>>, fs: seq<seq<byte>>): seq<byte>
    requires |gs| == |fs|
  {
    if fs == [] then [] else gs[0] + (fs[0] + WithGaps(gs[1..], fs[1..]))
  }

  /** Both decoders find all packets of such a stream if each gap leaves Python at rest. */
  lemma {:induction false} GapsSkipped(gs: seq<seq<byte>>, fs: seq<seq<byte>>)
    requires |gs| == |fs|
    requires forall i :: 0 <= i < |fs| ==>
               IsPacket(fs[i]) && |fs[i]| > HEADER_SIZE && AtRest(gs[i]) && NextHeader(gs[i] + fs[i], 0) == Some(|gs[i]|)
    ensures Walk(WithGaps(gs, fs), 0).frames == fs && Run(Magic(0), WithGaps(gs, fs)) == PyTrace(fs, Magic(0))
    decreases |fs|
  {
    hide Walk, Run, AtRest, NextHeader, IsPacket;
    if fs == [] {
      NoFramesInNothing(0);
      RunPartialMagic(0);
      assert MAGIC[..0] == [];
    } else {
      var g, f, t := gs[0], fs[0], WithGaps(gs[1..], fs[1..]);
      GapsSkipped(gs[1..], fs[1..]);
      FoundBehind(g, f, t);
      GapHasNoHeader(g, f);
      RunGap(g);
      RunSplits(Magic(0), g, f + t);
      RunPacket(f);
      RunSplits(Magic(0), f, t);
      assert [f] + fs[1..] == fs && [] + fs == fs;
    }
  }

  // ---- the decoder as the object the code mutates ----

  const IDLE := 0
  const HEADER_MAGIC_0 := 1
  const HEADER := 5
  const PAYLOAD := 6

  class Decoder {
    var state: nat
    var headerBuf: seq<byte>
    var payloadBuf: seq<byte>

    ghost function Value(): Py
      reads this
    {
      if state <= HEADER_MAGIC_0 then Magic(0)
      else if state < HEADER then Magic(state - 1)
      else if state == HEADER then Head(headerBuf)
      else Body(headerBuf, payloadBuf)
    }

    ghost predicate Valid()
      reads this
    {
      state <= PAYLOAD && PyOk(Value()) && (1 < state < HEADER ==> headerBuf == MAGIC[..state - 1])
    }

    constructor ()
      ensures Valid() && Value() == Magic(0)
    {
      state, headerBuf, payloadBuf := IDLE, [], [];
    }

    /** One of the four magic states. */
    method TakeMagic(x: byte)
      requires Valid() && HEADER_MAGIC_0 <= state < HEADER
      modifies this
      ensures Valid() && state != IDLE && PyTrace([], Value()) == Feed(old(Value()), x)
    {
      if state == HEADER_MAGIC_0 {
        headerBuf, payloadBuf := [], [];
      }
      headerBuf := headerBuf + [x];
      if x != MAGIC[state - 1] {
        state := HEADER_MAGIC_0;
      } else {
        state := state + 1;
      }
    }

    method TakeHeader(x: seq<byte>)
      requires Valid() && state == HEADER && 0 < |x| && |headerBuf| + |x| <= HEADER_SIZE
      modifies this
      ensures Valid() && state != IDLE && PyTrace([], Value()) == Run(old(Value()), x)
    {
      RunHead(headerBuf, x);
      headerBuf := headerBuf + x;
      if |headerBuf| == HEADER_SIZE {
        var size := FromU32(headerBuf[4], headerBuf[5], headerBuf[6], headerBuf[7]);
        if headerBuf[8] >= PACKET_TYPES || size < HEADER_SIZE {
          state := HEADER_MAGIC_0;
        } else {
          state, payloadBuf := PAYLOAD, [];
        }
      }
    }

    method TakePayload(x: seq<byte>, ghost y: seq<byte>) returns (packet: Option<seq<byte>>)
      requires Valid() && state == PAYLOAD && |payloadBuf| + |x| + HEADER_SIZE <= SizeAt(headerBuf, 0)
      requires x == [] ==> Complete(Value()) && y != []
      modifies this
      ensures Valid() && (packet.Some? <==> state == IDLE)
      ensures packet.Some? <==> old(|payloadBuf|) + |x| + HEADER_SIZE == SizeAt(old(headerBuf), 0)
      ensures packet.None? ==> Run(old(Value()), x + y) == Run(Value(), y)
      ensures packet.Some? ==> Value() == Magic(0) && Run(old(Value()), x + y) == Prepend([packet.value], Run(Value(), y))
    {
      PayloadStep(headerBuf, payloadBuf, x, y);
      payloadBuf := payloadBuf + x;
      packet := None;
      if |payloadBuf| + HEADER_SIZE == FromU32(headerBuf[4], headerBuf[5], headerBuf[6], headerBuf[7]) {
        packet := Some(headerBuf + payloadBuf);
        state := IDLE;
      }
    }

    /** One turn of the decoding loop. Only a complete empty payload uses up no byte. */
    method Turn(buf: seq<byte>, at: nat) returns (off: nat, packet: Option<seq<byte>>)
      requires Valid() && state != IDLE && at < |buf|
      modifies this
      ensures Valid() && at <= off <= |buf| && (packet.Some? <==> state == IDLE)
      ensures packet.None? ==> at < off && Run(old(Value()), buf[at..]) == Run(Value(), buf[off..])
      ensures packet.Some? ==> Value() == Magic(0) && Run(old(Value()), buf[at..]) == Prepend([packet.value], Run(Value(), buf[off..]))
      ensures off == at ==> old(Complete(Value()))
    {
      hide Feed, AfterHeader, FromU32;
      ghost var rest := buf[at..];
      packet := None;
      if state < HEADER {
        assert rest[0] == buf[at] && rest[1..] == buf[at + 1..];
        TakeMagic(buf[at]);
        off := at + 1;
        assert [] + Run(Value(), buf[off..]).frames == Run(Value(), buf[off..]).frames;
      } else if state == HEADER {
        off := at + Min(|buf| - at, HEADER_SIZE - |headerBuf|);
        assert rest == buf[at..off] + buf[off..];
        RunSplits(Value(), buf[at..off], buf[off..]);
        TakeHeader(buf[at..off]);
        assert [] + Run(Value(), buf[off..]).frames == Run(Value(), buf[off..]).frames;
      } else {
        var size := FromU32(headerBuf[4], headerBuf[5], headerBuf[6], headerBuf[7]);
        off := at + Min(|buf| - at, size - HEADER_SIZE - |payloadBuf|);
        assert rest == buf[at..off] + buf[off..];
        packet := TakePayload(buf[at..off], buf[off..]);
      }
    }

    /** decode(buf, off): returns at the first packet, or at the end of the input. */
    method Decode(buf: seq<byte>, start: nat) returns (off: nat, packet: Option<seq<byte>>)
      requires Valid() && start < |buf|
      modifies this
      ensures Valid() && start <= off <= |buf|
      ensures packet.None? ==> off == |buf| && Run(old(Value()), buf[start..]) == Run(Value(), buf[off..])
      ensures packet.Some? ==> Run(old(Value()), buf[start..]) == Prepend([packet.value], Run(Value(), buf[off..]))
      ensures off == start ==> old(Complete(Value())) && !Complete(Value())
    {
      ghost var whole := Run(Value(), buf[start..]);
      if state == IDLE {
        state := HEADER_MAGIC_0;
      }
      off, packet := start, None;
      while off < |buf| && state != IDLE
        invariant Valid() && start <= off <= |buf|
        invariant packet.None? <==> state != IDLE
        invariant packet.None? ==> whole == Run(Value(), buf[off..])
        invariant packet.Some? ==> whole == Prepend([packet.value], Run(Value(), buf[off..]))
        invariant off == start && packet.None? ==> Value() == old(Value())
        invariant off == start && packet.Some? ==> old(Complete(Value())) && Value() == Magic(0)
        decreases |buf| - off, if state == IDLE then 0 else 1
      {
        off, packet := Turn(buf, off);
      }
    }

    /** The reader thread's loop over one received block. */
    method DecodeBlock(buf: seq<byte>) returns (frames: seq<seq<byte>>)
      requires Valid()
      modifies this
      ensures Valid() && PyTrace(frames, Value()) == Run(old(Value()), buf)
    {
      frames := [];
      var off := 0;
      assert buf[0..] == buf;
      while off < |buf|
        invariant Valid() && off <= |buf|
        invariant Run(old(Value()), buf) == Prepend(frames, Run(Value(), buf[off..]))
        decreases |buf| - off, if Complete(Value()) then 1 else 0
      {
        var packet;
        off, packet := Decode(buf, off);
        if packet.Some? {
          PrependTwice(frames, [packet.value], Run(Value(), buf[off..]));
          frames := frames + [packet.value];
        }
      }
    }

    /** A connection: whatever the blocks, the packets are those of the bytes one by one. */
    method Connection(blocks: seq<seq<byte>>) returns (frames: seq<seq<byte>>)
      requires Valid()
      modifies this
      ensures Valid() && PyTrace(frames, Value()) == Run(old(Value()), Flatten(blocks))
    {
      hide Feed;
      frames := [];
      var i := 0;
      assert blocks[0..] == blocks;
      while i < |blocks|
        invariant 0 <= i <= |blocks| && Valid()
        invariant Run(old(Value()), Flatten(blocks)) == Prepend(frames, Run(Value(), Flatten(blocks[i..])))
      {
        assert blocks[i..][0] == blocks[i] && blocks[i..][1..] == blocks[i + 1..];
        RunSplits(Value(), blocks[i], Flatten(blocks[i + 1..]));
        var more := DecodeBlock(blocks[i]);
        PrependTwice(frames, more, Run(Value(), Flatten(blocks[i + 1..])));
        frames := frames + more;
        i := i + 1;
      }
    }
  }

  /** Copying as much payload as there is, or as is missing. */
  lemma PayloadStep(h: seq<byte>, p: seq<byte>, x: seq<byte>, y: seq<byte>)
    requires PyOk(Body(h, p)) && |p| + |x| + HEADER_SIZE <= SizeAt(h, 0)
    requires x == [] ==> Complete(Body(h, p)) && y != []
    ensures |p| + |x| + HEADER_SIZE < SizeAt(h, 0) ==> Run(Body(h, p), x + y) == Run(Body(h, p + x), y)
    ensures |p| + |x| + HEADER_SIZE == SizeAt(h, 0) ==> Run(Body(h, p), x + y) == Prepend([h + (p + x)], Run(Magic(0), y))
  {
    if Complete(Body(h, p)) {
      assert x == [] && x + y == y && p + x == p;
      var a, b := Feed(Body(h, p), y[0]), Feed(Magic(0), y[0]);
      assert a.st == b.st && a.frames == [h + p] && b.frames == [];
      assert [] + Run(b.st, y[1..]).frames == Run(b.st, y[1..]).frames;
    } else {
      RunBody(h, p, x);
      RunSplits(Body(h, p), x, y);
      if |p| + |x| + HEADER_SIZE < SizeAt(h, 0) {
        assert [] + Run(Body(h, p + x), y).frames == Run(Body(h, p + x), y).frames;
      }
    }
  }
}
