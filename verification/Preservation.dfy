/** Every step of the system keeps the invariant. */
module Preservation {
  import opened Images
  import opened Blocks
  import opened ServerCore
  import opened Protocol
  import opened Invariant
  import R = Ring

  // --- the connection -----------------------------------------------------------------------------

  lemma TrackedExtends(c: Config, history: seq<Write>, more: seq<Write>, core: Core)
    requires Tracked(c, history, core)
    ensures Tracked(c, history + more, core)
  {
    if core.synced {
      AtExtends(history, more, c.base, core.pos);
    } else if core.skip.Skip? {
      assert (history + more)[core.skip.from..core.pos] == history[core.skip.from..core.pos];
    }
  }

  lemma PacketExtends(c: Config, history: seq<Write>, more: seq<Write>, core: Core, p: Packet)
    requires PacketOk(c, history, core, p)
    ensures PacketOk(c, history + more, core, p)
  {
    if p.HashingCompleted? && !p.stale && (core.mode == Hashing || core.mode == JournalOverflow)
       && FromHistory(history, core) {
      var end := core.from + |core.writes|;
      AtExtends(history, more, c.base, end);
      assert (history + more)[core.from..end] == history[core.from..end];
    }
  }

  lemma NetExtends(c: Config, history: seq<Write>, more: seq<Write>, core: Core, net: seq<Packet>)
    requires NetOk(c, history, core, net)
    ensures NetOk(c, history + more, core, net)
  {
    hide Tracked, PacketOk, Upcoming;
    forall k: nat | k <= |net| ensures Tracked(c, history + more, Upcoming(c, core, net, k)) {
      TrackedExtends(c, history, more, Upcoming(c, core, net, k));
    }
    forall k: nat | k < |net| ensures PacketOk(c, history + more, Upcoming(c, core, net, k), net[k]) {
      PacketExtends(c, history, more, Upcoming(c, core, net, k), net[k]);
    }
  }

  lemma UpcomingSend(c: Config, core: Core, net: seq<Packet>, p: Packet, k: nat)
    requires k <= |net| + 1
    ensures Upcoming(c, core, net + [p], k)
            == if k <= |net| then Upcoming(c, core, net, k) else Deliver(c.caps, Run(c.caps, core, net), p)
    ensures Upcoming(c, core, net, |net|) == Run(c.caps, core, net)
  {
    RunSend(c.caps, core, net, p);
    assert net[..|net|] == net;
    if k <= |net| {
      assert (net + [p])[..k] == net[..k];
    } else {
      assert (net + [p])[..k] == net + [p];
    }
  }

  lemma NetSend(c: Config, history: seq<Write>, core: Core, net: seq<Packet>, p: Packet)
    requires NetOk(c, history, core, net)
    requires Tracked(c, history, Deliver(c.caps, Run(c.caps, core, net), p))
    requires PacketOk(c, history, Run(c.caps, core, net), p)
    ensures NetOk(c, history, core, net + [p])
  {
    hide Tracked, PacketOk, Deliver, Upcoming, Run;
    var net' := net + [p];
    forall k: nat | k <= |net'| ensures Tracked(c, history, Upcoming(c, core, net', k)) {
      UpcomingSend(c, core, net, p, k);
    }
    forall k: nat | k < |net'| ensures PacketOk(c, history, Upcoming(c, core, net', k), net'[k]) {
      UpcomingSend(c, core, net, p, k);
    }
  }

  lemma UpcomingDeliver(c: Config, core: Core, net: seq<Packet>, k: nat)
    requires k < |net|
    ensures Upcoming(c, Deliver(c.caps, core, net[0]), net[1..], k) == Upcoming(c, core, net, k + 1)
  {
    RunDeliver(c.caps, core, net[..k + 1]);
    assert net[..k + 1][1..] == net[1..][..k];
  }

  lemma NetDeliver(c: Config, history: seq<Write>, core: Core, net: seq<Packet>)
    requires NetOk(c, history, core, net) && net != []
    ensures NetOk(c, history, Deliver(c.caps, core, net[0]), net[1..])
  {
    hide Tracked, PacketOk, Deliver, Upcoming;
    var core', net' := Deliver(c.caps, core, net[0]), net[1..];
    forall k: nat | k <= |net'| ensures Tracked(c, history, Upcoming(c, core', net', k)) {
      UpcomingDeliver(c, core, net, k);
    }
    forall k: nat | k < |net'| ensures PacketOk(c, history, Upcoming(c, core', net', k), net'[k]) {
      UpcomingDeliver(c, core, net, k);
    }
  }

  /** What holds of the server as it is, and of the next packet. */
  lemma HeadOk(c: Config, history: seq<Write>, core: Core, net: seq<Packet>)
    requires NetOk(c, history, core, net)
    ensures Tracked(c, history, core)
    ensures net != [] ==> PacketOk(c, history, core, net[0])
  {
    assert net[..0] == [] && Upcoming(c, core, net, 0) == core;
  }

  /** A packet that leaves the replica alone, or that keeps it a prefix, can be sent. */
  lemma FinalTracked(c: Config, s: System)
    requires NetOk(c, s.history, s.core, s.toServer)
    ensures Tracked(c, s.history, Final(c, s))
  {
    assert Tracked(c, s.history, Upcoming(c, s.core, s.toServer, |s.toServer|));
    assert s.toServer[..|s.toServer|] == s.toServer;
  }

  // --- source and ring ------------------------------------------------------------------------------

  lemma RingPut(history: seq<Write>, ring: R.Ring<Write>, info: R.Info, next: nat, readPos: nat, w: Write)
    requires RingOk(history, ring, info, next, readPos)
    ensures RingOk(history + [w], R.Put(ring, w), info, next, readPos)
  {
    hide R.Put, R.Pending, R.Batch;
    R.PutEffect(ring, w);
  }

  lemma RingRead(history: seq<Write>, ring: R.Ring<Write>, info: R.Info, next: nat, readPos: nat)
    requires RingOk(history, ring, info, next, readPos) && !ring.overflown
    ensures RingOk(history, R.Read(ring), R.InfoOf(ring), 0, readPos + ring.length)
  {
    R.ReadEffect(ring);
  }

  lemma RingReset(history: seq<Write>, ring: R.Ring<Write>)
    requires R.Valid(ring)
    ensures RingOk(history, R.Reset(ring), R.Info(0, 0, false), 0, |history|)
  {
    R.ResetEffect(ring);
  }

  /** The client finds the next write of the history in the slot it computes. */
  lemma RingNext(history: seq<Write>, ring: R.Ring<Write>, info: R.Info, next: nat, readPos: nat)
    requires RingOk(history, ring, info, next, readPos) && next < info.length
    ensures info.offset < |ring.slots| && next < |ring.slots|
    ensures 0 <= readPos - (info.length - next) < |history| && readPos <= |history|
    ensures R.Decode(ring, info, next) == history[readPos - (info.length - next)]
    ensures RingOk(history, ring, info, next + 1, readPos)
  {
    R.DecodeBatch(ring, info, next);
    var b := R.Batch(ring);
    assert b[next..][0] == b[next] && b[next..][1..] == b[next + 1..];
  }

  // --- bytes seen ------------------------------------------------------------------------------------

  lemma SeenAllLater(c: Config, history: seq<Write>, more: seq<Write>, lo: nat, hi: nat, hi': nat, ws: seq<Write>)
    requires hi <= |history| && hi <= hi' <= |history + more| && SeenAll(c, history, lo, hi, ws)
    ensures SeenAll(c, history + more, lo, hi', ws)
  {
    forall k, i: nat | 0 <= k < |ws| && i < |c.base| && Covers(ws[k], i)
      ensures Seen(history + more, c.base, lo, hi', i, ws[k].data[i - ws[k].offset])
    {
      SeenLater(history, more, c.base, lo, hi, hi', i, ws[k].data[i - ws[k].offset]);
    }
  }

  lemma WorkLater(c: Config, history: seq<Write>, more: seq<Write>, lo: nat, hi: nat, hi': nat, work: map<Chunk, Item>)
    requires hi <= |history| && hi <= hi' <= |history + more| && WorkOk(c, history, lo, hi, work)
    ensures WorkOk(c, history + more, lo, hi', work)
  {
    forall ch, i: nat | ch in work && i in work[ch].got && i < |c.base|
      ensures Seen(history + more, c.base, lo, hi', i, work[ch].got[i])
    {
      SeenLater(history, more, c.base, lo, hi, hi', i, work[ch].got[i]);
    }
  }

  lemma BytesLater(c: Config, history: seq<Write>, more: seq<Write>, lo: nat, hi: nat, hi': nat,
                   blocks: seq<Write>, replica: Image, rest: set<Chunk>)
    requires hi <= |history| && hi <= hi' <= |history + more| && |replica| == |c.base|
    requires BytesOk(c, history, lo, hi, blocks, replica, rest)
    ensures BytesOk(c, history + more, lo, hi', blocks, replica, rest)
  {
    SeenAllLater(c, history, more, lo, hi, hi', blocks);
    forall i: nat | i < |c.base| && Seen(history, c.base, lo, hi, i, replica[i])
      ensures Seen(history + more, c.base, lo, hi', i, replica[i])
    {
      SeenLater(history, more, c.base, lo, hi, hi', i, replica[i]);
    }
  }

  /** The bytes of a block read in full. */
  lemma BufferSeen(c: Config, history: seq<Write>, lo: nat, hi: nat, work: map<Chunk, Item>, ch: Chunk)
    requires hi <= |history| && WorkOk(c, history, lo, hi, work) && ch in work && Complete(ch, work[ch])
    ensures SeenAll(c, history, lo, hi, [Write(ch.offset, Buffer(ch, work[ch]))])
  {
    hide Seen;
    var w := Write(ch.offset, Buffer(ch, work[ch]));
    forall i: nat | i < |c.base| && Covers(w, i)
      ensures Seen(history, c.base, lo, hi, i, w.data[i - w.offset])
    {
      assert w.data[i - w.offset] == work[ch].got[i];
    }
  }

  /** A differing block goes to the journal. */
  lemma BlockJournaled(c: Config, history: seq<Write>, lo: nat, hi: nat, blocks: seq<Write>, replica: Image,
                       rest: set<Chunk>, rest': set<Chunk>, ch: Chunk, w: Write)
    requires hi <= |history| && |replica| == |c.base|
    requires BytesOk(c, history, lo, hi, blocks, replica, rest) && rest <= rest' + {ch}
    requires SeenAll(c, history, lo, hi, [w]) && w.offset == ch.offset && |w.data| == ch.size
    ensures BytesOk(c, history, lo, hi, blocks + [w], replica, rest')
  {
    var blocks' := blocks + [w];
    forall k, i: nat | 0 <= k < |blocks'| && i < |c.base| && Covers(blocks'[k], i)
      ensures Seen(history, c.base, lo, hi, i, blocks'[k].data[i - blocks'[k].offset])
    {
      if k == |blocks| {
        assert [w][0] == blocks'[k];
      } else {
        assert blocks'[k] == blocks[k];
      }
    }
    forall i: nat | i < |c.base|
      ensures Covered(blocks', i) || Seen(history, c.base, lo, hi, i, replica[i]) || InSome(rest', i)
    {
      if Covered(blocks, i) {
        var k :| 0 <= k < |blocks| && Covers(blocks[k], i);
        assert Covers(blocks'[k], i);
      } else if InSome(rest, i) {
        var d :| d in rest && In(d, i);
        if d == ch {
          assert Covers(blocks'[|blocks|], i);
        }
      }
    }
  }

  /** An equal block is right on the replica. */
  lemma BlockEqual(c: Config, history: seq<Write>, lo: nat, hi: nat, blocks: seq<Write>, replica: Image,
                   rest: set<Chunk>, rest': set<Chunk>, ch: Chunk, w: Write)
    requires hi <= |history| && |replica| == |c.base| && ch.offset + ch.size <= |replica|
    requires BytesOk(c, history, lo, hi, blocks, replica, rest) && rest <= rest' + {ch}
    requires SeenAll(c, history, lo, hi, [w]) && w == Write(ch.offset, Slice(replica, ch))
    ensures BytesOk(c, history, lo, hi, blocks, replica, rest')
  {
    forall i: nat | i < |c.base|
      ensures Covered(blocks, i) || Seen(history, c.base, lo, hi, i, replica[i]) || InSome(rest', i)
    {
      if InSome(rest, i) {
        var d :| d in rest && In(d, i);
        if d == ch {
          assert Covers([w][0], i);
        }
      }
    }
  }

  /** When no comparison is left, blocks and replica make a copy of the source. */
  lemma ScanComplete(c: Config, history: seq<Write>, lo: nat, hi: nat, blocks: seq<Write>, replica: Image)
    requires hi <= |history| && |replica| == |c.base|
    requires BytesOk(c, history, lo, hi, blocks, replica, {})
    ensures CopiedBetween(history, c.base, lo, hi, Apply(blocks, replica))
  {
    forall i: nat | i < |c.base| ensures Seen(history, c.base, lo, hi, i, Apply(blocks, replica)[i]) {
      ApplyByte(blocks, replica, i);
    }
  }

  // --- steps of the source ------------------------------------------------------------------------

  lemma SourceWriteScan(c: Config, s: System, w: Write, f: Core)
    requires s.landed <= |s.history| && |s.core.replica| == |c.base| == |f.replica| && ScanInv(c, s, f)
    ensures ScanInv(c, s.(history := s.history + [w], ring := R.Put(s.ring, w)), f)
  {
    if !CommandFlying(s.toServer) {
      WorkLater(c, s.history, [w], s.start, s.landed, s.landed, s.work);
      if f.mode == Hashing {
        BytesLater(c, s.history, [w], s.start, s.landed, s.landed, f.blocks, f.replica, Outstanding(s));
      }
    }
  }

  lemma SourceWriteDrain(c: Config, s: System, w: Write, f: Core, hi: int)
    requires DrainInv(c, s, f, hi)
    ensures DrainInv(c, s.(history := s.history + [w], ring := R.Put(s.ring, w)), f, hi)
  {
    if f.mode == Hashing {
      CopiedLater(s.history, [w], c.base, s.start, hi, hi, Apply(f.blocks, f.replica));
      assert (s.history + [w])[s.start..Sent(s)] == s.history[s.start..Sent(s)];
    } else if f.mode == JournalOverflow {
      var end := f.from + |f.writes|;
      assert (s.history + [w])[f.from..end] == s.history[f.from..end];
    }
  }

  lemma SourceWriteCopy(c: Config, s: System, w: Write, f: Core)
    requires s.landed <= |s.history| && |f.replica| == |c.base| && CopyInv(c, s, f)
    ensures CopyInv(c, s.(history := s.history + [w], ring := R.Put(s.ring, w)), f)
  {
    WorkLater(c, s.history, [w], s.start, s.landed, s.landed, s.work);
    forall i: nat | i < |c.base| && Seen(s.history, c.base, s.start, s.landed, i, f.replica[i])
      ensures Seen(s.history + [w], c.base, s.start, s.landed, i, f.replica[i])
    {
      SeenLater(s.history, [w], c.base, s.start, s.landed, s.landed, i, f.replica[i]);
    }
  }

  lemma SourceWriteCatchUp(c: Config, s: System, w: Write, f: Core, hi: nat)
    requires |f.replica| == |c.base| && CatchUpInv(c, s, f, hi)
    ensures CatchUpInv(c, s.(history := s.history + [w], ring := R.Put(s.ring, w)), f, hi)
  {
    assert (s.history + [w])[s.start..Sent(s)] == s.history[s.start..Sent(s)];
    AtExtends(s.history, [w], c.base, Sent(s));
    forall i: nat | i < |c.base| && Seen(s.history, c.base, s.start, hi, i, f.replica[i])
      ensures Seen(s.history + [w], c.base, s.start, hi, i, f.replica[i])
    {
      SeenLater(s.history, [w], c.base, s.start, hi, hi, i, f.replica[i]);
    }
  }

  lemma SourceWriteLive(c: Config, s: System, w: Write, f: Core)
    requires LiveInv(c, s, f)
    ensures LiveInv(c, s.(history := s.history + [w], ring := R.Put(s.ring, w)), f)
  {
    AtExtends(s.history, [w], c.base, Sent(s));
  }

  lemma SourceWritePhase(c: Config, s: System, w: Write, f: Core)
    requires s.landed <= |s.history| && |s.core.replica| == |c.base| == |f.replica| && PhaseInv(c, s, f)
    ensures PhaseInv(c, s.(history := s.history + [w], ring := R.Put(s.ring, w)), f)
  {
    match s.phase
    case Boot => SourceWriteLive(c, s, w, f);
    case Live =>
      if s.owed { SourceWriteDrain(c, s, w, f, Sent(s)); } else { SourceWriteLive(c, s, w, f); }
    case Scanning => SourceWriteScan(c, s, w, f);
    case Draining => SourceWriteDrain(c, s, w, f, s.readPos);
    case Copying => SourceWriteCopy(c, s, w, f);
    case CatchingUp(hi) => SourceWriteCatchUp(c, s, w, f, hi);
    case Stopped =>
  }

  lemma SourceWriteKeeps(c: Config, s: System, w: Write)
    requires Inv(c, s)
    ensures Inv(c, Do(c, s, SourceWrite(w)))
  {
    hide PhaseInv, RingOk, NetOk;
    SourceWritePhase(c, s, w, Final(c, s));
    NetExtends(c, s.history, [w], s.core, s.toServer);
    RingPut(s.history, s.ring, s.info, s.next, s.readPos, w);
    AtExtends(s.history, [w], c.base, s.landed);
  }

  lemma LandsScan(c: Config, s: System, s': System, f: Core)
    requires s.landed < |s.history| && s' == s.(landed := s.landed + 1, source := s'.source)
    requires |s.core.replica| == |c.base| == |f.replica| && ScanInv(c, s, f)
    ensures ScanInv(c, s', f)
  {
    assert s.history + [] == s.history;
    if !CommandFlying(s.toServer) {
      WorkLater(c, s.history, [], s.start, s.landed, s'.landed, s.work);
      if f.mode == Hashing {
        BytesLater(c, s.history, [], s.start, s.landed, s'.landed, f.blocks, f.replica, Outstanding(s));
      }
    }
  }

  lemma LandsCopy(c: Config, s: System, s': System, f: Core)
    requires s.landed < |s.history| && s' == s.(landed := s.landed + 1, source := s'.source)
    requires |f.replica| == |c.base| && CopyInv(c, s, f)
    ensures CopyInv(c, s', f)
  {
    assert s.history + [] == s.history;
    WorkLater(c, s.history, [], s.start, s.landed, s'.landed, s.work);
    forall i: nat | i < |c.base| && Seen(s.history, c.base, s.start, s.landed, i, f.replica[i])
      ensures Seen(s.history, c.base, s.start, s'.landed, i, f.replica[i])
    {
      SeenLater(s.history, [], c.base, s.start, s.landed, s'.landed, i, f.replica[i]);
    }
  }

  lemma LandsPhase(c: Config, s: System, s': System, f: Core)
    requires s.landed < |s.history| && s' == s.(landed := s.landed + 1, source := s'.source)
    requires |s.core.replica| == |c.base| == |f.replica| && PhaseInv(c, s, f)
    ensures PhaseInv(c, s', f)
  {
    hide CopiedBetween, Seen, ScanInv, CopyInv;
    match s.phase
    case Scanning => LandsScan(c, s, s', f);
    case Copying => LandsCopy(c, s, s', f);
    case _ =>
  }

  lemma WriteLandsKeeps(c: Config, s: System)
    requires Inv(c, s) && Enabled(c, s, WriteLands)
    ensures Inv(c, Do(c, s, WriteLands))
  {
    hide PhaseInv, RingOk, NetOk;
    LandsPhase(c, s, Do(c, s, WriteLands), Final(c, s));
    AtNext(s.history, c.base, s.landed);
  }

  // --- sending and delivering -----------------------------------------------------------------------

  lemma NoCommandTail(net: seq<Packet>)
    requires NoCommand(net) && net != []
    ensures !net[0].CmdStartHashing? && NoCommand(net[1..])
  {
  }

  lemma AllBytesInChunks(c: Config)
    requires c.blockSize > 0
    ensures forall i: nat :: i < |c.base| ==> InSome(AllChunks(c), i)
    ensures WithinDevice(c, AllChunks(c))
  {
    var cs := Chunks(0, |c.base|, c.blockSize);
    forall i: nat | i < |c.base| ensures InSome(AllChunks(c), i) {
      EveryByteInAChunk(0, |c.base|, c.blockSize, i);
      var k :| 0 <= k < |cs| && In(cs[k], i);
      assert cs[k] in AllChunks(c);
    }
  }

  /** The request arrives, and behind it perhaps the completion packet, which finds nothing to replay. */
  lemma CommandArrives(c: Config, s: System, s': System)
    requires c.blockSize > 0 && CommandFlying(s.toServer) && BeforeCommand(s.toServer) == []
    requires s' == Do(c, s, DeliverPacket) && Idle(s) && s.work == map[]
    ensures s'.pass == Pass(AllChunks(c)) && s'.toClient == [PassStarted] && s'.work == map[]
    ensures s'.core.replica == s.core.replica && s'.core.blocks == []
    ensures s'.toServer == [] || (|s'.toServer| == 1 && StaleCompletion(s'.toServer[0]))
    ensures Final(c, s') == if s'.toServer == [] then s'.core else Deliver(c.caps, s'.core, s'.toServer[0])
    ensures s'.toServer != [] ==> Final(c, s').mode == Writing && Final(c, s').replica == s.core.replica
  {
    assert s.toServer[0].CmdStartHashing?;
    if s'.toServer != [] {
      assert s'.toServer[..0] == [] && Run(c.caps, s'.core, []) == s'.core;
    }
  }

  lemma PassCount(c: Config, s: System)
    requires c.blockSize > 0 && s.pass == Pass(AllChunks(c)) && s.toClient == [PassStarted] && s.work == map[]
    ensures Left(s) == |AllChunks(c)| && Outstanding(s) == AllChunks(c)
  {
    assert s.toClient[..0] == [] && HashCount([]) == 0 && HashCount(s.toClient) == HashCount(s.toClient[..0]);
    assert s.work.Keys == {};
    assert HashedChunks(s.toClient) == {};
  }

  lemma NothingComparedYet(c: Config, history: seq<Write>, lo: nat, hi: nat, replica: Image)
    requires c.blockSize > 0 && hi <= |history| && |replica| == |c.base|
    ensures BytesOk(c, history, lo, hi, [], replica, AllChunks(c))
  {
    hide AllChunks, Seen;
    AllBytesInChunks(c);
  }

  /** The hash pass begins: every byte is in a block still to be compared. */
  lemma PassBegins(c: Config, s: System, s': System, f: Core)
    requires c.blockSize > 0 && s.landed <= |s.history| && |s.core.replica| == |c.base| == |f.replica|
    requires CommandFlying(s.toServer) && BeforeCommand(s.toServer) == [] && s' == Do(c, s, DeliverPacket)
    requires s.phase.Scanning? && ScanInv(c, s, f) && f == Final(c, s')
    ensures ScanInv(c, s', f)
  {
    hide AllChunks, Left, Outstanding, Final, BytesOk;
    CommandArrives(c, s, s');
    PassCount(c, s');
    AllBytesInChunks(c);
    NothingComparedYet(c, s.history, s.start, s.landed, f.replica);
  }

  lemma HashesCarry(c: Config, s: System, s': System)
    requires |s.core.replica| == |c.base| && s'.core.replica == s.core.replica && HashesOk(c, s)
    requires s'.pass == s.pass && s'.toClient == s.toClient && s'.work == s.work
    ensures HashesOk(c, s') && Outstanding(s') == Outstanding(s) && Left(s') == Left(s)
  {
  }

  /** The comparison goes on as it was. */
  lemma CompareCarries(c: Config, s: System, s': System, f: Core, f': Core)
    requires s.landed <= |s.history| && |s.core.replica| == |c.base| == |f.replica| == |f'.replica|
    requires CompareInv(c, s, f) && f'.replica == f.replica && s'.core.replica == s.core.replica
    requires f'.mode == Hashing ==> f' == f
    requires s' == s.(toServer := s'.toServer, core := s'.core, owed := s'.owed, overflowNotice := s'.overflowNotice)
    requires forall k :: 0 <= k < |s'.toServer| ==> s'.toServer[k].CorrectBlock? || StaleCompletion(s'.toServer[k])
    ensures CompareInv(c, s', f')
  {
    hide BytesOk, WorkOk, RepliesOk, HashesOk, AllChunks, Outstanding, Left;
    HashesCarry(c, s, s');
  }

  lemma NotFlying(net: seq<Packet>)
    requires net != [] && forall k :: 0 <= k < |net| ==> net[k].CorrectBlock? || StaleCompletion(net[k])
    ensures !CommandFlying(net[1..])
  {
    if |net| > 2 {
      assert net[1..][..|net| - 2][|net| - 3] == net[|net| - 2];
    }
  }

  lemma CommandNearer(net: seq<Packet>)
    requires CommandFlying(net) && NoCommand(BeforeCommand(net)) && BeforeCommand(net) != []
    ensures !net[0].CmdStartHashing? && CommandFlying(net[1..]) && NoCommand(BeforeCommand(net[1..]))
    ensures EndsWithCommand(net) ==> EndsWithCommand(net[1..])
  {
    var front := BeforeCommand(net);
    assert net[0] == front[0];
    assert net[1..][..|net| - 2] == net[..|net| - 1][1..];
    assert BeforeCommand(net[1..]) == front[1..];
  }

  /** A block to be journaled, or a completion packet that finds nothing to replay. */
  lemma DeliverCompare(c: Config, s: System, f: Core)
    requires c.blockSize > 0 && s.landed <= |s.history| && |s.core.replica| == |c.base| == |f.replica|
    requires s.toServer != [] && CompareInv(c, s, f) && PacketOk(c, s.history, s.core, s.toServer[0])
    ensures CompareInv(c, Do(c, s, DeliverPacket), f)
  {
    hide BytesOk, WorkOk, RepliesOk, HashesOk, CountOk, AllChunks;
    var s' := Do(c, s, DeliverPacket);
    assert s.toServer[0].CorrectBlock? || StaleCompletion(s.toServer[0]);
    CompareCarries(c, s, s', f, f);
  }

  lemma DeliverScan(c: Config, s: System, s': System, f: Core)
    requires c.blockSize > 0 && s.landed <= |s.history| && |s.core.replica| == |c.base| == |f.replica|
    requires s.toServer != [] && s' == Do(c, s, DeliverPacket)
    requires s'.landed <= |s'.history| && |s'.core.replica| == |c.base|
    requires s.phase.Scanning? && ScanInv(c, s, f) && f == Final(c, s)
    requires PacketOk(c, s.history, s.core, s.toServer[0])
    ensures ScanInv(c, s', f)
  {
    hide BytesOk, WorkOk, RepliesOk, HashesOk, CountOk, Outstanding;
    RunDeliver(c.caps, s.core, s.toServer);
    if !CommandFlying(s.toServer) {
      DeliverCompare(c, s, f);
      NotFlying(s.toServer);
    } else if BeforeCommand(s.toServer) == [] {
      PassBegins(c, s, s', f);
    } else {
      CommandNearer(s.toServer);
    }
  }

  /** A packet that is no request for hashes concerns the server alone. */
  lemma DeliverLocal(c: Config, s: System, s': System)
    requires c.blockSize > 0 && s.toServer != [] && s' == Do(c, s, DeliverPacket)
    ensures s'.toServer == s.toServer[1..] && s'.phase == s.phase && s'.owed == s.owed
    ensures !s.toServer[0].CmdStartHashing? ==>
              s' == s.(toServer := s'.toServer, core := s'.core, overflowNotice := s'.overflowNotice)
  {
  }

  lemma DeliverOutsideScan(c: Config, s: System, s': System, f: Core)
    requires c.blockSize > 0 && s.landed <= |s.history| && |s.core.replica| == |c.base| == |f.replica|
    requires s.toServer != [] && s' == Do(c, s, DeliverPacket)
    requires s'.landed <= |s'.history| && |s'.core.replica| == |c.base|
    requires PhaseInv(c, s, f) && !s.phase.Scanning? && !s.phase.Stopped?
    ensures PhaseInv(c, s', f)
  {
    hide CopiedBetween, WorkOk, Seen, Covered, At, Apply, Do;
    NoCommandTail(s.toServer);
    DeliverLocal(c, s, s');
  }

  lemma DeliverPhase(c: Config, s: System, s': System, f: Core)
    requires c.blockSize > 0 && s.landed <= |s.history| && |s.core.replica| == |c.base| == |f.replica|
    requires s.toServer != [] && s' == Do(c, s, DeliverPacket)
    requires s'.landed <= |s'.history| && |s'.core.replica| == |c.base|
    requires PhaseInv(c, s, f) && f == Final(c, s)
    requires PacketOk(c, s.history, s.core, s.toServer[0])
    ensures PhaseInv(c, s', f)
  {
    hide ScanInv, DrainInv, LiveInv, CopyInv, CatchUpInv, Do, Final, PacketOk;
    DeliverLocal(c, s, s');
    match s.phase
    case Scanning => DeliverScan(c, s, s', f);
    case Stopped =>
    case _ => DeliverOutsideScan(c, s, s', f);
  }

  lemma DeliverKeeps(c: Config, s: System)
    requires Inv(c, s) && Enabled(c, s, DeliverPacket)
    ensures Inv(c, Do(c, s, DeliverPacket))
  {
    hide PhaseInv, RingOk, NetOk;
    HeadOk(c, s.history, s.core, s.toServer);
    DeliverPhase(c, s, Do(c, s, DeliverPacket), Final(c, s));
    NetDeliver(c, s.history, s.core, s.toServer);
    RunDeliver(c.caps, s.core, s.toServer);
  }

  /** Sending a packet: what remains to be shown is how it acts on the final state. */
  lemma AfterSend(c: Config, s: System, t: System, p: Packet)
    requires t.history == s.history && t.core == s.core && t.toServer == s.toServer + [p]
    requires c.blockSize > 0 && |s.core.replica| == |c.base| && NetOk(c, s.history, s.core, s.toServer)
    requires SourceOk(c, t.history, t.landed, t.source) && RingOk(t.history, t.ring, t.info, t.next, t.readPos)
    requires PacketOk(c, s.history, Final(c, s), p) && Tracked(c, s.history, Deliver(c.caps, Final(c, s), p))
    requires PhaseInv(c, t, Deliver(c.caps, Final(c, s), p))
    ensures Inv(c, t)
  {
    hide PhaseInv, RingOk, SourceOk, PacketOk, Tracked, Deliver, NetOk;
    RunSend(c.caps, s.core, s.toServer, p);
    NetSend(c, s.history, s.core, s.toServer, p);
  }

  /** A step of the client that sends nothing. */
  lemma AfterLocal(c: Config, s: System, t: System)
    requires t.history == s.history && t.core == s.core && t.toServer == s.toServer
    requires c.blockSize > 0 && |s.core.replica| == |c.base| && NetOk(c, s.history, s.core, s.toServer)
    requires SourceOk(c, t.history, t.landed, t.source) && RingOk(t.history, t.ring, t.info, t.next, t.readPos)
    requires PhaseInv(c, t, Final(c, s))
    ensures Inv(c, t)
  {
    hide PhaseInv, RingOk, NetOk, SourceOk;
  }

  /** A scan can begin whenever the connection is idle. */
  lemma BeginScanKeeps(c: Config, s: System)
    requires c.blockSize > 0 && SourceOk(c, s.history, s.landed, s.source)
    requires |s.core.replica| == |c.base| && NetOk(c, s.history, s.core, s.toServer)
    requires Idle(s) && NoCommand(s.toServer)
    ensures Inv(c, BeginScan(s))
  {
    var t := BeginScan(s);
    FinalTracked(c, s);
    RingReset(s.history, s.ring);
    assert t.toServer[..|t.toServer| - 1] == s.toServer;
    AfterSend(c, s, t, CmdStartHashing(|s.history|));
  }

  /** A batch is taken. */
  lemma TakeBatchRing(c: Config, s: System)
    requires RingOk(s.history, s.ring, s.info, s.next, s.readPos) && !SeesOverflow(s)
    ensures var s' := TakeBatch(s);
            && RingOk(s'.history, s'.ring, s'.info, s'.next, s'.readPos)
            && Sent(s') == s.readPos && s'.readPos == |s.history|
  {
    RingRead(s.history, s.ring, s.info, s.next, s.readPos);
  }

  lemma MonitorReadPhase(c: Config, s: System, f: Core)
    requires s.landed <= |s.history| && |s.core.replica| == |c.base| == |f.replica| && PhaseInv(c, s, f)
    requires RingOk(s.history, s.ring, s.info, s.next, s.readPos) && !SeesOverflow(s)
    requires MonitorRuns(s) && BatchSent(s)
    ensures PhaseInv(c, TakeBatch(s), f)
  {
    TakeBatchRing(c, s);
    assert Sent(TakeBatch(s)) == Sent(s);
  }

  lemma MonitorReadKeeps(c: Config, s: System)
    requires Inv(c, s) && Enabled(c, s, MonitorRead)
    ensures Inv(c, Do(c, s, MonitorRead))
  {
    if SeesOverflow(s) {
      BeginScanKeeps(c, s);
    } else {
      MonitorReadPhase(c, s, Final(c, s));
      TakeBatchRing(c, s);
      AfterLocal(c, s, TakeBatch(s));
    }
  }

  // --- forwarding writes -----------------------------------------------------------------------------

  lemma SendLive(c: Config, s: System, s': System, f: Core, w: Write)
    requires LiveInv(c, s, f) && Sent(s) < |s.history| && w == s.history[Sent(s)]
    requires s' == Send(s, BufferWrite(w)).(next := s.next + 1)
    ensures LiveInv(c, s', Deliver(c.caps, f, BufferWrite(w)))
  {
    AtNext(s.history, c.base, Sent(s));
  }

  lemma SendDrain(c: Config, s: System, s': System, f: Core, w: Write, hi: int, hi': int)
    requires DrainInv(c, s, f, hi) && Sent(s) < s.readPos && w == s.history[Sent(s)]
    requires s' == Send(s, BufferWrite(w)).(next := s.next + 1)
    requires hi <= hi' <= s.readPos
    ensures DrainInv(c, s', Deliver(c.caps, f, BufferWrite(w)), hi')
  {
    if f.mode == Hashing {
      assert s.history + [] == s.history;
      CopiedLater(s.history, [], c.base, s.start, hi, hi', Apply(f.blocks, f.replica));
      assert s.history[s.start..Sent(s)] + [w] == s.history[s.start..Sent(s) + 1];
    }
  }

  lemma SendCatchUp(c: Config, s: System, s': System, f: Core, w: Write, hi: nat)
    requires |f.replica| == |c.base| && CatchUpInv(c, s, f, hi) && Sent(s) < |s.history| && w == s.history[Sent(s)]
    requires s' == Send(s, BufferWrite(w)).(next := s.next + 1)
    ensures CatchUpInv(c, s', Deliver(c.caps, f, BufferWrite(w)), hi)
  {
    hide Seen;
    var n := Sent(s);
    AtNext(s.history, c.base, n);
    var log, log' := s.history[s.start..n], s.history[s.start..n + 1];
    assert log' == log + [w];
    forall i: nat | i < |c.base| ensures Covered(log', i) <==> Covered(log, i) || Covers(w, i) {
      if Covered(log, i) {
        var k :| 0 <= k < |log| && Covers(log[k], i);
        assert Covers(log'[k], i);
      }
      if Covers(w, i) {
        assert Covers(log'[|log|], i);
      }
    }
  }

  /** Once the writes made during a full replication have followed, the copy is exact. */
  lemma CopyIsExact(c: Config, s: System, f: Core, hi: nat)
    requires |f.replica| == |c.base| && CatchUpInv(c, s, f, hi) && hi <= Sent(s)
    ensures f.replica == At(s.history, c.base, Sent(s))
  {
    var end := Sent(s);
    assert s.history + [] == s.history;
    forall i: nat | i < |c.base| ensures f.replica[i] == At(s.history, c.base, end)[i] {
      if !Covered(s.history[s.start..end], i) {
        SeenLater(s.history, [], c.base, s.start, hi, end, i, f.replica[i]);
        Untouched(s.history, c.base, s.start, end, i, f.replica[i]);
      }
    }
  }

  lemma SendWritePhase(c: Config, s: System, s': System, f: Core, w: Write)
    requires s.landed <= |s.history| && |s.core.replica| == |c.base| == |f.replica| && PhaseInv(c, s, f)
    requires s' == Send(s, BufferWrite(w)).(next := s.next + 1) && s.next < s.info.length
    requires MonitorRuns(s) || s.phase.Draining?
    requires s.readPos <= |s.history| && 0 <= Sent(s) && w == s.history[Sent(s)]
    ensures PhaseInv(c, s', Deliver(c.caps, f, BufferWrite(w)))
  {
    match s.phase
    case Live =>
      if s.owed { SendDrain(c, s, s', f, w, Sent(s), Sent(s) + 1); } else { SendLive(c, s, s', f, w); }
    case Draining => SendDrain(c, s, s', f, w, s.readPos, s.readPos);
    case CatchingUp(hi) => SendCatchUp(c, s, s', f, w, hi);
  }

  lemma SkippedNext(c: Config, history: seq<Write>, f: Core)
    requires Tracked(c, history, f) && f.skip.Skip? && f.pos < |history|
    ensures WriteAt(f.replica, history[f.pos]) == Apply(history[f.skip.from..f.pos + 1], f.skip.before)
  {
    var log := history[f.skip.from..f.pos + 1];
    assert log[..|log| - 1] == history[f.skip.from..f.pos];
  }

  lemma SendWriteFits(c: Config, s: System, f: Core, w: Write)
    requires s.landed <= |s.history| && |s.core.replica| == |c.base| == |f.replica| && PhaseInv(c, s, f)
    requires MonitorRuns(s) || s.phase.Draining?
    requires s.readPos <= |s.history| && 0 <= Sent(s) < |s.history|
    ensures PacketOk(c, s.history, f, BufferWrite(w))
  {
    hide CopiedBetween, Seen;
  }

  /** The next write of the history, applied at once. */
  lemma TrackedNext(c: Config, history: seq<Write>, f: Core)
    requires Tracked(c, history, f) && f.mode == Writing && f.goal == NoGoal && f.pos < |history|
    ensures Tracked(c, history, Deliver(c.caps, f, BufferWrite(history[f.pos])))
  {
    if f.skip.Skip? {
      SkippedNext(c, history, f);
    } else if f.synced {
      AtNext(history, c.base, f.pos);
    }
  }

  /** A write that is journaled or dropped, or that nothing is known of. */
  lemma TrackedSame(c: Config, history: seq<Write>, f: Core, w: Write)
    requires Tracked(c, history, f)
    requires f.mode == Writing ==> f.goal == NoGoal && !f.synced && f.skip == NoSkip
    ensures Tracked(c, history, Deliver(c.caps, f, BufferWrite(w)))
  {
  }

  lemma SendPosition(c: Config, s: System, f: Core)
    requires s.landed <= |s.history| && |s.core.replica| == |c.base| == |f.replica| && PhaseInv(c, s, f)
    requires s.phase.Live? || s.phase.Draining?
    ensures f.mode == Writing ==> f.goal == NoGoal && (f.synced || f.skip.Skip? ==> f.pos == Sent(s))
  {
    hide CopiedBetween;
  }

  lemma CatchUpTracked(c: Config, s: System, f: Core, w: Write, hi: nat)
    requires |f.replica| == |c.base| && CatchUpInv(c, s, f, hi) && Sent(s) < |s.history| && w == s.history[Sent(s)]
    ensures Tracked(c, s.history, Deliver(c.caps, f, BufferWrite(w)))
  {
    var s' := Send(s, BufferWrite(w)).(next := s.next + 1);
    SendCatchUp(c, s, s', f, w, hi);
    if hi <= Sent(s') {
      CopyIsExact(c, s', Deliver(c.caps, f, BufferWrite(w)), hi);
    }
  }

  lemma SendWriteTracked(c: Config, s: System, f: Core, w: Write)
    requires s.landed <= |s.history| && |s.core.replica| == |c.base| == |f.replica| && PhaseInv(c, s, f)
    requires MonitorRuns(s) || s.phase.Draining?
    requires s.readPos <= |s.history| && 0 <= Sent(s) < |s.history| && w == s.history[Sent(s)]
    requires Tracked(c, s.history, f)
    ensures Tracked(c, s.history, Deliver(c.caps, f, BufferWrite(w)))
  {
    hide Tracked, Deliver, CatchUpInv, LiveInv, DrainInv;
    if s.phase.CatchingUp? {
      CatchUpTracked(c, s, f, w, s.phase.hi);
    } else {
      SendPosition(c, s, f);
      if f.mode == Writing && (f.synced || f.skip.Skip?) {
        TrackedNext(c, s.history, f);
      } else {
        TrackedSame(c, s.history, f, w);
      }
    }
  }

  lemma SendWriteKeeps(c: Config, s: System)
    requires Inv(c, s) && Enabled(c, s, SendWrite)
    ensures Inv(c, Do(c, s, SendWrite))
  {
    hide PhaseInv, Tracked, PacketOk, RingOk, NetOk, Deliver;
    var f, s' := Final(c, s), Do(c, s, SendWrite);
    RingNext(s.history, s.ring, s.info, s.next, s.readPos);
    var w := s.history[Sent(s)];
    SendWritePhase(c, s, s', f, w);
    FinalTracked(c, s);
    SendWriteFits(c, s, f, w);
    SendWriteTracked(c, s, f, w);
    AfterSend(c, s, s', BufferWrite(w));
  }

  // --- scanning ----------------------------------------------------------------------------------------

  lemma HashedCons(r: Reply, rest: seq<Reply>)
    ensures HashedChunks([r] + rest) == HashedChunks(rest) + (if r.BlockHash? then {r.chunk} else {})
  {
    var all := [r] + rest;
    assert r in all && forall q :: q in rest ==> q in all;
  }

  lemma HashedSnoc(front: seq<Reply>, r: Reply)
    ensures HashedChunks(front + [r]) == HashedChunks(front) + (if r.BlockHash? then {r.chunk} else {})
  {
    var all := front + [r];
    assert r in all && forall q :: q in front ==> q in all;
  }

  lemma {:induction false} CountCons(r: Reply, rest: seq<Reply>)
    ensures HashCount([r] + rest) == HashCount(rest) + if r.BlockHash? then 1 else 0
  {
    if rest == [] {
      assert [r] + rest == [r] && [r][..0] == [];
    } else {
      CountCons(r, rest[..|rest| - 1]);
      assert ([r] + rest)[..|rest|] == [r] + rest[..|rest| - 1];
    }
  }

  lemma CountSnoc(front: seq<Reply>, r: Reply)
    ensures HashCount(front + [r]) == HashCount(front) + if r.BlockHash? then 1 else 0
  {
    assert (front + [r])[..|front|] == front;
  }

  /** Blocks only move on: from the pass to the connection to the client's workers to the journal. */
  lemma ReceiveReplyCount(c: Config, s: System)
    requires c.blockSize > 0 && Enabled(c, s, ReceiveReply)
    ensures Left(Do(c, s, ReceiveReply)) <= Left(s)
  {
    var s', r := Do(c, s, ReceiveReply), s.toClient[0];
    assert s.toClient == [r] + s'.toClient;
    CountCons(r, s'.toClient);
    if r.BlockHash? {
      assert s'.work.Keys == s.work.Keys + {r.chunk};
    }
  }

  lemma HashBlockCount(c: Config, s: System, ch: Chunk)
    requires c.blockSize > 0 && Enabled(c, s, HashBlock(ch))
    ensures Left(Do(c, s, HashBlock(ch))) == Left(s)
  {
    CountSnoc(s.toClient, BlockHash(ch, c.hash(Slice(s.core.replica, ch))));
  }

  lemma EndPassCount(c: Config, s: System)
    requires c.blockSize > 0 && Enabled(c, s, EndPass)
    ensures Left(Do(c, s, EndPass)) == Left(s)
  {
    CountSnoc(s.toClient, PassCompleted);
  }

  lemma CompareCount(c: Config, s: System, ch: Chunk, f: Core)
    requires c.blockSize > 0 && Enabled(c, s, CompareBlock(ch)) && CountOk(c, s, f)
    ensures CountOk(c, Do(c, s, CompareBlock(ch)), f)
    ensures f.mode == Hashing ==> |f.blocks| < |AllChunks(c)|
    ensures forall w :: CountOk(c, Do(c, s, CompareBlock(ch)), Deliver(c.caps, f, CorrectBlock(w)))
  {
    assert Do(c, s, CompareBlock(ch)).work.Keys == s.work.Keys - {ch};
  }

  lemma RepliesTail(pass: Pass, replies: seq<Reply>)
    requires RepliesOk(pass, replies) && replies != [] && !replies[0].PassCompleted?
    ensures RepliesOk(pass, replies[1..])
  {
  }

  lemma ReceiveReplyHashes(c: Config, s: System)
    requires c.blockSize > 0 && |s.core.replica| == |c.base| && HashesOk(c, s) && Enabled(c, s, ReceiveReply)
    ensures HashesOk(c, Do(c, s, ReceiveReply)) && Outstanding(Do(c, s, ReceiveReply)) == Outstanding(s)
  {
    var s', r := Do(c, s, ReceiveReply), s.toClient[0];
    assert s.toClient == [r] + s'.toClient;
    HashedCons(r, s'.toClient);
    assert Outstanding(s') == Outstanding(s);
    assert r in s.toClient;
  }

  lemma ReceiveReplyWork(c: Config, s: System)
    requires c.blockSize > 0 && s.landed <= |s.history| && |s.core.replica| == |c.base|
    requires HashesOk(c, s) && WorkOk(c, s.history, s.start, s.landed, s.work) && Enabled(c, s, ReceiveReply)
    ensures WorkOk(c, s.history, s.start, s.landed, Do(c, s, ReceiveReply).work)
  {
    assert s.toClient[0] in s.toClient;
  }

  lemma ReceiveReplyScan(c: Config, s: System, f: Core)
    requires c.blockSize > 0 && s.landed <= |s.history| && |s.core.replica| == |c.base| == |f.replica|
    requires CompareInv(c, s, f) && Enabled(c, s, ReceiveReply)
    ensures CompareInv(c, Do(c, s, ReceiveReply), f)
  {
    hide BytesOk, WorkOk, HashesOk, RepliesOk, Outstanding, Left;
    ReceiveReplyHashes(c, s);
    ReceiveReplyCount(c, s);
    ReceiveReplyWork(c, s);
    RepliesTail(s.pass, s.toClient);
  }

  lemma HashBlockHashes(c: Config, s: System, ch: Chunk)
    requires c.blockSize > 0 && |s.core.replica| == |c.base| && HashesOk(c, s) && Enabled(c, s, HashBlock(ch))
    ensures HashesOk(c, Do(c, s, HashBlock(ch))) && Outstanding(Do(c, s, HashBlock(ch))) == Outstanding(s)
  {
    HashedSnoc(s.toClient, BlockHash(ch, c.hash(Slice(s.core.replica, ch))));
    assert Outstanding(Do(c, s, HashBlock(ch))) == Outstanding(s);
  }

  lemma HashBlockScan(c: Config, s: System, ch: Chunk, f: Core)
    requires c.blockSize > 0 && s.landed <= |s.history| && |s.core.replica| == |c.base| == |f.replica|
    requires CompareInv(c, s, f) && Enabled(c, s, HashBlock(ch))
    ensures CompareInv(c, Do(c, s, HashBlock(ch)), f)
  {
    hide BytesOk, WorkOk, HashesOk, Outstanding, Left;
    HashBlockHashes(c, s, ch);
    HashBlockCount(c, s, ch);
  }

  lemma EndPassHashes(c: Config, s: System)
    requires c.blockSize > 0 && |s.core.replica| == |c.base| && HashesOk(c, s) && Enabled(c, s, EndPass)
    ensures HashesOk(c, Do(c, s, EndPass)) && Outstanding(Do(c, s, EndPass)) == Outstanding(s)
  {
    HashedSnoc(s.toClient, PassCompleted);
    assert Outstanding(Do(c, s, EndPass)) == Outstanding(s);
  }

  lemma EndPassScan(c: Config, s: System, f: Core)
    requires c.blockSize > 0 && s.landed <= |s.history| && |s.core.replica| == |c.base| == |f.replica|
    requires CompareInv(c, s, f) && Enabled(c, s, EndPass)
    ensures CompareInv(c, Do(c, s, EndPass), f)
  {
    hide BytesOk, WorkOk, HashesOk, Outstanding, Left;
    EndPassHashes(c, s);
    EndPassCount(c, s);
  }

  lemma ReadByteWork(c: Config, s: System, ch: Chunk, i: nat)
    requires c.blockSize > 0 && SourceOk(c, s.history, s.landed, s.source)
    requires WorkOk(c, s.history, s.start, s.landed, s.work) && Enabled(c, s, ReadByte(ch, i))
    ensures WorkOk(c, s.history, s.start, s.landed, Do(c, s, ReadByte(ch, i)).work)
    ensures Do(c, s, ReadByte(ch, i)).work.Keys == s.work.Keys
  {
    var work' := Do(c, s, ReadByte(ch, i)).work;
    assert Seen(s.history, c.base, s.start, s.landed, i, s.source[i]);
    forall d, j: nat | d in work' && j in work'[d].got && j < |c.base|
      ensures Seen(s.history, c.base, s.start, s.landed, j, work'[d].got[j])
    {
      if d == ch && j == i {
        assert work'[d].got[j] == s.source[i];
      }
    }
  }

  lemma ReadByteScan(c: Config, s: System, ch: Chunk, i: nat, f: Core)
    requires c.blockSize > 0 && SourceOk(c, s.history, s.landed, s.source)
    requires |s.core.replica| == |c.base| == |f.replica|
    requires CompareInv(c, s, f) && Enabled(c, s, ReadByte(ch, i))
    ensures CompareInv(c, Do(c, s, ReadByte(ch, i)), f)
  {
    ReadByteWork(c, s, ch, i);
    assert Outstanding(Do(c, s, ReadByte(ch, i))) == Outstanding(s);
  }

  /** A block leaves the work. */
  lemma BlockLeaves(c: Config, s: System, s': System, ch: Chunk)
    requires s.landed <= |s.history| && |s.core.replica| == |c.base| && ch in s.work
    requires s'.work == s.work - {ch} && s'.core == s.core && s'.pass == s.pass && s'.toClient == s.toClient
    requires HashesOk(c, s) && WorkOk(c, s.history, s.start, s.landed, s.work)
    ensures HashesOk(c, s') && WorkOk(c, s.history, s.start, s.landed, s'.work)
    ensures Outstanding(s) <= Outstanding(s') + {ch}
    ensures ch.offset + ch.size <= |c.base| && s.work[ch].hash == c.hash(Slice(s.core.replica, ch))
  {
    assert Outstanding(s') <= Outstanding(s);
  }

  lemma CompareScan(c: Config, s: System, ch: Chunk, f: Core)
    requires c.blockSize > 0 && s.landed <= |s.history| && |s.core.replica| == |c.base| == |f.replica|
    requires CompareInv(c, s, f) && Enabled(c, s, CompareBlock(ch))
    ensures var w := Write(ch.offset, Buffer(ch, s.work[ch]));
            CompareInv(c, Do(c, s, CompareBlock(ch)),
                       if c.hash(w.data) != s.work[ch].hash then Deliver(c.caps, f, CorrectBlock(w)) else f)
  {
    hide BytesOk, SeenAll, WorkOk, HashesOk, RepliesOk, Outstanding, CountOk;
    var s' := Do(c, s, CompareBlock(ch));
    var w := Write(ch.offset, Buffer(ch, s.work[ch]));
    var lo, hi := s.start, s.landed;
    BlockLeaves(c, s, s', ch);
    BufferSeen(c, s.history, lo, hi, s.work, ch);
    CompareCount(c, s, ch, f);
    if f.mode == Hashing {
      if c.hash(w.data) != s.work[ch].hash {
        BlockJournaled(c, s.history, lo, hi, f.blocks, f.replica, Outstanding(s), Outstanding(s'), ch, w);
      } else {
        BlockEqual(c, s.history, lo, hi, f.blocks, f.replica, Outstanding(s), Outstanding(s'), ch, w);
      }
    }
  }

  /** The steps of the hash pass and of the client's workers, which send nothing or one block. */
  lemma ReceiveReplyKeeps(c: Config, s: System)
    requires Inv(c, s) && Enabled(c, s, ReceiveReply)
    ensures Inv(c, Do(c, s, ReceiveReply))
  {
    ReceiveReplyScan(c, s, Final(c, s));
  }

  lemma HashBlockKeeps(c: Config, s: System, ch: Chunk)
    requires Inv(c, s) && Enabled(c, s, HashBlock(ch))
    ensures Inv(c, Do(c, s, HashBlock(ch)))
  {
    if s.phase.Scanning? {
      HashBlockScan(c, s, ch, Final(c, s));
    }
  }

  lemma EndPassKeeps(c: Config, s: System)
    requires Inv(c, s) && Enabled(c, s, EndPass)
    ensures Inv(c, Do(c, s, EndPass))
  {
    if s.phase.Scanning? {
      EndPassScan(c, s, Final(c, s));
    }
  }

  lemma ReadByteKeeps(c: Config, s: System, ch: Chunk, i: nat)
    requires Inv(c, s) && Enabled(c, s, ReadByte(ch, i))
    ensures Inv(c, Do(c, s, ReadByte(ch, i)))
  {
    if s.phase.Scanning? {
      ReadByteScan(c, s, ch, i, Final(c, s));
    } else if s.phase.Copying? {
      ReadByteWork(c, s, ch, i);
    }
  }

  lemma CompareMayJournal(c: Config, s: System, ch: Chunk, f: Core)
    requires c.blockSize > 0 && s.landed <= |s.history| && |s.core.replica| == |c.base| == |f.replica|
    requires Enabled(c, s, CompareBlock(ch)) && ScanInv(c, s, f)
    ensures !s.owed && !CommandFlying(s.toServer) && CompareInv(c, s, f)
    ensures forall w :: PacketOk(c, s.history, f, CorrectBlock(w)) && !CommandFlying(s.toServer + [CorrectBlock(w)])
  {
    hide BytesOk, WorkOk, RepliesOk, HashesOk;
    assert ch in s.work;
    CompareCount(c, s, ch, f);
  }

  lemma CompareDiffers(c: Config, s: System, ch: Chunk)
    requires Inv(c, s) && Enabled(c, s, CompareBlock(ch)) && c.hash(Buffer(ch, s.work[ch])) != s.work[ch].hash
    ensures Inv(c, Do(c, s, CompareBlock(ch)))
  {
    hide CompareInv, RingOk, NetOk, CountOk, AllChunks, CommandFlying;
    CompareMayJournal(c, s, ch, Final(c, s));
    CompareScan(c, s, ch, Final(c, s));
    FinalTracked(c, s);
    AfterSend(c, s, Do(c, s, CompareBlock(ch)), CorrectBlock(Write(ch.offset, Buffer(ch, s.work[ch]))));
  }

  lemma CompareEqual(c: Config, s: System, ch: Chunk)
    requires Inv(c, s) && Enabled(c, s, CompareBlock(ch)) && c.hash(Buffer(ch, s.work[ch])) == s.work[ch].hash
    ensures Inv(c, Do(c, s, CompareBlock(ch)))
  {
    hide CompareInv, RingOk, NetOk;
    CompareScan(c, s, ch, Final(c, s));
  }

  lemma CompareKeeps(c: Config, s: System, ch: Chunk)
    requires Inv(c, s) && Enabled(c, s, CompareBlock(ch))
    ensures Inv(c, Do(c, s, CompareBlock(ch)))
  {
    hide Inv;
    if c.hash(Buffer(ch, s.work[ch])) != s.work[ch].hash {
      CompareDiffers(c, s, ch);
    } else {
      CompareEqual(c, s, ch);
    }
  }

  // --- the end of a scan ------------------------------------------------------------------------------

  lemma ReadBufferDrain(c: Config, s: System, f: Core)
    requires c.blockSize > 0 && s.landed <= |s.history| && |s.core.replica| == |c.base| == |f.replica|
    requires RingOk(s.history, s.ring, s.info, s.next, s.readPos) && !SeesOverflow(s)
    requires ScanInv(c, s, f) && Enabled(c, s, ReadBuffer)
    ensures var s' := Do(c, s, ReadBuffer);
            DrainInv(c, s', f, s'.readPos) && RingOk(s'.history, s'.ring, s'.info, s'.next, s'.readPos)
  {
    hide BytesOk, WorkOk, HashesOk, RingOk, CopiedBetween, CountOk;
    var s' := Do(c, s, ReadBuffer);
    TakeBatchRing(c, s);
    assert Outstanding(s) == {};
    if f.mode == Hashing {
      ScanComplete(c, s.history, s.start, s.landed, f.blocks, f.replica);
      assert s.history + [] == s.history;
      CopiedLater(s.history, [], c.base, s.start, s.landed, s'.readPos, Apply(f.blocks, f.replica));
    }
  }

  /** The buffer overflowed during the scan: the client starts over. */
  lemma ReadBufferRescan(c: Config, s: System)
    requires Inv(c, s) && Enabled(c, s, ReadBuffer) && SeesOverflow(s)
    ensures Inv(c, Do(c, s, ReadBuffer))
  {
    var t := s.(toClient := s.toClient[1..]);
    assert NoCommand(t.toServer) && Idle(t);
    BeginScanKeeps(c, t);
  }

  lemma ReadBufferDrains(c: Config, s: System)
    requires Inv(c, s) && Enabled(c, s, ReadBuffer) && !SeesOverflow(s)
    ensures Inv(c, Do(c, s, ReadBuffer))
  {
    ReadBufferDrain(c, s, Final(c, s));
    AfterLocal(c, s, Do(c, s, ReadBuffer));
  }

  lemma ReadBufferKeeps(c: Config, s: System)
    requires Inv(c, s) && Enabled(c, s, ReadBuffer)
    ensures Inv(c, Do(c, s, ReadBuffer))
  {
    hide Inv;
    if SeesOverflow(s) {
      ReadBufferRescan(c, s);
    } else {
      ReadBufferDrains(c, s);
    }
  }

  lemma ResumePhase(c: Config, s: System, f: Core)
    requires s.phase.Draining? && BatchSent(s) && DrainInv(c, s, f, s.readPos)
    ensures DrainInv(c, s.(phase := Live, owed := true), f, s.readPos) && Sent(s) == s.readPos
  {
    hide CopiedBetween;
  }

  lemma ResumeKeeps(c: Config, s: System)
    requires Inv(c, s) && Enabled(c, s, ResumeMonitor)
    ensures Inv(c, Do(c, s, ResumeMonitor))
  {
    hide DrainInv, NetOk, RingOk, SourceOk;
    ResumePhase(c, s, Final(c, s));
    AfterLocal(c, s, Do(c, s, ResumeMonitor));
  }

  /** The journal of a completed scan holds a copy of the source followed by the log since. */
  lemma JournalConverges(c: Config, s: System, f: Core)
    requires DrainInv(c, s, f, Sent(s)) && f.mode == Hashing
    ensures Replay(f) == At(s.history, c.base, Sent(s))
  {
    CopyThenLog(s.history, c.base, s.start, Sent(s), Sent(s), Apply(f.blocks, f.replica));
  }

  lemma SendCompletedPhase(c: Config, s: System, f: Core)
    requires s.phase.Live? && DrainInv(c, s, f, Sent(s)) && Tracked(c, s.history, f)
    ensures var p := HashingCompleted(false);
            && PacketOk(c, s.history, f, p) && Tracked(c, s.history, Deliver(c.caps, f, p))
            && LiveInv(c, Send(s.(owed := false), p), Deliver(c.caps, f, p))
  {
    if f.mode == Hashing {
      JournalConverges(c, s, f);
    }
  }

  /** The completion packet has been overtaken by the request for the next scan. */
  lemma SendStalePhase(c: Config, s: System, f: Core)
    requires c.blockSize > 0 && s.landed <= |s.history| && |s.core.replica| == |c.base| == |f.replica|
    requires s.phase.Scanning? && s.owed && ScanInv(c, s, f) && Tracked(c, s.history, f)
    ensures var p := HashingCompleted(true);
            && PacketOk(c, s.history, f, p) && Tracked(c, s.history, Deliver(c.caps, f, p))
            && ScanInv(c, Send(s.(owed := false), p), Deliver(c.caps, f, p))
  {
    hide BytesOk, WorkOk, RepliesOk, HashesOk, CountOk;
    var p := HashingCompleted(true);
    var s', f' := Send(s.(owed := false), p), Deliver(c.caps, f, p);
    assert s'.toServer[..|s.toServer|] == s.toServer;
    assert s.history[f.from..f.from] == [];
    if CommandFlying(s.toServer) {
      assert BeforeCommand(s'.toServer) == BeforeCommand(s.toServer);
    } else {
      CompareCarries(c, s, s', f, f');
    }
  }

  lemma SendCompletedKeeps(c: Config, s: System)
    requires Inv(c, s) && Enabled(c, s, SendCompleted)
    ensures Inv(c, Do(c, s, SendCompleted))
  {
    FinalTracked(c, s);
    if s.phase.Live? {
      SendCompletedPhase(c, s, Final(c, s));
    } else {
      SendStalePhase(c, s, Final(c, s));
    }
    AfterSend(c, s, Do(c, s, SendCompleted), HashingCompleted(s.phase.Scanning?));
  }

  // --- start and full replication ------------------------------------------------------------------

  lemma StartReplicationPhase(c: Config, s: System, f: Core)
    requires c.blockSize > 0 && s.landed <= |s.history| && |s.core.replica| == |c.base| == |f.replica|
    requires LiveInv(c, s, f) && Enabled(c, s, StartWithReplication)
    ensures CopyInv(c, Do(c, s, StartWithReplication), Deliver(c.caps, f, StartReplication))
  {
    AllBytesInChunks(c);
    assert Do(c, s, StartWithReplication).work.Keys == AllChunks(c);
  }

  lemma StartReplicationKeeps(c: Config, s: System)
    requires Inv(c, s) && Enabled(c, s, StartWithReplication)
    ensures Inv(c, Do(c, s, StartWithReplication))
  {
    StartReplicationPhase(c, s, Final(c, s));
    RingReset(s.history, s.ring);
    AfterSend(c, s, Do(c, s, StartWithReplication), StartReplication);
  }

  lemma StartScanKeeps(c: Config, s: System)
    requires Inv(c, s) && Enabled(c, s, StartWithScan)
    ensures Inv(c, Do(c, s, StartWithScan))
  {
    BeginScanKeeps(c, s);
  }

  lemma StartLiveKeeps(c: Config, s: System)
    requires Inv(c, s) && Enabled(c, s, StartWithoutReplication)
    ensures Inv(c, Do(c, s, StartWithoutReplication))
  {
  }

  lemma StopKeeps(c: Config, s: System)
    requires Inv(c, s) && Enabled(c, s, StopClient)
    ensures Inv(c, Do(c, s, StopClient))
  {
  }

  lemma CopyBlockBytes(c: Config, s: System, s': System, f: Core, ch: Chunk)
    requires c.blockSize > 0 && s.landed <= |s.history| && |f.replica| == |c.base|
    requires CopyInv(c, s, f) && Enabled(c, s, SendReplicationBlock(ch)) && s' == Do(c, s, SendReplicationBlock(ch))
    ensures CopyInv(c, s', Deliver(c.caps, f, ReplicationBlock(Write(ch.offset, Buffer(ch, s.work[ch])))))
  {
    var w := Write(ch.offset, Buffer(ch, s.work[ch]));
    hide Seen;
    var replica' := WriteAt(f.replica, w);
    BufferSeen(c, s.history, s.start, s.landed, s.work, ch);
    forall i: nat | i < |c.base|
      ensures Seen(s.history, c.base, s.start, s.landed, i, replica'[i]) || InSome(s'.work.Keys, i)
    {
      if Covers(w, i) {
        assert Covers([w][0], i);
      } else if InSome(s.work.Keys, i) {
        var d :| d in s.work.Keys && In(d, i);
        assert d != ch;
      }
    }
  }

  lemma SendReplicationBlockKeeps(c: Config, s: System, ch: Chunk)
    requires Inv(c, s) && Enabled(c, s, SendReplicationBlock(ch))
    ensures Inv(c, Do(c, s, SendReplicationBlock(ch)))
  {
    var p := ReplicationBlock(Write(ch.offset, Buffer(ch, s.work[ch])));
    CopyBlockBytes(c, s, Do(c, s, SendReplicationBlock(ch)), Final(c, s), ch);
    AfterSend(c, s, Do(c, s, SendReplicationBlock(ch)), p);
  }

  lemma FinishReplicationPhase(c: Config, s: System, f: Core)
    requires s.landed <= |s.history| && |f.replica| == |c.base|
    requires CopyInv(c, s, f) && s.work == map[] && s.phase.Copying?
    ensures var p := ReplicationCompleted(s.start, CopyEnd(s));
            && CatchUpInv(c, Send(s.(phase := CatchingUp(CopyEnd(s))), p), Deliver(c.caps, f, p), CopyEnd(s))
            && Tracked(c, s.history, Deliver(c.caps, f, p))
  {
    var p := ReplicationCompleted(s.start, CopyEnd(s));
    var s' := Send(s.(phase := CatchingUp(CopyEnd(s))), p);
    assert s.history[s.start..s.start] == [];
    if CopyEnd(s) <= s.start {
      CopyIsExact(c, s', Deliver(c.caps, f, p), CopyEnd(s));
    }
  }

  lemma FinishReplicationKeeps(c: Config, s: System)
    requires Inv(c, s) && Enabled(c, s, FinishReplication)
    ensures Inv(c, Do(c, s, FinishReplication))
  {
    FinishReplicationPhase(c, s, Final(c, s));
    AfterSend(c, s, Do(c, s, FinishReplication), ReplicationCompleted(s.start, CopyEnd(s)));
  }

  lemma InitHolds(c: Config, s: System)
    requires Init(c, s)
    ensures Inv(c, s)
  {
  }

  predicate OfSourceOrServer(step: Step) {
    step.SourceWrite? || step.WriteLands? || step.DeliverPacket? || step.HashBlock? || step.EndPass?
  }

  predicate OfScan(step: Step) {
    step.StartWithScan? || step.ReceiveReply? || step.ReadByte? || step.CompareBlock?
    || step.ReadBuffer? || step.ResumeMonitor? || step.SendCompleted?
  }

  lemma SourceOrServerStepKeeps(c: Config, s: System, step: Step)
    requires Inv(c, s) && Enabled(c, s, step) && OfSourceOrServer(step)
    ensures Inv(c, Do(c, s, step))
  {
    hide Inv;
    match step
    case SourceWrite(w) => SourceWriteKeeps(c, s, w);
    case WriteLands => WriteLandsKeeps(c, s);
    case DeliverPacket => DeliverKeeps(c, s);
    case HashBlock(ch) => HashBlockKeeps(c, s, ch);
    case EndPass => EndPassKeeps(c, s);
  }

  lemma ScanStepKeeps(c: Config, s: System, step: Step)
    requires Inv(c, s) && Enabled(c, s, step) && OfScan(step)
    ensures Inv(c, Do(c, s, step))
  {
    hide Inv;
    match step
    case StartWithScan => StartScanKeeps(c, s);
    case ReceiveReply => ReceiveReplyKeeps(c, s);
    case ReadByte(ch, i) => ReadByteKeeps(c, s, ch, i);
    case CompareBlock(ch) => CompareKeeps(c, s, ch);
    case ReadBuffer => ReadBufferKeeps(c, s);
    case ResumeMonitor => ResumeKeeps(c, s);
    case SendCompleted => SendCompletedKeeps(c, s);
  }

  lemma OtherStepKeeps(c: Config, s: System, step: Step)
    requires Inv(c, s) && Enabled(c, s, step) && !OfSourceOrServer(step) && !OfScan(step)
    ensures Inv(c, Do(c, s, step))
  {
    hide Inv;
    match step
    case MonitorRead => MonitorReadKeeps(c, s);
    case SendWrite => SendWriteKeeps(c, s);
    case StartWithReplication => StartReplicationKeeps(c, s);
    case StartWithoutReplication => StartLiveKeeps(c, s);
    case SendReplicationBlock(ch) => SendReplicationBlockKeeps(c, s, ch);
    case FinishReplication => FinishReplicationKeeps(c, s);
    case StopClient => StopKeeps(c, s);
  }

  lemma StepKeeps(c: Config, s: System, step: Step)
    requires Inv(c, s) && Enabled(c, s, step)
    ensures Inv(c, Do(c, s, step))
  {
    hide Inv;
    if OfSourceOrServer(step) {
      SourceOrServerStepKeeps(c, s, step);
    } else if OfScan(step) {
      ScanStepKeeps(c, s, step);
    } else {
      OtherStepKeeps(c, s, step);
    }
  }
}
