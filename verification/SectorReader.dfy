/** The loops of libs/libsacd/scarletbook_read.c that take sectors apart, against the functions of
    Sectors and Frames. */
module SectorReader {
  import opened Bits
  import opened Frames
  import opened Sectors

  /** The scalars of handle->frame. */
  datatype AudioFrame = AudioFrame(size: nat, started: bool, sectorCount: int, channelCount: nat, dst: bool)

  class ScarletbookHandle {
    var header: Header
    const packets: array<PacketInfo>
    const flags: array<Byte>
    var packetInfoIdx: nat
    const data: array<Byte>
    var frame: AudioFrame
    var delivered: seq<Delivered>      // the calls of frame_read_callback

    ghost predicate Valid()
      reads this
    {
      packets.Length == 7 && flags.Length == 7 && data.Length == MAX_SIZE && data != flags && SmallHeader(header) && frame.size < MAX_SIZE
    }

    /** At a sector boundary all packets of the sector before are done. */
    ghost predicate AtBoundary()
      reads this
    {
      Valid() && packetInfoIdx == header.packets
    }

    /** The frame and the deliveries as the functions of Frames see them. */
    ghost function View(): Assembly
      requires Valid()
      reads this, data
    {
      Assembly(Frame(data[..frame.size], frame.started, frame.sectorCount, frame.channelCount, frame.dst), delivered)
    }

    /** scarletbook_frame_init */
    constructor ()
      ensures AtBoundary() && !View().frame.started && delivered == [] && NoFlags(flags[..])
      ensures fresh(packets) && fresh(flags) && fresh(data)
    {
      header := Header(0, 0, false);
      packets := new PacketInfo[7](_ => PacketInfo(false, 0, 0));
      flags := new Byte[7](_ => 0);
      packetInfoIdx, frame, delivered := 0, AudioFrame(0, false, 0, 0, false), [];
      data := new Byte[MAX_SIZE];
    }

    method ExecReadCallback()
      requires Valid()
      modifies `frame, `delivered
      ensures Valid() && View() == Emit(old(View()))
    {
      if frame.started && frame.size > 0 && ((frame.dst && frame.sectorCount == 0) || (!frame.dst && frame.size % DSD_SIZE == 0)) {
        frame := frame.(started := false);
        delivered := delivered + [Delivered(data[..frame.size], frame.dst, frame.channelCount)];
      }
    }

    /** memcpy of a payload behind what the frame has. */
    method CopyPayload(s: seq<Byte>, pos: nat, len: nat)
      requires Valid() && pos + len <= |s| && frame.size + len < MAX_SIZE
      modifies data
      ensures data[..frame.size + len] == old(data[..frame.size]) + s[pos..pos + len]
    {
      for k := 0 to len
        invariant data[..frame.size] == old(data[..frame.size])
        invariant forall j :: frame.size <= j < frame.size + k ==> data[j] == s[pos + (j - frame.size)]
      {
        data[frame.size + k] := s[pos + k];
      }
    }

    /** The second half of the audio case. */
    method AppendPayload(s: seq<Byte>, pos: nat, len: nat)
      requires Valid() && pos + len <= |s|
      modifies data, `frame
      ensures Valid() && View() == old(View()).(frame := Append(old(View()).frame, s[pos..pos + len]))
    {
      if frame.started {
        if frame.size + len < MAX_SIZE {
          CopyPayload(s, pos, len);
          frame := frame.(size := frame.size + len);
          if frame.dst { frame := frame.(sectorCount := frame.sectorCount - 1); }
        } else {
          frame := frame.(started := false);
        }
      }
    }

    /** The switch over the packet's type; `info` is the frame information that is next. */
    method ProcessPacket(p: PacketInfo, flag: Byte, s: seq<Byte>, pos: nat)
      requires Valid() && pos + p.len <= |s|
      modifies data, `frame, `delivered
      ensures Valid() && View() == Steps(old(View()), AsPacket(p, InfoOf(header.dst, flag), s[pos..pos + p.len]))
    {
      ghost var a := View();
      if p.kind == AUDIO {
        if p.start {
          ExecReadCallback();
          frame := AudioFrame(0, true, flag / 4 % 32, ChannelCount(flag), header.dst);
        }
        AppendPayload(s, pos, p.len);
      }
      assert View() == a || View() == Step(a, AsPacket(p, InfoOf(header.dst, flag), s[pos..pos + p.len])[0]);
    }

    /** Takes the header, the packet informations and the frame informations of a sector. */
    method ParseSector(s: seq<Byte>) returns (pos: nat)
      requires Valid() && |s| == SECTOR
      modifies `header, `packetInfoIdx, packets, flags
      ensures Valid() && header == HeaderOf(s[0]) && packetInfoIdx == 0 && pos == PayloadAt(header)
      ensures packets[..header.packets] == PacketInfos(s, header) && flags[..] == Flags(old(flags[..]), s, header)
    {
      packetInfoIdx := 0;
      header := HeaderOf(s[0]);
      pos := 1;
      for i := 0 to header.packets
        modifies packets
        invariant pos == 1 + 2 * i
        invariant packets[..i] == PacketInfos(s, header)[..i]
      {
        packets[i] := PacketInfoOf(s[pos], s[pos + 1]);
        pos := pos + 2;
      }
      ghost var was := flags[..];
      if header.dst {
        for i := 0 to header.infos
          modifies flags
          invariant pos == InfosAt(header) + 4 * i
          invariant forall j :: 0 <= j < 7 ==> flags[j] == if j < i then s[InfosAt(header) + 4 * j + 3] else was[j]
        {
          flags[i] := s[pos + 3];
          pos := pos + 4;
        }
      } else {
        pos := pos + 3 * header.infos;
      }
      assert flags[..] == Flags(was, s, header);
    }

    /** The packets of the sector `s` from the current one on, placed at `pos`. */
    ghost predicate InSector(s: seq<Byte>, pos: nat, n: nat)
      reads this, packets, flags
    {
      && Valid() && |s| == SECTOR && n <= packetInfoIdx <= header.packets
      && Room(packets[..header.packets], packetInfoIdx, pos)
    }

    ghost function Left(s: seq<Byte>, pos: nat, n: nat): seq<Packet>
      requires InSector(s, pos, n)
      reads this, packets, flags
    {
      PacketsFrom(s, header.dst, packets[..header.packets], flags[..], packetInfoIdx, pos, n)
    }

    /** The body of the loop over the packets. */
    method ProcessNext(s: seq<Byte>, pos: nat, frameInfoCounter: nat) returns (pos': nat, frameInfoCounter': nat)
      requires InSector(s, pos, frameInfoCounter) && packetInfoIdx < header.packets
      modifies data, `frame, `delivered, `packetInfoIdx
      ensures InSector(s, pos', frameInfoCounter') && packetInfoIdx == old(packetInfoIdx) + 1
      ensures Steps(View(), Left(s, pos', frameInfoCounter')) == Steps(old(View()), old(Left(s, pos, frameInfoCounter)))
    {
      var p := packets[packetInfoIdx];
      RoomLeft(packets[..header.packets], packetInfoIdx, pos);
      ghost var v, now := View(), AsPacket(p, InfoOf(header.dst, flags[frameInfoCounter]), s[pos..pos + p.len]);
      ghost var left := Left(s, pos, frameInfoCounter);
      ProcessPacket(p, flags[frameInfoCounter], s, pos);
      frameInfoCounter' := frameInfoCounter;
      if p.kind == AUDIO && p.start { frameInfoCounter' := frameInfoCounter + 1; }
      pos' := pos + p.len;
      packetInfoIdx := packetInfoIdx + 1;
      assert left == now + Left(s, pos', frameInfoCounter');
      StepsAppend(v, now, Left(s, pos', frameInfoCounter'));
    }

    /** The body of the loop over the sectors. */
    method ProcessSector(s: seq<Byte>)
      requires AtBoundary() && |s| == SECTOR && Fits(s)
      modifies this, packets, flags, data
      ensures AtBoundary() && flags[..] == NextFlags(old(flags[..]), s)
      ensures View() == Steps(old(View()), SectorPackets(old(flags[..]), s))
    {
      ghost var a := View();
      var pos := 0;
      if packetInfoIdx == header.packets {
        pos := ParseSector(s);
      }
      var frameInfoCounter: nat := 0;
      ghost var all := Left(s, pos, 0);
      while packetInfoIdx < header.packets
        modifies data, `frame, `delivered, `packetInfoIdx
        invariant InSector(s, pos, frameInfoCounter) && Steps(View(), Left(s, pos, frameInfoCounter)) == Steps(a, all)
        decreases header.packets - packetInfoIdx
      {
        pos, frameInfoCounter := ProcessNext(s, pos, frameInfoCounter);
      }
    }

    /** The first k of n sectors are done; the others will lead to the frame and deliveries `a` and
        the flags `f`. */
    ghost predicate Ahead(buffer: seq<Byte>, k: nat, n: nat, a: Assembly, f: seq<Byte>)
      reads this, packets, flags, data
    {
      && k <= n && |buffer| >= SECTOR * n && AtBoundary()
      && var rest := SectorsOf(buffer, k, n);
         AllFit(rest) && Steps(View(), AllSectorPackets(flags[..], rest)) == a && AllFlags(flags[..], rest) == f
    }

    /** One turn of the loop over the sectors. */
    method NextSector(readBuffer: seq<Byte>, k: nat, blocksRead: nat, ghost a: Assembly, ghost f: seq<Byte>)
      requires k < blocksRead && Ahead(readBuffer, k, blocksRead, a, f)
      modifies this, packets, flags, data
      ensures Ahead(readBuffer, k + 1, blocksRead, a, f)
    {
      ghost var v, was, sectors, rest := View(), flags[..], SectorsOf(readBuffer, k, blocksRead), SectorsOf(readBuffer, k + 1, blocksRead);
      var s := readBuffer[SECTOR * k..SECTOR * k + SECTOR];
      assert sectors[0] == s && sectors[1..] == rest;
      ProcessSector(s);
      StepsAppend(v, SectorPackets(was, s), AllSectorPackets(NextFlags(was, s), rest));
    }

    /** scarletbook_process_frames */
    method ProcessFrames(readBuffer: seq<Byte>, blocksRead: nat, lastBlock: bool)
      requires AtBoundary() && |readBuffer| >= SECTOR * blocksRead && AllFit(SectorsOf(readBuffer, 0, blocksRead))
      modifies this, packets, flags, data
      ensures AtBoundary() && flags[..] == AllFlags(old(flags[..]), SectorsOf(readBuffer, 0, blocksRead))
      ensures var a := Steps(old(View()), AllSectorPackets(old(flags[..]), SectorsOf(readBuffer, 0, blocksRead)));
              View() == if lastBlock then Emit(a) else a
    {
      ghost var sectors := SectorsOf(readBuffer, 0, blocksRead);
      ghost var a, f := Steps(View(), AllSectorPackets(flags[..], sectors)), AllFlags(flags[..], sectors);
      for k := 0 to blocksRead
        invariant Ahead(readBuffer, k, blocksRead, a, f)
      {
        NextSector(readBuffer, k, blocksRead, a, f);
      }
      if lastBlock { ExecReadCallback(); }
    }
  }

  /** The sectors k to n of a buffer. */
  function SectorsOf(buffer: seq<Byte>, k: nat, n: nat): seq<seq<Byte>>
    requires k <= n && |buffer| >= SECTOR * n
    decreases n - k
  {
    if k == n then [] else [buffer[SECTOR * k..SECTOR * k + SECTOR]] + SectorsOf(buffer, k + 1, n)
  }
}
