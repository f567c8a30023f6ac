/** The layout of an audio sector (libs/libsacd/scarletbook.h and the parsing in
    libs/libsacd/scarletbook_read.c): a header byte, two bytes for each packet, three or four for
    each frame that starts, and the payloads. */
module Sectors {
  import opened Bits
  import opened Frames
  import opened Reblocking

  /** SACD_LSN_SIZE, and DATA_TYPE_AUDIO */
  const SECTOR: nat := 2048
  const AUDIO: nat := 2

  datatype Header = Header(packets: nat, infos: nat, dst: bool)

  datatype PacketInfo = PacketInfo(start: bool, kind: nat, len: nat)

  predicate SmallHeader(h: Header) { h.packets < 8 && h.infos < 8 }

  function HeaderOf(b: Byte): Header { Header(b / 32, b / 4 % 8, b % 2 == 1) }

  function PacketInfoOf(b0: Byte, b1: Byte): PacketInfo { PacketInfo(b0 / 128 == 1, b0 / 8 % 8, b0 % 8 * 256 + b1) }

  /** get_channel_count */
  function ChannelCount(flags: Byte): nat {
    if flags / 2 % 2 == 1 && flags % 2 == 0 then 6 else if flags / 2 % 2 == 0 && flags % 2 == 1 then 5 else 2
  }

  function InfoOf(dst: bool, flags: Byte): Info { Info(dst, flags / 4 % 32, ChannelCount(flags)) }

  /** Where the frame informations and the payloads begin. */
  function InfosAt(h: Header): nat { 1 + 2 * h.packets }

  function PayloadAt(h: Header): nat { InfosAt(h) + (if h.dst then 4 * h.infos else 3 * h.infos) }

  function PacketInfos(s: seq<Byte>, h: Header): (infos: seq<PacketInfo>)
    requires |s| == SECTOR && SmallHeader(h)
  {
    seq(h.packets, i requires 0 <= i < h.packets => PacketInfoOf(s[1 + 2 * i], s[2 + 2 * i]))
  }

  /** The flag bytes of the frame informations: only DST sectors have them, and they stay what they
      were in places that a sector does not fill. */
  function Flags(was: seq<Byte>, s: seq<Byte>, h: Header): (flags: seq<Byte>)
    requires |was| == 7 && |s| == SECTOR && SmallHeader(h)
  {
    seq(7, j requires 0 <= j < 7 => if h.dst && j < h.infos then s[InfosAt(h) + 4 * j + 3] else was[j])
  }

  /** The payloads from packet i on, placed at `pos`, end in the sector. */
  predicate Room(infos: seq<PacketInfo>, i: nat, pos: nat)
    requires i <= |infos|
    decreases |infos| - i
  {
    if i == |infos| then pos <= SECTOR else Room(infos, i + 1, pos + infos[i].len)
  }

  predicate Fits(s: seq<Byte>)
    requires |s| == SECTOR
  {
    Room(PacketInfos(s, HeaderOf(s[0])), 0, PayloadAt(HeaderOf(s[0])))
  }

  lemma {:induction false} RoomLeft(infos: seq<PacketInfo>, i: nat, pos: nat)
    requires i <= |infos| && Room(infos, i, pos)
    ensures pos <= SECTOR && (i < |infos| ==> pos + infos[i].len <= SECTOR)
    decreases |infos| - i
  {
    if i < |infos| { RoomLeft(infos, i + 1, pos + infos[i].len); }
  }

  /** One packet as the assembly sees it; other kinds than audio it does not see. */
  function AsPacket(p: PacketInfo, info: Info, payload: seq<Byte>): seq<Packet> {
    if p.kind != AUDIO then [] else if p.start then [Start(info, payload)] else [More(payload)]
  }

  /** How many frame informations a packet takes. */
  function Starts(p: PacketInfo): nat { if p.kind == AUDIO && p.start then 1 else 0 }

  /** The audio packets from packet i on, placed at `pos`, when `n` frame informations are taken. */
  function PacketsFrom(s: seq<Byte>, dst: bool, infos: seq<PacketInfo>, flags: seq<Byte>, i: nat, pos: nat, n: nat): seq<Packet>
    requires |s| == SECTOR && |infos| <= 7 && |flags| == 7 && n <= i <= |infos| && Room(infos, i, pos)
    decreases |infos| - i
  {
    if i == |infos| then []
    else
      RoomLeft(infos, i, pos);
      var p := infos[i];
      AsPacket(p, InfoOf(dst, flags[n]), s[pos..pos + p.len]) + PacketsFrom(s, dst, infos, flags, i + 1, pos + p.len, n + Starts(p))
  }

  /** The audio packets of a sector. */
  function SectorPackets(was: seq<Byte>, s: seq<Byte>): seq<Packet>
    requires |was| == 7 && |s| == SECTOR && Fits(s)
  {
    var h := HeaderOf(s[0]);
    PacketsFrom(s, h.dst, PacketInfos(s, h), Flags(was, s, h), 0, PayloadAt(h), 0)
  }

  ghost predicate AllFit(sectors: seq<seq<Byte>>)
    decreases |sectors|
  {
    sectors == [] || (|sectors[0]| == SECTOR && Fits(sectors[0]) && AllFit(sectors[1..]))
  }

  function NextFlags(was: seq<Byte>, s: seq<Byte>): (flags: seq<Byte>)
    requires |was| == 7 && |s| == SECTOR
  {
    Flags(was, s, HeaderOf(s[0]))
  }

  ghost function AllSectorPackets(was: seq<Byte>, sectors: seq<seq<Byte>>): seq<Packet>
    requires |was| == 7 && AllFit(sectors)
    decreases |sectors|
  {
    if sectors == [] then []
    else SectorPackets(was, sectors[0]) + AllSectorPackets(NextFlags(was, sectors[0]), sectors[1..])
  }

  ghost function AllFlags(was: seq<Byte>, sectors: seq<seq<Byte>>): (flags: seq<Byte>)
    requires |was| == 7 && AllFit(sectors)
    ensures |flags| == 7
    decreases |sectors|
  {
    if sectors == [] then was else AllFlags(NextFlags(was, sectors[0]), sectors[1..])
  }

  /** How sectors are cut into calls does not matter. */
  lemma {:induction false} SectorsAppend(was: seq<Byte>, a: seq<seq<Byte>>, b: seq<seq<Byte>>)
    requires |was| == 7 && AllFit(a) && AllFit(b)
    ensures AllFit(a + b) && AllFlags(was, a + b) == AllFlags(AllFlags(was, a), b)
    ensures AllSectorPackets(was, a + b) == AllSectorPackets(was, a) + AllSectorPackets(AllFlags(was, a), b)
    decreases |a|
  {
    if a == [] {
      assert a + b == b;
    } else {
      var first, rest, flags := a[0], a[1..], NextFlags(was, a[0]);
      assert (a + b)[0] == first && (a + b)[1..] == rest + b;
      SectorsAppend(flags, rest, b);
      Assoc(SectorPackets(was, first), AllSectorPackets(flags, rest), AllSectorPackets(AllFlags(flags, rest), b));
    }
  }

  // ----- writing a sector -----

  datatype AnyPacket = PacketSpec(start: bool, kind: nat, payload: seq<Byte>)

  datatype AnyInfo = InfoSpec(timecode: seq<Byte>, sectorCount: nat, channelCount: nat)

  /** Packets and frame informations whose numbers fit their fields. */
  type PacketSpec = p: AnyPacket | p.kind < 8 && |p.payload| < SECTOR witness PacketSpec(false, 0, [])

  type InfoSpec = f: AnyInfo | |f.timecode| == 3 && f.sectorCount < 32 && (f.channelCount == 2 || f.channelCount == 5 || f.channelCount == 6)
    witness InfoSpec([0, 0, 0], 0, 2)

  datatype SectorSpec = SectorSpec(dst: bool, packets: seq<PacketSpec>, infos: seq<InfoSpec>)

  function HeaderSpec(s: SectorSpec): Header { Header(|s.packets|, |s.infos|, s.dst) }

  function Payload(ps: seq<PacketSpec>): seq<Byte>
    decreases |ps|
  {
    if ps == [] then [] else ps[0].payload + Payload(ps[1..])
  }

  /** As many frame informations as audio packets that start a frame, and all fits. */
  predicate ValidSpec(s: SectorSpec) {
    && |s.packets| < 8 && |s.infos| < 8
    && PayloadAt(HeaderSpec(s)) + |Payload(s.packets)| <= SECTOR
    && |s.infos| == StartCount(s.packets)
  }

  predicate SpecStarts(p: PacketSpec) { p.kind == AUDIO && p.start }

  function StartCount(ps: seq<PacketSpec>): nat
    decreases |ps|
  {
    if ps == [] then 0 else (if SpecStarts(ps[0]) then 1 else 0) + StartCount(ps[1..])
  }

  function Bit(b: bool): nat { if b then 1 else 0 }

  function HeaderByte(h: Header): Byte
    requires SmallHeader(h)
  {
    32 * h.packets + 4 * h.infos + Bit(h.dst)
  }

  function PacketInfoBytes(p: PacketInfo): (Byte, Byte)
    requires p.kind < 8 && p.len < SECTOR
  {
    (128 * Bit(p.start) + 8 * p.kind + p.len / 256, p.len % 256)
  }

  function FlagByte(f: InfoSpec): Byte {
    4 * f.sectorCount + (if f.channelCount == 6 then 2 else if f.channelCount == 5 then 1 else 0)
  }

  function SpecInfo(p: PacketSpec): PacketInfo { PacketInfo(p.start, p.kind, |p.payload|) }

  lemma HeaderBytes(h: Header)
    requires SmallHeader(h)
    ensures HeaderOf(HeaderByte(h)) == h
  {
  }

  lemma PacketBytes(p: PacketInfo)
    requires p.kind < 8 && p.len < SECTOR
    ensures PacketInfoOf(PacketInfoBytes(p).0, PacketInfoBytes(p).1) == p
  {
    var hi, lo := p.len / 256, p.len % 256;
    assert hi < 8 && p.len == 256 * hi + lo;
    var b := 128 * Bit(p.start) + 8 * p.kind + hi;
    assert b / 8 == 16 * Bit(p.start) + p.kind && b % 8 == hi && b / 128 == Bit(p.start);
  }

  lemma FlagBytes(f: InfoSpec)
    ensures InfoOf(true, FlagByte(f)) == Info(true, f.sectorCount, f.channelCount)
  {
    var c := if f.channelCount == 6 then 2 else if f.channelCount == 5 then 1 else 0;
    assert FlagByte(f) / 4 == f.sectorCount && FlagByte(f) / 2 == 2 * f.sectorCount + c / 2 && FlagByte(f) % 2 == c % 2;
  }

  /** Each of the three kinds of bytes has a spare bit, which does not matter. */
  lemma HeaderSpare(packets: nat, infos: nat, spare: nat, dst: nat)
    requires packets < 8 && infos < 8 && spare < 2 && dst < 2
    ensures HeaderOf(32 * packets + 4 * infos + 2 * spare + dst) == Header(packets, infos, dst == 1)
  {
    var low := 2 * spare + dst;
    assert (32 * packets + 4 * infos + low) / 4 == 8 * packets + infos;
    assert (32 * packets + (4 * infos + low)) / 32 == packets;
  }

  lemma PacketSpare(start: nat, spare: nat, kind: nat, high: nat, low: nat)
    requires start < 2 && spare < 2 && kind < 8 && high < 8 && low < 256
    ensures PacketInfoOf(128 * start + 64 * spare + 8 * kind + high, low) == PacketInfo(start == 1, kind, 256 * high + low)
  {
    assert (128 * start + 64 * spare + 8 * kind + high) / 8 == 16 * start + 8 * spare + kind;
    assert (128 * start + (64 * spare + 8 * kind + high)) / 128 == start;
  }

  lemma InfoSpare(spare: nat, count: nat, six: nat, five: nat, dst: bool)
    requires spare < 2 && count < 32 && six < 2 && five < 2
    ensures InfoOf(dst, 128 * spare + 4 * count + 2 * six + five)
         == Info(dst, count, if six == 1 && five == 0 then 6 else if six == 0 && five == 1 then 5 else 2)
  {
    var low := 2 * six + five;
    assert (128 * spare + 4 * count + low) / 4 == 32 * spare + count;
    assert (128 * spare + 4 * count + low) / 2 == 64 * spare + 2 * count + six;
  }

  function PacketPart(ps: seq<PacketSpec>): seq<Byte>
    decreases |ps|
  {
    if ps == [] then []
    else
      var b := PacketInfoBytes(SpecInfo(ps[0]));
      [b.0, b.1] + PacketPart(ps[1..])
  }

  function InfoPart(dst: bool, fs: seq<InfoSpec>): seq<Byte>
    decreases |fs|
  {
    if fs == [] then [] else fs[0].timecode + (if dst then [FlagByte(fs[0])] else []) + InfoPart(dst, fs[1..])
  }

  lemma {:induction false} PacketPartAt(ps: seq<PacketSpec>, i: nat)
    requires i < |ps|
    ensures |PacketPart(ps)| == 2 * |ps|
    ensures var b := PacketInfoBytes(SpecInfo(ps[i])); PacketPart(ps)[2 * i] == b.0 && PacketPart(ps)[2 * i + 1] == b.1
    decreases |ps|
  {
    var rest := ps[1..];
    if i > 0 {
      PacketPartAt(rest, i - 1);
    } else if rest != [] {
      PacketPartAt(rest, 0);
    }
  }

  lemma {:induction false} InfoPartLength(dst: bool, fs: seq<InfoSpec>)
    ensures |InfoPart(dst, fs)| == if dst then 4 * |fs| else 3 * |fs|
    decreases |fs|
  {
    if fs != [] { InfoPartLength(dst, fs[1..]); }
  }

  lemma {:induction false} InfoPartAt(fs: seq<InfoSpec>, j: nat)
    requires j < |fs|
    ensures |InfoPart(true, fs)| == 4 * |fs| && InfoPart(true, fs)[4 * j + 3] == FlagByte(fs[j])
    decreases |fs|
  {
    InfoPartLength(true, fs);
    var first, rest := fs[0].timecode + [FlagByte(fs[0])], fs[1..];
    assert InfoPart(true, fs) == first + InfoPart(true, rest) && |first| == 4;
    if j > 0 { InfoPartAt(rest, j - 1); }
  }

  /** The bytes of a sector. */
  function WriteSector(s: SectorSpec): seq<Byte>
    requires ValidSpec(s)
  {
    var h := HeaderSpec(s);
    [HeaderByte(h)] + PacketPart(s.packets) + InfoPart(s.dst, s.infos) + Payload(s.packets)
      + seq(SECTOR - PayloadAt(h) - |Payload(s.packets)|, k => 0)
  }

  /** Where the parts of a sector lie. */
  lemma WrittenParts(s: SectorSpec)
    requires ValidSpec(s)
    ensures var w, h := WriteSector(s), HeaderSpec(s);
            && |w| == SECTOR && w[0] == HeaderByte(h)
            && w[1..InfosAt(h)] == PacketPart(s.packets) && w[InfosAt(h)..PayloadAt(h)] == InfoPart(s.dst, s.infos)
            && w[PayloadAt(h)..PayloadAt(h) + |Payload(s.packets)|] == Payload(s.packets)
  {
    var h := HeaderSpec(s);
    if s.packets != [] { PacketPartAt(s.packets, 0); }
    InfoPartLength(s.dst, s.infos);
    var pad := SECTOR - PayloadAt(h) - |Payload(s.packets)|;
    var infosAt, payloadAt := InfosAt(h), PayloadAt(h);
    FiveParts([HeaderByte(h)], PacketPart(s.packets), InfoPart(s.dst, s.infos), Payload(s.packets), seq(pad, k => 0), infosAt, payloadAt);
  }

  lemma FiveParts(a: seq<Byte>, b: seq<Byte>, c: seq<Byte>, d: seq<Byte>, e: seq<Byte>, third: nat, fourth: nat)
    requires |a| == 1 && third == 1 + |b| && fourth == third + |c|
    ensures var w := a + b + c + d + e;
            && |w| == fourth + |d| + |e| && w[0] == a[0] && w[1..third] == b && w[third..fourth] == c && w[fourth..fourth + |d|] == d
  {
  }

  lemma PacketInfoWritten(s: SectorSpec, i: nat)
    requires ValidSpec(s) && i < |s.packets|
    ensures var w := WriteSector(s); |w| == SECTOR && PacketInfoOf(w[1 + 2 * i], w[2 + 2 * i]) == SpecInfo(s.packets[i])
  {
    var w, part := WriteSector(s), PacketPart(s.packets);
    WrittenParts(s);
    PacketPartAt(s.packets, i);
    PacketBytes(SpecInfo(s.packets[i]));
    assert part[2 * i] == w[1 + 2 * i] && part[2 * i + 1] == w[2 + 2 * i];
  }

  lemma InfosWritten(s: SectorSpec)
    requires ValidSpec(s)
    ensures var w, h := WriteSector(s), HeaderSpec(s);
            && |w| == SECTOR && HeaderOf(w[0]) == h
            && forall i :: 0 <= i < |s.packets| ==> PacketInfos(w, h)[i] == SpecInfo(s.packets[i])
  {
    var w, h := WriteSector(s), HeaderSpec(s);
    WrittenParts(s);
    HeaderBytes(h);
    forall i | 0 <= i < |s.packets| ensures PacketInfos(w, h)[i] == SpecInfo(s.packets[i]) { PacketInfoWritten(s, i); }
  }

  lemma FlagsWritten(s: SectorSpec, was: seq<Byte>, j: nat)
    requires ValidSpec(s) && |was| == 7 && j < |s.infos| && s.dst
    ensures var w := WriteSector(s);
            |w| == SECTOR && InfoOf(true, Flags(was, w, HeaderSpec(s))[j]) == Info(true, s.infos[j].sectorCount, s.infos[j].channelCount)
  {
    var w, h, part := WriteSector(s), HeaderSpec(s), InfoPart(s.dst, s.infos);
    WrittenParts(s);
    InfoPartAt(s.infos, j);
    FlagBytes(s.infos[j]);
    assert part[4 * j + 3] == w[InfosAt(h) + 4 * j + 3];
  }

  /** The information of the n-th frame that starts in a sector. */
  function OwnInfo(s: SectorSpec, n: nat): Info {
    if s.dst && n < |s.infos| then Info(true, s.infos[n].sectorCount, s.infos[n].channelCount) else Info(s.dst, 0, 2)
  }

  /** The audio packets of a sector from packet i on. */
  function OwnPackets(s: SectorSpec, i: nat, n: nat): seq<Packet>
    requires i <= |s.packets|
    decreases |s.packets| - i
  {
    if i == |s.packets| then []
    else AsPacket(SpecInfo(s.packets[i]), OwnInfo(s, n), s.packets[i].payload) + OwnPackets(s, i + 1, n + Starts(SpecInfo(s.packets[i])))
  }

  /** The flags at hand give each frame its information. */
  ghost predicate Informs(flags: seq<Byte>, s: SectorSpec) {
    |flags| == 7 && |s.infos| <= 7 && forall n :: 0 <= n < |s.infos| ==> InfoOf(s.dst, flags[n]) == OwnInfo(s, n)
  }

  lemma SliceParts(w: seq<Byte>, pos: nat, a: seq<Byte>, b: seq<Byte>)
    requires pos + |a| + |b| <= |w| && w[pos..pos + |a| + |b|] == a + b
    ensures w[pos..pos + |a|] == a && w[pos + |a|..pos + |a| + |b|] == b
  {
    var all := w[pos..pos + |a| + |b|];
    assert w[pos..pos + |a|] == all[..|a|];
    assert w[pos + |a|..pos + |a| + |b|] == all[|a|..];
  }

  /** From `pos` on lie the payloads of the packets from i on, for whose frames n informations are taken. */
  ghost predicate Laid(w: seq<Byte>, s: SectorSpec, i: nat, pos: nat, n: nat) {
    && i <= |s.packets| && n + StartCount(s.packets[i..]) == |s.infos|
    && pos + |Payload(s.packets[i..])| <= |w| && w[pos..pos + |Payload(s.packets[i..])|] == Payload(s.packets[i..])
  }

  lemma LaidNext(w: seq<Byte>, s: SectorSpec, i: nat, pos: nat, n: nat)
    requires Laid(w, s, i, pos, n) && i < |s.packets|
    ensures var p := s.packets[i];
            && Laid(w, s, i + 1, pos + |p.payload|, n + Starts(SpecInfo(p)))
            && pos + |p.payload| <= |w| && w[pos..pos + |p.payload|] == p.payload
            && (SpecStarts(p) ==> n < |s.infos|)
  {
    var ps, p := s.packets[i..], s.packets[i];
    assert ps[1..] == s.packets[i + 1..];
    SliceParts(w, pos, p.payload, Payload(ps[1..]));
  }

  lemma PacketIs(w: seq<Byte>, s: SectorSpec, p: PacketSpec, flags: seq<Byte>, pos: nat, n: nat)
    requires Informs(flags, s) && n < 7 && (SpecStarts(p) ==> n < |s.infos|)
    requires pos + |p.payload| <= |w| && w[pos..pos + |p.payload|] == p.payload
    ensures AsPacket(SpecInfo(p), InfoOf(s.dst, flags[n]), w[pos..pos + |p.payload|]) == AsPacket(SpecInfo(p), OwnInfo(s, n), p.payload)
  {
  }

  /** The packets from i on, when those behind are known. */
  lemma PacketsOne(w: seq<Byte>, s: SectorSpec, infos: seq<PacketInfo>, flags: seq<Byte>, i: nat, pos: nat, n: nat)
    requires |w| == SECTOR && i < |s.packets| == |infos| <= 7 && n <= i && Informs(flags, s) && infos[i] == SpecInfo(s.packets[i])
    requires Laid(w, s, i, pos, n)
    requires var next, taken := pos + infos[i].len, n + Starts(infos[i]);
             Room(infos, i + 1, next) && PacketsFrom(w, s.dst, infos, flags, i + 1, next, taken) == OwnPackets(s, i + 1, taken)
    ensures Room(infos, i, pos) && PacketsFrom(w, s.dst, infos, flags, i, pos, n) == OwnPackets(s, i, n)
  {
    LaidNext(w, s, i, pos, n);
    PacketIs(w, s, s.packets[i], flags, pos, n);
  }

  lemma {:induction false} PacketsWritten(w: seq<Byte>, s: SectorSpec, infos: seq<PacketInfo>, flags: seq<Byte>, i: nat, pos: nat, n: nat)
    requires |w| == SECTOR && i <= |s.packets| == |infos| <= 7 && n <= i && Informs(flags, s)
    requires forall k :: 0 <= k < |infos| ==> infos[k] == SpecInfo(s.packets[k])
    requires Laid(w, s, i, pos, n)
    ensures Room(infos, i, pos) && PacketsFrom(w, s.dst, infos, flags, i, pos, n) == OwnPackets(s, i, n)
    decreases |infos| - i
  {
    if i < |infos| {
      LaidNext(w, s, i, pos, n);
      PacketsWritten(w, s, infos, flags, i + 1, pos + infos[i].len, n + Starts(infos[i]));
      PacketsOne(w, s, infos, flags, i, pos, n);
    }
  }

  /** Parsing the bytes of a sector gives its audio packets back. */
  lemma SectorWritten(s: SectorSpec, was: seq<Byte>)
    requires ValidSpec(s) && |was| == 7 && (!s.dst ==> forall j :: 0 <= j < 7 ==> was[j] == 0)
    ensures var w := WriteSector(s);
            && |w| == SECTOR && Fits(w) && SectorPackets(was, w) == OwnPackets(s, 0, 0)
            && (!s.dst ==> NextFlags(was, w) == was)
  {
    var w, h := WriteSector(s), HeaderSpec(s);
    InfosWritten(s);
    WrittenParts(s);
    var flags := Flags(was, w, h);
    forall n | 0 <= n < |s.infos| ensures InfoOf(s.dst, flags[n]) == OwnInfo(s, n) {
      if s.dst { FlagsWritten(s, was, n); }
    }
    assert s.packets[0..] == s.packets;
    PacketsWritten(w, s, PacketInfos(w, h), flags, 0, PayloadAt(h), 0);
  }

  /** Sectors of one frame format; without DST no sector has flags. */
  ghost predicate ValidSpecs(specs: seq<SectorSpec>, dst: bool)
    decreases |specs|
  {
    specs == [] || (ValidSpec(specs[0]) && specs[0].dst == dst && ValidSpecs(specs[1..], dst))
  }

  ghost function Written(specs: seq<SectorSpec>, dst: bool): seq<seq<Byte>>
    requires ValidSpecs(specs, dst)
    decreases |specs|
  {
    if specs == [] then [] else [WriteSector(specs[0])] + Written(specs[1..], dst)
  }

  function AllOwnPackets(specs: seq<SectorSpec>): seq<Packet>
    decreases |specs|
  {
    if specs == [] then [] else OwnPackets(specs[0], 0, 0) + AllOwnPackets(specs[1..])
  }

  ghost predicate NoFlags(was: seq<Byte>) { |was| == 7 && forall j :: 0 <= j < 7 ==> was[j] == 0 }

  lemma {:induction false} AllWritten(specs: seq<SectorSpec>, dst: bool, was: seq<Byte>)
    requires ValidSpecs(specs, dst) && |was| == 7 && (!dst ==> NoFlags(was))
    ensures AllFit(Written(specs, dst)) && AllSectorPackets(was, Written(specs, dst)) == AllOwnPackets(specs)
    decreases |specs|
  {
    if specs != [] {
      var w, rest := WriteSector(specs[0]), Written(specs[1..], dst);
      SectorWritten(specs[0], was);
      AllWritten(specs[1..], dst, NextFlags(was, w));
      assert ([w] + rest)[1..] == rest;
    }
  }

  // ----- any number of calls -----

  ghost predicate CallsFit(calls: seq<seq<seq<Byte>>>)
    decreases |calls|
  {
    calls == [] || (AllFit(calls[0]) && CallsFit(calls[1..]))
  }

  function Concat(calls: seq<seq<seq<Byte>>>): seq<seq<Byte>>
    decreases |calls|
  {
    if calls == [] then [] else calls[0] + Concat(calls[1..])
  }

  /** Calls of scarletbook_process_frames, each with its sectors, from the frame and the flags that the
      one before left. */
  ghost function RunCalls(a: Assembly, was: seq<Byte>, calls: seq<seq<seq<Byte>>>): Assembly
    requires |was| == 7 && CallsFit(calls)
    decreases |calls|
  {
    if calls == [] then a
    else RunCalls(Steps(a, AllSectorPackets(was, calls[0])), AllFlags(was, calls[0]), calls[1..])
  }

  lemma {:induction false} FitParts(a: seq<seq<Byte>>, b: seq<seq<Byte>>)
    requires AllFit(a + b)
    ensures AllFit(a) && AllFit(b)
    decreases |a|
  {
    if a == [] {
      assert a + b == b;
    } else {
      assert (a + b)[0] == a[0] && (a + b)[1..] == a[1..] + b;
      FitParts(a[1..], b);
    }
  }

  /** However the sectors are split into calls, the calls do what one call with all of them does. */
  lemma {:induction false} CallsJoin(a: Assembly, was: seq<Byte>, calls: seq<seq<seq<Byte>>>)
    requires |was| == 7 && AllFit(Concat(calls))
    ensures CallsFit(calls) && RunCalls(a, was, calls) == Steps(a, AllSectorPackets(was, Concat(calls)))
    decreases |calls|
  {
    if calls != [] {
      var first, rest := calls[0], Concat(calls[1..]);
      FitParts(first, rest);
      SectorsAppend(was, first, rest);
      StepsAppend(a, AllSectorPackets(was, first), AllSectorPackets(AllFlags(was, first), rest));
      CallsJoin(Steps(a, AllSectorPackets(was, first)), AllFlags(was, first), calls[1..]);
    }
  }

  /** The whole way: frames cut into packets, the packets laid out in sectors in any way (with other
      kinds of packets between them), and the sectors read in any number of calls, each with any
      number of them, the last one marked.  The callback gets exactly those frames, in order. */
  lemma SectorsRoundTrip(a: Assembly, was: seq<Byte>, dst: bool, specs: seq<SectorSpec>, fs: seq<Packed>, calls: seq<seq<seq<Byte>>>)
    requires !a.frame.started && |was| == 7 && (!dst ==> NoFlags(was))
    requires ValidSpecs(specs, dst) && AllValid(fs) && AllOwnPackets(specs) == AllPackets(fs)
    requires Concat(calls) == Written(specs, dst)
    ensures CallsFit(calls) && Emit(RunCalls(a, was, calls)).out == a.out + AllFrames(fs)
  {
    AllWritten(specs, dst, was);
    CallsJoin(a, was, calls);
    FramesRoundTrip(a, fs);
  }
}
