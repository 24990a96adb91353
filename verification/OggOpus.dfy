/** The Ogg packet decoder, and the encoder that sections 5 and 6 of RFC 3533 define: packets are laced into
    segments of at most 255 bytes, and segments are spread over pages of at most 255 segments. */
module OggOpus {

  type byte = b: int | 0 <= b < 256

  const MAGIC: seq<byte> := [79, 103, 103, 83]                          // "OggS"
  const OPUS_HEAD: seq<byte> := [79, 112, 117, 115, 72, 101, 97, 100]   // "OpusHead"
  const OPUS_TAGS: seq<byte> := [79, 112, 117, 115, 84, 97, 103, 115]   // "OpusTags"

  predicate IsOpusHeader(packet: seq<byte>) {
    OPUS_HEAD <= packet || OPUS_TAGS <= packet
  }

  // ----- the decoder -----------------------------------------------------------------------

  /** What the decoder has handed to its callback, the packet it is collecting, and whether the callback failed. */
  datatype Sink = Sink(frames: seq<seq<byte>>, packet: seq<byte>, failed: bool)

  datatype Status = Done | BadMagic | TruncatedTable | TruncatedData | CallbackFailed

  /** One segment arrives.  `fails(n)` says whether the callback fails on its n-th call. */
  function Feed(st: Sink, segment: seq<byte>, fails: nat -> bool): Sink {
    var packet := st.packet + segment;
    if |segment| == 255 then st.(packet := packet)
    else if |packet| == 0 || IsOpusHeader(packet) then st.(packet := [])
    else Sink(st.frames + [packet], [], fails(|st.frames|))
  }

  datatype SegmentsResult = Fed(rest: seq<byte>, st: Sink) | Stopped(st: Sink, status: Status)

  function DecodeSegments(table: seq<byte>, body: seq<byte>, st: Sink, fails: nat -> bool): (r: SegmentsResult)
    ensures r.Fed? ==> |r.rest| <= |body|
    ensures r.Stopped? ==> r.status != Done
    decreases |table|
  {
    if table == [] then Fed(body, st)
    else if |body| < table[0] then Stopped(st, TruncatedData)
    else
      var st' := Feed(st, body[..table[0]], fails);
      if st'.failed then Stopped(st', CallbackFailed)
      else DecodeSegments(table[1..], body[table[0]..], st', fails)
  }

  /** The segment count of a page header. */
  function Count(data: seq<byte>): nat
    requires |data| >= 27
  {
    data[26]
  }

  function DecodePages(data: seq<byte>, st: Sink, fails: nat -> bool): (Sink, Status)
    decreases |data|
  {
    if |data| < 27 then (st, Done)
    else if data[..4] != MAGIC then (st, BadMagic)
    else if |data| < 27 + Count(data) then (st, TruncatedTable)
    else
      match DecodeSegments(data[27..27 + Count(data)], data[27 + Count(data)..], st, fails)
      case Stopped(st', status) => (st', status)
      case Fed(rest, st') => DecodePages(rest, st', fails)
  }

  const EMPTY := Sink([], [], false)

  function Decode(data: seq<byte>, fails: nat -> bool): (Sink, Status) {
    DecodePages(data, EMPTY, fails)
  }

  datatype ReadResult = Full(buf: seq<byte>) | Eof | UnexpectedEof

  class Reader {
    const data: seq<byte>
    var pos: nat

    ghost predicate Valid()
      reads this
    {
      pos <= |data|
    }

    constructor (data: seq<byte>)
      ensures Valid() && this.data == data && pos == 0
    {
      this.data := data;
      pos := 0;
    }

    method ReadFull(n: nat) returns (r: ReadResult)
      requires Valid()
      modifies this
      ensures Valid()
      ensures r.Full? <==> old(pos) + n <= |data|
      ensures pos >= old(pos)
      ensures r.Full? ==> pos == old(pos) + n && r.buf == data[old(pos)..pos]
    {
      if pos + n <= |data| {
        r := Full(data[pos..pos + n]);
        pos := pos + n;
      } else if pos == |data| {
        r := Eof;
      } else {
        pos := |data|;
        r := UnexpectedEof;
      }
    }
  }

  method DecodeOggOpus(r: Reader, fails: nat -> bool) returns (frames: seq<seq<byte>>, status: Status)
    requires r.Valid() && r.pos == 0
    modifies r
    ensures var (st, s) := Decode(r.data, fails); frames == st.frames && status == s
  {
    ghost var all := Decode(r.data, fails);
    var packet: seq<byte> := [];
    frames := [];
    assert r.data[0..] == r.data;
    while true
      invariant r.Valid()
      invariant DecodePages(r.data[r.pos..], Sink(frames, packet, false), fails) == all
      decreases |r.data| - r.pos
    {
      ghost var rest := r.data[r.pos..];
      var header := r.ReadFull(27);
      if !header.Full? {
        return frames, Done;
      }
      assert header.buf == rest[..27];
      if header.buf[..4] != MAGIC {
        return frames, BadMagic;
      }
      var pageSegments: int := header.buf[26];
      var table := r.ReadFull(pageSegments);
      if !table.Full? {
        return frames, TruncatedTable;
      }
      assert table.buf == rest[27..27 + pageSegments];
      assert r.data[r.pos..] == rest[27 + pageSegments..];
      var stop;
      frames, packet, stop := DecodePage(r, table.buf, frames, packet, fails);
      if stop != Done {
        return frames, stop;
      }
    }
  }

  /** The inner loop: the segments of one page. */
  method DecodePage(r: Reader, segmentTable: seq<byte>, frames0: seq<seq<byte>>, packet0: seq<byte>, fails: nat -> bool)
    returns (frames: seq<seq<byte>>, packet: seq<byte>, status: Status)
    requires r.Valid()
    modifies r
    ensures r.Valid() && r.pos >= old(r.pos)
    ensures match DecodeSegments(segmentTable, old(r.data[r.pos..]), Sink(frames0, packet0, false), fails)
            case Fed(rest, st) => status == Done && rest == r.data[r.pos..] && st == Sink(frames, packet, false)
            case Stopped(st, s) => status == s && st.frames == frames
  {
    hide DecodeSegments, Feed;
    frames, packet := frames0, packet0;
    ghost var all := DecodeSegments(segmentTable, r.data[r.pos..], Sink(frames, packet, false), fails);
    var i := 0;
    assert segmentTable[0..] == segmentTable;
    while i < |segmentTable|
      invariant 0 <= i <= |segmentTable| && r.Valid() && r.pos >= old(r.pos)
      invariant DecodeSegments(segmentTable[i..], r.data[r.pos..], Sink(frames, packet, false), fails) == all
    {
      ghost var body := r.data[r.pos..];
      ghost var table := segmentTable[i..];
      var lacing := segmentTable[i];
      assert table[0] == lacing && table[1..] == segmentTable[i + 1..];
      SegmentStep(table, body, Sink(frames, packet, false), fails);
      var segment := r.ReadFull(lacing);
      if !segment.Full? {
        return frames, packet, TruncatedData;
      }
      assert segment.buf == body[..lacing] && r.data[r.pos..] == body[lacing..];
      FeedStep(frames, packet, segment.buf, fails);
      packet := packet + segment.buf;
      if lacing < 255 {
        if |packet| > 0 {
          if !IsOpusHeader(packet) {
            frames := frames + [packet];
            if fails(|frames| - 1) {
              return frames, packet, CallbackFailed;
            }
          }
          packet := [];
        }
      }
      i := i + 1;
    }
    SegmentsOver(r.data[r.pos..], Sink(frames, packet, false), fails);
    assert segmentTable[i..] == [];
    return frames, packet, Done;
  }

  lemma SegmentStep(table: seq<byte>, body: seq<byte>, st: Sink, fails: nat -> bool)
    requires table != []
    ensures DecodeSegments(table, body, st, fails) ==
            if |body| < table[0] then Stopped(st, TruncatedData)
            else
              var st' := Feed(st, body[..table[0]], fails);
              if st'.failed then Stopped(st', CallbackFailed)
              else DecodeSegments(table[1..], body[table[0]..], st', fails)
  {
    hide Feed;
  }

  lemma SegmentsOver(body: seq<byte>, st: Sink, fails: nat -> bool)
    ensures DecodeSegments([], body, st, fails) == Fed(body, st)
  {
  }

  lemma FeedStep(frames: seq<seq<byte>>, packet: seq<byte>, segment: seq<byte>, fails: nat -> bool)
    ensures var whole, st := packet + segment, Feed(Sink(frames, packet, false), segment, fails);
            st ==
            if |segment| == 255 then Sink(frames, whole, false)
            else if whole == [] || IsOpusHeader(whole) then Sink(frames, [], false)
            else Sink(frames + [whole], [], fails(|frames|))
  {
  }

  // ----- the encoder -----------------------------------------------------------------------

  /** The lacing of one packet: full segments of 255 bytes, then one shorter segment, possibly empty. */
  function Lace(packet: seq<byte>): seq<seq<byte>>
    decreases |packet|
  {
    if |packet| < 255 then [packet] else [packet[..255]] + Lace(packet[255..])
  }

  function LaceAll(packets: seq<seq<byte>>): seq<seq<byte>> {
    if packets == [] then [] else Lace(packets[0]) + LaceAll(packets[1..])
  }

  /** A page: the header bytes between the magic and the segment count, which the decoder skips, and the
      segments the page carries. */
  datatype Page = Page(fields: seq<byte>, segments: seq<seq<byte>>)

  predicate WellFormed(p: Page) {
    |p.fields| == 22 && |p.segments| <= 255 && forall s :: s in p.segments ==> |s| <= 255
  }

  function Lengths(segments: seq<seq<byte>>): (t: seq<byte>)
    requires forall s :: s in segments ==> |s| <= 255
    ensures |t| == |segments|
  {
    if segments == [] then [] else [|segments[0]|] + Lengths(segments[1..])
  }

  function Joined(segments: seq<seq<byte>>): seq<byte> {
    if segments == [] then [] else segments[0] + Joined(segments[1..])
  }

  function PageBytes(p: Page): seq<byte>
    requires WellFormed(p)
  {
    MAGIC + p.fields + [|p.segments|] + Lengths(p.segments) + Joined(p.segments)
  }

  ghost predicate AllWellFormed(pages: seq<Page>) {
    forall p :: p in pages ==> WellFormed(p)
  }

  function Stream(pages: seq<Page>): seq<byte>
    requires AllWellFormed(pages)
  {
    if pages == [] then [] else PageBytes(pages[0]) + Stream(pages[1..])
  }

  function Segments(pages: seq<Page>): seq<seq<byte>> {
    if pages == [] then [] else pages[0].segments + Segments(pages[1..])
  }

  // ----- decoding what the encoder wrote ---------------------------------------------------

  /** Feeding segments one after the other, until the callback fails. */
  function FeedAll(st: Sink, segments: seq<seq<byte>>, fails: nat -> bool): Sink
    decreases |segments|
  {
    if segments == [] || st.failed then st else FeedAll(Feed(st, segments[0], fails), segments[1..], fails)
  }

  lemma {:induction false} FeedAllConcat(st: Sink, a: seq<seq<byte>>, b: seq<seq<byte>>, fails: nat -> bool)
    ensures FeedAll(st, a + b, fails) == FeedAll(FeedAll(st, a, fails), b, fails)
    decreases |a|
  {
    hide Feed;
    if a == [] {
      assert a + b == b;
    } else if !st.failed {
      assert (a + b)[1..] == a[1..] + b;
      FeedAllConcat(Feed(st, a[0], fails), a[1..], b, fails);
    }
  }

  lemma {:induction false} SegmentsDecode(segments: seq<seq<byte>>, rest: seq<byte>, st: Sink, fails: nat -> bool)
    requires (forall s :: s in segments ==> |s| <= 255) && !st.failed
    ensures var st' := FeedAll(st, segments, fails);
            DecodeSegments(Lengths(segments), Joined(segments) + rest, st, fails) ==
            if st'.failed then Stopped(st', CallbackFailed) else Fed(rest, st')
    decreases |segments|
  {
    hide Feed;
    if segments == [] {
      assert Joined(segments) + rest == rest;
    } else {
      var body := Joined(segments) + rest;
      var s := segments[0];
      assert body == s + (Joined(segments[1..]) + rest);
      assert body[..|s|] == s && body[|s|..] == Joined(segments[1..]) + rest;
      assert Lengths(segments)[1..] == Lengths(segments[1..]);
      var st1 := Feed(st, s, fails);
      if !st1.failed {
        SegmentsDecode(segments[1..], rest, st1, fails);
      }
    }
  }

  lemma PageShape(p: Page, rest: seq<byte>)
    requires WellFormed(p)
    ensures var data, n := PageBytes(p) + rest, |p.segments|;
            && |data| >= 27 + n && data[..4] == MAGIC && data[26] == n
            && data[27..27 + n] == Lengths(p.segments) && data[27 + n..] == Joined(p.segments) + rest
  {
  }

  /** One page in front of the stream, whatever its header fields, just feeds its segments. */
  lemma PageDecode(p: Page, rest: seq<byte>, st: Sink, fails: nat -> bool)
    requires WellFormed(p) && !st.failed
    ensures var st' := FeedAll(st, p.segments, fails);
            DecodePages(PageBytes(p) + rest, st, fails) ==
            if st'.failed then (st', CallbackFailed) else DecodePages(rest, st', fails)
  {
    hide PageBytes, Lengths, Joined, FeedAll, DecodeSegments;
    PageShape(p, rest);
    SegmentsDecode(p.segments, rest, st, fails);
  }

  /** Paging does not matter: decoding a stream of pages is feeding the concatenation of their segments, for
      every division of the segments into pages, any header fields, and an incomplete page header at the end. */
  lemma {:induction false} PagingIrrelevant(pages: seq<Page>, tail: seq<byte>, st: Sink, fails: nat -> bool)
    requires AllWellFormed(pages) && |tail| < 27 && !st.failed
    ensures var st' := FeedAll(st, Segments(pages), fails);
            DecodePages(Stream(pages) + tail, st, fails) == (st', if st'.failed then CallbackFailed else Done)
    decreases |pages|
  {
    hide PageBytes, FeedAll, Feed;
    if pages == [] {
      assert Stream(pages) + tail == tail;
      NothingFed(st, fails);
    } else {
      var p := pages[0];
      assert Stream(pages) + tail == PageBytes(p) + (Stream(pages[1..]) + tail);
      PageDecode(p, Stream(pages[1..]) + tail, st, fails);
      var st1 := FeedAll(st, p.segments, fails);
      FeedAllConcat(st, p.segments, Segments(pages[1..]), fails);
      if st1.failed {
        FailedStays(st1, Segments(pages[1..]), fails);
      } else {
        PagingIrrelevant(pages[1..], tail, st1, fails);
      }
    }
  }

  lemma NothingFed(st: Sink, fails: nat -> bool)
    ensures FeedAll(st, [], fails) == st
  {
  }

  lemma FailedStays(st: Sink, segments: seq<seq<byte>>, fails: nat -> bool)
    requires st.failed
    ensures FeedAll(st, segments, fails) == st
  {
  }

  // ----- the bytes of the names, and what is delivered -------------------------------------

  /** The data begins with the ASCII characters of the name. */
  predicate BeginsWith(data: seq<byte>, name: string) {
    |name| <= |data| && forall i :: 0 <= i < |name| ==> data[i] as int == name[i] as int
  }

  lemma NamesAre(data: seq<byte>)
    ensures MAGIC <= data <==> BeginsWith(data, "OggS")
    ensures OPUS_HEAD <= data <==> BeginsWith(data, "OpusHead")
    ensures OPUS_TAGS <= data <==> BeginsWith(data, "OpusTags")
  {
    NameIs(data, MAGIC, "OggS");
    NameIs(data, OPUS_HEAD, "OpusHead");
    NameIs(data, OPUS_TAGS, "OpusTags");
  }

  lemma NameIs(data: seq<byte>, bytes: seq<byte>, name: string)
    requires |bytes| == |name| && forall i :: 0 <= i < |name| ==> bytes[i] as int == name[i] as int
    ensures bytes <= data <==> BeginsWith(data, name)
  {
    if BeginsWith(data, name) {
      assert forall i :: 0 <= i < |bytes| ==> bytes[i] == data[i];
    }
    if bytes <= data {
      assert forall i :: 0 <= i < |bytes| ==> bytes[i] == data[i];
    }
  }

  /** A packet worth delivering: some bytes that are neither an identification header nor a comment header. */
  predicate IsFrame(p: seq<byte>) {
    p != [] && !BeginsWith(p, "OpusHead") && !BeginsWith(p, "OpusTags")
  }

  lemma FrameIff(p: seq<byte>)
    ensures IsFrame(p) <==> p != [] && !IsOpusHeader(p)
  {
    NamesAre(p);
  }

  /** The packets the callback should see. */
  function Audio(packets: seq<seq<byte>>): seq<seq<byte>> {
    if packets == [] then []
    else (if IsFrame(packets[0]) then [packets[0]] else []) + Audio(packets[1..])
  }

  const NEVER: nat -> bool := (_: nat) => false

  /** Lacing a packet and feeding the segments completes exactly that packet. */
  lemma {:induction false} LaceFeeds(frames: seq<seq<byte>>, prefix: seq<byte>, packet: seq<byte>)
    ensures var whole := prefix + packet;
            FeedAll(Sink(frames, prefix, false), Lace(packet), NEVER) ==
            Sink(frames + Audio([whole]), [], false)
    decreases |packet|
  {
    var st := Sink(frames, prefix, false);
    if |packet| < 255 {
      var one := [packet];
      assert one[1..] == [];
      AudioOne(prefix + packet);
      var fed := Feed(st, packet, NEVER);
      assert fed == Sink(frames + Audio([prefix + packet]), [], false);
      assert FeedAll(st, one, NEVER) == FeedAll(fed, [], NEVER) == fed;
    } else {
      var head, rest := packet[..255], packet[255..];
      assert Lace(packet)[0] == head && Lace(packet)[1..] == Lace(rest);
      assert prefix + packet == (prefix + head) + rest;
      LaceFeeds(frames, prefix + head, rest);
    }
  }

  lemma AudioOne(p: seq<byte>)
    ensures Audio([p]) == if p == [] || IsOpusHeader(p) then [] else [p]
  {
    hide Audio, IsFrame, IsOpusHeader;
    FrameIff(p);
    AudioHead([p]);
    AudioNothing();
    assert [p][1..] == [];
  }

  lemma AudioNothing()
    ensures Audio([]) == []
  {
  }

  lemma AudioHead(packets: seq<seq<byte>>)
    requires packets != []
    ensures Audio(packets) == (if IsFrame(packets[0]) then [packets[0]] else []) + Audio(packets[1..])
  {
    hide IsFrame;
  }

  lemma {:induction false} LaceAllFeeds(frames: seq<seq<byte>>, packets: seq<seq<byte>>)
    ensures FeedAll(Sink(frames, [], false), LaceAll(packets), NEVER) == Sink(frames + Audio(packets), [], false)
    decreases |packets|
  {
    hide Feed, Lace;
    if packets == [] {
      assert frames + Audio(packets) == frames;
      NothingFed(Sink(frames, [], false), NEVER);
    } else {
      var p := packets[0];
      LaceFeeds(frames, [], p);
      assert [] + p == p;
      FeedAllConcat(Sink(frames, [], false), Lace(p), LaceAll(packets[1..]), NEVER);
      LaceAllFeeds(frames + Audio([p]), packets[1..]);
      AudioCons(frames, packets);
    }
  }

  lemma AudioCons(frames: seq<seq<byte>>, packets: seq<seq<byte>>)
    requires packets != []
    ensures frames + Audio([packets[0]]) + Audio(packets[1..]) == frames + Audio(packets)
  {
    hide Audio, IsFrame;
    var one := [packets[0]];
    AudioHead(packets);
    AudioHead(one);
    AudioNothing();
    assert one[1..] == [];
  }

  /** Main round trip: for every packet list and every division of its lacing into pages, decoding the stream
      calls the callback on exactly the nonempty packets that are not Opus headers, in order. */
  lemma RoundTrip(packets: seq<seq<byte>>, pages: seq<Page>)
    requires AllWellFormed(pages) && Segments(pages) == LaceAll(packets)
    ensures Decode(Stream(pages), NEVER) == (Sink(Audio(packets), [], false), Done)
  {
    assert Stream(pages) + [] == Stream(pages);
    PagingIrrelevant(pages, [], EMPTY, NEVER);
    LaceAllFeeds([], packets);
    assert [] + Audio(packets) == Audio(packets);
  }

  // ----- which inputs are accepted ---------------------------------------------------------

  /** The segments a length table cuts off the front of a body. */
  function CutBy(table: seq<byte>, body: seq<byte>): seq<seq<byte>>
    decreases |table|
  {
    if table == [] || |body| < table[0] then [] else [body[..table[0]]] + CutBy(table[1..], body[table[0]..])
  }

  lemma {:induction false} FedIsCut(table: seq<byte>, body: seq<byte>, st: Sink, fails: nat -> bool)
    requires DecodeSegments(table, body, st, fails).Fed?
    ensures var segments := CutBy(table, body);
            && (forall s :: s in segments ==> |s| <= 255)
            && Lengths(segments) == table
            && Joined(segments) + DecodeSegments(table, body, st, fails).rest == body
    decreases |table|
  {
    hide Feed, Lengths, Joined, CutBy, DecodeSegments;
    if table == [] {
      CutStep(table, body, st, fails);
      NoSegments();
      assert [] + body == body;
    } else {
      CutStep(table, body, st, fails);
      var s, rest := body[..table[0]], body[table[0]..];
      FedIsCut(table[1..], rest, Feed(st, s, fails), fails);
      var segments := CutBy(table[1..], rest);
      SegmentCons(s, segments);
      assert [table[0]] + table[1..] == table;
      assert (s + Joined(segments)) + DecodeSegments(table, body, st, fails).rest == s + rest == body;
    }
  }

  lemma CutStep(table: seq<byte>, body: seq<byte>, st: Sink, fails: nat -> bool)
    requires DecodeSegments(table, body, st, fails).Fed?
    ensures table == [] ==> CutBy(table, body) == [] && DecodeSegments(table, body, st, fails).rest == body
    ensures table != [] ==>
              && table[0] as int <= |body|
              && var s, rest := body[..table[0]], body[table[0]..];
                 && CutBy(table, body) == [s] + CutBy(table[1..], rest)
                 && DecodeSegments(table, body, st, fails) == DecodeSegments(table[1..], rest, Feed(st, s, fails), fails)
  {
    hide Feed;
  }

  lemma NoSegments()
    ensures Joined([]) == [] && Lengths([]) == []
  {
  }

  lemma SegmentCons(s: seq<byte>, segments: seq<seq<byte>>)
    requires |s| <= 255 && forall x :: x in segments ==> |x| <= 255
    ensures Lengths([s] + segments) == [|s|] + Lengths(segments)
    ensures Joined([s] + segments) == s + Joined(segments)
  {
    assert ([s] + segments)[1..] == segments;
  }

  lemma PageRebuilt(data: seq<byte>, segments: seq<seq<byte>>, rest: seq<byte>)
    requires |data| >= 27 && data[..4] == MAGIC && |data| >= 27 + Count(data)
    requires (forall s :: s in segments ==> |s| <= 255) && Lengths(segments) == data[27..27 + Count(data)]
    requires Joined(segments) + rest == data[27 + Count(data)..]
    ensures var p := Page(data[4..26], segments); WellFormed(p) && PageBytes(p) + rest == data
  {
    hide Lengths, Joined;
    var n := Count(data);
    assert data == data[..4] + data[4..26] + [data[26]] + data[27..27 + n] + data[27 + n..];
  }

  function Total(table: seq<byte>): nat {
    if table == [] then 0 else table[0] + Total(table[1..])
  }

  /** How the input ends behind its last complete page: too short for another page header, or with a header whose magic is
      wrong, whose segment table is cut off, or whose segments are. */
  predicate EndsAs(rest: seq<byte>, status: Status) {
    match status
    case Done => |rest| < 27
    case BadMagic => |rest| >= 27 && !BeginsWith(rest, "OggS")
    case TruncatedTable => |rest| >= 27 && BeginsWith(rest, "OggS") && |rest| < 27 + rest[26] as int
    case TruncatedData =>
      && |rest| >= 27 && BeginsWith(rest, "OggS") && |rest| >= 27 + rest[26] as int
      && |rest| < 27 + rest[26] as int + Total(rest[27..27 + rest[26] as int])
    case CallbackFailed => false
  }

  lemma {:induction false} TooShortIff(table: seq<byte>, body: seq<byte>, st: Sink)
    requires !st.failed
    ensures var r := DecodeSegments(table, body, st, NEVER);
            if |body| < Total(table) then r.Stopped? && r.status == TruncatedData else r.Fed?
    decreases |table|
  {
    if table != [] && |body| >= table[0] {
      TooShortIff(table[1..], body[table[0]..], Feed(st, body[..table[0]], NEVER));
    }
  }

  lemma EndStatus(rest: seq<byte>, st: Sink, status: Status)
    requires EndsAs(rest, status) && !st.failed
    ensures DecodePages(rest, st, NEVER).1 == status
  {
    hide BeginsWith, DecodeSegments;
    NamesAre(rest);
    if |rest| >= 4 {
      MagicFront(rest);
    }
    if status.TruncatedData? {
      TooShortIff(rest[27..27 + Count(rest)], rest[27 + Count(rest)..], st);
    }
  }

  lemma MagicFront(data: seq<byte>)
    requires |data| >= 4
    ensures data[..4] == MAGIC <==> MAGIC <= data
  {
  }

  /** Every input is a stream of well-formed pages and a rest that ends as the decoder says. */
  lemma {:induction false} Decompose(data: seq<byte>, st: Sink) returns (pages: seq<Page>, rest: seq<byte>)
    requires !st.failed
    ensures AllWellFormed(pages) && Stream(pages) + rest == data && EndsAs(rest, DecodePages(data, st, NEVER).1)
    decreases |data|
  {
    hide PageBytes, DecodePages, BeginsWith;
    var ends := RestEnds(data, st);
    if ends {
      pages, rest := [], data;
      assert Stream(pages) + rest == data;
    } else {
      var p, left, st' := CompletePage(data, st);
      var more;
      more, rest := Decompose(left, st');
      pages := [p] + more;
      assert pages[1..] == more;
      assert Stream(pages) + rest == PageBytes(p) + (Stream(more) + rest);
    }
  }

  /** Either no complete page is left, and how the input ends is what the decoder says; or one is. */
  lemma RestEnds(data: seq<byte>, st: Sink) returns (ends: bool)
    requires !st.failed
    ensures ends ==> EndsAs(data, DecodePages(data, st, NEVER).1)
    ensures !ends ==>
              && |data| >= 27 && data[..4] == MAGIC && |data| >= 27 + Count(data)
              && DecodeSegments(data[27..27 + Count(data)], data[27 + Count(data)..], st, NEVER).Fed?
  {
    hide BeginsWith, DecodeSegments;
    if |data| < 27 {
      return true;
    }
    NamesAre(data);
    MagicFront(data);
    if data[..4] != MAGIC || |data| < 27 + Count(data) {
      return true;
    }
    TooShortIff(data[27..27 + Count(data)], data[27 + Count(data)..], st);
    return |data[27 + Count(data)..]| < Total(data[27..27 + Count(data)]);
  }

  lemma CompletePage(data: seq<byte>, st: Sink) returns (p: Page, left: seq<byte>, st': Sink)
    requires |data| >= 27 && data[..4] == MAGIC && |data| >= 27 + Count(data) && !st.failed
    requires DecodeSegments(data[27..27 + Count(data)], data[27 + Count(data)..], st, NEVER).Fed?
    ensures WellFormed(p) && PageBytes(p) + left == data && |left| < |data|
    ensures !st'.failed && DecodePages(left, st', NEVER) == DecodePages(data, st, NEVER)
  {
    hide PageBytes, Feed, CutBy, DecodeSegments;
    var table, body := data[27..27 + Count(data)], data[27 + Count(data)..];
    FedIsCut(table, body, st, NEVER);
    NeverFails(table, body, st);
    var fed := DecodeSegments(table, body, st, NEVER);
    p, left, st' := Page(data[4..26], CutBy(table, body)), fed.rest, fed.st;
    PageRebuilt(data, p.segments, left);
  }

  lemma {:induction false} NeverFails(table: seq<byte>, body: seq<byte>, st: Sink)
    requires !st.failed && DecodeSegments(table, body, st, NEVER).Fed?
    ensures !DecodeSegments(table, body, st, NEVER).st.failed
    decreases |table|
  {
    if table != [] {
      NeverFails(table[1..], body[table[0]..], Feed(st, body[..table[0]], NEVER));
    }
  }

  /** Decoding complete pages only feeds their segments. */
  lemma {:induction false} PagesFirst(pages: seq<Page>, rest: seq<byte>, st: Sink)
    requires AllWellFormed(pages) && !st.failed
    ensures var st' := FeedAll(st, Segments(pages), NEVER);
            !st'.failed && DecodePages(Stream(pages) + rest, st, NEVER) == DecodePages(rest, st', NEVER)
    decreases |pages|
  {
    hide PageBytes, FeedAll, Feed, DecodePages;
    FeedNeverFails(st, Segments(pages));
    if pages == [] {
      assert Stream(pages) + rest == rest;
      NothingFed(st, NEVER);
    } else {
      var p := pages[0];
      assert Stream(pages) + rest == PageBytes(p) + (Stream(pages[1..]) + rest);
      PageDecode(p, Stream(pages[1..]) + rest, st, NEVER);
      FeedNeverFails(st, p.segments);
      FeedAllConcat(st, p.segments, Segments(pages[1..]), NEVER);
      PagesFirst(pages[1..], rest, FeedAll(st, p.segments, NEVER));
    }
  }

  ghost predicate StreamThen(data: seq<byte>, status: Status) {
    exists pages, rest :: AllWellFormed(pages) && EndsAs(rest, status) && Stream(pages) + rest == data
  }

  /** Each outcome, exactly (a callback that never fails given): the input is well-formed pages and then ends cleanly, with
      a wrong magic, inside a segment table, or inside segment data. */
  lemma StatusIff(data: seq<byte>, status: Status)
    ensures Decode(data, NEVER).1 == status <==> StreamThen(data, status)
  {
    hide DecodePages, EndsAs;
    if Decode(data, NEVER).1 == status {
      var pages, rest := Decompose(data, EMPTY);
    }
    if StreamThen(data, status) {
      var pages, rest :| AllWellFormed(pages) && EndsAs(rest, status) && Stream(pages) + rest == data;
      PagesFirst(pages, rest, EMPTY);
      EndStatus(rest, FeedAll(EMPTY, Segments(pages), NEVER), status);
    }
  }

  ghost predicate IsStream(data: seq<byte>) {
    exists pages, tail :: AllWellFormed(pages) && |tail| < 27 && Stream(pages) + tail == data
  }

  /** The decoder ends without an error exactly on the streams of well-formed pages, up to an incomplete page
      header at the end. */
  lemma AcceptsIffStream(data: seq<byte>)
    ensures Decode(data, NEVER).1 == Done <==> IsStream(data)
  {
    hide Decode, DecodePages;
    StatusIff(data, Done);
    if IsStream(data) {
      var pages, tail :| AllWellFormed(pages) && |tail| < 27 && Stream(pages) + tail == data;
      assert EndsAs(tail, Done);
    }
  }

  // ----- a callback that fails -------------------------------------------------------------

  /** Call k is the first from `lo` on to fail, and is made. */
  predicate FirstFails(fails: nat -> bool, lo: nat, hi: nat, k: nat) {
    lo <= k < hi && fails(k) && forall j :: lo <= j < k ==> !fails(j)
  }

  predicate NoneFails(fails: nat -> bool, lo: nat, hi: nat) {
    forall j :: lo <= j < hi ==> !fails(j)
  }

  lemma {:induction false} SegmentsFail(table: seq<byte>, body: seq<byte>, st: Sink, fails: nat -> bool)
    requires !st.failed
    ensures var r, q := DecodeSegments(table, body, st, NEVER), DecodeSegments(table, body, st, fails);
            && (NoneFails(fails, |st.frames|, |r.st.frames|) ==> q == r)
            && forall k :: FirstFails(fails, |st.frames|, |r.st.frames|, k) ==>
                 q.Stopped? && q.status == CallbackFailed && q.st.frames == r.st.frames[..k + 1]
    decreases |table|
  {
    SegmentsOnlyAppend(table, body, st, NEVER);
    if table != [] && |body| >= table[0] {
      var s, rest := body[..table[0]], body[table[0]..];
      var st1 := Feed(st, s, NEVER);
      SegmentsOnlyAppend(table[1..], rest, st1, NEVER);
      SegmentsFail(table[1..], rest, st1, fails);
      FeedFails(st, s, fails);
      var r, q := DecodeSegments(table, body, st, NEVER), DecodeSegments(table, body, st, fails);
      forall k: nat | FirstFails(fails, |st.frames|, |r.st.frames|, k)
        ensures q.Stopped? && q.status == CallbackFailed && q.st.frames == r.st.frames[..k + 1]
      {
        if |st1.frames| > |st.frames| && k == |st.frames| {
          assert r.st.frames[..k + 1] == st1.frames;
        } else {
          assert FirstFails(fails, |st1.frames|, |r.st.frames|, k);
        }
      }
    }
  }

  lemma FeedFails(st: Sink, segment: seq<byte>, fails: nat -> bool)
    ensures var r, q := Feed(st, segment, NEVER), Feed(st, segment, fails);
            && (|r.frames| == |st.frames| ==> q == r)
            && (|r.frames| > |st.frames| ==> |r.frames| == |st.frames| + 1 && q == r.(failed := fails(|st.frames|)))
  {
  }

  lemma {:induction false} PagesFail(data: seq<byte>, st: Sink, fails: nat -> bool)
    requires !st.failed
    ensures var (r, s), (q, z) := DecodePages(data, st, NEVER), DecodePages(data, st, fails);
            && (NoneFails(fails, |st.frames|, |r.frames|) ==> q == r && z == s)
            && forall k :: FirstFails(fails, |st.frames|, |r.frames|, k) ==>
                 q.frames == r.frames[..k + 1] && z == CallbackFailed
    decreases |data|
  {
    hide DecodeSegments;
    PagesOnlyAppend(data, st, NEVER);
    if |data| >= 27 && data[..4] == MAGIC && |data| >= 27 + Count(data) {
      var table, body := data[27..27 + Count(data)], data[27 + Count(data)..];
      SegmentsFail(table, body, st, fails);
      SegmentsOnlyAppend(table, body, st, NEVER);
      match DecodeSegments(table, body, st, NEVER)
      case Stopped(_, _) =>
      case Fed(rest, st1) =>
        NeverFails(table, body, st);
        PagesOnlyAppend(rest, st1, NEVER);
        PagesFail(rest, st1, fails);
        var (r, s) := DecodePages(data, st, NEVER);
        var (q, z) := DecodePages(data, st, fails);
        forall k: nat | FirstFails(fails, |st.frames|, |r.frames|, k)
          ensures q.frames == r.frames[..k + 1] && z == CallbackFailed
        {
          if k < |st1.frames| {
            assert FirstFails(fails, |st.frames|, |st1.frames|, k);
            assert r.frames[..k + 1] == st1.frames[..k + 1];
          } else {
            assert NoneFails(fails, |st.frames|, |st1.frames|);
            assert FirstFails(fails, |st1.frames|, |r.frames|, k);
          }
        }
    }
  }

  /** A failing callback ends the decoding right there: the frames up to and including the one it failed on have been
      delivered, and the outcome is its error; a callback that fails on none of the frames changes nothing. */
  lemma CallbackExact(data: seq<byte>, fails: nat -> bool)
    ensures var (r, s), (q, z) := Decode(data, NEVER), Decode(data, fails);
            && (NoneFails(fails, 0, |r.frames|) ==> q == r && z == s)
            && forall k :: FirstFails(fails, 0, |r.frames|, k) ==> q.frames == r.frames[..k + 1] && z == CallbackFailed
  {
    PagesFail(data, EMPTY, fails);
  }

  lemma {:induction false} FeedNeverFails(st: Sink, segments: seq<seq<byte>>)
    requires !st.failed
    ensures !FeedAll(st, segments, NEVER).failed
    decreases |segments|
  {
    if segments != [] {
      FeedNeverFails(Feed(st, segments[0], NEVER), segments[1..]);
    }
  }

  // ----- truncation ------------------------------------------------------------------------

  lemma {:induction false} SegmentsOnlyAppend(table: seq<byte>, body: seq<byte>, st: Sink, fails: nat -> bool)
    ensures st.frames <= DecodeSegments(table, body, st, fails).st.frames
    decreases |table|
  {
    if table != [] && |body| >= table[0] {
      var st' := Feed(st, body[..table[0]], fails);
      if !st'.failed {
        SegmentsOnlyAppend(table[1..], body[table[0]..], st', fails);
      }
    }
  }

  lemma {:induction false} PagesOnlyAppend(data: seq<byte>, st: Sink, fails: nat -> bool)
    ensures st.frames <= DecodePages(data, st, fails).0.frames
    decreases |data|
  {
    hide Feed, DecodeSegments;
    if |data| >= 27 && data[..4] == MAGIC && |data| >= 27 + Count(data) {
      var table, body := data[27..27 + Count(data)], data[27 + Count(data)..];
      SegmentsOnlyAppend(table, body, st, fails);
      match DecodeSegments(table, body, st, fails)
      case Stopped(_, _) =>
      case Fed(rest, st') => PagesOnlyAppend(rest, st', fails);
    }
  }

  /** Cutting the body short either changes nothing but the rest, or stops with fewer frames. */
  lemma {:induction false} SegmentsPrefix(table: seq<byte>, body: seq<byte>, cut: seq<byte>, st: Sink, fails: nat -> bool)
    requires cut <= body
    ensures var r, c := DecodeSegments(table, body, st, fails), DecodeSegments(table, cut, st, fails);
            || (c == Stopped(c.st, TruncatedData) && c.st.frames <= r.st.frames)
            || (c.Stopped? && r == c)
            || (c.Fed? && r.Fed? && c.st == r.st && c.rest <= r.rest)
    decreases |table|
  {
    if table != [] {
      if |cut| < table[0] {
        SegmentsOnlyAppend(table, body, st, fails);
      } else {
        assert cut[..table[0]] == body[..table[0]];
        var st' := Feed(st, body[..table[0]], fails);
        if !st'.failed {
          SegmentsPrefix(table[1..], body[table[0]..], cut[table[0]..], st', fails);
        }
      }
    }
  }

  /** A stream cut off anywhere delivers a prefix of the frames of the whole stream: no frame is invented,
      altered or reordered by truncation. */
  lemma {:induction false} TruncationDeliversPrefix(data: seq<byte>, cut: seq<byte>, st: Sink, fails: nat -> bool)
    requires cut <= data
    ensures DecodePages(cut, st, fails).0.frames <= DecodePages(data, st, fails).0.frames
    decreases |data|
  {
    hide Feed, DecodeSegments;
    PagesOnlyAppend(data, st, fails);
    if |cut| >= 27 {
      assert cut[..4] == data[..4] && cut[26] == data[26];
      var n := Count(data);
      if cut[..4] == MAGIC && |cut| >= 27 + n {
        var table, body, cutBody := data[27..27 + n], data[27 + n..], cut[27 + n..];
        assert cut[27..27 + n] == table;
        SegmentsPrefix(table, body, cutBody, st, fails);
        var r, c := DecodeSegments(table, body, st, fails), DecodeSegments(table, cutBody, st, fails);
        if c.Fed? {
          TruncationDeliversPrefix(r.rest, c.rest, r.st, fails);
        } else if r.Fed? {
          PagesOnlyAppend(r.rest, r.st, fails);
        }
      }
    }
  }
}
