/** A USB/IP capture read back as frames whose lengths stand inside them. */
module Usbip {
  import opened Wrappers

  type Byte = b: int | 0 <= b < 0x100

  type Word = n: int | 0 <= n < 0x1_0000_0000

  const VERSION := 0x0111
  const CMD_SUBMIT := 1
  const CMD_UNLINK := 2
  const RET_SUBMIT := 3
  const RET_UNLINK := 4

  /** Which end wrote: the kernel's bytes to us, or ours to the kernel. */
  datatype Side = Rx | Tx

  /** The ten words a frame begins with; a reply keeps its status in `flags`. */
  datatype Header = Header(cmd: Word, seqno: Word, devid: Word, dir: Word, ep: Word, flags: Word, length: Word,
                           startFrame: Word, npkts: Word, interval: Word)
  {
    function List(): seq<Word> {
      [cmd, seqno, devid, dir, ep, flags, length, startFrame, npkts, interval]
    }
  }

  // ---- Big-endian numbers

  function Base(k: nat): nat {
    if k == 0 then 1 else 0x100 * Base(k - 1)
  }

  /** The number in the `k` bytes at `o`. */
  function NumAt(b: seq<Byte>, o: nat, k: nat): (n: nat)
    requires o + k <= |b|
    ensures n < Base(k)
    decreases k, o
  {
    if k == 0 then 0 else NumAt(b, o, k - 1) * 0x100 + b[o + k - 1]
  }

  function Be(n: nat, k: nat): (b: seq<Byte>)
    ensures |b| == k
    decreases k, n
  {
    if k == 0 then [] else Be(n / 0x100, k - 1) + [n % 0x100]
  }

  lemma {:induction false} Widths()
    ensures Base(2) == 0x1_0000 && Base(4) == 0x1_0000_0000
  {
    assert Base(1) == 0x100;
    assert Base(3) == 0x100_0000;
  }

  function U16(b: seq<Byte>, o: nat): nat
    requires o + 2 <= |b|
  {
    NumAt(b, o, 2)
  }

  function U32(b: seq<Byte>, o: nat): Word
    requires o + 4 <= |b|
  {
    Widths();
    NumAt(b, o, 4)
  }

  /** `s` stands in `b` at `off`. */
  ghost predicate Stands(b: seq<Byte>, off: nat, s: seq<Byte>) {
    off + |s| <= |b| && forall i | 0 <= i < |s| :: s[i] == b[off + i]
  }

  lemma {:induction false} StandsAt(b: seq<Byte>, off: nat, s: seq<Byte>)
    ensures Stands(b, off, s) <==> off + |s| <= |b| && b[off..off + |s|] == s
  {
  }

  lemma {:induction false} StandsParts(b: seq<Byte>, off: nat, s: seq<Byte>, t: seq<Byte>)
    ensures Stands(b, off, s + t) <==> Stands(b, off, s) && Stands(b, off + |s|, t)
  {
    if Stands(b, off, s + t) {
      assert forall i | 0 <= i < |s| :: s[i] == (s + t)[i];
      assert forall i | 0 <= i < |t| :: t[i] == (s + t)[|s| + i];
    }
  }

  lemma {:induction false} NumStands(b: seq<Byte>, off: nat, s: seq<Byte>, o: nat, k: nat)
    requires Stands(b, off, s) && o + k <= |s|
    ensures NumAt(b, off + o, k) == NumAt(s, o, k)
    decreases k
  {
    if k > 0 {
      NumStands(b, off, s, o, k - 1);
    }
  }

  lemma {:induction false} ReadsNum(n: nat, k: nat)
    requires n < Base(k)
    ensures NumAt(Be(n, k), 0, k) == n
    decreases k
  {
    if k > 0 {
      var front := Be(n / 0x100, k - 1);
      ReadsNum(n / 0x100, k - 1);
      assert Stands(Be(n, k), 0, front);
      NumStands(Be(n, k), 0, front, 0, k - 1);
    }
  }

  lemma {:induction false} WritesNum(b: seq<Byte>, o: nat, k: nat)
    requires o + k <= |b|
    ensures Be(NumAt(b, o, k), k) == b[o..o + k]
    decreases k
  {
    if k > 0 {
      var front, last: int := NumAt(b, o, k - 1), b[o + k - 1];
      WritesNum(b, o, k - 1);
      assert NumAt(b, o, k) / 0x100 == front && NumAt(b, o, k) % 0x100 == last;
      assert b[o..o + k] == b[o..o + k - 1] + [b[o + k - 1]];
    }
  }

  /** A number that stands somewhere is read there. */
  lemma {:induction false} NumReads(b: seq<Byte>, off: nat, n: nat, k: nat)
    requires Stands(b, off, Be(n, k)) && n < Base(k)
    ensures NumAt(b, off, k) == n
  {
    ReadsNum(n, k);
    NumStands(b, off, Be(n, k), 0, k);
  }

  function Words(ws: seq<Word>): (b: seq<Byte>)
    ensures |b| == 4 * |ws|
  {
    if ws == [] then [] else Words(ws[..|ws| - 1]) + Be(ws[|ws| - 1], 4)
  }

  lemma {:induction false} WordsStand(b: seq<Byte>, off: nat, ws: seq<Word>, i: nat)
    requires Stands(b, off, Words(ws)) && i < |ws|
    ensures U32(b, off + 4 * i) == ws[i]
    decreases |ws|
  {
    var last := |ws| - 1;
    StandsParts(b, off, Words(ws[..last]), Be(ws[last], 4));
    if i == last {
      Widths();
      NumReads(b, off + 4 * last, ws[last], 4);
    } else {
      WordsStand(b, off, ws[..last], i);
    }
  }

  lemma {:induction false} WordsWrite(b: seq<Byte>, off: nat, ws: seq<Word>)
    requires off + 4 * |ws| <= |b|
    requires forall i | 0 <= i < |ws| :: ws[i] == U32(b, off + 4 * i)
    ensures Stands(b, off, Words(ws))
    decreases |ws|
  {
    if ws != [] {
      var last := |ws| - 1;
      WordsWrite(b, off, ws[..last]);
      WritesNum(b, off + 4 * last, 4);
      StandsAt(b, off + 4 * last, Be(ws[last], 4));
      StandsParts(b, off, Words(ws[..last]), Be(ws[last], 4));
    }
  }

  // ---- What the two ends write

  /** A frame: its header, eight setup bytes, and what follows. */
  datatype Urb = Urb(header: Header, setup: seq<Byte>, data: seq<Byte>) {
    function Encode(): seq<Byte> {
      Words(header.List()) + setup + data
    }

    /** As the protocol has it: an OUT request and an IN reply carry their buffer, an isochronous
        transfer one descriptor of 16 bytes a packet, an unlink nothing. */
    predicate WellFormed() {
      Known(header.cmd) && |setup| == 8 && |data| == Payload(header) + Table(header)
    }
  }

  predicate Known(cmd: Word) {
    cmd in {CMD_SUBMIT, CMD_UNLINK, RET_SUBMIT, RET_UNLINK}
  }

  function Payload(h: Header): nat {
    if (h.cmd == CMD_SUBMIT && h.dir == 0) || (h.cmd == RET_SUBMIT && h.dir == 1) then h.length else 0
  }

  function Table(h: Header): nat {
    if (h.cmd == CMD_SUBMIT || h.cmd == RET_SUBMIT) && h.npkts != 0 && h.npkts != 0xFFFF_FFFF then
      16 * (h.npkts as int)
    else 0
  }

  function Length(h: Header): nat {
    48 + Payload(h) + Table(h)
  }

  /** The messages before the first frame. */
  datatype Handshake =
    | ReqImport(status: Word, busid: seq<Byte>)
    | ReqDevlist(status: Word)
    | RepImport(status: Word, device: seq<Byte>)
  {
    function Code(): nat {
      match this
      case ReqImport(_, _) => 0x8003
      case ReqDevlist(_) => 0x8005
      case RepImport(_, _) => 0x0003
    }

    function Tail(): seq<Byte> {
      match this
      case ReqImport(_, busid) => busid
      case ReqDevlist(_) => []
      case RepImport(_, device) => device
    }

    function Encode(): seq<Byte> {
      Be(0x0111, 2) + Be(Code(), 2) + Be(status, 4) + Tail()
    }

    predicate From(side: Side) {
      match this
      case ReqImport(_, busid) => side == Rx && |busid| == 32
      case ReqDevlist(_) => side == Rx
      case RepImport(s, device) => side == Tx && |device| == if s == 0 then 312 else 0
    }
  }

  function Greeting(hs: seq<Handshake>): seq<Byte> {
    if hs == [] then [] else hs[0].Encode() + Greeting(hs[1..])
  }

  function Stream(urbs: seq<Urb>): seq<Byte> {
    if urbs == [] then [] else urbs[0].Encode() + Stream(urbs[1..])
  }

  predicate AllWellFormed(urbs: seq<Urb>) {
    forall i | 0 <= i < |urbs| :: urbs[i].WellFormed()
  }

  // ---- What the walk gives

  datatype Body =
    | Submitted(xferLen: Word, npkts: Word, payload: nat, table: nat, setup: seq<Byte>)
    | Returned(status: Word, actual: Word, npkts: Word, payload: nat, table: nat)
    | Unlinked

  datatype Item =
    | Frame(off: nat, cmd: Word, seqno: Word, dir: Word, ep: Word, body: Body, end: nat)
    | TruncatedHeader(off: nat, left: nat)
    | UnknownCommand(off: nat, cmd: Word, seqno: Word, dir: Word, ep: Word)

  /** What a frame at `off` shows as. */
  function Shown(h: Header, setup: seq<Byte>, off: nat): Item {
    var payload, table := Payload(h), Table(h);
    var body := if h.cmd == CMD_SUBMIT then Submitted(h.length, h.npkts, payload, table, setup)
                else if h.cmd == RET_SUBMIT then Returned(h.flags, h.length, h.npkts, payload, table)
                else Unlinked;
    Frame(off, h.cmd, h.seqno, h.dir, h.ep, body, off + 48 + payload + table)
  }

  function AllShown(urbs: seq<Urb>, off: nat): seq<Item> {
    if urbs == [] then []
    else [Shown(urbs[0].header, urbs[0].setup, off)] + AllShown(urbs[1..], off + Length(urbs[0].header))
  }

  function HeaderAt(b: seq<Byte>, off: nat): Header
    requires off + 40 <= |b|
  {
    Header(U32(b, off), U32(b, off + 4), U32(b, off + 8), U32(b, off + 12), U32(b, off + 16), U32(b, off + 20),
           U32(b, off + 24), U32(b, off + 28), U32(b, off + 32), U32(b, off + 36))
  }

  function SetupAt(b: seq<Byte>, off: nat): (s: seq<Byte>)
    requires off + 48 <= |b|
    ensures |s| == 8 && Stands(b, off + 40, s)
  {
    seq(8, i requires 0 <= i < 8 => b[off + 40 + i])
  }

  /** What the walk yields from `off` on. */
  function Items(b: seq<Byte>, off: nat): seq<Item>
    decreases |b| - off
  {
    if off >= |b| then []
    else if |b| - off < 48 then [TruncatedHeader(off, |b| - off)]
    else
      var h := HeaderAt(b, off);
      if !Known(h.cmd) then [UnknownCommand(off, h.cmd, h.seqno, h.dir, h.ep)]
      else [Shown(h, SetupAt(b, off), off)] + Items(b, off + Length(h))
  }

  /** How long the handshake message at `off` is. */
  function GreetingLength(b: seq<Byte>, side: Side, off: nat): (n: nat)
    requires off + 4 <= |b| && (side.Tx? ==> off + 8 <= |b|)
    ensures n >= 8
  {
    var code := U16(b, off + 2);
    if side.Rx? then (if code == 0x8003 then 40 else 8)
    else if code == 0x0003 && U32(b, off + 4) == 0 then 320 else 8
  }

  /** Where framing begins; `None` where reading a reply's status runs past the end, which raises. */
  function Start(b: seq<Byte>, side: Side, off: nat): Option<nat>
    decreases |b| - off
  {
    if off + 4 > |b| || U16(b, off) != VERSION then Some(off)
    else if side.Tx? && off + 8 > |b| then None
    else Start(b, side, off + GreetingLength(b, side, off))
  }

  /** The items of a whole capture. */
  function Walked(buf: seq<Byte>, side: Side): Option<seq<Item>> {
    match Start(buf, side, 0)
    case None => None
    case Some(start) => Some(Items(buf, start))
  }

  method SkipHandshake(buf: seq<Byte>, side: Side) returns (r: Option<nat>)
    ensures r == Start(buf, side, 0)
  {
    var off := 0;
    while off + 4 <= |buf| && U16(buf, off) == VERSION
      invariant Start(buf, side, off) == Start(buf, side, 0)
      decreases |buf| - off
    {
      var code := U16(buf, off + 2);
      if side == Rx {
        off := off + if code == 0x8003 then 40 else 8;
      } else {
        if off + 8 > |buf| {
          return None;
        }
        var status := U32(buf, off + 4);
        off := off + 8 + if code == 0x0003 && status == 0 then 312 else 0;
      }
    }
    r := Some(off);
  }

  /** The frame at an offset, or the command nobody knows. */
  method FrameAt(buf: seq<Byte>, off: nat) returns (item: Item)
    requires off + 48 <= |buf|
    ensures var h := HeaderAt(buf, off);
            item == if Known(h.cmd) then Shown(h, SetupAt(buf, off), off)
                    else UnknownCommand(off, h.cmd, h.seqno, h.dir, h.ep)
  {
    var cmd := U32(buf, off);
    var seqno, dir, ep := U32(buf, off + 4), U32(buf, off + 12), U32(buf, off + 16);
    if cmd != CMD_SUBMIT && cmd != CMD_UNLINK && cmd != RET_SUBMIT && cmd != RET_UNLINK {
      return UnknownCommand(off, cmd, seqno, dir, ep);
    }
    var end, body := off + 48, Unlinked;
    if cmd == CMD_SUBMIT {
      var xferLen, npkts: int := U32(buf, off + 24), U32(buf, off + 32);
      var payload: int := if dir == 0 then xferLen else 0;
      var table := if npkts != 0 && npkts != 0xFFFF_FFFF then 16 * npkts else 0;
      assert SetupAt(buf, off) == buf[off + 40..off + 48];
      body := Submitted(xferLen, npkts, payload, table, buf[off + 40..off + 48]);
      end := end + payload + table;
    } else if cmd == RET_SUBMIT {
      var status, actual, npkts: int := U32(buf, off + 20), U32(buf, off + 24), U32(buf, off + 32);
      var payload: int := if dir == 1 then actual else 0;
      var table := if npkts != 0 && npkts != 0xFFFF_FFFF then 16 * npkts else 0;
      body := Returned(status, actual, npkts, payload, table);
      end := end + payload + table;
    }
    item := Frame(off, cmd, seqno, dir, ep, body, end);
  }

  /** The walk: the items it yields in order, or `None` when the handshake raises. */
  method Walk(buf: seq<Byte>, side: Side) returns (r: Option<seq<Item>>)
    ensures r == Walked(buf, side)
  {
    var start := SkipHandshake(buf, side);
    if start == None {
      return None;
    }
    var out: seq<Item>, off := [], start.value;
    ghost var all := Items(buf, off);
    Begins(all);
    while off < |buf|
      invariant out + Items(buf, off) == all
      decreases |buf| - off
    {
      if |buf| - off < 48 {
        return Some(out + [TruncatedHeader(off, |buf| - off)]);
      }
      var item := FrameAt(buf, off);
      if item.UnknownCommand? {
        return Some(out + [item]);
      }
      Nested(out, [item], Items(buf, item.end));
      out, off := out + [item], item.end;
    }
    Ends(out);
    r := Some(out);
  }

  lemma {:induction false} Nested<T>(a: seq<T>, b: seq<T>, last: seq<T>)
    ensures a + b + last == a + (b + last)
  {
  }

  lemma {:induction false} Begins<T>(s: seq<T>)
    ensures [] + s == s
  {
  }

  lemma {:induction false} Ends<T>(s: seq<T>)
    ensures s + [] == s
  {
  }

  // ---- The walk inverts the framing

  /** A header and its setup are read where they stand, whatever is around. */
  lemma {:induction false} HeaderReads(b: seq<Byte>, off: nat, u: Urb)
    requires |u.setup| == 8 && Stands(b, off, Words(u.header.List())) && Stands(b, off + 40, u.setup)
    ensures HeaderAt(b, off) == u.header && SetupAt(b, off) == u.setup
  {
    var ws := u.header.List();
    WordsStand(b, off, ws, 0);
    WordsStand(b, off, ws, 1);
    WordsStand(b, off, ws, 2);
    WordsStand(b, off, ws, 3);
    WordsStand(b, off, ws, 4);
    WordsStand(b, off, ws, 5);
    WordsStand(b, off, ws, 6);
    WordsStand(b, off, ws, 7);
    WordsStand(b, off, ws, 8);
    WordsStand(b, off, ws, 9);
  }

  lemma {:induction false} EncodeStands(b: seq<Byte>, off: nat, u: Urb)
    ensures Stands(b, off, u.Encode())
       <==> Stands(b, off, Words(u.header.List())) && Stands(b, off + 40, u.setup) && Stands(b, off + 40 + |u.setup|, u.data)
    ensures |u.Encode()| == 40 + |u.setup| + |u.data|
  {
    StandsParts(b, off, Words(u.header.List()) + u.setup, u.data);
    StandsParts(b, off, Words(u.header.List()), u.setup);
  }

  /** The frames' headers and setups stand one after the other, as far apart as they say. */
  ghost predicate Framed(b: seq<Byte>, off: nat, urbs: seq<Urb>)
    decreases |urbs|
  {
    urbs != [] ==>
      var h := urbs[0].header;
      && off + 48 <= |b| && HeaderAt(b, off) == h && SetupAt(b, off) == urbs[0].setup && Known(h.cmd)
      && Framed(b, off + Length(h), urbs[1..])
  }

  lemma {:induction false} FrameStands(b: seq<Byte>, off: nat, u: Urb)
    requires u.WellFormed() && Stands(b, off, u.Encode())
    ensures |u.Encode()| == Length(u.header) && off + 48 <= |b|
    ensures HeaderAt(b, off) == u.header && SetupAt(b, off) == u.setup
  {
    EncodeStands(b, off, u);
    HeaderReads(b, off, u);
  }

  lemma {:induction false} StreamStands(b: seq<Byte>, off: nat, urbs: seq<Urb>)
    requires AllWellFormed(urbs) && Stands(b, off, Stream(urbs))
    ensures Framed(b, off, urbs)
    decreases |urbs|
  {
    if urbs != [] {
      StandsParts(b, off, urbs[0].Encode(), Stream(urbs[1..]));
      FrameStands(b, off, urbs[0]);
      StreamStands(b, off + |urbs[0].Encode()|, urbs[1..]);
    }
  }

  function Size(urbs: seq<Urb>): nat {
    if urbs == [] then 0 else Length(urbs[0].header) + Size(urbs[1..])
  }

  lemma {:induction false} StreamSize(urbs: seq<Urb>)
    requires AllWellFormed(urbs)
    ensures |Stream(urbs)| == Size(urbs)
  {
    if urbs != [] {
      StreamSize(urbs[1..]);
    }
  }

  lemma {:induction false} ItemsNext(b: seq<Byte>, off: nat, rest: seq<Item>)
    requires off + 48 <= |b| && Known(HeaderAt(b, off).cmd)
    requires rest == Items(b, off + Length(HeaderAt(b, off)))
    ensures Items(b, off) == [Shown(HeaderAt(b, off), SetupAt(b, off), off)] + rest
  {
  }

  lemma {:induction false} ItemsFirst(b: seq<Byte>, off: nat, h: Header, setup: seq<Byte>)
    requires off + 48 <= |b| && HeaderAt(b, off) == h && SetupAt(b, off) == setup && Known(h.cmd)
    ensures Items(b, off) == [Shown(h, setup, off)] + Items(b, off + Length(h))
  {
    ItemsNext(b, off, Items(b, off + Length(h)));
  }

  lemma {:induction false} FramedFirst(b: seq<Byte>, off: nat, urbs: seq<Urb>)
    requires urbs != [] && Framed(b, off, urbs)
    ensures var h := urbs[0].header;
            && Items(b, off) == [Shown(h, urbs[0].setup, off)] + Items(b, off + Length(h))
            && Framed(b, off + Length(h), urbs[1..])
  {
    ItemsFirst(b, off, urbs[0].header, urbs[0].setup);
  }

  lemma {:induction false} Chain(a: seq<Item>, x: Item, b: seq<Item>, c: seq<Item>, d: seq<Item>)
    requires a == [x] + b && b == c + d
    ensures a == [x] + c + d
  {
  }

  lemma {:induction false} AllShownFirst(urbs: seq<Urb>, off: nat)
    requires urbs != []
    ensures var h := urbs[0].header;
            AllShown(urbs, off) == [Shown(h, urbs[0].setup, off)] + AllShown(urbs[1..], off + Length(h))
  {
  }

  lemma {:induction false} SizeFirst(urbs: seq<Urb>)
    requires urbs != []
    ensures Size(urbs) == Length(urbs[0].header) + Size(urbs[1..])
  {
  }

  /** Frames that stand one after the other are read one after the other. */
  lemma {:induction false} FramedItems(b: seq<Byte>, off: nat, urbs: seq<Urb>, stop: nat)
    requires Framed(b, off, urbs) && stop == off + Size(urbs)
    ensures Items(b, off) == AllShown(urbs, off) + Items(b, stop)
    decreases |urbs|
  {
    if urbs == [] {
      Begins(Items(b, off));
    } else {
      var h, next := urbs[0].header, off + Length(urbs[0].header);
      FramedFirst(b, off, urbs);
      SizeFirst(urbs);
      FramedItems(b, next, urbs[1..], stop);
      AllShownFirst(urbs, off);
      Chain(Items(b, off), Shown(h, urbs[0].setup, off), Items(b, next), AllShown(urbs[1..], next), Items(b, stop));
    }
  }

  lemma {:induction false} StreamRead(b: seq<Byte>, off: nat, urbs: seq<Urb>)
    requires AllWellFormed(urbs) && Stands(b, off, Stream(urbs))
    ensures Items(b, off) == AllShown(urbs, off) + Items(b, off + |Stream(urbs)|)
    ensures off + |Stream(urbs)| == |b| ==> Items(b, off) == AllShown(urbs, off)
  {
    StreamStands(b, off, urbs);
    StreamSize(urbs);
    FramedItems(b, off, urbs, off + |Stream(urbs)|);
    Ends(AllShown(urbs, off));
  }

  /** The skip goes past every handshake message that stands there. */
  lemma {:induction false} StartSkips(b: seq<Byte>, off: nat, hs: seq<Handshake>, side: Side)
    requires (forall i | 0 <= i < |hs| :: hs[i].From(side)) && Stands(b, off, Greeting(hs))
    ensures Start(b, side, off) == Start(b, side, off + |Greeting(hs)|)
    decreases |hs|
  {
    if hs != [] {
      StandsParts(b, off, hs[0].Encode(), Greeting(hs[1..]));
      GreetingReads(b, off, hs[0], side);
      StartSkips(b, off + |hs[0].Encode()|, hs[1..], side);
    }
  }

  lemma {:induction false} GreetingReads(b: seq<Byte>, off: nat, h: Handshake, side: Side)
    requires h.From(side) && Stands(b, off, h.Encode())
    ensures Start(b, side, off) == Start(b, side, off + |h.Encode()|)
  {
    StandsParts(b, off, Be(VERSION, 2) + Be(h.Code(), 2) + Be(h.status, 4), h.Tail());
    StandsParts(b, off, Be(VERSION, 2) + Be(h.Code(), 2), Be(h.status, 4));
    StandsParts(b, off, Be(VERSION, 2), Be(h.Code(), 2));
    Widths();
    NumReads(b, off, VERSION, 2);
    NumReads(b, off + 2, h.Code(), 2);
    NumReads(b, off + 4, h.status, 4);
  }

  /** A frame does not look like a handshake: its command is small. */
  lemma {:induction false} FrameIsNoGreeting(b: seq<Byte>, off: nat)
    requires off + 48 <= |b| && Known(HeaderAt(b, off).cmd)
    ensures U16(b, off) != VERSION
  {
    var n := NumAt(b, off, 2);
    assert NumAt(b, off, 3) == n * 0x100 + b[off + 2];
    assert U32(b, off) == NumAt(b, off, 3) * 0x100 + b[off + 3];
  }

  /** The walk inverts the framing: after a handshake, the frames that were written are what the
      walk yields, in order and without an error. */
  lemma {:induction false} WalkInvertsFraming(hs: seq<Handshake>, urbs: seq<Urb>, side: Side)
    requires forall i | 0 <= i < |hs| :: hs[i].From(side)
    requires AllWellFormed(urbs)
    ensures Walked(Greeting(hs) + Stream(urbs), side) == Some(AllShown(urbs, |Greeting(hs)|))
  {
    var b := Greeting(hs) + Stream(urbs);
    StandsParts(b, 0, Greeting(hs), Stream(urbs));
    WalkReads(b, hs, urbs, side);
  }

  lemma {:induction false} WalkReads(b: seq<Byte>, hs: seq<Handshake>, urbs: seq<Urb>, side: Side)
    requires (forall i | 0 <= i < |hs| :: hs[i].From(side)) && AllWellFormed(urbs)
    requires Stands(b, 0, Greeting(hs)) && Stands(b, |Greeting(hs)|, Stream(urbs))
    requires |b| == |Greeting(hs)| + |Stream(urbs)|
    ensures Walked(b, side) == Some(AllShown(urbs, |Greeting(hs)|))
  {
    var off := |Greeting(hs)|;
    StartSkips(b, 0, hs, side);
    StartsAtFrames(b, off, urbs, side);
    WalkedFrom(b, side, off);
    StreamRead(b, off, urbs);
  }

  lemma {:induction false} WalkedFrom(b: seq<Byte>, side: Side, off: nat)
    requires Start(b, side, 0) == Some(off)
    ensures Walked(b, side) == Some(Items(b, off))
  {
  }

  lemma {:induction false} StartsAtFrames(b: seq<Byte>, off: nat, urbs: seq<Urb>, side: Side)
    requires AllWellFormed(urbs) && Stands(b, off, Stream(urbs)) && off + |Stream(urbs)| == |b|
    ensures Start(b, side, off) == Some(off)
  {
    if urbs != [] {
      StandsParts(b, off, urbs[0].Encode(), Stream(urbs[1..]));
      FrameStands(b, off, urbs[0]);
      FrameIsNoGreeting(b, off);
    }
  }

  // ---- Any buffer

  predicate Clean(items: seq<Item>) {
    forall i | 0 <= i < |items| :: items[i].Frame?
  }

  /** Where the items stop. */
  function End(items: seq<Item>, off: nat): nat
    requires Clean(items)
  {
    if items == [] then off else items[|items| - 1].end
  }

  ghost predicate Chained(items: seq<Item>, off: nat) {
    && (items != [] ==> items[0].off == off)
    && (forall i | 0 <= i < |items| - 1 :: items[i].Frame? && items[i].end == items[i + 1].off)
    && (forall i | 0 <= i < |items| && items[i].Frame? :: items[i].off + 48 <= items[i].end)
  }

  ghost predicate StopsAt(last: Item, end: nat) {
    && last.off < end
    && (last.Frame? ==> last.end >= end)
    && (last.TruncatedHeader? ==> last.off + last.left == end && 0 < last.left < 48)
    && (last.UnknownCommand? ==> last.off + 48 <= end && !Known(last.cmd))
  }

  /** Items from `off` to the end `n` of the buffer. */
  ghost predicate Tiles(items: seq<Item>, off: nat, n: nat) {
    && Chained(items, off)
    && (items == [] <==> off >= n)
    && (items != [] ==> StopsAt(items[|items| - 1], n))
  }

  lemma {:induction false} LastTiles(b: seq<Byte>, off: nat)
    requires off + 48 > |b| || !Known(HeaderAt(b, off).cmd)
    ensures Tiles(Items(b, off), off, |b|)
  {
  }

  lemma {:induction false} TilesCons(item: Item, items: seq<Item>, n: nat)
    requires item.Frame? && item.off + 48 <= item.end && item.off + 48 <= n && Tiles(items, item.end, n)
    ensures Tiles([item] + items, item.off, n)
  {
    ChainCons(item, items);
  }

  lemma {:induction false} ItemsTiles(b: seq<Byte>, off: nat)
    ensures Tiles(Items(b, off), off, |b|)
    decreases |b| - off
  {
    if off + 48 <= |b| && Known(HeaderAt(b, off).cmd) {
      var h, setup := HeaderAt(b, off), SetupAt(b, off);
      ItemsFirst(b, off, h, setup);
      ItemsTiles(b, off + Length(h));
      TilesCons(Shown(h, setup, off), Items(b, off + Length(h)), |b|);
    } else {
      LastTiles(b, off);
    }
  }

  /** On any buffer the extents tile it: each item begins where the one before it ends, at least a
      header on; only the last may be an error, and it says what is left. */
  lemma {:induction false} ItemsTile(b: seq<Byte>, off: nat)
    ensures Chained(Items(b, off), off)
    ensures Items(b, off) == [] <==> off >= |b|
    ensures off < |b| ==> StopsAt(Items(b, off)[|Items(b, off)| - 1], |b|)
  {
    ItemsTiles(b, off);
  }

  lemma {:induction false} ChainCons(item: Item, items: seq<Item>)
    requires item.Frame? && item.off + 48 <= item.end && Chained(items, item.end)
    ensures Chained([item] + items, item.off)
    ensures ([item] + items)[|items|] == if items == [] then item else items[|items| - 1]
  {
    var all := [item] + items;
    assert forall i | 0 < i < |all| :: all[i] == items[i - 1];
  }

  /** The frames a clean walk stands for. */
  function Decode(b: seq<Byte>, off: nat): Option<seq<Urb>>
    decreases |b| - off
  {
    if off == |b| then Some([])
    else if off + 48 > |b| || !Known(HeaderAt(b, off).cmd) then None
    else
      var h := HeaderAt(b, off);
      var end := off + Length(h);
      if end > |b| then None
      else
        match Decode(b, end)
        case None => None
        case Some(more) => Some([Urb(h, SetupAt(b, off), b[off + 48..end])] + more)
  }

  lemma {:induction false} FrameWrites(b: seq<Byte>, off: nat, end: nat)
    requires off + 48 <= end <= |b|
    ensures Stands(b, off, Urb(HeaderAt(b, off), SetupAt(b, off), b[off + 48..end]).Encode())
  {
    var h := HeaderAt(b, off);
    WordsWrite(b, off, h.List());
    StandsAt(b, off + 48, b[off + 48..end]);
    EncodeStands(b, off, Urb(h, SetupAt(b, off), b[off + 48..end]));
  }

  /** What is decoded, written again, is the very bytes. */
  lemma {:induction false} DecodeSound(b: seq<Byte>, off: nat)
    requires off <= |b| && Decode(b, off).Some?
    ensures var urbs := Decode(b, off).value;
            AllWellFormed(urbs) && Stands(b, off, Stream(urbs)) && off + |Stream(urbs)| == |b|
    decreases |b| - off
  {
    if off < |b| {
      var h := HeaderAt(b, off);
      var end := off + Length(h);
      var u := Urb(h, SetupAt(b, off), b[off + 48..end]);
      DecodeSound(b, end);
      FrameWrites(b, off, end);
      EncodeStands(b, off, u);
      StandsParts(b, off, u.Encode(), Stream(Decode(b, end).value));
      assert Decode(b, off).value[1..] == Decode(b, end).value;
    }
  }

  /** The walk is clean and ends with the buffer exactly when it decodes. */
  lemma {:induction false} CleanDecodes(b: seq<Byte>, off: nat)
    requires off <= |b|
    ensures Decode(b, off).Some? <==> Clean(Items(b, off)) && End(Items(b, off), off) == |b|
    decreases |b| - off
  {
    if off + 48 <= |b| && Known(HeaderAt(b, off).cmd) {
      var item := Shown(HeaderAt(b, off), SetupAt(b, off), off);
      CleanCons(item, Items(b, item.end), off);
      if item.end <= |b| {
        CleanDecodes(b, item.end);
      }
    }
  }

  lemma {:induction false} CleanCons(item: Item, items: seq<Item>, off: nat)
    requires item.Frame?
    ensures Clean([item] + items) <==> Clean(items)
    ensures Clean(items) ==> End([item] + items, off) == End(items, item.end)
  {
    if Clean([item] + items) {
      assert items == ([item] + items)[1..];
    }
  }

  lemma {:induction false} AllShownClean(urbs: seq<Urb>, off: nat)
    ensures Clean(AllShown(urbs, off)) && End(AllShown(urbs, off), off) == off + Size(urbs)
    decreases |urbs|
  {
    if urbs != [] {
      var h, next := urbs[0].header, off + Length(urbs[0].header);
      AllShownFirst(urbs, off);
      SizeFirst(urbs);
      AllShownClean(urbs[1..], next);
      CleanCons(Shown(h, urbs[0].setup, off), AllShown(urbs[1..], next), off);
    }
  }

  /** The walk is clean and ends with the buffer if and only if what stands from `off` on is a stream of
      well-formed frames. */
  lemma {:induction false} CleanIsFramed(b: seq<Byte>, off: nat)
    requires off <= |b|
    ensures Clean(Items(b, off)) && End(Items(b, off), off) == |b|
       <==> exists urbs :: AllWellFormed(urbs) && b[off..] == Stream(urbs)
  {
    CleanDecodes(b, off);
    if Decode(b, off).Some? {
      DecodeSound(b, off);
      StandsAt(b, off, Stream(Decode(b, off).value));
    }
    if urbs :| AllWellFormed(urbs) && b[off..] == Stream(urbs) {
      StandsAt(b, off, Stream(urbs));
      StreamRead(b, off, urbs);
      StreamSize(urbs);
      AllShownClean(urbs, off);
    }
  }

  /** A capture cut inside a header says so; one cut inside the last frame's data does not: the walk
      shows the frame as if it were whole. */
  lemma {:induction false} CutFrame(b: seq<Byte>, off: nat, urbs: seq<Urb>, u: Urb)
    requires AllWellFormed(urbs) && u.WellFormed() && Stands(b, off, Stream(urbs))
    requires var left := b[off + |Stream(urbs)|..];
             left != [] && left != u.Encode() && left <= u.Encode()
    ensures var at := off + |Stream(urbs)|;
            Items(b, off)
              == AllShown(urbs, off)
                 + [if |b| - at < 48 then TruncatedHeader(at, |b| - at) else Shown(u.header, u.setup, at)]
  {
    var at := off + |Stream(urbs)|;
    StreamRead(b, off, urbs);
    if |b| - at >= 48 {
      CutStands(b, at, u);
      HeaderReads(b, at, u);
      Ends([Shown(u.header, u.setup, at)]);
    }
  }

  lemma {:induction false} CutStands(b: seq<Byte>, at: nat, u: Urb)
    requires |u.setup| == 8 && at + 48 <= |b| && b[at..] <= u.Encode()
    ensures Stands(b, at, Words(u.header.List())) && Stands(b, at + 40, u.setup) && |b| - at <= |u.Encode()|
  {
    var cut := Urb(u.header, u.setup, u.data[..|b| - at - 48]);
    assert b[at..] == cut.Encode();
    StandsAt(b, at, cut.Encode());
    EncodeStands(b, at, cut);
  }

  // ---- The protocol's own messages

  /** The isochronous part: a descriptor of 16 bytes a packet, or none and one of the two counts that
      say so. */
  datatype Packets = Descriptors(list: seq<seq<Byte>>) | NoPackets(mark: Word)

  function Count(p: Packets): int {
    match p
    case Descriptors(list) => |list|
    case NoPackets(mark) => mark
  }

  function Rows(p: Packets): seq<seq<Byte>> {
    match p
    case Descriptors(list) => list
    case NoPackets(_) => []
  }

  ghost predicate PacketsFit(p: Packets) {
    match p
    case Descriptors(list) => 0 < |list| < 0xFFFF_FFFF && forall i | 0 <= i < |list| :: |list[i]| == 16
    case NoPackets(mark) => mark == 0 || mark == 0xFFFF_FFFF
  }

  /** What the two ends send. A request out (direction 0) carries its buffer, a request in says how
      much it wants; a reply in (direction 1) carries what came, a reply out says how much was taken.
      The other direction is whatever the header says. `last` are the eight bytes of a request's
      setup packet, and padding elsewhere. */
  datatype Pdu =
    | OutRequest(seqno: Word, devid: Word, ep: Word, flags: Word, start: Word, interval: Word, last: seq<Byte>,
                 buffer: seq<Byte>, packets: Packets)
    | InRequest(seqno: Word, devid: Word, dir: Word, ep: Word, flags: Word, wanted: Word, start: Word, interval: Word,
                last: seq<Byte>, packets: Packets)
    | InReply(seqno: Word, devid: Word, ep: Word, status: Word, start: Word, errors: Word, last: seq<Byte>,
              buffer: seq<Byte>, packets: Packets)
    | OutReply(seqno: Word, devid: Word, dir: Word, ep: Word, status: Word, taken: Word, start: Word, errors: Word,
               last: seq<Byte>, packets: Packets)
    | Unlink(seqno: Word, devid: Word, dir: Word, ep: Word, rest: seq<Word>, last: seq<Byte>)
    | UnlinkReply(seqno: Word, devid: Word, dir: Word, ep: Word, rest: seq<Word>, last: seq<Byte>)

  ghost predicate PduFits(p: Pdu) {
    && |p.last| == 8
    && match p
       case OutRequest(_, _, _, _, _, _, _, buffer, packets) => |buffer| < 0x1_0000_0000 && PacketsFit(packets)
       case InRequest(_, _, dir, _, _, _, _, _, _, packets) => dir != 0 && PacketsFit(packets)
       case InReply(_, _, _, _, _, _, _, buffer, packets) => |buffer| < 0x1_0000_0000 && PacketsFit(packets)
       case OutReply(_, _, dir, _, _, _, _, _, _, packets) => dir != 1 && PacketsFit(packets)
       case Unlink(_, _, _, _, rest, _) => |rest| == 5
       case UnlinkReply(_, _, _, _, rest, _) => |rest| == 5
  }

  ghost predicate AllFit(pdus: seq<Pdu>) {
    forall i | 0 <= i < |pdus| :: PduFits(pdus[i])
  }

  /** Four bytes, the highest first. */
  function W(n: int): seq<Byte>
    requires 0 <= n < 0x1_0000_0000
  {
    [n / 0x100_0000, n / 0x1_0000 % 0x100, n / 0x100 % 0x100, n % 0x100]
  }

  function Joined(rows: seq<seq<Byte>>): seq<Byte> {
    if rows == [] then [] else rows[0] + Joined(rows[1..])
  }

  function FiveWords(ws: seq<Word>): seq<Byte>
    requires |ws| == 5
  {
    W(ws[0]) + W(ws[1]) + W(ws[2]) + W(ws[3]) + W(ws[4])
  }

  /** The bytes of a message, field by field. */
  function Bytes(p: Pdu): seq<Byte>
    requires PduFits(p)
  {
    match p
    case OutRequest(seqno, devid, ep, flags, start, interval, last, buffer, packets) =>
      W(1) + W(seqno) + W(devid) + W(0) + W(ep) + W(flags) + W(|buffer|) + W(start) + W(Count(packets)) + W(interval)
      + last + (buffer + Joined(Rows(packets)))
    case InRequest(seqno, devid, dir, ep, flags, wanted, start, interval, last, packets) =>
      W(1) + W(seqno) + W(devid) + W(dir) + W(ep) + W(flags) + W(wanted) + W(start) + W(Count(packets)) + W(interval)
      + last + Joined(Rows(packets))
    case InReply(seqno, devid, ep, status, start, errors, last, buffer, packets) =>
      W(3) + W(seqno) + W(devid) + W(1) + W(ep) + W(status) + W(|buffer|) + W(start) + W(Count(packets)) + W(errors)
      + last + (buffer + Joined(Rows(packets)))
    case OutReply(seqno, devid, dir, ep, status, taken, start, errors, last, packets) =>
      W(3) + W(seqno) + W(devid) + W(dir) + W(ep) + W(status) + W(taken) + W(start) + W(Count(packets)) + W(errors)
      + last + Joined(Rows(packets))
    case Unlink(seqno, devid, dir, ep, rest, last) =>
      W(2) + W(seqno) + W(devid) + W(dir) + W(ep) + FiveWords(rest) + last
    case UnlinkReply(seqno, devid, dir, ep, rest, last) =>
      W(4) + W(seqno) + W(devid) + W(dir) + W(ep) + FiveWords(rest) + last
  }

  function AllBytes(pdus: seq<Pdu>): seq<Byte>
    requires AllFit(pdus)
  {
    if pdus == [] then [] else Bytes(pdus[0]) + AllBytes(pdus[1..])
  }

  /** What the walk must yield for a message at `off`, field by field. */
  function Seen(p: Pdu, off: nat): Item
    requires PduFits(p)
  {
    match p
    case OutRequest(seqno, _, ep, _, _, _, last, buffer, packets) =>
      var table := 16 * |Rows(packets)|;
      Frame(off, 1, seqno, 0, ep, Submitted(|buffer|, Count(packets), |buffer|, table, last),
            off + 48 + |buffer| + table)
    case InRequest(seqno, _, dir, ep, _, wanted, _, _, last, packets) =>
      var table := 16 * |Rows(packets)|;
      Frame(off, 1, seqno, dir, ep, Submitted(wanted, Count(packets), 0, table, last), off + 48 + table)
    case InReply(seqno, _, ep, status, _, _, _, buffer, packets) =>
      var table := 16 * |Rows(packets)|;
      Frame(off, 3, seqno, 1, ep, Returned(status, |buffer|, Count(packets), |buffer|, table),
            off + 48 + |buffer| + table)
    case OutReply(seqno, _, dir, ep, status, taken, _, _, _, packets) =>
      var table := 16 * |Rows(packets)|;
      Frame(off, 3, seqno, dir, ep, Returned(status, taken, Count(packets), 0, table), off + 48 + table)
    case Unlink(seqno, _, dir, ep, _, _) => Frame(off, 2, seqno, dir, ep, Unlinked, off + 48)
    case UnlinkReply(seqno, _, dir, ep, _, _) => Frame(off, 4, seqno, dir, ep, Unlinked, off + 48)
  }

  function AllSeen(pdus: seq<Pdu>, off: nat): seq<Item>
    requires AllFit(pdus)
  {
    if pdus == [] then [] else [Seen(pdus[0], off)] + AllSeen(pdus[1..], off + |Bytes(pdus[0])|)
  }

  // ---- They are the frames the walk reads

  /** The same message as header, setup and data. */
  function UrbOf(p: Pdu): Urb
    requires PduFits(p)
  {
    match p
    case OutRequest(seqno, devid, ep, flags, start, interval, last, buffer, packets) =>
      Urb(Header(1, seqno, devid, 0, ep, flags, |buffer|, start, Count(packets), interval), last,
          buffer + Joined(Rows(packets)))
    case InRequest(seqno, devid, dir, ep, flags, wanted, start, interval, last, packets) =>
      Urb(Header(1, seqno, devid, dir, ep, flags, wanted, start, Count(packets), interval), last,
          Joined(Rows(packets)))
    case InReply(seqno, devid, ep, status, start, errors, last, buffer, packets) =>
      Urb(Header(3, seqno, devid, 1, ep, status, |buffer|, start, Count(packets), errors), last,
          buffer + Joined(Rows(packets)))
    case OutReply(seqno, devid, dir, ep, status, taken, start, errors, last, packets) =>
      Urb(Header(3, seqno, devid, dir, ep, status, taken, start, Count(packets), errors), last,
          Joined(Rows(packets)))
    case Unlink(seqno, devid, dir, ep, r, last) =>
      Urb(Header(2, seqno, devid, dir, ep, r[0], r[1], r[2], r[3], r[4]), last, [])
    case UnlinkReply(seqno, devid, dir, ep, r, last) =>
      Urb(Header(4, seqno, devid, dir, ep, r[0], r[1], r[2], r[3], r[4]), last, [])
  }

  function UrbsOf(pdus: seq<Pdu>): seq<Urb>
    requires AllFit(pdus)
  {
    if pdus == [] then [] else [UrbOf(pdus[0])] + UrbsOf(pdus[1..])
  }

  lemma {:induction false} JoinedSize(rows: seq<seq<Byte>>)
    requires forall i | 0 <= i < |rows| :: |rows[i]| == 16
    ensures |Joined(rows)| == 16 * |rows|
  {
    if rows != [] {
      JoinedSize(rows[1..]);
    }
  }

  lemma {:induction false} WIsBe(n: int)
    requires 0 <= n < 0x1_0000_0000
    ensures W(n) == Be(n, 4)
  {
    var a, b, c := n / 0x100, n / 0x100 / 0x100, n / 0x100 / 0x100 / 0x100;
    assert b == n / 0x1_0000 && c == n / 0x100_0000 && c % 0x100 == c;
    assert Be(c / 0x100, 0) == [];
    assert Be(c, 1) == [] + [c];
    assert Be(b, 2) == Be(c, 1) + [b % 0x100];
    assert Be(a, 3) == Be(b, 2) + [a % 0x100];
  }

  lemma {:induction false} WordsLast(ws: seq<Word>, w: Word)
    ensures Words(ws + [w]) == Words(ws) + W(w)
  {
    WIsBe(w);
    assert (ws + [w])[..|ws|] == ws;
  }

  lemma {:induction false} WordsFive(a: Word, b: Word, c: Word, d: Word, e: Word)
    ensures Words([a, b, c, d, e]) == W(a) + W(b) + W(c) + W(d) + W(e)
  {
    WordsLast([], a);
    WordsLast([a], b);
    WordsLast([a, b], c);
    WordsLast([a, b, c], d);
    WordsLast([a, b, c, d], e);
    assert [] + [a] == [a] && [a] + [b] == [a, b] && [a, b] + [c] == [a, b, c];
    assert [a, b, c] + [d] == [a, b, c, d] && [a, b, c, d] + [e] == [a, b, c, d, e];
    assert Words([]) + W(a) == W(a);
  }

  lemma {:induction false} WordsTen(h: Header)
    ensures Words(h.List()) == W(h.cmd) + W(h.seqno) + W(h.devid) + W(h.dir) + W(h.ep) + W(h.flags) + W(h.length)
                               + W(h.startFrame) + W(h.npkts) + W(h.interval)
  {
    var five := [h.cmd, h.seqno, h.devid, h.dir, h.ep];
    WordsFive(h.cmd, h.seqno, h.devid, h.dir, h.ep);
    WordsLast(five, h.flags);
    WordsLast(five + [h.flags], h.length);
    WordsLast(five + [h.flags, h.length], h.startFrame);
    WordsLast(five + [h.flags, h.length, h.startFrame], h.npkts);
    WordsLast(five + [h.flags, h.length, h.startFrame, h.npkts], h.interval);
    assert five + [h.flags] + [h.length] == five + [h.flags, h.length];
    assert five + [h.flags, h.length] + [h.startFrame] == five + [h.flags, h.length, h.startFrame];
    assert five + [h.flags, h.length, h.startFrame] + [h.npkts] == five + [h.flags, h.length, h.startFrame, h.npkts];
    assert five + [h.flags, h.length, h.startFrame, h.npkts] + [h.interval] == h.List();
  }

  lemma {:induction false} UrbWrites(p: Pdu)
    requires PduFits(p)
    ensures UrbOf(p).Encode() == Bytes(p)
  {
    if p.Unlink? || p.UnlinkReply? {
      UnlinkWrites(p);
    } else {
      WordsTen(UrbOf(p).header);
    }
  }

  lemma {:induction false} UnlinkWrites(p: Pdu)
    requires PduFits(p) && (p.Unlink? || p.UnlinkReply?)
    ensures UrbOf(p).Encode() == Bytes(p)
  {
    WordsTen(UrbOf(p).header);
    var cmd := if p.Unlink? then 2 else 4;
    var front := W(cmd) + W(p.seqno) + W(p.devid) + W(p.dir) + W(p.ep);
    assert front + FiveWords(p.rest)
        == front + W(p.rest[0]) + W(p.rest[1]) + W(p.rest[2]) + W(p.rest[3]) + W(p.rest[4]);
  }

  lemma {:induction false} UrbFits(p: Pdu)
    requires PduFits(p)
    ensures UrbOf(p).WellFormed()
  {
    if !p.Unlink? && !p.UnlinkReply? {
      JoinedSize(Rows(p.packets));
    }
  }

  lemma {:induction false} UrbIsPdu(p: Pdu)
    requires PduFits(p)
    ensures UrbOf(p).Encode() == Bytes(p) && UrbOf(p).WellFormed()
  {
    UrbWrites(p);
    UrbFits(p);
  }

  lemma {:induction false} UrbShows(p: Pdu, off: nat)
    requires PduFits(p)
    ensures Shown(UrbOf(p).header, UrbOf(p).setup, off) == Seen(p, off)
    ensures Length(UrbOf(p).header) == |Bytes(p)|
  {
    UrbIsPdu(p);
    EncodeStands(Bytes(p), 0, UrbOf(p));
  }

  lemma {:induction false} UrbsArePdus(pdus: seq<Pdu>, off: nat)
    requires AllFit(pdus)
    ensures Stream(UrbsOf(pdus)) == AllBytes(pdus) && AllWellFormed(UrbsOf(pdus))
    ensures AllShown(UrbsOf(pdus), off) == AllSeen(pdus, off)
    decreases |pdus|
  {
    if pdus != [] {
      var urbs := UrbsOf(pdus[1..]);
      UrbIsPdu(pdus[0]);
      UrbShows(pdus[0], off);
      UrbsArePdus(pdus[1..], off + |Bytes(pdus[0])|);
      assert UrbsOf(pdus)[1..] == urbs;
    }
  }

  /** The walk inverts the protocol: after a handshake, any messages written out field by field are
      yielded one by one with exactly those fields, what they carry, and where each ends. */
  lemma {:induction false} WalkReadsPdus(hs: seq<Handshake>, pdus: seq<Pdu>, side: Side)
    requires (forall i | 0 <= i < |hs| :: hs[i].From(side)) && AllFit(pdus)
    ensures Walked(Greeting(hs) + AllBytes(pdus), side) == Some(AllSeen(pdus, |Greeting(hs)|))
  {
    UrbsArePdus(pdus, |Greeting(hs)|);
    WalkInvertsFraming(hs, UrbsOf(pdus), side);
  }

  // ---- And nothing else is

  function Chunks(b: seq<Byte>): seq<seq<Byte>> {
    if |b| < 16 then [] else [b[..16]] + Chunks(b[16..])
  }

  lemma {:induction false} ChunksJoin(b: seq<Byte>, n: nat)
    requires |b| == 16 * n
    ensures |Chunks(b)| == n && Joined(Chunks(b)) == b && forall i | 0 <= i < n :: |Chunks(b)[i]| == 16
  {
    if n > 0 {
      ChunksJoin(b[16..], n - 1);
      assert Chunks(b)[1..] == Chunks(b[16..]) && b == b[..16] + b[16..];
    }
  }

  function PacketsOf(npkts: Word, table: seq<Byte>): Packets {
    if npkts == 0 || npkts == 0xFFFF_FFFF then NoPackets(npkts) else Descriptors(Chunks(table))
  }

  lemma {:induction false} PacketsRead(npkts: Word, table: seq<Byte>)
    requires |table| == if npkts == 0 || npkts == 0xFFFF_FFFF then 0 else 16 * (npkts as int)
    ensures var p := PacketsOf(npkts, table);
            PacketsFit(p) && Count(p) == npkts && Joined(Rows(p)) == table
  {
    if npkts != 0 && npkts != 0xFFFF_FFFF {
      ChunksJoin(table, npkts);
    }
  }

  /** The message a well-formed frame is. */
  function PduOf(u: Urb): Pdu
    requires u.WellFormed()
  {
    var h := u.header;
    var packets := PacketsOf(h.npkts, u.data[Payload(h)..]);
    if h.cmd == 1 && h.dir == 0 then
      OutRequest(h.seqno, h.devid, h.ep, h.flags, h.startFrame, h.interval, u.setup, u.data[..Payload(h)], packets)
    else if h.cmd == 1 then
      InRequest(h.seqno, h.devid, h.dir, h.ep, h.flags, h.length, h.startFrame, h.interval, u.setup, packets)
    else if h.cmd == 3 && h.dir == 1 then
      InReply(h.seqno, h.devid, h.ep, h.flags, h.startFrame, h.interval, u.setup, u.data[..Payload(h)], packets)
    else if h.cmd == 3 then
      OutReply(h.seqno, h.devid, h.dir, h.ep, h.flags, h.length, h.startFrame, h.interval, u.setup, packets)
    else
      var rest := [h.flags, h.length, h.startFrame, h.npkts, h.interval];
      if h.cmd == 2 then Unlink(h.seqno, h.devid, h.dir, h.ep, rest, u.setup)
      else UnlinkReply(h.seqno, h.devid, h.dir, h.ep, rest, u.setup)
  }

  /** What is behind the buffer of a request or a reply are its descriptors. */
  lemma {:induction false} TableReads(u: Urb)
    requires u.WellFormed() && u.header.cmd in {1, 3}
    ensures var p := PacketsOf(u.header.npkts, u.data[Payload(u.header)..]);
            && PacketsFit(p) && Count(p) == u.header.npkts
            && u.data == u.data[..Payload(u.header)] + Joined(Rows(p))
            && |u.data[..Payload(u.header)]| == Payload(u.header)
  {
    var table := u.data[Payload(u.header)..];
    assert |table| == Table(u.header);
    PacketsRead(u.header.npkts, table);
    assert u.data[..Payload(u.header)] + table == u.data;
  }

  lemma {:induction false} RequestIsUrb(u: Urb)
    requires u.WellFormed() && u.header.cmd == 1
    ensures PduFits(PduOf(u)) && UrbOf(PduOf(u)) == u
  {
    TableReads(u);
    if u.header.dir != 0 {
      assert u.data[..0] == [];
    }
  }

  lemma {:induction false} ReplyIsUrb(u: Urb)
    requires u.WellFormed() && u.header.cmd == 3
    ensures PduFits(PduOf(u)) && UrbOf(PduOf(u)) == u
  {
    TableReads(u);
    if u.header.dir != 1 {
      assert u.data[..0] == [];
    }
  }

  lemma {:induction false} UnlinkIsUrb(u: Urb)
    requires u.WellFormed() && u.header.cmd in {2, 4}
    ensures PduFits(PduOf(u)) && UrbOf(PduOf(u)) == u
  {
  }

  lemma {:induction false} PduIsUrb(u: Urb)
    requires u.WellFormed()
    ensures PduFits(PduOf(u)) && UrbOf(PduOf(u)) == u
  {
    if u.header.cmd == 1 {
      RequestIsUrb(u);
    } else if u.header.cmd == 3 {
      ReplyIsUrb(u);
    } else {
      UnlinkIsUrb(u);
    }
  }

  lemma {:induction false} PdusOf(urbs: seq<Urb>) returns (pdus: seq<Pdu>)
    requires AllWellFormed(urbs)
    ensures AllFit(pdus) && UrbsOf(pdus) == urbs
  {
    if urbs == [] {
      pdus := [];
    } else {
      PduIsUrb(urbs[0]);
      var rest := PdusOf(urbs[1..]);
      pdus := [PduOf(urbs[0])] + rest;
      assert pdus[1..] == rest && AllFit(pdus);
    }
  }

  /** The walk accepts the protocol and nothing else: it is clean and ends with the buffer if and only
      if what stands from `off` on is messages of the protocol, written out field by field. */
  lemma {:induction false} WalkIsExact(b: seq<Byte>, off: nat)
    requires off <= |b|
    ensures Clean(Items(b, off)) && End(Items(b, off), off) == |b|
       <==> exists pdus: seq<Pdu> :: AllFit(pdus) && b[off..] == AllBytes(pdus)
  {
    CleanIsFramed(b, off);
    if urbs :| AllWellFormed(urbs) && b[off..] == Stream(urbs) {
      var pdus := PdusOf(urbs);
      UrbsArePdus(pdus, off);
    }
    if pdus: seq<Pdu> :| AllFit(pdus) && b[off..] == AllBytes(pdus) {
      UrbsArePdus(pdus, off);
      assert AllWellFormed(UrbsOf(pdus)) && b[off..] == Stream(UrbsOf(pdus));
    }
  }
}
