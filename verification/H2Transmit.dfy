/** The sending half of an HTTP/2 connection: making frames of responses within what TCP, the peer's
    settings and the flow-control windows allow at the moment. */
module H2Transmit {
  import opened Common
  import opened H2Frames
  import H2Credit

  const FRAME_HEADER_SIZE := 9
  const TLS_MAX_PAYLOAD_SIZE := 16384
  const TLS_MAX_OVERHEAD := 34
  const FRAME_DEF_LENGTH := 16384
  const FRAME_MAX_LENGTH := 0xFF_FFFF
  const MAX_WND_SIZE := H2Credit.MAX_WND_SIZE
  const DEF_WND_SIZE := H2Credit.DEF_WND_SIZE
  const MAX_UPDATE := 3          // bytes of a table size update
  const MIN_TO_SEND := 512       // frames shorter than this are not worth sending

  datatype XmitState =
    MakeHeaders | MakeContinuation | MakeData | MakeTrailer | MakeTrailerContinuation | Finished

  function Min(a: int, b: int): int {
    if a < b then a else b
  }

  /** `(unsigned int)x` */
  function Cast(x: int): nat {
    x % WORD
  }

  /** Length of the next frame: within the peer's frame size, the rest, the socket and, for DATA,
      both windows.  All arguments are passed as unsigned ints. */
  function FrameLength(kind: Kind, maxFrameSz: nat, len: nat, maxLen: nat, connWnd: int, streamWnd: int): nat {
    var length := Min(Min(maxFrameSz, Cast(len)), maxLen);
    if kind == Data then Min(Min(length, Cast(connWnd)), Cast(streamWnd)) else length
  }

  /** The length is the largest one allowed. */
  lemma LengthGreatest(kind: Kind, maxFrameSz: nat, len: nat, maxLen: nat, connWnd: int, streamWnd: int, l: nat)
    ensures l <= FrameLength(kind, maxFrameSz, len, maxLen, connWnd, streamWnd) <==>
      && l <= maxFrameSz && l <= Cast(len) && l <= maxLen
      && (kind == Data ==> l <= Cast(connWnd) && l <= Cast(streamWnd))
  {
  }

  /** What a frame may take of the socket. */
  function MaxLen(sndWnd: nat): (l: nat)
    requires sndWnd > FRAME_HEADER_SIZE + TLS_MAX_OVERHEAD
    ensures 0 < l
  {
    Min(TLS_MAX_PAYLOAD_SIZE, sndWnd - TLS_MAX_OVERHEAD) - FRAME_HEADER_SIZE
  }

  // ---------------------------------------------------------------- one stream

  /** The transmit state of a stream: what is left to send, and what was sent. */
  datatype View = View(remWnd: int, hLen: nat, bLen: nat, tLen: nat, state: XmitState, eosSent: bool,
                       plan: Plan, headers: seq<Frame>, body: seq<Frame>, trailers: seq<Frame>)

  /** Which part is being sent in a state. */
  ghost predicate PhaseOk(v: View) {
    match v.state
    case MakeHeaders => v.headers == [] && v.body == [] && v.trailers == [] && v.hLen > 0 && !v.eosSent
    case MakeContinuation => v.headers != [] && v.body == [] && v.trailers == [] && v.hLen > 0
    case MakeData => v.headers != [] && v.trailers == [] && v.hLen == 0 && v.bLen > 0
    case MakeTrailer => v.headers != [] && v.trailers == [] && v.hLen == 0 && v.bLen == 0 && v.tLen > 0
    case MakeTrailerContinuation => v.headers != [] && v.trailers != [] && v.hLen == 0 && v.bLen == 0 && v.tLen > 0
    case Finished => v.headers != [] && v.hLen == 0 && v.bLen == 0 && v.tLen == 0
  }

  /** The invariant of every run, however it is interrupted. */
  ghost predicate ViewOk(v: View) {
    && v.hLen < WORD && v.tLen < WORD && PhaseOk(v)
    && BlockOk(v.headers, v.hLen, v.plan.h, v.plan.b == 0 && v.plan.t == 0)
    && BodyOk(v.body, v.bLen, v.plan.b, v.plan.t == 0)
    && BlockOk(v.trailers, v.tLen, v.plan.t, true)
    && (v.eosSent ==> v.bLen == 0 && (v.trailers != [] || v.plan.t == 0))
  }

  ghost function Sent(v: View): seq<Frame> {
    v.headers + v.body + v.trailers
  }

  /** A finished response is legal and ends its stream once; a body of 4 GB or more never gets there. */
  lemma FinishedLegal(v: View)
    requires ViewOk(v) && v.state == Finished
    ensures v.plan.b < WORD && Legal(Sent(v), v.plan) && CountEnds(Sent(v)) == 1
  {
    assert Parts(Sent(v), v.plan, v.headers, v.body, v.trailers);
    LegalEndsOnce(Sent(v), v.plan);
  }

  function KindOf(state: XmitState): Kind {
    match state
    case MakeHeaders => Headers
    case MakeContinuation => Continuation
    case MakeData => Data
    case MakeTrailer => Headers
    case MakeTrailerContinuation => Continuation
    case Finished => Data
  }

  function LeftOf(v: View): nat {
    match v.state
    case MakeHeaders => v.hLen
    case MakeContinuation => v.hLen
    case MakeData => v.bLen
    case MakeTrailer => v.tLen
    case MakeTrailerContinuation => v.tLen
    case Finished => 0
  }

  /** Charge a frame to the part it belongs to. */
  function Charged(v: View, length: nat): View
    requires length <= LeftOf(v)
  {
    match v.state
    case MakeHeaders => v.(hLen := v.hLen - length)
    case MakeContinuation => v.(hLen := v.hLen - length)
    case MakeData => v.(bLen := v.bLen - length, remWnd := v.remWnd - length)
    case MakeTrailer => v.(tLen := v.tLen - length)
    case MakeTrailerContinuation => v.(tLen := v.tLen - length)
    case Finished => v
  }

  function EndStreamFlag(bLen: nat, tLen: nat, eosSent: bool, kind: Kind, trailers: bool): bool {
    || (bLen == 0 && tLen == 0 && (kind == Headers || kind == Data) && !eosSent)
    || (bLen == 0 && tLen > 0 && kind == Headers && trailers)
  }

  function EndHeadersFlag(hLen: nat, tLen: nat, kind: Kind, trailers: bool): bool {
    || (hLen == 0 && kind != Data && !trailers)
    || (tLen == 0 && kind != Data && trailers)
  }

  /** Whether the frame belongs to the trailers: there are no headers left. */
  function InTrailers(v: View): bool {
    KindOf(v.state) != Data && v.hLen == 0 && v.tLen > 0
  }

  function FrameOf(v: View, length: nat): Frame
    requires length <= LeftOf(v)
  {
    var c, k, tr := Charged(v, length), KindOf(v.state), InTrailers(v);
    Frame(k, length, EndHeadersFlag(c.hLen, c.tLen, k, tr), EndStreamFlag(c.bLen, c.tLen, v.eosSent, k, tr))
  }

  function NextState(hLen: nat, bLen: nat, tLen: nat, trailerCont: bool): XmitState {
    if hLen > 0 then MakeContinuation
    else if bLen > 0 then MakeData
    else if tLen > 0 then if trailerCont then MakeTrailerContinuation else MakeTrailer
    else Finished
  }

  /** One frame of the given length sent. */
  function Framed(v: View, length: nat): View
    requires length <= LeftOf(v)
  {
    var f, c := FrameOf(v, length), Charged(v, length);
    var d := if KindOf(v.state) == Data then c.(body := c.body + [f])
             else if InTrailers(v) then c.(trailers := c.trailers + [f])
             else c.(headers := c.headers + [f]);
    d.(eosSent := v.eosSent || f.endStream, state := NextState(c.hLen, c.bLen, c.tLen, InTrailers(v)))
  }

  /** A length that may be sent in the state: never empty, unless the body is too long for the type
      its length is passed in. */
  ghost predicate Sendable(v: View, length: nat) {
    && v.state != Finished && length <= LeftOf(v)
    && if v.state == MakeData then (v.plan.b < WORD ==> length >= 1) && (v.plan.b >= WORD ==> v.bLen - length >= WORD)
       else length >= 1
  }

  /** Parts not begun are whole. */
  lemma Untouched(v: View)
    requires ViewOk(v)
    ensures v.body == [] ==> v.bLen == v.plan.b
    ensures v.trailers == [] ==> v.tLen == v.plan.t
  {
  }

  lemma FramedHeaders(v: View, length: nat)
    requires ViewOk(v) && Sendable(v, length) && (v.state == MakeHeaders || v.state == MakeContinuation)
    ensures ViewOk(Framed(v, length)) && Sent(Framed(v, length)) == Sent(v) + [FrameOf(v, length)]
  {
    hide BlockOk, BodyOk;
    Untouched(v);
    var f := FrameOf(v, length);
    assert Sent(v) + [f] == (v.headers + [f]) + [] + [];
    BlockAppend(v.headers, v.hLen, v.plan.h, v.plan.b == 0 && v.plan.t == 0, FrameOf(v, length));
  }

  lemma FramedData(v: View, length: nat)
    requires ViewOk(v) && Sendable(v, length) && v.state == MakeData
    ensures ViewOk(Framed(v, length)) && Sent(Framed(v, length)) == Sent(v) + [FrameOf(v, length)]
  {
    hide BlockOk, BodyOk;
    Untouched(v);
    var f := FrameOf(v, length);
    assert Sent(v) + [f] == v.headers + (v.body + [f]) + [];
    BodyAppend(v.body, v.bLen, v.plan.b, v.plan.t == 0, f);
  }

  lemma FramedTrailers(v: View, length: nat)
    requires ViewOk(v) && Sendable(v, length) && (v.state == MakeTrailer || v.state == MakeTrailerContinuation)
    ensures ViewOk(Framed(v, length)) && Sent(Framed(v, length)) == Sent(v) + [FrameOf(v, length)]
  {
    hide BlockOk, BodyOk;
    Untouched(v);
    var f := FrameOf(v, length);
    assert Sent(v) + [f] == v.headers + v.body + (v.trailers + [f]);
    BlockAppend(v.trailers, v.tLen, v.plan.t, true, f);
  }

  /** Whatever length is sent in whatever state, the run stays legal. */
  lemma FramedOk(v: View, length: nat)
    requires ViewOk(v) && Sendable(v, length)
    ensures ViewOk(Framed(v, length)) && Sent(Framed(v, length)) == Sent(v) + [FrameOf(v, length)]
  {
    hide ViewOk, Framed, FrameOf;
    match v.state
    case MakeHeaders => FramedHeaders(v, length);
    case MakeContinuation => FramedHeaders(v, length);
    case MakeData => FramedData(v, length);
    case MakeTrailer => FramedTrailers(v, length);
    case MakeTrailerContinuation => FramedTrailers(v, length);
    case Finished =>
  }

  function Prefixed(v: View, upd: nat): View {
    v.(hLen := v.hLen + upd, plan := Lengthened(v.plan, upd))
  }

  /** A table size update in front of a header block not yet begun. */
  lemma PrefixOk(v: View, upd: nat, length: nat)
    requires ViewOk(v) && Sendable(v, length) && (upd > 0 ==> v.state == MakeHeaders && v.hLen + upd < WORD)
    ensures ViewOk(Prefixed(v, upd)) && Sendable(Prefixed(v, upd), length) && Sent(Prefixed(v, upd)) == Sent(v)
  {
  }

  lemma FramedPlan(v: View, length: nat)
    requires ViewOk(v) && Sendable(v, length)
    ensures Framed(v, length).plan == v.plan && Framed(v, length).state != MakeHeaders
  {
  }

  /** The computed length can be sent, and stays within the frame size, the socket and both windows. */
  lemma LengthSendable(v: View, maxFrameSz: nat, maxLen: nat, connWnd: int)
    requires ViewOk(v) && v.state != Finished && maxFrameSz >= 1 && maxLen >= 1
    requires connWnd <= MAX_WND_SIZE && v.remWnd < WORD
    requires v.state == MakeData ==> connWnd > 0 && v.remWnd > 0
    ensures var l := FrameLength(KindOf(v.state), maxFrameSz, LeftOf(v), maxLen, connWnd, v.remWnd);
      && Sendable(v, l) && l <= maxFrameSz && l <= maxLen && (v.state == MakeData ==> l <= connWnd && l <= v.remWnd)
  {
    hide BlockOk, Lengths;
    NeverBelow4G(KindOf(v.state), maxFrameSz, LeftOf(v), maxLen, connWnd, v.remWnd);
  }

  /** With 4 GB or more left, a frame leaves 4 GB or more, whatever the windows: such a body never ends. */
  lemma NeverBelow4G(kind: Kind, maxFrameSz: nat, len: nat, maxLen: nat, connWnd: int, streamWnd: int)
    ensures var l := FrameLength(kind, maxFrameSz, len, maxLen, connWnd, streamWnd);
      (len >= WORD ==> len - l >= WORD) && (0 < len < WORD && maxFrameSz > 0 && maxLen > 0 && kind != Data ==> l > 0)
  {
    assert len == len / WORD * WORD + Cast(len);
    if len >= WORD { assert len / WORD >= 1; }
  }

  /** The only reasons to stop: no room in the socket, or too little window for DATA. */
  predicate Starved(state: XmitState, sndWnd: nat, connWnd: int, streamWnd: int, minToSend: nat) {
    || sndWnd < minToSend + FRAME_HEADER_SIZE + TLS_MAX_OVERHEAD
    || (state == MakeData && (connWnd < minToSend || streamWnd < minToSend))
  }

  /** A frame comes out shorter than wanted only because of the socket or a window. */
  lemma LengthLeast(kind: Kind, maxFrameSz: nat, len: nat, maxLen: nat, connWnd: int, streamWnd: int, minToSend: nat)
    requires maxFrameSz >= FRAME_DEF_LENGTH && 1 <= minToSend <= MIN_TO_SEND
    requires 0 <= connWnd < WORD || kind != Data
    requires 0 <= streamWnd < WORD || kind != Data
    ensures FrameLength(kind, maxFrameSz, len, maxLen, connWnd, streamWnd) < Min(minToSend, Cast(len)) ==>
      maxLen < minToSend || (kind == Data && (connWnd < minToSend || streamWnd < minToSend))
  {
  }

  /** A frame can be made now: DATA has both windows, the socket has room, and the frame is not shorter than it
      is worth, unless it is the rest. */
  predicate Goes(kind: Kind, maxFrameSz: nat, len: nat, sndWnd: nat, connWnd: int, streamWnd: int, minToSend: nat) {
    && (kind == Data ==> connWnd > 0 && streamWnd > 0) && sndWnd > FRAME_HEADER_SIZE + TLS_MAX_OVERHEAD
    && FrameLength(kind, maxFrameSz, len, MaxLen(sndWnd), connWnd, streamWnd) >= Min(minToSend, Cast(len))
  }

  /** DATA is held back until the window of its stream is changed. */
  predicate Parked(maxFrameSz: nat, len: nat, sndWnd: nat, connWnd: int, streamWnd: int, minToSend: nat) {
    if connWnd <= 0 || streamWnd <= 0 then streamWnd <= 0
    else
      && sndWnd > FRAME_HEADER_SIZE + TLS_MAX_OVERHEAD && streamWnd <= Min(minToSend, Cast(len))
      && !Goes(Data, maxFrameSz, len, sndWnd, connWnd, streamWnd, minToSend)
  }

  /** A stream whose window allows all that is left is parked exactly if the window is all that is left, not more
      than is worth a frame, and the socket or the connection has too little for it at the moment. */
  lemma ParkedWithCredit(maxFrameSz: nat, len: nat, sndWnd: nat, connWnd: int, streamWnd: int, minToSend: nat)
    requires maxFrameSz >= FRAME_DEF_LENGTH && 1 <= minToSend <= MIN_TO_SEND && 0 < len <= streamWnd < WORD && 0 < connWnd < WORD
    ensures Parked(maxFrameSz, len, sndWnd, connWnd, streamWnd, minToSend) <==>
      && len == streamWnd <= minToSend && sndWnd > FRAME_HEADER_SIZE + TLS_MAX_OVERHEAD
      && (MaxLen(sndWnd) < len || connWnd < len)
  {
  }

  /** Such a stream: 300 bytes are left, the window is 300, and the socket takes a frame of 157. */
  lemma ParkedAtEnd()
    ensures Parked(FRAME_DEF_LENGTH, 300, 200, DEF_WND_SIZE, 300, MIN_TO_SEND)
  {
  }

  /** A body of exactly 4 GB left is cut into empty frames. */
  lemma StuckAt4G(maxFrameSz: nat, maxLen: nat, connWnd: int, streamWnd: int)
    ensures FrameLength(Data, maxFrameSz, WORD, maxLen, connWnd, streamWnd) == 0
  {
  }

  // ---------------------------------------------------------------- the connection

  class Stream {
    var remWnd: int
    var hLen: nat
    var bLen: nat
    var tLen: nat
    var state: XmitState
    var isBlocked: bool
    var eosSent: bool

    ghost var plan: Plan
    ghost var headers: seq<Frame>
    ghost var body: seq<Frame>
    ghost var trailers: seq<Frame>

    constructor (h: nat, b: nat, t: nat, wndSz: nat)
      requires 1 <= h < WORD - MAX_UPDATE && t < WORD
      ensures ViewOk(V()) && plan == Plan(h, b, t) && remWnd == wndSz
      ensures headers == body == trailers == [] && !isBlocked && state == MakeHeaders && hLen == h
    {
      remWnd, hLen, bLen, tLen := wndSz, h, b, t;
      state, isBlocked, eosSent := MakeHeaders, false, false;
      plan, headers, body, trailers := Plan(h, b, t), [], [], [];
    }

    ghost function V(): View
      reads this
    {
      View(remWnd, hLen, bLen, tLen, state, eosSent, plan, headers, body, trailers)
    }

    /** Charge the stream for a frame, decide its flags and choose the next state. */
    method Pack(length: nat) returns (f: Frame)
      requires PhaseOk(V()) && state != Finished && length <= LeftOf(V())
      modifies this
      ensures V() == Framed(old(V()), length) && f == FrameOf(old(V()), length)
      ensures isBlocked == old(isBlocked)
    {
      var kind, inTrailers := KindOf(state), false;
      if kind == Data {
        remWnd := remWnd - length;
        bLen := bLen - length;
      } else if hLen > 0 {
        hLen := hLen - length;
      } else if tLen > 0 {
        tLen := tLen - length;
        inTrailers := true;
      }
      f := Frame(kind, length, EndHeadersFlag(hLen, tLen, kind, inTrailers),
                 EndStreamFlag(bLen, tLen, eosSent, kind, inTrailers));
      eosSent := eosSent || f.endStream;
      if kind == Data {
        body := body + [f];
      } else if inTrailers {
        trailers := trailers + [f];
      } else {
        headers := headers + [f];
      }
      state := NextState(hLen, bLen, tLen, inTrailers);
    }

    /** Send one frame of the stream, after a table size update of `upd` bytes if it begins a header
        block with one. */
    method NextFrame(length: nat, upd: nat) returns (f: Frame)
      requires ViewOk(V()) && Sendable(V(), length)
      requires upd > 0 ==> state == MakeHeaders && hLen + upd < WORD
      modifies this
      ensures ViewOk(V()) && Sent(V()) == old(Sent(V())) + [f] && f.length == length && f.kind == KindOf(old(state))
      ensures (Open(f) <==> BlockOpen(state)) && (f.kind == Continuation <==> BlockOpen(old(state))) && state != MakeHeaders
      ensures var charge := if f.kind == Data then length else 0;
        remWnd == old(remWnd) - charge && Lengths(body) == old(Lengths(body)) + charge
      ensures plan == Lengthened(old(plan), upd)
      ensures isBlocked == old(isBlocked)
    {
      hide ViewOk, Framed, FrameOf, Sendable, Sent, Lengths,
           H2Credit.InitAt, H2Credit.ConnLeft, H2Credit.StreamLeft, H2Credit.Datas, H2Credit.Within;
      PrefixOk(V(), upd, length);
      hLen := hLen + upd;
      plan := Lengthened(plan, upd);
      ghost var v := V();
      ViewPhase(v, length);
      FramedOk(v, length);
      FrameOpens(v, length);
      FrameCounts(v, length);
      FramedWindow(v, length);
      FramedPlan(v, length);
      f := Pack(length);
    }

    /** Move the window. */
    method Shift(delta: int)
      modifies `remWnd, `isBlocked
      ensures Moved(this, old(V()), delta) && isBlocked == (old(isBlocked) && remWnd <= 0)
    {
      remWnd := remWnd + delta;
      TryUnblock();
    }

    /** A larger window lets a blocked stream go on. */
    method TryUnblock()
      modifies `isBlocked
      ensures isBlocked == (old(isBlocked) && remWnd <= 0)
    {
      if remWnd > 0 {
        isBlocked := false;
      }
    }
  }


  datatype Item = Item(stream: Stream, frame: Frame)

  type Trace = seq<H2Credit.Step<Stream>>

  /** A window after DATA was charged to it: never below zero. */
  predicate Spent(was: int, now: int) {
    now <= was && (now < was ==> now >= 0)
  }

  /** Nothing but DATA was added to the record. */
  ghost predicate DataOnly(was: Trace, now: Trace) {
    was <= now && forall i :: |was| <= i < |now| ==> now[i].Data?
  }

  lemma NoData(tr: Trace)
    ensures DataOnly(tr, tr)
  {
  }

  lemma MoreData(was: Trace, mid: Trace, now: Trace, s: Stream, n: nat)
    requires DataOnly(was, mid) && (now == mid || now == mid + [H2Credit.Data(s, n)])
    ensures DataOnly(was, now)
  {
  }

  function Lengthened(plan: Plan, upd: nat): Plan {
    Plan(plan.h + upd, plan.b, plan.t)
  }

  /** A table size update that is due goes in front of the first frame of a response. */
  predicate Prefixes(from: XmitState, to: XmitState, due: bool) {
    due && from == MakeHeaders && to != MakeHeaders
  }

  /** Plan, state and due update after some frames of a stream. */
  predicate Started(was: Plan, from: XmitState, due: bool, now: Plan, to: XmitState, due': bool, upd: nat) {
    && (to == MakeHeaders ==> from == MakeHeaders)
    && now == (if Prefixes(from, to, due) then Lengthened(was, upd) else was)
    && due' == (due && !Prefixes(from, to, due))
  }

  lemma NotStarted(p: Plan, from: XmitState, due: bool, upd: nat)
    ensures Started(p, from, due, p, from, due, upd)
  {
  }

  lemma StartedOn(was: Plan, from: XmitState, due: bool, mid: Plan, at: XmitState, due': bool, to: XmitState, upd: nat)
    requires Started(was, from, due, mid, at, due', upd) && to != MakeHeaders
    ensures Started(was, from, due, if at == MakeHeaders && due' then Lengthened(mid, upd) else mid, to, due' && at != MakeHeaders, upd)
  {
  }

  /** Credit of a stream after a change that is not DATA. */
  ghost function After(tr: Trace, x: H2Credit.Step<Stream>, s: Stream): int
    requires !x.Data?
  {
    var left := H2Credit.StreamLeft(tr, s);
    match x
    case Opened(y) => if y == s then H2Credit.InitAt(tr) else left
    case StreamCredit(y, n) => if y == s then left + n else left
    case InitWindow(size) => left + size - H2Credit.InitAt(tr)
    case ConnCredit(_) => left
  }

  predicate Open(f: Frame) {
    f.kind != Data && !f.endHeaders
  }

  predicate BlockOpen(state: XmitState) {
    state == MakeContinuation || state == MakeTrailerContinuation
  }

  /** Field blocks are contiguous on the connection (section 4.3 of RFC 9113). */
  ghost predicate Contiguous(log: seq<Item>) {
    && (forall i :: 0 <= i < |log| - 1 && Open(log[i].frame) ==> log[i + 1].frame.kind == Continuation)
    && (forall i :: 0 <= i < |log| && log[i].frame.kind == Continuation ==>
          i > 0 && Open(log[i - 1].frame) && log[i - 1].stream == log[i].stream)
  }

  /** The stream whose field block is open at the end of the log. */
  ghost function OpenAt(log: seq<Item>): Stream? {
    if log != [] && Open(log[|log| - 1].frame) then log[|log| - 1].stream else null
  }

  /** The frames of one stream. */
  ghost function Of(log: seq<Item>, s: Stream): seq<Frame> {
    if log == [] then []
    else Of(log[..|log| - 1], s) + if log[|log| - 1].stream == s then [log[|log| - 1].frame] else []
  }

  /** The DATA on the wire, in order. */
  ghost function WireData(log: seq<Item>): seq<(Stream, nat)> {
    if log == [] then []
    else
      var it := log[|log| - 1];
      WireData(log[..|log| - 1]) + if it.frame.kind == Data then [(it.stream, it.frame.length)] else []
  }

  /** Frames of one stream within the frame size. */
  ghost predicate MadeBy(items: seq<Item>, s: Stream, maxFrameSz: nat) {
    forall i :: 0 <= i < |items| ==> items[i].stream == s && items[i].frame.length <= maxFrameSz
  }

  /** What frames take of the socket. */
  ghost function Taken(items: seq<Item>): nat {
    if items == [] then 0 else Taken(items[..|items| - 1]) + FRAME_HEADER_SIZE + items[|items| - 1].frame.length
  }

  lemma MadeNone(s: Stream, maxFrameSz: nat)
    ensures MadeBy([], s, maxFrameSz) && Taken([]) == 0
  {
  }

  lemma NothingTaken()
    ensures Taken([]) == 0
  {
  }

  lemma {:induction false} MadeAppend(log: seq<Item>, items: seq<Item>, it: Item, s: Stream, maxFrameSz: nat)
    requires MadeBy(items, s, maxFrameSz) && it.stream == s && it.frame.length <= maxFrameSz
    ensures (log + items) + [it] == log + (items + [it]) && MadeBy(items + [it], s, maxFrameSz)
    ensures Taken(items + [it]) == Taken(items) + FRAME_HEADER_SIZE + it.frame.length
  {
    assert (items + [it])[..|items|] == items;
  }

  lemma {:induction false} LogAppend(log: seq<Item>, it: Item, s: Stream)
    ensures Of(log + [it], s) == Of(log, s) + if it.stream == s then [it.frame] else []
    ensures WireData(log + [it]) == WireData(log) + if it.frame.kind == Data then [(it.stream, it.frame.length)] else []
  {
    assert (log + [it])[..|log|] == log;
  }

  lemma ContiguousAppend(log: seq<Item>, it: Item)
    requires Contiguous(log)
    requires if OpenAt(log) != null then it.frame.kind == Continuation && it.stream == OpenAt(log)
             else it.frame.kind != Continuation
    ensures Contiguous(log + [it])
  {
  }

  lemma FrameOpens(v: View, length: nat)
    requires ViewOk(v) && Sendable(v, length)
    ensures Open(FrameOf(v, length)) <==> BlockOpen(Framed(v, length).state)
    ensures FrameOf(v, length).kind == Continuation <==> BlockOpen(v.state)
  {
    hide BlockOk, BodyOk, Lengths;
  }

  lemma FrameCounts(v: View, length: nat)
    requires length <= LeftOf(v)
    ensures Lengths(Framed(v, length).body) == Lengths(v.body) + if KindOf(v.state) == Data then length else 0
    ensures FrameOf(v, length).length == length && FrameOf(v, length).kind == KindOf(v.state)
  {
    hide Lengths;
    LengthsAppend(v.body, FrameOf(v, length));
  }

  lemma ViewPhase(v: View, length: nat)
    requires ViewOk(v) && Sendable(v, length)
    ensures PhaseOk(v) && v.state != Finished && length <= LeftOf(v)
  {
  }

  lemma FramedWindow(v: View, length: nat)
    requires length <= LeftOf(v)
    ensures Framed(v, length).remWnd == v.remWnd - if v.state == MakeData then length else 0
  {
  }

  class Ctx {
    var remWnd: int
    var wndSz: nat
    var maxFrameSz: nat
    var wndChanged: bool       // a table size update is to be sent
    var curSend: Stream?       // the stream whose field block is being sent
    var streams: seq<Stream>

    ghost var log: seq<Item>   // the frames on the wire
    ghost var trace: Trace     // all that changed a window

    constructor ()
      ensures Valid() && streams == [] && log == [] && trace == [] && wndSz == DEF_WND_SIZE && !wndChanged && maxFrameSz == FRAME_DEF_LENGTH
    {
      remWnd, wndSz, maxFrameSz, wndChanged := DEF_WND_SIZE, DEF_WND_SIZE, FRAME_DEF_LENGTH, false;
      curSend, streams := null, [];
      log, trace := [], [];
    }

    /** The window of a stream that is not done is its credit, the frames on the wire are those of the
        stream, and only the stream named by `curSend` has an open field block. */
    ghost predicate StreamOk(s: Stream)
      reads this, s
    {
      && ViewOk(s.V())
      && (s.state != Finished ==> s.remWnd == H2Credit.StreamLeft(trace, s) && s.remWnd - wndSz <= MAX_WND_SIZE)
      && Of(log, s) == Sent(s.V())
      && (BlockOpen(s.state) <==> curSend == s)
    }

    /** Room for a table size update in a header block not yet begun; only DATA can be blocked, and only with a
        small window. */
    ghost predicate Servable(s: Stream)
      reads s
    {
      (s.state == MakeHeaders ==> s.hLen < WORD - MAX_UPDATE) && (s.isBlocked ==> s.state == MakeData && s.remWnd <= MIN_TO_SEND)
    }

    ghost predicate ConnOk()
      reads this
    {
      && 0 <= remWnd == H2Credit.ConnLeft(trace) <= MAX_WND_SIZE && wndSz == H2Credit.InitAt(trace) <= MAX_WND_SIZE
      && H2Credit.Within(trace) && H2Credit.Datas(trace) == WireData(log)
      && FRAME_DEF_LENGTH <= maxFrameSz <= FRAME_MAX_LENGTH
      && Contiguous(log) && curSend == OpenAt(log)
    }

    ghost predicate Valid()
      reads this, streams
    {
      && ConnOk()
      && (forall i, j :: 0 <= i < j < |streams| ==> streams[i] != streams[j])
      && (forall i :: 0 <= i < |streams| ==> StreamOk(streams[i]) && Servable(streams[i]))
      && (forall i :: 0 <= i < |log| ==> log[i].stream in streams)
    }

    lemma ValidStream(s: Stream)
      requires Valid() && s in streams
      ensures ConnOk() && StreamOk(s) && Servable(s)
    {
      hide ConnOk, StreamOk, Servable;
    }

    /** Charge the windows, send the frame, after a table size update of `upd` bytes if it begins a
        header block with one. */
    method MakeFrame(s: Stream, length: nat, upd: nat) returns (f: Frame)
      requires ConnOk() && StreamOk(s) && (curSend == null || curSend == s) && Sendable(s.V(), length)
      requires s.state == MakeData ==> length <= remWnd && length <= s.remWnd
      requires upd > 0 ==> s.state == MakeHeaders && s.hLen + upd < WORD
      modifies `remWnd, `curSend, `log, `trace, s
      ensures ConnOk() && StreamOk(s) && (curSend == null || curSend == s) && s.state != MakeHeaders
      ensures f.length == length && log == old(log) + [Item(s, f)]
      ensures s.plan == Lengthened(old(s.plan), upd)
      ensures s.isBlocked == old(s.isBlocked) && Spent(old(remWnd), remWnd) && Spent(old(s.remWnd), s.remWnd)
      ensures trace == if f.kind == Data then old(trace) + [H2Credit.Data(s, length)] else old(trace)
    {
      hide ViewOk, Sendable, Sent, Contiguous, Lengths, Of, WireData,
           H2Credit.InitAt, H2Credit.ConnLeft, H2Credit.StreamLeft, H2Credit.Datas, H2Credit.Within;
      var kind := KindOf(s.state);
      ViewPhase(s.V(), length);
      if kind == Data {
        remWnd := remWnd - length;
      }
      f := s.NextFrame(length, upd);
      if kind != Data {
        curSend := if f.endHeaders then null else s;
      }
      LogAppend(log, Item(s, f), s);
      ContiguousAppend(log, Item(s, f));
      log := log + [Item(s, f)];
      if kind == Data {
        ghost var x := H2Credit.Data(s, length);
        H2Credit.StepAppend(trace, x);
        H2Credit.LeftAppend(trace, x, s);
        H2Credit.WithinAppend(trace, x);
        trace := trace + [x];
      }
    }

    /** `MakeFrame` as the whole connection sees it. */
    method Send(s: Stream, length: nat, upd: nat) returns (f: Frame)
      requires Valid() && s in streams && !s.isBlocked && (curSend == null || curSend == s) && Sendable(s.V(), length)
      requires s.state == MakeData ==> length <= remWnd && length <= s.remWnd
      requires upd > 0 ==> s.state == MakeHeaders && upd <= MAX_UPDATE
      modifies `remWnd, `curSend, `log, `trace, s
      ensures Valid() && (curSend == null || curSend == s) && s.state != MakeHeaders
      ensures f.length == length && log == old(log) + [Item(s, f)]
      ensures s.plan == Lengthened(old(s.plan), upd)
      ensures s.isBlocked == old(s.isBlocked) && Spent(old(remWnd), remWnd) && Spent(old(s.remWnd), s.remWnd)
      ensures trace == if f.kind == Data then old(trace) + [H2Credit.Data(s, length)] else old(trace)
    {
      hide ViewOk, Sendable, Sent, Contiguous, Lengths, Of, WireData,
           H2Credit.InitAt, H2Credit.ConnLeft, H2Credit.StreamLeft, H2Credit.Datas, H2Credit.Within;
      ghost var was, before := log, trace;
      f := MakeFrame(s, length, upd);
      forall i | 0 <= i < |streams| ensures StreamOk(streams[i]) && Servable(streams[i]) {
        LogAppend(was, Item(s, f), streams[i]);
        H2Credit.LeftAppend(before, H2Credit.Data(s, length), streams[i]);
      }
    }

    /** Length of the next frame of a stream, if one may be sent now; if not, whether the stream's own
        window is what stops it. */
    method NextLength(s: Stream, sndWnd: nat, minToSend: nat) returns (go: bool, block: bool, length: nat)
      requires ConnOk() && StreamOk(s) && s.state != Finished && 1 <= minToSend <= MIN_TO_SEND
      ensures go ==> Sendable(s.V(), length) && length <= maxFrameSz
      ensures go && s.state == MakeData ==> length <= remWnd && length <= s.remWnd
      ensures go ==> length + FRAME_HEADER_SIZE + TLS_MAX_OVERHEAD <= sndWnd
      ensures go <==> Goes(KindOf(s.state), maxFrameSz, LeftOf(s.V()), sndWnd, remWnd, s.remWnd, minToSend)
      ensures go ==> !block && length == FrameLength(KindOf(s.state), maxFrameSz, LeftOf(s.V()), MaxLen(sndWnd), remWnd, s.remWnd)
      ensures !go ==> Starved(s.state, sndWnd, remWnd, s.remWnd, minToSend)
      ensures block ==> s.state == MakeData && s.remWnd <= minToSend
      ensures block <==> s.state == MakeData && Parked(maxFrameSz, s.bLen, sndWnd, remWnd, s.remWnd, minToSend)
    {
      hide ViewOk, Sendable, Sent, Contiguous, Of, WireData, FrameLength, Lengths,
           H2Credit.InitAt, H2Credit.ConnLeft, H2Credit.StreamLeft, H2Credit.Datas, H2Credit.Within;
      go, block, length := false, false, 0;
      var kind, len := KindOf(s.state), if s.state == MakeData then s.bLen
        else if s.state == MakeTrailer || s.state == MakeTrailerContinuation then s.tLen else s.hLen;
      if kind == Data && (remWnd <= 0 || s.remWnd <= 0) {
        block := s.remWnd <= 0;
        return;
      }
      if sndWnd <= FRAME_HEADER_SIZE + TLS_MAX_OVERHEAD {
        return;
      }
      var maxLen := Min(TLS_MAX_PAYLOAD_SIZE, sndWnd - TLS_MAX_OVERHEAD) - FRAME_HEADER_SIZE;
      var minLen := Min(minToSend, Cast(len));
      LengthSendable(s.V(), maxFrameSz, maxLen, remWnd);
      LengthLeast(kind, maxFrameSz, len, maxLen, remWnd, s.remWnd, minToSend);
      length := FrameLength(kind, maxFrameSz, len, maxLen, remWnd, s.remWnd);
      if length < minLen {
        block := kind == Data && s.remWnd <= minLen;
        return;
      }
      go := true;
    }

    /** `NextLength` as far as the frames of one stream are concerned. */
    method Decide(s: Stream, sndWnd: nat, minToSend: nat) returns (go: bool, block: bool, length: nat)
      requires Valid() && s in streams && s.state != Finished && 1 <= minToSend <= MIN_TO_SEND
      ensures go ==> Sendable(s.V(), length) && length <= maxFrameSz && length + FRAME_HEADER_SIZE + TLS_MAX_OVERHEAD <= sndWnd
      ensures go && s.state == MakeData ==> length <= remWnd && length <= s.remWnd
      ensures !go ==> Starved(s.state, sndWnd, remWnd, s.remWnd, minToSend) && (block <==> HeldBack(s, sndWnd, minToSend))
      ensures block ==> s.state == MakeData && s.remWnd <= MIN_TO_SEND
    {
      hide Valid, ConnOk, StreamOk, Servable, Sendable, Starved, Goes, Parked, FrameLength, LeftOf;
      ValidStream(s);
      go, block, length := NextLength(s, sndWnd, minToSend);
    }

    /** Its own window stops the DATA of a stream. */
    ghost predicate HeldBack(s: Stream, sndWnd: nat, minToSend: nat)
      reads this, s
    {
      s.state == MakeData && Parked(maxFrameSz, s.bLen, sndWnd, remWnd, s.remWnd, minToSend)
    }

    method Park(s: Stream, block: bool)
      requires Valid() && (block ==> s.state == MakeData && s.remWnd <= MIN_TO_SEND)
      modifies s`isBlocked
      ensures Valid() && s.isBlocked == block
    {
      hide ViewOk, Sendable, Sent, Contiguous, Lengths, Of, WireData, OpenAt,
           H2Credit.InitAt, H2Credit.ConnLeft, H2Credit.StreamLeft, H2Credit.Datas, H2Credit.Within;
      s.isBlocked := block;
    }

    method TakeUpdate()
      requires Valid()
      modifies `wndChanged
      ensures Valid() && !wndChanged
    {
      hide ViewOk, Sendable, Sent, Contiguous, Lengths, Of, WireData, OpenAt,
           H2Credit.InitAt, H2Credit.ConnLeft, H2Credit.StreamLeft, H2Credit.Datas, H2Credit.Within;
      wndChanged := false;
    }

    /** Send a frame; a table size update that is due goes in front of the first one of a response. */
    method SendOne(s: Stream, length: nat, updSize: nat) returns (f: Frame)
      requires Valid() && s in streams && !s.isBlocked && (curSend == null || curSend == s) && Sendable(s.V(), length)
      requires (s.state == MakeData ==> length <= remWnd && length <= s.remWnd) && 1 <= updSize <= MAX_UPDATE
      modifies `remWnd, `curSend, `log, `trace, `wndChanged, s
      ensures Valid() && (curSend == null || curSend == s) && s.state != MakeHeaders
      ensures f.length == length && log == old(log) + [Item(s, f)]
      ensures s.plan == if old(s.state) == MakeHeaders && old(wndChanged) then Lengthened(old(s.plan), updSize) else old(s.plan)
      ensures wndChanged == (old(wndChanged) && old(s.state) != MakeHeaders)
      ensures s.isBlocked == old(s.isBlocked) && Spent(old(remWnd), remWnd) && Spent(old(s.remWnd), s.remWnd)
      ensures trace == if f.kind == Data then old(trace) + [H2Credit.Data(s, length)] else old(trace)
    {
      hide ViewOk, Sendable, Sent, Contiguous, Lengths, Of, WireData, OpenAt,
           H2Credit.InitAt, H2Credit.ConnLeft, H2Credit.StreamLeft, H2Credit.Datas, H2Credit.Within;
      var upd := 0;
      if s.state == MakeHeaders && wndChanged {
        TakeUpdate();
        upd := updSize;
      }
      f := Send(s, length, upd);
    }

    /** Make frames of one stream until it is done or something stops it.  However that happens, the
        connection stays valid; the frames made are within the peer's frame size. */
    method Xmit(s: Stream, sndWnd0: nat, minToSend: nat, updSize: nat)
      returns (sndWnd: nat, stop: bool, ghost made: seq<Item>)
      requires Valid() && s in streams && !s.isBlocked && (curSend == null || curSend == s)
      requires 1 <= minToSend <= MIN_TO_SEND && 1 <= updSize <= MAX_UPDATE
      modifies `remWnd, `curSend, `log, `trace, `wndChanged, s
      ensures Valid() && (curSend == null || curSend == s) && sndWnd + Taken(made) == sndWnd0
      ensures log == old(log) + made && MadeBy(made, s, maxFrameSz)
      ensures !stop ==> s.state == Finished
      ensures stop ==> Starved(s.state, sndWnd, remWnd, s.remWnd, minToSend)
      ensures s.isBlocked <==> HeldBack(s, sndWnd, minToSend)
      ensures Spent(old(remWnd), remWnd) && Spent(old(s.remWnd), s.remWnd)
      ensures DataOnly(old(trace), trace)
      ensures Started(old(s.plan), old(s.state), old(wndChanged), s.plan, s.state, wndChanged, updSize)
    {
      hide Valid, ConnOk, StreamOk, Servable, Sendable, MadeBy, DataOnly, Starved, Lengthened, Started, Taken, Parked;
      sndWnd, stop, made := sndWnd0, false, [];
      MadeNone(s, maxFrameSz);
      assert DataOnly(trace, trace) by { NoData(trace); }
      NotStarted(s.plan, s.state, wndChanged, updSize);
      while s.state != Finished
        invariant Valid() && !s.isBlocked && !stop && (curSend == null || curSend == s) && sndWnd + Taken(made) == sndWnd0
        invariant log == old(log) + made && MadeBy(made, s, maxFrameSz)
        invariant Spent(old(remWnd), remWnd) && Spent(old(s.remWnd), s.remWnd)
        invariant DataOnly(old(trace), trace)
        invariant Started(old(s.plan), old(s.state), old(wndChanged), s.plan, s.state, wndChanged, updSize)
        decreases sndWnd
      {
        ValidStream(s);
        var go, block, length := Decide(s, sndWnd, minToSend);
        if !go {
          // a stream being served is not blocked yet
          assert !s.isBlocked;
          Park(s, block);
          stop := true;
          return;
        }
        ghost var before, plan, at, due := trace, s.plan, s.state, wndChanged;
        var f := SendOne(s, length, updSize);
        StartedOn(old(s.plan), old(s.state), old(wndChanged), plan, at, due, s.state, updSize);
        MoreData(old(trace), before, trace, s, length);
        MadeAppend(old(log), made, Item(s, f), s, maxFrameSz);
        made := made + [Item(s, f)];
        sndWnd := sndWnd - (length + FRAME_HEADER_SIZE);
      }
    }

    /** A request has come in and its response is ready. */
    method OpenStream(h: nat, b: nat, t: nat) returns (s: Stream)
      requires Valid() && 1 <= h < WORD - MAX_UPDATE && t < WORD
      modifies `streams, `trace
      ensures Valid() && fresh(s) && streams == old(streams) + [s]
      ensures s.plan == Plan(h, b, t) && s.remWnd == wndSz && s.state == MakeHeaders
      ensures trace == old(trace) + [H2Credit.Opened(s)]
    {
      hide ViewOk, Contiguous, WireData, OpenAt,
           H2Credit.InitAt, H2Credit.ConnLeft, H2Credit.StreamLeft, H2Credit.Datas, H2Credit.Within;
      s := new Stream(h, b, t, wndSz);
      NotSent(log, s);
      streams := streams + [s];
      Counted(H2Credit.Opened(s));
    }

    /** WINDOW_UPDATE on the connection. */
    method UpdateConn(incr: nat) returns (ok: bool)
      requires Valid() && incr <= MAX_WND_SIZE
      modifies `remWnd, `trace
      ensures Valid() && (ok <==> incr > 0 && old(remWnd) + incr <= MAX_WND_SIZE)
      ensures remWnd == old(remWnd) + (if ok then incr else 0) && trace == if ok then old(trace) + [H2Credit.ConnCredit(incr)] else old(trace)
    {
      hide ViewOk, Contiguous, WireData, OpenAt, Of, Sent, Lengths,
           H2Credit.InitAt, H2Credit.ConnLeft, H2Credit.StreamLeft, H2Credit.Datas, H2Credit.Within;
      ok := incr > 0 && remWnd + incr <= MAX_WND_SIZE;
      if ok {
        remWnd := remWnd + incr;
        Counted(H2Credit.ConnCredit(incr));
      }
    }

    /** WINDOW_UPDATE on a stream. */
    method UpdateStream(s: Stream, incr: nat) returns (ok: bool)
      requires Valid() && s in streams && incr <= MAX_WND_SIZE
      modifies `trace, s
      ensures Valid() && (ok <==> incr > 0 && old(s.remWnd) + incr <= MAX_WND_SIZE)
      ensures Moved(s, old(s.V()), if ok then incr else 0)
      ensures trace == if ok && s.state != Finished then old(trace) + [H2Credit.StreamCredit(s, incr)] else old(trace)
      ensures s.isBlocked == (old(s.isBlocked) && (!ok || s.remWnd <= 0))
    {
      hide ViewOk, Contiguous, WireData, OpenAt, Of, Sent, Lengths,
           H2Credit.InitAt, H2Credit.ConnLeft, H2Credit.StreamLeft, H2Credit.Datas, H2Credit.Within;
      WindowIrrelevant(s.V(), s.remWnd + incr);
      ok := incr > 0 && s.remWnd + incr <= MAX_WND_SIZE;
      if ok {
        s.Shift(incr);
        if s.state != Finished {
          Counted(H2Credit.StreamCredit(s, incr));
        }
        forall i | 0 <= i < |streams| ensures StreamOk(streams[i]) && Servable(streams[i]) {
          assert old(StreamOk(streams[i]) && Servable(streams[i]));
        }
      }
    }

    /** Put a change of credit on record. */
    ghost method Counted(x: H2Credit.Step<Stream>)
      requires !x.Data? && H2Credit.Within(trace)
      modifies `trace
      ensures trace == old(trace) + [x] && H2Credit.Within(trace) && H2Credit.Datas(trace) == H2Credit.Datas(old(trace))
      ensures H2Credit.InitAt(trace) == if x.InitWindow? then x.size else H2Credit.InitAt(old(trace))
      ensures H2Credit.ConnLeft(trace) == H2Credit.ConnLeft(old(trace)) + if x.ConnCredit? then x.n else 0
      ensures forall i :: 0 <= i < |streams| ==> H2Credit.StreamLeft(trace, streams[i]) == After(old(trace), x, streams[i])
    {
      hide H2Credit.InitAt, H2Credit.ConnLeft, H2Credit.StreamLeft, H2Credit.Datas, H2Credit.Within;
      H2Credit.StepAppend(trace, x);
      H2Credit.WithinAppend(trace, x);
      forall i | 0 <= i < |streams| ensures H2Credit.StreamLeft(trace + [x], streams[i]) == After(trace, x, streams[i]) {
        H2Credit.LeftAppend(trace, x, streams[i]);
      }
      trace := trace + [x];
    }

    ghost method CountedInit(size: nat)
      requires H2Credit.Within(trace)
      modifies `trace
      ensures trace == old(trace) + [H2Credit.InitWindow(size)] && H2Credit.Within(trace) && H2Credit.Datas(trace) == H2Credit.Datas(old(trace))
      ensures H2Credit.InitAt(trace) == size && H2Credit.ConnLeft(trace) == H2Credit.ConnLeft(old(trace))
      ensures forall i :: 0 <= i < |streams| ==>
        H2Credit.StreamLeft(trace, streams[i]) == H2Credit.StreamLeft(old(trace), streams[i]) + size - H2Credit.InitAt(old(trace))
    {
      hide H2Credit.InitAt, H2Credit.ConnLeft, H2Credit.StreamLeft, H2Credit.Datas, H2Credit.Within;
      Counted(H2Credit.InitWindow(size));
    }

    method MoveWindows(delta: int)
      requires forall i, j :: 0 <= i < j < |streams| ==> streams[i] != streams[j]
      modifies streams
      ensures forall i :: 0 <= i < |streams| ==> Moved(streams[i], old(streams[i].V()), if old(streams[i].state) != Finished then delta else 0)
      ensures forall i :: 0 <= i < |streams| ==>
        streams[i].isBlocked == (old(streams[i].isBlocked) && (streams[i].state == Finished || streams[i].remWnd <= 0))
    {
      hide Moved;
      forall i | 0 <= i < |streams| ensures Moved(streams[i], streams[i].V(), 0) { MovedNot(streams[i], streams[i].V()); }
      for i := 0 to |streams|
        invariant forall j :: 0 <= j < |streams| ==> Moved(streams[j], old(streams[j].V()), if j < i && old(streams[j].state) != Finished then delta else 0)
        invariant forall j :: 0 <= j < |streams| ==>
          streams[j].isBlocked == (old(streams[j].isBlocked) && (j >= i || streams[j].state == Finished || streams[j].remWnd <= 0))
      {
        MovedNot(streams[i], old(streams[i].V()));
        if streams[i].state != Finished {
          streams[i].Shift(delta);
        }
      }
    }

    /** A stream is in order again with its window moved as its credit was. */
    lemma {:induction false} MovedOk(s: Stream, was: View, delta: int)
      requires ViewOk(was) && Moved(s, was, if was.state != Finished then delta else 0) && Of(log, s) == Sent(was)
      requires (BlockOpen(was.state) <==> curSend == s) && (was.state == MakeHeaders ==> was.hLen < WORD - MAX_UPDATE)
      requires was.state != Finished ==> was.remWnd + delta == H2Credit.StreamLeft(trace, s) && was.remWnd + delta - wndSz <= MAX_WND_SIZE
      requires s.isBlocked ==> s.state == MakeData && s.remWnd <= MIN_TO_SEND
      ensures StreamOk(s) && Servable(s)
    {
      hide ViewOk, Sent, Of, H2Credit.StreamLeft;
      WindowIrrelevant(was, s.remWnd);
    }

    /** A new SETTINGS_INITIAL_WINDOW_SIZE moves the windows of all streams that are not done by the
        difference. */
    method ApplyInitWindow(size: nat) returns (ok: bool)
      requires Valid()
      modifies `wndSz, `trace, streams
      ensures Valid() && streams == old(streams) && (ok <==> size <= MAX_WND_SIZE)
      ensures wndSz == if ok then size else old(wndSz)
      ensures forall i :: 0 <= i < |streams| ==>
        Moved(streams[i], old(streams[i].V()), if ok && old(streams[i].state) != Finished then size - old(wndSz) else 0)
      ensures trace == if ok then old(trace) + [H2Credit.InitWindow(size)] else old(trace)
      ensures forall i :: 0 <= i < |streams| ==>
        streams[i].isBlocked == (old(streams[i].isBlocked) && (!ok || streams[i].state == Finished || streams[i].remWnd <= 0))
    {
      hide ViewOk, Contiguous, WireData, OpenAt, Of, Sent, Lengths,
           H2Credit.InitAt, H2Credit.ConnLeft, H2Credit.StreamLeft, H2Credit.Datas, H2Credit.Within;
      ok := size <= MAX_WND_SIZE;
      if ok {
        MoveWindows(size - wndSz);
        wndSz := size;
        CountedInit(size);
        forall i | 0 <= i < |streams| ensures StreamOk(streams[i]) && Servable(streams[i]) {
          assert old(StreamOk(streams[i]) && Servable(streams[i]));
          MovedOk(streams[i], old(streams[i].V()), size - old(wndSz));
        }
      }
    }

    /** The connection as a history, with the plans of its streams. */
    ghost function Now(): Snap
      reads this, streams
    {
      Snap(trace, log, streams, Plans(streams), Dones(streams), wndChanged, maxFrameSz)
    }

    /** Serve one stream; on record there is nothing but DATA, and on the wire only frames of it. */
    method ServeStream(s: Stream, sndWnd: nat, minToSend: nat, updSize: nat) returns (left: nat, ghost made: seq<Item>)
      requires Valid() && s in streams && !s.isBlocked && (curSend == null || curSend == s)
      requires 1 <= minToSend <= MIN_TO_SEND && 1 <= updSize <= MAX_UPDATE
      modifies `remWnd, `curSend, `log, `trace, `wndChanged, s
      ensures Valid() && DataOnly(old(trace), trace) && log == old(log) + made && MadeBy(made, s, maxFrameSz)
      ensures left + Taken(made) == sndWnd && (s.state == Finished || Starved(s.state, left, remWnd, s.remWnd, minToSend))
      ensures s.isBlocked <==> HeldBack(s, left, minToSend)
      ensures var first := FirstSent(old(Of(log, s)), Of(log, s));
        && s.plan == (if old(wndChanged) && first then Lengthened(old(s.plan), updSize) else old(s.plan))
        && wndChanged == (old(wndChanged) && !first)
    {
      hide Valid, Starved, MadeBy, DataOnly, ViewOk, Sent, Of, Taken, HeldBack;
      ValidStream(s);
      Begun(s.V());
      var stop;
      left, stop, made := Xmit(s, sndWnd, minToSend, updSize);
      ValidStream(s);
      Begun(s.V());
    }

    /** Serve a stream: one whose field block is open goes first, as no other may send.  Unless it is blocked,
        it goes on until it is done, or the socket or a window stops it. */
    method ServeNext(index: nat, sndWnd: nat, minToSend: nat, updSize: nat)
      returns (left: nat, idle: bool, ghost served: Stream?, ghost made: seq<Item>)
      requires Valid() && 1 <= minToSend <= MIN_TO_SEND && 1 <= updSize <= MAX_UPDATE
      modifies `remWnd, `curSend, `log, `trace, `wndChanged, streams
      ensures Valid() && Followed(Serve(index, sndWnd, minToSend, updSize), old(Now()), Now())
      ensures served == Target(old(Now()), index) && log == old(log) + made && left + Taken(made) == sndWnd
      ensures if idle then made == [] && (served == null || served.isBlocked)
              else served != null && (served.state == Finished || Starved(served.state, left, remWnd, served.remWnd, minToSend))
      ensures !idle ==> (served.isBlocked <==> HeldBack(served, left, minToSend))
      ensures forall i :: 0 <= i < |streams| && (idle || streams[i] != served) ==> streams[i].isBlocked == old(streams[i].isBlocked)
    {
      hide Valid, StreamOk, MadeBy, DataOnly, Plans, Dones, Of, FirstSent, Followed, OpenAt, Taken, Starved, Halted, H2Credit.StreamLeft, HeldBack;
      CurSend();
      left, idle, served, made := sndWnd, false, Target(Now(), index), [];
      if curSend != null {
        left, made := ServeStream(curSend, sndWnd, minToSend, updSize);
        StarvedHalted(old(curSend), left, minToSend);
        ServedSnap(old(Now()), Now(), old(curSend), made, Serve(index, sndWnd, minToSend, updSize));
      } else if index < |streams| && !streams[index].isBlocked {
        left, made := ServeStream(streams[index], sndWnd, minToSend, updSize);
        StarvedHalted(streams[index], left, minToSend);
        ServedSnap(old(Now()), Now(), streams[index], made, Serve(index, sndWnd, minToSend, updSize));
      } else {
        idle := true;
        NothingTaken();
        if index < |streams| { BlockedSmall(streams[index]); }
        IdleSnap(Now(), Serve(index, sndWnd, minToSend, updSize));
      }
    }

    lemma {:induction false} StarvedHalted(s: Stream, left: nat, minToSend: nat)
      requires Valid() && s in streams && (s.state == Finished || Starved(s.state, left, remWnd, s.remWnd, minToSend))
      ensures s.state == Finished || Halted(trace, s, left, minToSend)
    {
      hide ViewOk, Contiguous, WireData, Of, Sent, Lengths, OpenAt,
           H2Credit.InitAt, H2Credit.ConnLeft, H2Credit.StreamLeft, H2Credit.Datas, H2Credit.Within;
      ValidStream(s);
    }

    lemma {:induction false} BlockedSmall(s: Stream)
      requires Valid() && s in streams
      ensures s.isBlocked ==> H2Credit.StreamLeft(trace, s) <= MIN_TO_SEND
    {
      hide ViewOk, Contiguous, WireData, Of, Sent, Lengths, OpenAt,
           H2Credit.InitAt, H2Credit.ConnLeft, H2Credit.StreamLeft, H2Credit.Datas, H2Credit.Within;
      ValidStream(s);
    }

    /** The stream that sends headers is among the streams, and never blocked. */
    lemma CurSend()
      requires Valid()
      ensures curSend == OpenAt(log) && (curSend != null ==> curSend in streams && !curSend.isBlocked)
    {
      hide ViewOk, Contiguous, WireData, Of, Sent, Lengths,
           H2Credit.InitAt, H2Credit.ConnLeft, H2Credit.StreamLeft, H2Credit.Datas, H2Credit.Within;
      if curSend != null { assert log[|log| - 1].stream in streams; }
    }

    method Happen(ev: Event)
      requires Valid() && EventOk(ev)
      modifies this, streams
      ensures Valid() && Followed(ev, old(Now()), Now())
      ensures forall i :: |old(streams)| <= i < |streams| ==> fresh(streams[i])
    {
      hide Valid, StreamOk, Plans, Dones, DataOnly, Of, FirstSent, OpenAt, H2Credit.ConnLeft, H2Credit.StreamLeft;
      match ev
      case Opened(h, b, t) =>
        OpenGrant(h, b, t);
      case ConnWindow(incr) =>
        ConnGrant(incr);
      case StreamWindow(index, incr) =>
        if index < |streams| {
          StreamGrant(index, incr);
        }
      case InitWindow(size) =>
        InitGrant(size);
      case MaxFrame(size) =>
        SetMaxFrame(size);
      case TableSize =>
        TableChanged();
      case Serve(index, sndWnd, minToSend, updSize) =>
        var left, idle, served, made := ServeNext(index, sndWnd, minToSend, updSize);
    }

    method OpenGrant(h: nat, b: nat, t: nat)
      requires Valid() && EventOk(Opened(h, b, t))
      modifies `streams, `trace
      ensures Valid() && Followed(Opened(h, b, t), old(Now()), Now()) && fresh(streams[|old(streams)|])
    {
      hide Valid, Plans, Dones;
      var s := OpenStream(h, b, t);
      assert Plans(streams) == old(Plans(streams)) + [Plan(h, b, t)];
      assert Dones(streams) == old(Dones(streams)) + [false];
    }

    method ConnGrant(incr: nat)
      requires Valid() && EventOk(ConnWindow(incr))
      modifies `remWnd, `trace
      ensures Valid() && Followed(ConnWindow(incr), old(Now()), Now())
    {
      hide Valid, Plans, Dones, H2Credit.ConnLeft;
      Credit();
      var ok := UpdateConn(incr);
    }

    method InitGrant(size: nat)
      requires Valid()
      modifies `wndSz, `trace, streams
      ensures Valid() && Followed(InitWindow(size), old(Now()), Now())
    {
      hide Valid, Plans, Dones;
      var ok := ApplyInitWindow(size);
      SamePlans(old(Plans(streams)), old(Dones(streams)), streams);
    }

    method StreamGrant(index: nat, incr: nat)
      requires Valid() && index < |streams| && incr <= MAX_WND_SIZE
      modifies `trace, streams[index]
      ensures Valid() && Followed(StreamWindow(index, incr), old(Now()), Now())
    {
      hide Valid, ConnOk, StreamOk, Servable, Plans, Dones, Followed, Granted, OpenAt, H2Credit.StreamLeft;
      var s := streams[index];
      ValidStream(s);
      CreditOf(s);
      AllDistinct();
      ghost var a := Now();
      StreamGranted(a, index, incr, s.remWnd);
      var ok := UpdateStream(s, incr);
      forall i | 0 <= i < |streams| ensures streams[i].plan == a.plans[i] && (streams[i].state == Finished) == a.done[i] {
        assert i != index ==> streams[i] != s;
      }
      SamePlans(a.plans, a.done, streams);
      GrantFollows(StreamWindow(index, incr), a, Now());
    }

    lemma AllDistinct()
      requires Valid()
      ensures forall i, j :: 0 <= i < j < |streams| ==> streams[i] != streams[j]
    {
      hide ConnOk, StreamOk, Servable;
    }

    lemma Credit()
      requires Valid()
      ensures remWnd == H2Credit.ConnLeft(trace)
    {
    }

    lemma {:induction false} CreditOf(s: Stream)
      requires StreamOk(s)
      ensures s.state != Finished ==> s.remWnd == H2Credit.StreamLeft(trace, s)
    {
    }

    method TableChanged()
      requires Valid()
      modifies `wndChanged
      ensures Valid() && wndChanged
    {
      hide ViewOk, Sendable, Sent, Contiguous, Lengths, Of, WireData, OpenAt,
           H2Credit.InitAt, H2Credit.ConnLeft, H2Credit.StreamLeft, H2Credit.Datas, H2Credit.Within;
      wndChanged := true;
    }

    method SetMaxFrame(size: nat)
      requires Valid()
      modifies `maxFrameSz
      ensures Valid() && maxFrameSz == NewSize(old(maxFrameSz), size)
    {
      hide ViewOk, Contiguous, WireData, Of, Sent, Lengths, OpenAt,
           H2Credit.InitAt, H2Credit.ConnLeft, H2Credit.StreamLeft, H2Credit.Datas, H2Credit.Within;
      if FRAME_DEF_LENGTH <= size <= FRAME_MAX_LENGTH {
        maxFrameSz := size;
      }
    }

    /** Every run of a connection: whatever happens in it, credit and framing are as they should be, and the
        credit is what the events granted, the plans those of the responses that came in. */
    method Run(events: seq<Event>) returns (ghost hist: seq<Snap>)
      requires Valid() && forall i :: 0 <= i < |events| ==> EventOk(events[i])
      modifies this, streams
      ensures Valid() && Orderly(this)
      ensures RunOf(events, hist) && hist[0] == old(Now()) && hist[|events|] == Now()
    {
      hide Valid, EventOk, Orderly, Followed, Plans, Dones;
      hist := [Now()];
      for k := 0 to |events|
        invariant Valid() && |hist| == k + 1 && hist[0] == old(Now()) && hist[k] == Now()
        invariant forall i :: 0 <= i < k ==> Followed(events[i], hist[i], hist[i + 1])
        invariant forall i :: 0 <= i < |streams| ==> streams[i] in old(streams) || fresh(streams[i])
      {
        Happen(events[k]);
        FollowedStreams(events[k], hist[k], Now());
        hist := hist + [Now()];
      }
      RunOrderly(this);
    }
  }

  ghost function Plans(ss: seq<Stream>): (r: seq<Plan>)
    reads ss
    ensures |r| == |ss| && forall i :: 0 <= i < |ss| ==> r[i] == ss[i].plan
  {
    if ss == [] then [] else Plans(ss[..|ss| - 1]) + [ss[|ss| - 1].plan]
  }

  ghost function Dones(ss: seq<Stream>): (r: seq<bool>)
    reads ss
    ensures |r| == |ss| && forall i :: 0 <= i < |ss| ==> r[i] == (ss[i].state == Finished)
  {
    if ss == [] then [] else Dones(ss[..|ss| - 1]) + [ss[|ss| - 1].state == Finished]
  }

  lemma {:induction false} SamePlans(plans: seq<Plan>, dones: seq<bool>, ss: seq<Stream>)
    requires |plans| == |dones| == |ss|
    requires forall i :: 0 <= i < |ss| ==> ss[i].plan == plans[i] && (ss[i].state == Finished) == dones[i]
    ensures Plans(ss) == plans && Dones(ss) == dones
  {
    hide Plans, Dones;
  }

  // ---------------------------------------------------------------- histories

  /** A moment in the history of a connection: credit, frames, the streams with what they are to send and
      whether they are done, whether a table size update is due, and the frame size in force. */
  datatype Snap = Snap(trace: Trace, log: seq<Item>, streams: seq<Stream>, plans: seq<Plan>, done: seq<bool>, due: bool, frameSz: nat)

  /** What an event grants: exactly what section 6.9 of RFC 9113 allows, and nothing to a stream that is done. */
  ghost function Granted(ev: Event, a: Snap): Trace
    requires |a.done| == |a.streams|
  {
    match ev
    case ConnWindow(incr) =>
      if incr > 0 && H2Credit.ConnLeft(a.trace) + incr <= MAX_WND_SIZE then [H2Credit.ConnCredit(incr)] else []
    case StreamWindow(i, incr) =>
      if i < |a.streams| && !a.done[i] && incr > 0 && H2Credit.StreamLeft(a.trace, a.streams[i]) + incr <= MAX_WND_SIZE
      then [H2Credit.StreamCredit(a.streams[i], incr)] else []
    case InitWindow(size) => if size <= MAX_WND_SIZE then [H2Credit.InitWindow(size)] else []
    case _ => []
  }

  /** Which stream may send next. */
  ghost function Target(a: Snap, index: nat): Stream? {
    if OpenAt(a.log) != null then OpenAt(a.log) else if index < |a.streams| then a.streams[index] else null
  }

  /** A new SETTINGS_MAX_FRAME_SIZE, if it is a legal one. */
  function NewSize(was: nat, size: nat): nat {
    if FRAME_DEF_LENGTH <= size <= FRAME_MAX_LENGTH then size else was
  }

  /** What is left of the socket after a service. */
  ghost function Rest(sndWnd: nat, a: Snap, b: Snap): int
    requires a.log <= b.log
  {
    sndWnd - Taken(b.log[|a.log|..])
  }

  /** Whoever is next is served until it is done, or the socket or a window has too little left.  It is passed
      over only with a small window. */
  ghost predicate TurnTaken(index: nat, sndWnd: nat, minToSend: nat, a: Snap, b: Snap)
    requires |a.done| == |a.streams| == |b.done| && a.log <= b.log
  {
    forall i :: 0 <= i < |a.streams| && a.streams[i] == Target(a, index) && !a.done[i] && Ready(a, a.streams[i]) ==>
      b.done[i] || Halted(b.trace, a.streams[i], Rest(sndWnd, a, b), minToSend)
  }

  ghost predicate Ready(a: Snap, s: Stream) {
    OpenAt(a.log) != null || H2Credit.StreamLeft(a.trace, s) > MIN_TO_SEND
  }

  ghost predicate Halted(tr: Trace, s: Stream, left: int, minToSend: nat) {
    || left < minToSend + FRAME_HEADER_SIZE + TLS_MAX_OVERHEAD
    || H2Credit.ConnLeft(tr) < minToSend || H2Credit.StreamLeft(tr, s) < minToSend
  }

  ghost predicate FirstSent(was: seq<Frame>, now: seq<Frame>) {
    was == [] && now != []
  }

  /** What an event makes of a connection.  A stream that is served sends DATA and frames of its own only,
      and begins with the table size update if one is due. */
  ghost predicate Followed(ev: Event, a: Snap, b: Snap) {
    && |a.plans| == |a.done| == |a.streams| && |b.plans| == |b.done| == |b.streams|
    && match ev
       case Opened(h, bd, t) =>
         && |b.streams| == |a.streams| + 1 && b.streams[..|a.streams|] == a.streams && b.log == a.log && b.due == a.due && b.frameSz == a.frameSz
         && b.streams[|a.streams|] !in a.streams && b.trace == a.trace + [H2Credit.Opened(b.streams[|a.streams|])]
         && b.plans == a.plans + [Plan(h, bd, t)] && b.done == a.done + [false]
       case Serve(index, sndWnd, minToSend, upd) =>
         && b.streams == a.streams && DataOnly(a.trace, b.trace) && a.log <= b.log && b.frameSz == a.frameSz
         && TurnTaken(index, sndWnd, minToSend, a, b)
         && (forall k :: |a.log| <= k < |b.log| ==> b.log[k].stream == Target(a, index) && b.log[k].frame.length <= a.frameSz)
         && (forall i :: 0 <= i < |a.streams| && a.streams[i] != Target(a, index) ==> b.done[i] == a.done[i])
         && (forall i :: 0 <= i < |a.streams| ==>
               var first := a.streams[i] == Target(a, index) && FirstSent(Of(a.log, a.streams[i]), Of(b.log, a.streams[i]));
               b.plans[i] == (if a.due && first then Lengthened(a.plans[i], upd) else a.plans[i]) && (first ==> !b.due))
         && (b.due ==> a.due) && (b.log == a.log ==> b.due == a.due)
       case TableSize => b == a.(due := true)
       case MaxFrame(size) => b == a.(frameSz := NewSize(a.frameSz, size))
       case _ => b == a.(trace := a.trace + Granted(ev, a))
  }

  /** The history of a run. */
  ghost predicate RunOf(events: seq<Event>, hist: seq<Snap>) {
    |hist| == |events| + 1 && forall k :: 0 <= k < |events| ==> Followed(events[k], hist[k], hist[k + 1])
  }

  lemma FollowedStreams(ev: Event, a: Snap, b: Snap)
    requires Followed(ev, a, b)
    ensures |a.streams| <= |b.streams| && b.streams[..|a.streams|] == a.streams
    ensures |a.plans| == |a.done| == |a.streams| && |b.plans| == |b.done| == |b.streams|
  {
    hide DataOnly, Of, FirstSent, OpenAt, Granted;
  }

  lemma GrantFollows(ev: Event, a: Snap, b: Snap)
    requires |a.plans| == |a.done| == |a.streams| && (ev.ConnWindow? || ev.StreamWindow? || ev.InitWindow?)
    requires b == a.(trace := a.trace + Granted(ev, a))
    ensures Followed(ev, a, b)
  {
  }

  lemma {:induction false} StreamGranted(a: Snap, i: nat, incr: nat, w: int)
    requires |a.done| == |a.streams| && i < |a.streams| && (!a.done[i] ==> w == H2Credit.StreamLeft(a.trace, a.streams[i]))
    ensures a.trace + Granted(StreamWindow(i, incr), a) ==
      if incr > 0 && w + incr <= MAX_WND_SIZE && !a.done[i] then a.trace + [H2Credit.StreamCredit(a.streams[i], incr)] else a.trace
  {
    hide H2Credit.StreamLeft;
  }

  lemma {:induction false} ServedSnap(a: Snap, b: Snap, s: Stream, made: seq<Item>, ev: Event)
    requires ev.Serve? && Target(a, ev.index) == s && b.streams == a.streams
    requires |a.plans| == |a.done| == |a.streams| && |b.plans| == |b.done| == |b.streams|
    requires DataOnly(a.trace, b.trace) && b.log == a.log + made && MadeBy(made, s, a.frameSz) && b.frameSz == a.frameSz
    requires forall i :: 0 <= i < |a.streams| && a.streams[i] != s ==> b.done[i] == a.done[i]
    requires forall i :: 0 <= i < |a.streams| && a.streams[i] == s ==> b.done[i] || Halted(b.trace, s, ev.sndWnd - Taken(made), ev.minToSend)
    requires var first := FirstSent(Of(a.log, s), Of(b.log, s));
      && b.due == (a.due && !first)
      && forall i :: 0 <= i < |a.streams| ==>
           b.plans[i] == if a.streams[i] == s && a.due && first then Lengthened(a.plans[i], ev.updSize) else a.plans[i]
    ensures Followed(ev, a, b)
  {
    hide DataOnly, Of, OpenAt, Halted;
    assert b.log[|a.log|..] == made;
  }

  lemma IdleSnap(a: Snap, ev: Event)
    requires ev.Serve? && |a.plans| == |a.done| == |a.streams|
    requires OpenAt(a.log) == null && (ev.index < |a.streams| ==> H2Credit.StreamLeft(a.trace, a.streams[ev.index]) <= MIN_TO_SEND)
    ensures Followed(ev, a, a)
  {
    hide Of, OpenAt, Halted;
  }

  /** Nothing is sent of a response exactly while its headers are still to be made. */
  lemma Begun(v: View)
    requires ViewOk(v)
    ensures Sent(v) == [] <==> v.state == MakeHeaders
  {
    hide BlockOk, BodyOk;
  }

  /** The credit on record after a run is what the events granted, in their order, besides DATA. */
  lemma {:induction false} CreditGranted(events: seq<Event>, hist: seq<Snap>)
    requires RunOf(events, hist)
    ensures H2Credit.Grants(hist[|events|].trace) == H2Credit.Grants(hist[0].trace) + AllGranted(events, hist)
    decreases events
  {
    hide Followed, H2Credit.Grants;
    if events != [] {
      var n := |events| - 1;
      CreditGranted(events[..n], hist[..n + 1]);
      EventGranted(events[n], hist[n], hist[n + 1]);
    }
  }

  /** All that was granted in a run. */
  ghost function AllGranted(events: seq<Event>, hist: seq<Snap>): Trace
    requires RunOf(events, hist)
    decreases events
  {
    if events == [] then []
    else
      var n := |events| - 1;
      AllGranted(events[..n], hist[..n + 1]) + StepGranted(events[n], hist[n], hist[n + 1])
  }

  ghost function StepGranted(ev: Event, a: Snap, b: Snap): Trace
    requires Followed(ev, a, b)
  {
    if ev.Opened? then [H2Credit.Opened(b.streams[|a.streams|])] else Granted(ev, a)
  }

  /** What an event adds to the record, and that a service adds DATA only. */
  lemma TraceStep(ev: Event, a: Snap, b: Snap)
    requires Followed(ev, a, b)
    ensures if ev.Serve? then DataOnly(a.trace, b.trace) && StepGranted(ev, a, b) == [] else b.trace == a.trace + StepGranted(ev, a, b)
    ensures forall i :: 0 <= i < |StepGranted(ev, a, b)| ==> !StepGranted(ev, a, b)[i].Data?
  {
    hide DataOnly, Of, FirstSent, OpenAt, Lengthened, H2Credit.ConnLeft, H2Credit.StreamLeft;
  }

  lemma {:induction false} EventGranted(ev: Event, a: Snap, b: Snap)
    requires Followed(ev, a, b)
    ensures H2Credit.Grants(b.trace) == H2Credit.Grants(a.trace) + StepGranted(ev, a, b)
  {
    hide Followed, StepGranted, H2Credit.Grants;
    TraceStep(ev, a, b);
    var more := b.trace[|a.trace|..];
    assert b.trace == a.trace + more;
    H2Credit.GrantsAppend(a.trace, more);
    if ev.Serve? {
      H2Credit.GrantsNone(more);
    } else {
      assert more == StepGranted(ev, a, b);
      H2Credit.GrantsAll(more);
    }
  }

  /** The plans of the responses that came in, in their order. */
  ghost function Asked(events: seq<Event>): seq<Plan> {
    if events == [] then []
    else
      var ev := events[|events| - 1];
      Asked(events[..|events| - 1]) + if ev.Opened? then [Plan(ev.h, ev.b, ev.t)] else []
  }

  /** A plan with at most one table size update in front, and none while nothing was sent. */
  ghost predicate Answers(was: Plan, now: Plan, sent: seq<Frame>) {
    now == was || (sent != [] && now.b == was.b && now.t == was.t && was.h <= now.h <= was.h + MAX_UPDATE)
  }

  /** Every stream has the plan it was opened with, but for one table size update. */
  lemma {:induction false} PlansAsked(events: seq<Event>, hist: seq<Snap>)
    requires RunOf(events, hist) && hist[0].streams == [] && hist[0].plans == [] && forall k :: 0 <= k < |events| ==> EventOk(events[k])
    ensures var z := hist[|events|];
      |Asked(events)| == |z.streams| == |z.plans| &&
      forall i :: 0 <= i < |z.streams| ==> Answers(Asked(events)[i], z.plans[i], Of(z.log, z.streams[i]))
    decreases events
  {
    hide Followed, Of, Answers, EventOk;
    if events != [] {
      var n := |events| - 1;
      PlansAsked(events[..n], hist[..n + 1]);
      PlansStep(events[n], hist[n], hist[n + 1], Asked(events[..n]));
    }
  }

  lemma {:induction false} PlansStep(ev: Event, a: Snap, b: Snap, asked: seq<Plan>)
    requires Followed(ev, a, b) && EventOk(ev) && |asked| == |a.streams| == |a.plans|
    requires forall i :: 0 <= i < |a.streams| ==> Answers(asked[i], a.plans[i], Of(a.log, a.streams[i]))
    ensures var now := asked + if ev.Opened? then [Plan(ev.h, ev.b, ev.t)] else [];
      |now| == |b.streams| == |b.plans| && forall i :: 0 <= i < |b.streams| ==> Answers(now[i], b.plans[i], Of(b.log, b.streams[i]))
  {
    hide Of, DataOnly, OpenAt, H2Credit.ConnLeft, H2Credit.StreamLeft;
    if ev.Serve? {
      forall i | 0 <= i < |b.streams| ensures Answers(asked[i], b.plans[i], Of(b.log, b.streams[i])) {
        var s := a.streams[i];
        OfGrows(a.log, b.log, s);
      }
    }
  }

  lemma {:induction false} OfGrows(a: seq<Item>, b: seq<Item>, s: Stream)
    requires a <= b
    ensures Of(a, s) <= Of(b, s)
    decreases b
  {
    if |a| < |b| {
      var n := |b| - 1;
      assert a <= b[..n];
      OfGrows(a, b[..n], s);
    } else {
      assert a == b;
    }
  }

  /** The frame size in force after the first `n` events. */
  function SizeInForce(was: nat, events: seq<Event>, n: nat): nat
    requires n <= |events|
  {
    if n == 0 then was
    else var w := SizeInForce(was, events, n - 1); if events[n - 1].MaxFrame? then NewSize(w, events[n - 1].size) else w
  }

  /** The frames put on the wire from one moment to the next are within a size. */
  ghost predicate Fit(a: Snap, b: Snap, size: nat) {
    forall j :: |a.log| <= j < |b.log| ==> b.log[j].frame.length <= size
  }

  /** Every frame a run puts on the wire is within the size in force at that moment. */
  lemma {:induction false} FramesFit(events: seq<Event>, hist: seq<Snap>, n: nat)
    requires RunOf(events, hist) && n <= |events|
    ensures hist[n].frameSz == SizeInForce(hist[0].frameSz, events, n)
    ensures forall k :: 0 <= k < n ==> Fit(hist[k], hist[k + 1], SizeInForce(hist[0].frameSz, events, k))
    decreases n
  {
    hide Followed, Fit;
    if n > 0 {
      FramesFit(events, hist, n - 1);
      FitStep(events[n - 1], hist[n - 1], hist[n]);
    }
  }

  lemma FitStep(ev: Event, a: Snap, b: Snap)
    requires Followed(ev, a, b)
    ensures b.frameSz == if ev.MaxFrame? then NewSize(a.frameSz, ev.size) else a.frameSz
    ensures Fit(a, b, a.frameSz)
  {
    hide DataOnly, Of, FirstSent, OpenAt, Granted, Lengthened;
  }

  /** A connection from its beginning: every DATA frame on the wire is within the credit that the events
      granted up to it, every frame within the size in force, and every finished response is a legal one for
      what was asked. */
  method Connection(events: seq<Event>) returns (c: Ctx, ghost hist: seq<Snap>)
    requires forall i :: 0 <= i < |events| ==> EventOk(events[i])
    ensures c.Valid() && Orderly(c) && RunOf(events, hist) && hist[|events|] == c.Now()
    ensures H2Credit.Grants(c.trace) == AllGranted(events, hist)
    ensures forall k :: 0 <= k < |events| ==> Fit(hist[k], hist[k + 1], SizeInForce(FRAME_DEF_LENGTH, events, k))
    ensures |Asked(events)| == |c.streams| && forall i :: 0 <= i < |c.streams| ==> Answers(Asked(events)[i], c.streams[i].plan, Of(c.log, c.streams[i]))
  {
    hide Orderly, RunOf, EventOk, AllGranted, Asked, Answers, Of, Plans, Dones;
    c := new Ctx();
    hist := c.Run(events);
    RunSize(events, hist);
    CreditGranted(events, hist);
    PlansAsked(events, hist);
    FramesFit(events, hist, |events|);
  }

  lemma RunSize(events: seq<Event>, hist: seq<Snap>)
    requires RunOf(events, hist)
    ensures |hist| == |events| + 1
  {
  }

  /** What may happen to a connection. */
  datatype Event =
    | Opened(h: nat, b: nat, t: nat)
    | ConnWindow(incr: nat)
    | StreamWindow(index: nat, incr: nat)
    | InitWindow(size: nat)
    | MaxFrame(size: nat)
    | TableSize
    | Serve(index: nat, sndWnd: nat, minToSend: nat, updSize: nat)

  predicate EventOk(ev: Event) {
    match ev
    case Opened(h, b, t) => 1 <= h < WORD - MAX_UPDATE && t < WORD
    case ConnWindow(incr) => incr <= MAX_WND_SIZE
    case StreamWindow(_, incr) => incr <= MAX_WND_SIZE
    case Serve(_, _, minToSend, updSize) => 1 <= minToSend <= MIN_TO_SEND && 1 <= updSize <= MAX_UPDATE
    case _ => true
  }

  /** What the peer sees of a connection at any time: no DATA beyond the credit the connection or the
      stream had when it was sent, no field block interrupted, and each finished response a legal one
      that ends its stream once. */
  ghost predicate Orderly(c: Ctx)
    reads c, c.streams
  {
    && H2Credit.Within(c.trace) && WireData(c.log) == H2Credit.Datas(c.trace) && Contiguous(c.log)
    && forall i :: 0 <= i < |c.streams| ==> OrderlyStream(c, c.streams[i])
  }

  ghost predicate OrderlyStream(c: Ctx, s: Stream)
    reads c, s
  {
    s.state == Finished ==> s.plan.b < WORD && Legal(Of(c.log, s), s.plan) && CountEnds(Of(c.log, s)) == 1
  }

  lemma RunOrderly(c: Ctx)
    requires c.Valid()
    ensures Orderly(c)
  {
    hide ViewOk, Contiguous, WireData, Of, Sent, Lengths, Legal, CountEnds,
         H2Credit.InitAt, H2Credit.ConnLeft, H2Credit.StreamLeft, H2Credit.Datas, H2Credit.Within;
    forall i | 0 <= i < |c.streams| ensures OrderlyStream(c, c.streams[i]) {
      var s := c.streams[i];
      assert c.StreamOk(s);
      if s.state == Finished { FinishedLegal(s.V()); }
    }
  }

  /** The windows are the credit left, and the casts in the length computation lose nothing. */
  lemma {:induction false} WindowsFit(c: Ctx, s: Stream)
    requires c.Valid() && s in c.streams && s.state != Finished
    ensures c.remWnd == H2Credit.ConnLeft(c.trace) && s.remWnd == H2Credit.StreamLeft(c.trace, s)
    ensures s.remWnd <= 2 * MAX_WND_SIZE && Cast(c.remWnd) == c.remWnd
    ensures s.remWnd >= 0 ==> Cast(s.remWnd) == s.remWnd
  {
    hide ViewOk, Contiguous, WireData, Of, Sent, Lengths,
         H2Credit.InitAt, H2Credit.ConnLeft, H2Credit.StreamLeft, H2Credit.Datas, H2Credit.Within;
    var i :| 0 <= i < |c.streams| && c.streams[i] == s;
    assert c.StreamOk(c.streams[i]);
  }

  /** The bound is reached: a change of the initial window may lift a window far over 2^31 - 1. */
  method WidestWindow() returns (c: Ctx, s: Stream)
    ensures c.Valid() && s in c.streams && s.remWnd == 2 * MAX_WND_SIZE
  {
    hide Ctx.Valid;
    c := new Ctx();
    var ok := c.ApplyInitWindow(0);
    s := c.OpenStream(1, 1, 0);
    ok := c.UpdateStream(s, MAX_WND_SIZE);
    assert c.streams == [s];
    ok := c.ApplyInitWindow(MAX_WND_SIZE);
    assert c.streams[0].remWnd == 2 * MAX_WND_SIZE;
  }

  ghost predicate Moved(s: Stream, was: View, delta: int)
    reads s
  {
    s.V() == was.(remWnd := was.remWnd + delta)
  }

  lemma MovedNot(s: Stream, was: View)
    ensures Moved(s, was, 0) <==> s.V() == was
  {
  }

  lemma WindowIrrelevant(v: View, w: int)
    ensures ViewOk(v.(remWnd := w)) == ViewOk(v) && Sent(v.(remWnd := w)) == Sent(v)
  {
  }

  lemma {:induction false} NotSent(log: seq<Item>, s: Stream)
    requires forall i :: 0 <= i < |log| ==> log[i].stream != s
    ensures Of(log, s) == []
  {
    if log != [] { NotSent(log[..|log| - 1], s); }
  }
}
