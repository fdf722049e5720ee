/**
  Loading an image into the memory of a phone: a stop-and-wait protocol with checksums and
  a repeat timer. Both ends of the wire are modelled, so that what arrived can be stated.
 */
module MemLoad {
  type Byte = bv8

  /** MEM_MSG_MAX: what fits into one request. */
  const CHUNK: nat := 240

  const WORD: nat := 0x1_0000_0000

  /** LOADER_MEM_WRITE with address, data and checksum. */
  datatype Request = Request(address: nat, data: seq<Byte>, crc: nat)

  /** The memory operation state, with all requests sent and the offsets up to which acknowledgements went. */
  datatype Load = Load(image: seq<Byte>, base: nat, off: nat, req: nat, crc: nat, quit: bool, armed: bool,
                       sent: seq<Request>, acked: seq<nat>)

  function Min(a: nat, b: nat): nat {
    if a < b then a else b
  }

  /** loader_do_memload */
  ghost function Send(l: Load, crc16: seq<Byte> -> nat): Load
    requires l.off <= |l.image|
  {
    var rem := |l.image| - l.off;
    if rem == 0 then l.(quit := true)
    else
      var data := l.image[l.off..l.off + Min(rem, CHUNK)];
      l.(armed := true, crc := crc16(data), req := |data|, off := l.off + |data|,
         sent := l.sent + [Request((l.base + l.off) % WORD, data, crc16(data))])
  }

  /** A reply to a memory write, with the checksum the phone computed. */
  ghost function OnReply(l: Load, crc: nat, crc16: seq<Byte> -> nat): Load
    requires l.req <= l.off <= |l.image|
  {
    if l.crc != crc then Send(l.(off := l.off - l.req), crc16) else Send(l.(acked := l.acked + [l.off]), crc16)
  }

  /** memop_timeout */
  ghost function OnTimeout(l: Load, crc16: seq<Byte> -> nat): Load
    requires l.req <= l.off <= |l.image|
  {
    Send(l.(off := l.off - l.req), crc16)
  }

  /** loader_start_memload */
  ghost function Start(image: seq<Byte>, base: nat, crc16: seq<Byte> -> nat): Load {
    Send(Load(image, base, 0, 0, 0, false, false, [], []), crc16)
  }

  // ---------------------------------------------------------------- the loader

  class Loader {
    const crc16: seq<Byte> -> nat
    var binbuf: seq<Byte>
    var membase: nat
    var memoff: nat
    var memreq: nat
    var memcrc: nat
    var quit: bool
    var armed: bool
    ghost var sent: seq<Request>
    ghost var acked: seq<nat>

    constructor (crc16: seq<Byte> -> nat)
      ensures this.crc16 == crc16 && !quit && !armed
    {
      this.crc16 := crc16;
      binbuf, membase, memoff, memreq, memcrc := [], 0, 0, 0, 0;
      quit, armed := false, false;
      sent, acked := [], [];
    }

    ghost function View(): Load
      reads this
    {
      Load(binbuf, membase, memoff, memreq, memcrc, quit, armed, sent, acked)
    }

    method StartLoad(image: seq<Byte>, address: nat)
      requires !quit && !armed
      modifies this
      ensures View() == Start(image, address, crc16)
    {
      binbuf, membase, memoff := image, address, 0;
      memreq, memcrc := 0, 0;
      sent, acked := [], [];
      DoLoad();
    }

    method DoLoad()
      requires memoff <= |binbuf|
      modifies this
      ensures View() == Send(old(View()), crc16)
    {
      var rembytes := |binbuf| - memoff;
      if rembytes == 0 {
        quit := true;
        return;
      }
      armed := true;
      var reqbytes := if rembytes < CHUNK then rembytes else CHUNK;
      var data := binbuf[memoff..memoff + reqbytes];
      memcrc := crc16(data);
      memreq := reqbytes;
      sent := sent + [Request((membase + memoff) % WORD, data, memcrc)];
      memoff := memoff + reqbytes;
    }

    /** memop_timeout while a load is in progress. */
    method Timeout()
      requires memreq <= memoff <= |binbuf|
      modifies this
      ensures View() == OnTimeout(old(View()), crc16)
    {
      memoff := memoff - memreq;
      DoLoad();
    }

    /** loader_handle_reply for a memory write while a load is in progress. */
    method Reply(crc: nat)
      requires memreq <= memoff <= |binbuf|
      modifies this
      ensures View() == OnReply(old(View()), crc, crc16)
    {
      if memcrc != crc {
        memoff := memoff - memreq;
      } else {
        acked := acked + [memoff];
      }
      DoLoad();
    }
  }

  // ---------------------------------------------------------------- what the loader keeps

  /** Where chunk i ends. */
  ghost function End(image: seq<Byte>, i: nat): nat {
    Min(CHUNK * (i + 1), |image|)
  }

  /** The request for chunk i. */
  ghost function ChunkRequest(l: Load, i: nat, crc16: seq<Byte> -> nat): Request
    requires CHUNK * i < |l.image|
  {
    var data := l.image[CHUNK * i..End(l.image, i)];
    Request((l.base + CHUNK * i) % WORD, data, crc16(data))
  }

  /** The next chunk that has no acknowledgement is the one that was sent last, whatever came in between. */
  ghost predicate Sane(l: Load, crc16: seq<Byte> -> nat) {
    && l.req <= l.off <= |l.image|
    && (forall i :: 0 <= i < |l.acked| ==> l.acked[i] == End(l.image, i))
    && (l.quit ==> CHUNK * |l.acked| >= |l.image| && (|l.acked| > 0 ==> CHUNK * (|l.acked| - 1) < |l.image|))
    && (!l.quit ==> Waiting(l, crc16))
  }

  ghost predicate Waiting(l: Load, crc16: seq<Byte> -> nat)
    requires l.req <= l.off <= |l.image|
  {
    && l.req > 0 && l.armed && l.sent != [] && l.off - l.req == CHUNK * |l.acked| && l.off == End(l.image, |l.acked|)
    && CHUNK * |l.acked| < |l.image| && l.sent[|l.sent| - 1] == ChunkRequest(l, |l.acked|, crc16)
    && l.crc == l.sent[|l.sent| - 1].crc
  }

  lemma StartSane(image: seq<Byte>, base: nat, crc16: seq<Byte> -> nat)
    ensures Sane(Start(image, base, crc16), crc16)
  {}

  /** Sending from the end of the acknowledged part. */
  lemma SendSane(l: Load, crc16: seq<Byte> -> nat)
    requires forall i :: 0 <= i < |l.acked| ==> l.acked[i] == End(l.image, i)
    requires l.off == Min(CHUNK * |l.acked|, |l.image|) && l.req <= l.off && !l.quit
    requires |l.acked| > 0 ==> CHUNK * (|l.acked| - 1) < |l.image|
    ensures Sane(Send(l, crc16), crc16)
  {}

  lemma ReplySane(l: Load, crc: nat, crc16: seq<Byte> -> nat)
    requires Sane(l, crc16) && !l.quit
    ensures Sane(OnReply(l, crc, crc16), crc16)
    ensures OnReply(l, crc, crc16).acked == if crc == l.crc then l.acked + [l.off] else l.acked
  {
    if l.crc != crc {
      Again(l, crc16);
    } else {
      var l1 := l.(acked := l.acked + [l.off]);
      assert l1.off == Min(CHUNK * |l1.acked|, |l1.image|);
      SendSane(l1, crc16);
    }
  }

  /** A repeat sends exactly the same request once more, and nothing else changes. */
  lemma Again(l: Load, crc16: seq<Byte> -> nat)
    requires Sane(l, crc16) && !l.quit
    ensures Sane(OnTimeout(l, crc16), crc16)
    ensures OnTimeout(l, crc16) == l.(sent := l.sent + [l.sent[|l.sent| - 1]])
  {}

  // ---------------------------------------------------------------- both ends

  type Store = map<nat, Byte>

  /** A reply on its way back: the checksum of what arrived, and for which request it arrived. */
  datatype Reply = Reply(crc: nat, request: nat)

  datatype World = World(load: Load, store: Store, replies: seq<Reply>, aborted: bool)

  /**
    What can happen: a message arrives where one of the requests sent so far was put on the line,
    and is answered; one of the replies on the way is delivered; the timer expires; a reply to
    another command comes; a reply nobody knows comes, which ends the program. What arrives may be
    damaged. What never arrives is lost, and what arrives after later requests were sent is late.
   */
  datatype Event =
    | Arrive(request: nat, got: Request)
    | Deliver(reply: nat, crc: nat)
    | Timeout
    | Other
    | Unknown

  ghost function Written(m: Store, address: nat, data: seq<Byte>): Store
    decreases |data|
  {
    if data == [] then m else Written(m[address % WORD := data[0]], address + 1, data[1..])
  }

  /** LOADER_MEM_WRITE at the phone: data are written only if their checksum is the one that came with them. */
  ghost function Taken(m: Store, q: Request, crc16: seq<Byte> -> nat): Store {
    if crc16(q.data) == q.crc then Written(m, q.address, q.data) else m
  }

  ghost function Step(w: World, e: Event, crc16: seq<Byte> -> nat): (r: World)
    requires Sane(w.load, crc16)
    ensures Sane(r.load, crc16) && r.load.image == w.load.image && r.load.base == w.load.base
  {
    var l := w.load;
    if l.quit || w.aborted then w
    else
      match e
      case Arrive(i, got) =>
        if i >= |l.sent| then w
        else w.(store := Taken(w.store, got, crc16), replies := w.replies + [Reply(crc16(got.data), i)])
      case Deliver(j, crc) =>
        if j >= |w.replies| then w
        else
          ReplySane(l, crc, crc16);
          w.(load := OnReply(l, crc, crc16))
      case Timeout =>
        Again(l, crc16);
        w.(load := OnTimeout(l, crc16))
      case Other => w
      case Unknown => w.(aborted := true)
  }

  ghost function Run(w: World, events: seq<Event>, crc16: seq<Byte> -> nat): (r: World)
    requires Sane(w.load, crc16)
    ensures Sane(r.load, crc16) && r.load.image == w.load.image && r.load.base == w.load.base
    decreases |events|
  {
    if events == [] then w else Run(Step(w, events[0], crc16), events[1..], crc16)
  }

  /** A load that was just started. */
  ghost function Begun(image: seq<Byte>, base: nat, crc16: seq<Byte> -> nat, store: Store): (w: World)
    ensures Sane(w.load, crc16) && w.load.image == image && w.load.base == base
  {
    StartSane(image, base, crc16);
    World(Start(image, base, crc16), store, [], false)
  }

  /**
    Whatever happens, the loader is only done once every chunk, in ascending order, was confirmed
    by a reply with the checksum of that chunk, which was then the one sent last.
   */
  lemma DoneIsConfirmed(image: seq<Byte>, base: nat, events: seq<Event>, crc16: seq<Byte> -> nat, store: Store)
    ensures var l := Run(Begun(image, base, crc16, store), events, crc16).load;
      l.quit ==> |l.acked| == (|image| + CHUNK - 1) / CHUNK && forall i :: 0 <= i < |l.acked| ==>
        l.acked[i] == End(image, i)
  {
    var l := Run(Begun(image, base, crc16, store), events, crc16).load;
    if l.quit { Chunks(|image|, |l.acked|); }
  }

  lemma Chunks(n: nat, k: nat)
    requires CHUNK * k >= n && (k > 0 ==> CHUNK * (k - 1) < n)
    ensures k == (n + CHUNK - 1) / CHUNK
  {}

  // ---------------------------------------------------------------- what is in the phone's memory

  ghost predicate InStore(m: Store, address: nat, b: Byte) {
    address % WORD in m && m[address % WORD] == b
  }

  /** The bytes of the image from one offset to another are where they belong. */
  ghost predicate Arrived(m: Store, image: seq<Byte>, base: nat, from: nat, to: nat)
    requires to <= |image|
  {
    forall k :: from <= k < to ==> InStore(m, base + k, image[k])
  }

  /** How much of the image is confirmed. */
  ghost function Confirmed(l: Load): (n: nat)
    ensures n <= |l.image|
  {
    Min(CHUNK * |l.acked|, |l.image|)
  }

  /** Addresses less than a word apart differ. */
  lemma DifferentAddresses(a: nat, c: nat)
    requires a < c < a + WORD || c < a < c + WORD
    ensures a % WORD != c % WORD
  {}

  /** Writing changes the written addresses and leaves all others alone. */
  lemma {:induction false} WrittenAt(m: Store, address: nat, data: seq<Byte>, a: nat)
    requires a < address + WORD && address + |data| <= a + WORD
    ensures var m' := Written(m, address, data);
      if address <= a < address + |data| then a % WORD in m' && m'[a % WORD] == data[a - address]
      else (a % WORD in m' <==> a % WORD in m) && (a % WORD in m ==> m'[a % WORD] == m[a % WORD])
    decreases |data|
  {
    if data != [] {
      if a != address { DifferentAddresses(a, address); }
      WrittenAt(m[address % WORD := data[0]], address + 1, data[1..], a);
    }
  }

  lemma WrittenModulo(m: Store, address: nat, data: seq<Byte>)
    ensures Written(m, address % WORD, data) == Written(m, address, data)
    decreases |data|
  {
    if data != [] {
      var m1 := m[address % WORD := data[0]];
      WrittenModulo(m1, address % WORD + 1, data[1..]);
      WrittenModulo(m1, address + 1, data[1..]);
      NextModulo(address);
    }
  }

  lemma NextModulo(address: nat)
    ensures (address % WORD + 1) % WORD == (address + 1) % WORD
  {}

  /** A stretch of the image that arrives leaves what lies before and behind it alone. */
  lemma StretchArrives(m: Store, image: seq<Byte>, base: nat, at: nat, data: seq<Byte>, from: nat, to: nat)
    requires at + |data| <= |image| < WORD && to <= |image| && Arrived(m, image, base, from, to)
    requires to <= at || at + |data| <= from || data == image[at..at + |data|]
    ensures Arrived(Written(m, (base + at) % WORD, data), image, base, from, to)
    ensures data == image[at..at + |data|] ==>
      Arrived(Written(m, (base + at) % WORD, data), image, base, at, at + |data|)
  {
    WrittenModulo(m, base + at, data);
    var m' := Written(m, base + at, data);
    forall k | from <= k < to ensures InStore(m', base + k, image[k]) {
      WrittenAt(m, base + at, data, base + k);
    }
    if data == image[at..at + |data|] {
      forall k | at <= k < at + |data| ensures InStore(m', base + k, image[k]) {
        WrittenAt(m, base + at, data, base + k);
      }
    }
  }

  // ---------------------------------------------------------------- every request is for a chunk

  ghost predicate ForChunk(l: Load, q: Request, i: nat, crc16: seq<Byte> -> nat) {
    CHUNK * i < |l.image| && q == ChunkRequest(l, i, crc16)
  }

  ghost predicate SentChunks(l: Load, crc16: seq<Byte> -> nat) {
    forall q :: q in l.sent ==> exists i :: ForChunk(l, q, i, crc16)
  }

  lemma StartSends(image: seq<Byte>, base: nat, crc16: seq<Byte> -> nat)
    ensures SentChunks(Start(image, base, crc16), crc16)
  {
    var l := Start(image, base, crc16);
    StartSane(image, base, crc16);
    if l.sent != [] { assert ForChunk(l, l.sent[0], 0, crc16); }
  }

  /** A step sends nothing, or a request for the chunk that is not confirmed yet. */
  lemma StepAdds(w: World, e: Event, crc16: seq<Byte> -> nat)
    requires Sane(w.load, crc16)
    ensures var l, l' := w.load, Step(w, e, crc16).load;
      l'.sent == l.sent || (!l'.quit && |l'.sent| == |l.sent| + 1 && l.sent <= l'.sent)
  {}

  lemma StepSends(w: World, e: Event, crc16: seq<Byte> -> nat)
    requires Sane(w.load, crc16) && SentChunks(w.load, crc16)
    ensures SentChunks(Step(w, e, crc16).load, crc16)
    ensures w.load.sent <= Step(w, e, crc16).load.sent
  {
    hide Step;
    StepAdds(w, e, crc16);
    var l, l' := w.load, Step(w, e, crc16).load;
    forall q | q in l'.sent ensures exists i :: ForChunk(l', q, i, crc16) {
      if q in l.sent {
        var i :| ForChunk(l, q, i, crc16);
        assert ForChunk(l', q, i, crc16);
      } else {
        assert q == l'.sent[|l'.sent| - 1];
        assert ForChunk(l', q, |l'.acked|, crc16);
      }
    }
  }

  // ---------------------------------------------------------------- nothing is late

  /**
    Requests arrive and are answered before the next one is sent, or not at all. What is damaged
    on the way is noticed: damaged data have neither the checksum that came with them nor the
    one of the request, and a damaged reply does not have that of the request.
   */
  ghost predicate Prompt(w: World, e: Event, crc16: seq<Byte> -> nat)
    requires Sane(w.load, crc16)
  {
    var sent := w.load.sent;
    match e
    case Arrive(i, q) =>
      i == |sent| - 1 && (q != sent[i] ==> crc16(q.data) != q.crc && crc16(q.data) != sent[i].crc)
    case Deliver(j, c) =>
      && j == |w.replies| - 1 && w.replies[j].request == |sent| - 1
      && (c != w.replies[j].crc ==> c != w.load.crc)
    case _ => true
  }

  ghost predicate AllPrompt(w: World, events: seq<Event>, crc16: seq<Byte> -> nat)
    requires Sane(w.load, crc16)
    decreases |events|
  {
    events == [] || (Prompt(w, events[0], crc16) && AllPrompt(Step(w, events[0], crc16), events[1..], crc16))
  }

  /** What is confirmed is there; and the request answered last, if it arrived undamaged. */
  ghost predicate PromptOk(w: World, crc16: seq<Byte> -> nat) {
    var l := w.load;
    && Sane(l, crc16) && |l.image| < WORD
    && Arrived(w.store, l.image, l.base, 0, Confirmed(l))
    && (!l.quit && w.replies != [] && w.replies[|w.replies| - 1] == Reply(l.crc, |l.sent| - 1) ==>
          Arrived(w.store, l.image, l.base, l.off - l.req, l.off))
    && (w.replies != [] ==> w.replies[|w.replies| - 1].request < |l.sent|)
  }

  lemma StepPrompt(w: World, e: Event, crc16: seq<Byte> -> nat)
    requires PromptOk(w, crc16) && Prompt(w, e, crc16)
    ensures PromptOk(Step(w, e, crc16), crc16)
  {
    hide Written, Send;
    var l := w.load;
    if !l.quit && !w.aborted {
      if e.Arrive? {
        if e.got == l.sent[e.request] {
          StretchArrives(w.store, l.image, l.base, l.off - l.req, e.got.data, 0, Confirmed(l));
        }
      } else if e.Deliver? {
        DeliverPrompt(w, e.reply, e.crc, crc16);
      } else if e.Timeout? {
        Again(l, crc16);
      }
    }
  }

  lemma DeliverPrompt(w: World, j: nat, c: nat, crc16: seq<Byte> -> nat)
    requires PromptOk(w, crc16) && Prompt(w, Deliver(j, c), crc16) && !w.load.quit && !w.aborted
    ensures PromptOk(Step(w, Deliver(j, c), crc16), crc16)
  {
    hide Send, Arrived, Step, OnReply;
    var l := w.load;
    ReplySane(l, c, crc16);
    StepAdds(w, Deliver(j, c), crc16);
    StepDelivers(w, j, c, crc16);
    if c == l.crc { Extended(w.store, l.image, l.base, l.off - l.req, l.off); }
  }

  lemma StepDelivers(w: World, j: nat, c: nat, crc16: seq<Byte> -> nat)
    requires Sane(w.load, crc16) && !w.load.quit && !w.aborted && j < |w.replies|
    ensures Step(w, Deliver(j, c), crc16) == w.(load := OnReply(w.load, c, crc16))
  {}

  lemma Extended(m: Store, image: seq<Byte>, base: nat, from: nat, to: nat)
    requires from <= to <= |image| && Arrived(m, image, base, 0, from) && Arrived(m, image, base, from, to)
    ensures Arrived(m, image, base, 0, to)
  {}

  lemma {:induction false} RunPrompt(w: World, events: seq<Event>, crc16: seq<Byte> -> nat)
    requires PromptOk(w, crc16) && AllPrompt(w, events, crc16)
    ensures PromptOk(Run(w, events, crc16), crc16)
    decreases |events|
  {
    hide PromptOk, Prompt, Step;
    if events != [] {
      PromptSane(w, crc16);
      StepPrompt(w, events[0], crc16);
      RunPrompt(Step(w, events[0], crc16), events[1..], crc16);
    }
  }

  lemma PromptSane(w: World, crc16: seq<Byte> -> nat)
    requires PromptOk(w, crc16)
    ensures Sane(w.load, crc16) && |w.load.image| < WORD
    ensures w.load.quit ==> Arrived(w.store, w.load.image, w.load.base, 0, |w.load.image|)
  {}

  /** Over a line without delays, once the loader is done the whole image is in the phone's memory. */
  lemma DoneIsLoaded(image: seq<Byte>, base: nat, events: seq<Event>, crc16: seq<Byte> -> nat, store: Store)
    requires |image| < WORD && AllPrompt(Begun(image, base, crc16, store), events, crc16)
    ensures var w := Run(Begun(image, base, crc16, store), events, crc16);
      w.load.quit ==> Arrived(w.store, image, base, 0, |image|)
  {
    hide PromptOk, Prompt, Step;
    BegunPrompt(image, base, crc16, store);
    RunPrompt(Begun(image, base, crc16, store), events, crc16);
    PromptSane(Run(Begun(image, base, crc16, store), events, crc16), crc16);
  }

  lemma BegunPrompt(image: seq<Byte>, base: nat, crc16: seq<Byte> -> nat, store: Store)
    requires |image| < WORD
    ensures PromptOk(Begun(image, base, crc16, store), crc16)
  {}

  // ---------------------------------------------------------------- late, lost and damaged

  ghost function ChunkCrc(image: seq<Byte>, i: nat, crc16: seq<Byte> -> nat): nat
    requires CHUNK * i < |image|
  {
    crc16(image[CHUNK * i..End(image, i)])
  }

  /** No two chunks of the image have the same checksum. */
  ghost predicate DistinctChecksums(image: seq<Byte>, crc16: seq<Byte> -> nat) {
    forall i, j :: 0 <= i < j && CHUNK * j < |image| ==> ChunkCrc(image, i, crc16) != ChunkCrc(image, j, crc16)
  }

  /** A checksum the loader may be waiting for. */
  ghost predicate IsChunkCrc(image: seq<Byte>, c: nat, crc16: seq<Byte> -> nat) {
    exists i :: 0 <= i && CHUNK * i < |image| && c == ChunkCrc(image, i, crc16)
  }

  ghost predicate Undamaged(w: World, e: Event) {
    && (e.Arrive? && e.request < |w.load.sent| ==> e.got == w.load.sent[e.request])
    && (e.Deliver? && e.reply < |w.replies| ==> e.crc == w.replies[e.reply].crc)
  }

  /**
    What is damaged is noticed: damaged data have neither the checksum that came with them nor
    one of a chunk of the image, and a damaged reply has none of a chunk either.
   */
  ghost predicate Noticed(w: World, e: Event, crc16: seq<Byte> -> nat) {
    var image := w.load.image;
    && (e.Arrive? && e.request < |w.load.sent| && e.got != w.load.sent[e.request] ==>
          crc16(e.got.data) != e.got.crc && !IsChunkCrc(image, crc16(e.got.data), crc16))
    && (e.Deliver? && e.reply < |w.replies| && e.crc != w.replies[e.reply].crc ==> !IsChunkCrc(image, e.crc, crc16))
  }

  /** Requests and replies may be lost, late, repeated and overtake each other, but are not damaged. */
  ghost predicate AllUndamaged(w: World, events: seq<Event>, crc16: seq<Byte> -> nat)
    requires Sane(w.load, crc16)
    decreases |events|
  {
    events == [] || (Undamaged(w, events[0]) && AllUndamaged(Step(w, events[0], crc16), events[1..], crc16))
  }

  /** They may also be damaged, if that is noticed. */
  ghost predicate AllNoticed(w: World, events: seq<Event>, crc16: seq<Byte> -> nat)
    requires Sane(w.load, crc16)
    decreases |events|
  {
    events == [] || (Noticed(w, events[0], crc16) && AllNoticed(Step(w, events[0], crc16), events[1..], crc16))
  }

  lemma {:induction false} UndamagedNoticed(w: World, events: seq<Event>, crc16: seq<Byte> -> nat)
    requires Sane(w.load, crc16) && AllUndamaged(w, events, crc16)
    ensures AllNoticed(w, events, crc16)
    decreases |events|
  {
    hide Step, Sane, IsChunkCrc;
    if events != [] { UndamagedNoticed(Step(w, events[0], crc16), events[1..], crc16); }
  }

  /** A reply on the way with the checksum of a chunk says that such a chunk is in the phone's memory. */
  ghost predicate Backed(w: World, r: Reply, i: nat, crc16: seq<Byte> -> nat) {
    var image := w.load.image;
    CHUNK * i < |image| && r.crc == ChunkCrc(image, i, crc16)
    && Arrived(w.store, image, w.load.base, CHUNK * i, End(image, i))
  }

  ghost predicate AllBacked(w: World, crc16: seq<Byte> -> nat) {
    forall r :: r in w.replies && IsChunkCrc(w.load.image, r.crc, crc16) ==> exists i :: Backed(w, r, i, crc16)
  }

  ghost predicate LateOk(w: World, crc16: seq<Byte> -> nat) {
    var l := w.load;
    && Sane(l, crc16) && SentChunks(l, crc16) && |l.image| < WORD
    && Arrived(w.store, l.image, l.base, 0, Confirmed(l))
    && AllBacked(w, crc16)
  }

  lemma StepLate(w: World, e: Event, crc16: seq<Byte> -> nat)
    requires LateOk(w, crc16) && Noticed(w, e, crc16) && DistinctChecksums(w.load.image, crc16)
    ensures LateOk(Step(w, e, crc16), crc16)
  {
    hide Written, Arrived, SentChunks, IsChunkCrc, AllBacked, DistinctChecksums;
    StepSends(w, e, crc16);
    var l := w.load;
    if !l.quit && !w.aborted {
      if e.Arrive? && e.request < |l.sent| {
        if e.got == l.sent[e.request] {
          ArriveLate(w, e, crc16);
        } else {
          OneUnbacked(w, Step(w, e, crc16), crc16(e.got.data), e.request, crc16);
        }
      } else if e.Deliver? && e.reply < |w.replies| {
        DeliverLate(w, e, crc16);
        SameStore(w, Step(w, e, crc16), crc16);
      } else {
        SameStore(w, Step(w, e, crc16), crc16);
      }
    }
  }

  lemma SameStore(w: World, w': World, crc16: seq<Byte> -> nat)
    requires AllBacked(w, crc16) && w'.store == w.store && w'.replies == w.replies
    requires w'.load.image == w.load.image && w'.load.base == w.load.base
    ensures AllBacked(w', crc16)
  {
    hide IsChunkCrc;
    forall r | r in w'.replies && IsChunkCrc(w'.load.image, r.crc, crc16) ensures exists i :: Backed(w', r, i, crc16) {
      var i :| Backed(w, r, i, crc16);
      assert Backed(w', r, i, crc16);
    }
  }

  /** The answer to something damaged promises nothing. */
  lemma OneUnbacked(w: World, w': World, c: nat, i: nat, crc16: seq<Byte> -> nat)
    requires AllBacked(w, crc16) && w' == w.(replies := w.replies + [Reply(c, i)])
    requires !IsChunkCrc(w.load.image, c, crc16)
    ensures AllBacked(w', crc16)
  {
    hide IsChunkCrc;
    forall r | r in w'.replies && IsChunkCrc(w'.load.image, r.crc, crc16) ensures exists i :: Backed(w', r, i, crc16) {
      assert r in w.replies;
      var i :| Backed(w, r, i, crc16);
      assert Backed(w', r, i, crc16);
    }
  }

  lemma ArriveLate(w: World, e: Event, crc16: seq<Byte> -> nat)
    requires LateOk(w, crc16) && !w.load.quit && !w.aborted
    requires e.Arrive? && e.request < |w.load.sent| && e.got == w.load.sent[e.request]
    ensures AllBacked(Step(w, e, crc16), crc16)
    ensures Arrived(Step(w, e, crc16).store, w.load.image, w.load.base, 0, Confirmed(w.load))
  {
    hide Written, Arrived, IsChunkCrc;
    var l, w' := w.load, Step(w, e, crc16);
    var q := e.got;
    assert q in l.sent;
    var i :| ForChunk(l, q, i, crc16);
    assert q.data == l.image[CHUNK * i..CHUNK * i + |q.data|];
    StretchArrives(w.store, l.image, l.base, CHUNK * i, q.data, 0, Confirmed(l));
    StillBacked(w, w', i, crc16);
    assert Backed(w', w'.replies[|w.replies|], i, crc16);
  }

  /** When chunk i is written, what the replies so far say stays true. */
  lemma StillBacked(w: World, w': World, i: nat, crc16: seq<Byte> -> nat)
    requires AllBacked(w, crc16) && |w.load.image| < WORD && CHUNK * i < |w.load.image|
    requires w'.load.image == w.load.image && w'.load.base == w.load.base
    requires w'.store == Written(w.store, (w.load.base + CHUNK * i) % WORD,
      w.load.image[CHUNK * i..End(w.load.image, i)])
    ensures forall r :: r in w.replies && IsChunkCrc(w.load.image, r.crc, crc16) ==> exists k :: Backed(w', r, k, crc16)
  {
    hide Written, Arrived, IsChunkCrc;
    var image, base := w.load.image, w.load.base;
    forall r | r in w.replies && IsChunkCrc(image, r.crc, crc16) ensures exists k :: Backed(w', r, k, crc16) {
      var k :| Backed(w, r, k, crc16);
      StretchArrives(w.store, image, base, CHUNK * i, image[CHUNK * i..End(image, i)], CHUNK * k, End(image, k));
      assert Backed(w', r, k, crc16);
    }
  }

  /** The checksum tells which chunk was confirmed. */
  lemma DeliverLate(w: World, e: Event, crc16: seq<Byte> -> nat)
    requires LateOk(w, crc16) && DistinctChecksums(w.load.image, crc16) && !w.load.quit
    requires e.Deliver? && e.reply < |w.replies| && Noticed(w, e, crc16)
    ensures Sane(OnReply(w.load, e.crc, crc16), crc16)
    ensures Arrived(w.store, w.load.image, w.load.base, 0, Confirmed(OnReply(w.load, e.crc, crc16)))
  {
    var l := w.load;
    ReplySane(l, e.crc, crc16);
    if e.crc == l.crc {
      assert l.crc == ChunkCrc(l.image, |l.acked|, crc16);
      assert IsChunkCrc(l.image, l.crc, crc16);
      var i :| Backed(w, w.replies[e.reply], i, crc16);
      assert i == |l.acked|;
    }
  }

  lemma {:induction false} RunLate(w: World, events: seq<Event>, crc16: seq<Byte> -> nat)
    requires LateOk(w, crc16) && AllNoticed(w, events, crc16) && DistinctChecksums(w.load.image, crc16)
    ensures LateOk(Run(w, events, crc16), crc16)
    decreases |events|
  {
    hide LateOk, Noticed, Step, DistinctChecksums;
    if events != [] {
      LateSane(w, crc16);
      StepLate(w, events[0], crc16);
      RunLate(Step(w, events[0], crc16), events[1..], crc16);
    }
  }

  lemma LateSane(w: World, crc16: seq<Byte> -> nat)
    requires LateOk(w, crc16)
    ensures Sane(w.load, crc16) && |w.load.image| < WORD
    ensures w.load.quit ==> Arrived(w.store, w.load.image, w.load.base, 0, |w.load.image|)
  {}

  lemma BegunLate(image: seq<Byte>, base: nat, crc16: seq<Byte> -> nat, store: Store)
    requires |image| < WORD
    ensures LateOk(Begun(image, base, crc16, store), crc16)
  {
    StartSends(image, base, crc16);
  }

  /** A load that is done has put the image into the memory, whatever was lost, late or damaged on the way. */
  ghost predicate AlwaysLoads(image: seq<Byte>, base: nat, crc16: seq<Byte> -> nat) {
    forall store, events :: AllNoticed(Begun(image, base, crc16, store), events, crc16) ==>
      LoadedIfDone(Run(Begun(image, base, crc16, store), events, crc16))
  }

  /** The same over a line that damages nothing. */
  ghost predicate AlwaysLoadsUndamaged(image: seq<Byte>, base: nat, crc16: seq<Byte> -> nat) {
    forall store, events :: AllUndamaged(Begun(image, base, crc16, store), events, crc16) ==>
      LoadedIfDone(Run(Begun(image, base, crc16, store), events, crc16))
  }

  ghost predicate LoadedIfDone(w: World) {
    w.load.quit ==> Arrived(w.store, w.load.image, w.load.base, 0, |w.load.image|)
  }

  /**
    Over a line that loses, delays, repeats, reorders and damages, as long as damage is noticed, a
    load that is done is right in every run exactly if no two chunks of the image have the same
    checksum; and it is no better over a line that damages nothing.
   */
  lemma AlwaysLoadsIff(image: seq<Byte>, base: nat, crc16: seq<Byte> -> nat)
    requires |image| < WORD
    ensures AlwaysLoads(image, base, crc16) <==> DistinctChecksums(image, crc16)
    ensures AlwaysLoadsUndamaged(image, base, crc16) <==> DistinctChecksums(image, crc16)
  {
    hide LateOk, Noticed, Undamaged, Step, DistinctChecksums, LoadedIfDone;
    if DistinctChecksums(image, crc16) {
      forall store, events | AllNoticed(Begun(image, base, crc16, store), events, crc16)
        ensures LoadedIfDone(Run(Begun(image, base, crc16, store), events, crc16))
      {
        DistinctLoads(image, base, events, crc16, store);
      }
      forall store, events | AllUndamaged(Begun(image, base, crc16, store), events, crc16)
        ensures LoadedIfDone(Run(Begun(image, base, crc16, store), events, crc16))
      {
        UndamagedNoticed(Begun(image, base, crc16, store), events, crc16);
        DistinctLoads(image, base, events, crc16, store);
      }
    } else {
      var i, j := SameChecksum(image, crc16);
      var events := StrayedRun(image, base, crc16, i, j);
      UndamagedNoticed(Begun(image, base, crc16, map[]), events, crc16);
      assert !LoadedIfDone(Run(Begun(image, base, crc16, map[]), events, crc16));
    }
  }

  lemma DistinctLoads(image: seq<Byte>, base: nat, events: seq<Event>, crc16: seq<Byte> -> nat, store: Store)
    requires |image| < WORD && DistinctChecksums(image, crc16)
      && AllNoticed(Begun(image, base, crc16, store), events, crc16)
    ensures LoadedIfDone(Run(Begun(image, base, crc16, store), events, crc16))
  {
    hide LateOk, Noticed, Step, DistinctChecksums;
    BegunLate(image, base, crc16, store);
    RunLate(Begun(image, base, crc16, store), events, crc16);
    LateSane(Run(Begun(image, base, crc16, store), events, crc16), crc16);
  }

  lemma SameChecksum(image: seq<Byte>, crc16: seq<Byte> -> nat) returns (i: nat, j: nat)
    requires !DistinctChecksums(image, crc16)
    ensures i < j && CHUNK * j < |image| && ChunkCrc(image, i, crc16) == ChunkCrc(image, j, crc16)
  {
    i, j :| 0 <= i < j && CHUNK * j < |image| && ChunkCrc(image, i, crc16) == ChunkCrc(image, j, crc16);
  }

  // ---------------------------------------------------------------- a reply that is taken for another's

  /** In the middle of a load of which chunk j has not arrived. */
  ghost predicate Before(w: World, image: seq<Byte>, base: nat, n: nat, j: nat, crc16: seq<Byte> -> nat) {
    && w.load.image == image && w.load.base == base && Sane(w.load, crc16) && !w.aborted
    && |w.load.acked| == n && CHUNK * j < |image| < WORD
    && (base + CHUNK * j) % WORD !in w.store
    && (CHUNK * n < |image| ==> !w.load.quit)
  }

  /** Chunks from n to m arrive and are confirmed in time. */
  lemma {:induction false} AnswersTo(w: World, image: seq<Byte>, base: nat, n: nat, m: nat, j: nat,
      crc16: seq<Byte> -> nat)
    returns (events: seq<Event>)
    requires Before(w, image, base, n, j, crc16) && n <= m && (m <= j || j < n) && (m == n || CHUNK * (m - 1) < |image|)
    ensures AllUndamaged(w, events, crc16) && Before(Run(w, events, crc16), image, base, m, j, crc16)
    ensures w.replies <= Run(w, events, crc16).replies
    decreases m - n
  {
    hide Step, Before, Undamaged;
    BeforeSane(w, image, base, n, j, crc16);
    events := [];
    if n < m {
      var e1, e2, w2 := OneConfirmed(w, image, base, n, j, crc16);
      var rest := AnswersTo(w2, image, base, n + 1, m, j, crc16);
      events := [e1, e2] + rest;
      assert events[1..] == [e2] + rest && ([e2] + rest)[1..] == rest;
    }
  }

  lemma BeforeSane(w: World, image: seq<Byte>, base: nat, n: nat, j: nat, crc16: seq<Byte> -> nat)
    requires Before(w, image, base, n, j, crc16)
    ensures Sane(w.load, crc16)
    ensures CHUNK * n < |image| ==> w.load.sent != []
    ensures CHUNK * n >= |image| ==> w.load.quit && !LoadedIfDone(w)
  {
    if CHUNK * n >= |image| {
      assert !InStore(w.store, base + CHUNK * j, image[CHUNK * j]);
    }
  }

  /** The outstanding chunk arrives. */
  lemma OneArrives(w: World, image: seq<Byte>, base: nat, n: nat, j: nat, crc16: seq<Byte> -> nat)
    returns (e: Event, w1: World)
    requires Before(w, image, base, n, j, crc16) && CHUNK * n < |image| && n != j
    ensures Sane(w.load, crc16)
    ensures Undamaged(w, e) && w1 == Step(w, e, crc16) && Before(w1, image, base, n, j, crc16) && w1.load == w.load
    ensures |w1.replies| == |w.replies| + 1 && w.replies <= w1.replies
    ensures w1.replies[|w.replies|].crc == ChunkCrc(image, n, crc16)
  {
    hide Written, Send, Arrived;
    var q := w.load.sent[|w.load.sent| - 1];
    e := Arrive(|w.load.sent| - 1, q);
    w1 := Step(w, e, crc16);
    WrittenModulo(w.store, base + CHUNK * n, q.data);
    ChunksApart(n, j);
    WrittenAt(w.store, base + CHUNK * n, q.data, base + CHUNK * j);
  }

  /** A reply with the checksum of the outstanding chunk comes. */
  lemma OneDelivered(w: World, image: seq<Byte>, base: nat, n: nat, j: nat, k: nat, crc16: seq<Byte> -> nat)
    returns (e: Event, w1: World)
    requires Before(w, image, base, n, j, crc16) && CHUNK * n < |image|
    requires k < |w.replies| && w.replies[k].crc == ChunkCrc(image, n, crc16)
    ensures Sane(w.load, crc16) && w1 == Step(w, e, crc16) && Undamaged(w, e)
    ensures Before(w1, image, base, n + 1, j, crc16) && w1.replies == w.replies
  {
    e := Deliver(k, w.replies[k].crc);
    w1 := Step(w, e, crc16);
    ReplySane(w.load, w.load.crc, crc16);
  }

  /** The outstanding chunk arrives and is confirmed. */
  lemma OneConfirmed(w: World, image: seq<Byte>, base: nat, n: nat, j: nat, crc16: seq<Byte> -> nat)
    returns (e1: Event, e2: Event, w2: World)
    requires Before(w, image, base, n, j, crc16) && CHUNK * n < |image| && n != j
    ensures Sane(w.load, crc16) && Undamaged(w, e1) && Undamaged(Step(w, e1, crc16), e2)
    ensures w2 == Step(Step(w, e1, crc16), e2, crc16)
    ensures Before(w2, image, base, n + 1, j, crc16) && w.replies <= w2.replies
  {
    hide Before, Sane, Step;
    var w1;
    e1, w1 := OneArrives(w, image, base, n, j, crc16);
    e2, w2 := OneDelivered(w1, image, base, n, j, |w.replies|, crc16);
  }

  lemma ChunksApart(n: nat, j: nat)
    requires n != j
    ensures CHUNK * n + CHUNK <= CHUNK * j || CHUNK * j + CHUNK <= CHUNK * n
  {}

  /**
    Chunk i arrives, but the timer is faster than the reply; the repeated request is answered in
    time. The first reply comes when chunk j is outstanding, and is taken for the reply to it.
   */
  lemma StrayedRun(image: seq<Byte>, base: nat, crc16: seq<Byte> -> nat, i: nat, j: nat) returns (events: seq<Event>)
    requires |image| < WORD && i < j && CHUNK * j < |image|
    requires ChunkCrc(image, i, crc16) == ChunkCrc(image, j, crc16)
    ensures AllUndamaged(Begun(image, base, crc16, map[]), events, crc16)
    ensures !LoadedIfDone(Run(Begun(image, base, crc16, map[]), events, crc16))
  {
    hide Step, Before, Undamaged, LoadedIfDone, Run, AllUndamaged, Begun, Sane;
    var w0 := Begun(image, base, crc16, map[]);
    BegunBefore(image, base, crc16, j);
    var a := AnswersTo(w0, image, base, 0, i, j, crc16);
    var w1 := Run(w0, a, crc16);
    var e1, e2, w2 := ArrivesTooLate(w1, image, base, i, j, crc16);
    var k := |w1.replies|;
    var b := AnswersTo(w2, image, base, i, j, j, crc16);
    var w3 := Run(w2, b, crc16);
    assert w3.replies[k].crc == ChunkCrc(image, i, crc16);
    var e3, w4 := OneDelivered(w3, image, base, j, j, k, crc16);
    var n := (|image| + CHUNK - 1) / CHUNK;
    var c := AnswersTo(w4, image, base, j + 1, n, j, crc16);
    BeforeSane(Run(w4, c, crc16), image, base, n, j, crc16);
    BeforeSane(w1, image, base, i, j, crc16);
    BeforeSane(w2, image, base, i, j, crc16);
    BeforeSane(w3, image, base, j, j, crc16);
    BeforeSane(w4, image, base, j + 1, j, crc16);
    TwoSteps(w1, e1, e2, crc16);
    OneStep(w3, e3, crc16);
    events := AllJoined(w0, a, [e1, e2], b, [e3], c, crc16);
  }

  lemma AllJoined(w: World, a: seq<Event>, b: seq<Event>, c: seq<Event>, d: seq<Event>, e: seq<Event>,
      crc16: seq<Byte> -> nat)
    returns (events: seq<Event>)
    requires Sane(w.load, crc16)
    ensures var w1 := Run(w, a, crc16);
      var w2 := Run(w1, b, crc16);
      var w3 := Run(w2, c, crc16);
      var w4 := Run(w3, d, crc16);
      && Run(w, events, crc16) == Run(w4, e, crc16)
      && (AllUndamaged(w, events, crc16) <==>
            && AllUndamaged(w, a, crc16) && AllUndamaged(w1, b, crc16) && AllUndamaged(w2, c, crc16)
            && AllUndamaged(w3, d, crc16) && AllUndamaged(w4, e, crc16))
  {
    hide Step, Undamaged, Sane, Run, AllUndamaged;
    Joined(w, a, b, crc16);
    Joined(w, a + b, c, crc16);
    Joined(w, a + b + c, d, crc16);
    Joined(w, a + b + c + d, e, crc16);
    events := a + b + c + d + e;
  }

  lemma BegunBefore(image: seq<Byte>, base: nat, crc16: seq<Byte> -> nat, j: nat)
    requires CHUNK * j < |image| < WORD
    ensures Before(Begun(image, base, crc16, map[]), image, base, 0, j, crc16)
  {}

  lemma ArrivesTooLate(w: World, image: seq<Byte>, base: nat, i: nat, j: nat, crc16: seq<Byte> -> nat)
    returns (e1: Event, e2: Event, w2: World)
    requires Before(w, image, base, i, j, crc16) && i < j
    ensures Sane(w.load, crc16) && Undamaged(w, e1) && Undamaged(Step(w, e1, crc16), e2)
    ensures w2 == Step(Step(w, e1, crc16), e2, crc16) && Before(w2, image, base, i, j, crc16)
    ensures |w2.replies| == |w.replies| + 1 && w2.replies[|w.replies|].crc == ChunkCrc(image, i, crc16)
  {
    hide Written, Send, Step;
    var w1;
    e1, w1 := OneArrives(w, image, base, i, j, crc16);
    e2 := Timeout;
    w2 := RunsOut(w1, image, base, i, j, crc16);
  }

  lemma RunsOut(w: World, image: seq<Byte>, base: nat, n: nat, j: nat, crc16: seq<Byte> -> nat) returns (w1: World)
    requires Before(w, image, base, n, j, crc16) && CHUNK * n < |image|
    ensures Sane(w.load, crc16) && w1 == Step(w, Timeout, crc16) && Undamaged(w, Timeout)
    ensures Before(w1, image, base, n, j, crc16) && w1.replies == w.replies
  {
    hide OnTimeout, Send;
    w1 := Step(w, Timeout, crc16);
    Again(w.load, crc16);
  }

  lemma OneStep(w: World, e: Event, crc16: seq<Byte> -> nat)
    requires Sane(w.load, crc16) && Undamaged(w, e)
    ensures AllUndamaged(w, [e], crc16) && Run(w, [e], crc16) == Step(w, e, crc16)
  {}

  lemma TwoSteps(w: World, e1: Event, e2: Event, crc16: seq<Byte> -> nat)
    requires Sane(w.load, crc16) && Undamaged(w, e1) && Undamaged(Step(w, e1, crc16), e2)
    ensures AllUndamaged(w, [e1, e2], crc16) && Run(w, [e1, e2], crc16) == Step(Step(w, e1, crc16), e2, crc16)
  {
    hide Step, Undamaged;
    OneStep(Step(w, e1, crc16), e2, crc16);
    assert [e1, e2][1..] == [e2];
  }

  lemma {:induction false} Joined(w: World, a: seq<Event>, b: seq<Event>, crc16: seq<Byte> -> nat)
    requires Sane(w.load, crc16)
    ensures Run(w, a + b, crc16) == Run(Run(w, a, crc16), b, crc16)
    ensures AllUndamaged(w, a + b, crc16) <==> AllUndamaged(w, a, crc16) && AllUndamaged(Run(w, a, crc16), b, crc16)
    decreases |a|
  {
    hide Step, Undamaged, Sane;
    if a == [] {
      assert a + b == b;
    } else {
      assert (a + b)[0] == a[0] && (a + b)[1..] == a[1..] + b;
      Joined(Step(w, a[0], crc16), a[1..], b, crc16);
    }
  }

  // ---------------------------------------------------------------- damage that is not noticed

  /**
    The checksum is not taken over the header of a request, and the loader compares the answer with
    its own checksum. If only the checksum is damaged on the way, the phone throws the data away and
    answers with the checksum the loader waits for.
   */
  lemma ChecksumDamaged(image: seq<Byte>, base: nat, crc16: seq<Byte> -> nat, store: Store, c: nat)
    requires 0 < |image| <= CHUNK && c != crc16(image)
    ensures var events := [Arrive(0, Request(base % WORD, image, c)), Deliver(0, crc16(image))];
      var w := Run(Begun(image, base, crc16, store), events, crc16);
      w.load.quit && w.store == store
  {
    hide Written, Send, Sane;
    var w0 := Begun(image, base, crc16, store);
    OneChunk(image, base, crc16);
    BothSteps(w0, Arrive(0, Request(base % WORD, image, c)), Deliver(0, crc16(image)), crc16);
    LastConfirmed(w0.load, crc16);
  }

  /** If the address is damaged on the way, the data go there, and are confirmed. */
  lemma AddressDamaged(image: seq<Byte>, base: nat, crc16: seq<Byte> -> nat, a: nat)
    requires 0 < |image| <= CHUNK && base < a && a + |image| <= base + WORD
    ensures var events := [Arrive(0, Request(a % WORD, image, crc16(image))), Deliver(0, crc16(image))];
      var w := Run(Begun(image, base, crc16, map[]), events, crc16);
      w.load.quit && !InStore(w.store, base, image[0])
  {
    hide Written, Send, Sane;
    var w0 := Begun(image, base, crc16, map[]);
    OneChunk(image, base, crc16);
    BothSteps(w0, Arrive(0, Request(a % WORD, image, crc16(image))), Deliver(0, crc16(image)), crc16);
    LastConfirmed(w0.load, crc16);
    WrittenModulo(map[], a, image);
    WrittenAt(map[], a, image, base);
  }

  lemma OneChunk(image: seq<Byte>, base: nat, crc16: seq<Byte> -> nat)
    requires 0 < |image| <= CHUNK
    ensures Start(image, base, crc16)
         == Load(image, base, |image|, |image|, crc16(image), false, true, [Request(base % WORD, image, crc16(image))],
           [])
  {
    assert image[0..|image|] == image;
  }

  lemma LastConfirmed(l: Load, crc16: seq<Byte> -> nat)
    requires l.req <= l.off == |l.image|
    ensures OnReply(l, l.crc, crc16).quit
  {}

  lemma BothSteps(w: World, e1: Event, e2: Event, crc16: seq<Byte> -> nat)
    requires Sane(w.load, crc16)
    ensures Run(w, [e1, e2], crc16) == Step(Step(w, e1, crc16), e2, crc16)
  {
    hide Step, Sane;
    var w1 := Step(w, e1, crc16);
    assert [e1, e2][1..] == [e2] && [e2][1..] == [];
    assert Run(w1, [e2], crc16) == Run(Step(w1, e2, crc16), [], crc16);
  }

  // ---------------------------------------------------------------- progress

  /** From any point of a load, the missing chunks can arrive and be confirmed one by one, and that ends it. */
  lemma {:induction false} AnswersFinish(w: World, crc16: seq<Byte> -> nat) returns (events: seq<Event>)
    requires Sane(w.load, crc16) && !w.aborted
    ensures Run(w, events, crc16).load.quit && AllPrompt(w, events, crc16) && AllUndamaged(w, events, crc16)
    ensures 2 * |w.load.acked| + |events| == 2 * |Run(w, events, crc16).load.acked|
    ensures forall i :: 0 <= i < |events| ==> events[i].Arrive? || events[i].Deliver?
    decreases |w.load.image| - Confirmed(w.load)
  {
    hide Prompt, Undamaged, Step, Sane;
    events := [];
    if !w.load.quit {
      var e1, e2 := OneAnswer(w, crc16);
      var rest := AnswersFinish(Step(Step(w, e1, crc16), e2, crc16), crc16);
      events := [e1, e2] + rest;
      assert events[1..] == [e2] + rest && ([e2] + rest)[1..] == rest;
    }
  }

  /** The outstanding request arrives, and its reply confirms one more chunk. */
  lemma OneAnswer(w: World, crc16: seq<Byte> -> nat) returns (e1: Event, e2: Event)
    requires Sane(w.load, crc16) && !w.aborted && !w.load.quit
    ensures e1.Arrive? && Prompt(w, e1, crc16) && Undamaged(w, e1)
    ensures var w1 := Step(w, e1, crc16); e2.Deliver? && Prompt(w1, e2, crc16) && Undamaged(w1, e2)
    ensures var w2 := Step(Step(w, e1, crc16), e2, crc16);
      !w2.aborted && w2.load.image == w.load.image && |w2.load.acked| == |w.load.acked| + 1
        && Confirmed(w2.load) > Confirmed(w.load)
  {
    hide Send, Written;
    var l := w.load;
    e1, e2 := Arrive(|l.sent| - 1, l.sent[|l.sent| - 1]), Deliver(|w.replies|, l.crc);
    ReplySane(l, l.crc, crc16);
  }
}
