/**
  The SIM client: one job at a time, for each of which the card's directory tree is walked
  first. The client only sees the card through commands and responses; the card that accepts
  every SELECT is modelled beside it.
 */
module SimNav {
  import opened Options

  const MF: nat := 0x3f00

  /** The path after start, which is the path of no directory. */
  const UNDEFINED: nat := 0x0bad

  datatype Kind =
    | ReadBinary | UpdateBinary | ReadRecord | UpdateRecord | SeekRecord | Increase | Invalidate | Rehabilitate
    | RunGsmAlgo

  datatype Job = Job(kind: Kind, path: seq<nat>, file: nat, payloadLen: nat)

  datatype Command =
    | Select(fid: nat)
    | GetResponse(length: nat)
    | FileCommand(kind: Kind, length: nat, data: Origin)
    | RunAlgorithm

  /** Where the data of a command come from. */
  datatype Origin = Nothing | OfJob | OfCard

  /** What gsm_sim_reply reports. */
  datatype Cause = SimError | RequestError | PinProblem
  datatype Output = Send(command: Command) | Success | Failure(cause: Cause)

  /** A response: status words, and of the data what the client looks at. */
  datatype Response = Response(sw1: nat, sw2: nat, length: nat, fileId: nat, tof: nat, fileSize: nat,
    recordLen: Option<nat>)

  datatype JobState =
    | Idle | SelectMfdf | SelectMfdfResp | SelectEf | SelectEfResp | WaitFile | RunAlgo | RunAlgoResp

  datatype Client = Client(path: seq<nat>, file: nat, state: JobState, job: Option<Job>)

  const TOF_MF: nat := 1
  const TOF_DF: nat := 2

  // ---------------------------------------------------------------- the client as a function

  /** How far two paths agree. */
  ghost function Common(a: seq<nat>, b: seq<nat>): (i: nat)
    ensures i <= |a| && i <= |b| && a[..i] == b[..i]
    ensures i < |a| && i < |b| ==> a[i] != b[i]
  {
    if a == [] || b == [] || a[0] != b[0] then 0
    else
      var i := Common(a[1..], b[1..]);
      assert a[..1 + i] == [a[0]] + a[1..][..i] && b[..1 + i] == [b[0]] + b[1..][..i];
      1 + i
  }

  datatype Step = Step(client: Client, out: Output)

  /** sim_process_job for the jobs that need a directory. */
  ghost function Process(c: Client): Step
    requires c.job.Some?
  {
    var q := c.job.value;
    var i := Common(q.path, c.path);
    if i < |c.path| then Step(c.(state := SelectMfdf, path := []), Send(Select(MF)))
    else if i < |q.path| then Step(c.(state := SelectMfdf, path := c.path[..i] + [q.path[i]]), Send(Select(q.path[i])))
    else if q.kind == RunGsmAlgo then
      if q.payloadLen != 16 then Replied(c, Failure(RequestError)) else Step(c.(state := RunAlgo), Send(RunAlgorithm))
    else Step(c.(state := SelectEf, file := q.file), Send(Select(q.file)))
  }

  /** gsm_sim_reply */
  ghost function Replied(c: Client, out: Output): Step {
    Step(c.(state := Idle, job := None), out)
  }

  /** The verdict on the status words; Success stands for going on. */
  function Status(r: Response): Output {
    if r.sw1 == 0x98 then
      if r.sw2 != 0x04 && r.sw2 != 0x40 then Failure(SimError) else Failure(PinProblem)
    else if r.sw1 == 0x92 && r.sw2 >= 0x40 then Failure(SimError)
    else if r.sw1 in {0x92, 0x90, 0x91, 0x9e, 0x9f, 0x61} then Success
    else Failure(RequestError)
  }

  /** A command as it goes out: its length is one octet. */
  function Cut(cmd: Command): Command {
    match cmd
    case FileCommand(kind, length, data) => FileCommand(kind, length % 256, data)
    case _ => cmd
  }

  /** The command for the selected file, or a refusal. */
  function FileAction(q: Job, r: Response): Output {
    var total := r.fileSize;
    if r.length >= 15 && r.recordLen.Some? && total < r.recordLen.value then Failure(RequestError)
    else
      var len := if r.length >= 15 && r.recordLen.Some? then r.recordLen.value else total;
      match q.kind
      case ReadBinary => Send(Cut(FileCommand(ReadBinary, len, Nothing)))
      case UpdateBinary =>
        if len < q.payloadLen then Failure(RequestError) else Send(Cut(FileCommand(UpdateBinary, q.payloadLen, OfJob)))
      case ReadRecord => Send(Cut(FileCommand(ReadRecord, len, Nothing)))
      case UpdateRecord =>
        if len != q.payloadLen then Failure(RequestError) else Send(Cut(FileCommand(UpdateRecord, q.payloadLen, OfJob)))
      case SeekRecord => Send(Cut(FileCommand(SeekRecord, r.length, OfCard)))
      case Increase => if r.length != 4 then Failure(RequestError) else Send(FileCommand(Increase, 3, OfCard))
      case Invalidate => Send(FileCommand(Invalidate, 0, Nothing))
      case Rehabilitate => Send(FileCommand(Rehabilitate, 0, Nothing))
      case RunGsmAlgo => Failure(RequestError)
  }

  /** sim_apdu_resp while there is a job. */
  ghost function Respond(c: Client, r: Response): Step
    requires c.job.Some?
  {
    if Status(r) != Success then Replied(c, Status(r))
    else
      match c.state
      case SelectMfdf =>
        if r.sw2 < 22 then Replied(c, Failure(SimError))
        else Step(c.(state := SelectMfdfResp), Send(GetResponse(r.sw2)))
      case SelectMfdfResp =>
        if r.length < 22 then Replied(c, Failure(SimError))
        else if c.path == [] && (r.fileId != MF || r.tof != TOF_MF) then Replied(c, Failure(SimError))
        else if c.path != [] && (r.fileId != c.path[|c.path| - 1] || r.tof != TOF_DF) then Replied(c, Failure(SimError))
        else Process(c)
      case SelectEf =>
        if r.sw2 < 14 then Replied(c, Failure(SimError)) else Step(c.(state := SelectEfResp), Send(GetResponse(r.sw2)))
      case SelectEfResp =>
        if r.length < 14 then Replied(c, Failure(SimError))
        else if r.fileId != c.file then Replied(c, Failure(SimError))
        else if FileAction(c.job.value, r).Send? then Step(c.(state := WaitFile), FileAction(c.job.value, r))
        else Replied(c, FileAction(c.job.value, r))
      case WaitFile => Replied(c, Success)
      case RunAlgo =>
        if r.sw2 < 12 then Replied(c, Failure(SimError)) else Step(c.(state := RunAlgoResp), Send(GetResponse(r.sw2)))
      case RunAlgoResp => Replied(c, Success)
      case Idle => Replied(c, Failure(RequestError))
  }

  // ---------------------------------------------------------------- the client

  class SimClient {
    var path: seq<nat>
    var file: nat
    var state: JobState
    var job: Option<Job>
    var jobs: seq<(nat, Job)>
    var handlers: set<nat>

    /** gsm_sim_init */
    constructor ()
      ensures path == [UNDEFINED] && state == Idle && job == None && jobs == [] && handlers == {}
    {
      path, file, state, job, jobs, handlers := [UNDEFINED], 0, Idle, None, [], {};
    }

    ghost function View(): Client
      reads this
    {
      Client(path, file, state, job)
    }

    /** sim_process_job */
    method ProcessJob() returns (out: Output)
      requires job.Some?
      modifies this`path, this`file, this`state, this`job
      ensures Step(View(), out) == Process(old(View()))
    {
      var q := job.value;
      var i := 0;
      while i < |q.path| && i < |path| && q.path[i] == path[i]
        invariant i <= |q.path| && i <= |path| && q.path[..i] == path[..i]
      {
        i := i + 1;
      }
      CommonIs(q.path, path, i);
      if i < |path| {
        state := SelectMfdf;
        path := [];
        return Send(Select(MF));
      }
      if i < |q.path| {
        state := SelectMfdf;
        path := path[..i] + [q.path[i]];
        return Send(Select(q.path[i]));
      }
      if q.kind == RunGsmAlgo {
        if q.payloadLen != 16 {
          Reply();
          return Failure(RequestError);
        }
        state := RunAlgo;
        return Send(RunAlgorithm);
      }
      state := SelectEf;
      file := q.file;
      return Send(Select(q.file));
    }

    /** gsm_sim_reply, without the message */
    method Reply()
      modifies this`state, this`job
      ensures state == Idle && job == None
    {
      state, job := Idle, None;
    }

    /** gsm_sim_job_dequeue; with jobs in the queue none of whose handlers is left, they are dropped. */
    method Dequeue() returns (out: Option<Output>)
      modifies this`path, this`file, this`state, this`job, this`jobs
      ensures old(job).Some? ==> out == None && View() == old(View()) && jobs == old(jobs)
      ensures old(job).None? && out == None ==>
        View() == old(View()) && jobs == [] && forall j :: 0 <= j < |old(jobs)| ==> old(jobs)[j].0 !in handlers
      ensures out.Some? ==> exists j ::
        && 0 <= j < |old(jobs)| && Taken(old(jobs), handlers, j)
        && Started(old(View()), old(jobs), j, View(), jobs, out.value)
    {
      if job.Some? {
        return None;
      }
      ghost var j := 0;
      while jobs != []
        modifies this`jobs
        invariant j <= |old(jobs)| && jobs == old(jobs)[j..]
        invariant forall k :: 0 <= k < j ==> old(jobs)[k].0 !in handlers
        decreases |jobs|
      {
        if jobs[0].0 in handlers {
          break;
        }
        jobs := jobs[1..];
        j := j + 1;
      }
      if jobs == [] {
        return None;
      }
      var next := jobs[0].1;
      jobs := jobs[1..];
      state := Idle;
      job := Some(next);
      assert Taken(old(jobs), handlers, j);
      var o := ProcessJob();
      assert Started(old(View()), old(jobs), j, View(), jobs, o);
      return Some(o);
    }

    /** sim_apdu_resp; without a job a response is ignored. */
    method ApduResp(r: Response) returns (out: Option<Output>)
      modifies this`path, this`file, this`state, this`job
      ensures old(job).None? ==> out == None && View() == old(View())
      ensures old(job).Some? ==> out.Some? && Step(View(), out.value) == Respond(old(View()), r)
    {
      if job.None? {
        return None;
      }
      var o := Status(r);
      if o == Success {
        match state
        case SelectMfdf =>
          if r.sw2 >= 22 {
            state := SelectMfdfResp;
            return Some(Send(GetResponse(r.sw2)));
          }
          o := Failure(SimError);
        case SelectMfdfResp =>
          if r.length >= 22 && (if path == [] then r.fileId == MF && r.tof == TOF_MF
                                else r.fileId == path[|path| - 1] && r.tof == TOF_DF) {
            o := ProcessJob();
            return Some(o);
          }
          o := Failure(SimError);
        case SelectEf =>
          if r.sw2 >= 14 {
            state := SelectEfResp;
            return Some(Send(GetResponse(r.sw2)));
          }
          o := Failure(SimError);
        case SelectEfResp =>
          o := Failure(SimError);
          if r.length >= 14 && r.fileId == file {
            o := FileAction(job.value, r);
            if o.Send? {
              state := WaitFile;
              return Some(o);
            }
          }
        case WaitFile =>
        case RunAlgo =>
          if r.sw2 >= 12 {
            state := RunAlgoResp;
            return Some(Send(GetResponse(r.sw2)));
          }
          o := Failure(SimError);
        case RunAlgoResp =>
        case Idle => o := Failure(RequestError);
      }
      Reply();
      return Some(o);
    }
  }

  /** Job j of the queue was begun, the later ones are left. */
  ghost predicate Started(c: Client, jobs: seq<(nat, Job)>, j: nat, c': Client, jobs': seq<(nat, Job)>, out: Output)
    requires j < |jobs|
  {
    jobs' == jobs[j + 1..] && Step(c', out) == Process(c.(state := Idle, job := Some(jobs[j].1)))
  }

  /** The first job in the queue that has a handler. */
  ghost predicate Taken(jobs: seq<(nat, Job)>, handlers: set<nat>, j: nat)
    requires j < |jobs|
  {
    jobs[j].0 in handlers && forall k :: 0 <= k < j ==> jobs[k].0 !in handlers
  }

  lemma {:induction false} CommonIs(a: seq<nat>, b: seq<nat>, i: nat)
    requires i <= |a| && i <= |b| && a[..i] == b[..i] && (i < |a| && i < |b| ==> a[i] != b[i])
    ensures Common(a, b) == i
  {
    var k := Common(a, b);
  }

  // ---------------------------------------------------------------- the card

  /** The file types by the first byte of the identifier (section 6.2 of GSM 11.11). */
  predicate IsDirectory(fid: nat) {
    fid / 256 in {0x7f, 0x5f}
  }

  /** What a card tells of an elementary file: its size, and the length of its records if it has any. */
  datatype FileInfo = FileInfo(size: nat, recordLen: Option<nat>)

  /** The status words sw1 and sw2 of an answer. */
  datatype Words = Words(sw1: nat, sw2: nat)

  /**
    A card with its files by directory and identifier, the status words with which it answers a
    command on a file, its current directory, and the file selected last.
   */
  datatype Card = Card(files: (seq<nat>, nat) -> FileInfo, words: (seq<nat>, nat, Kind) -> Words, dir: seq<nat>,
    selected: nat)

  // ---------------------------------------------------------------- status words

  /** The command was carried out (section 9.4 of GSM 11.11); writing may have taken several attempts. */
  predicate Completed(w: Words) {
    w.sw1 == 0x90 || w.sw1 == 0x91 || w.sw1 == 0x9e || w.sw1 == 0x9f || w.sw1 == 0x61 || (w.sw1 == 0x92 && w.sw2 < 0x40)
  }

  /** An access condition is not fulfilled, or the code is blocked. */
  predicate AccessDenied(w: Words) {
    w == Words(0x98, 0x04) || w == Words(0x98, 0x40)
  }

  /** Any other security answer, or a failed memory. */
  predicate CardFailed(w: Words) {
    (w.sw1 == 0x98 && w.sw2 != 0x04 && w.sw2 != 0x40) || (w.sw1 == 0x92 && w.sw2 >= 0x40)
  }

  /** What a job is replied when its command is answered with some status words. */
  function Verdict(w: Words): Output {
    if Completed(w) then Success
    else if AccessDenied(w) then Failure(PinProblem)
    else if CardFailed(w) then Failure(SimError)
    else Failure(RequestError)
  }

  lemma StatusIs(r: Response)
    ensures Status(r) == Verdict(Words(r.sw1, r.sw2))
  {}

  /**
    Whatever a card answers: a job is only replied to as a success after the answer to its own
    command, or the algorithm's result, and only if the status words say that it was carried out.
   */
  lemma SuccessMeans(c: Client, r: Response)
    requires c.job.Some?
    ensures Respond(c, r).out == Success <==> c.state in {WaitFile, RunAlgoResp} && Completed(Words(r.sw1, r.sw2))
    ensures !Completed(Words(r.sw1, r.sw2)) ==>
      Respond(c, r).out == Verdict(Words(r.sw1, r.sw2)) && Respond(c, r).client.job == None
    ensures Respond(c, r).out == Failure(PinProblem) <==> AccessDenied(Words(r.sw1, r.sw2))
  {
    StatusIs(r);
  }

  /** Answers that are too short, or come from another file, end the job. */
  lemma ShortAnswers(c: Client, r: Response)
    requires c.job.Some? && Completed(Words(r.sw1, r.sw2))
    ensures c.state == SelectMfdf ==>
      Respond(c, r).out == if r.sw2 >= 22 then Send(GetResponse(r.sw2)) else Failure(SimError)
    ensures c.state == SelectEf ==>
      Respond(c, r).out == if r.sw2 >= 14 then Send(GetResponse(r.sw2)) else Failure(SimError)
    ensures c.state == RunAlgo ==>
      Respond(c, r).out == if r.sw2 >= 12 then Send(GetResponse(r.sw2)) else Failure(SimError)
    ensures c.state == SelectMfdfResp && (r.length < 22 || r.fileId != Last(c.path)) ==>
      Respond(c, r).out == Failure(SimError)
    ensures c.state == SelectMfdfResp && r.tof != (if c.path == [] then 1 else 2) ==>
      Respond(c, r).out == Failure(SimError)
    ensures c.state == SelectEfResp && (r.length < 14 || r.fileId != c.file) ==> Respond(c, r).out == Failure(SimError)
  {
    StatusIs(r);
  }

  /** An answer of 14 octets says nothing of records. */
  lemma NoRecordsTold(q: Job, r: Response)
    requires r.length == 14
    ensures FileAction(q, r) == FileAction(q, r.(recordLen := None))
  {}

  // ---------------------------------------------------------------- the card

  datatype Answer = Answer(card: Card, response: Response)

  /** A card that accepts every SELECT, and answers the commands that follow as its files say. */
  ghost function Obey(card: Card, cmd: Command): Answer {
    match cmd
    case Select(fid) =>
      if fid == MF then Answer(card.(dir := [], selected := fid), Response(0x9f, 22, 0, 0, 0, 0, None))
      else if IsDirectory(fid) then
        Answer(card.(dir := card.dir + [fid], selected := fid), Response(0x9f, 22, 0, 0, 0, 0, None))
      else Answer(card.(selected := fid), Response(0x9f, 15, 0, 0, 0, 0, None))
    case GetResponse(n) =>
      var tof := if card.selected == MF then TOF_MF else if IsDirectory(card.selected) then TOF_DF else 4;
      var info := card.files(card.dir, card.selected);
      Answer(card, Response(0x90, 0, n, card.selected, tof, info.size, info.recordLen))
    case FileCommand(kind, n, _) =>
      var w := card.words(card.dir, card.selected, kind);
      Answer(card, Response(w.sw1, w.sw2, n, 0, 0, 0, None))
    case RunAlgorithm =>
      var w := card.words(card.dir, MF, RunGsmAlgo);
      Answer(card, if Completed(w) then Response(0x9f, 12, 0, 0, 0, 0, None)
        else Response(w.sw1, w.sw2, 0, 0, 0, 0, None))
  }

  ghost predicate GoodJob(q: Job) {
    (forall i :: 0 <= i < |q.path| ==> IsDirectory(q.path[i])) && !IsDirectory(q.file) && q.file != MF
  }

  // ---------------------------------------------------------------- what a job can achieve

  function LengthOf(info: FileInfo): nat {
    if info.recordLen.Some? then info.recordLen.value else info.size
  }

  /**
    Whether a job leads to its command: 16 octets for the algorithm, data that fit for the updates,
    no record longer than its file; INCREASE never does, since the source compares the length of the
    card's answer, 15, with that of a value.
   */
  predicate CanDo(q: Job, info: FileInfo) {
    if q.kind == RunGsmAlgo then q.payloadLen == 16
    else
      && q.kind != Increase
      && (info.recordLen.Some? ==> info.recordLen.value <= info.size)
      && (q.kind == UpdateBinary ==> q.payloadLen <= LengthOf(info))
      && (q.kind == UpdateRecord ==> q.payloadLen == LengthOf(info))
  }

  /** The command a job asks for. */
  function Wanted(q: Job, info: FileInfo): Command {
    match q.kind
    case RunGsmAlgo => RunAlgorithm
    case ReadBinary => FileCommand(ReadBinary, LengthOf(info), Nothing)
    case ReadRecord => FileCommand(ReadRecord, LengthOf(info), Nothing)
    case UpdateBinary => FileCommand(UpdateBinary, q.payloadLen, OfJob)
    case UpdateRecord => FileCommand(UpdateRecord, q.payloadLen, OfJob)
    case SeekRecord => FileCommand(SeekRecord, q.payloadLen, OfJob)
    case Increase => FileCommand(Increase, 3, OfJob)
    case Invalidate => FileCommand(Invalidate, 0, Nothing)
    case Rehabilitate => FileCommand(Rehabilitate, 0, Nothing)
  }

  /**
    The command that goes out for it. SEEK looks for the 15 octets of the card's answer instead of
    the job's pattern.
   */
  function Issued(q: Job, info: FileInfo): Command {
    if q.kind == SeekRecord then FileCommand(SeekRecord, 15, OfCard) else Cut(Wanted(q, info))
  }

  /** The condition for a command that goes out as the job asks: no SEEK, and no length of 256 octets or more. */
  predicate AsWanted(q: Job, info: FileInfo) {
    match q.kind
    case ReadBinary => LengthOf(info) < 256
    case ReadRecord => LengthOf(info) < 256
    case UpdateBinary => q.payloadLen < 256
    case UpdateRecord => q.payloadLen < 256
    case SeekRecord => false
    case _ => true
  }

  lemma IssuedIs(q: Job, info: FileInfo)
    ensures Issued(q, info) == Wanted(q, info) <==> AsWanted(q, info)
  {}

  /** How many octets a command moves: for reading, the length 0 means 256 (section 9.1 of GSM 11.11). */
  function Moved(cmd: Command): nat
    requires cmd.FileCommand?
  {
    if cmd.kind in {ReadBinary, ReadRecord} && cmd.length == 0 then 256 else cmd.length
  }

  /** A read moves as many octets as there are exactly for 1 to 256 of them, an update exactly for at most 255. */
  lemma AllMoved(q: Job, info: FileInfo)
    requires q.kind in {ReadBinary, ReadRecord, UpdateBinary, UpdateRecord}
    ensures Moved(Issued(q, info)) == Wanted(q, info).length
       <==> if q.kind in {ReadBinary, ReadRecord} then 0 < LengthOf(info) <= 256 else q.payloadLen < 256
  {}

  /** The file's answer decides as said. */
  lemma ActionIs(q: Job, info: FileInfo, fid: nat, tof: nat)
    requires q.kind != RunGsmAlgo
    ensures FileAction(q, Response(0x90, 0, 15, fid, tof, info.size, info.recordLen))
         == if CanDo(q, info) then Send(Issued(q, info)) else Failure(RequestError)
  {}

  /** Not only with such a card: whatever is answered to the SELECT of its file, INCREASE is not sent. */
  lemma IncreaseNeverSent(c: Client, r: Response)
    requires c.job.Some? && c.job.value.kind == Increase && c.state == SelectEfResp
    ensures !Respond(c, r).out.Send?
  {}

  // ---------------------------------------------------------------- where the card is

  /**
    Where the card is when the client believes in a path that starts with p, and the card was in d
    when the client believed in p. The client is right if p and d are the same.
   */
  ghost function Shift(path: seq<nat>, p: seq<nat>, d: seq<nat>): seq<nat>
    requires p <= path
  {
    d + path[|p|..]
  }

  lemma ShiftRight(path: seq<nat>, p: seq<nat>, d: seq<nat>)
    requires p <= path
    ensures Shift(path, p, d) == path <==> p == d
  {
    if Shift(path, p, d) == path {
      assert |d| == |p|;
      assert d == path[..|d|];
    }
  }

  /** How many directories are still to be selected. */
  ghost function Hops(path: seq<nat>, target: seq<nat>): nat {
    if path <= target then |target| - |path| else 1 + |target|
  }

  /** The file of the job, where the card will be. */
  ghost function InfoOf(q: Job, card: Card, p: seq<nat>, d: seq<nat>): FileInfo
    requires p <= q.path
  {
    card.files(Shift(q.path, p, d), q.file)
  }

  /** How the card will answer the job's command. */
  ghost function WordsFor(q: Job, card: Card, dir: seq<nat>): Words {
    card.words(dir, if q.kind == RunGsmAlgo then MF else q.file, q.kind)
  }

  ghost function WordsOf(q: Job, card: Card, p: seq<nat>, d: seq<nat>): Words
    requires p <= q.path
  {
    WordsFor(q, card, Shift(q.path, p, d))
  }

  /** What a job is replied: a refusal by the client, or what the card says of its command. */
  function Outcome(q: Job, info: FileInfo, w: Words): Output {
    if CanDo(q, info) then Verdict(w) else Failure(RequestError)
  }

  /** The client waits for the card's answer to the command it sent last. */
  ghost predicate Waiting(c: Client, card: Card, cmd: Command, p: seq<nat>, d: seq<nat>) {
    && c.job.Some? && GoodJob(c.job.value) && p <= c.path <= c.job.value.path
    && var q := c.job.value;
       match c.state
       case SelectMfdf =>
         cmd == Select(Last(c.path)) &&
         if c.path == [] then d == [] else |c.path| > |p| && card.dir + [Last(c.path)] == Shift(c.path, p, d)
       case SelectMfdfResp => cmd == GetResponse(22) && card.dir == Shift(c.path, p, d) && card.selected == Last(c.path)
       case SelectEf => Arrived(c, card, p, d) && q.kind != RunGsmAlgo && c.file == q.file && cmd == Select(c.file)
       case SelectEfResp =>
         Arrived(c, card, p, d) && q.kind != RunGsmAlgo && c.file == q.file && cmd == GetResponse(15)
           && card.selected == c.file
       case WaitFile =>
         Arrived(c, card, p, d) && q.kind != RunGsmAlgo && CanDo(q, InfoOf(q, card, p, d))
         && cmd == Issued(q, InfoOf(q, card, p, d)) && card.selected == q.file
       case RunAlgo => Arrived(c, card, p, d) && cmd == RunAlgorithm && q.kind == RunGsmAlgo && q.payloadLen == 16
       case RunAlgoResp =>
         Arrived(c, card, p, d) && cmd == GetResponse(12) && q.kind == RunGsmAlgo && q.payloadLen == 16
         && Completed(WordsOf(q, card, p, d))
       case Idle => false
  }

  ghost function Last(path: seq<nat>): nat {
    if path == [] then MF else path[|path| - 1]
  }

  /** The client believes that the card is in the directory of the job. */
  ghost predicate Arrived(c: Client, card: Card, p: seq<nat>, d: seq<nat>)
    requires c.job.Some? && p <= c.path
  {
    c.path == c.job.value.path && card.dir == Shift(c.path, p, d)
  }

  /** How many answers are still to come. */
  ghost function ToGo(c: Client): nat
    requires c.job.Some?
  {
    match c.state
    case SelectMfdf => 2 * Hops(c.path, c.job.value.path) + 6
    case SelectMfdfResp => 2 * Hops(c.path, c.job.value.path) + 5
    case SelectEf => 4
    case SelectEfResp => 3
    case WaitFile => 1
    case RunAlgo => 2
    case RunAlgoResp => 1
    case Idle => 0
  }

  /** A job was replied to. */
  ghost predicate Ended(c: Client, card: Card, q: Job, out: Output, p: seq<nat>, d: seq<nat>)
    requires p <= q.path
  {
    && c.job == None && c.state == Idle && c.path == q.path && card.dir == Shift(q.path, p, d)
    && out == Outcome(q, InfoOf(q, card, p, d), WordsOf(q, card, p, d))
  }

  lemma PrefixCommon(path: seq<nat>, target: seq<nat>)
    requires path <= target
    ensures Common(target, path) == |path|
  {
    CommonIs(target, path, |path|);
  }

  /** Process at a directory on the way, or at the goal. */
  lemma ProcessOnTheWay(c: Client, card: Card, p: seq<nat>, d: seq<nat>) returns (s: Step)
    requires c.job.Some? && GoodJob(c.job.value) && p <= c.path <= c.job.value.path && card.dir == Shift(c.path, p, d)
    ensures s == Process(c)
    ensures s.out.Send? ==> Waiting(s.client, card, s.out.command, p, d) && s.client.job == c.job
    ensures s.out.Send? && s.client.state == SelectMfdf ==>
      Hops(s.client.path, c.job.value.path) == Hops(c.path, c.job.value.path) - 1
    ensures s.out.Send? && s.client.state != SelectMfdf ==>
      c.path == c.job.value.path && s.client.state in {SelectEf, RunAlgo}
    ensures !s.out.Send? ==>
      c.path == c.job.value.path && Ended(s.client, card, c.job.value, s.out, p, d)
      && !CanDo(c.job.value, InfoOf(c.job.value, card, p, d))
  {
    var q := c.job.value;
    PrefixCommon(c.path, q.path);
    s := Process(c);
    if |c.path| < |q.path| {
      assert c.path[..|c.path|] + [q.path[|c.path|]] == q.path[..|c.path| + 1];
      assert q.path[..|c.path| + 1][|p|..] == c.path[|p|..] + [q.path[|c.path|]];
    }
  }

  /** What the client's belief amounts to, once a job with some path begins: it is kept, or given up. */
  ghost function Belief(c: Client, q: Job): seq<nat> {
    if c.path <= q.path then c.path else []
  }

  ghost function Whereabouts(c: Client, card: Card, q: Job): seq<nat> {
    if c.path <= q.path then card.dir else []
  }

  /** A job is begun: the first command. */
  lemma Begin(c: Client, card: Card, q: Job) returns (s: Step)
    requires c.job == None && GoodJob(q)
    ensures s == Process(c.(job := Some(q)))
    ensures var p, d := Belief(c, q), Whereabouts(c, card, q);
      && p <= q.path
      && (s.out.Send? ==> Waiting(s.client, card, s.out.command, p, d) && s.client.job == Some(q))
      && (!s.out.Send? ==> Ended(s.client, card, q, s.out, p, d) && !CanDo(q, InfoOf(q, card, p, d)))
    ensures s.out.Send? && s.client.state == SelectMfdf ==> Hops(s.client.path, q.path) == Hops(c.path, q.path) - 1
    ensures s.out.Send? && s.client.state != SelectMfdf ==> c.path == q.path && s.client.state in {SelectEf, RunAlgo}
    ensures !s.out.Send? ==> c.path == q.path
  {
    var c1 := c.(job := Some(q));
    if c.path <= q.path {
      assert card.dir + c.path[|c.path|..] == card.dir;
      s := ProcessOnTheWay(c1, card, c.path, card.dir);
    } else {
      s := Process(c1);
    }
  }

  /**
    What one command and its answer lead to: the client's path and the card's directory move
    together, the next command is the right one, and the job ends exactly with the answer to its own
    command, or where it cannot be done.
   */
  ghost predicate Exchanged(c: Client, card: Card, p: seq<nat>, d: seq<nat>, card': Card, s: Step)
    requires c.job.Some?
  {
    var q := c.job.value;
    && card'.files == card.files && card'.words == card.words
    && (c.state in {SelectMfdf, SelectMfdfResp} ==> p <= c.path && card'.dir == Shift(c.path, p, d))
    && (if s.out.Send? then
          && Waiting(s.client, card', s.out.command, p, d) && s.client.job == c.job && ToGo(s.client) < ToGo(c)
          && (s.client.state == SelectMfdf ==>
                c.state == SelectMfdfResp && Hops(s.client.path, q.path) == Hops(c.path, q.path) - 1)
          && (s.client.state == SelectMfdfResp ==> c.state == SelectMfdf && s.client.path == c.path)
          && (s.client.state !in {SelectMfdf, SelectMfdfResp} ==> c.path == q.path && c.state != SelectMfdf)
          && (s.client.state == WaitFile ==> c.state == SelectEfResp)
          && (s.client.state == RunAlgoResp <==> c.state == RunAlgo) && c.state !in {WaitFile, RunAlgoResp}
        else
          && p <= q.path == c.path && c.state != SelectMfdf && Ended(s.client, card', q, s.out, p, d)
          && (c.state in {WaitFile, RunAlgo, RunAlgoResp} <==> CanDo(q, InfoOf(q, card, p, d))))
  }

  /** One command and its answer. */
  lemma Exchange(c: Client, card: Card, cmd: Command, p: seq<nat>, d: seq<nat>) returns (card': Card, s: Step)
    requires Waiting(c, card, cmd, p, d)
    ensures card' == Obey(card, cmd).card && s == Respond(c, Obey(card, cmd).response)
    ensures Exchanged(c, card, p, d, card', s)
  {
    hide Waiting, Exchanged, Obey, Respond;
    HasJob(c, card, cmd, p, d);
    card', s := Obey(card, cmd).card, Respond(c, Obey(card, cmd).response);
    if c.state == SelectMfdf {
      ExchangeSelect(c, card, cmd, p, d);
    } else if c.state == SelectMfdfResp {
      ExchangeDirectory(c, card, cmd, p, d);
    } else if c.state == SelectEfResp {
      ExchangeFile(c, card, cmd, p, d);
    } else {
      ExchangeOther(c, card, cmd, p, d);
    }
  }

  lemma HasJob(c: Client, card: Card, cmd: Command, p: seq<nat>, d: seq<nat>)
    requires Waiting(c, card, cmd, p, d)
    ensures c.job.Some? && c.state != Idle
  {}

  lemma ExchangeSelect(c: Client, card: Card, cmd: Command, p: seq<nat>, d: seq<nat>)
    requires Waiting(c, card, cmd, p, d) && c.state == SelectMfdf
    ensures Exchanged(c, card, p, d, Obey(card, cmd).card, Respond(c, Obey(card, cmd).response))
  {
    hide Process, FileAction, CanDo, Issued;
    if c.path != [] { assert IsDirectory(c.path[|c.path| - 1]); }
  }

  lemma ExchangeDirectory(c: Client, card: Card, cmd: Command, p: seq<nat>, d: seq<nat>)
    requires Waiting(c, card, cmd, p, d) && c.state == SelectMfdfResp
    ensures Exchanged(c, card, p, d, Obey(card, cmd).card, Respond(c, Obey(card, cmd).response))
  {
    hide Process, FileAction, CanDo, Issued;
    if c.path != [] { assert IsDirectory(c.path[|c.path| - 1]); }
    var _ := ProcessOnTheWay(c, card, p, d);
  }

  lemma ExchangeFile(c: Client, card: Card, cmd: Command, p: seq<nat>, d: seq<nat>)
    requires Waiting(c, card, cmd, p, d) && c.state == SelectEfResp
    ensures Exchanged(c, card, p, d, Obey(card, cmd).card, Respond(c, Obey(card, cmd).response))
  {
    hide Process, FileAction, CanDo, Issued, Shift;
    ActionIs(c.job.value, InfoOf(c.job.value, card, p, d), card.selected, 4);
  }

  lemma ExchangeOther(c: Client, card: Card, cmd: Command, p: seq<nat>, d: seq<nat>)
    requires Waiting(c, card, cmd, p, d) && c.state in {SelectEf, WaitFile, RunAlgo, RunAlgoResp}
    ensures Exchanged(c, card, p, d, Obey(card, cmd).card, Respond(c, Obey(card, cmd).response))
  {
    hide Process, FileAction, Shift;
  }

  // ---------------------------------------------------------------- a whole job

  /** A command, where the card was when it was sent, and what was selected. */
  datatype Sent = Sent(command: Command, dir: seq<nat>, selected: nat)

  datatype Trail = Trail(sent: seq<Sent>, client: Client, card: Card, out: Output)

  lemma ExchangeKeeps(c: Client, card: Card, cmd: Command, p: seq<nat>, d: seq<nat>)
    requires Waiting(c, card, cmd, p, d)
    ensures var s := Respond(c, Obey(card, cmd).response);
      s.out.Send? ==>
        Waiting(s.client, Obey(card, cmd).card, s.out.command, p, d) && s.client.job == c.job
          && ToGo(s.client) < ToGo(c)
  {
    var _, _ := Exchange(c, card, cmd, p, d);
  }

  /** Commands and answers in turn, until the job is replied to. */
  ghost function Serve(c: Client, card: Card, cmd: Command, p: seq<nat>, d: seq<nat>): Trail
    requires Waiting(c, card, cmd, p, d)
    decreases ToGo(c)
  {
    ExchangeKeeps(c, card, cmd, p, d);
    var a := Obey(card, cmd);
    var s := Respond(c, a.response);
    if s.out.Send? then
      var t := Serve(s.client, a.card, s.out.command, p, d);
      t.(sent := [Sent(cmd, card.dir, card.selected)] + t.sent)
    else Trail([Sent(cmd, card.dir, card.selected)], s.client, a.card, s.out)
  }

  ghost predicate ForDirectory(cmd: Command) {
    cmd.Select? && (cmd.fid == MF || IsDirectory(cmd.fid))
  }

  ghost function DirectorySelects(sent: seq<Sent>): nat {
    if sent == [] then 0 else (if ForDirectory(sent[0].command) then 1 else 0) + DirectorySelects(sent[1..])
  }

  /** The commands on files, and those for the algorithm. */
  ghost function Work(sent: seq<Sent>): seq<Sent> {
    if sent == [] then []
    else (if sent[0].command.FileCommand? || sent[0].command.RunAlgorithm? then [sent[0]] else []) + Work(sent[1..])
  }

  /** Elementary files are only selected in one directory. */
  ghost predicate FilesFrom(sent: seq<Sent>, dir: seq<nat>) {
    forall i :: 0 <= i < |sent| && sent[i].command.Select? && !ForDirectory(sent[i].command) ==> sent[i].dir == dir
  }

  ghost function HopsLeft(c: Client): nat
    requires c.job.Some?
  {
    if c.state == SelectMfdf then Hops(c.path, c.job.value.path) + 1
    else if c.state == SelectMfdfResp then Hops(c.path, c.job.value.path)
    else 0
  }

  /** What a job leads to: its command, once, in the directory where the card is, on the file that was selected. */
  ghost predicate DoneRight(t: Trail, q: Job, dir: seq<nat>, info: FileInfo) {
    if CanDo(q, info) then
      && |Work(t.sent)| == 1 && Work(t.sent)[0].command == Issued(q, info) && Work(t.sent)[0].dir == dir
      && (q.kind != RunGsmAlgo ==> Work(t.sent)[0].selected == q.file)
    else Work(t.sent) == []
  }

  /** The command the job asks for was sent, and no other. */
  ghost predicate DoneAsWanted(t: Trail, q: Job, info: FileInfo) {
    |Work(t.sent)| == 1 && Work(t.sent)[0].command == Wanted(q, info)
  }

  lemma DoneAsWantedIs(t: Trail, q: Job, dir: seq<nat>, info: FileInfo)
    requires DoneRight(t, q, dir, info)
    ensures DoneAsWanted(t, q, info) <==> CanDo(q, info) && AsWanted(q, info)
  {
    IssuedIs(q, info);
  }

  /** The same for what is still to come: the algorithm's command may have been sent already. */
  ghost predicate StillRight(c: Client, t: Trail, q: Job, dir: seq<nat>, info: FileInfo) {
    if c.state == RunAlgoResp then Work(t.sent) == [] else DoneRight(t, q, dir, info)
  }

  lemma {:induction false} ServeFromHere(c: Client, card: Card, cmd: Command, p: seq<nat>, d: seq<nat>)
    requires Waiting(c, card, cmd, p, d)
    ensures var t, q := Serve(c, card, cmd, p, d), c.job.value;
      && p <= q.path && Ended(t.client, t.card, q, t.out, p, d) && t.card.files == card.files
        && t.card.words == card.words
      && DirectorySelects(t.sent) == HopsLeft(c)
      && FilesFrom(t.sent, Shift(q.path, p, d))
      && StillRight(c, t, q, Shift(q.path, p, d), InfoOf(q, card, p, d))
    decreases ToGo(c)
  {
    hide Obey, Respond, Issued, CanDo, Waiting, Shift, Ended, ToGo, ForDirectory;
    HasJob(c, card, cmd, p, d);
    var card1, s := Exchange(c, card, cmd, p, d);
    var q := c.job.value;
    WaitingFacts(c, card, cmd, p, d);
    var here := Sent(cmd, card.dir, card.selected);
    if s.out.Send? {
      ServeFromHere(s.client, card1, s.out.command, p, d);
      var t := Serve(s.client, card1, s.out.command, p, d);
      assert ([here] + t.sent)[1..] == t.sent;
    } else {
      OneSent(here);
    }
  }

  lemma OneSent(here: Sent)
    ensures Work([here]) == if here.command.FileCommand? || here.command.RunAlgorithm? then [here] else []
    ensures DirectorySelects([here]) == if ForDirectory(here.command) then 1 else 0
  {
    assert Work([here][1..]) == [] && DirectorySelects([here][1..]) == 0;
  }

  lemma WaitingFacts(c: Client, card: Card, cmd: Command, p: seq<nat>, d: seq<nat>)
    requires Waiting(c, card, cmd, p, d)
    ensures p <= c.job.value.path
    ensures ForDirectory(cmd) <==> c.state == SelectMfdf
    ensures cmd.Select? && !ForDirectory(cmd) ==> card.dir == Shift(c.job.value.path, p, d)
    ensures cmd.FileCommand? || cmd.RunAlgorithm? <==> c.state in {WaitFile, RunAlgo}
    ensures c.state in {WaitFile, RunAlgo} ==>
      && cmd == Issued(c.job.value, InfoOf(c.job.value, card, p, d)) && card.dir == Shift(c.job.value.path, p, d)
      && CanDo(c.job.value, InfoOf(c.job.value, card, p, d))
      && (c.job.value.kind != RunGsmAlgo ==> card.selected == c.job.value.file)
      && (c.job.value.kind == RunGsmAlgo <==> c.state == RunAlgo)
  {
    if c.state == SelectMfdf && c.path != [] { assert IsDirectory(c.path[|c.path| - 1]); }
  }

  /** A job from its beginning. */
  ghost function Perform(c: Client, card: Card, q: Job): Trail
    requires c.job == None && GoodJob(q)
  {
    BeginWaits(c, card, q);
    var s := Process(c.(job := Some(q)));
    if s.out.Send? then Serve(s.client, card, s.out.command, Belief(c, q), Whereabouts(c, card, q))
    else Trail([], s.client, card, s.out)
  }

  lemma BeginWaits(c: Client, card: Card, q: Job)
    requires c.job == None && GoodJob(q)
    ensures var s := Process(c.(job := Some(q)));
      s.out.Send? ==> Waiting(s.client, card, s.out.command, Belief(c, q), Whereabouts(c, card, q))
  {
    var _ := Begin(c, card, q);
  }

  /** The directory a job ends up in. */
  ghost function Destination(c: Client, card: Card, q: Job): seq<nat> {
    if c.path <= q.path then card.dir + q.path[|c.path|..] else q.path
  }

  /**
    With a card that accepts every SELECT, whatever the client believed before: the reply is a
    success exactly if the job can be done on the file it meets, and then exactly the job's command
    was sent, once; the directory SELECTs are those that seem to be missing, and everything happens
    in one directory, the destination.
   */
  lemma JobPerformed(c: Client, card: Card, q: Job)
    requires c.job == None && GoodJob(q)
    ensures var t, dir := Perform(c, card, q), Destination(c, card, q);
      var info := card.files(dir, q.file);
      && t.out == Outcome(q, info, WordsFor(q, card, dir))
      && DoneRight(t, q, dir, info) && FilesFrom(t.sent, dir)
      && (DoneAsWanted(t, q, info) <==> CanDo(q, info) && AsWanted(q, info))
      && DirectorySelects(t.sent) == Hops(c.path, q.path) <= 1 + |q.path|
      && t.client.job == None && t.client.state == Idle && t.client.path == q.path
      && t.card.dir == dir && t.card.files == card.files && t.card.words == card.words
  {
    hide Obey, Respond, Process, Status, FileAction, Issued, CanDo, Serve, Waiting;
    var s := Begin(c, card, q);
    if s.out.Send? {
      ServeFromHere(s.client, card, s.out.command, Belief(c, q), Whereabouts(c, card, q));
    }
    assert q.path[0..] == q.path && [] + q.path == q.path;
    var t, dir := Perform(c, card, q), Destination(c, card, q);
    DoneAsWantedIs(t, q, dir, card.files(dir, q.file));
  }

  /** The client knows where the card is, or that it does not know. */
  ghost predicate AtRest(c: Client, card: Card) {
    c.job == None && c.state == Idle && (c.path == card.dir || c.path == [UNDEFINED])
  }

  /** So from the start on every job is done in its own directory, and the client never loses track. */
  lemma JobServed(c: Client, card: Card, q: Job)
    requires AtRest(c, card) && GoodJob(q)
    ensures var t, info := Perform(c, card, q), card.files(q.path, q.file);
      && t.out == Outcome(q, info, WordsFor(q, card, q.path))
      && (t.out == Success <==> CanDo(q, info) && Completed(WordsFor(q, card, q.path)))
      && (t.out == Failure(PinProblem) <==> CanDo(q, info) && AccessDenied(WordsFor(q, card, q.path)))
      && DoneRight(t, q, q.path, info) && FilesFrom(t.sent, q.path)
      && (DoneAsWanted(t, q, info) <==> CanDo(q, info) && AsWanted(q, info))
      && DirectorySelects(t.sent) == Hops(c.path, q.path) <= 1 + |q.path|
      && AtRest(t.client, t.card) && t.card.dir == q.path && t.card.files == card.files && t.card.words == card.words
  {
    hide Perform, CanDo, DoneRight;
    JobPerformed(c, card, q);
    if q.path != [] { assert IsDirectory(q.path[0]); }
    if c.path == card.dir && c.path <= q.path { assert card.dir + q.path[|c.path|..] == q.path; }
  }

  /** A file of 300 octets: the update and the reading of it are successes, of which 44 octets are moved. */
  lemma PartlyDone(card: Card, file: nat, kind: Kind)
    requires kind in {ReadBinary, UpdateBinary} && !IsDirectory(file) && file != MF
    requires card.files([], file) == FileInfo(300, None) && Completed(card.words([], file, kind))
    ensures var q := Job(kind, [], file, 300);
      var t := Perform(Client([UNDEFINED], 0, Idle, None), card, q);
      && GoodJob(q) && t.out == Success
      && Work(t.sent) == [Sent(FileCommand(kind, 44, if kind == ReadBinary then Nothing else OfJob), [], file)]
      && Moved(Work(t.sent)[0].command) == 44
  {
    var q, c := Job(kind, [], file, 300), Client([UNDEFINED], 0, Idle, None);
    hide Perform;
    JobServed(c, card, q);
    OneWork(Work(Perform(c, card, q).sent));
  }

  // ---------------------------------------------------------------- a refused SELECT

  /**
    After a refused SELECT of a directory the client is wrong about where the card is, unless both
    are at the master file.
   */
  lemma RefusedSelect(c: Client, card: Card, cmd: Command, r: Response)
    requires Waiting(c, card, cmd, [], []) && c.state == SelectMfdf && Status(r) != Success
    ensures var c' := Respond(c, r).client;
      c'.job == None && c'.path == c.path && (c'.path == card.dir <==> c.path == [] && card.dir == [])
  {
    assert |card.dir + [Last(c.path)]| == |card.dir| + 1;
  }

  /**
    From then on: a job is done in its own directory exactly if it is not below the path the client
    wrongly believes in, since only then the walk starts again from the master file.
   */
  lemma LostRecovers(c: Client, card: Card, q: Job)
    requires c.job == None && GoodJob(q) && c.path != card.dir
    ensures Destination(c, card, q) == q.path <==> !(c.path <= q.path)
    ensures Perform(c, card, q).card.dir == q.path <==> !(c.path <= q.path)
  {
    hide Perform, CanDo, DoneRight;
    JobPerformed(c, card, q);
    if c.path <= q.path { ShiftRight(q.path, c.path, card.dir); }
  }

  const TELECOM: nat := 0x7f10
  const SMS: nat := 0x6f3c

  /**
    A card that refuses the SELECT of a directory once: the next job for a file in it selects the
    file in the master file, and reads what is there.
   */
  lemma GoesAstray(files: (seq<nat>, nat) -> FileInfo, words: (seq<nat>, nat, Kind) -> Words)
    ensures var q := Job(ReadRecord, [TELECOM], SMS, 0);
      var card := Card(files, words, [], MF);
      var begun := Process(Client([], 0, Idle, Some(q)));
      var refused := Respond(begun.client, Response(0x94, 0x04, 0, 0, 0, 0, None));
      && GoodJob(q) && begun.out == Send(Select(TELECOM))
      && refused.out == Failure(RequestError) && refused.client.job == None && refused.client.path == [TELECOM]
      && Process(refused.client.(job := Some(q))).out == Send(Select(SMS))
      && Perform(refused.client, card, q).card.dir == [] != q.path
      && Work(Perform(refused.client, card, q).sent) ==
           if CanDo(q, files([], SMS)) then [Sent(Issued(q, files([], SMS)), [], SMS)] else []
  {
    var q := Job(ReadRecord, [TELECOM], SMS, 0);
    CommonIs(q.path, [], 0);
    CommonIs(q.path, [TELECOM], 1);
    var begun := Process(Client([], 0, Idle, Some(q)));
    var refused := Respond(begun.client, Response(0x94, 0x04, 0, 0, 0, 0, None));
    assert begun.client.path == [TELECOM];
    JobPerformed(refused.client, Card(files, words, [], MF), q);
    OneWork(Work(Perform(refused.client, Card(files, words, [], MF), q).sent));
  }

  lemma OneWork(s: seq<Sent>)
    ensures |s| == 1 ==> s == [Sent(s[0].command, s[0].dir, s[0].selected)]
  {}
}
