/** Whole logs: records one behind the other, and the reader that finds the end of one at the start of the next. */
module LogRecords {
  import opened CellScan
  import opened LogText
  import opened CellLog
  import opened Options

  /** The six frames of a record, each with the word it is printed behind. */
  function Tag(k: Kind): string {
    match k
    case SI1 => "si1"
    case SI2 => "si2"
    case SI2bis => "si2bis"
    case SI2ter => "si2ter"
    case SI3 => "si3"
    case SI4 => "si4"
  }

  const ORDER: seq<Kind> := [SI1, SI2, SI2bis, SI2ter, SI3, SI4]

  /** A position in hundred-millionths of a degree, as printed. */
  datatype Position = Position(longitude: int, latitude: int)

  /** What is logged: a power table, or the system information of a cell. */
  datatype Logged =
    | Power(time: nat, position: Option<Position>, pm: seq<Cell>)
    | Sysinfo(arfcn: nat, time: nat, position: Option<Position>, bsic: nat, rxlev: int, got: map<Kind, seq<nat>>,
      ta: Option<nat>)

  /** Fields have the sizes they have in the source; a position is one on the globe. */
  ghost predicate Loggable(e: Logged) {
    && e.time < ULONG / 2
    && (e.position.Some? ==> Near(e.position.value.longitude) && Near(e.position.value.latitude))
    && match e
       case Power(_, _, pm) => |pm| == CHANNELS && forall a :: 0 <= a < CHANNELS ==> -128 <= pm[a].rxlev < 128
       case Sysinfo(arfcn, _, _, bsic, rxlev, got, ta) =>
         && arfcn < 0x1_0000 && bsic < 64 && -128 <= rxlev < 128 && (ta.Some? ==> ta.value < 255)
         && forall k :: k in got ==> IsFrame(got[k])
  }

  predicate Near(x: int) {
    -360 * SCALE <= x <= 360 * SCALE
  }

  ghost predicate IsFrame(bytes: seq<nat>) {
    |bytes| == FRAME && forall i :: 0 <= i < FRAME ==> bytes[i] < 256
  }

  // ---------------------------------------------------------------- printing

  ghost function FrameLine(k: Kind, bytes: seq<nat>): string
    requires IsFrame(bytes)
  {
    Tag(k) + HexText(bytes)
  }

  ghost function FrameLines(got: map<Kind, seq<nat>>, ks: seq<Kind>): seq<string>
    requires forall k :: k in got ==> IsFrame(got[k])
  {
    if ks == [] then []
    else (if ks[0] in got then [FrameLine(ks[0], got[ks[0]])] else []) + FrameLines(got, ks[1..])
  }

  ghost function PositionLine(p: Position): string {
    "position " + Fixed(p.longitude) + " " + Fixed(p.latitude)
  }

  ghost function PositionLines(p: Option<Position>): seq<string> {
    if p.Some? then [PositionLine(p.value)] else []
  }

  /** The base station code in its two parts. */
  ghost function BsicLine(bsic: nat): string {
    "bsic " + Decimal(bsic / 8) + "," + Decimal(bsic % 8)
  }

  /** The timing advance, if there was an answer. */
  ghost function TaLines(ta: Option<nat>): seq<string> {
    if ta.Some? then ["ta " + Decimal(ta.value)] else []
  }

  /** The lines of a record behind its head line. */
  ghost function Body(e: Logged): seq<string>
    requires Loggable(e)
  {
    match e
    case Power(time, position, pm) =>
      ["time " + Decimal(time)] + PositionLines(position) + RowTexts(Rows(pm, 0, Row(0, []))) + [""]
    case Sysinfo(arfcn, time, position, bsic, rxlev, got, ta) =>
      ["arfcn " + Decimal(arfcn), "time " + Decimal(time)] + PositionLines(position)
      + [BsicLine(bsic), "rxlev " + Printed(rxlev)] + FrameLines(got, ORDER) + TaLines(ta) + [""]
  }

  /** log_frame */
  method PrintFrame(tag: string, data: seq<nat>) returns (line: string)
    requires IsFrame(data)
    ensures line == tag + HexText(data)
  {
    line := tag;
    var i := 0;
    while i < FRAME
      invariant i <= FRAME && line + HexText(data[i..]) == tag + HexText(data)
    {
      assert data[i..][0] == data[i] && data[i..][1..] == data[i + 1..];
      line := line + [' ', HexDigit(data[i] / 16), HexDigit(data[i] % 16)];
      i := i + 1;
    }
  }

  /** log_sysinfo: first what is known without reading, then the frames, then the timing advance. */
  method PrintSysinfo(arfcn: nat, time: nat, position: Option<Position>, bsic: nat, rxlev: int,
                      got: map<Kind, seq<nat>>, ta: Option<nat>)
    returns (lines: seq<string>)
    requires Loggable(Sysinfo(arfcn, time, position, bsic, rxlev, got, ta))
    ensures lines == [Headline(Sysinfo(arfcn, time, position, bsic, rxlev, got, ta))]
                   + Body(Sysinfo(arfcn, time, position, bsic, rxlev, got, ta))
  {
    hide Decimal, Printed, PositionLines, BsicLine, IsFrame, Near, FrameLines, Body, Headline;
    lines := PrintHead(arfcn, time, position, bsic, rxlev);
    lines := PrintFrames(lines, got);
    if ta.Some? {
      lines := lines + ["ta " + Decimal(ta.value)];
    }
    lines := lines + [""];
    BodyParts(Sysinfo(arfcn, time, position, bsic, rxlev, got, ta));
  }

  lemma BodyParts(e: Logged)
    requires Loggable(e) && e.Sysinfo?
    ensures [Headline(e)] + Body(e)
         == ["[sysinfo]", "arfcn " + Decimal(e.arfcn), "time " + Decimal(e.time)] + PositionLines(e.position)
          + [BsicLine(e.bsic), "rxlev " + Printed(e.rxlev)] + FrameLines(e.got, ORDER) + TaLines(e.ta) + [""]
  {
    hide Decimal, Printed, PositionLines, BsicLine, IsFrame, FrameLines, TaLines;
    assert ["[sysinfo]"] + ["arfcn " + Decimal(e.arfcn), "time " + Decimal(e.time)]
        == ["[sysinfo]", "arfcn " + Decimal(e.arfcn), "time " + Decimal(e.time)];
  }

  method PrintHead(arfcn: nat, time: nat, position: Option<Position>, bsic: nat, rxlev: int)
    returns (lines: seq<string>)
    ensures lines == ["[sysinfo]", "arfcn " + Decimal(arfcn), "time " + Decimal(time)] + PositionLines(position)
                   + [BsicLine(bsic), "rxlev " + Printed(rxlev)]
  {
    hide Decimal, Printed, Fixed;
    lines := ["[sysinfo]"];
    lines := lines + ["arfcn " + Decimal(arfcn)];
    lines := lines + ["time " + Decimal(time)];
    if position.Some? {
      lines := lines + ["position " + Fixed(position.value.longitude) + " " + Fixed(position.value.latitude)];
    }
    lines := lines + ["bsic " + Decimal(bsic / 8) + "," + Decimal(bsic % 8)];
    lines := lines + ["rxlev " + Printed(rxlev)];
  }

  method PrintFrames(before: seq<string>, got: map<Kind, seq<nat>>) returns (lines: seq<string>)
    requires forall k :: k in got ==> IsFrame(got[k])
    ensures lines == before + FrameLines(got, ORDER)
  {
    hide FrameLines, IsFrame;
    lines := PrintKind(before, got, SI1);
    lines := PrintKind(lines, got, SI2);
    lines := PrintKind(lines, got, SI2bis);
    lines := PrintKind(lines, got, SI2ter);
    lines := PrintKind(lines, got, SI3);
    lines := PrintKind(lines, got, SI4);
    SixFrames(got);
  }

  method PrintKind(before: seq<string>, got: map<Kind, seq<nat>>, k: Kind) returns (lines: seq<string>)
    requires forall k :: k in got ==> IsFrame(got[k])
    ensures lines == before + FrameLines(got, [k])
  {
    assert [k][1..] == [];
    lines := before;
    if k in got {
      var line := PrintFrame(Tag(k), got[k]);
      lines := lines + [line];
    }
  }

  lemma {:induction false} FrameLinesJoin(got: map<Kind, seq<nat>>, a: seq<Kind>, b: seq<Kind>)
    requires forall k :: k in got ==> IsFrame(got[k])
    ensures FrameLines(got, a + b) == FrameLines(got, a) + FrameLines(got, b)
  {
    if a == [] {
      assert a + b == b;
    } else {
      assert (a + b)[1..] == a[1..] + b;
      FrameLinesJoin(got, a[1..], b);
    }
  }

  lemma SixFrames(got: map<Kind, seq<nat>>)
    requires forall k :: k in got ==> IsFrame(got[k])
    ensures FrameLines(got, ORDER) == FrameLines(got, [SI1]) + FrameLines(got, [SI2]) + FrameLines(got, [SI2bis])
                                    + FrameLines(got, [SI2ter]) + FrameLines(got, [SI3]) + FrameLines(got, [SI4])
  {
    hide FrameLines;
    assert [SI1] + [SI2] == [SI1, SI2] && [SI1, SI2] + [SI2bis] == [SI1, SI2, SI2bis];
    assert [SI1, SI2, SI2bis] + [SI2ter] == [SI1, SI2, SI2bis, SI2ter];
    assert [SI1, SI2, SI2bis, SI2ter] + [SI3] == [SI1, SI2, SI2bis, SI2ter, SI3];
    assert [SI1, SI2, SI2bis, SI2ter, SI3] + [SI4] == ORDER;
    FrameLinesJoin(got, [SI1], [SI2]);
    FrameLinesJoin(got, [SI1, SI2], [SI2bis]);
    FrameLinesJoin(got, [SI1, SI2, SI2bis], [SI2ter]);
    FrameLinesJoin(got, [SI1, SI2, SI2bis, SI2ter], [SI3]);
    FrameLinesJoin(got, [SI1, SI2, SI2bis, SI2ter, SI3], [SI4]);
  }

  ghost function Headline(e: Logged): string {
    if e.Power? then "[power]" else "[sysinfo]"
  }

  ghost function Lines(log: seq<Logged>): seq<string>
    requires forall i :: 0 <= i < |log| ==> Loggable(log[i])
  {
    if log == [] then [] else [Headline(log[0])] + Body(log[0]) + Lines(log[1..])
  }

  // ---------------------------------------------------------------- reading

  datatype Type = NoType | SysinfoType | PowerType

  datatype Place = Place(longitude: real, latitude: real)

  const NOWHERE := Place(0.0, 0.0)

  /**
    What the reader fills: the power table with time and place, and the information on a cell. There
    is one mark for a valid place in each structure, and valid is that of the cell; the power
    table's own is never set.
   */
  datatype Data = Data(rxlev: seq<int>, powerTime: nat, powerPlace: Place,
                       arfcn: int, time: nat, place: Place, valid: bool, bsic: int, level: int, ta: Option<int>,
                       got: map<Kind, seq<nat>>)

  ghost function Unread(): (r: seq<int>)
    ensures |r| == CHANNELS && forall i :: 0 <= i < CHANNELS ==> r[i] == -128
  {
    seq(CHANNELS, i => -128)
  }

  ghost function Blank(): (d: Data)
    ensures |d.rxlev| == CHANNELS
  {
    Data(Unread(), 0, NOWHERE, 0, 0, NOWHERE, false, 0, 0, None, map[])
  }

  predicate Starts(line: string, word: string) {
    word <= line
  }

  /** The frame a line is for. */
  function FrameOf(line: string): Option<Kind> {
    if Starts(line, "si1 ") then Some(SI1)
    else if Starts(line, "si2 ") then Some(SI2)
    else if Starts(line, "si2bis ") then Some(SI2bis)
    else if Starts(line, "si2ter ") then Some(SI2ter)
    else if Starts(line, "si3 ") then Some(SI3)
    else if Starts(line, "si4 ") then Some(SI4)
    else None
  }

  /** A 16 bit number. */
  function ToUint16(x: int): int {
    x % 0x1_0000
  }

  /** read_log_pos: two numbers, the second of which may be missing. */
  ghost function ReadPlace(buffer: string): Option<Place> {
    var s := Unspaced(buffer);
    var n := WordLength(s);
    if n == |s| then None else Some(Place(Atof(s[..n]), Atof(Unspaced(s[n + 1..]))))
  }

  /** How long the part before a comma or the end of the word is. */
  function PartLength(s: string): (n: nat)
    ensures n <= |s| && (n < |s| ==> s[n] <= ' ' || s[n] == ',') && forall i :: 0 <= i < n ==> s[i] > ' ' && s[i] != ','
  {
    if s == "" || s[0] <= ' ' || s[0] == ',' then 0 else 1 + PartLength(s[1..])
  }

  /** The bits of either of two numbers, k of them. */
  function Or(a: nat, b: nat, k: nat): nat {
    if k == 0 then 0 else (if a % 2 == 1 || b % 2 == 1 then 1 else 0) + 2 * Or(a / 2, b / 2, k - 1)
  }

  /** read_log_bsic: two parts with a comma between them, put together in 8 bits. */
  ghost function ReadBsic(buffer: string): Option<int> {
    var s := Unspaced(buffer);
    var n := PartLength(s);
    if n == |s| then None else Some(Or(8 * Atoi(s[..n]) % 256, Atoi(s[n + 1..]) % 256, 8))
  }

  /** One line that is no head line. */
  ghost function ApplyLine(t: Type, line: string, d: Data): (d': Data)
    requires |d.rxlev| == CHANNELS
    ensures |d'.rxlev| == CHANNELS
  {
    match t
    case NoType => d
    case PowerType =>
      if Starts(line, "arfcn ") then d.(rxlev := ReadRow(line[6..], d.rxlev))
      else if Starts(line, "time ") then d.(powerTime := Strtoul(line[5..]))
      else if Starts(line, "position ") && ReadPlace(line[9..]).Some? then
        d.(powerPlace := ReadPlace(line[9..]).value, valid := true)
      else d
    case SysinfoType =>
      if Starts(line, "arfcn ") then d.(arfcn := ToUint16(Atoi(line[6..])))
      else if FrameOf(line).Some? then
        var k := FrameOf(line).value;
        var bytes := HexBytes(line[|Tag(k)| + 1..], FRAME);
        if bytes.None? then d else d.(got := d.got[k := bytes.value])
      else if Starts(line, "time ") then d.(time := Strtoul(line[5..]))
      else if Starts(line, "position ") then
        var place := ReadPlace(line[9..]);
        if place.None? then d else d.(place := place.value, valid := true)
      else if Starts(line, "rxlev") then d.(level := ToInt8(Strtoul(line[5..])))
      else if Starts(line, "bsic ") then
        var bsic := ReadBsic(line[5..]);
        if bsic.None? then d else d.(bsic := bsic.value)
      else if Starts(line, "ta ") then d.(ta := Some(Atoi(line[3..]) % 256))
      else d
  }

  /** What one call of read_log returns and leaves. */
  datatype Result = Result(ret: Type, data: Data, rest: seq<string>, next: Type, eof: bool)

  ghost function HeadOf(line: string): Type {
    if line == "[sysinfo]" then SysinfoType else if line == "[power]" then PowerType else NoType
  }

  ghost predicate IsHead(line: string) {
    line != "" && line[0] == '['
  }

  ghost function Read(lines: seq<string>, t: Type, d: Data): (r: Result)
    requires |d.rxlev| == CHANNELS
    ensures |r.rest| <= |lines| && (!r.eof ==> |r.rest| < |lines|) && |r.data.rxlev| == CHANNELS
    decreases |lines|
  {
    if lines == [] then Result(t, d, [], t, true)
    else if IsHead(lines[0]) then
      var h := HeadOf(lines[0]);
      if h != NoType && t != NoType then Result(t, d, lines[1..], h, false) else Read(lines[1..], h, d)
    else Read(lines[1..], t, ApplyLine(t, lines[0], d))
  }

  class Reader {
    const file: seq<string>
    var pos: nat
    var logType: Type
    const rxlev: array<int>
    var powerTime: nat
    var powerPlace: Place
    var arfcn: int
    var time: nat
    var place: Place
    var valid: bool
    var bsic: int
    var level: int
    var ta: Option<int>
    var got: map<Kind, seq<nat>>
    var eof: bool

    constructor (file: seq<string>)
      ensures this.file == file && pos == 0 && logType == NoType && rxlev.Length == CHANNELS && !eof
    {
      this.file, pos, logType, eof := file, 0, NoType, false;
      rxlev := new int[CHANNELS](_ => 0);
      powerTime, powerPlace, arfcn, time, place := 0, NOWHERE, 0, 0, NOWHERE;
      valid, bsic, level, ta, got := false, 0, 0, None, map[];
    }

    ghost function View(): Data
      reads this, rxlev
    {
      Data(rxlev[..], powerTime, powerPlace, arfcn, time, place, valid, bsic, level, ta, got)
    }

    /** read_log before the end of the file was seen. */
    method ReadLog() returns (ret: Type)
      requires pos <= |file| && rxlev.Length == CHANNELS && !eof
      modifies this, rxlev
      ensures pos <= |file|
      ensures Result(ret, View(), file[pos..], logType, eof) == Read(old(file[pos..]), old(logType), Blank())
    {
      hide ReadRow, HexBytes, Atoi, FrameOf, Starts, Unread, ApplyLine;
      Clear();
      while pos < |file|
        invariant pos <= |file| && !eof
        invariant Read(file[pos..], logType, View()) == Read(old(file[pos..]), old(logType), Blank())
        decreases |file| - pos
      {
        var line := file[pos];
        assert file[pos..][0] == line && file[pos..][1..] == file[pos + 1..];
        pos := pos + 1;
        if line != "" && line[0] == '[' {
          var previous := logType;
          if line == "[sysinfo]" {
            logType := SysinfoType;
            if previous != NoType {
              return previous;
            }
          } else if line == "[power]" {
            logType := PowerType;
            if previous != NoType {
              return previous;
            }
          } else {
            logType := NoType;
          }
        } else {
          TakeLine(line);
        }
      }
      eof := true;
      return logType;
    }

    method Clear()
      requires rxlev.Length == CHANNELS
      modifies this, rxlev
      ensures View() == Blank() && pos == old(pos) && logType == old(logType) && eof == old(eof)
    {
      hide Unread;
      powerTime, powerPlace, arfcn, time, place := 0, NOWHERE, 0, 0, NOWHERE;
      valid, bsic, level, ta, got := false, 0, 0, None, map[];
      var i := 0;
      while i < CHANNELS
        modifies rxlev
        invariant i <= CHANNELS && forall k :: 0 <= k < i ==> rxlev[k] == -128
      {
        rxlev[i] := -128;
        i := i + 1;
      }
      assert rxlev[..] == Unread();
    }

    method TakeLine(line: string)
      requires rxlev.Length == CHANNELS
      modifies this, rxlev
      ensures View() == ApplyLine(logType, line, old(View()))
      ensures pos == old(pos) && logType == old(logType) && eof == old(eof)
    {
      hide ReadRow, HexBytes, Atoi, FrameOf, Strtoul, ReadPlace, ReadBsic;
      match logType
      case SysinfoType =>
        var k := FrameOf(line);
        if Starts(line, "arfcn ") {
          arfcn := ToUint16(Atoi(line[6..]));
        } else if k.Some? {
          TakeFrame(k.value, line);
        } else if Starts(line, "time ") {
          time := Strtoul(line[5..]);
        } else if Starts(line, "position ") {
          var p := ReadPosition(line[9..]);
          if p.Some? {
            place, valid := p.value, true;
          }
        } else if Starts(line, "rxlev") {
          level := ToInt8(Strtoul(line[5..]));
        } else if Starts(line, "bsic ") {
          var b := ReadCode(line[5..]);
          if b.Some? {
            bsic := b.value;
          }
        } else if Starts(line, "ta ") {
          ta := Some(Atoi(line[3..]) % 256);
        }
      case PowerType =>
        if Starts(line, "arfcn ") {
          ReadLogPower(line[6..], rxlev);
        } else if Starts(line, "time ") {
          powerTime := Strtoul(line[5..]);
        } else if Starts(line, "position ") {
          var p := ReadPosition(line[9..]);
          if p.Some? {
            powerPlace, valid := p.value, true;
          }
        }
      case NoType =>
    }

    method TakeFrame(k: Kind, line: string)
      requires FrameOf(line) == Some(k)
      modifies this`got
      ensures |Tag(k)| + 1 <= |line|
      ensures got ==
        match HexBytes(line[|Tag(k)| + 1..], FRAME)
        case Some(bytes) => old(got)[k := bytes]
        case None => old(got)
    {
      hide HexBytes;
      var bytes := ReadFrame(line[|Tag(k)| + 1..]);
      if bytes.Some? {
        got := got[k := bytes.value];
      }
    }
  }

  /** read_log_pos */
  method ReadPosition(buffer: string) returns (p: Option<Place>)
    ensures p == ReadPlace(buffer)
  {
    hide Atof, Unspaced, WordLength;
    var s := SkipSpaces(buffer);
    var n := FindEnd(s);
    if n == |s| {
      return None;
    }
    var t := SkipSpaces(s[n + 1..]);
    return Some(Place(Atof(s[..n]), Atof(t)));
  }

  /** read_log_bsic */
  method ReadCode(buffer: string) returns (b: Option<int>)
    ensures b == ReadBsic(buffer)
  {
    hide Atoi, Unspaced, Or;
    var s := SkipSpaces(buffer);
    var n := 0;
    while n < |s| && s[n] > ' ' && s[n] != ','
      invariant n <= |s| && PartLength(s) == n + PartLength(s[n..])
    {
      assert s[n..][0] == s[n] && s[n..][1..] == s[n + 1..];
      n := n + 1;
    }
    if n == |s| {
      return None;
    }
    assert s[n..][0] == s[n];
    return Some(Or(8 * Atoi(s[..n]) % 256, Atoi(s[n + 1..]) % 256, 8));
  }

  /** read_log_si */
  method ReadFrame(buffer: string) returns (r: Option<seq<nat>>)
    ensures r == HexBytes(buffer, FRAME)
  {
    hide HexValue, HexBytes, Unspaced;
    var s: string, si: seq<nat> := buffer, [];
    NothingRead(HexBytes(buffer, FRAME));
    var i := 0;
    while i < FRAME
      invariant i <= FRAME && |si| == i
      invariant HexBytes(buffer, FRAME) == Behind(si, HexBytes(s, FRAME - i))
    {
      HexStep(s, FRAME - i);
      s := SkipSpaces(s);
      if s == "" || HexValue(s[0]) == 16 {
        return None;
      }
      var b := 16 * HexValue(s[0]);
      if |s| < 2 || HexValue(s[1]) == 16 {
        return None;
      }
      b := b + HexValue(s[1]);
      OneRead(si, b, HexBytes(s[2..], FRAME - i - 1));
      si := si + [b];
      s := s[2..];
      i := i + 1;
    }
    NoneLeft(s, si);
    r := Some(si);
  }

  lemma HexStep(s: string, n: nat)
    requires n > 0
    ensures var t := Unspaced(s);
      HexBytes(s, n) == if |t| < 2 || HexValue(t[0]) == 16 || HexValue(t[1]) == 16 then None
                        else Behind([16 * HexValue(t[0]) + HexValue(t[1])], HexBytes(t[2..], n - 1))
  {}

  lemma NothingRead(r: Option<seq<nat>>)
    ensures Behind([], r) == r
  {
    var none: seq<nat> := [];
    if r.Some? { assert none + r.value == r.value; }
  }

  lemma OneRead(si: seq<nat>, b: nat, r: Option<seq<nat>>)
    ensures Behind(si, Behind([b], r)) == Behind(si + [b], r)
  {
    if r.Some? { assert si + ([b] + r.value) == si + [b] + r.value; }
  }

  lemma NoneLeft(s: string, si: seq<nat>)
    ensures Behind(si, HexBytes(s, 0)) == Some(si)
  {
    var none: seq<nat> := [];
    assert si + none == si;
  }

  ghost function Behind(si: seq<nat>, r: Option<seq<nat>>): Option<seq<nat>> {
    if r.None? then None else Some(si + r.value)
  }

  // ---------------------------------------------------------------- reading undoes printing

  ghost function TypeOf(e: Logged): Type {
    if e.Power? then PowerType else SysinfoType
  }

  ghost function PlaceOf(p: Option<Position>): Place {
    if p.Some? then Place(p.value.longitude as real / SCALE as real, p.value.latitude as real / SCALE as real)
      else NOWHERE
  }

  /**
    What a record restores: the power of the measured channels and -128 for the others, or all that
    was printed of a cell; and where and when it was.
   */
  ghost function DataOf(e: Logged): Data
    requires Loggable(e)
  {
    match e
    case Power(time, position, pm) =>
      Blank().(rxlev := Levels(pm), powerTime := time, powerPlace := PlaceOf(position), valid := position.Some?)
    case Sysinfo(arfcn, time, position, bsic, rxlev, got, ta) =>
      Blank().(arfcn := arfcn, time := time, place := PlaceOf(position), valid := position.Some?, bsic := bsic,
        level := rxlev,
               ta := (if ta.Some? then Some(ta.value) else None), got := got)
  }

  ghost function Levels(pm: seq<Cell>): (r: seq<int>)
    requires |pm| == CHANNELS
    ensures |r| == CHANNELS && forall a :: 0 <= a < CHANNELS ==> r[a] == if pm[a].measured then pm[a].rxlev else -128
  {
    seq(CHANNELS, i requires 0 <= i < CHANNELS => if pm[i].measured then pm[i].rxlev else -128)
  }

  /** Several lines, none of them a head line. */
  ghost function ApplyLines(t: Type, lines: seq<string>, d: Data): (d': Data)
    requires |d.rxlev| == CHANNELS
    ensures |d'.rxlev| == CHANNELS
    decreases |lines|
  {
    if lines == [] then d else ApplyLines(t, lines[1..], ApplyLine(t, lines[0], d))
  }

  ghost predicate NoHeads(lines: seq<string>) {
    forall i :: 0 <= i < |lines| ==> !IsHead(lines[i])
  }

  lemma {:induction false} ReadOn(lines: seq<string>, tail: seq<string>, t: Type, d: Data)
    requires |d.rxlev| == CHANNELS && NoHeads(lines)
    ensures Read(lines + tail, t, d) == Read(tail, t, ApplyLines(t, lines, d))
    decreases |lines|
  {
    hide ApplyLine;
    if lines == [] {
      assert lines + tail == tail;
    } else {
      assert (lines + tail)[1..] == lines[1..] + tail;
      assert !IsHead((lines + tail)[0]);
      ReadOn(lines[1..], tail, t, ApplyLine(t, lines[0], d));
    }
  }

  lemma {:induction false} ApplyJoin(t: Type, a: seq<string>, b: seq<string>, d: Data)
    requires |d.rxlev| == CHANNELS
    ensures ApplyLines(t, a + b, d) == ApplyLines(t, b, ApplyLines(t, a, d))
    decreases |a|
  {
    hide ApplyLine;
    if a == [] {
      assert a + b == b;
    } else {
      assert (a + b)[1..] == a[1..] + b;
      ApplyJoin(t, a[1..], b, ApplyLine(t, a[0], d));
    }
  }

  lemma ApplyOne(t: Type, line: string, d: Data)
    requires |d.rxlev| == CHANNELS
    ensures ApplyLines(t, [line], d) == ApplyLine(t, line, d)
  {
    assert [line][1..] == [];
  }

  // ---------------------------------------------------------------- power records

  ghost predicate GoodRow(row: Row) {
    0 < |row.values| <= ROW && row.start + |row.values| <= CHANNELS && forall k :: 0 <= k < |row.values| ==>
      -128 <= row.values[k] < 128
  }

  ghost predicate GoodRows(rows: seq<Row>) {
    forall i :: 0 <= i < |rows| ==> GoodRow(rows[i])
  }

  lemma {:induction false} RowsGood(pm: seq<Cell>, i: nat, open: Row)
    requires i <= |pm| == CHANNELS && OpenAt(open, i) && |open.values| < ROW && (open.values != [] ==> GoodRow(open))
    requires forall a :: 0 <= a < CHANNELS ==> -128 <= pm[a].rxlev < 128
    ensures GoodRows(Rows(pm, i, open))
    decreases |pm| - i
  {
    if i < |pm| {
      var row := Extended(open, i, pm[i].rxlev);
      if pm[i].measured && |row.values| < ROW {
        assert GoodRow(row);
        RowsGood(pm, i + 1, row);
      } else {
        RowsGood(pm, i + 1, Row(0, []));
      }
    }
  }

  /** A printed row is far shorter than the reader's buffer of 256 characters. */
  lemma RowShort(row: Row)
    requires GoodRow(row)
    ensures |RowText(row)| <= 70
  {
    DecimalShort(row.start, 4);
    ValuesShort(row.values);
  }

  lemma {:induction false} DecimalShort(n: nat, k: nat)
    requires k > 0 && n < Pow10(k)
    ensures |Decimal(n)| <= k
    decreases k
  {
    if n >= 10 { DecimalShort(n / 10, k - 1); }
  }

  lemma {:induction false} ValuesShort(values: seq<int>)
    requires forall k :: 0 <= k < |values| ==> -128 <= values[k] < 128
    ensures |ValueText(values)| <= 5 * |values|
  {
    hide Decimal;
    if values != [] {
      DecimalShort(if values[0] < 0 then -values[0] else values[0], 3);
      ValuesShort(values[1..]);
    }
  }

  lemma {:induction false} RowsRead(rows: seq<Row>, d: Data)
    requires GoodRows(rows) && |d.rxlev| == CHANNELS
    ensures RowsFit(rows, CHANNELS) && NoHeads(RowTexts(rows))
    ensures ApplyLines(PowerType, RowTexts(rows), d) == d.(rxlev := ApplyAll(rows, d.rxlev))
    decreases |rows|
  {
    hide RowText, ReadRow, Apply;
    if rows != [] {
      assert GoodRow(rows[0]);
      RowRead(rows[0], d);
      RowsRead(rows[1..], d.(rxlev := Apply(rows[0], d.rxlev)));
      assert RowTexts(rows)[1..] == RowTexts(rows[1..]);
    }
  }

  lemma RowRead(row: Row, d: Data)
    requires GoodRow(row) && |d.rxlev| == CHANNELS
    ensures !IsHead(RowText(row)) && ApplyLine(PowerType, RowText(row), d) == d.(rxlev := Apply(row, d.rxlev))
  {
    RowRoundTrip(row, d.rxlev);
    var s := RowText(row);
    assert "arfcn " <= s;
    assert s[0] == 'a';
  }

  /** Only lines that start with an s are for frames. */
  lemma NoFrame(s: string)
    requires s == "" || s[0] != 's'
    ensures FrameOf(s).None?
  {}

  /** Lines start as they are printed. */
  lemma Starting(word: string, t: string)
    ensures Starts(word + t, word) && (word + t)[|word|..] == t
    ensures word != "" ==> (word + t)[0] == word[0]
  {}

  /** An empty line means nothing to the reader. */
  lemma EmptyRead(t: Type, d: Data)
    requires |d.rxlev| == CHANNELS
    ensures !IsHead("") && ApplyLine(t, "", d) == d
  {
    assert FrameOf("").None?;
  }

  lemma TimeRead(n: nat, d: Data)
    requires |d.rxlev| == CHANNELS && n < ULONG / 2
    ensures !IsHead("time " + Decimal(n))
    ensures ApplyLine(PowerType, "time " + Decimal(n), d) == d.(powerTime := n)
    ensures ApplyLine(SysinfoType, "time " + Decimal(n), d) == d.(time := n)
  {
    hide Strtoul, FrameOf, Decimal;
    var s := "time " + Decimal(n);
    StrtoulPrinted(n, Decimal(n));
    Starting("time ", Decimal(n));
    NoFrame(s);
    assert s[0] == 't' && s[1] == 'i';
  }

  lemma PlaceRead(p: Position)
    ensures ReadPlace(Fixed(p.longitude) + " " + Fixed(p.latitude)) == Some(PlaceOf(Some(p)))
  {
    hide Fixed, Atof;
    var v, w := Fixed(p.longitude), Fixed(p.latitude);
    var s := v + " " + w;
    assert s == v + (" " + w);
    assert s[0] == v[0];
    assert Unspaced(s) == s;
    WordOf(v, " " + w);
    assert s[..|v|] == v && s[|v| + 1..] == w;
    assert Unspaced(w) == w;
    AtofFixed(p.longitude);
    AtofFixed(p.latitude);
  }

  /** The place is restored; the mark that it is valid is always the one of the cell. */
  lemma PositionRead(p: Position, d: Data)
    requires |d.rxlev| == CHANNELS
    ensures !IsHead(PositionLine(p))
    ensures ApplyLine(PowerType, PositionLine(p), d) == d.(powerPlace := PlaceOf(Some(p)), valid := true)
    ensures ApplyLine(SysinfoType, PositionLine(p), d) == d.(place := PlaceOf(Some(p)), valid := true)
  {
    hide ReadPlace, Fixed, PlaceOf, FrameOf;
    var v, w := Fixed(p.longitude), Fixed(p.latitude);
    PlaceRead(p);
    var s := PositionLine(p);
    assert s == "position " + (v + " " + w);
    Starting("position ", v + " " + w);
    NoFrame(s);
    assert s[0] == 'p';
  }

  lemma PositionsRead(p: Option<Position>, d: Data)
    requires |d.rxlev| == CHANNELS && d.powerPlace == d.place == NOWHERE && !d.valid
    ensures NoHeads(PositionLines(p))
    ensures ApplyLines(PowerType, PositionLines(p), d) == d.(powerPlace := PlaceOf(p), valid := p.Some?)
    ensures ApplyLines(SysinfoType, PositionLines(p), d) == d.(place := PlaceOf(p), valid := p.Some?)
  {
    hide ApplyLine, PositionLine;
    if p.Some? {
      PositionRead(p.value, d);
      ApplyOne(PowerType, PositionLine(p.value), d);
      ApplyOne(SysinfoType, PositionLine(p.value), d);
    }
  }

  lemma PowerRead(e: Logged)
    requires Loggable(e) && e.Power?
    ensures NoHeads(Body(e)) && ApplyLines(PowerType, Body(e), Blank()) == DataOf(e)
  {
    hide Rows, RowText, ApplyLine, Unread, Decimal, Shows, ApplyAll, Levels, ApplyLines, PlaceOf, PositionLine;
    var rows, time := Rows(e.pm, 0, Row(0, [])), "time " + Decimal(e.time);
    var d := Blank();
    var d1 := d.(powerTime := e.time);
    var d2 := d1.(powerPlace := PlaceOf(e.position), valid := e.position.Some?);
    RowsGood(e.pm, 0, Row(0, []));
    RowsRead(rows, d2);
    RowsRestore(e.pm, 0, Row(0, []), d.rxlev);
    ShownIsLevels(e.pm, d.rxlev, ApplyAll(rows, d.rxlev));
    TimeRead(e.time, d);
    PositionsRead(e.position, d1);
    EmptyRead(PowerType, DataOf(e));
    ApplyJoin(PowerType, [time] + PositionLines(e.position) + RowTexts(rows), [""], d);
    ApplyJoin(PowerType, [time] + PositionLines(e.position), RowTexts(rows), d);
    ApplyJoin(PowerType, [time], PositionLines(e.position), d);
    ApplyOne(PowerType, time, d);
    ApplyOne(PowerType, "", DataOf(e));
  }

  /** So a place read with a power table looks like none: its own mark is not set, that of the cell is. */
  lemma PowerPlaceUnmarked(e: Logged)
    requires Loggable(e) && e.Power? && e.position.Some?
    ensures var d := ApplyLines(PowerType, Body(e), Blank());
      d.powerPlace == PlaceOf(e.position) && d.valid && d.place == NOWHERE
  {
    PowerRead(e);
  }

  lemma ShownIsLevels(pm: seq<Cell>, r: seq<int>, r': seq<int>)
    requires |pm| == CHANNELS == |r| && (forall i :: 0 <= i < CHANNELS ==> r[i] == -128)
      && Shows(pm, 0, Row(0, []), r, r')
    ensures r' == Levels(pm)
  {
    forall a: nat | a < CHANNELS ensures r'[a] == Levels(pm)[a] {
      assert r'[a] == Known(pm, 0, Row(0, []), r, a);
    }
  }

  // ---------------------------------------------------------------- system information records

  lemma TagFound(k: Kind, t: string)
    requires t != "" && t[0] == ' '
    ensures FrameOf(Tag(k) + t) == Some(k) && Tag(k) + t != "" && (Tag(k) + t)[0] == 's'
    ensures (Tag(k) + t)[|Tag(k)| + 1..] == t[1..] && !Starts(Tag(k) + t, "arfcn ")
  {
    var s := Tag(k) + t;
    assert s[0] == 's' && s[1] == 'i' && s[|Tag(k)|] == ' ';
    assert Tag(k) + " " <= s;
    assert k == SI2bis ==> s[3] == 'b';
    assert k == SI2ter ==> s[3] == 't';
    assert k == SI3 ==> s[2] == '3';
    assert k == SI4 ==> s[2] == '4';
    assert k in {SI2, SI2bis, SI2ter} ==> s[2] == '2';
  }

  lemma FrameRead(k: Kind, bytes: seq<nat>, d: Data)
    requires IsFrame(bytes) && |d.rxlev| == CHANNELS
    ensures !IsHead(FrameLine(k, bytes))
      && ApplyLine(SysinfoType, FrameLine(k, bytes), d) == d.(got := d.got[k := bytes])
  {
    hide FrameOf, Tag, HexBytes, HexText;
    FrameText(bytes);
    TagFound(k, HexText(bytes));
  }

  lemma FrameText(bytes: seq<nat>)
    requires IsFrame(bytes)
    ensures HexText(bytes) != "" && HexText(bytes)[0] == ' ' && HexBytes(HexText(bytes)[1..], FRAME) == Some(bytes)
  {
    hide HexBytes, HexText, HexValue, Unspaced, Behind;
    var t := HexText(bytes);
    HexRoundTrip(bytes, "");
    assert t + "" == t;
    HexStarts(bytes);
    SpaceSkipped(t);
    HexStep(t, FRAME);
    HexStep(t[1..], FRAME);
  }

  lemma HexStarts(bytes: seq<nat>)
    requires bytes != [] && forall i :: 0 <= i < |bytes| ==> bytes[i] < 256
    ensures HexText(bytes) != "" && HexText(bytes)[0] == ' '
  {}

  lemma SpaceSkipped(t: string)
    requires t != "" && t[0] == ' '
    ensures Unspaced(t) == Unspaced(t[1..])
  {}

  ghost function Merged(got: map<Kind, seq<nat>>, ks: seq<Kind>, base: map<Kind, seq<nat>>): map<Kind, seq<nat>>
    decreases |ks|
  {
    if ks == [] then base else Merged(got, ks[1..], if ks[0] in got then base[ks[0] := got[ks[0]]] else base)
  }

  lemma {:induction false} MergedIs(got: map<Kind, seq<nat>>, ks: seq<Kind>, base: map<Kind, seq<nat>>)
    ensures forall k :: k in Merged(got, ks, base) <==> k in base || (k in ks && k in got)
    ensures forall k :: k in ks && k in got ==> Merged(got, ks, base)[k] == got[k]
    ensures forall k :: k in base && !(k in ks && k in got) ==> Merged(got, ks, base)[k] == base[k]
    decreases |ks|
  {
    if ks != [] {
      MergedIs(got, ks[1..], if ks[0] in got then base[ks[0] := got[ks[0]]] else base);
    }
  }

  lemma AllMerged(got: map<Kind, seq<nat>>)
    ensures Merged(got, ORDER, map[]) == got
  {
    MergedIs(got, ORDER, map[]);
    forall k: Kind ensures k in ORDER {
      InOrder(k);
    }
  }

  lemma InOrder(k: Kind)
    ensures k in ORDER
  {
    match k
    case SI1 => assert ORDER[0] == k;
    case SI2 => assert ORDER[1] == k;
    case SI2bis => assert ORDER[2] == k;
    case SI2ter => assert ORDER[3] == k;
    case SI3 => assert ORDER[4] == k;
    case SI4 => assert ORDER[5] == k;
  }

  lemma {:induction false} FramesRead(got: map<Kind, seq<nat>>, ks: seq<Kind>, d: Data)
    requires (forall k :: k in got ==> IsFrame(got[k])) && |d.rxlev| == CHANNELS
    ensures NoHeads(FrameLines(got, ks))
    ensures ApplyLines(SysinfoType, FrameLines(got, ks), d) == d.(got := Merged(got, ks, d.got))
    decreases |ks|
  {
    hide ApplyLine, FrameLine, IsFrame;
    if ks != [] {
      if ks[0] in got {
        var d1 := d.(got := d.got[ks[0] := got[ks[0]]]);
        FrameRead(ks[0], got[ks[0]], d);
        FramesRead(got, ks[1..], d1);
        assert FrameLines(got, ks)[1..] == FrameLines(got, ks[1..]);
      } else {
        FramesRead(got, ks[1..], d);
        assert FrameLines(got, ks) == FrameLines(got, ks[1..]);
      }
    }
  }

  lemma ChannelRead(n: nat, d: Data)
    requires |d.rxlev| == CHANNELS && n < 0x1_0000
    ensures !IsHead("arfcn " + Decimal(n)) && ApplyLine(SysinfoType, "arfcn " + Decimal(n), d) == d.(arfcn := n)
  {
    hide Atoi, Decimal, FrameOf;
    AtoiPrinted(n);
    Starting("arfcn ", Decimal(n));
  }

  lemma LevelRead(n: int, d: Data)
    requires |d.rxlev| == CHANNELS && -128 <= n < 128
    ensures !IsHead("rxlev " + Printed(n)) && ApplyLine(SysinfoType, "rxlev " + Printed(n), d) == d.(level := n)
  {
    hide Strtoul, Printed, FrameOf;
    var s := "rxlev " + Printed(n);
    assert s == "rxlev" + (" " + Printed(n));
    Starting("rxlev", " " + Printed(n));
    StrtoulPrinted(n, " " + Printed(n));
    NoFrame(s);
    assert s[0] == 'r';
    Int8OfUlong(n);
  }

  lemma Int8OfUlong(n: int)
    requires -128 <= n < 128
    ensures ToInt8(n % ULONG) == n
  {}

  lemma OrApart(a: nat, b: nat)
    requires a < 8 && b < 8
    ensures Or(8 * a % 256, b % 256, 8) == 8 * a + b
  {
    hide Or;
    OrEven(4 * a, b, 7);
    OrEven(2 * a, b / 2, 6);
    OrEven(a, b / 4, 5);
    OrNothing(a, 5);
    assert b / 2 / 2 == b / 4 && b / 4 / 2 == 0;
  }

  lemma OrEven(x: nat, y: nat, k: nat)
    ensures Or(2 * x, y, k + 1) == y % 2 + 2 * Or(x, y / 2, k)
  {
    assert 2 * x % 2 == 0 && 2 * x / 2 == x;
  }

  lemma OrNothing(a: nat, k: nat)
    requires a < 8 && k >= 3
    ensures Or(a, 0, k) == a
  {
    hide Or;
    OrLow(a, k - 1);
    OrLow(a / 2, k - 2);
    OrLow(a / 4, k - 3);
    OrZero(k - 3);
    assert a / 2 / 2 == a / 4 && a / 4 / 2 == 0;
  }

  lemma OrLow(a: nat, k: nat)
    ensures Or(a, 0, k + 1) == a % 2 + 2 * Or(a / 2, 0, k)
  {}

  lemma {:induction false} OrZero(k: nat)
    ensures Or(0, 0, k) == 0
  {
    if k > 0 { OrZero(k - 1); }
  }

  lemma {:induction false} PartOf(w: string, t: string)
    requires (forall i :: 0 <= i < |w| ==> IsDigit(w[i])) && t != "" && t[0] == ','
    ensures PartLength(w + t) == |w|
  {
    if w == "" {
      assert w + t == t;
    } else {
      assert (w + t)[1..] == w[1..] + t;
      PartOf(w[1..], t);
    }
  }

  lemma CodeRead(bsic: nat)
    requires bsic < 64
    ensures ReadBsic(Decimal(bsic / 8) + "," + Decimal(bsic % 8)) == Some(bsic)
  {
    hide Atoi, Or, Decimal, PartLength;
    var v, w := Decimal(bsic / 8), Decimal(bsic % 8);
    var t := v + "," + w;
    assert t == v + ("," + w) && t[0] == v[0] && IsDigit(v[0]);
    assert Unspaced(t) == t;
    PartOf(v, "," + w);
    assert t[..|v|] == v && t[|v| + 1..] == w;
    AtoiPrinted(bsic / 8);
    AtoiPrinted(bsic % 8);
    OrApart(bsic / 8, bsic % 8);
  }

  lemma BsicRead(bsic: nat, d: Data)
    requires |d.rxlev| == CHANNELS && bsic < 64
    ensures !IsHead(BsicLine(bsic)) && ApplyLine(SysinfoType, BsicLine(bsic), d) == d.(bsic := bsic)
  {
    hide ReadBsic, Decimal, FrameOf;
    var s, t := BsicLine(bsic), Decimal(bsic / 8) + "," + Decimal(bsic % 8);
    assert s == "bsic " + t;
    Starting("bsic ", t);
    NoFrame(s);
    assert s[0] == 'b';
    CodeRead(bsic);
  }

  lemma AdvanceLine(ta: nat, d: Data)
    requires |d.rxlev| == CHANNELS && ta < 255
    ensures !IsHead("ta " + Decimal(ta)) && ApplyLine(SysinfoType, "ta " + Decimal(ta), d) == d.(ta := Some(ta))
  {
    hide Atoi, Decimal, FrameOf;
    var s := "ta " + Decimal(ta);
    AtoiPrinted(ta);
    Starting("ta ", Decimal(ta));
    NoFrame(s);
    assert s[0] == 't' && s[1] == 'a';
  }

  lemma AdvanceRead(ta: Option<nat>, d: Data)
    requires |d.rxlev| == CHANNELS && (ta.Some? ==> ta.value < 255) && d.ta == None
    ensures NoHeads(TaLines(ta))
    ensures ApplyLines(SysinfoType, TaLines(ta), d) == d.(ta := if ta.Some? then Some(ta.value) else None)
  {
    hide ApplyLine, Decimal;
    if ta.Some? {
      AdvanceLine(ta.value, d);
      ApplyOne(SysinfoType, "ta " + Decimal(ta.value), d);
    }
  }

  lemma SysinfoRead(e: Logged)
    requires Loggable(e) && e.Sysinfo?
    ensures NoHeads(Body(e)) && ApplyLines(SysinfoType, Body(e), Blank()) == DataOf(e)
  {
    hide ApplyLine, Decimal, Printed, FrameLines, Merged, IsFrame, ApplyLines, PositionLines, BsicLine, TaLines,
      PlaceOf, Unread;
    var a, b, c, l := "arfcn " + Decimal(e.arfcn), "time " + Decimal(e.time), BsicLine(e.bsic),
      "rxlev " + Printed(e.rxlev);
    var frames, d := FrameLines(e.got, ORDER), Blank();
    var d1 := d.(arfcn := e.arfcn);
    var d2 := d1.(time := e.time);
    var d3 := d2.(place := PlaceOf(e.position), valid := e.position.Some?);
    var d4 := d3.(bsic := e.bsic);
    var d5 := d4.(level := e.rxlev);
    var d6 := d5.(got := e.got);
    ChannelRead(e.arfcn, d);
    TimeRead(e.time, d1);
    PositionsRead(e.position, d2);
    BsicRead(e.bsic, d3);
    LevelRead(e.rxlev, d4);
    FramesRead(e.got, ORDER, d5);
    AllMerged(e.got);
    AdvanceRead(e.ta, d6);
    EmptyRead(SysinfoType, DataOf(e));
    TwoLines(a, b, d);
    TwoLines(c, l, d3);
    ApplyOne(SysinfoType, "", DataOf(e));
    FiveParts([a, b], PositionLines(e.position), [c, l], frames, TaLines(e.ta), d);
    ApplyJoin(SysinfoType, [a, b] + PositionLines(e.position) + [c, l] + frames + TaLines(e.ta), [""], d);
  }

  lemma TwoLines(a: string, b: string, d: Data)
    requires |d.rxlev| == CHANNELS
    ensures ApplyLines(SysinfoType, [a, b], d) == ApplyLine(SysinfoType, b, ApplyLine(SysinfoType, a, d))
  {
    hide ApplyLine;
    assert [a, b] == [a] + [b];
    ApplyJoin(SysinfoType, [a], [b], d);
    ApplyOne(SysinfoType, a, d);
    ApplyOne(SysinfoType, b, ApplyLine(SysinfoType, a, d));
  }

  lemma FiveParts(a: seq<string>, b: seq<string>, c: seq<string>, f: seq<string>, g: seq<string>, d: Data)
    requires |d.rxlev| == CHANNELS
    ensures ApplyLines(SysinfoType, a + b + c + f + g, d)
         == ApplyLines(SysinfoType, g, ApplyLines(SysinfoType, f, ApplyLines(SysinfoType, c,
              ApplyLines(SysinfoType, b, ApplyLines(SysinfoType, a, d)))))
  {
    hide ApplyLine, ApplyLines;
    ApplyJoin(SysinfoType, a + b + c + f, g, d);
    ApplyJoin(SysinfoType, a + b + c, f, d);
    ApplyJoin(SysinfoType, a + b, c, d);
    ApplyJoin(SysinfoType, a, b, d);
  }

  // ---------------------------------------------------------------- the reader's buffer

  ghost predicate Short(lines: seq<string>) {
    forall i :: 0 <= i < |lines| ==> |lines[i]| <= 80
  }

  lemma {:induction false} RowsShort(rows: seq<Row>)
    requires GoodRows(rows)
    ensures Short(RowTexts(rows))
  {
    hide RowText;
    if rows != [] {
      assert GoodRow(rows[0]);
      RowShort(rows[0]);
      RowsShort(rows[1..]);
    }
  }

  lemma {:induction false} HexShort(bytes: seq<nat>)
    requires forall i :: 0 <= i < |bytes| ==> bytes[i] < 256
    ensures |HexText(bytes)| == 3 * |bytes|
  {
    if bytes != [] { HexShort(bytes[1..]); }
  }

  lemma {:induction false} FramesShort(got: map<Kind, seq<nat>>, ks: seq<Kind>)
    requires forall k :: k in got ==> IsFrame(got[k])
    ensures Short(FrameLines(got, ks))
  {
    if ks != [] {
      if ks[0] in got { HexShort(got[ks[0]]); }
      FramesShort(got, ks[1..]);
    }
  }

  lemma FixedShort(x: int)
    requires Near(x)
    ensures |Fixed(x)| <= 13
  {
    hide Decimal;
    DecimalShort((if x < 0 then -x else x) / SCALE, 3);
  }

  lemma PositionsShort(p: Option<Position>)
    requires p.Some? ==> Near(p.value.longitude) && Near(p.value.latitude)
    ensures Short(PositionLines(p))
  {
    if p.Some? {
      FixedShort(p.value.longitude);
      FixedShort(p.value.latitude);
    }
  }

  lemma NumberShort(n: nat)
    requires n < ULONG
    ensures |Decimal(n)| <= 20 && (n < 100_000 ==> |Decimal(n)| <= 5)
  {
    hide Decimal;
    assert Pow10(20) > ULONG by { assert Pow10(10) == 10_000_000_000; }
    assert Pow10(5) == 100_000;
    DecimalShort(n, 20);
    if n < 100_000 { DecimalShort(n, 5); }
  }

  /** The lines of a cell that hold numbers. */
  lemma CellShort(e: Logged)
    requires Loggable(e) && e.Sysinfo?
    ensures Short(["arfcn " + Decimal(e.arfcn), "time " + Decimal(e.time)])
    ensures Short([BsicLine(e.bsic), "rxlev " + Printed(e.rxlev)]) && Short(TaLines(e.ta))
  {
    hide Decimal, IsFrame;
    NumberShort(e.arfcn);
    NumberShort(e.time);
    NumberShort(e.bsic / 8);
    NumberShort(e.bsic % 8);
    NumberShort(if e.rxlev < 0 then -e.rxlev else e.rxlev);
    if e.ta.Some? { NumberShort(e.ta.value); }
  }

  lemma ShortJoin(a: seq<string>, b: seq<string>)
    requires Short(a) && Short(b)
    ensures Short(a + b)
  {}

  /** No line of a record is too long for the reader's buffer of 256 characters. */
  lemma LinesShort(e: Logged)
    requires Loggable(e)
    ensures Short(Body(e))
  {
    hide Decimal, Printed, PositionLines, FrameLines, RowTexts, Rows, BsicLine, TaLines, Short, IsFrame;
    var positions := PositionLines(e.position);
    PositionsShort(e.position);
    EmptyShort();
    if e.Power? {
      var rows := RowTexts(Rows(e.pm, 0, Row(0, [])));
      RowsGood(e.pm, 0, Row(0, []));
      RowsShort(Rows(e.pm, 0, Row(0, [])));
      TimeShort(e.time);
      ShortJoin(["time " + Decimal(e.time)], positions);
      ShortJoin(["time " + Decimal(e.time)] + positions, rows);
      ShortJoin(["time " + Decimal(e.time)] + positions + rows, [""]);
    } else {
      var a, c := ["arfcn " + Decimal(e.arfcn), "time " + Decimal(e.time)],
        [BsicLine(e.bsic), "rxlev " + Printed(e.rxlev)];
      CellShort(e);
      FramesShort(e.got, ORDER);
      ShortJoin(a, positions);
      ShortJoin(a + positions, c);
      ShortJoin(a + positions + c, FrameLines(e.got, ORDER));
      ShortJoin(a + positions + c + FrameLines(e.got, ORDER), TaLines(e.ta));
      ShortJoin(a + positions + c + FrameLines(e.got, ORDER) + TaLines(e.ta), [""]);
    }
  }

  lemma EmptyShort()
    ensures Short([""])
  {}

  lemma TimeShort(n: nat)
    requires n < ULONG
    ensures Short(["time " + Decimal(n)])
  {
    hide Decimal;
    NumberShort(n);
  }

  // ---------------------------------------------------------------- whole logs

  /** All calls of read_log, until one sees the end of the file. */
  ghost function ReadAll(lines: seq<string>, t: Type): seq<(Type, Data)>
    decreases |lines|
  {
    var r := Read(lines, t, Blank());
    [(r.ret, r.data)] + if r.eof then [] else ReadAll(r.rest, r.next)
  }

  ghost function Expected(log: seq<Logged>): seq<(Type, Data)>
    requires forall i :: 0 <= i < |log| ==> Loggable(log[i])
  {
    if log == [] then [] else [(TypeOf(log[0]), DataOf(log[0]))] + Expected(log[1..])
  }

  lemma {:induction false} ReadFrom(log: seq<Logged>)
    requires log != [] && forall i :: 0 <= i < |log| ==> Loggable(log[i])
    ensures ReadAll(Body(log[0]) + Lines(log[1..]), TypeOf(log[0])) == Expected(log)
    decreases |log|
  {
    hide Body, DataOf, Loggable, Blank, ApplyLine, ApplyLines, NoHeads;
    var e, tail := log[0], Lines(log[1..]);
    if e.Power? { PowerRead(e); } else { SysinfoRead(e); }
    ReadOn(Body(e), tail, TypeOf(e), Blank());
    if log[1..] != [] {
      ReadFrom(log[1..]);
      var f := log[1..][0];
      assert tail[0] == Headline(f) && tail[1..] == Body(f) + Lines(log[1..][1..]);
      HeadRead(f);
    }
  }

  lemma HeadRead(f: Logged)
    ensures IsHead(Headline(f)) && HeadOf(Headline(f)) == TypeOf(f) != NoType
  {
    assert "[power]"[0] == '[' && "[sysinfo]"[0] == '[' && "[power]"[1] != "[sysinfo]"[1];
  }

  /** Every log of at least one record is read back record by record. */
  lemma LogRoundTrip(log: seq<Logged>)
    requires log != [] && forall i :: 0 <= i < |log| ==> Loggable(log[i])
    ensures ReadAll(Lines(log), NoType) == Expected(log)
  {
    hide Body, DataOf, Loggable, Blank, ReadAll, Read, Expected, Lines, Headline, HeadOf, IsHead, TypeOf;
    ReadFrom(log);
    HeadRead(log[0]);
    var rest := Body(log[0]) + Lines(log[1..]);
    LinesSplit(log);
    FirstHead(Headline(log[0]), rest);
    SameReading(Lines(log), NoType, rest, TypeOf(log[0]));
  }

  lemma LinesSplit(log: seq<Logged>)
    requires log != [] && forall i :: 0 <= i < |log| ==> Loggable(log[i])
    ensures Lines(log) == [Headline(log[0])] + (Body(log[0]) + Lines(log[1..]))
  {
    hide Body, Headline, Loggable;
  }

  lemma FirstHead(head: string, rest: seq<string>)
    requires IsHead(head)
    ensures Read([head] + rest, NoType, Blank()) == Read(rest, HeadOf(head), Blank())
  {
    hide Blank, ApplyLine;
    assert ([head] + rest)[1..] == rest;
  }

  lemma SameReading(a: seq<string>, t: Type, b: seq<string>, u: Type)
    requires Read(a, t, Blank()) == Read(b, u, Blank())
    ensures ReadAll(a, t) == ReadAll(b, u)
  {}
}
