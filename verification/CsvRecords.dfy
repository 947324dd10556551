/** The four-state CSV reader, and the grammar of the texts it accepts. */
module CsvRecords {
  import opened Common

  const QUOTE := '\"'
  const LF := '\n'
  const CR := '\r'
  const BOM := '\U{FEFF}'

  // ---- The reader ----

  datatype Mode = Start | Unquoted | Quoted | Closed

  datatype State = State(mode: Mode, field: string, record: seq<string>, records: seq<seq<string>>)

  const INITIAL := State(Start, "", [], [])

  function FinishField(s: State): State {
    s.(record := s.record + [s.field], field := "", mode := Start)
  }

  function FinishRecord(s: State): State {
    if s.record == [] && s.field == "" && s.mode == Start then s
    else var f := FinishField(s); f.(records := f.records + [f.record], record := [])
  }

  /** One turn of the loop: the next state and the number of characters used up; None is an invalid file. */
  function Step(s: State, t: string): (r: Option<(State, nat)>)
    requires t != ""
    ensures r.Some? ==> 1 <= r.value.1 <= |t|
  {
    var ch := t[0];
    if s.mode == Quoted then
      if ch == QUOTE && |t| > 1 && t[1] == QUOTE then Some((s.(field := s.field + [QUOTE]), 2))
      else if ch == QUOTE then Some((s.(mode := Closed), 1))
      else Some((s.(field := s.field + [ch]), 1))
    else if ch == ',' then Some((FinishField(s), 1))
    else if ch == LF || ch == CR then Some((FinishRecord(s), if ch == CR && |t| > 1 && t[1] == LF then 2 else 1))
    else if ch == QUOTE && s.mode == Start then Some((s.(mode := Quoted), 1))
    else if s.mode == Closed || ch == QUOTE then None
    else Some((s.(field := s.field + [ch], mode := Unquoted), 1))
  }

  function Run(s: State, t: string): Option<State>
    decreases |t|
  {
    if t == "" then Some(s)
    else
      var (s', n) :- Step(s, t);
      Run(s', t[n..])
  }

  function Finish(s: State): Option<seq<seq<string>>> {
    if s.mode == Quoted then None else Some(FinishRecord(s).records)
  }

  function WithoutBom(text: string): string {
    if text != "" && text[0] == BOM then text[1..] else text
  }

  function Parse(text: string): Option<seq<seq<string>>> {
    var s :- Run(INITIAL, WithoutBom(text));
    Finish(s)
  }

  method Records(text: string) returns (r: Option<seq<seq<string>>>)
    ensures r == Parse(text)
  {
    var input := WithoutBom(text);
    var s := INITIAL;
    var i := 0;
    assert input[0..] == input;
    while i < |input|
      invariant 0 <= i <= |input| && Run(s, input[i..]) == Run(INITIAL, input)
    {
      hide Step;
      var step := Step(s, input[i..]);
      if step.None? {
        return None;
      }
      assert input[i..][step.value.1..] == input[i + step.value.1..];
      s, i := step.value.0, i + step.value.1;
    }
    r := Finish(s);
  }

  // ---- The grammar ----

  datatype Cell = Bare(text: string) | InQuotes(text: string)

  datatype Ending = LineFeed | CarriageReturn | Both | EndOfText

  datatype Line = Line(cells: seq<Cell>, ending: Ending)

  predicate IsBare(text: string) {
    forall i :: 0 <= i < |text| ==> text[i] != QUOTE && text[i] != ',' && text[i] != LF && text[i] != CR
  }

  predicate CellOk(c: Cell) {
    c.Bare? ==> IsBare(c.text)
  }

  predicate Blank(l: Line) {
    l.cells == [Bare("")]
  }

  function DoubledChar(c: char): string {
    if c == QUOTE then [QUOTE, QUOTE] else [c]
  }

  function Doubled(text: string): string {
    if text == "" then "" else DoubledChar(text[0]) + Doubled(text[1..])
  }

  function PrintCell(c: Cell): string {
    match c
    case Bare(text) => text
    case InQuotes(text) => [QUOTE] + Doubled(text) + [QUOTE]
  }

  function PrintCells(cells: seq<Cell>): string {
    if cells == [] then ""
    else if |cells| == 1 then PrintCell(cells[0])
    else PrintCells(cells[..|cells| - 1]) + "," + PrintCell(cells[|cells| - 1])
  }

  function PrintEnding(e: Ending): string {
    match e
    case LineFeed => [LF]
    case CarriageReturn => [CR]
    case Both => [CR, LF]
    case EndOfText => ""
  }

  function PrintLine(l: Line): string {
    PrintCells(l.cells) + PrintEnding(l.ending)
  }

  function Print(lines: seq<Line>): string {
    if lines == [] then "" else Print(lines[..|lines| - 1]) + PrintLine(lines[|lines| - 1])
  }

  predicate LineOk(l: Line) {
    l.cells != [] && forall c :: c in l.cells ==> CellOk(c)
  }

  predicate StartsWith(t: string, c: char) {
    t != "" && t[0] == c
  }

  /** Only the last line may lack an ending, and a bare CR is not followed by LF, which would be read with it. */
  predicate WellFormed(lines: seq<Line>) {
    && (forall l :: l in lines ==> LineOk(l))
    && (forall i :: 0 <= i < |lines| - 1 ==> lines[i].ending != EndOfText)
    && (forall i :: 0 <= i < |lines| - 1 && lines[i].ending == CarriageReturn ==>
         !StartsWith(PrintLine(lines[i + 1]), LF))
  }

  function Texts(cells: seq<Cell>): seq<string> {
    seq(|cells|, i requires 0 <= i < |cells| => cells[i].text)
  }

  /** The records of a presentation: blank lines are none. */
  function Contents(lines: seq<Line>): seq<seq<string>> {
    if lines == [] then []
    else
      var last := lines[|lines| - 1];
      Contents(lines[..|lines| - 1]) + (if Blank(last) then [] else [Texts(last.cells)])
  }

  // ---- Every presentation is read as its contents ----

  predicate Delimited(rest: string) {
    rest == "" || rest[0] == ',' || rest[0] == LF || rest[0] == CR
  }

  lemma RunOne(s: State, t: string)
    requires t != "" && Step(s, t).Some?
    ensures Run(s, t) == Run(Step(s, t).value.0, t[Step(s, t).value.1..])
  {
    hide Step;
  }

  lemma {:induction false} RunBare(s: State, text: string, rest: string)
    requires s.mode in {Start, Unquoted} && IsBare(text) && text != ""
    ensures Run(s, text + rest) == Run(s.(mode := Unquoted, field := s.field + text), rest)
    decreases |text|
  {
    var t := text + rest;
    RunOne(s, t);
    assert t[1..] == text[1..] + rest;
    if |text| > 1 {
      RunBare(s.(mode := Unquoted, field := s.field + [text[0]]), text[1..], rest);
      assert s.field + text == s.field + [text[0]] + text[1..];
    } else {
      assert text == [text[0]] && text[1..] + rest == rest;
    }
  }

  lemma {:induction false} RunQuoted(s: State, text: string, rest: string)
    requires s.mode == Quoted && Delimited(rest)
    ensures Run(s, Doubled(text) + [QUOTE] + rest) == Run(s.(mode := Closed, field := s.field + text), rest)
    decreases |text|
  {
    var t := Doubled(text) + [QUOTE] + rest;
    if text == "" {
      RunOne(s, t);
      assert t[1..] == rest && s.field + text == s.field;
    } else {
      var n, more := |DoubledChar(text[0])|, Doubled(text[1..]) + [QUOTE] + rest;
      assert t == DoubledChar(text[0]) + more;
      assert t[n..] == more && t[0] == text[0] && (n == 2 ==> t[1] == QUOTE);
      RunOne(s, t);
      RunQuoted(s.(field := s.field + [text[0]]), text[1..], rest);
      assert s.field + text == s.field + [text[0]] + text[1..];
    }
  }

  /** Ready for the first character of a field. */
  predicate Fresh(s: State) {
    s.mode == Start && s.field == ""
  }

  function AfterCell(s: State, c: Cell): State {
    s.(field := c.text, mode := if c.InQuotes? then Closed else if c.text == "" then Start else Unquoted)
  }

  lemma RunCell(s: State, c: Cell, rest: string)
    requires Fresh(s) && CellOk(c) && Delimited(rest)
    ensures Run(s, PrintCell(c) + rest) == Run(AfterCell(s, c), rest)
  {
    hide Run, Doubled, IsBare;
    if c.Bare? {
      if c.text == "" {
        assert PrintCell(c) + rest == rest;
      } else {
        RunBare(s, c.text, rest);
        assert s.field + c.text == c.text;
      }
    } else {
      var t := PrintCell(c) + rest;
      RunOne(s, t);
      assert t[1..] == Doubled(c.text) + [QUOTE] + rest;
      RunQuoted(s.(mode := Quoted), c.text, rest);
      assert s.field + c.text == c.text;
    }
  }

  /** In front of the last cell of a line. */
  function BeforeLast(s: State, cells: seq<Cell>): State {
    s.(record := s.record + Texts(cells), field := "", mode := Start)
  }

  /** Over the comma to the next cell. */
  lemma RunComma(s: State, front: seq<Cell>, rest: string)
    requires front != []
    ensures Run(AfterCell(BeforeLast(s, front[..|front| - 1]), front[|front| - 1]), "," + rest)
      == Run(BeforeLast(s, front), rest)
  {
    var before, prior := front[..|front| - 1], front[|front| - 1];
    var after := AfterCell(BeforeLast(s, before), prior);
    RunOne(after, "," + rest);
    assert ("," + rest)[1..] == rest;
    assert Texts(front) == Texts(before) + [prior.text];
    assert s.record + Texts(front) == s.record + Texts(before) + [prior.text];
  }

  lemma PrintedCells(cells: seq<Cell>, rest: string)
    requires |cells| > 1
    ensures PrintCells(cells) + rest
      == PrintCells(cells[..|cells| - 1]) + ("," + (PrintCell(cells[|cells| - 1]) + rest))
  {
  }

  lemma {:induction false} RunCells(s: State, cells: seq<Cell>, rest: string)
    requires Fresh(s) && cells != [] && (forall c :: c in cells ==> CellOk(c)) && Delimited(rest)
    ensures Run(s, PrintCells(cells) + rest)
      == Run(AfterCell(BeforeLast(s, cells[..|cells| - 1]), cells[|cells| - 1]), rest)
    decreases |cells|
  {
    hide Run, AfterCell, PrintCell, CellOk;
    var front, last := cells[..|cells| - 1], cells[|cells| - 1];
    if front == [] {
      RunCell(s, last, rest);
      assert s.record + Texts([]) == s.record;
    } else {
      var more := PrintCell(last) + rest;
      PrintedCells(cells, rest);
      RunCells(s, front, "," + more);
      RunComma(s, front, more);
      RunCell(BeforeLast(s, front), last, rest);
    }
  }

  /** Nothing of the current line read yet. */
  function Between(records: seq<seq<string>>): State {
    State(Start, "", [], records)
  }

  lemma LineIsARecord(records: seq<seq<string>>, l: Line)
    requires LineOk(l)
    ensures var n := |l.cells| - 1;
      FinishRecord(AfterCell(BeforeLast(Between(records), l.cells[..n]), l.cells[n]))
      == Between(records + (if Blank(l) then [] else [Texts(l.cells)]))
  {
    var n := |l.cells| - 1;
    var s := AfterCell(BeforeLast(Between(records), l.cells[..n]), l.cells[n]);
    assert Texts(l.cells) == Texts(l.cells[..n]) + [l.cells[n].text];
    assert s.record == Texts(l.cells[..n]);
    if n == 0 {
      assert l.cells == [l.cells[0]] && Texts(l.cells[..0]) == [];
      assert Blank(l) <==> l.cells[0] == Bare("");
    } else {
      assert |s.record| == n;
    }
    assert records + [] == records;
  }

  lemma RunEnding(s: State, ending: Ending, rest: string)
    requires s.mode != Quoted && ending != EndOfText && (ending == CarriageReturn ==> !StartsWith(rest, LF))
    ensures Run(s, PrintEnding(ending) + rest) == Run(FinishRecord(s), rest)
  {
    hide FinishRecord;
    var t := PrintEnding(ending) + rest;
    assert ending == CarriageReturn && |t| > 1 ==> t[1] == rest[0];
    RunOne(s, t);
    assert t[|PrintEnding(ending)|..] == rest;
  }

  lemma RunLine(records: seq<seq<string>>, l: Line, rest: string)
    requires LineOk(l) && l.ending != EndOfText && (l.ending == CarriageReturn ==> !StartsWith(rest, LF))
    ensures Run(Between(records), PrintLine(l) + rest)
      == Run(Between(records + (if Blank(l) then [] else [Texts(l.cells)])), rest)
  {
    hide FinishRecord, Run, PrintCells, CellOk, Blank;
    var n, more := |l.cells| - 1, PrintEnding(l.ending) + rest;
    assert PrintLine(l) + rest == PrintCells(l.cells) + more;
    RunCells(Between(records), l.cells, more);
    RunEnding(AfterCell(BeforeLast(Between(records), l.cells[..n]), l.cells[n]), l.ending, rest);
    LineIsARecord(records, l);
  }

  lemma WellFormedFront(lines: seq<Line>)
    requires WellFormed(lines) && lines != []
    ensures WellFormed(lines[..|lines| - 1]) && LineOk(lines[|lines| - 1])
    ensures forall i :: 0 <= i < |lines| - 1 ==> lines[i].ending != EndOfText
  {
  }

  lemma {:induction false} RunLines(records: seq<seq<string>>, lines: seq<Line>, rest: string)
    requires WellFormed(lines) && (forall l :: l in lines ==> l.ending != EndOfText)
    requires lines != [] && lines[|lines| - 1].ending == CarriageReturn ==> !StartsWith(rest, LF)
    ensures Run(Between(records), Print(lines) + rest) == Run(Between(records + Contents(lines)), rest)
    decreases |lines|
  {
    hide Run, LineOk, PrintLine, Blank;
    if lines == [] {
      assert Print(lines) + rest == rest && records + [] == records;
    } else {
      var front, last := lines[..|lines| - 1], lines[|lines| - 1];
      WellFormedFront(lines);
      StartsAlike(last, rest);
      RunLines(records, front, PrintLine(last) + rest);
      assert Print(lines) + rest == Print(front) + (PrintLine(last) + rest);
      RunLine(records + Contents(front), last, rest);
      assert records + Contents(front) + (if Blank(last) then [] else [Texts(last.cells)]) == records + Contents(lines);
    }
  }

  lemma StartsAlike(l: Line, rest: string)
    requires l.ending != EndOfText
    ensures StartsWith(PrintLine(l) + rest, LF) == StartsWith(PrintLine(l), LF)
  {
    assert |PrintEnding(l.ending)| > 0;
  }

  /** Whatever mixture of quotes, line endings and blank lines a text is written with, it reads as its records. */
  lemma PresentationIsRead(lines: seq<Line>, text: string)
    requires WellFormed(lines) && WithoutBom(text) == Print(lines)
    ensures Parse(text) == Some(Contents(lines))
  {
    hide PrintLine, Blank, FinishRecord;
    if lines == [] || lines[|lines| - 1].ending != EndOfText {
      RunLines([], lines, "");
      assert Print(lines) + "" == Print(lines) && [] + Contents(lines) == Contents(lines);
      assert Run(Between(Contents(lines)), "") == Some(Between(Contents(lines)));
      assert FinishRecord(Between(Contents(lines))) == Between(Contents(lines)) by { NothingToFinish(Contents(lines)); }
    } else {
      var front, last := lines[..|lines| - 1], lines[|lines| - 1];
      var records := Contents(front);
      WellFormedFront(lines);
      RunLines([], front, PrintLine(last));
      assert [] + records == records;
      assert PrintLine(last) == PrintCells(last.cells) + "" by { LastLine(last); }
      RunCells(Between(records), last.cells, "");
      LineIsARecord(records, last);
    }
  }

  lemma NothingToFinish(records: seq<seq<string>>)
    ensures FinishRecord(Between(records)) == Between(records)
  {
  }

  lemma LastLine(l: Line)
    requires l.ending == EndOfText
    ensures PrintLine(l) == PrintCells(l.cells) + ""
  {
  }

  // ---- Every accepted text has a presentation ----

  /** What has been read so far: finished lines, finished cells of the current line, the current field. */
  datatype Trace = Trace(lines: seq<Line>, cells: seq<Cell>, mode: Mode, field: string)

  function StateOf(tr: Trace): State {
    State(tr.mode, tr.field, Texts(tr.cells), Contents(tr.lines))
  }

  function PrintPart(mode: Mode, field: string): string {
    match mode
    case Start => ""
    case Unquoted => field
    case Quoted => [QUOTE] + Doubled(field)
    case Closed => [QUOTE] + Doubled(field) + [QUOTE]
  }

  function PrintOpen(cells: seq<Cell>): string {
    if cells == [] then "" else PrintCells(cells) + ","
  }

  function TextOf(tr: Trace): string {
    Print(tr.lines) + (PrintOpen(tr.cells) + PrintPart(tr.mode, tr.field))
  }

  predicate AtLineStart(tr: Trace) {
    tr.cells == [] && tr.mode == Start
  }

  /** `t` is what is still to be read. */
  predicate TraceOk(tr: Trace, t: string) {
    && WellFormed(tr.lines) && (forall l :: l in tr.lines ==> l.ending != EndOfText)
    && (forall c :: c in tr.cells ==> CellOk(c))
    && (tr.mode == Start ==> tr.field == "")
    && (tr.mode == Unquoted ==> tr.field != "" && IsBare(tr.field))
    && (AtLineStart(tr) && tr.lines != [] && tr.lines[|tr.lines| - 1].ending == CarriageReturn ==> !StartsWith(t, LF))
  }

  function CellOf(tr: Trace): Cell
    requires tr.mode != Quoted
  {
    if tr.mode == Closed then InQuotes(tr.field) else Bare(tr.field)
  }

  lemma {:induction false} DoubledSnoc(text: string, c: char)
    ensures Doubled(text + [c]) == Doubled(text) + DoubledChar(c)
  {
    hide DoubledChar;
    if text == "" {
      assert "" + [c] == [c] && [c][1..] == "";
      assert Doubled([c]) == DoubledChar(c) + Doubled("");
    } else {
      DoubledSnoc(text[1..], c);
      assert (text + [c])[1..] == text[1..] + [c];
      assert DoubledChar(text[0]) + (Doubled(text[1..]) + DoubledChar(c))
        == (DoubledChar(text[0]) + Doubled(text[1..])) + DoubledChar(c);
    }
  }

  lemma OpenSnoc(cells: seq<Cell>, c: Cell)
    ensures PrintCells(cells + [c]) == PrintOpen(cells) + PrintCell(c)
    ensures PrintOpen(cells + [c]) == PrintOpen(cells) + PrintCell(c) + ","
  {
    hide PrintCell;
    assert (cells + [c])[..|cells|] == cells;
    if cells == [] {
      assert [] + [c] == [c];
    }
  }

  lemma CellPrints(tr: Trace)
    requires tr.mode != Quoted && (tr.mode == Start ==> tr.field == "")
    ensures PrintCell(CellOf(tr)) == PrintPart(tr.mode, tr.field)
  {
  }

  /** Only a blank line starts with its line feed. */
  lemma {:induction false} CellsStart(cells: seq<Cell>)
    requires cells != [] && forall c :: c in cells ==> CellOk(c)
    ensures PrintCells(cells) == "" <==> cells == [Bare("")]
    ensures !StartsWith(PrintCells(cells), LF)
  {
    var last := cells[|cells| - 1];
    assert CellOk(last) && !StartsWith(PrintCell(last), LF);
    if |cells| == 1 {
      assert cells == [cells[0]];
    } else {
      CellsStart(cells[..|cells| - 1]);
    }
  }

  lemma OnlyBlankStartsWithLineFeed(l: Line)
    requires LineOk(l)
    ensures StartsWith(PrintLine(l), LF) ==> Blank(l)
  {
    CellsStart(l.cells);
  }

  lemma NothingOpen()
    ensures PrintOpen([]) == "" && PrintPart(Start, "") == ""
  {
  }

  predicate PartOk(tr: Trace) {
    tr.mode != Quoted && (tr.mode == Start ==> tr.field == "") && (tr.mode == Unquoted ==> tr.field != "")
  }

  lemma FinishedRecord(tr: Trace, l: Line)
    requires PartOk(tr) && l.cells == tr.cells + [CellOf(tr)] && LineOk(l)
    ensures FinishRecord(StateOf(tr)) == Between(Contents(tr.lines + [l]))
    ensures Blank(l) <==> AtLineStart(tr)
  {
    hide FinishRecord, CellOk;
    var n := |tr.cells|;
    assert l.cells[..n] == tr.cells;
    LineIsARecord(Contents(tr.lines), l);
    assert AfterCell(BeforeLast(Between(Contents(tr.lines)), tr.cells), CellOf(tr)) == StateOf(tr) by {
      assert [] + Texts(tr.cells) == Texts(tr.cells);
    }
    assert (tr.lines + [l])[..|tr.lines|] == tr.lines;
    if AtLineStart(tr) {
      assert l.cells == [Bare("")];
    }
  }

  lemma FinishedLine(tr: Trace, l: Line)
    requires PartOk(tr) && l.cells == tr.cells + [CellOf(tr)]
    ensures TextOf(tr) + PrintEnding(l.ending) == Print(tr.lines + [l])
  {
    hide PrintPart, PrintEnding, PrintCells, PrintCell, PrintOpen;
    assert (tr.lines + [l])[..|tr.lines|] == tr.lines;
    OpenSnoc(tr.cells, CellOf(tr));
    CellPrints(tr);
    Grow(Print(tr.lines), PrintOpen(tr.cells), PrintPart(tr.mode, tr.field), PrintEnding(l.ending));
    assert PrintLine(l) == PrintOpen(tr.cells) + (PrintPart(tr.mode, tr.field) + PrintEnding(l.ending));
  }

  lemma WellFormedSnoc(lines: seq<Line>, l: Line)
    requires WellFormed(lines) && LineOk(l) && (forall k :: k in lines ==> k.ending != EndOfText)
    requires lines != [] && lines[|lines| - 1].ending == CarriageReturn ==> !StartsWith(PrintLine(l), LF)
    ensures WellFormed(lines + [l])
  {
    hide LineOk, PrintLine;
    var all := lines + [l];
    forall i | 0 <= i < |all| - 1
      ensures all[i].ending != EndOfText
      ensures all[i].ending == CarriageReturn ==> !StartsWith(PrintLine(all[i + 1]), LF)
    {
      assert all[i] == lines[i] && lines[i] in lines;
    }
  }

  lemma QuotedStep(tr: Trace, t: string) returns (tr': Trace)
    requires TraceOk(tr, t) && t != "" && tr.mode == Quoted
    ensures var (s, n) := Step(StateOf(tr), t).value;
      s == StateOf(tr') && TextOf(tr') == TextOf(tr) + t[..n] && TraceOk(tr', t[n..])
  {
    hide WellFormed, CellOk, Print, PrintOpen, Texts, Contents;
    var n := Step(StateOf(tr), t).value.1;
    var before, after := PrintPart(Quoted, tr.field), "";
    if t[0] == QUOTE && n == 1 {
      tr' := tr.(mode := Closed);
    } else {
      tr' := tr.(field := tr.field + [t[0]]);
      DoubledSnoc(tr.field, t[0]);
    }
    after := PrintPart(tr'.mode, tr'.field);
    assert t[..n] == if n == 2 then [QUOTE, QUOTE] else [t[0]];
    assert after == before + t[..n];
    Grow(Print(tr.lines), PrintOpen(tr.cells), before, t[..n]);
  }

  lemma Grow(a: string, b: string, c: string, d: string)
    ensures a + (b + (c + d)) == (a + (b + c)) + d
  {
  }

  lemma CommaStep(tr: Trace, t: string) returns (tr': Trace)
    requires TraceOk(tr, t) && t != "" && tr.mode != Quoted && t[0] == ','
    ensures var (s, n) := Step(StateOf(tr), t).value;
      s == StateOf(tr') && TextOf(tr') == TextOf(tr) + t[..n] && TraceOk(tr', t[n..])
  {
    hide WellFormed, Print, PrintCells, Contents;
    tr' := Trace(tr.lines, tr.cells + [CellOf(tr)], Start, "");
    OpenSnoc(tr.cells, CellOf(tr));
    CellPrints(tr);
    assert Texts(tr'.cells) == Texts(tr.cells) + [tr.field];
    assert t[..1] == ",";
    assert PrintOpen(tr'.cells) + "" == PrintOpen(tr.cells) + PrintPart(tr.mode, tr.field) + ",";
    Grow(Print(tr.lines), PrintOpen(tr.cells), PrintPart(tr.mode, tr.field), ",");
  }

  lemma LineStep(tr: Trace, t: string) returns (tr': Trace)
    requires TraceOk(tr, t) && t != "" && tr.mode != Quoted && (t[0] == LF || t[0] == CR)
    ensures var (s, n) := Step(StateOf(tr), t).value;
      s == StateOf(tr') && TextOf(tr') == TextOf(tr) + t[..n] && TraceOk(tr', t[n..])
  {
    hide Print, PrintCells, Contents, FinishRecord, PrintPart, CellOk, IsBare, WellFormed, PrintLine;
    CellOfOk(tr, t);
    var n := Step(StateOf(tr), t).value.1;
    var ending := if t[0] == LF then LineFeed else if n == 2 then Both else CarriageReturn;
    var l := Line(tr.cells + [CellOf(tr)], ending);
    tr' := Trace(tr.lines + [l], [], Start, "");
    FinishedLine(tr, l);
    FinishedRecord(tr, l);
    assert t[..n] == PrintEnding(ending);
    OnlyBlankStartsWithLineFeed(l);
    BlankEnding(l);
    WellFormedSnoc(tr.lines, l);
    assert TextOf(tr') == Print(tr.lines + [l]) by {
      NothingOpen();
    }
    assert n == 1 && |t| > 1 ==> t[n..][0] == t[1];
  }

  lemma CellOfOk(tr: Trace, t: string)
    requires TraceOk(tr, t) && tr.mode != Quoted
    ensures CellOk(CellOf(tr)) && PartOk(tr)
    ensures forall ending :: LineOk(Line(tr.cells + [CellOf(tr)], ending))
  {
    hide WellFormed, IsBare;
    assert IsBare("") by { BareNothing(); }
  }

  lemma BareNothing()
    ensures IsBare("")
  {
  }

  lemma BlankEnding(l: Line)
    ensures Blank(l) && StartsWith(PrintLine(l), LF) ==> l.ending == LineFeed
  {
    if Blank(l) {
      assert PrintCells(l.cells) == "";
    }
  }

  lemma PlainStep(tr: Trace, t: string) returns (tr': Trace)
    requires TraceOk(tr, t) && t != "" && tr.mode != Quoted && t[0] != ',' && t[0] != LF && t[0] != CR
    requires Step(StateOf(tr), t).Some?
    ensures var (s, n) := Step(StateOf(tr), t).value;
      s == StateOf(tr') && TextOf(tr') == TextOf(tr) + t[..n] && TraceOk(tr', t[n..])
  {
    hide WellFormed, CellOk, Print, PrintOpen, Texts, Contents;
    tr' := if t[0] == QUOTE then tr.(mode := Quoted) else tr.(field := tr.field + [t[0]], mode := Unquoted);
    assert t[..1] == [t[0]];
    assert PrintPart(tr'.mode, tr'.field) == PrintPart(tr.mode, tr.field) + t[..1];
    Grow(Print(tr.lines), PrintOpen(tr.cells), PrintPart(tr.mode, tr.field), t[..1]);
  }

  lemma {:induction false} TraceRun(tr: Trace, t: string) returns (lines: seq<Line>)
    requires TraceOk(tr, t) && Run(StateOf(tr), t).Some? && Finish(Run(StateOf(tr), t).value).Some?
    ensures WellFormed(lines) && Print(lines) == TextOf(tr) + t
    ensures Finish(Run(StateOf(tr), t).value) == Some(Contents(lines))
    decreases |t|
  {
    hide WellFormed, TextOf, Print, Contents, Step, FinishRecord, TraceOk;
    if t == "" {
      lines := TraceEnd(tr);
      assert TextOf(tr) + t == TextOf(tr);
    } else {
      var tr' := TraceStep(tr, t);
      var n := Step(StateOf(tr), t).value.1;
      lines := TraceRun(tr', t[n..]);
      assert TextOf(tr) + t[..n] + t[n..] == TextOf(tr) + t;
    }
  }

  lemma TraceStep(tr: Trace, t: string) returns (tr': Trace)
    requires TraceOk(tr, t) && t != "" && Step(StateOf(tr), t).Some?
    ensures var (s, n) := Step(StateOf(tr), t).value;
      s == StateOf(tr') && TextOf(tr') == TextOf(tr) + t[..n] && TraceOk(tr', t[n..])
  {
    hide TraceOk, TextOf, StateOf, Step;
    if tr.mode == Quoted {
      tr' := QuotedStep(tr, t);
    } else if t[0] == ',' {
      tr' := CommaStep(tr, t);
    } else if t[0] == LF || t[0] == CR {
      tr' := LineStep(tr, t);
    } else {
      tr' := PlainStep(tr, t);
    }
  }

  lemma TraceEnd(tr: Trace) returns (lines: seq<Line>)
    requires TraceOk(tr, "") && tr.mode != Quoted
    ensures WellFormed(lines) && Print(lines) == TextOf(tr)
    ensures FinishRecord(StateOf(tr)).records == Contents(lines)
  {
    hide Print, PrintCells, Contents, PrintPart;
    if AtLineStart(tr) {
      lines := tr.lines;
      NothingOpen();
      assert Print(lines) + ("" + "") == Print(lines);
    } else {
      var l := Line(tr.cells + [CellOf(tr)], EndOfText);
      FinishedLine(tr, l);
      FinishedRecord(tr, l);
      OnlyBlankStartsWithLineFeed(l);
      BlankEnding(l);
      WellFormedSnoc(tr.lines, l);
      lines := tr.lines + [l];
      assert TextOf(tr) + "" == TextOf(tr);
    }
  }

  /** The reader accepts exactly the texts of the grammar, with exactly their records. */
  lemma AcceptsExactlyTheGrammar(text: string, records: seq<seq<string>>)
    ensures Parse(text) == Some(records)
      <==> exists lines :: WellFormed(lines) && Print(lines) == WithoutBom(text) && Contents(lines) == records
  {
    if Parse(text) == Some(records) {
      var tr := Trace([], [], Start, "");
      assert StateOf(tr) == INITIAL && TextOf(tr) == "";
      var lines := TraceRun(tr, WithoutBom(text));
      assert "" + WithoutBom(text) == WithoutBom(text);
    }
    if lines :| WellFormed(lines) && Print(lines) == WithoutBom(text) && Contents(lines) == records {
      PresentationIsRead(lines, text);
    }
  }

  // ---- Writing records back ----

  function QuotedLine(record: seq<string>, ending: Ending): Line {
    Line(seq(|record|, i requires 0 <= i < |record| => InQuotes(record[i])), ending)
  }

  /** Every field in quotes, with a line ending of one's choice after each record and perhaps none after the last. */
  function QuotedLines(records: seq<seq<string>>, endings: seq<Ending>): seq<Line>
    requires |endings| == |records|
  {
    seq(|records|, i requires 0 <= i < |records| => QuotedLine(records[i], endings[i]))
  }

  predicate EndingsOk(endings: seq<Ending>) {
    forall i :: 0 <= i < |endings| - 1 ==> endings[i] != EndOfText
  }

  lemma {:induction false} QuotedContents(records: seq<seq<string>>, endings: seq<Ending>)
    requires |endings| == |records| && forall r :: r in records ==> r != []
    ensures Contents(QuotedLines(records, endings)) == records
  {
    if records != [] {
      var n := |records| - 1;
      assert forall r :: r in records[..n] ==> r in records;
      QuotedContents(records[..n], endings[..n]);
      var lines := QuotedLines(records, endings);
      assert lines[..n] == QuotedLines(records[..n], endings[..n]);
      assert records[n] in records && lines[n].cells[0].InQuotes?;
      assert Texts(lines[n].cells) == records[n];
      assert records == records[..n] + [records[n]];
    }
  }

  lemma QuotedIsWellFormed(records: seq<seq<string>>, endings: seq<Ending>)
    requires |endings| == |records| && EndingsOk(endings) && forall r :: r in records ==> r != []
    ensures WellFormed(QuotedLines(records, endings))
  {
    hide PrintLine;
    var lines := QuotedLines(records, endings);
    forall i | 0 <= i < |lines| ensures LineOk(lines[i]) && !StartsWith(PrintLine(lines[i]), LF) {
      assert records[i] in records && lines[i].cells[0].InQuotes?;
      OnlyBlankStartsWithLineFeed(lines[i]);
    }
  }

  lemma {:induction false} QuotedCellsStart(cells: seq<Cell>)
    requires cells != [] && forall c :: c in cells ==> c.InQuotes?
    ensures StartsWith(PrintCells(cells), QUOTE)
  {
    if |cells| > 1 {
      QuotedCellsStart(cells[..|cells| - 1]);
    } else {
      assert cells[0] in cells;
    }
  }

  lemma {:induction false} QuotedLinesStart(records: seq<seq<string>>, endings: seq<Ending>)
    requires |endings| == |records| && forall r :: r in records ==> r != []
    ensures records != [] ==> StartsWith(Print(QuotedLines(records, endings)), QUOTE)
    ensures records == [] ==> Print(QuotedLines(records, endings)) == ""
  {
    hide PrintCells, PrintEnding, QuotedLine;
    if records != [] {
      var n, lines := |records| - 1, QuotedLines(records, endings);
      assert forall r :: r in records[..n] ==> r in records;
      QuotedLinesStart(records[..n], endings[..n]);
      assert lines[..n] == QuotedLines(records[..n], endings[..n]);
      assert records[n] in records;
      QuotedLineStarts(records[n], endings[n]);
      assert Print(lines) == Print(lines[..n]) + PrintLine(lines[n]);
    }
  }

  lemma QuotedLineStarts(record: seq<string>, ending: Ending)
    requires record != []
    ensures StartsWith(PrintLine(QuotedLine(record, ending)), QUOTE)
  {
    hide PrintCells;
    QuotedCellsStart(QuotedLine(record, ending).cells);
  }

  /** Reading inverts writing for all non-empty records, whatever characters they hold and however the lines end. */
  lemma ReadingInvertsWriting(records: seq<seq<string>>, endings: seq<Ending>)
    requires |endings| == |records| && EndingsOk(endings) && forall r :: r in records ==> r != []
    ensures Parse(Print(QuotedLines(records, endings))) == Some(records)
  {
    hide Print, Contents, WellFormed, QuotedLines;
    QuotedIsWellFormed(records, endings);
    QuotedContents(records, endings);
    QuotedLinesStart(records, endings);
    PresentationIsRead(QuotedLines(records, endings), Print(QuotedLines(records, endings)));
  }

  lemma {:induction false} ContentsAreNonEmpty(lines: seq<Line>)
    requires forall l :: l in lines ==> LineOk(l)
    ensures forall r :: r in Contents(lines) ==> r != []
  {
    if lines != [] {
      ContentsAreNonEmpty(lines[..|lines| - 1]);
      assert LineOk(lines[|lines| - 1]);
    }
  }

  /** Writing what was read and reading it again changes nothing. */
  lemma RereadingIsStable(text: string, records: seq<seq<string>>, endings: seq<Ending>)
    requires Parse(text) == Some(records) && |endings| == |records| && EndingsOk(endings)
    ensures Parse(Print(QuotedLines(records, endings))) == Parse(text)
  {
    hide Parse, Print, Contents, QuotedLines;
    AcceptsExactlyTheGrammar(text, records);
    var lines :| WellFormed(lines) && Print(lines) == WithoutBom(text) && Contents(lines) == records;
    ContentsAreNonEmpty(lines);
    ReadingInvertsWriting(records, endings);
  }
}
