/** The hash-chained log of authority events: a file of JSON lines that one writer appends to, tears included. */
module EventLog {
  import opened Common
  import opened Bytes
  import Utf8

  type Hex = s: string | |s| == 64 witness seq(64, _ => '0')

  /** An event without its own hash. */
  datatype Body = Body(
    previous: Option<string>, eventId: string, timestamp: string, spanId: string, workflowId: string, eventType: string,
    decision: string, resource: string, capabilityId: Option<string>)

  datatype Event = Event(body: Body, eventHash: Hex)

  /** Sorted-key JSON, and SHA-256 in hexadecimal. */
  datatype Hashing = Hashing(canonical: Body -> seq<byte>, hash: seq<byte> -> Hex) {
    function Of(b: Body): Hex {
      hash(canonical(b))
    }
  }

  // ---- The file and its lines ----

  /** What Python makes of the event_hash of an object: false, a text, or an exception when asked for the text. */
  datatype HashField = Falsy | Printed(text: string) | Unprintable

  /**
   * What becomes of one line: nothing left after stripping, a JSONDecodeError, any other exception (the value is not
   * an object, an integer is too long, the nesting too deep), an object from elsewhere, or one of our events.
   */
  datatype Line = Blank | NotJson | Raising | Foreign(eventHash: HashField) | Written(event: Event)

  /** json.dumps of an event, and what stripping and loading a line gives. */
  datatype Json = Json(write: Event -> seq<byte>, read: seq<byte> -> Line)

  predicate IsBreak(c: byte) {
    c == 10 || c == 13
  }

  /** The lines of a file opened in text mode; the last one is what stands after the last line break. */
  function Lines(file: seq<byte>): (r: seq<seq<byte>>)
    ensures r != []
  {
    if file == [] then [[]]
    else
      var before, c := Lines(file[..|file| - 1]), file[|file| - 1];
      if IsBreak(c) then before + [[]]
      else before[..|before| - 1] + [before[|before| - 1] + [c]]
  }

  function Unfinished(file: seq<byte>): seq<byte> {
    Lines(file)[|Lines(file)| - 1]
  }

  function Readings(json: Json, lines: seq<seq<byte>>): (r: seq<Line>)
    ensures |r| == |lines|
  {
    seq(|lines|, i requires 0 <= i < |lines| => json.read(lines[i]))
  }

  function Finished(json: Json, file: seq<byte>): seq<Line> {
    Readings(json, Lines(file)[..|Lines(file)| - 1])
  }

  function ReadFile(json: Json, file: seq<byte>): seq<Line> {
    Readings(json, Lines(file))
  }

  // ---- _last_hash ----

  predicate IsObject(line: Line) {
    line.Foreign? || line.Written?
  }

  function HashIn(line: Line): HashField
    requires IsObject(line)
  {
    if line.Written? then Printed(line.event.eventHash) else line.eventHash
  }

  /** The hash of the last object line. */
  function LastFound(lines: seq<Line>): HashField {
    if lines == [] then Falsy
    else
      var last := lines[|lines| - 1];
      if IsObject(last) then HashIn(last) else LastFound(lines[..|lines| - 1])
  }

  /** Err(Other) stands for the exceptions that _last_hash does not catch. */
  function LastHash(json: Json, file: seq<byte>): Result<Option<string>> {
    if !Utf8.WellFormed(file) || Raising in ReadFile(json, file) then Err(Other)
    else
      match LastFound(ReadFile(json, file))
      case Falsy => Ok(None)
      case Printed(text) => Ok(Some(text))
      case Unprintable => Err(Other)
  }

  method ReadLastHash(json: Json, file: seq<byte>) returns (r: Result<Option<string>>)
    ensures r == LastHash(json, file)
  {
    if !Utf8.WellFormed(file) {
      return Err(Other);
    }
    var last, lines := Falsy, Lines(file);
    ghost var all := ReadFile(json, file);
    for i := 0 to |lines|
      invariant last == LastFound(all[..i]) && Raising !in all[..i]
    {
      assert all[..i + 1][..i] == all[..i] && all[..i + 1] == all[..i] + [all[i]];
      match json.read(lines[i])
      case Blank =>
      case NotJson =>
      case Raising => return Err(Other);
      case Foreign(h) => last := h;
      case Written(e) => last := Printed(e.eventHash);
    }
    assert all[..|lines|] == all;
    match last
    case Falsy => r := Ok(None);
    case Printed(text) => r := Ok(Some(text));
    case Unprintable => r := Err(Other);
  }

  // ---- emit_from_decide ----

  /** The decide body after Python's trimming and lower-casing of its strings. */
  datatype Decide = Decide(
    requestId: string, status: string, application: string, provider: string, capability: string)

  /** The random and timed parts of one event. */
  datatype Coins = Coins(eventId: string, timestamp: string, spanId: string)

  function Classified(status: string): Option<(string, string)> {
    if status == "approved" || status == "granted" then Some(("capability.granted", "ALLOW"))
    else if status == "denied" || status == "rejected" then Some(("capability.denied", "DENY"))
    else if status == "expired" || status == "revoked" then Some(("capability.revoked", "DENY"))
    else None
  }

  function BodyFor(d: Decide, coins: Coins, kind: (string, string), previous: Option<string>): Body {
    Body(
      previous, coins.eventId, coins.timestamp, coins.spanId, if d.requestId == "" then "4ap-local" else d.requestId,
      kind.0, kind.1,
      if d.provider != "" then "provider:" + d.provider
      else if d.application != "" then "app:" + d.application else "4allpass:access",
      if d.capability == "" then None else Some(d.capability))
  }

  /** The event that is about to be written, if it comes to that. */
  function Prepared(h: Hashing, json: Json, enabled: bool, file: seq<byte>, d: Decide, coins: Coins): Option<Event> {
    if !enabled then None
    else
      var kind :- Classified(d.status);
      match LastHash(json, file)
      case Err(_) => None
      case Ok(previous) =>
        var body := BodyFor(d, coins, kind, previous);
        Some(Event(body, h.Of(body)))
  }

  /** How the append goes: through, not at all, or torn after some bytes; all but the first end in an exception. */
  datatype Disk = Works | Refuses | Tears(written: nat)

  const NEWLINE: byte := 10

  function OnDisk(json: Json, e: Event, disk: Disk): seq<byte> {
    var text := json.write(e) + [NEWLINE];
    match disk
    case Works => text
    case Refuses => []
    case Tears(written) => if written < |text| then text[..written] else text
  }

  class Log {
    var file: seq<byte>

    constructor ()
      ensures file == []
    {
      file := [];
    }

    method EmitFromDecide(h: Hashing, json: Json, enabled: bool, d: Decide, coins: Coins, disk: Disk)
      returns (r: Option<Event>)
      modifies this
      ensures var e := Prepared(h, json, enabled, old(file), d, coins);
        && r == (if disk.Works? then e else None)
        && file == old(file) + (if e.Some? then OnDisk(json, e.value, disk) else [])
    {
      hide LastHash, BodyFor, OnDisk;
      if !enabled {
        return None;
      }
      var kind := Classified(d.status);
      if kind.None? {
        return None;
      }
      var previous := ReadLastHash(json, file);
      if previous.Err? {
        return None;
      }
      var body := BodyFor(d, coins, kind.value, previous.value);
      var event := Event(body, h.Of(body));
      file := file + OnDisk(json, event, disk);
      r := if disk.Works? then Some(event) else None;
    }
  }

  // ---- Appending to the last line ----

  predicate NoBreaks(text: seq<byte>) {
    forall i :: 0 <= i < |text| ==> !IsBreak(text[i])
  }

  lemma AppendOne(file: seq<byte>, c: byte)
    requires !IsBreak(c)
    ensures Lines(file + [c]) == Lines(file)[..|Lines(file)| - 1] + [Unfinished(file) + [c]]
  {
    assert (file + [c])[..|file|] == file;
  }

  lemma {:induction false} AppendText(file: seq<byte>, text: seq<byte>)
    requires NoBreaks(text)
    ensures Lines(file + text) == Lines(file)[..|Lines(file)| - 1] + [Unfinished(file) + text]
  {
    hide Lines;
    var complete, u := Lines(file)[..|Lines(file)| - 1], Unfinished(file);
    if text == [] {
      assert file + [] == file && u + [] == u;
    } else {
      var front, c := text[..|text| - 1], text[|text| - 1];
      AppendText(file, front);
      AppendOne(file + front, c);
      assert file + front + [c] == file + text && u + front + [c] == u + text;
      assert (complete + [u + front])[..|complete|] == complete;
    }
  }

  lemma AppendBreak(file: seq<byte>)
    ensures Lines(file + [NEWLINE]) == Lines(file) + [[]]
  {
    assert (file + [NEWLINE])[..|file|] == file;
  }

  /** Complete lines never change. */
  lemma {:induction false} LinesStay(file: seq<byte>, more: seq<byte>)
    ensures |Lines(file)| <= |Lines(file + more)|
    ensures Lines(file)[..|Lines(file)| - 1] == Lines(file + more)[..|Lines(file)| - 1]
  {
    if more == [] {
      assert file + [] == file;
    } else {
      LinesStay(file, more[..|more| - 1]);
      assert (file + more)[..|file + more| - 1] == file + more[..|more| - 1];
    }
  }

  // ---- What is assumed of JSON ----

  /**
   * A line reads as the event on it if only white space precedes; cut short it is no JSON, and glued to anything else
   * it is no object.
   */
  ghost predicate LawAt(json: Json, before: seq<byte>, e: Event) {
    var text := json.write(e);
    && NoBreaks(text) && text != [] && (forall i :: 0 <= i < |text| ==> text[i] <= 0x7F)
    && (json.read(before).Blank? ==> json.read(before + text) == Written(e))
    && (json.read(before).Blank? ==> forall n :: 0 < n < |text| ==> json.read(before + text[..n]) == NotJson)
    && (!json.read(before).Blank? ==> forall n :: 0 < n <= |text| ==>
        json.read(before + text[..n]) in {NotJson, Raising})
  }

  ghost predicate Lawful(json: Json) {
    json.read([]) == Blank && forall before, e :: LawAt(json, before, e)
  }

  // ---- The assumptions can be met: a toy format that obeys them ----

  function Unary(n: nat): seq<byte> {
    if n == 0 then [49] else [48] + Unary(n - 1)
  }

  function TextCode(s: string): seq<byte> {
    if s == "" then [48] else [49] + Unary(s[0] as nat) + TextCode(s[1..])
  }

  function TextsCode(ss: seq<string>): seq<byte> {
    if ss == [] then [] else TextCode(ss[0]) + TextsCode(ss[1..])
  }

  lemma {:induction false} UnarySplits(m: nat, a: seq<byte>, n: nat, b: seq<byte>)
    requires Unary(m) + a == Unary(n) + b
    ensures m == n && a == b
  {
    var s, t := Unary(m) + a, Unary(n) + b;
    assert s[0] == Unary(m)[0] && t[0] == Unary(n)[0];
    if m > 0 && n > 0 {
      assert s[1..] == Unary(m - 1) + a && t[1..] == Unary(n - 1) + b;
      UnarySplits(m - 1, a, n - 1, b);
    } else {
      assert s[1..] == a && t[1..] == b;
    }
  }

  lemma DropFirst(first: byte, a: seq<byte>, b: seq<byte>, c: seq<byte>)
    ensures ([first] + a + b + c)[1..] == a + (b + c)
  {
  }

  lemma TextTail(s: string, rest: seq<byte>)
    ensures (TextCode(s) + rest)[1..]
      == if s == "" then rest else Unary(s[0] as nat) + (TextCode(s[1..]) + rest)
  {
    if s != "" {
      DropFirst(49, Unary(s[0] as nat), TextCode(s[1..]), rest);
    }
  }

  lemma {:induction false} TextSplits(s: string, a: seq<byte>, t: string, b: seq<byte>)
    requires TextCode(s) + a == TextCode(t) + b
    ensures s == t && a == b
  {
    hide Unary;
    var x, y := TextCode(s) + a, TextCode(t) + b;
    assert x[0] == TextCode(s)[0] && y[0] == TextCode(t)[0];
    TextTail(s, a);
    TextTail(t, b);
    if s != "" && t != "" {
      UnarySplits(s[0] as nat, TextCode(s[1..]) + a, t[0] as nat, TextCode(t[1..]) + b);
      TextSplits(s[1..], a, t[1..], b);
      assert s == [s[0]] + s[1..] && t == [t[0]] + t[1..];
    }
  }

  lemma {:induction false} TextsSplit(ss: seq<string>, ts: seq<string>)
    requires |ss| == |ts| && TextsCode(ss) == TextsCode(ts)
    ensures ss == ts
  {
    if ss != [] {
      TextSplits(ss[0], TextsCode(ss[1..]), ts[0], TextsCode(ts[1..]));
      TextsSplit(ss[1..], ts[1..]);
      assert ss == [ss[0]] + ss[1..] && ts == [ts[0]] + ts[1..];
    }
  }

  predicate IsDigits(code: seq<byte>) {
    forall i :: 0 <= i < |code| ==> code[i] == 48 || code[i] == 49
  }

  lemma {:induction false} UnaryIsDigits(n: nat)
    ensures IsDigits(Unary(n))
  {
    if n > 0 {
      UnaryIsDigits(n - 1);
    }
  }

  lemma {:induction false} TextIsDigits(s: string)
    ensures IsDigits(TextCode(s))
  {
    if s != "" {
      UnaryIsDigits(s[0] as nat);
      TextIsDigits(s[1..]);
    }
  }

  lemma {:induction false} TextsAreDigits(ss: seq<string>)
    ensures IsDigits(TextsCode(ss))
  {
    if ss != [] {
      TextIsDigits(ss[0]);
      TextsAreDigits(ss[1..]);
    }
  }

  function Tag(o: Option<string>): string {
    if o.Some? then "1" + o.value else ""
  }

  function TextsOf(e: Event): (r: seq<string>)
    ensures |r| == 10
  {
    [Tag(e.body.previous), e.body.eventId, e.body.timestamp, e.body.spanId, e.body.workflowId, e.body.eventType,
     e.body.decision, e.body.resource, Tag(e.body.capabilityId), e.eventHash]
  }

  lemma TagIsInjective(a: Option<string>, b: Option<string>)
    requires Tag(a) == Tag(b)
    ensures a == b
  {
    assert a.Some? ==> Tag(a)[1..] == a.value;
    assert b.Some? ==> Tag(b)[1..] == b.value;
  }

  function ToyWrite(e: Event): seq<byte> {
    [123] + TextsCode(TextsOf(e)) + [125]
  }

  lemma ToyWriteIsInjective(e: Event, f: Event)
    requires ToyWrite(e) == ToyWrite(f)
    ensures e == f
  {
    var a, b := TextsCode(TextsOf(e)), TextsCode(TextsOf(f));
    assert a == ToyWrite(e)[1..|ToyWrite(e)| - 1] && b == ToyWrite(f)[1..|ToyWrite(f)| - 1];
    var ss, ts := TextsOf(e), TextsOf(f);
    TextsSplit(ss, ts);
    assert ss[0] == ts[0] && ss[1] == ts[1] && ss[2] == ts[2] && ss[3] == ts[3] && ss[4] == ts[4];
    assert ss[5] == ts[5] && ss[6] == ts[6] && ss[7] == ts[7] && ss[8] == ts[8] && ss[9] == ts[9];
    TagIsInjective(e.body.previous, f.body.previous);
    TagIsInjective(e.body.capabilityId, f.body.capabilityId);
  }

  ghost function ToyRead(line: seq<byte>): Line {
    if line == [] then Blank
    else if exists e :: ToyWrite(e) == line then
      var e :| ToyWrite(e) == line;
      Written(e)
    else NotJson
  }

  lemma ToyLine(before: seq<byte>, e: Event, n: nat)
    requires 0 < n <= |ToyWrite(e)|
    ensures ToyRead(before + ToyWrite(e)[..n]) == if before == [] && n == |ToyWrite(e)| then Written(e) else NotJson
  {
    var text, line := ToyWrite(e), before + ToyWrite(e)[..n];
    TextsAreDigits(TextsOf(e));
    if before == [] && n == |text| {
      assert line == text;
      forall f | ToyWrite(f) == line ensures f == e {
        ToyWriteIsInjective(e, f);
      }
    } else {
      forall f ensures ToyWrite(f) != line {
        TextsAreDigits(TextsOf(f));
        var other := ToyWrite(f);
        if before == [] {
          assert line[|line| - 1] == text[n - 1] != 125 && other[|other| - 1] == 125;
        } else {
          assert line[|before|] == text[0] == 123;
          assert forall i :: 0 < i < |other| ==> other[i] != 123;
        }
      }
    }
  }

  lemma ToyIsLawful(toy: Json, before: seq<byte>, e: Event)
    requires (forall x :: toy.write(x) == ToyWrite(x)) && (forall line :: toy.read(line) == ToyRead(line))
    ensures LawAt(toy, before, e)
  {
    hide TextsCode, TextsOf, ToyRead;
    var text := ToyWrite(e);
    TextsAreDigits(TextsOf(e));
    assert text[..|text|] == text;
    BlankMeansEmpty(before);
    forall n | 0 < n <= |text|
      ensures ToyRead(before + text[..n]) == if before == [] && n == |text| then Written(e) else NotJson
    {
      ToyLine(before, e, n);
    }
  }

  lemma BlankMeansEmpty(line: seq<byte>)
    ensures ToyRead(line) == Blank <==> line == []
  {
  }

  lemma LawfulJsonExists() returns (json: Json)
    ensures Lawful(json)
  {
    hide ToyRead, ToyWrite, LawAt;
    json := Json(e => ToyWrite(e), line => ToyRead(line));
    BlankMeansEmpty([]);
    forall before, e ensures LawAt(json, before, e) {
      ToyIsLawful(json, before, e);
    }
  }

  // ---- The events in the file ----

  function EventsIn(lines: seq<Line>): seq<Event> {
    if lines == [] then []
    else
      var last := lines[|lines| - 1];
      EventsIn(lines[..|lines| - 1]) + (if last.Written? then [last.event] else [])
  }

  function Events(json: Json, file: seq<byte>): seq<Event> {
    EventsIn(ReadFile(json, file))
  }

  lemma EventsSnoc(lines: seq<Line>, line: Line)
    ensures EventsIn(lines + [line]) == EventsIn(lines) + (if line.Written? then [line.event] else [])
  {
    assert (lines + [line])[..|lines|] == lines;
  }

  /** The complete lines, then the unfinished one. */
  lemma FileSplits(json: Json, file: seq<byte>)
    ensures ReadFile(json, file) == Finished(json, file) + [json.read(Unfinished(file))]
    ensures var last := json.read(Unfinished(file));
      Events(json, file) == EventsIn(Finished(json, file)) + (if last.Written? then [last.event] else [])
  {
    hide Lines, EventsIn;
    EventsSnoc(Finished(json, file), json.read(Unfinished(file)));
  }

  /** What an append leaves: the complete lines, the unfinished one as it reads now, and perhaps an empty one. */
  lemma Grown(json: Json, file: seq<byte>, text: seq<byte>, newline: bool)
    requires NoBreaks(text) && json.read([]) == Blank
    ensures var after := file + text + (if newline then [NEWLINE] else []);
      && ReadFile(json, after)
         == Finished(json, file) + [json.read(Unfinished(file) + text)] + (if newline then [Blank] else [])
      && Events(json, after) == EventsIn(Finished(json, file) + [json.read(Unfinished(file) + text)])
  {
    hide Lines, EventsIn;
    AppendText(file, text);
    AppendBreak(file + text);
    var lines := Finished(json, file) + [json.read(Unfinished(file) + text)];
    if newline {
      assert ReadFile(json, file + text + [NEWLINE]) == lines + [Blank];
      EventsSnoc(lines, Blank);
      assert EventsIn(lines) + [] == EventsIn(lines);
    } else {
      assert file + text + [] == file + text;
      assert ReadFile(json, file + text) == lines && lines + [] == lines;
    }
  }

  /**
   * An event that went through to the disk is in the log, exactly if nothing but white space stood on its line. On the
   * remains of a torn line it is lost, though it was returned, and so is what those remains may have said.
   */
  lemma ReturnedIsLogged(h: Hashing, json: Json, enabled: bool, file: seq<byte>, d: Decide, coins: Coins, e: Event)
    requires Lawful(json) && Prepared(h, json, enabled, file, d, coins) == Some(e)
    ensures var after := file + OnDisk(json, e, Works);
      && (Events(json, after) == Events(json, file) + [e] <==> json.read(Unfinished(file)).Blank?)
      && (!json.read(Unfinished(file)).Blank? ==> Events(json, after) == EventsIn(Finished(json, file)))
      && (json.read(Unfinished(file)).Blank? ==> LastHash(json, after) == Ok(Some(e.eventHash)))
  {
    hide Lines, EventsIn, LastFound, BodyFor, Classified, Utf8.WellFormed;
    var text, last := json.write(e), json.read(Unfinished(file));
    assert LawAt(json, Unfinished(file), e);
    assert text[..|text|] == text;
    assert file + OnDisk(json, e, Works) == file + text + [NEWLINE];
    Grown(json, file, text, true);
    FileSplits(json, file);
    EventsSnoc(Finished(json, file), json.read(Unfinished(file) + text));
    if last.Blank? {
      assert EventsIn(Finished(json, file)) + [] == EventsIn(Finished(json, file));
      AsciiKeepsWellFormed(file, text + [NEWLINE]);
      assert file + (text + [NEWLINE]) == file + text + [NEWLINE];
      LastIsFound(Finished(json, file), e);
    } else {
      assert EventsIn(Finished(json, file)) + [] == EventsIn(Finished(json, file));
    }
  }

  lemma LastIsFound(lines: seq<Line>, e: Event)
    ensures LastFound(lines + [Written(e)] + [Blank]) == Printed(e.eventHash)
  {
    var all := lines + [Written(e)] + [Blank];
    assert all[..|all| - 1] == lines + [Written(e)];
  }

  lemma {:induction false} AsciiKeepsWellFormed(s: seq<byte>, ascii: seq<byte>)
    requires Utf8.WellFormed(s) && forall i :: 0 <= i < |ascii| ==> ascii[i] <= 0x7F
    ensures Utf8.WellFormed(s + ascii)
  {
    if s == [] {
      assert s + ascii == ascii;
      Utf8.AsciiIsWellFormed(ascii);
    } else {
      var n := Utf8.SequenceLength(s);
      assert Utf8.SequenceLength(s + ascii) == n;
      assert (s + ascii)[n..] == s[n..] + ascii;
      AsciiKeepsWellFormed(s[n..], ascii);
    }
  }

  /** A file that is empty or ends in a line break has nothing on its last line. */
  lemma NewlineMeansBlank(file: seq<byte>)
    ensures Unfinished(file) == [] <==> file == [] || IsBreak(file[|file| - 1])
  {
  }

  // ---- The chain ----

  /** Each event names the hash of the one before it, the first names none, and each hash is right. */
  predicate Chain(h: Hashing, es: seq<Event>) {
    forall i :: 0 <= i < |es| ==> Linked(h, es, i)
  }

  predicate Linked(h: Hashing, es: seq<Event>, i: int)
    requires 0 <= i < |es|
  {
    es[i].eventHash == h.Of(es[i].body) && es[i].body.previous == (if i == 0 then None else Some(es[i - 1].eventHash))
  }

  function LastOf(es: seq<Event>): Option<string> {
    if es == [] then None else Some(es[|es| - 1].eventHash)
  }

  lemma ChainSnoc(h: Hashing, es: seq<Event>, e: Event)
    ensures Chain(h, es + [e]) <==> Chain(h, es) && e.eventHash == h.Of(e.body) && e.body.previous == LastOf(es)
  {
    var all := es + [e];
    forall i | 0 <= i < |es| ensures Linked(h, all, i) == Linked(h, es, i) {
      assert all[i] == es[i] && (i > 0 ==> all[i - 1] == es[i - 1]);
    }
    assert Linked(h, all, |es|) <==> e.eventHash == h.Of(e.body) && e.body.previous == LastOf(es);
  }

  predicate NoForeign(lines: seq<Line>) {
    forall i :: 0 <= i < |lines| ==> !lines[i].Foreign?
  }

  lemma {:induction false} LastEventIsLinked(lines: seq<Line>)
    requires NoForeign(lines)
    ensures LastFound(lines)
      == (if LastOf(EventsIn(lines)).None? then Falsy else Printed(LastOf(EventsIn(lines)).value))
  {
    if lines != [] {
      LastEventIsLinked(lines[..|lines| - 1]);
    }
  }

  datatype Request = Request(enabled: bool, decide: Decide, coins: Coins, disk: Disk)

  /** What may happen to the file: a decision, or bytes that somebody else appends. */
  datatype Happening = Decided(request: Request) | Scribbled(bytes: seq<byte>)

  function AfterHappening(h: Hashing, json: Json, file: seq<byte>, x: Happening): seq<byte> {
    match x
    case Scribbled(bytes) => file + bytes
    case Decided(q) =>
      var e := Prepared(h, json, q.enabled, file, q.decide, q.coins);
      file + (if e.Some? then OnDisk(json, e.value, q.disk) else [])
  }

  function AfterRun(h: Hashing, json: Json, file: seq<byte>, run: seq<Happening>): seq<byte> {
    if run == [] then file
    else AfterHappening(h, json, AfterRun(h, json, file, run[..|run| - 1]), run[|run| - 1])
  }

  /** The scribbling completes no object: at most it spoils the unfinished line. */
  predicate AddsNoObject(json: Json, file: seq<byte>, bytes: seq<byte>) {
    var before, after := Lines(file), Lines(file + bytes);
    forall i :: |before| - 1 <= i < |after| && IsObject(json.read(after[i])) ==>
      i == |before| - 1 && after[i] == before[i]
  }

  predicate OneWriter(h: Hashing, json: Json, file: seq<byte>, run: seq<Happening>) {
    forall i :: 0 <= i < |run| && run[i].Scribbled? ==>
      AddsNoObject(json, AfterRun(h, json, file, run[..i]), run[i].bytes)
  }

  ghost predicate IsLog(h: Hashing, json: Json, file: seq<byte>) {
    NoForeign(ReadFile(json, file)) && Chain(h, Events(json, file))
  }

  lemma ChainPrefix(h: Hashing, es: seq<Event>, n: nat)
    requires Chain(h, es) && n <= |es|
    ensures Chain(h, es[..n])
  {
    forall i | 0 <= i < n ensures Linked(h, es[..n], i) {
      assert Linked(h, es, i);
    }
  }

  /** Losing the event on the unfinished line leaves a chain. */
  lemma FinishedIsLog(h: Hashing, json: Json, file: seq<byte>)
    requires IsLog(h, json, file)
    ensures NoForeign(Finished(json, file)) && Chain(h, EventsIn(Finished(json, file)))
  {
    hide Lines, EventsIn, Chain;
    FileSplits(json, file);
    ChainPrefix(h, Events(json, file), |EventsIn(Finished(json, file))|);
    assert forall i :: 0 <= i < |Finished(json, file)| ==> Finished(json, file)[i] == ReadFile(json, file)[i];
  }

  /** A decision, with the line torn anywhere. */
  lemma DecisionKeepsLog(h: Hashing, json: Json, file: seq<byte>, q: Request)
    requires Lawful(json) && IsLog(h, json, file)
    ensures IsLog(h, json, AfterHappening(h, json, file, Decided(q)))
  {
    hide Lines, EventsIn, Chain, LastFound, BodyFor, Classified, Utf8.WellFormed;
    var prepared := Prepared(h, json, q.enabled, file, q.decide, q.coins);
    if prepared.None? || OnDisk(json, prepared.value, q.disk) == [] {
      assert file + [] == file;
    } else {
      var e := prepared.value;
      var text, appended, last := json.write(e), OnDisk(json, e, q.disk), json.read(Unfinished(file));
      assert LawAt(json, Unfinished(file), e);
      var n := if |appended| <= |text| then |appended| else |text|;
      var newline := |appended| > |text|;
      assert appended == text[..n] + (if newline then [NEWLINE] else []);
      assert file + appended == file + text[..n] + (if newline then [NEWLINE] else []);
      Grown(json, file, text[..n], newline);
      assert text[..|text|] == text;
      FileSplits(json, file);
      FinishedIsLog(h, json, file);
      var line := json.read(Unfinished(file) + text[..n]);
      EventsSnoc(Finished(json, file), line);
      if line.Written? {
        assert last.Blank? && line.event == e;
        assert EventsIn(Finished(json, file)) + [] == EventsIn(Finished(json, file));
        LastEventIsLinked(ReadFile(json, file));
        NewBody(q.decide, q.coins, Classified(q.decide.status).value, LastHash(json, file).value);
        ChainSnoc(h, Events(json, file), e);
      } else {
        assert EventsIn(Finished(json, file)) + [] == EventsIn(Finished(json, file));
      }
    }
  }

  lemma {:induction false} NoObjectsNoEvents(lines: seq<Line>, more: seq<Line>)
    requires forall i :: 0 <= i < |more| ==> !IsObject(more[i])
    ensures EventsIn(lines + more) == EventsIn(lines)
  {
    if more == [] {
      assert lines + [] == lines;
    } else {
      NoObjectsNoEvents(lines, more[..|more| - 1]);
      assert (lines + more)[..|lines + more| - 1] == lines + more[..|more| - 1];
    }
  }

  lemma ScribbleKeepsLog(h: Hashing, json: Json, file: seq<byte>, bytes: seq<byte>)
    requires IsLog(h, json, file) && AddsNoObject(json, file, bytes)
    ensures IsLog(h, json, file + bytes)
  {
    hide Lines, EventsIn, Chain;
    var before, after, n := Lines(file), Lines(file + bytes), |Lines(file)| - 1;
    LinesStay(file, bytes);
    FileSplits(json, file);
    FinishedIsLog(h, json, file);
    assert forall i :: 0 <= i < n ==> after[i] == after[..n][i] == before[..n][i] == before[i];
    var kept := if IsObject(json.read(after[n])) then n + 1 else n;
    assert ReadFile(json, file + bytes) == Readings(json, after[..kept]) + Readings(json, after[kept..]);
    NoObjectsNoEvents(Readings(json, after[..kept]), Readings(json, after[kept..]));
    if kept == n {
      assert Readings(json, after[..kept]) == Finished(json, file);
    } else {
      assert Readings(json, after[..kept]) == ReadFile(json, file);
    }
    assert forall i :: 0 <= i < n ==> ReadFile(json, file + bytes)[i] == ReadFile(json, file)[i];
    assert forall i :: n <= i < |after| && json.read(after[i]).Foreign? ==> ReadFile(json, file)[n].Foreign?;
  }

  /**
   * Whatever is decided, wherever writes are torn and whatever else is scribbled into the file short of an object: the
   * events in it are one hash chain from a first one without predecessor.
   */
  lemma {:induction false} EveryRunIsAChain(h: Hashing, json: Json, file: seq<byte>, run: seq<Happening>)
    requires Lawful(json) && IsLog(h, json, file) && OneWriter(h, json, file, run)
    ensures IsLog(h, json, AfterRun(h, json, file, run))
  {
    hide IsLog, Lawful, AddsNoObject, Prepared, OnDisk;
    if run != [] {
      var front, last := run[..|run| - 1], run[|run| - 1];
      assert forall i :: 0 <= i < |front| ==> front[..i] == run[..i] && front[i] == run[i];
      EveryRunIsAChain(h, json, file, front);
      match last
      case Scribbled(bytes) => ScribbleKeepsLog(h, json, AfterRun(h, json, file, front), bytes);
      case Decided(q) => DecisionKeepsLog(h, json, AfterRun(h, json, file, front), q);
    }
  }

  /** An empty file is such a log, so every run that starts with nothing leaves one. */
  lemma RunsFromNothing(h: Hashing, json: Json, run: seq<Happening>)
    requires Lawful(json) && OneWriter(h, json, [], run)
    ensures IsLog(h, json, AfterRun(h, json, [], run))
  {
    hide AfterRun, OneWriter, Lawful, Chain;
    EmptyIsLog(h, json);
    EveryRunIsAChain(h, json, [], run);
  }

  lemma EmptyIsLog(h: Hashing, json: Json)
    requires Lawful(json)
    ensures IsLog(h, json, [])
  {
    assert ReadFile(json, []) == [] + [Blank];
    EventsSnoc([], Blank);
    assert EventsIn([]) + [] == [];
  }

  lemma NewBody(d: Decide, coins: Coins, kind: (string, string), previous: Option<string>)
    ensures BodyFor(d, coins, kind, previous).previous == previous
  {
  }

  // ---- When an event is returned, and what silences the log ----

  /** Nothing in the file makes _last_hash raise. */
  predicate Readable(json: Json, file: seq<byte>) {
    Utf8.WellFormed(file) && Raising !in ReadFile(json, file) && !LastFound(ReadFile(json, file)).Unprintable?
  }

  /** A known decision gets its event, exactly if the file can be read through and the disk takes the line. */
  lemma EmitsUnlessSilenced(h: Hashing, json: Json, enabled: bool, file: seq<byte>, d: Decide, coins: Coins)
    ensures Prepared(h, json, enabled, file, d, coins).Some?
      <==> enabled && Classified(d.status).Some? && Readable(json, file)
  {
  }

  /** Silence is permanent: no number of decisions changes the file again. */
  lemma {:induction false} SilenceLasts(h: Hashing, json: Json, file: seq<byte>, run: seq<Happening>)
    requires !Readable(json, file) && forall i :: 0 <= i < |run| ==> run[i].Decided?
    ensures AfterRun(h, json, file, run) == file
  {
    hide Readable, LastHash, Prepared;
    if run != [] {
      SilenceLasts(h, json, file, run[..|run| - 1]);
      var q := run[|run| - 1].request;
      EmitsUnlessSilenced(h, json, q.enabled, file, q.decide, q.coins);
      assert file + [] == file;
    }
  }

  /** A raising line that is complete stays one, whatever anybody appends. */
  lemma RaisingLineStays(json: Json, file: seq<byte>, bad: seq<byte>, more: seq<byte>)
    requires Unfinished(file) == [] && NoBreaks(bad) && json.read(bad) == Raising
    ensures !Readable(json, file + bad + [NEWLINE] + more)
  {
    hide Lines;
    var n := |Lines(file)|;
    AppendText(file, bad);
    AppendBreak(file + bad);
    LinesStay(file + bad + [NEWLINE], more);
    var lines := Lines(file + bad + [NEWLINE] + more);
    assert lines[n - 1] == bad by {
      assert [] + bad == bad;
    }
    assert ReadFile(json, file + bad + [NEWLINE] + more)[n - 1] == Raising;
  }

  /** So does a byte that starts no UTF-8 sequence, even if it is all there is. */
  lemma BadByteSilences(json: Json)
    ensures !Readable(json, [0xFF, NEWLINE])
  {
    assert Utf8.SequenceLength([0xFF, NEWLINE]) == 0;
  }

  // ---- The last hash stands for the whole history ----

  ghost function Preimages(h: Hashing, es: seq<Event>): set<seq<byte>> {
    set e | e in es :: h.canonical(e.body)
  }

  /** The hash tells the inputs apart, and the JSON tells the bodies apart. */
  ghost predicate Separates(h: Hashing, a: seq<Event>, b: seq<Event>) {
    && (forall x, y :: x in a && y in b && h.canonical(x.body) == h.canonical(y.body) ==> x.body == y.body)
    && (forall x, y :: x in Preimages(h, a) && y in Preimages(h, b) && h.hash(x) == h.hash(y) ==> x == y)
  }

  lemma SameEvent(h: Hashing, a: seq<Event>, b: seq<Event>, x: Event, y: Event)
    requires Separates(h, a, b) && x in a && y in b && x.eventHash == y.eventHash
    requires x.eventHash == h.Of(x.body) && y.eventHash == h.Of(y.body)
    ensures x == y
  {
    assert h.canonical(x.body) in Preimages(h, a) && h.canonical(y.body) in Preimages(h, b);
  }

  /**
   * Two chains that end in the same hash are the same events from the first on: nothing can be changed, dropped or
   * inserted.
   */
  lemma {:induction false} LastHashFixesHistory(h: Hashing, a: seq<Event>, b: seq<Event>)
    requires Chain(h, a) && Chain(h, b) && Separates(h, a, b) && a != [] && b != []
    requires a[|a| - 1].eventHash == b[|b| - 1].eventHash
    ensures a == b
    decreases |a|
  {
    hide Chain, Separates;
    var x, y, fa, fb := a[|a| - 1], b[|b| - 1], a[..|a| - 1], b[..|b| - 1];
    assert a == fa + [x] && b == fb + [y];
    ChainSnoc(h, fa, x);
    ChainSnoc(h, fb, y);
    SameEvent(h, a, b, x, y);
    if fa != [] && fb != [] {
      SeparatesFronts(h, a, b);
      LastHashFixesHistory(h, fa, fb);
    }
  }

  lemma SeparatesFronts(h: Hashing, a: seq<Event>, b: seq<Event>)
    requires Separates(h, a, b) && a != [] && b != []
    ensures Separates(h, a[..|a| - 1], b[..|b| - 1])
  {
    var fa, fb := a[..|a| - 1], b[..|b| - 1];
    assert forall e :: e in fa ==> e in a;
    assert forall e :: e in fb ==> e in b;
    assert Preimages(h, fa) <= Preimages(h, a) && Preimages(h, fb) <= Preimages(h, b);
  }
}
