/** The client's side of a change stream: how an EventSource reads the bytes
    `changes` writes (section 9.2.6 of the WHATWG HTML Standard), and what the
    last event ID it holds gives back to the server. */
module LiveClient {
  import opened Digits
  import opened Text
  import opened LiveWire

  // ---------- Reading the stream ----------

  datatype Message = Message(kind: string, data: string, lastId: string)

  /** The event stream parser's buffers between lines. */
  datatype Buffers = Buffers(kind: string, data: string, lastId: string)

  predicate LineEnd(c: char) {
    c == '\n' || c == '\r'
  }

  predicate OneLine(s: string) {
    forall i | 0 <= i < |s| :: !LineEnd(s[i])
  }

  function LineLength(s: string): (n: nat)
    ensures n <= |s|
    ensures OneLine(s[..n])
    ensures n < |s| ==> LineEnd(s[n])
  {
    if s == "" || LineEnd(s[0]) then 0
    else
      var n := 1 + LineLength(s[1..]);
      assert s[..n] == [s[0]] + s[1..][..n - 1];
      n
  }

  /** A field's value, without the one space that may lead it. */
  function FieldValue(s: string): string {
    if s != "" && s[0] == ' ' then s[1..] else s
  }

  function SetField(b: Buffers, name: string, value: string): Buffers {
    if name == "event" then b.(kind := value)
    else if name == "data" then b.(data := b.data + value + "\n")
    else if name == "id" && '\0' !in value then b.(lastId := value)
    else b
  }

  function ReadLine(b: Buffers, line: string): Buffers {
    var colon := IndexOf(line, ':');
    if colon == 0 && line != "" then b
    else if colon < |line| then SetField(b, line[..colon], FieldValue(line[colon + 1..]))
    else SetField(b, line, "")
  }

  /** What a blank line dispatches. */
  function Dispatch(b: Buffers): seq<Message> {
    if b.data == "" then []
    else [Message(if b.kind == "" then "message" else b.kind, b.data[..|b.data| - 1], b.lastId)]
  }

  /** What follows the first line and its end, which is LF, CR or CRLF. */
  function AfterLine(text: string): (rest: string)
    requires LineLength(text) < |text|
    ensures |rest| < |text|
  {
    var n := LineLength(text);
    if text[n] == '\r' && n + 1 < |text| && text[n + 1] == '\n' then text[n + 2..] else text[n + 1..]
  }

  /** The messages a stream dispatches; an unfinished one at its end is lost. */
  function Messages(b: Buffers, text: string): seq<Message>
    decreases |text|
  {
    var n := LineLength(text);
    if n == |text| then []
    else if n == 0 then Dispatch(b) + Messages(Buffers("", "", b.lastId), AfterLine(text))
    else Messages(ReadLine(b, text[..n]), AfterLine(text))
  }

  lemma SliceOfSlice(text: string, n: nat, k: nat)
    requires k <= n <= |text|
    ensures text[..n][k..] == text[k..][..n - k]
  {
  }

  lemma CutLine(text: string, n: nat) returns (m: nat)
    requires LineLength(text) < n <= |text|
    ensures LineLength(text[..n]) == LineLength(text)
    ensures m <= |AfterLine(text)| && AfterLine(text[..n]) == AfterLine(text)[..m]
  {
    LineLengthPrefix(text, n);
    var k := LineLength(text);
    var skip := |text| - |AfterLine(text)|;
    if skip <= n {
      SliceOfSlice(text, n, skip);
      m := n - skip;
    } else {
      m := 0;
    }
  }

  /** A connection cut anywhere delivers the first messages and nothing else. */
  lemma {:induction false} CutStream(b: Buffers, text: string, n: nat)
    requires n <= |text|
    ensures Messages(b, text[..n]) <= Messages(b, text)
    decreases |text|
  {
    LineLengthPrefix(text, n);
    if LineLength(text) < n {
      var m := CutLine(text, n);
      var k := LineLength(text);
      assert text[..n][..k] == text[..k];
      CutStream(if k == 0 then Buffers("", "", b.lastId) else ReadLine(b, text[..k]), AfterLine(text), m);
    }
  }

  lemma {:induction false} LineLengthPrefix(text: string, n: nat)
    requires n <= |text|
    ensures LineLength(text[..n]) == if LineLength(text) < n then LineLength(text) else n
  {
    if n > 0 && !LineEnd(text[0]) {
      assert text[..n][1..] == text[1..][..n - 1];
      LineLengthPrefix(text[1..], n - 1);
    }
  }

  lemma {:induction false} LineLengthOf(line: string, rest: string)
    requires OneLine(line)
    ensures LineLength(line + "\n" + rest) == |line|
  {
    if line == "" {
      assert (line + "\n" + rest)[0] == '\n';
    } else {
      assert (line + "\n" + rest)[1..] == line[1..] + "\n" + rest;
      LineLengthOf(line[1..], rest);
    }
  }

  lemma ReadsLine(b: Buffers, line: string, rest: string)
    requires OneLine(line) && line != ""
    ensures Messages(b, line + "\n" + rest) == Messages(ReadLine(b, line), rest)
  {
    LineLengthOf(line, rest);
    var text := line + "\n" + rest;
    assert text[|line|] == '\n' && text[..|line|] == line && text[|line| + 1..] == rest;
  }

  lemma ReadsBlank(b: Buffers, rest: string)
    ensures Messages(b, "\n" + rest) == Dispatch(b) + Messages(Buffers("", "", b.lastId), rest)
  {
    LineLengthOf("", rest);
    var text := "" + "\n" + rest;
    assert text == "\n" + rest && text[1..] == rest;
  }

  lemma ReadsField(b: Buffers, name: string, value: string)
    requires name != "" && forall i | 0 <= i < |name| :: name[i] != ':'
    ensures ReadLine(b, name + ": " + value) == SetField(b, name, value)
  {
    var line := name + ": " + value;
    assert forall i | 0 <= i < |name| :: line[i] == name[i];
    assert line[|name|] == ':';
    assert IndexOf(line, ':') == |name|;
    assert line[..|name|] == name && line[|name| + 1..] == " " + value;
    assert (" " + value)[1..] == value;
  }

  /** What the text of an event may hold without breaking its framing. */
  ghost predicate Framed(e: Event) {
    OneLine(Token(e.topic, e.version)) && OneLine(e.id) && '\0' !in e.id && Token(e.topic, e.version) != ""
  }

  ghost predicate AllFramed(events: seq<Event>) {
    forall k | 0 <= k < |events| :: Framed(events[k])
  }

  lemma AllFramedCons(e: Event, rest: seq<Event>)
    requires Framed(e) && AllFramed(rest)
    ensures AllFramed([e] + rest)
  {
  }

  function MessageOf(e: Event): Message {
    Message("change", Token(e.topic, e.version), e.id)
  }

  function MessagesOf(events: seq<Event>): seq<Message> {
    seq(|events|, i requires 0 <= i < |events| => MessageOf(events[i]))
  }

  lemma ReadsFieldLine(b: Buffers, name: string, value: string, rest: string)
    requires name != "" && OneLine(name) && OneLine(value) && forall i | 0 <= i < |name| :: name[i] != ':'
    ensures Messages(b, (name + ": " + value) + "\n" + rest) == Messages(SetField(b, name, value), rest)
  {
    ReadsField(b, name, value);
    ReadsLine(b, name + ": " + value, rest);
  }

  lemma KindLine()
    ensures ("event" + ": " + "change") + "\n" == "event: change\n"
  {
    assert "event" + ": " == "event: ";
    assert "event: " + "change" == "event: change";
  }

  lemma ReadsKind(b: Buffers, rest: string)
    ensures Messages(b, "event: change\n" + rest) == Messages(b.(kind := "change"), rest)
  {
    ReadsFieldLine(b, "event", "change", rest);
    KindLine();
  }

  lemma ReadsData(b: Buffers, value: string, rest: string)
    requires OneLine(value)
    ensures Messages(b, "data: " + value + "\n" + rest) == Messages(b.(data := b.data + value + "\n"), rest)
  {
    ReadsFieldLine(b, "data", value, rest);
    assert "data" + ": " == "data: ";
  }

  lemma ReadsId(b: Buffers, value: string, rest: string)
    requires OneLine(value) && '\0' !in value
    ensures Messages(b, "id: " + value + "\n" + rest) == Messages(b.(lastId := value), rest)
  {
    ReadsFieldLine(b, "id", value, rest);
    assert "id" + ": " == "id: ";
  }

  lemma SplitEventText(e: Event, rest: string)
    ensures EventText(e) + rest
      == "event: change\n" + ("data: " + Token(e.topic, e.version) + "\n" + ("id: " + e.id + "\n" + ("\n" + rest)))
  {
  }

  lemma NothingAhead(s: string)
    ensures "" + s == s
  {
  }

  lemma ReadsFirstData(id: string, value: string, rest: string)
    requires OneLine(value)
    ensures Messages(Buffers("change", "", id), "data: " + value + "\n" + rest)
         == Messages(Buffers("change", value + "\n", id), rest)
  {
    NothingAhead(value);
    ReadsData(Buffers("change", "", id), value, rest);
  }

  lemma ReadsKindAndData(id: string, value: string, rest: string)
    requires OneLine(value)
    ensures Messages(Buffers("", "", id), "event: change\n" + ("data: " + value + "\n" + rest))
         == Messages(Buffers("change", value + "\n", id), rest)
  {
    ReadsKind(Buffers("", "", id), "data: " + value + "\n" + rest);
    ReadsFirstData(id, value, rest);
  }

  lemma ReadsIdAndBlank(b: Buffers, value: string, rest: string)
    requires OneLine(value) && '\0' !in value
    ensures Messages(b, "id: " + value + "\n" + ("\n" + rest))
         == Dispatch(b.(lastId := value)) + Messages(Buffers("", "", value), rest)
  {
    ReadsId(b, value, "\n" + rest);
    ReadsBlank(b.(lastId := value), rest);
  }

  lemma ReadsEvent(id: string, e: Event, rest: string)
    requires Framed(e)
    ensures Messages(Buffers("", "", id), EventText(e) + rest) == [MessageOf(e)] + Messages(Buffers("", "", e.id), rest)
  {
    var token := Token(e.topic, e.version);
    SplitEventText(e, rest);
    ReadsKindAndData(id, token, "id: " + e.id + "\n" + ("\n" + rest));
    ReadsIdAndBlank(Buffers("change", token + "\n", id), e.id, rest);
    assert (token + "\n")[..|token|] == token;
  }

  /** The text changes writes reads back as exactly its events, each leaving
      its own ID as the last event ID. */
  lemma {:induction false} ReadsBack(id: string, events: seq<Event>)
    requires AllFramed(events)
    ensures Messages(Buffers("", "", id), Render(events)) == MessagesOf(events)
    decreases |events|
  {
    if events == [] {
      assert Render(events) == "";
    } else {
      var e, rest := events[0], events[1..];
      ReadsBack(e.id, rest);
      ReadsEvent(id, e, Render(rest));
      MessagesOfSplit(events);
    }
  }

  lemma MessagesOfSplit(events: seq<Event>)
    requires events != []
    ensures MessagesOf(events) == [MessageOf(events[0])] + MessagesOf(events[1..])
  {
  }

  lemma SpacelessLine(s: string)
    requires Spaceless(s)
    ensures OneLine(s)
  {
  }

  lemma {:induction false} IdTailLine(ws: seq<Watch>)
    requires ValidTopics(ws)
    ensures OneLine(IdTail(ws)) && '\0' !in IdTail(ws)
    decreases |ws|
  {
    if ws != [] {
      IdTailLine(ws[1..]);
      TokenSpaceless(ws[0].topic, ws[0].known);
      TokenNoNul(ws[0].topic, ws[0].known);
    }
  }

  lemma TokenNoNul(topic: string, v: nat)
    requires ValidTopic(topic)
    ensures '\0' !in Token(topic, v)
  {
    FormatRoundTrip(v);
    assert '\0' !in Format(v) by {
      forall i | 0 <= i < |Format(v)|
        ensures Format(v)[i] != '\0'
      {
        assert IsDigit(Format(v)[i]);
      }
    }
    var k := IndexOf(topic, '/');
    forall i | 0 <= i < |topic|
      ensures topic[i] != '\0'
    {
      if i < k {
        assert topic[i] == topic[..k][i];
        assert i == 0 || NameRune(topic[i]);
      } else if i > k {
        assert topic[i] == topic[k + 1..][i - k - 1];
      }
    }
  }

  lemma FramedChange(boot: string, after: seq<Watch>, topic: string, version: U64)
    requires ValidTopics(after) && ValidTopic(topic) && ValidBoot(boot) && '\0' !in boot
    ensures Framed(Event(boot, topic, version, Id(boot, after)))
  {
    TokenSpaceless(topic, version);
    IdTailLine(after);
    SpacelessLine(boot);
  }

  /** Every event a pass of changes writes is framed. */
  lemma {:induction false} ChangesFramed(boot: string, ws: seq<Watch>, cur: seq<U64>, i: nat)
    requires i <= |ws| == |cur| && ValidTopics(ws) && ValidBoot(boot) && '\0' !in boot
    ensures AllFramed(Changes(boot, ws, cur, i).1)
    decreases |ws| - i
  {
    if i == |ws| {
    } else if !Moved(ws[i], cur[i]) {
      ChangesFramed(boot, ws, cur, i + 1);
    } else {
      var after := Caught(ws, i, cur[i]);
      FramedChange(boot, after, ws[i].topic, cur[i]);
      ChangesFramed(boot, after, cur, i + 1);
      AllFramedCons(Event(boot, ws[i].topic, cur[i], Id(boot, after)), Changes(boot, after, cur, i + 1).1);
    }
  }

  /** Wherever the connection breaks, an EventSource fed one pass of changes
      has exactly its first events, and the last of their IDs. */
  lemma DeliveredPrefix(boot: string, ws: seq<Watch>, cur: seq<U64>, id: string, n: nat)
    requires |ws| == |cur| && ValidTopics(ws) && ValidBoot(boot) && '\0' !in boot
    requires n <= |Render(Changes(boot, ws, cur, 0).1)|
    ensures var events := Changes(boot, ws, cur, 0).1;
            && Messages(Buffers("", "", id), Render(events)) == MessagesOf(events)
            && exists k :: 0 <= k <= |events| &&
                 Messages(Buffers("", "", id), Render(events)[..n]) == MessagesOf(events[..k])
  {
    var events := Changes(boot, ws, cur, 0).1;
    ChangesFramed(boot, ws, cur, 0);
    ReadsBack(id, events);
    CutStream(Buffers("", "", id), Render(events), n);
    var got := Messages(Buffers("", "", id), Render(events)[..n]);
    assert got == MessagesOf(events[..|got|]);
  }

  // ---------- Resuming, over a whole session ----------

  /** An event and the watches the stream held just after it. */
  datatype Held = Held(event: Event, after: seq<Watch>)

  /** changes, recording the state after each event. */
  function Recorded(boot: string, ws: seq<Watch>, cur: seq<U64>, i: nat): (seq<Watch>, seq<Held>)
    requires i <= |ws| == |cur|
    decreases |ws| - i
  {
    if i == |ws| then (ws, [])
    else if !Moved(ws[i], cur[i]) then Recorded(boot, ws, cur, i + 1)
    else
      var after := Caught(ws, i, cur[i]);
      var (last, held) := Recorded(boot, after, cur, i + 1);
      (last, [Held(Event(boot, ws[i].topic, cur[i], Id(boot, after)), after)] + held)
  }

  lemma {:induction false} RecordedIsChanges(boot: string, ws: seq<Watch>, cur: seq<U64>, i: nat)
    requires i <= |ws| == |cur|
    ensures var (last, held), (last', events) := Recorded(boot, ws, cur, i), Changes(boot, ws, cur, i);
            last == last' && |held| == |events| && forall k | 0 <= k < |held| :: held[k].event == events[k]
    decreases |ws| - i
  {
    if i == |ws| {
    } else if !Moved(ws[i], cur[i]) {
      RecordedIsChanges(boot, ws, cur, i + 1);
    } else {
      RecordedIsChanges(boot, Caught(ws, i, cur[i]), cur, i + 1);
    }
  }

  /** What can happen to one URL's streams under one boot: a pass of changes
      against any counters, or a reconnect that presents the ID of any event
      ever received, or none. */
  datatype Move = Pass(cur: seq<U64>) | Reconnect(at: Option<nat>)

  function Play(boot: string, base: seq<Watch>, moves: seq<Move>): (seq<Watch>, seq<Held>) {
    if moves == [] then (base, [])
    else
      var (ws, held) := Play(boot, base, moves[..|moves| - 1]);
      match moves[|moves| - 1]
      case Pass(cur) =>
        if |cur| != |ws| then (ws, held)
        else
          var (last, more) := Recorded(boot, ws, cur, 0);
          (last, held + more)
      case Reconnect(at) =>
        if at.Some? && at.value < |held| then (Resume(base, held[at.value].event.id, boot), held) else (base, held)
  }

  ghost predicate Recovers(boot: string, base: seq<Watch>, h: Held) {
    Derived(base, h.after) && Resume(base, h.event.id, boot) == h.after
  }

  lemma {:induction false} RecordedRecovers(boot: string, base: seq<Watch>, ws: seq<Watch>, cur: seq<U64>, i: nat)
    requires ValidBoot(boot) && WellFormed(base) && Derived(base, ws) && i <= |ws| == |cur|
    ensures var (last, held) := Recorded(boot, ws, cur, i);
            Derived(base, last) && forall k | 0 <= k < |held| :: Recovers(boot, base, held[k])
    decreases |ws| - i
  {
    if i == |ws| {
    } else if !Moved(ws[i], cur[i]) {
      RecordedRecovers(boot, base, ws, cur, i + 1);
    } else {
      var after := Caught(ws, i, cur[i]);
      ResumeRecovers(boot, base, after);
      RecordedRecovers(boot, base, after, cur, i + 1);
    }
  }

  /** After any event, over any number of passes and resumes under one boot,
      reading the same URL again and resuming on that event's ID gives exactly
      the watches held just after it, stale topics included. */
  lemma {:induction false} StateIsRecoverable(boot: string, raw: seq<string>, stale: bool, moves: seq<Move>)
    requires ValidBoot(boot) && ParseWatches(raw, stale).Some?
    ensures var base := ParseWatches(raw, stale).value;
            var (ws, held) := Play(boot, base, moves);
            Derived(base, ws) && forall k | 0 <= k < |held| :: Recovers(boot, base, held[k])
  {
    var base := ParseWatches(raw, stale).value;
    ParseFromSound(raw, [], stale);
    if moves != [] {
      var front := moves[..|moves| - 1];
      StateIsRecoverable(boot, raw, stale, front);
      var (ws, held) := Play(boot, base, front);
      match moves[|moves| - 1]
      case Pass(cur) =>
        if |cur| == |ws| {
          RecordedRecovers(boot, base, ws, cur, 0);
        }
      case Reconnect(at) =>
        if at.Some? && at.value < |held| {
          assert Recovers(boot, base, held[at.value]);
        }
    }
  }
}
