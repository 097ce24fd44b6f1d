/** How the gate sends an answer (api/emit.go, api/gate.go): held whole, then
    let out a chunk at a time, each chunk behind a fresh check of the
    authority it was made under. */
module Emission {
  import opened ByteText
  import opened Digits

  // ---------- Who it is for ----------

  datatype Grant = Grant(id: string, issuer: string, identityIssuer: string, audience: string)

  datatype Access = Read | Write | NoAccess

  datatype Actor = Actor(
    subject: string, agent: string, credential: string, grant: Option<Grant>,
    access: Access, session: string, harness: string)

  datatype Error = ResponseTooLarge | Unavailable | Unauthorized | NoValidAccess | Refusal(reason: string)

  /** sameGrant and sameHolder: someone else, or the same person under
      another credential or grant, is the token gone. */
  function SameHolder(was: Actor, now: Actor): Option<Error> {
    if was.subject != now.subject || was.agent != now.agent || was.credential != now.credential
       || was.grant != now.grant then Some(Unauthorized)
    else if now.access.NoAccess? then Some(NoValidAccess)
    else None
  }

  // ---------- One recheck ----------

  /** A check registered by the handler: its verdict on an actor, and when it
      returns. */
  datatype Disclosure = Disclosure(verdict: Actor -> Option<Error>, returned: int)

  /** What one recheck meets: when it begins, when the request ends, what the
      rechecker answers and when, the checks registered by then, and whether
      the connection takes a deadline. */
  datatype Round = Round(
    began: int, own: Option<int>, cancelled: Option<int>,
    now: Actor, error: Option<Error>, returned: int,
    checks: seq<Disclosure>, takesDeadline: bool)

  /** The window from here, or the request's own deadline when sooner. */
  function Deadline(r: Round, window: int): int {
    if r.own.Some? && r.own.value < r.began + window then r.own.value else r.began + window
  }

  predicate InTime(r: Round, window: int, at: int) {
    at < Deadline(r, window) && !(r.cancelled.Some? && at >= r.cancelled.value)
  }

  /** Before the window has run, before the request's own deadline, and before
      it is cancelled. */
  predicate Timely(r: Round, window: int, at: int) {
    && at < r.began + window
    && (r.own.Some? ==> at < r.own.value)
    && (r.cancelled.Some? ==> at < r.cancelled.value)
  }

  /** settled: a late answer is no answer. */
  function Settled(r: Round, window: int, at: int, error: Option<Error>): Option<Error> {
    if InTime(r, window, at) then error else Some(Unavailable)
  }

  /** The fresh actor with what only the request's headers say. */
  function Refreshed(was: Actor, now: Actor): Actor {
    now.(session := was.session, harness := was.harness)
  }

  /** The recheck passes: credential, holder and every registered check, all
      within the deadline, which the connection then takes. */
  ghost predicate Passes(was: Actor, window: int, r: Round) {
    && Timely(r, window, r.returned) && r.error.None?
    && was.subject == r.now.subject && was.agent == r.now.agent && was.credential == r.now.credential
    && was.grant == r.now.grant && !r.now.access.NoAccess?
    && (forall c | c in r.checks :: Timely(r, window, c.returned) && c.verdict(Refreshed(was, r.now)).None?)
    && r.takesDeadline
  }

  function FirstRefusal(was: Actor, window: int, r: Round, checks: seq<Disclosure>): Option<Error> {
    if checks == [] then None
    else
      var e := Settled(r, window, checks[0].returned, checks[0].verdict(Refreshed(was, r.now)));
      if e.Some? then e else FirstRefusal(was, window, r, checks[1..])
  }

  function Recheck(was: Actor, window: int, r: Round): Option<Error> {
    var credential := Settled(r, window, r.returned, r.error);
    if credential.Some? then credential
    else if SameHolder(was, r.now).Some? then SameHolder(was, r.now)
    else
      var disclosed := FirstRefusal(was, window, r, r.checks);
      if disclosed.Some? then disclosed
      else if !r.takesDeadline then Some(Unavailable)
      else None
  }

  /** recheck, with its loop over the registered checks. */
  method RunRecheck(was: Actor, window: int, r: Round) returns (error: Option<Error>)
    ensures error == Recheck(was, window, r)
  {
    error := Settled(r, window, r.returned, r.error);
    if error.Some? {
      return;
    }
    error := SameHolder(was, r.now);
    if error.Some? {
      return;
    }
    for i := 0 to |r.checks|
      invariant FirstRefusal(was, window, r, r.checks) == FirstRefusal(was, window, r, r.checks[i..])
    {
      assert r.checks[i..][0] == r.checks[i] && r.checks[i..][1..] == r.checks[i + 1..];
      error := Settled(r, window, r.checks[i].returned, r.checks[i].verdict(Refreshed(was, r.now)));
      if error.Some? {
        return;
      }
    }
    assert r.checks[|r.checks|..] == [];
    error := if r.takesDeadline then None else Some(Unavailable);
  }

  lemma {:induction false} NoRefusal(was: Actor, window: int, r: Round, checks: seq<Disclosure>)
    ensures FirstRefusal(was, window, r, checks).None? <==>
              forall c | c in checks :: Timely(r, window, c.returned) && c.verdict(Refreshed(was, r.now)).None?
  {
    if checks != [] {
      NoRefusal(was, window, r, checks[1..]);
      assert checks == [checks[0]] + checks[1..];
    }
  }

  /** A recheck answers nil exactly when everything it is for holds. */
  lemma RecheckIsPass(was: Actor, window: int, r: Round)
    ensures Recheck(was, window, r).None? <==> Passes(was, window, r)
  {
    NoRefusal(was, window, r, r.checks);
  }

  // ---------- The buffer ----------

  predicate BodyAllowed(status: int) {
    status >= 200 && status != 204 && status != 304
  }

  /** What a handler does to its response. */
  datatype Call = WriteHeader(status: int) | WriteBody(data: Bytes) | Flush

  datatype Held = Held(status: int, body: Bytes, limit: nat, tooLarge: bool, started: bool)

  function StatusOrOK(h: Held): int {
    if h.status == 0 then 200 else h.status
  }

  /** A status net/http would panic on. */
  predicate BadStatus(status: int) {
    status < 100 || status > 999
  }

  function Take(h: Held, c: Call): Held {
    match c
    case WriteHeader(status) =>
      if BadStatus(status) then h
      else h.(started := true, status := if status >= 200 && h.status == 0 then status else h.status)
    case WriteBody(data) =>
      var begun := h.(started := true, status := StatusOrOK(h));
      if h.tooLarge then begun
      else if |h.body| + |data| > h.limit then begun.(tooLarge := true, body := [])
      else begun.(body := h.body + data)
    case Flush => h.(started := true, status := StatusOrOK(h))
  }

  function Sendable(h: Held): Bytes {
    if BodyAllowed(StatusOrOK(h)) then h.body else []
  }

  /** answerBuffer. */
  class AnswerBuffer {
    var status: int
    var body: Bytes
    const limit: nat
    var tooLarge: bool
    var started: bool

    constructor (limit: nat)
      ensures Value() == Held(0, [], limit, false, false)
    {
      this.limit := limit;
      status, body, tooLarge, started := 0, [], false, false;
    }

    function Value(): Held
      reads this
    {
      Held(status, body, limit, tooLarge, started)
    }

    /** False where net/http's own WriteHeader would panic. */
    method SetStatus(code: int) returns (ok: bool)
      modifies this
      ensures Value() == Take(old(Value()), WriteHeader(code)) && ok == (100 <= code <= 999)
      ensures status == if 200 <= code <= 999 && old(status) == 0 then code else old(status)
    {
      if code < 100 || code > 999 {
        return false;
      }
      started := true;
      if code >= 200 && status == 0 {
        status := code;
      }
      return true;
    }

    method Write(data: Bytes) returns (written: nat, ok: bool)
      modifies this
      ensures Value() == Take(old(Value()), WriteBody(data))
      ensures ok <==> !Value().tooLarge
      ensures written == if ok then |data| else 0
    {
      started := true;
      if status == 0 {
        status := 200;
      }
      if tooLarge {
        return 0, false;
      }
      if |body| + |data| > limit {
        tooLarge, body := true, [];
        return 0, false;
      }
      body := body + data;
      return |data|, true;
    }

    method FlushError()
      modifies this
      ensures Value() == Take(old(Value()), Flush)
    {
      started := true;
      if status == 0 {
        status := 200;
      }
    }
  }

  function TakeAll(h: Held, calls: seq<Call>): Held {
    if calls == [] then h else Take(TakeAll(h, calls[..|calls| - 1]), calls[|calls| - 1])
  }

  /** Everything the handler wrote, in order. */
  function Said(calls: seq<Call>): Bytes {
    if calls == [] then []
    else Said(calls[..|calls| - 1]) + match calls[|calls| - 1] case WriteBody(data) => data case _ => []
  }

  /** The buffer holds exactly what was written, in order, or nothing: it is
      full exactly when the handler wrote more than the limit. */
  lemma {:induction false} BufferIsExact(limit: nat, calls: seq<Call>)
    ensures var h := TakeAll(Held(0, [], limit, false, false), calls);
            && (h.tooLarge <==> |Said(calls)| > limit)
            && h.body == (if h.tooLarge then [] else Said(calls))
            && |h.body| <= h.limit == limit
  {
    if calls != [] {
      BufferIsExact(limit, calls[..|calls| - 1]);
    }
  }

  /** The first final status the handler sets is the answer's, and an answer
      begun without one is a 200. */
  lemma {:induction false} StatusIsFirst(limit: nat, calls: seq<Call>)
    ensures var h := TakeAll(Held(0, [], limit, false, false), calls);
            && (h.status == 0 || h.status >= 200)
            && (h.status == 0 <==> forall c | c in calls :: c.WriteHeader? && (c.status < 200 || c.status > 999))
            && (!h.started <==> forall c | c in calls :: c.WriteHeader? && (c.status < 100 || c.status > 999))
  {
    if calls != [] {
      var front, last := calls[..|calls| - 1], calls[|calls| - 1];
      StatusIsFirst(limit, front);
      assert calls == front + [last];
      assert forall c :: c in calls <==> c in front || c == last;
    }
  }

  /** A status, once set, stays. */
  lemma StatusStays(h: Held, c: Call)
    requires h.status != 0
    ensures Take(h, c).status == h.status
  {
  }

  /** Whatever the handler does after it, the status it began with is the
      answer's. */
  lemma {:induction false} FirstStatusHolds(h: Held, calls: seq<Call>, n: nat)
    requires n <= |calls| && TakeAll(h, calls[..n]).status != 0
    ensures TakeAll(h, calls).status == TakeAll(h, calls[..n]).status
  {
    if n == |calls| {
      assert calls[..n] == calls;
    } else {
      var front := calls[..|calls| - 1];
      assert front[..n] == calls[..n];
      FirstStatusHolds(h, front, n);
      StatusStays(TakeAll(h, front), calls[|calls| - 1]);
    }
  }

  /** A call that settles the answer's status: any write or flush, and a
      header that is neither informational nor refused. */
  predicate Settles(c: Call) {
    c.WriteHeader? ==> 200 <= c.status <= 999
  }

  /** The status those calls make: the first settling header's own, 200 when
      a write or a flush comes first, and 200 for an answer never begun. */
  function AnswerStatus(calls: seq<Call>): int {
    if calls == [] then 200
    else if !Settles(calls[0]) then AnswerStatus(calls[1..])
    else if calls[0].WriteHeader? then calls[0].status
    else 200
  }

  lemma {:induction false} StatusAt(limit: nat, calls: seq<Call>, n: nat)
    requires n < |calls| && Settles(calls[n]) && forall i | 0 <= i < n :: !Settles(calls[i])
    ensures TakeAll(Held(0, [], limit, false, false), calls).status
         == match calls[n] case WriteHeader(s) => s case _ => 200
  {
    var front := calls[..n];
    StatusIsFirst(limit, front);
    assert calls[..n + 1][..n] == front;
    FirstStatusHolds(Held(0, [], limit, false, false), calls, n + 1);
  }

  lemma {:induction false} AnswerStatusAt(calls: seq<Call>) returns (n: nat)
    ensures n <= |calls| && forall i | 0 <= i < n :: !Settles(calls[i])
    ensures if n == |calls| then AnswerStatus(calls) == 200
            else Settles(calls[n]) && AnswerStatus(calls) == match calls[n] case WriteHeader(s) => s case _ => 200
  {
    n := 0;
    if calls != [] && !Settles(calls[0]) {
      n := AnswerStatusAt(calls[1..]);
      n := n + 1;
    }
  }

  /** The status of an answer is the first one that can be: whatever calls
      came before it or follow, and 200 for an answer nobody gave one. */
  lemma StatusIsExact(limit: nat, calls: seq<Call>)
    ensures StatusOrOK(TakeAll(Held(0, [], limit, false, false), calls)) == AnswerStatus(calls)
  {
    var n := AnswerStatusAt(calls);
    StatusIsFirst(limit, calls);
    if n < |calls| {
      StatusAt(limit, calls, n);
    } else {
      assert forall c | c in calls :: !Settles(c);
    }
  }

  // ---------- The way out ----------

  /** emitChunk. */
  const CHUNK := 65_536

  /** What commit sends: the status, and the length of a body it allows. */
  datatype Head = Head(status: int, length: Option<nat>)

  /** What happens on the connection, in order. Send holds the bytes that
      went out: all of a chunk, or part of one that failed. */
  datatype Act = Check(round: nat, failed: Option<Error>) | Refuse(error: Error) | Commit(head: Head) | Send(bytes: Bytes) | Abort

  /** The head that goes out, the n-th recheck's surroundings, and how the
      n-th write goes: None when it is written and flushed, else how many bytes
      went before it failed. */
  datatype World = World(head: Head, rounds: nat -> Round, writes: nat -> Option<nat>)

  function Chunk(body: Bytes, offset: nat): (c: Bytes)
    requires offset <= |body|
    ensures |c| <= CHUNK && (offset < |body| ==> |c| > 0)
  {
    body[offset..if offset + CHUNK <= |body| then offset + CHUNK else |body|]
  }

  function Sent(w: World, n: nat, chunk: Bytes): Bytes {
    match w.writes(n)
    case None => chunk
    case Some(k) => if k <= |chunk| then chunk[..k] else chunk
  }

  /** The acts of a round whose recheck passed; the first sends the headers
      too. */
  function Passed(w: World, n: nat, chunk: Bytes): seq<Act> {
    [Check(n, None)] + (if n == 0 then [Commit(w.head)] else []) + [Send(Sent(w, n, chunk))]
  }

  /** The acts of a round whose recheck failed. */
  function Failed(n: nat, error: Error): seq<Act> {
    [Check(n, Some(error)), if n == 0 then Refuse(error) else Abort]
  }

  /** The loop of guarded from its n-th round on. */
  function Rounds(w: World, was: Actor, window: int, body: Bytes, offset: nat, n: nat): seq<Act>
    requires offset <= |body|
    decreases |body| - offset, if n == 0 then 1 else 0
  {
    if n > 0 && offset == |body| then []
    else
      var error := Recheck(was, window, w.rounds(n));
      if error.Some? then Failed(n, error.value)
      else
        var chunk := Chunk(body, offset);
        if w.writes(n).Some? then Passed(w, n, chunk) + [Abort]
        else Passed(w, n, chunk) + Rounds(w, was, window, body, offset + |chunk|, n + 1)
  }

  /** guarded: refused at once on a connection that takes no deadline. */
  function Guarded(w: World, was: Actor, window: int, body: Bytes, takesDeadline: bool): seq<Act> {
    if takesDeadline then Rounds(w, was, window, body, 0, 0) else [Refuse(Unavailable)]
  }

  /** A round's acts, and whether it is the last. */
  function OneRound(w: World, was: Actor, window: int, chunk: Bytes, n: nat): (seq<Act>, bool) {
    var error := Recheck(was, window, w.rounds(n));
    if error.Some? then (Failed(n, error.value), true)
    else if w.writes(n).Some? then (Passed(w, n, chunk) + [Abort], true)
    else (Passed(w, n, chunk), false)
  }

  /** One turn of guarded's loop: recheck, headers once, a chunk. */
  method EmitRound(w: World, was: Actor, window: int, chunk: Bytes, n: nat, first: bool) returns (round: seq<Act>, last: bool)
    requires first <==> n == 0
    ensures (round, last) == OneRound(w, was, window, chunk, n)
  {
    var error := RunRecheck(was, window, w.rounds(n));
    if error.Some? {
      return [Check(n, error), if first then Refuse(error.value) else Abort], true;
    }
    round := [Check(n, error)];
    if first {
      round := round + [Commit(w.head)];
    }
    round := round + [Send(Sent(w, n, chunk))];
    PassedRound(w, n, chunk, round);
    if w.writes(n).Some? {
      return round + [Abort], true;
    }
    last := false;
  }

  /** What is out so far leads to the whole emission. */
  ghost predicate Leads(acts: seq<Act>, w: World, was: Actor, window: int, body: Bytes, offset: nat, n: nat)
    requires offset <= |body|
  {
    acts + Rounds(w, was, window, body, offset, n) == Rounds(w, was, window, body, 0, 0)
  }

  /** guarded as it runs. */
  method EmitGuarded(w: World, was: Actor, window: int, body: Bytes, takesDeadline: bool) returns (acts: seq<Act>)
    ensures acts == Guarded(w, was, window, body, takesDeadline)
  {
    if !takesDeadline {
      return [Refuse(Unavailable)];
    }
    acts := [];
    var offset, first, n := 0, true, 0;
    LeadsFirst(w, was, window, body);
    while first || offset < |body|
      invariant offset <= |body| && (first <==> n == 0)
      invariant Leads(acts, w, was, window, body, offset, n)
      decreases |body| - offset, first
    {
      var chunk := Chunk(body, offset);
      var round, last := EmitRound(w, was, window, chunk, n, first);
      LeadsOn(w, was, window, body, offset, n, acts);
      acts := acts + round;
      if last {
        return;
      }
      offset, first, n := offset + |chunk|, false, n + 1;
    }
    LeadsLast(w, was, window, body, n, acts);
  }

  lemma LeadsFirst(w: World, was: Actor, window: int, body: Bytes)
    ensures Leads([], w, was, window, body, 0, 0)
  {
  }

  lemma LeadsLast(w: World, was: Actor, window: int, body: Bytes, n: nat, acts: seq<Act>)
    requires n > 0 && Leads(acts, w, was, window, body, |body|, n)
    ensures acts == Rounds(w, was, window, body, 0, 0)
  {
    assert acts + [] == acts;
  }

  lemma LeadsOn(w: World, was: Actor, window: int, body: Bytes, offset: nat, n: nat, acts: seq<Act>)
    requires offset <= |body| && (n == 0 || offset < |body|) && Leads(acts, w, was, window, body, offset, n)
    ensures var chunk := Chunk(body, offset); var (round, last) := OneRound(w, was, window, chunk, n);
            if last then acts + round == Rounds(w, was, window, body, 0, 0)
            else Leads(acts + round, w, was, window, body, offset + |chunk|, n + 1)
  {
    RoundsAfter(w, was, window, body, offset, n, acts);
  }

  lemma RoundsAfter(w: World, was: Actor, window: int, body: Bytes, offset: nat, n: nat, acts: seq<Act>)
    requires offset <= |body| && (n == 0 || offset < |body|)
    ensures var chunk := Chunk(body, offset); var (round, last) := OneRound(w, was, window, chunk, n);
            acts + Rounds(w, was, window, body, offset, n)
            == (acts + round) + if last then [] else Rounds(w, was, window, body, offset + |chunk|, n + 1)
    ensures var (round, last) := OneRound(w, was, window, Chunk(body, offset), n);
            last ==> acts + Rounds(w, was, window, body, offset, n) == acts + round
  {
    var chunk := Chunk(body, offset);
    var (round, last) := OneRound(w, was, window, chunk, n);
    if last {
      assert (acts + round) + [] == acts + round;
    } else {
      AssociateActs(acts, round, Rounds(w, was, window, body, offset + |chunk|, n + 1));
    }
  }

  lemma PassedRound(w: World, n: nat, chunk: Bytes, round: seq<Act>)
    requires round == if n == 0 then ([Check(n, None)] + [Commit(w.head)]) + [Send(Sent(w, n, chunk))]
                      else [Check(n, None)] + [Send(Sent(w, n, chunk))]
    ensures round == Passed(w, n, chunk)
  {
  }

  lemma AssociateActs(a: seq<Act>, b: seq<Act>, c: seq<Act>)
    ensures (a + b) + c == a + (b + c)
  {
  }
}
