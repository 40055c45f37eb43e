/**
 The message pump of the app-server client: calls that set aside what is not their response, and turns
 that are put together from notifications.
 */
module CodexRpc {
  import opened Common

  /** A JSON property: absent, a string, or something else. */
  datatype Field = Missing | Str(text: string) | Other

  /**
   A line from the server.  A blank is a JSON value such as null, which the pump drops; everything else is a
   message with the properties that are read here.
   */
  datatype Message =
    | Blank
    | Message(id: Option<int>, error: Option<Field>, resultTurn: Field, rpcMethod: string,
              threadId: Field, turnId: Field, delta: Field, itemType: Field, itemText: Field, turn: Field,
              errorMessage: Field)

  /** What a call or a turn ends with; lost, if the stream ends or the wait is given up before that. */
  datatype Outcome<T> = Returned(value: T) | Thrown(message: string) | Lost

  // ----- Streams -----------------------------------------------------------------------------------------------

  function Visible(messages: seq<Message>): seq<Message> {
    if messages == [] then []
    else if messages[0].Blank? then Visible(messages[1..])
    else [messages[0]] + Visible(messages[1..])
  }

  lemma {:induction false} VisibleConcat(a: seq<Message>, b: seq<Message>)
    ensures Visible(a + b) == Visible(a) + Visible(b)
  {
    if a == [] {
      assert a + b == b;
    } else {
      assert (a + b)[0] == a[0] && (a + b)[1..] == a[1..] + b;
      VisibleConcat(a[1..], b);
    }
  }

  lemma {:induction false} VisibleAgain(messages: seq<Message>)
    requires forall m :: m in messages ==> m.Message?
    ensures Visible(messages) == messages
  {
    if messages != [] {
      assert messages[0] in messages;
      VisibleAgain(messages[1..]);
      assert messages == [messages[0]] + messages[1..];
    }
  }

  lemma {:induction false} VisibleHasNoBlanks(messages: seq<Message>)
    ensures forall m :: m in Visible(messages) ==> m.Message?
  {
    if messages != [] {
      VisibleHasNoBlanks(messages[1..]);
    }
  }

  /** Where the first message with this id is. */
  function ResponseAt(stream: seq<Message>, id: int): (r: Option<nat>)
    ensures r.Some? ==> r.value < |stream| && stream[r.value].Message? && stream[r.value].id == Some(id)
    ensures var k := if r.Some? then r.value else |stream|;
            forall i :: 0 <= i < k ==> stream[i].Message? ==> stream[i].id != Some(id)
  {
    if stream == [] then None
    else if stream[0].Message? && stream[0].id == Some(id) then Some(0)
    else
      assert forall i :: 0 < i < |stream| ==> stream[i] == stream[1..][i - 1];
      match ResponseAt(stream[1..], id)
      case None => None
      case Some(k) => Some(k + 1)
  }

  function Without(stream: seq<Message>, k: nat): seq<Message>
    requires k < |stream|
  {
    stream[..k] + stream[k + 1..]
  }

  // ----- Turns -------------------------------------------------------------------------------------------------

  datatype Collector = Collector(threadId: string, turnId: string, completedText: string, delta: string)

  datatype Handled = GoOn(collector: Collector, emitted: seq<string>) | Completed | Failed(message: string)

  function TextOf(f: Field): string {
    if f.Str? then f.text else ""
  }

  function HandleTurnMessage(c: Collector, m: Message): Handled
    requires m.Message?
  {
    if m.rpcMethod == "item/agentMessage/delta" then
      if TextOf(m.threadId) == c.threadId && TextOf(m.turnId) == c.turnId && TextOf(m.delta) != ""
      then GoOn(c.(delta := c.delta + m.delta.text), [m.delta.text]) else GoOn(c, [])
    else if m.rpcMethod == "item/completed" then
      if m.threadId == Str(c.threadId) && m.turnId == Str(c.turnId) && m.itemType == Str("agentMessage")
          && m.itemText.Str?
      then GoOn(c.(completedText := m.itemText.text), []) else GoOn(c, [])
    else if m.rpcMethod == "turn/completed" then
      if m.threadId == Str(c.threadId) && m.turn == Str(c.turnId) then Completed else GoOn(c, [])
    else if m.rpcMethod == "error" then
      if m.threadId == Str(c.threadId) && (m.turnId == Missing || m.turnId == Str("") || m.turnId == Str(c.turnId))
      then Failed(if m.errorMessage.Str? then m.errorMessage.text else "Codex turn failed.") else GoOn(c, [])
    else GoOn(c, [])
  }

  /** What a turn makes of a stream, if the stream has its end: result, emitted deltas, and the rest of the stream. */
  datatype TurnResult = TurnResult(outcome: Outcome<string>, emitted: seq<string>, rest: seq<Message>)

  function Ended(c: Collector, trim: string -> string): Outcome<string> {
    var text := trim(if c.completedText != "" then c.completedText else c.delta);
    if text == "" then Thrown("Codex completed without a visible response.") else Returned(text)
  }

  function Turn(c: Collector, stream: seq<Message>, trim: string -> string): Option<TurnResult>
    decreases |stream|
  {
    if stream == [] then None
    else if stream[0].Blank? then Turn(c, stream[1..], trim)
    else
      match HandleTurnMessage(c, stream[0])
      case Completed => Some(TurnResult(Ended(c, trim), [], stream[1..]))
      case Failed(message) => Some(TurnResult(Thrown(message), [], stream[1..]))
      case GoOn(c', emitted) =>
        match Turn(c', stream[1..], trim)
        case None => None
        case Some(r) => Some(r.(emitted := emitted + r.emitted))
  }

  // ----- The client --------------------------------------------------------------------------------------------

  class AppServerClient {
    var backlog: seq<Message>
    var messages: seq<Message>
    var nextId: int
    /** What the server will still send. */
    var incoming: seq<Message>

    constructor (incoming: seq<Message>)
      ensures backlog == [] && messages == [] && nextId == 1 && this.incoming == incoming
    {
      backlog, messages, nextId, this.incoming := [], [], 1, incoming;
    }

    /** The messages to come, in order, arrived or not. */
    function Stream(): seq<Message>
      reads this
    {
      Visible(backlog) + Visible(messages + incoming)
    }

    predicate NoBlanks()
      reads this
    {
      forall m :: m in backlog ==> m.Message?
    }

    /** Lines come in while someone waits: any number of them, at least one if there are any. */
    method Arrive()
      requires incoming != []
      modifies this`messages, this`incoming
      ensures messages + incoming == old(messages + incoming) && |incoming| < |old(incoming)|
    {
      var n :| 1 <= n <= |incoming|;
      var all := messages + incoming;
      messages, incoming := messages + incoming[..n], incoming[n..];
      assert messages + incoming == all;
    }

    /** The next message; None if the stream ends or the wait is given up first. */
    method NextMessage() returns (r: Option<Message>)
      requires NoBlanks()
      modifies this`backlog, this`messages, this`incoming
      ensures NoBlanks()
      ensures r.Some? ==> r.value.Message? && [r.value] + Stream() == old(Stream())
      ensures r.None? ==> Stream() == old(Stream()) && backlog == []
      ensures |backlog| <= |old(backlog)|
      ensures r.Some? ==> |backlog| + |messages| + |incoming| < old(|backlog| + |messages| + |incoming|)
    {
      while true
        invariant NoBlanks() && Stream() == old(Stream()) && |backlog| <= |old(backlog)|
        invariant |backlog| + |messages| + |incoming| <= old(|backlog| + |messages| + |incoming|)
        decreases |messages| + |incoming|, |incoming|
      {
        if backlog != [] {
          r := Some(backlog[0]);
          assert backlog == [backlog[0]] + backlog[1..];
          ghost var tail := Visible(messages + incoming);
          assert backlog[0] in backlog;
          assert Visible(backlog) == [backlog[0]] + Visible(backlog[1..]);
          assert [backlog[0]] + Visible(backlog[1..]) + tail == [backlog[0]] + (Visible(backlog[1..]) + tail);
          backlog := backlog[1..];
          return;
        }
        if messages != [] {
          var first := messages[0];
          assert (messages + incoming)[0] == first && (messages + incoming)[1..] == messages[1..] + incoming;
          messages := messages[1..];
          if first.Message? {
            return Some(first);
          }
        } else {
          var giveUp: bool := *;
          if giveUp || incoming == [] {
            return None;
          }
          Arrive();
        }
      }
    }

    /**
     Sends a request and waits for its response.  However it ends, everything else that came in or still comes
     is there afterwards, in order: the stream less exactly the response, or the whole stream.
     */
    method Call(rpcMethod: string) returns (r: Outcome<Field>)
      requires NoBlanks()
      modifies this
      ensures NoBlanks() && nextId == old(nextId) + 1
      ensures r.Lost? ==> Stream() == old(Stream())
      ensures !r.Lost? ==> var k := ResponseAt(old(Stream()), old(nextId));
              k.Some? && Stream() == Without(old(Stream()), k.value)
                  && Responds(old(Stream())[k.value], rpcMethod, r)
    {
      var id := nextId;
      nextId := nextId + 1;
      var deferred: seq<Message> := [];
      ghost var stream := Stream();
      while true
        invariant NoBlanks() && (forall m :: m in deferred ==> m.Message? && m.id != Some(id))
        invariant deferred + Stream() == stream
        invariant nextId == id + 1
        decreases |backlog| + |messages| + |incoming|
      {
        ghost var before := Stream();
        var message := NextMessage();
        if message.None? {
          Unshift(deferred);
          return Lost;
        }
        if message.value.id != Some(id) {
          assert deferred + [message.value] + Stream() == stream;
          deferred := deferred + [message.value];
          continue;
        }
        assert stream == deferred + ([message.value] + Stream());
        FirstResponse(deferred, message.value, Stream(), id);
        RespondsExactly(message.value, rpcMethod, ResponseOf(message.value, rpcMethod));
        Unshift(deferred);
        return ResponseOf(message.value, rpcMethod);
      }
    }

    method Unshift(deferred: seq<Message>)
      requires NoBlanks() && forall m :: m in deferred ==> m.Message?
      modifies this`backlog
      ensures NoBlanks() && Stream() == deferred + old(Stream())
    {
      VisibleConcat(deferred, backlog);
      VisibleAgain(deferred);
      assert deferred + Visible(backlog) + Visible(messages + incoming)
          == deferred + (Visible(backlog) + Visible(messages + incoming));
      backlog := deferred + backlog;
    }

    /**
     Runs a turn.  Its text, its deltas and its errors are those of the notifications in the stream less the
     response: where among them the response came makes no difference.  If it is lost, the deltas that were
     emitted are those of the notifications that are gone from the stream, and none of these ends the turn.
     */
    method RunTurn(threadId: string, trim: string -> string) returns (r: Outcome<string>, emitted: seq<string>)
      requires NoBlanks()
      modifies this
      ensures NoBlanks() && nextId == old(nextId) + 1
      ensures !r.Lost? ==> TurnOf(old(Stream()), old(nextId), threadId, trim) == Some(TurnResult(r, emitted, Stream()))
      ensures !r.Lost? ==> Ran(old(Stream()), old(nextId), threadId, trim, TurnResult(r, emitted, Stream()))
      ensures r.Lost? ==> LostIn(old(Stream()), old(nextId), threadId, emitted, Stream())
    {
      emitted := [];
      ghost var stream, id := Stream(), nextId;
      VisibleHasNoBlanks(backlog);
      VisibleHasNoBlanks(messages + incoming);
      var response := Call("turn/start");
      ghost var rest := Stream();
      if response.Lost? {
        return Lost, [];
      }
      RespondsExactly(stream[ResponseAt(stream, id).value], "turn/start", response);
      var turnId := if response.Returned? then TextOf(response.value) else "";
      if response.Thrown? {
        r := Thrown(response.message);
      } else if turnId == "" {
        r := Thrown("Codex app-server did not return a turn id.");
      } else {
        r, emitted := CollectTurn(Collector(threadId, turnId, "", ""), trim);
        if r.Lost? {
          assert LostAfter(stream, id, threadId, turnId, emitted, Stream());
          return;
        }
      }
      TurnRan(stream, id, threadId, trim, TurnResult(r, emitted, Stream()));
    }

    method CollectTurn(start: Collector, trim: string -> string) returns (r: Outcome<string>, emitted: seq<string>)
      requires NoBlanks()
      modifies this`backlog, this`messages, this`incoming
      ensures NoBlanks()
      ensures !r.Lost? ==> Turn(start, old(Stream()), trim) == Some(TurnResult(r, emitted, Stream()))
      ensures r.Lost? ==> StoppedIn(start, old(Stream()), emitted, Stream())
    {
      hide HandleTurnMessage, Handles, StoppedIn, Visible, Turn;
      var collector := start;
      emitted := [];
      HandlesNothing(start);
      ghost var turn := Turn(start, Stream(), trim);
      ghost var gone: seq<Message> := [];
      PrependNothing(turn);
      while true
        invariant NoBlanks() && turn == Prepend(emitted, Turn(collector, Stream(), trim))
        invariant Handles(start, collector, gone, emitted) && gone + Stream() == old(Stream())
        decreases |backlog| + |messages| + |incoming|
      {
        ghost var before := Stream();
        var message := NextMessage();
        if message.None? {
          Stops(start, collector, gone, old(Stream()), emitted, Stream());
          return Lost, emitted;
        }
        TurnUnfolds(collector, message.value, Stream(), before, trim);
        var handled := HandleTurnMessage(collector, message.value);
        assert emitted + [] == emitted;
        match handled {
          case Failed(text) => return Thrown(text), emitted;
          case Completed => return Ended(collector, trim), emitted;
          case GoOn(next, deltas) =>
            PrependTwice(emitted, deltas, Turn(next, Stream(), trim));
            HandlesOneMore(start, collector, gone, emitted, message.value);
            assert gone + before == gone + [message.value] + Stream();
            gone := gone + [message.value];
            collector, emitted := next, emitted + deltas;
        }
      }
    }
  }

  /** After these messages, none of which ends the turn, the collector is `d` and their deltas have been emitted. */
  ghost predicate Handles(c: Collector, d: Collector, handled: seq<Message>, emitted: seq<string>) {
    && d.threadId == c.threadId && d.turnId == c.turnId
    && (forall m :: m in handled ==> m.Message? && !Ends(c, m)) && emitted == DeltasOf(c, handled)
  }

  lemma TurnUnfolds(c: Collector, m: Message, rest: seq<Message>, stream: seq<Message>, trim: string -> string)
    requires m.Message? && stream == [m] + rest
    ensures var h := HandleTurnMessage(c, m);
      && (h.Completed? ==> Turn(c, stream, trim) == Some(TurnResult(Ended(c, trim), [], rest)))
      && (h.Failed? ==> Turn(c, stream, trim) == Some(TurnResult(Thrown(h.message), [], rest)))
      && (h.GoOn? ==> Turn(c, stream, trim) == Prepend(h.emitted, Turn(h.collector, rest, trim)))
  {
    assert stream[0] == m && stream[1..] == rest;
  }

  lemma HandlesNothing(c: Collector)
    ensures Handles(c, c, [], [])
  {
  }

  lemma Stops(c: Collector, d: Collector, handled: seq<Message>, stream: seq<Message>, emitted: seq<string>,
              rest: seq<Message>)
    requires Handles(c, d, handled, emitted) && handled + rest == stream
    ensures StoppedIn(c, stream, emitted, rest)
  {
    assert Handles(c, c, handled, emitted);
  }

  lemma HandlesOneMore(c: Collector, d: Collector, handled: seq<Message>, emitted: seq<string>, m: Message)
    requires Handles(c, d, handled, emitted) && m.Message? && HandleTurnMessage(d, m).GoOn?
    ensures var h := HandleTurnMessage(d, m); Handles(c, h.collector, handled + [m], emitted + h.emitted)
  {
    HandledExactly(d, m);
    SamePlace(d, m);
    DeltasOfOneMore(c, handled, m);
  }

  lemma {:induction false} DeltasOfOneMore(c: Collector, a: seq<Message>, m: Message)
    ensures DeltasOf(c, a + [m]) == DeltasOf(c, a) + DeltaOf(c, m)
  {
    if a == [] {
      assert [] + [m] == [m];
    } else {
      assert (a + [m])[0] == a[0] && (a + [m])[1..] == a[1..] + [m];
      DeltasOfOneMore(c, a[1..], m);
    }
  }

  /** A turn that stopped somewhere in the stream: the messages before `rest` do not end it, and gave the deltas. */
  ghost predicate StoppedIn(c: Collector, stream: seq<Message>, emitted: seq<string>, rest: seq<Message>) {
    exists handled :: handled + rest == stream && Handles(c, c, handled, emitted)
  }

  /** A turn that was lost: before its response, or in the stream less the response. */
  ghost predicate LostIn(stream: seq<Message>, id: int, threadId: string, emitted: seq<string>, rest: seq<Message>) {
    || (emitted == [] && rest == stream)
    || exists turnId :: turnId != "" && LostAfter(stream, id, threadId, turnId, emitted, rest)
  }

  ghost predicate LostAfter(stream: seq<Message>, id: int, threadId: string, turnId: string, emitted: seq<string>,
                            rest: seq<Message>) {
    var k := ResponseAt(stream, id);
    && k.Some? && stream[k.value].error == None && stream[k.value].resultTurn == Str(turnId)
    && StoppedIn(Collector(threadId, turnId, "", ""), Without(stream, k.value), emitted, rest)
  }

  lemma PrependNothing(r: Option<TurnResult>)
    ensures Prepend([], r) == r
  {
    if r.Some? {
      assert [] + r.value.emitted == r.value.emitted;
    }
  }

  function Prepend(emitted: seq<string>, r: Option<TurnResult>): Option<TurnResult> {
    match r
    case None => None
    case Some(t) => Some(t.(emitted := emitted + t.emitted))
  }

  lemma PrependTwice(a: seq<string>, b: seq<string>, r: Option<TurnResult>)
    ensures Prepend(a, Prepend(b, r)) == Prepend(a + b, r)
  {
    if r.Some? {
      assert a + (b + r.value.emitted) == a + b + r.value.emitted;
    }
  }

  /** The turn that a stream holds, if it holds the response to its request and the end of the turn. */
  function TurnOf(stream: seq<Message>, id: int, threadId: string, trim: string -> string): Option<TurnResult> {
    match ResponseAt(stream, id)
    case None => None
    case Some(k) =>
      var rest := Without(stream, k);
      match ResponseOf(stream[k], "turn/start")
      case Thrown(message) => Some(TurnResult(Thrown(message), [], rest))
      case Lost => None
      case Returned(turn) =>
        if TextOf(turn) == "" then Some(TurnResult(Thrown("Codex app-server did not return a turn id."), [], rest))
        else Turn(Collector(threadId, TextOf(turn), "", ""), rest, trim)
  }

  function ResponseOf(m: Message, rpcMethod: string): Outcome<Field>
    requires m.Message?
  {
    match m.error
    case Some(message) => Thrown(if message.Str? then message.text else rpcMethod + " failed.")
    case None => Returned(m.resultTurn)
  }

  /** An error is thrown with its text, if it has one; anything else returns what came as the result. */
  ghost predicate Responds(m: Message, rpcMethod: string, r: Outcome<Field>)
    requires m.Message?
  {
    && (m.error == None ==> r == Returned(m.resultTurn))
    && (m.error.Some? ==>
          && (m.error.value.Str? ==> r == Thrown(m.error.value.text))
          && (!m.error.value.Str? ==> r == Thrown(rpcMethod + " failed.")))
  }

  lemma RespondsExactly(m: Message, rpcMethod: string, r: Outcome<Field>)
    requires m.Message?
    ensures Responds(m, rpcMethod, r) <==> r == ResponseOf(m, rpcMethod)
  {
  }

  lemma FirstResponse(before: seq<Message>, m: Message, after: seq<Message>, id: int)
    requires m.Message? && m.id == Some(id) && forall x :: x in before ==> x.Message? && x.id != Some(id)
    ensures var stream := before + ([m] + after);
            ResponseAt(stream, id) == Some(|before|) && stream[|before|] == m
                && Without(stream, |before|) == before + after
  {
    var stream := before + ([m] + after);
    assert stream[|before|] == m && forall i :: 0 <= i < |before| ==> stream[i] == before[i] && stream[i] in before;
    assert stream[..|before|] == before && stream[|before| + 1..] == after;
  }

  /** A turn does not depend on where its response falls among the notifications. */
  lemma ResponsePlaceDoesNotMatter(response: Message, a: seq<Message>, b: seq<Message>, c: seq<Message>,
                                   d: seq<Message>,
                                   id: int, threadId: string, trim: string -> string)
    requires response.Message? && response.id == Some(id) && a + b == c + d
    requires forall m :: m in a + b ==> m.Message? && m.id != Some(id)
    ensures TurnOf(a + ([response] + b), id, threadId, trim) == TurnOf(c + ([response] + d), id, threadId, trim)
  {
    assert forall m :: m in a ==> m in a + b;
    assert forall m :: m in c ==> m in c + d;
    FirstResponse(a, response, b, id);
    FirstResponse(c, response, d, id);
  }

  // ----- What a turn means --------------------------------------------------------------------------------------

  // From the properties of the messages alone.

  /** What a property that should be a text reads as: anything else counts as empty. */
  ghost predicate ReadsAs(f: Field, text: string) {
    f == Str(text) || (text == "" && !f.Str?)
  }

  /** The message that completes a turn names its thread and the turn itself. */
  ghost predicate Completes(c: Collector, m: Message) {
    m.Message? && m.rpcMethod == "turn/completed" && m.threadId == Str(c.threadId) && m.turn == Str(c.turnId)
  }

  /** An error of the thread fails the turn, unless it names another turn. */
  ghost predicate Fails(c: Collector, m: Message) {
    && m.Message? && m.rpcMethod == "error" && m.threadId == Str(c.threadId)
    && m.turnId in {Missing, Str(""), Str(c.turnId)}
  }

  ghost predicate FailsWith(m: Message, text: string)
    requires m.Message?
  {
    m.errorMessage == Str(text) || (!m.errorMessage.Str? && text == "Codex turn failed.")
  }

  ghost predicate Ends(c: Collector, m: Message) {
    Completes(c, m) || Fails(c, m)
  }

  /** A delta of this thread and turn. */
  ghost predicate IsDelta(c: Collector, m: Message) {
    && m.Message? && m.rpcMethod == "item/agentMessage/delta" && ReadsAs(m.threadId, c.threadId)
    && ReadsAs(m.turnId, c.turnId) && m.delta.Str? && m.delta.text != ""
  }

  ghost function DeltaOf(c: Collector, m: Message): seq<string> {
    if IsDelta(c, m) then [m.delta.text] else []
  }

  ghost function DeltasOf(c: Collector, stream: seq<Message>): seq<string> {
    if stream == [] then [] else DeltaOf(c, stream[0]) + DeltasOf(c, stream[1..])
  }

  ghost function Concatenation(texts: seq<string>): string {
    if texts == [] then "" else texts[0] + Concatenation(texts[1..])
  }

  ghost predicate IsAnswer(c: Collector, m: Message) {
    m.Message? && m.rpcMethod == "item/completed" && m.threadId == Str(c.threadId) && m.turnId == Str(c.turnId)
    && m.itemType == Str("agentMessage") && m.itemText.Str?
  }

  /** The text of the last completed answer. */
  ghost function LastAnswer(c: Collector, stream: seq<Message>): Option<string> {
    if stream == [] then None
    else if IsAnswer(c, stream[|stream| - 1]) then Some(stream[|stream| - 1].itemText.text)
    else LastAnswer(c, stream[..|stream| - 1])
  }

  lemma {:induction false} LastAnswerConcat(c: Collector, a: seq<Message>, b: seq<Message>)
    ensures LastAnswer(c, a + b) == if LastAnswer(c, b).Some? then LastAnswer(c, b) else LastAnswer(c, a)
    decreases |b|
  {
    if b == [] {
      assert a + b == a;
    } else {
      assert (a + b)[..|a + b| - 1] == a + b[..|b| - 1] && (a + b)[|a + b| - 1] == b[|b| - 1];
      LastAnswerConcat(c, a, b[..|b| - 1]);
    }
  }

  /** What a completed turn returns: the last completed answer or, if that is empty, all deltas, without blank ends. */
  ghost function TextReturned(c: Collector, before: seq<Message>, trim: string -> string): string {
    var answer, deltas := LastAnswer(c, before), c.delta + Concatenation(DeltasOf(c, before));
    var answered := if answer.Some? then answer.value else c.completedText;
    trim(if answered == "" then deltas else answered)
  }

  /** What the messages before the one that ends the turn, and that one, say about it. */
  ghost predicate Means(c: Collector, before: seq<Message>, last: Message, trim: string -> string, t: TurnResult)
    requires last.Message?
  {
    && t.emitted == DeltasOf(c, before)
    && (Fails(c, last) ==> t.outcome.Thrown? && FailsWith(last, t.outcome.message))
    && (Completes(c, last) ==>
          var text := TextReturned(c, before, trim);
          && (text == "" ==> t.outcome == Thrown("Codex completed without a visible response."))
          && (text != "" ==> t.outcome == Returned(text)))
  }

  lemma HandledExactly(c: Collector, m: Message)
    requires m.Message?
    ensures var h := HandleTurnMessage(c, m);
      && (h.Completed? <==> Completes(c, m))
      && (h.Failed? <==> Fails(c, m)) && (h.Failed? ==> FailsWith(m, h.message))
      && (h.GoOn? ==> h.emitted == DeltaOf(c, m))
  {
  }

  /**
   The messages up to the first that ends the turn decide: they give the deltas, and the text is the last
   completed answer, or without one the deltas together.
   */
  lemma {:induction false} TurnMeans(c: Collector, before: seq<Message>, last: Message, after: seq<Message>,
                                     trim: string -> string)
    requires (forall m :: m in before ==> m.Message? && !Ends(c, m)) && Ends(c, last)
    ensures var t := Turn(c, before + ([last] + after), trim);
            t.Some? && t.value.rest == after && Means(c, before, last, trim, t.value)
    decreases |before|
  {
    hide Means, Turn, DeltasOf, LastAnswer, HandleTurnMessage;
    if before == [] {
      TurnEnds(c, last, after, trim);
      assert before + ([last] + after) == [last] + after;
    } else {
      var m, rest := before[0], before[1..];
      assert m in before && before == [m] + rest;
      HandledExactly(c, m);
      var next := HandleTurnMessage(c, m).collector;
      SamePlace(c, m);
      TurnMeans(next, rest, last, after, trim);
      MeaningStep(c, m, rest, last, trim, Turn(next, rest + ([last] + after), trim).value);
      TurnGoesOn(c, m, rest + ([last] + after), trim);
      assert before + ([last] + after) == [m] + (rest + ([last] + after));
    }
  }

  lemma TurnEnds(c: Collector, last: Message, after: seq<Message>, trim: string -> string)
    requires Ends(c, last)
    ensures var t := Turn(c, [last] + after, trim);
            t.Some? && t.value.rest == after && Means(c, [], last, trim, t.value)
  {
    var stream := [last] + after;
    HandledExactly(c, last);
    assert stream[0] == last && stream[1..] == after;
    assert c.delta + "" == c.delta;
  }

  lemma SamePlace(c: Collector, m: Message)
    requires m.Message? && HandleTurnMessage(c, m).GoOn?
    ensures var d := HandleTurnMessage(c, m).collector; d.threadId == c.threadId && d.turnId == c.turnId
  {
  }

  lemma TurnGoesOn(c: Collector, m: Message, stream: seq<Message>, trim: string -> string)
    requires m.Message? && HandleTurnMessage(c, m).GoOn?
    ensures var h := HandleTurnMessage(c, m);
            Turn(c, [m] + stream, trim) == Prepend(h.emitted, Turn(h.collector, stream, trim))
  {
    var all := [m] + stream;
    assert all[0] == m && all[1..] == stream;
  }

  /** What one message does to the text is done by what it leaves in the collector. */
  lemma TextStep(c: Collector, m: Message, rest: seq<Message>, trim: string -> string)
    requires m.Message? && HandleTurnMessage(c, m).GoOn?
    ensures TextReturned(c, [m] + rest, trim) == TextReturned(HandleTurnMessage(c, m).collector, rest, trim)
    ensures DeltasOf(c, [m] + rest) == DeltaOf(c, m) + DeltasOf(HandleTurnMessage(c, m).collector, rest)
  {
    hide HandleTurnMessage, IsDelta, IsAnswer, LastAnswer;
    var next := HandleTurnMessage(c, m).collector;
    SamePlace(c, m);
    SameDeltas(c, next, rest);
    SameAnswers(c, next, rest);
    Continues(c, m, DeltasOf(c, rest));
    LastAnswerConcat(c, [m], rest);
    AnswerOfOne(c, m);
    assert ([m] + rest)[0] == m && ([m] + rest)[1..] == rest;
  }

  lemma MeaningStep(c: Collector, m: Message, rest: seq<Message>, last: Message, trim: string -> string,
                    later: TurnResult)
    requires m.Message? && HandleTurnMessage(c, m).GoOn? && Ends(c, last)
    requires Means(HandleTurnMessage(c, m).collector, rest, last, trim, later)
    ensures Means(c, [m] + rest, last, trim, later.(emitted := HandleTurnMessage(c, m).emitted + later.emitted))
  {
    hide HandleTurnMessage, Completes, Fails, FailsWith, TextReturned, DeltasOf, DeltaOf;
    SamePlace(c, m);
    SameEnds(c, HandleTurnMessage(c, m).collector, last);
    HandledExactly(c, m);
    TextStep(c, m, rest, trim);
  }

  lemma AnswerOfOne(c: Collector, m: Message)
    ensures LastAnswer(c, [m]) == if IsAnswer(c, m) then Some(m.itemText.text) else None
  {
    assert [m][..0] == [] && [m][0] == m;
  }

  lemma SameEnds(c: Collector, d: Collector, m: Message)
    requires c.threadId == d.threadId && c.turnId == d.turnId
    ensures (Completes(c, m) <==> Completes(d, m)) && (Fails(c, m) <==> Fails(d, m))
  {
  }

  lemma {:induction false} SameDeltas(c: Collector, d: Collector, stream: seq<Message>)
    requires c.threadId == d.threadId && c.turnId == d.turnId
    ensures DeltasOf(c, stream) == DeltasOf(d, stream)
  {
    if stream != [] {
      SameDeltas(c, d, stream[1..]);
    }
  }

  lemma {:induction false} SameAnswers(c: Collector, d: Collector, stream: seq<Message>)
    requires c.threadId == d.threadId && c.turnId == d.turnId
    ensures LastAnswer(c, stream) == LastAnswer(d, stream)
    decreases |stream|
  {
    if stream != [] {
      SameAnswers(c, d, stream[..|stream| - 1]);
    }
  }

  lemma Continues(c: Collector, m: Message, rest: seq<string>)
    requires m.Message? && HandleTurnMessage(c, m).GoOn?
    ensures var h := HandleTurnMessage(c, m);
            && h.emitted == DeltaOf(c, m)
            && h.collector.delta + Concatenation(rest) == c.delta + Concatenation(DeltaOf(c, m) + rest)
            && h.collector.completedText == if IsAnswer(c, m) then m.itemText.text else c.completedText
  {
    if DeltaOf(c, m) != [] {
      var all := DeltaOf(c, m) + rest;
      assert all[0] == m.delta.text && all[1..] == rest;
      assert c.delta + m.delta.text + Concatenation(rest) == c.delta + (m.delta.text + Concatenation(rest));
    } else {
      assert DeltaOf(c, m) + rest == rest;
    }
  }

  // ----- A whole turn -------------------------------------------------------------------------------------------

  /**
   A turn that has ended: its response was an error or named no turn, or the stream less the response holds a
   message that ends the turn, and those before it mean what has come out.
   */
  ghost predicate Ran(stream: seq<Message>, id: int, threadId: string, trim: string -> string, t: TurnResult) {
    ResponseAt(stream, id).Some? &&
    var m, rest := stream[ResponseAt(stream, id).value], Without(stream, ResponseAt(stream, id).value);
    && (m.error == None && m.resultTurn.Str? && m.resultTurn.text != "" ==>
          RanOn(Collector(threadId, m.resultTurn.text, "", ""), rest, trim, t))
    && (m.error.Some? || ReadsAs(m.resultTurn, "") ==> t.emitted == [] && t.rest == rest && t.outcome.Thrown?)
    && (m.error.Some? ==> t.outcome.message == if m.error.value.Str? then m.error.value.text else "turn/start failed.")
    && (m.error == None && ReadsAs(m.resultTurn, "") ==>
          t.outcome.message == "Codex app-server did not return a turn id.")
  }

  ghost predicate RanOn(c: Collector, stream: seq<Message>, trim: string -> string, t: TurnResult) {
    exists before, last :: RanUpTo(c, stream, before, last, trim, t)
  }

  ghost predicate RanUpTo(c: Collector, stream: seq<Message>, before: seq<Message>, last: Message,
                          trim: string -> string, t: TurnResult) {
    && stream == before + ([last] + t.rest) && (forall m :: m in before ==> m.Message? && !Ends(c, m))
    && Ends(c, last) && Means(c, before, last, trim, t)
  }

  /** A turn that has ended has a first message that ends it. */
  lemma {:induction false} TurnHasEnd(c: Collector, stream: seq<Message>, trim: string -> string)
    returns (before: seq<Message>, last: Message, after: seq<Message>)
    requires Turn(c, stream, trim).Some? && forall m :: m in stream ==> m.Message?
    ensures stream == before + ([last] + after) && Ends(c, last)
    ensures forall m :: m in before ==> m.Message? && !Ends(c, m)
    decreases |stream|
  {
    hide HandleTurnMessage, Completes, Fails;
    var m := stream[0];
    HandledExactly(c, m);
    assert stream == [m] + stream[1..];
    if Ends(c, m) {
      before, last, after := [], m, stream[1..];
    } else {
      var d := HandleTurnMessage(c, m).collector;
      SamePlace(c, m);
      before, last, after := TurnHasEnd(d, stream[1..], trim);
      forall x ensures Ends(c, x) <==> Ends(d, x) {
        SameEnds(c, d, x);
      }
      before := [m] + before;
    }
  }

  /** The turn that a stream holds, from the properties of its messages. */
  lemma TurnRan(stream: seq<Message>, id: int, threadId: string, trim: string -> string, t: TurnResult)
    requires forall m :: m in stream ==> m.Message?
    requires TurnOf(stream, id, threadId, trim) == Some(t)
    ensures Ran(stream, id, threadId, trim, t)
  {
    hide Turn, Means, Ends;
    var k := ResponseAt(stream, id).value;
    var m, rest := stream[k], Without(stream, k);
    if m.error == None && m.resultTurn.Str? && m.resultTurn.text != "" {
      var c := Collector(threadId, m.resultTurn.text, "", "");
      var before, last, after := TurnHasEnd(c, rest, trim);
      TurnMeans(c, before, last, after, trim);
      assert RanUpTo(c, rest, before, last, trim, t);
    }
  }
}
