/** `processWeavingMessages`: every message the weaver reported is routed to
    at most one output channel according to its kind. */
module Messages {
  import opened Wrappers

  /** The kinds of weaver message; `Other` stands for every kind the plugin
      does not name (weave-info, task-tag, ...), never for one of the six. */
  datatype Kind = Abort | Error | Fail | Warning | Info | Debug | Other(name: string)

  /** One weaver message; `cause` is the attached throwable's trace, if any. */
  datatype Message = Message(kind: Kind, text: string, cause: Option<string>)

  datatype Channel = Fatal | WarningChannel | InfoChannel | DebugChannel

  /** One output line; `trace` is the cause trace printed after a fatal line. */
  datatype Diagnostic = Diagnostic(channel: Channel, text: string, trace: Option<string>)

  predicate IsFatalKind(k: Kind) {
    k == Abort || k == Error || k == Fail
  }

  /** The kinds that feed each channel. */
  predicate Feeds(k: Kind, c: Channel) {
    match c
    case Fatal => IsFatalKind(k)
    case WarningChannel => k == Warning
    case InfoChannel => k == Info
    case DebugChannel => k == Debug
  }

  /** The routing of one message: fatal kinds carry their cause, the other
      named kinds carry only their text, and any other kind prints nothing. */
  function Route(m: Message): (r: Option<Diagnostic>)
    ensures r.None? <==> m.kind.Other?
    ensures r.Some? ==> r.value.text == m.text && Feeds(m.kind, r.value.channel)
    ensures r.Some? && r.value.channel == Fatal ==> r.value.trace == m.cause
    ensures r.Some? && r.value.channel != Fatal ==> r.value.trace.None?
  {
    match m.kind
    case Abort => Some(Diagnostic(Fatal, m.text, m.cause))
    case Error => Some(Diagnostic(Fatal, m.text, m.cause))
    case Fail => Some(Diagnostic(Fatal, m.text, m.cause))
    case Warning => Some(Diagnostic(WarningChannel, m.text, None))
    case Info => Some(Diagnostic(InfoChannel, m.text, None))
    case Debug => Some(Diagnostic(DebugChannel, m.text, None))
    case Other(_) => None
  }

  /** No kind feeds two channels. */
  lemma FeedsIsFunction(k: Kind, c: Channel, c': Channel)
    requires Feeds(k, c) && Feeds(k, c')
    ensures c == c'
  {
  }

  /** The routed output of a whole message list, in message order. */
  function Triage(msgs: seq<Message>): seq<Diagnostic>
    decreases |msgs|
  {
    if |msgs| == 0 then []
    else
      var last := Route(msgs[|msgs| - 1]);
      Triage(msgs[..|msgs| - 1]) + (if last.Some? then [last.value] else [])
  }

  /** The weave's derived verdict: some message is of a fatal kind. */
  predicate HasFatal(msgs: seq<Message>) {
    exists i :: 0 <= i < |msgs| && IsFatalKind(msgs[i].kind)
  }

  function CountFed(msgs: seq<Message>, c: Channel): nat
    decreases |msgs|
  {
    if |msgs| == 0 then 0
    else CountFed(msgs[..|msgs| - 1], c) + (if Feeds(msgs[|msgs| - 1].kind, c) then 1 else 0)
  }

  function CountReported(msgs: seq<Message>): nat
    decreases |msgs|
  {
    if |msgs| == 0 then 0
    else CountReported(msgs[..|msgs| - 1]) + (if msgs[|msgs| - 1].kind.Other? then 0 else 1)
  }

  function CountOn(out: seq<Diagnostic>, c: Channel): nat
    decreases |out|
  {
    if |out| == 0 then 0
    else CountOn(out[..|out| - 1], c) + (if out[|out| - 1].channel == c then 1 else 0)
  }

  /** The message loop: handles the messages in order, printing each one's
      routed line. */
  method ProcessWeavingMessages(msgs: seq<Message>) returns (out: seq<Diagnostic>)
    ensures out == Triage(msgs)
  {
    out := [];
    var i := 0;
    while i < |msgs|
      invariant 0 <= i <= |msgs|
      invariant out == Triage(msgs[..i])
    {
      assert msgs[..i + 1][..i] == msgs[..i];
      var d := Route(msgs[i]);
      if d.Some? {
        out := out + [d.value];
      }
      i := i + 1;
    }
    assert msgs[..|msgs|] == msgs;
  }

  /** Triage distributes over concatenation: the output for two batches is the
      output for the first followed by the output for the second. */
  lemma {:induction false} TriageAppend(a: seq<Message>, b: seq<Message>)
    ensures Triage(a + b) == Triage(a) + Triage(b)
    decreases |b|
  {
    if |b| == 0 {
      assert a + b == a;
    } else {
      var b' := b[..|b| - 1];
      assert (a + b)[..|a + b| - 1] == a + b';
      assert (a + b)[|a + b| - 1] == b[|b| - 1];
      TriageAppend(a, b');
    }
  }

  /** Each message yields at most one line: the output has one line per
      message of a named kind. */
  lemma {:induction false} TriageLength(msgs: seq<Message>)
    ensures |Triage(msgs)| == CountReported(msgs) <= |msgs|
    decreases |msgs|
  {
    if |msgs| > 0 {
      TriageLength(msgs[..|msgs| - 1]);
    }
  }

  /** A message lands on a channel exactly when its kind feeds that channel. */
  lemma RouteFeeds(m: Message, c: Channel)
    ensures (Route(m).Some? && Route(m).value.channel == c) <==> Feeds(m.kind, c)
  {
  }

  /** Every channel receives exactly as many lines as there are messages of
      the kinds that feed it. */
  lemma {:induction false} TriageChannelCount(msgs: seq<Message>, c: Channel)
    ensures CountOn(Triage(msgs), c) == CountFed(msgs, c)
    decreases |msgs|
  {
    if |msgs| > 0 {
      var front := msgs[..|msgs| - 1];
      var m := msgs[|msgs| - 1];
      var r := Route(m);
      var t := Triage(msgs);
      TriageChannelCount(front, c);
      RouteFeeds(m, c);
      assert t == Triage(front) + (if r.Some? then [r.value] else []);
      assert CountFed(msgs, c) == CountFed(front, c) + (if Feeds(m.kind, c) then 1 else 0);
      if r.Some? {
        assert t[..|t| - 1] == Triage(front);
        assert CountOn(t, c) == CountOn(Triage(front), c) + (if r.value.channel == c then 1 else 0);
      } else {
        assert t == Triage(front);
      }
    }
  }

  /** The fatal channel receives a line if and only if the message list has a
      fatal kind (ABORT, ERROR or FAIL); an empty list yields neither. */
  lemma {:induction false} TriageFatalIff(msgs: seq<Message>)
    ensures (exists j :: 0 <= j < |Triage(msgs)| && Triage(msgs)[j].channel == Fatal) <==> HasFatal(msgs)
    decreases |msgs|
  {
    if |msgs| > 0 {
      var front := msgs[..|msgs| - 1];
      var m := msgs[|msgs| - 1];
      var r := Route(m);
      var out := Triage(msgs);
      TriageFatalIff(front);
      assert out == Triage(front) + (if r.Some? then [r.value] else []);
      if HasFatal(msgs) {
        var i :| 0 <= i < |msgs| && IsFatalKind(msgs[i].kind);
        if i < |msgs| - 1 {
          assert front[i] == msgs[i];
          var j :| 0 <= j < |Triage(front)| && Triage(front)[j].channel == Fatal;
          assert out[j] == Triage(front)[j];
        } else {
          assert out[|out| - 1] == r.value;
        }
      }
      if exists j :: 0 <= j < |out| && out[j].channel == Fatal {
        var j :| 0 <= j < |out| && out[j].channel == Fatal;
        if j < |Triage(front)| {
          assert Triage(front)[j] == out[j];
          var i :| 0 <= i < |front| && IsFatalKind(front[i].kind);
          assert msgs[i] == front[i];
        } else {
          assert IsFatalKind(m.kind);
          assert msgs[|msgs| - 1] == m;
        }
      }
    }
  }
}
