/** The read loop of a connection (`runConn` and `dispatch` in `ws/server.go`): which answers it hands
    to the pump, and which of them the client gets. */
module ReadLoop {
  import opened PumpMachine
  import opened Subsequences
  import opened Delivery
  import opened Wrappers

  datatype Message =
    | Garbage                                             // not an envelope
    | Envelope(kind: string, typ: string, id: Option<string>)

  /** What the handler of a primitive comes to. */
  datatype Result = Payload | Silent | Fault(code: string)

  datatype Answer = Answer(kind: string, typ: string, id: Option<string>, code: string)

  type Scope = string
  type Routes = map<string, set<Scope>>   // primitive -> required scopes, any of them

  predicate HasAnyScope(claims: set<Scope>, required: set<Scope>) {
    required == {} || required * claims != {}
  }

  /** The messages that get as far as a handler. */
  predicate ReachesHandler(m: Message, routes: Routes, claims: set<Scope>) {
    m.Envelope? && m.typ != "" && m.kind == "request" && m.typ in routes && HasAnyScope(claims, routes[m.typ])
  }

  /** The answer echoes the request. */
  predicate Echoes(a: Answer, m: Message) {
    match m
    case Garbage => a.typ == "" && a.id == None
    case Envelope(_, typ, id) => a.typ == typ && a.id == id
  }

  /** The error codes of the messages no handler sees: the envelope is judged before the route, and
      the route before the scope. */
  predicate RefusedAs(code: string, m: Message, routes: Routes) {
    if m.Envelope? && m.typ != "" && m.kind == "request" then
      code == if m.typ in routes then "forbidden" else "unknown_type"
    else code == "bad_request"
  }

  /** The one answer a message deserves, given what its handler comes to. */
  predicate Answers(a: Answer, m: Message, routes: Routes, claims: set<Scope>, result: Result) {
    && Echoes(a, m)
    && if ReachesHandler(m, routes, claims) then
         match result
         case Payload => a.kind == "response" && a.code == ""
         case Fault(code) => a.kind == "error" && a.code == code
         case Silent => false
       else a.kind == "error" && RefusedAs(a.code, m, routes)
  }

  method Dispatch(m: Message, routes: Routes, claims: set<Scope>, result: Result) returns (out: Option<Answer>)
    requires m.Envelope? && m.typ != "" && m.kind == "request"
    ensures out.Some? ==> Answers(out.value, m, routes, claims, result)
    ensures out.None? <==> ReachesHandler(m, routes, claims) && result == Silent
  {
    if m.typ !in routes {
      return Some(Answer("error", m.typ, m.id, "unknown_type"));
    }
    if !HasAnyScope(claims, routes[m.typ]) {
      return Some(Answer("error", m.typ, m.id, "forbidden"));
    }
    match result {
      case Fault(code) => return Some(Answer("error", m.typ, m.id, code));
      case Silent => return None;
      case Payload => return Some(Answer("response", m.typ, m.id, ""));
    }
  }

  /** Serves the messages of one connection, one at a time.  `sent[i]` answers message `of[i]`; the
      messages left out are the successes of fire-and-forget primitives. */
  method RunConn(messages: seq<Message>, routes: Routes, claims: set<Scope>, result: nat -> Result)
      returns (sent: seq<Answer>, of: seq<nat>)
    ensures |of| == |sent| && Increasing(of, |messages|)
    ensures forall i :: 0 <= i < |sent| ==> Answers(sent[i], messages[of[i]], routes, claims, result(of[i]))
    ensures forall k: nat :: k < |messages| ==>
              (k !in of <==> ReachesHandler(messages[k], routes, claims) && result(k) == Silent)
  {
    sent, of := [], [];
    for k := 0 to |messages|
      invariant |of| == |sent| && Increasing(of, k)
      invariant forall i :: 0 <= i < |sent| ==> Answers(sent[i], messages[of[i]], routes, claims, result(of[i]))
      invariant forall j: nat :: j < k ==>
                  (j !in of <==> ReachesHandler(messages[j], routes, claims) && result(j) == Silent)
    {
      var m := messages[k];
      var out: Option<Answer>;
      if m.Garbage? {
        out := Some(Answer("error", "", None, "bad_request"));
      } else if m.typ == "" {
        out := Some(Answer("error", m.typ, m.id, "bad_request"));
      } else if m.kind != "request" {
        out := Some(Answer("error", m.typ, m.id, "bad_request"));
      } else {
        out := Dispatch(m, routes, claims, result(k));
      }
      if out.None? { continue; } // fire-and-forget
      sent, of := sent + [out.value], of + [k];
    }
  }

  /** Through the pump: whatever else the connection sends, the answers that get written answer
      different messages, in the order of the messages. */
  lemma AnswersKeepRequestOrder(s: State, reader: Producer, messages: seq<Message>, routes: Routes, claims: set<Scope>,
                                result: nat -> Result, sent: seq<Answer>, of: seq<nat>)
    requires Reachable(s) && Issued(s, reader) <= |sent|
    requires |of| == |sent| && Increasing(of, |messages|)
    requires forall i :: 0 <= i < |sent| ==> Answers(sent[i], messages[of[i]], routes, claims, result(of[i]))
    ensures forall k :: k in SerialsOf(s.written, reader) ==> k < |sent|
    ensures var got, at := Received(s, reader, sent), Select(of, SerialsOf(s.written, reader));
            && |got| == |at| && Increasing(at, |messages|)
            && forall i :: 0 <= i < |at| ==> Answers(got[i], messages[at[i]], routes, claims, result(at[i]))
  {
    hide Reachable, Answers;
    WrittenSerials(s, reader);
    var serials := SerialsOf(s.written, reader);
    var got, at := Received(s, reader, sent), Select(of, serials);
    forall i | 0 <= i < |at|
      ensures at[i] < |messages| && Answers(got[i], messages[at[i]], routes, claims, result(at[i]))
    {
      assert serials[i] in serials;
    }
  }
}
