/**
 * The conversation transcript and the two steps of sending a message:
 * the begin step appends the user's turn and a "thinking" placeholder; the
 * resolve step drops the last turn and appends the final assistant reply.
 */
module Transcript {
  import opened Wrappers
  import opened JsString
  import opened Fallback

  datatype Role = User | Assistant

  /** One message of the conversation. */
  datatype Turn = Turn(role: Role, text: string)

  const Greeting: string := "صباح الورد يا لولتي 🌸 جاهز نبدأ يومنا ولا نعمل فنجان نسكافيه الأول؟ 😽☕"
  const Thinking: string := "بو بتفكر... 😺"
  const Apology: string := "معليش، حصلت مشكلة بسيطة. جرب تاني."

  /**
   * How the call to the remote endpoint ended. `Parsed` is any response whose
   * body parsed as JSON, whatever its HTTP status (fetch does not throw on a
   * non-2xx status); `reply` is the body's `reply` field when it is a string,
   * `None` when the body is not an object or has no such field.
   * `Threw` is a network failure or a body that is not JSON.
   */
  datatype Outcome = Parsed(reply: Option<string>) | Threw

  /** JavaScript truthiness of the `reply` field: present and non-empty. */
  predicate Truthy(reply: Option<string>) {
    reply.Some? && reply.value != []
  }

  /** The text of the assistant turn that replaces the placeholder. */
  function FinalReply(outcome: Outcome, text: string): (r: string)
    ensures r != []
    ensures outcome.Parsed? && outcome.reply.Some? && outcome.reply.value != [] ==> r == outcome.reply.value
    ensures outcome == Parsed(None) || outcome == Parsed(Some([])) ==> r == Apology
    ensures outcome.Threw? ==> r == RuleReply(Classify(text))
  {
    match outcome
    case Parsed(reply) =>
      if Truthy(reply) then reply.value else assert Apology[0] == 'م'; Apology
    case Threw =>
      RuleReplyDistinct(Classify(text), Classify(text));
      RuleReply(Classify(text))
  }

  /** The apology differs from every fallback reply, so the two failure paths read differently. */
  lemma {:induction false} ApologyIsNotFallback(r: Rule)
    ensures RuleReply(r) != Apology
  {
  }

  /**
   * The transcript after the begin step of `sendMessage(text)`. Blank text
   * leaves it as it was; otherwise exactly the user's untrimmed turn and the
   * placeholder are appended, every earlier turn is kept, and the placeholder
   * is left pending for the resolve step.
   */
  function Begun(m: seq<Turn>, text: string): (r: seq<Turn>)
    ensures IsBlank(text) ==> r == m
    ensures !IsBlank(text) ==> |r| == |m| + 2 && r[..|m|] == m && r[|m|] == Turn(User, text)
    ensures !IsBlank(text) ==> PlaceholderPending(r)
  {
    if IsBlank(text) then m else m + [Turn(User, text), Turn(Assistant, Thinking)]
  }

  /** `m.slice(0, -1)`: everything but the last turn; nothing of an empty transcript. */
  function DropLast(m: seq<Turn>): (r: seq<Turn>)
    ensures |r| == if m == [] then 0 else |m| - 1
    ensures r == m[..|r|]
  {
    if m == [] then [] else m[..|m| - 1]
  }

  /**
   * The transcript after the resolve step with final reply `reply`: the last
   * turn, if any, gives way to one assistant turn holding the reply, and
   * every earlier turn is kept.
   */
  function Resolved(m: seq<Turn>, reply: string): (r: seq<Turn>)
    ensures |r| == if m == [] then 1 else |m|
    ensures r[..|r| - 1] == m[..|r| - 1]
    ensures r[|r| - 1] == Turn(Assistant, reply)
  {
    DropLast(m) + [Turn(Assistant, reply)]
  }

  /** The placeholder of a send in flight is the last turn. */
  predicate PlaceholderPending(m: seq<Turn>) {
    m != [] && m[|m| - 1] == Turn(Assistant, Thinking)
  }

  /** Blank input leaves the transcript as it was. */
  lemma BlankSendIgnored(m: seq<Turn>)
    ensures Begun(m, "") == m
    ensures Begun(m, "   ") == m
    ensures Begun(m, "\t\n") == m
  {
  }

  /** A whole send of non-blank text ends with the user's turn then the reply after the old transcript. */
  lemma SendTranscript(m: seq<Turn>, text: string, reply: string)
    requires !IsBlank(text)
    ensures Resolved(Begun(m, text), reply) == m + [Turn(User, text), Turn(Assistant, reply)]
  {
    assert DropLast(Begun(m, text)) == m + [Turn(User, text)];
  }

  /** The number of turns spoken by `role`. */
  function CountRole(m: seq<Turn>, role: Role): nat {
    if m == [] then 0 else (if m[0].role == role then 1 else 0) + CountRole(m[1..], role)
  }

  /** Counting turns distributes over concatenation. */
  lemma {:induction false} CountRoleAppend(a: seq<Turn>, b: seq<Turn>, role: Role)
    ensures CountRole(a + b, role) == CountRole(a, role) + CountRole(b, role)
  {
    if a == [] {
      assert a + b == b;
    } else {
      assert (a + b)[1..] == a[1..] + b;
      CountRoleAppend(a[1..], b, role);
    }
  }

  /**
   * A whole send of non-blank text adds exactly one user turn and exactly one
   * assistant turn: the placeholder is replaced, never left beside the reply.
   */
  lemma {:induction false} SendAddsOneTurnEach(m: seq<Turn>, text: string, reply: string)
    requires !IsBlank(text)
    ensures CountRole(Resolved(Begun(m, text), reply), User) == CountRole(m, User) + 1
    ensures CountRole(Resolved(Begun(m, text), reply), Assistant) == CountRole(m, Assistant) + 1
  {
    var added := [Turn(User, text), Turn(Assistant, reply)];
    SendTranscript(m, text, reply);
    CountRoleAppend(m, added, User);
    CountRoleAppend(m, added, Assistant);
    CountUserThenAssistant(text, reply);
  }

  /** One user turn followed by one assistant turn holds one turn of each role. */
  lemma {:induction false} CountUserThenAssistant(text: string, reply: string)
    ensures CountRole([Turn(User, text), Turn(Assistant, reply)], User) == 1
    ensures CountRole([Turn(User, text), Turn(Assistant, reply)], Assistant) == 1
  {
    var added := [Turn(User, text), Turn(Assistant, reply)];
    var last := [Turn(Assistant, reply)];
    assert added[1..] == last && last[1..] == [];
    assert CountRole(last, User) == 0 && CountRole(last, Assistant) == 1;
  }
}
