/**
 * The conversation controller held in the `BoChatWeb` component's state:
 * the transcript, the notes (newest first), the quick tasks (newest first)
 * and the microphone's listening flag. Each method is one state update the
 * component performs through its setters.
 */
module Controller {
  import opened Wrappers
  import opened JsString
  import opened Fallback
  import opened Tasks
  import opened Transcript

  /** What toggling the microphone does besides flipping the flag. */
  datatype MicAction = Unavailable | StartRecognition | StopRecognition

  class BoChat {
    var messages: seq<Turn>
    var notes: seq<string>
    var tasks: seq<Task>
    var listening: bool
    /** Whether the browser offered a speech recogniser when the component mounted. */
    const hasRecognizer: bool

    /** Task identifiers are unique, as the freshness of each new identifier keeps them. */
    ghost predicate Valid()
      reads this
    {
      UniqueIds(tasks)
    }

    /**
     * Mounting the component: the greeting turn, the notes and tasks read
     * back from storage, and the microphone off. Storage is read unchecked;
     * that the stored identifiers are unique is assumed, not established.
     */
    constructor (storedNotes: seq<string>, storedTasks: seq<Task>, recognizer: bool)
      requires UniqueIds(storedTasks)
      ensures Valid()
      ensures messages == [Turn(Assistant, Greeting)]
      ensures notes == storedNotes && tasks == storedTasks
      ensures !listening && hasRecognizer == recognizer
    {
      messages := [Turn(Assistant, Greeting)];
      notes := storedNotes;
      tasks := storedTasks;
      listening := false;
      hasRecognizer := recognizer;
    }

    /**
     * The synchronous part of `sendMessage(text)`: blank text is refused and
     * changes nothing; otherwise the user's turn, untrimmed, and the
     * placeholder are appended.
     */
    method BeginSend(text: string) returns (accepted: bool)
      modifies this`messages
      ensures accepted <==> !IsBlank(text)
      ensures messages == Begun(old(messages), text)
      ensures accepted ==> PlaceholderPending(messages)
    {
      if IsBlank(text) {
        return false;
      }
      messages := messages + [Turn(User, text)];
      messages := messages + [Turn(Assistant, Thinking)];
      accepted := true;
    }

    /**
     * `localFallbackReply(t)`: the reply of the first rule matching `t`; the
     * note rule also puts the original `t` at the front of the notes.
     */
    method LocalFallbackReply(t: string) returns (reply: string)
      modifies this`notes
      ensures reply == RuleReply(Classify(t))
      ensures notes == if Classify(t) == NoteRule then [t] + old(notes) else old(notes)
    {
      var low := Lower(t);
      MatchIgnoresCase(t);
      if Contains(low, NoteWord) || Contains(low, WriteWord) {
        notes := [t] + notes;
        return NoteSaved;
      }
      if Contains(low, RemindWord) || Contains(low, RemindWordAlt) {
        return WhenQuestion;
      }
      if Contains(low, IdeaWord) || Contains(low, PostWord) || Contains(low, AdWord) {
        return PostQuestion;
      }
      return Acknowledgement;
    }

    /**
     * The part of `sendMessage(text)` after the remote call: pick the final
     * reply from how the call ended, then drop the last turn (the pending
     * placeholder, when no other send overlaps) and append the reply. The
     * reply is returned because it is what `speak` is then given.
     */
    method ResolveSend(text: string, outcome: Outcome) returns (spoken: string)
      requires PlaceholderPending(messages)
      modifies this`messages, this`notes
      ensures spoken == FinalReply(outcome, text)
      ensures messages == Resolved(old(messages), spoken)
      ensures notes == if outcome.Threw? && Classify(text) == NoteRule then [text] + old(notes) else old(notes)
    {
      match outcome {
        case Parsed(reply) =>
          spoken := if Truthy(reply) then reply.value else Apology;
        case Threw =>
          spoken := LocalFallbackReply(text);
      }
      messages := DropLast(messages) + [Turn(Assistant, spoken)];
    }

    /**
     * `sendMessage(text)` run to completion with no other send in flight:
     * blank text changes nothing; otherwise the transcript gains exactly the
     * user's turn and the final reply.
     */
    method Send(text: string, outcome: Outcome) returns (spoken: Option<string>)
      modifies this`messages, this`notes
      ensures spoken.None? <==> IsBlank(text)
      ensures spoken.None? ==> messages == old(messages) && notes == old(notes)
      ensures spoken.Some? ==>
        spoken.value == FinalReply(outcome, text) &&
        messages == old(messages) + [Turn(User, text), Turn(Assistant, spoken.value)] &&
        notes == if outcome.Threw? && Classify(text) == NoteRule then [text] + old(notes) else old(notes)
    {
      var accepted := BeginSend(text);
      if !accepted {
        return None;
      }
      var reply := ResolveSend(text, outcome);
      SendTranscript(old(messages), text, reply);
      spoken := Some(reply);
    }

    /** `addTask(text)` with identifier `id`: a new, not-done task at the front. */
    method AddTask(id: int, text: string)
      requires !HasId(tasks, id)
      modifies this`tasks
      ensures tasks == [Task(id, text, false)] + old(tasks)
      ensures Valid() <==> old(Valid())
    {
      AddKeepsUniqueIds(tasks, id, text);
      tasks := [Task(id, text, false)] + tasks;
    }

    /**
     * A key press in the task input holding `value`: Enter on non-blank input
     * adds the trimmed text as a task and clears the input; anything else
     * changes nothing. Returns what the input then holds.
     */
    method SubmitTaskInput(key: string, value: string, id: int) returns (field: string)
      requires key == "Enter" && !IsBlank(value) ==> !HasId(tasks, id)
      modifies this`tasks
      ensures key == "Enter" && !IsBlank(value) ==>
        tasks == [Task(id, Trim(value), false)] + old(tasks) && field == []
      ensures !(key == "Enter" && !IsBlank(value)) ==> tasks == old(tasks) && field == value
      ensures Valid() <==> old(Valid())
    {
      if key == "Enter" && Trim(value) != [] {
        AddTask(id, Trim(value));
        field := [];
      } else {
        field := value;
      }
    }

    /**
     * The checkbox of the task with identifier `k`. Under the class
     * invariant it changes at most one task, and exactly the task with `k`
     * when there is one.
     */
    method ToggleTask(k: int)
      modifies this`tasks
      ensures tasks == Toggled(old(tasks), k)
      ensures Valid() <==> old(Valid())
      ensures old(Valid()) ==> forall i, j :: 0 <= i < j < |tasks| ==> tasks[i] == old(tasks)[i] || tasks[j] == old(tasks)[j]
    {
      ToggleKeepsUniqueIds(tasks, k);
      if Valid() {
        ToggleChangesAtMostOne(tasks, k);
      }
      tasks := Toggled(tasks, k);
    }

    /**
     * `toggleListen`: without a recogniser only the alert is shown; with one,
     * recognition is stopped when listening and started otherwise, and the
     * flag flips.
     */
    method ToggleListen() returns (action: MicAction)
      modifies this`listening
      ensures !hasRecognizer ==> action == Unavailable && listening == old(listening)
      ensures hasRecognizer ==> listening == !old(listening)
      ensures hasRecognizer ==> action == if old(listening) then StopRecognition else StartRecognition
    {
      if !hasRecognizer {
        return Unavailable;
      }
      action := if listening then StopRecognition else StartRecognition;
      listening := !listening;
    }
  }
}
