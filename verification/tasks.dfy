/**
 * The quick-task list: records with an identifier, a text and a done flag,
 * newest first. New tasks go to the front; the checkbox flips `done` on the
 * tasks carrying the clicked identifier.
 */
module Tasks {

  datatype Task = Task(id: int, text: string, done: bool)

  /** Some task in `ts` carries identifier `k`. */
  predicate HasId(ts: seq<Task>, k: int) {
    exists i :: 0 <= i < |ts| && ts[i].id == k
  }

  /** No two tasks share an identifier. */
  ghost predicate UniqueIds(ts: seq<Task>) {
    forall i, j :: 0 <= i < j < |ts| ==> ts[i].id != ts[j].id
  }

  /** The checkbox's update of one task: flip `done` when the identifier is `k`. */
  function Flip(t: Task, k: int): Task {
    if t.id == k then t.(done := !t.done) else t
  }

  /**
   * The task list after the checkbox for identifier `k` is clicked: same
   * length and order, every identifier and text kept, and `done` flipped on
   * exactly the tasks whose identifier is `k`.
   */
  function Toggled(ts: seq<Task>, k: int): (r: seq<Task>)
    ensures |r| == |ts|
    ensures forall i :: 0 <= i < |ts| ==>
      r[i].id == ts[i].id && r[i].text == ts[i].text &&
      r[i].done == (if ts[i].id == k then !ts[i].done else ts[i].done)
  {
    if ts == [] then [] else [Flip(ts[0], k)] + Toggled(ts[1..], k)
  }

  /** Clicking an identifier no task has changes nothing. */
  lemma {:induction false} ToggleUnknownId(ts: seq<Task>, k: int)
    requires !HasId(ts, k)
    ensures Toggled(ts, k) == ts
  {
  }

  /** Clicking the same checkbox twice restores the list. */
  lemma {:induction false} ToggleTwice(ts: seq<Task>, k: int)
    ensures Toggled(Toggled(ts, k), k) == ts
  {
  }

  /** Toggling keeps the identifiers, so it keeps them unique. */
  lemma ToggleKeepsUniqueIds(ts: seq<Task>, k: int)
    ensures UniqueIds(Toggled(ts, k)) <==> UniqueIds(ts)
  {
  }

  /**
   * With unique identifiers the checkbox changes one task: the one carrying
   * `k` has `done` flipped, and every other task is left as it was.
   */
  lemma {:induction false} ToggleFlipsOnlyMatch(ts: seq<Task>, k: int, i: int)
    requires UniqueIds(ts) && 0 <= i < |ts| && ts[i].id == k
    ensures Toggled(ts, k)[i] == ts[i].(done := !ts[i].done)
    ensures forall j :: 0 <= j < |ts| && j != i ==> Toggled(ts, k)[j] == ts[j]
  {
  }

  /** With unique identifiers, of any two tasks the checkbox leaves at least one unchanged. */
  lemma {:induction false} ToggleChangesAtMostOne(ts: seq<Task>, k: int)
    requires UniqueIds(ts)
    ensures forall i, j :: 0 <= i < j < |ts| ==> Toggled(ts, k)[i] == ts[i] || Toggled(ts, k)[j] == ts[j]
  {
  }

  /** Prepending a task with a fresh identifier keeps the identifiers unique. */
  lemma {:induction false} AddKeepsUniqueIds(ts: seq<Task>, k: int, text: string)
    requires !HasId(ts, k)
    ensures UniqueIds([Task(k, text, false)] + ts) <==> UniqueIds(ts)
  {
    var r := [Task(k, text, false)] + ts;
    if UniqueIds(ts) {
      forall i, j | 0 <= i < j < |r|
        ensures r[i].id != r[j].id
      {
        if i == 0 {
          assert r[j] == ts[j - 1];
        } else {
          assert r[i] == ts[i - 1] && r[j] == ts[j - 1];
        }
      }
    }
    if UniqueIds(r) {
      forall i, j | 0 <= i < j < |ts|
        ensures ts[i].id != ts[j].id
      {
        assert r[i + 1] == ts[i] && r[j + 1] == ts[j];
      }
    }
  }

  /**
   * A task just added and then clicked is done, with its text unchanged, and
   * the older tasks are untouched when the new identifier is fresh.
   */
  lemma {:induction false} AddThenToggle(ts: seq<Task>, k: int, text: string)
    requires !HasId(ts, k)
    ensures Toggled([Task(k, text, false)] + ts, k) == [Task(k, text, true)] + ts
  {
  }
}
