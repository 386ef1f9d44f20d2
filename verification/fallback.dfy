/**
 * The local rule-based responder used when the remote reply cannot be had.
 * The input is lower-cased and then tested for trigger words in a fixed
 * priority order; the first rule that matches decides the reply.
 */
module Fallback {
  import opened JsString

  /** Which of the four rules answered. */
  datatype Rule = NoteRule | ReminderRule | IdeaRule | DefaultRule

  const NoteWord: string := "ملاحظة"
  const WriteWord: string := "اكتبي"
  const RemindWord: string := "ذكرني"
  const RemindWordAlt: string := "فكّرني"
  const IdeaWord: string := "فكرة"
  const PostWord: string := "بوست"
  const AdWord: string := "اعلان"

  const NoteSaved: string := "خلاص يا لولتي، كتبت الملاحظة عندي ❤️"
  const WhenQuestion: string := "قولي المعاد اللي عايزني أفكرك فيه؟"
  const PostQuestion: string := "عايزة بوست لنوع إيه؟ شغل ولا شخصي؟"
  const Acknowledgement: string := "حاضر يا لولتي! سأساعدك في اللي تطلبيه 💜"

  /** Rule 1: asks Bo to write something down. */
  predicate MentionsNote(s: string) {
    Contains(s, NoteWord) || Contains(s, WriteWord)
  }

  /** Rule 2: asks to be reminded. */
  predicate MentionsReminder(s: string) {
    Contains(s, RemindWord) || Contains(s, RemindWordAlt)
  }

  /** Rule 3: asks for an idea, a post or an advert. */
  predicate MentionsIdea(s: string) {
    Contains(s, IdeaWord) || Contains(s, PostWord) || Contains(s, AdWord)
  }

  /** Every trigger word is Arabic, so lower-casing the input cannot affect a match. */
  lemma MatchIgnoresCase(t: string)
    ensures MentionsNote(Lower(t)) <==> MentionsNote(t)
    ensures MentionsReminder(Lower(t)) <==> MentionsReminder(t)
    ensures MentionsIdea(Lower(t)) <==> MentionsIdea(t)
  {
    LowerKeepsCaseless(t, NoteWord);
    LowerKeepsCaseless(t, WriteWord);
    LowerKeepsCaseless(t, RemindWord);
    LowerKeepsCaseless(t, RemindWordAlt);
    LowerKeepsCaseless(t, IdeaWord);
    LowerKeepsCaseless(t, PostWord);
    LowerKeepsCaseless(t, AdWord);
  }

  /**
   * The rule `localFallbackReply` applies to `t`: tests run on the
   * lower-cased text, yet the outcome is the first rule whose triggers occur
   * in `t` itself, and exactly one rule applies.
   */
  function Classify(t: string): (r: Rule)
    ensures r == NoteRule <==> MentionsNote(t)
    ensures r == ReminderRule <==> !MentionsNote(t) && MentionsReminder(t)
    ensures r == IdeaRule <==> !MentionsNote(t) && !MentionsReminder(t) && MentionsIdea(t)
    ensures r == DefaultRule <==> !MentionsNote(t) && !MentionsReminder(t) && !MentionsIdea(t)
  {
    var low := Lower(t);
    MatchIgnoresCase(t);
    if MentionsNote(low) then NoteRule
    else if MentionsReminder(low) then ReminderRule
    else if MentionsIdea(low) then IdeaRule
    else DefaultRule
  }

  /** The fixed reply each rule gives. */
  function RuleReply(r: Rule): string {
    match r
    case NoteRule => NoteSaved
    case ReminderRule => WhenQuestion
    case IdeaRule => PostQuestion
    case DefaultRule => Acknowledgement
  }

  /** Each rule has its own reply, and none of them is empty. */
  lemma {:induction false} RuleReplyDistinct(a: Rule, b: Rule)
    ensures RuleReply(a) != []
    ensures RuleReply(a) == RuleReply(b) <==> a == b
  {
  }

  /** A note trigger wins over a reminder trigger in the same input. */
  lemma NoteBeatsReminder(t: string)
    requires MentionsNote(t) && MentionsReminder(t)
    ensures Classify(t) == NoteRule && RuleReply(Classify(t)) == NoteSaved
  {
  }

  /** Matching is on substrings: a trigger inside a longer word still fires. */
  lemma {:induction false} TriggerInsideWord()
    ensures Classify("البوست") == IdeaRule
  {
    var s := "البوست";
    assert !MentionsNote(s) by {
      NotContainedFirst(s, NoteWord);
      assert s[..|WriteWord|][1] != WriteWord[1];
      NotContainedPastPrefix(s, WriteWord);
    }
    assert !MentionsReminder(s) by {
      NotContainedFirst(s, RemindWord);
      NotContainedFirst(s, RemindWordAlt);
    }
    assert OccursAt(s, PostWord, 2);
  }

  /**
   * The reminder trigger is spelt with a shadda: the same verb written
   * without it matches no rule and gets the generic acknowledgement.
   */
  lemma {:induction false} ReminderNeedsShadda()
    ensures Classify("فكرني") == DefaultRule
  {
    var s := "فكرني";
    assert !MentionsNote(s) by {
      NotContainedLonger(s, NoteWord);
      NotContainedFirst(s, WriteWord);
    }
    assert !MentionsReminder(s) by {
      NotContainedFirst(s, RemindWord);
      NotContainedPastPrefix(s, RemindWordAlt);
    }
    assert !MentionsIdea(s) by {
      assert s[..|IdeaWord|][3] != IdeaWord[3];
      NotContainedPastPrefix(s, IdeaWord);
      NotContainedFirst(s, PostWord);
      NotContainedFirst(s, AdWord);
    }
  }
}
