/**
 * Voice choice in `speak`: the first voice whose language tag starts with
 * "ar"; failing that, the first whose name matches `/female|woman|feminine/i`;
 * failing that, none (the platform default is used).
 */
module Voices {
  import opened Wrappers
  import opened JsString

  /** What `speak` reads of a platform voice: its language tag and its name. */
  datatype Voice = Voice(lang: string, name: string)

  /** `x.lang && x.lang.startsWith("ar")`; an empty tag starts with nothing. */
  predicate IsArabicVoice(v: Voice)
    ensures IsArabicVoice(v) <==> |v.lang| >= 2 && v.lang[0] == 'a' && v.lang[1] == 'r'
  {
    StartsWith(v.lang, "ar")
  }

  /**
   * `/female|woman|feminine/i.test(x.name)`: some stretch of the name reads
   * as one of the three words once its ASCII capitals are lower-cased.
   */
  predicate IsFeminineVoice(v: Voice)
    ensures IsFeminineVoice(v) <==> exists i ::
      OccursLoweredAt(v.name, "female", i) || OccursLoweredAt(v.name, "woman", i) ||
      OccursLoweredAt(v.name, "feminine", i)
  {
    ContainsLowered(v.name, "female");
    ContainsLowered(v.name, "woman");
    ContainsLowered(v.name, "feminine");
    var name := Lower(v.name);
    Contains(name, "female") || Contains(name, "woman") || Contains(name, "feminine")
  }

  /** Position `i` holds the first element of `s` satisfying `p`. */
  ghost predicate FirstMatch<T>(s: seq<T>, p: T -> bool, i: int) {
    0 <= i < |s| && p(s[i]) && forall j :: 0 <= j < i ==> !p(s[j])
  }

  /** No element of `s` satisfies `p`. */
  ghost predicate NoMatch<T>(s: seq<T>, p: T -> bool) {
    forall j :: 0 <= j < |s| ==> !p(s[j])
  }

  /** `Array.prototype.find`, reporting the position of the element it finds. */
  function FindFirst<T>(s: seq<T>, p: T -> bool): (r: Option<nat>)
    ensures r.Some? ==> FirstMatch(s, p, r.value)
    ensures r.None? <==> NoMatch(s, p)
  {
    if s == [] then None
    else if p(s[0]) then Some(0)
    else
      match FindFirst(s[1..], p)
      case None => None
      case Some(i) => Some(i + 1)
  }

  /** The position of the voice `speak` assigns to the utterance, if any. */
  function SelectVoice(voices: seq<Voice>): (r: Option<nat>)
    ensures !NoMatch(voices, IsArabicVoice) ==> r.Some? && FirstMatch(voices, IsArabicVoice, r.value)
    ensures NoMatch(voices, IsArabicVoice) && !NoMatch(voices, IsFeminineVoice)
            ==> r.Some? && FirstMatch(voices, IsFeminineVoice, r.value)
    ensures r.None? <==> NoMatch(voices, IsArabicVoice) && NoMatch(voices, IsFeminineVoice)
  {
    match FindFirst(voices, IsArabicVoice)
    case Some(i) => Some(i)
    case None => FindFirst(voices, IsFeminineVoice)
  }

  /** An Arabic voice is preferred even when a feminine-named voice comes earlier. */
  lemma {:induction false} ArabicBeatsEarlierFeminine()
    ensures SelectVoice([Voice("en-US", "Samantha Female"), Voice("ar-EG", "Salma")]) == Some(1)
  {
    var voices := [Voice("en-US", "Samantha Female"), Voice("ar-EG", "Salma")];
    assert voices[0].lang[..2][0] == 'e';
    assert IsArabicVoice(voices[1]);
  }

  /** The name match ignores case: "WOMAN" in capitals still qualifies. */
  lemma {:induction false} NameMatchIgnoresCase()
    ensures SelectVoice([Voice("en-GB", "Tom"), Voice("en-GB", "WOMAN")]) == Some(1)
  {
    var voices := [Voice("en-GB", "Tom"), Voice("en-GB", "WOMAN")];
    assert voices[0].lang[..2][0] == 'e' && voices[1].lang[..2][0] == 'e';
    var low := Lower("WOMAN");
    assert low[0] == 'w' && low[1] == 'o' && low[2] == 'm' && low[3] == 'a' && low[4] == 'n';
    assert low == "woman";
    assert StartsWith(low, "woman");
    assert !IsFeminineVoice(voices[0]) by {
      var n := Lower("Tom");
      NotContainedLonger(n, "female");
      NotContainedLonger(n, "woman");
      NotContainedLonger(n, "feminine");
    }
  }
}
