/**
  The user proxy's termination predicate: a message ends the chat when it
  has content and that content contains the marker text.
 */
module Termination {

  /** The literal marker the assistant is told to return when done. */
  const Marker: string := "TERMINATE"

  /**
    A chat message as the agent library hands it over: a dictionary whose
    "content" entry may be missing or hold `None`.
   */
  type Message = map<string, Option<string>>

  datatype Option<+T> = None | Some(value: T)

  /** `msg.get("content")`: `None` when the key is absent or holds `None`. */
  function Content(msg: Message): Option<string>
  {
    if "content" in msg then msg["content"] else None
  }

  /** `sub` occurs in `s` starting at position `i`. */
  ghost predicate MatchAt(sub: string, s: string, i: nat)
  {
    i + |sub| <= |s| && s[i..i + |sub|] == sub
  }

  /** `sub` occurs in `s` at some position (the meaning of Python's `sub in s`). */
  ghost predicate Occurs(sub: string, s: string)
  {
    exists i: nat :: MatchAt(sub, s, i)
  }

  /** A left-to-right scan for `sub` in `s`. */
  function Contains(sub: string, s: string): (r: bool)
    ensures r <==> Occurs(sub, s)
    decreases |s|
  {
    if |sub| > |s| then false
    else if s[..|sub|] == sub then
      assert MatchAt(sub, s, 0);
      true
    else
      var r := Contains(sub, s[1..]);
      OccursShift(sub, s);
      r
  }

  /** When there is no match at position 0, a match is one in the tail. */
  lemma OccursShift(sub: string, s: string)
    requires |sub| <= |s| && s[..|sub|] != sub
    ensures Occurs(sub, s) <==> Occurs(sub, s[1..])
  {
    var t := s[1..];
    if Occurs(sub, s) {
      var i: nat :| MatchAt(sub, s, i);
      assert i != 0;
      assert t[i - 1..i - 1 + |sub|] == s[i..i + |sub|];
      assert MatchAt(sub, t, i - 1);
    }
    if Occurs(sub, t) {
      var j: nat :| MatchAt(sub, t, j);
      assert s[j + 1..j + 1 + |sub|] == t[j..j + |sub|];
      assert MatchAt(sub, s, j + 1);
    }
  }

  /**
    `is_termination_msg`: the content is present (not `None`) and the marker
    occurs in it as a substring.
   */
  function IsTerminationMsg(msg: Message): (r: bool)
    ensures r <==> "content" in msg && msg["content"].Some? && Occurs(Marker, msg["content"].value)
    ensures "content" !in msg ==> !r
  {
    match Content(msg)
    case None => false
    case Some(text) => Contains(Marker, text)
  }

  /** A content holding the marker anywhere, with any text around it, ends the chat. */
  lemma MarkerAnywhereTerminates(before: string, after: string)
    ensures IsTerminationMsg(map["content" := Some(before + Marker + after)])
  {
    var s := before + Marker + after;
    assert s[|before|..|before| + |Marker|] == Marker;
    assert MatchAt(Marker, s, |before|);
  }

  /**
    No content, `None` content and the empty string do not end the chat; the
    bare marker does; the marker in lower case does not (the test is
    case-sensitive).
   */
  lemma TerminationExamples()
    ensures !IsTerminationMsg(map[])
    ensures !IsTerminationMsg(map["content" := None])
    ensures IsTerminationMsg(map["content" := Some("TERMINATE")])
    ensures !IsTerminationMsg(map["content" := Some("terminate")])
    ensures !IsTerminationMsg(map["content" := Some("")])
  {
    var lower := "terminate";
    assert lower[..|Marker|] != Marker by { assert lower[0] != Marker[0]; }
    assert !Contains(Marker, lower[1..]);
  }
}
