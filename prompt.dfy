/** The yes/no rule of the "remove stale entry?" prompt. */
module Prompt {

  /** The Unicode White_Space property, which the text trimming of replies uses. */
  predicate IsWhitespace(c: char) {
    var n := c as int;
    (9 <= n <= 13) || n == 0x20 || n == 0x85 || n == 0xA0 || n == 0x1680
    || (0x2000 <= n <= 0x200A) || n == 0x2028 || n == 0x2029 || n == 0x202F
    || n == 0x205F || n == 0x3000
  }

  /** Drops leading whitespace. */
  function TrimStart(s: string): (t: string)
    ensures |t| <= |s| && t == s[|s| - |t|..]
    ensures forall i :: 0 <= i < |s| - |t| ==> IsWhitespace(s[i])
    ensures t == [] || !IsWhitespace(t[0])
  {
    if s != [] && IsWhitespace(s[0]) then TrimStart(s[1..]) else s
  }

  /** Drops trailing whitespace. */
  function TrimEnd(s: string): (t: string)
    ensures |t| <= |s| && t == s[..|t|]
    ensures forall i :: |t| <= i < |s| ==> IsWhitespace(s[i])
    ensures t == [] || !IsWhitespace(t[|t| - 1])
  {
    if s != [] && IsWhitespace(s[|s| - 1]) then TrimEnd(s[..|s| - 1]) else s
  }

  /** `i` is the index of the first character of `s` that is not whitespace. */
  predicate FirstNonSpaceAt(s: string, i: nat) {
    i < |s| && !IsWhitespace(s[i]) && forall j :: 0 <= j < i ==> IsWhitespace(s[j])
  }

  /**
   * Drops whitespace at both ends of a reply: nothing is left exactly when the
   * reply is blank, and otherwise what is left starts with the reply's first
   * non-whitespace character and ends with a non-whitespace one.
   */
  function Trim(s: string): (t: string)
    ensures |t| <= |s|
    ensures t == [] <==> forall i :: 0 <= i < |s| ==> IsWhitespace(s[i])
    ensures t != [] ==> !IsWhitespace(t[|t| - 1])
    ensures forall i: nat :: FirstNonSpaceAt(s, i) ==> t != [] && t[0] == s[i]
  {
    var u := TrimStart(s);
    var v := TrimEnd(u);
    assert v != [] ==> s[|s| - |u|] == v[0];
    v
  }

  datatype Answer = Yes | No | Again

  /**
   * One reply: the answer is read from its first character that is not
   * whitespace; a blank reply, or any other character, asks again.
   */
  function Classify(reply: string): (r: Answer)
    ensures r == Yes <==>
      exists i: nat :: FirstNonSpaceAt(reply, i) && (reply[i] == 'y' || reply[i] == 'Y')
    ensures r == No <==>
      exists i: nat :: FirstNonSpaceAt(reply, i) && (reply[i] == 'n' || reply[i] == 'N')
    ensures (forall i :: 0 <= i < |reply| ==> IsWhitespace(reply[i])) ==> r == Again
  {
    var t := Trim(reply);
    if t == [] then Again
    else if t[0] == 'Y' || t[0] == 'y' then Yes
    else if t[0] == 'N' || t[0] == 'n' then No
    else Again
  }

  /** The answer each reply gives. */
  function Answers(replies: seq<string>): (a: seq<Answer>)
    ensures |a| == |replies|
    ensures forall i :: 0 <= i < |replies| ==> a[i] == Classify(replies[i])
  {
    seq(|replies|, i requires 0 <= i < |replies| => Classify(replies[i]))
  }

  /** Some answer settles the prompt. */
  predicate Settled(answers: seq<Answer>) {
    exists k :: 0 <= k < |answers| && answers[k] != Again
  }

  /** The index of the first answer that is not Again. */
  function FirstSettled(answers: seq<Answer>): (k: nat)
    requires Settled(answers)
    ensures k < |answers| && answers[k] != Again
    ensures forall j :: 0 <= j < k ==> answers[j] == Again
    decreases |answers|
  {
    if answers[0] != Again then 0
    else
      var tail := answers[1..];
      assert Settled(tail) by {
        var w :| 0 <= w < |answers| && answers[w] != Again;
        assert tail[w - 1] == answers[w];
      }
      1 + FirstSettled(tail)
  }

  /** Some reply in the input settles the prompt (otherwise the input ends first). */
  predicate Decisive(replies: seq<string>) {
    Settled(Answers(replies))
  }

  /** The index of the reply that settles the prompt: every earlier one asks again. */
  function FirstDecisive(replies: seq<string>): (k: nat)
    requires Decisive(replies)
    ensures k < |replies| && Classify(replies[k]) != Again
    ensures forall j :: 0 <= j < k ==> Classify(replies[j]) == Again
  {
    FirstSettled(Answers(replies))
  }
}
