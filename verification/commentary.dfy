/**
 The commentary picker of services/geminiService.ts: from the two teams'
 voltages and the text of the last action it decides a commentary
 category by a fixed priority, then picks one of that category's
 templates with a random index. The template texts themselves are not
 modelled: a template is named by its category and its position.
 */
module Commentary {
  import opened Types

  datatype Category = Welcome | HighVoltage | NegativeVoltage | CloseGame | Attack | Default

  /** A leader above this voltage earns the high-voltage commentary. */
  const HighVoltageThreshold: real := 2.5

  /** Two non-zero voltages closer than this make a close game. */
  const CloseGameMargin: real := 0.5

  // ---------------------------------------------------------------------
  // Keyword matching

  /** Lower-casing of one character (ASCII letters only). */
  function LowerChar(c: char): (d: char)
    ensures 'A' <= c <= 'Z' ==> 'a' <= d <= 'z' && d as int == c as int + 32
    ensures !('A' <= c <= 'Z') ==> d == c
  {
    if 'A' <= c <= 'Z' then (c as int + 32) as char else c
  }

  /** `toLowerCase`, character by character. */
  function ToLower(s: string): (r: string)
    ensures |r| == |s|
    ensures forall i :: 0 <= i < |s| ==> r[i] == LowerChar(s[i])
  {
    if s == [] then [] else [LowerChar(s[0])] + ToLower(s[1..])
  }

  /** Lower-casing an already lower-cased text changes nothing. */
  lemma ToLowerIdempotent(s: string)
    ensures ToLower(ToLower(s)) == ToLower(s)
  {
    var t := ToLower(s);
    assert forall i :: 0 <= i < |t| ==> ToLower(t)[i] == t[i];
  }

  /** `includes`: `sub` occurs in `s` at some position. */
  predicate Contains(s: string, sub: string) {
    exists i :: 0 <= i <= |s| && sub <= s[i..]
  }

  /** The action text mentions `word`, ignoring case. */
  predicate Mentions(action: string, word: string) {
    Contains(ToLower(action), word)
  }

  predicate IsAttackAction(action: string) {
    Mentions(action, "attack") || Mentions(action, "card") || Mentions(action, "swap")
  }

  predicate IsStartAction(action: string) {
    Mentions(action, "start") || Mentions(action, "setup")
  }

  // ---------------------------------------------------------------------
  // Leader and trailer

  /** The voltage of team `i` (0 for the first team, 1 for the second). */
  function VoltageOf(i: nat, v1: real, v2: real): real {
    if i == 0 then v1 else v2
  }

  /** The leading team: the first one unless the second is strictly higher. */
  function Leader(v1: real, v2: real): (l: nat)
    ensures l <= 1 && VoltageOf(l, v1, v2) >= VoltageOf(1 - l, v1, v2)
  {
    if v1 >= v2 then 0 else 1
  }

  /** The trailing team: the first one only when it is strictly lower. */
  function Trailer(v1: real, v2: real): (t: nat)
    ensures t <= 1 && VoltageOf(t, v1, v2) <= VoltageOf(1 - t, v1, v2)
  {
    if v1 < v2 then 0 else 1
  }

  function Max(a: real, b: real): (m: real)
    ensures m >= a && m >= b && (m == a || m == b)
  {
    if a >= b then a else b
  }

  /** Leader and trailer are always different teams, the leader's voltage
      is the higher one, and a tie goes to the first team. */
  lemma LeaderAndTrailer(v1: real, v2: real)
    ensures Leader(v1, v2) in {0, 1} && Trailer(v1, v2) in {0, 1}
    ensures Leader(v1, v2) != Trailer(v1, v2)
    ensures VoltageOf(Leader(v1, v2), v1, v2) == Max(v1, v2)
    ensures VoltageOf(Leader(v1, v2), v1, v2) >= VoltageOf(Trailer(v1, v2), v1, v2)
    ensures v1 == v2 ==> Leader(v1, v2) == 0
  {
  }

  // ---------------------------------------------------------------------
  // The category decision

  /** The category chosen in `generateCommentary`, first match wins:
      an attack-like action, then any negative voltage, then a leader above
      2.5 V, then a close game of two non-zero voltages, then a start-up
      action, and otherwise the default. */
  function Classify(v1: real, v2: real, action: string): (c: Category)
    ensures c == Attack <==> IsAttackAction(action)
    ensures c in {HighVoltage, CloseGame, Welcome, Default} ==> v1 >= 0.0 && v2 >= 0.0
    ensures c == HighVoltage ==> v1 > HighVoltageThreshold || v2 > HighVoltageThreshold
  {
    var leaderVoltage := VoltageOf(Leader(v1, v2), v1, v2);
    var diff := Abs(v1 - v2);
    var hasNegative := v1 < 0.0 || v2 < 0.0;
    var isHighVoltage := leaderVoltage > HighVoltageThreshold;
    if IsAttackAction(action) then Attack
    else if hasNegative then NegativeVoltage
    else if isHighVoltage then HighVoltage
    else if v1 != 0.0 && v2 != 0.0 && diff < CloseGameMargin then CloseGame
    else if IsStartAction(action) then Welcome
    else Default
  }

  /** The priority order, stated for each category in terms of the inputs
      alone. */
  lemma ClassifyPriority(v1: real, v2: real, action: string)
    ensures var c := Classify(v1, v2, action);
      var attack := IsAttackAction(action);
      var negative := v1 < 0.0 || v2 < 0.0;
      var high := Max(v1, v2) > HighVoltageThreshold;
      var close := v1 != 0.0 && v2 != 0.0 && Abs(v1 - v2) < CloseGameMargin;
      && (c == Attack <==> attack)
      && (c == NegativeVoltage <==> !attack && negative)
      && (c == HighVoltage <==> !attack && !negative && high)
      && (c == CloseGame <==> !attack && !negative && !high && close)
      && (c == Welcome <==> !attack && !negative && !high && !close && IsStartAction(action))
      && (c == Default <==> !attack && !negative && !high && !close && !IsStartAction(action))
  {
    LeaderAndTrailer(v1, v2);
  }

  /** A negative voltage outranks a high leader: with no attack keyword,
      any negative voltage gives the warning even when the other team is
      far above 2.5 V. */
  lemma NegativeOutranksHigh(v1: real, v2: real, action: string)
    requires !IsAttackAction(action) && v1 < 0.0 && v2 > HighVoltageThreshold
    ensures Classify(v1, v2, action) == NegativeVoltage
  {
  }

  /** The decision does not depend on which team is listed first. */
  lemma ClassifySymmetric(v1: real, v2: real, action: string)
    ensures Classify(v1, v2, action) == Classify(v2, v1, action)
  {
    LeaderAndTrailer(v1, v2);
    LeaderAndTrailer(v2, v1);
    assert Abs(v1 - v2) == Abs(v2 - v1);
  }

  /** The decision ignores the case of the action text. */
  lemma ClassifyIgnoresCase(v1: real, v2: real, action: string)
    ensures Classify(v1, v2, ToLower(action)) == Classify(v1, v2, action)
  {
    ToLowerIdempotent(action);
  }

  // ---------------------------------------------------------------------
  // Template choice

  /** A commentary template: its category and its position in that
      category's list. */
  datatype Template = Template(category: Category, index: nat)

  /** Every category has two templates. */
  function Templates(c: Category): (ts: seq<Template>)
    ensures |ts| == 2 && forall t :: t in ts ==> t.category == c
  {
    [Template(c, 0), Template(c, 1)]
  }

  /** The random index `floor(r * n)` of a non-empty list is in range. */
  lemma FloorIndexInRange(n: nat, r: real)
    requires n > 0 && 0.0 <= r < 1.0
    ensures 0 <= (r * n as real).Floor < n
  {
    assert r * n as real < n as real;
  }

  /** `getRandom`, with `r` the value of `Math.random()`: the element at
      `floor(r * length)`, absent for an empty list. */
  function PickRandom<T>(list: seq<T>, r: real): (x: Option<T>)
    requires 0.0 <= r < 1.0
    ensures x.Some? <==> |list| > 0
    ensures x.Some? ==> x.value in list
  {
    if |list| == 0 then None
    else
      FloorIndexInRange(|list|, r);
      Some(list[(r * |list| as real).Floor])
  }

  /** `generateCommentary`: one of the templates of the decided category. */
  function GenerateCommentary(v1: real, v2: real, action: string, r: real): (t: Template)
    requires 0.0 <= r < 1.0
    ensures t.category == Classify(v1, v2, action)
    ensures t in Templates(t.category)
  {
    var c := Classify(v1, v2, action);
    var picked := PickRandom(Templates(c), r);
    picked.value
  }
}
