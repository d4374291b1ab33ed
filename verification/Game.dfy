/**
 * The single-player game screen: one stored answer slot per question of the tier, the
 * index of the question on screen and the option currently selected, changed by the
 * radio buttons, the keys "1" to "4", the next button and Enter.
 */
module Game {
  import opened Wrappers
  import opened Text
  import opened QuizData

  /** What a press of next (or Enter) did. */
  datatype NextOutcome =
    | Refused                      // no option selected: nothing changes
    | Advanced                     // moved on to the following question
    | Finished(answers: seq<Option<int>>, totalTime: int, difficulty: Difficulty)
                                   // last question: the answers and time handed to the results screen

  /** The option a key name selects: `parseInt(key) - 1` for keys between "1" and "4" (string order) that parse to 1..4. */
  function KeyOption(key: string): (k: Option<int>)
    ensures k.Some? ==> 0 <= k.value < OptionCount
    ensures key == "Enter" ==> k.None?
  {
    if InKeyRange(key) then
      match ParseInt(key)
      case Some(n) => if 1 <= n <= OptionCount then Some(n - 1) else None
      case None => None
    else None
  }

  /** The keys "1" to "4" select options 0 to 3. */
  lemma DigitKeysSelect(c: char)
    requires '1' <= c <= '4'
    ensures KeyOption([c]) == Some(c as int - '1' as int)
  {
    assert [c][1..] == [];
    assert LeadingDigits([c]) == [c];
    assert [c][..0] == [];
    assert DigitsValue([c]) == DigitValue(c);
    assert InKeyRange([c]);
  }

  /**
   * A key name of two or more leading digits selects nothing: "12" passes the string
   * comparison, but its value is at least 10.
   */
  lemma {:induction false} MultiDigitKeysSelectNothing(key: string)
    requires |key| >= 2 && IsDigit(key[0]) && IsDigit(key[1])
    ensures KeyOption(key).None?
  {
    if InKeyRange(key) {
      var p := LeadingDigits(key);
      assert key[1..][0] == key[1];
      assert p == [key[0]] + LeadingDigits(key[1..]);
      LeadingNonZeroValue(p);
      assert ParseInt(key) == Some(DigitsValue(p));
    }
  }

  /** JavaScript's `"1" <= key && key <= "4"`: lexicographic comparison of the key name. */
  predicate InKeyRange(key: string)
  {
    key != [] && ('1' <= key[0] <= '3' || key == "4")
  }

  class GameSession {
    const difficulty: Difficulty
    var answers: array<Option<int>>
    var current: nat
    var selected: Option<int>

    /**
     * One slot per question, the index on a question, no answer stored beyond the current
     * question, and the selection mirroring the current slot.
     */
    ghost predicate Valid()
      reads this, answers
    {
      && answers.Length == |Tier(difficulty)|
      && current < answers.Length
      && (forall j :: current < j < answers.Length ==> answers[j].None?)
      && selected == answers[current]
    }

    /** The init effect: one empty slot per question of the tier, on the first question. */
    constructor (d: Difficulty)
      ensures Valid()
      ensures difficulty == d && current == 0 && selected.None?
      ensures fresh(answers) && answers[..] == seq(TierSize, _ => None)
    {
      difficulty := d;
      answers := new Option<int>[|Tier(d)|](_ => None);
      current := 0;
      selected := None;
    }

    /** The reload effect: when the question changes, the selection is read back from its slot. */
    method ReloadSelection()
      requires Valid()
      modifies this`selected
      ensures Valid()
      ensures selected == answers[current]
      ensures selected == old(selected)
    {
      if answers.Length > 0 {
        selected := answers[current];
      }
    }

    /** `handleAnswerChange` and the digit keys: select option `k` and store it in the current slot. */
    method Select(k: int)
      requires Valid()
      modifies this`selected, answers
      ensures Valid()
      ensures selected == Some(k) && current == old(current)
      ensures answers[..] == old(answers[..])[current := Some(k)]
    {
      selected := Some(k);
      answers[current] := Some(k);
    }

    /** `handleNext`: refused without a selection; otherwise store it, then advance or finish. */
    method Next(elapsed: int) returns (outcome: NextOutcome)
      requires Valid()
      modifies this, answers
      ensures Valid()
      ensures answers == old(answers)
      ensures old(selected).None? ==> (outcome == Refused && unchanged(this) && unchanged(answers))
      ensures old(selected).Some? ==> answers[..] == old(answers[..])[old(current) := old(selected)]
      ensures old(selected).Some? && old(current) + 1 < answers.Length ==>
                (outcome == Advanced && current == old(current) + 1 && selected.None?)
      ensures old(selected).Some? && old(current) + 1 == answers.Length ==>
                (outcome == Finished(answers[..], elapsed, difficulty)
                 && current == old(current) && selected == old(selected))
    {
      if selected.None? {
        return Refused;
      }
      answers[current] := selected;
      if current == answers.Length - 1 {
        outcome := Finished(answers[..], elapsed, difficulty);
      } else {
        current := current + 1;
        selected := None;
        outcome := Advanced;
      }
    }

    /**
     * `handleKeyPress`: a digit key selects as the radio buttons do; Enter with a selection
     * moves on as next does, except that on the last question the stored answers handed
     * over include the selection without the slot itself being written.
     */
    method KeyPress(key: string, elapsed: int) returns (outcome: Option<NextOutcome>)
      requires Valid()
      modifies this, answers
      ensures Valid()
      ensures answers == old(answers)
      ensures KeyOption(key).Some? ==>
                (outcome.None? && selected == KeyOption(key)
                 && current == old(current) && answers[..] == old(answers[..])[current := KeyOption(key)])
      ensures KeyOption(key).None? && (key != "Enter" || old(selected).None?) ==>
                (outcome.None? && unchanged(this) && unchanged(answers))
      ensures key == "Enter" && old(selected).Some? && old(current) + 1 < answers.Length ==>
                (outcome == Some(Advanced) && current == old(current) + 1 && selected.None?
                 && answers[..] == old(answers[..])[old(current) := old(selected)])
      ensures key == "Enter" && old(selected).Some? && old(current) + 1 == answers.Length ==>
                (outcome == Some(Finished(old(answers[..])[old(current) := old(selected)], elapsed, difficulty))
                 && unchanged(this) && unchanged(answers))
    {
      outcome := None;
      var option := KeyOption(key);
      if option.Some? {
        Select(option.value);
      }
      if key == "Enter" && selected.Some? {
        var updated := answers[..][current := selected];
        if current == answers.Length - 1 {
          outcome := Some(Finished(updated, elapsed, difficulty));
        } else {
          answers[current] := selected;
          current := current + 1;
          selected := None;
          outcome := Some(Advanced);
        }
      }
    }
  }

  /**
   * The init effect's guard: without a stored player name (an empty one counts as missing)
   * or difficulty the page redirects to setup and no session starts.
   */
  method Start(storedName: Option<string>, storedDifficulty: Option<Difficulty>) returns (s: Option<GameSession>)
    ensures s.None? <==> (storedName.None? || storedName == Some("") || storedDifficulty.None?)
    ensures s.Some? ==> (fresh(s.value) && fresh(s.value.answers) && s.value.Valid()
                         && s.value.difficulty == storedDifficulty.value
                         && s.value.current == 0 && s.value.selected.None?
                         && s.value.answers[..] == seq(TierSize, _ => None))
  {
    if storedName.None? || storedName.value == "" || storedDifficulty.None? {
      return None;
    }
    var session := new GameSession(storedDifficulty.value);
    s := Some(session);
  }
}
